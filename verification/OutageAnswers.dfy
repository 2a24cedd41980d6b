/**
  What the combined limiter answers under any pattern of outages: the two pruned stores are
  indistinguishable from two full logs, and the delay that memory hands on is exact.
 */
module OutageAnswers {
  import opened Wrappers
  import opened RateLimiter
  import opened AttemptWindows
  import opened RedisOutage

  /** What was recorded in Redis since Redis was last cleared, and in memory since the last clear. */
  datatype Logs = Logs(redis: seq<real>, memory: seq<real>)

  /** The entries of a full log that are still in the window decide. */
  function FromLog(c: Config, log: seq<real>, now: real): Option<int> {
    Answer(Live(log, now - c.window as real), c.limit, c.window, now)
  }

  /** Redis decides if it is up and finds the key limited; otherwise memory does. */
  function LogAnswer(c: Config, l: Logs, q: Request): Option<int> {
    if q.upCheck && FromLog(c, l.redis, q.redisNow).Some? then FromLog(c, l.redis, q.redisNow)
    else FromLog(c, l.memory, q.memoryNow)
  }

  /** A failure goes to Redis if it is up, else to memory; a success forgets memory, and Redis if it is up. */
  function LogSettle(l: Logs, q: Request): Logs {
    match q.outcome
    case Crashed => l
    case Failed => if q.upAfter then l.(redis := l.redis + [q.after]) else l.(memory := l.memory + [q.after])
    case Succeeded => Logs(if q.upAfter then [] else l.redis, [])
  }

  function LogServe(c: Config, l: Logs, q: Request): Logs {
    if LogAnswer(c, l, q).Some? then l else LogSettle(l, q)
  }

  function LogServeAll(c: Config, l: Logs, qs: seq<Request>): Logs
    decreases |qs|
  {
    if qs == [] then l else LogServeAll(c, LogServe(c, l, qs[0]), qs[1..])
  }

  function Answers(c: Config, s: Side, qs: seq<Request>): seq<Option<int>>
    decreases |qs|
  {
    if qs == [] then [] else var (t, answer) := Serve(c, s, qs[0]); [answer] + Answers(c, t, qs[1..])
  }

  function LogAnswers(c: Config, l: Logs, qs: seq<Request>): seq<Option<int>>
    decreases |qs|
  {
    if qs == [] then [] else [LogAnswer(c, l, qs[0])] + LogAnswers(c, LogServe(c, l, qs[0]), qs[1..])
  }

  // ---------------------------------------------------------------- the two stores refine the two logs

  /** Each store is its log without expired entries. */
  ghost predicate StoresCoupled(c: Config, stores: Stores, l: Logs, clock: real) {
    RedisCoupled(c, stores.zset, l.redis, clock) && Coupled(stores.bucket, l.memory, c.window, clock)
  }

  /** The memory's log of the model is that of the log machine. */
  ghost predicate Matches(c: Config, s: Side, l: Logs) {
    StoresCoupled(c, s.stores, l, s.clock) && s.memoryLog == l.memory
  }

  ghost predicate InTime(clock: real, q: Request) {
    clock <= q.redisNow <= q.memoryNow <= q.after && clock < q.after
  }

  lemma MemoryShows(c: Config, bucket: seq<real>, log: seq<real>, clock: real, now: real)
    requires Coupled(bucket, log, c.window, clock) && clock <= now
    ensures LazyStep(bucket, c.window, Check(c.limit, now)).1.after == FromLog(c, log, now)
  {
    PruneShowsLive(bucket, log, c.window, clock, now);
  }

  lemma RedisShows(c: Config, zset: seq<real>, log: seq<real>, clock: real, now: real)
    requires RedisCoupled(c, zset, log, clock) && clock <= now
    ensures Answer(ZRemRange(zset, 0.0, now - c.window as real), c.limit, c.window, now) == FromLog(c, log, now)
  {
    RemShowsLive(c, zset, log, clock, now);
  }

  lemma CheckDecides(c: Config, stores: Stores, q: Request, redis: Option<int>, memory: Option<int>)
    requires Answer(ZRemRange(stores.zset, 0.0, q.redisNow - c.window as real), c.limit, c.window, q.redisNow) == redis
    requires LazyStep(stores.bucket, c.window, Check(c.limit, q.memoryNow)).1.after == memory
    ensures CheckStores(stores, c.limit, c.window, q.upCheck, q.redisNow, q.memoryNow).1
            == if q.upCheck && redis.Some? then redis else memory
  {
  }

  /** A check answers from the two logs. */
  lemma CheckAnswers(c: Config, stores: Stores, l: Logs, clock: real, q: Request)
    requires StoresCoupled(c, stores, l, clock) && InTime(clock, q)
    ensures CheckStores(stores, c.limit, c.window, q.upCheck, q.redisNow, q.memoryNow).1 == LogAnswer(c, l, q)
  {
    RedisShows(c, stores.zset, l.redis, clock, q.redisNow);
    MemoryShows(c, stores.bucket, l.memory, clock, q.memoryNow);
    CheckDecides(c, stores, q, FromLog(c, l.redis, q.redisNow), FromLog(c, l.memory, q.memoryNow));
  }

  lemma PrunedStaysCoupled(c: Config, bucket: seq<real>, log: seq<real>, clock: real, now: real, later: real)
    requires Coupled(bucket, log, c.window, clock) && clock <= now <= later
    ensures Coupled(Pruned(bucket, now - c.window as real), log, c.window, later)
  {
    PruneKeepsTail(bucket, log, c.window, clock, now, later);
  }

  lemma RedisLater(c: Config, zset: seq<real>, log: seq<real>, clock: real, later: real)
    requires RedisCoupled(c, zset, log, clock) && clock <= later
    ensures RedisCoupled(c, zset, log, later)
  {
    CoupledLater(zset, log, c.window, clock, later);
  }

  /** A check only prunes. */
  lemma CheckStaysCoupled(c: Config, stores: Stores, l: Logs, clock: real, q: Request)
    requires StoresCoupled(c, stores, l, clock) && InTime(clock, q)
    ensures StoresCoupled(c, CheckStores(stores, c.limit, c.window, q.upCheck, q.redisNow, q.memoryNow).0, l, q.after)
  {
    RedisLater(c, stores.zset, l.redis, clock, q.after);
    RemCoupled(c, stores.zset, l.redis, clock, q.redisNow, q.after);
    CoupledLater(stores.bucket, l.memory, c.window, clock, q.after);
    PrunedStaysCoupled(c, stores.bucket, l.memory, clock, q.memoryNow, q.after);
  }

  lemma RecordStaysCoupled(c: Config, stores: Stores, l: Logs, up: bool, now: real)
    requires StoresCoupled(c, stores, l, now)
    requires (forall x :: x in l.redis ==> x < now) && (forall x :: x in l.memory ==> x < now)
    ensures StoresCoupled(c, RecordStores(stores, c.window, up, now).0,
                          if up then l.(redis := l.redis + [now]) else l.(memory := l.memory + [now]), now)
  {
    if up {
      RecordCoupled(c, stores.zset, l.redis, now, now);
    } else {
      PrunedAppend(stores.bucket, l.memory, c.window, now);
      AppendKeepsSorted(l.memory, now);
    }
  }

  lemma ClearStaysCoupled(c: Config, stores: Stores, l: Logs, up: bool, now: real)
    requires StoresCoupled(c, stores, l, now)
    ensures StoresCoupled(c, ClearStores(stores, up), Logs(if up then [] else l.redis, []), now)
  {
    EmptyTail(c.window, now);
  }

  /** A request that is not limited records or clears what its check left. */
  function Settled(c: Config, stores: Stores, q: Request): Stores {
    match q.outcome
    case Crashed => stores
    case Failed => RecordStores(stores, c.window, q.upAfter, q.after).0
    case Succeeded => ClearStores(stores, q.upAfter)
  }

  lemma ServeIs(c: Config, s: Side, q: Request)
    ensures var (stores, answer) := CheckStores(s.stores, c.limit, c.window, q.upCheck, q.redisNow, q.memoryNow);
            && Serve(c, s, q).1 == answer && Serve(c, s, q).0.clock == q.after
            && Serve(c, s, q).0.stores == (if answer.Some? then stores else Settled(c, stores, q))
            && Serve(c, s, q).0.memoryLog == if answer.Some? then s.memoryLog
                                             else LogSettle(Logs([], s.memoryLog), q).memory
  {
  }

  lemma SettleStaysCoupled(c: Config, stores: Stores, l: Logs, clock: real, q: Request)
    requires StoresCoupled(c, stores, l, q.after) && clock < q.after
    requires (forall i :: 0 <= i < |l.redis| ==> l.redis[i] <= clock)
    requires (forall i :: 0 <= i < |l.memory| ==> l.memory[i] <= clock)
    ensures StoresCoupled(c, Settled(c, stores, q), LogSettle(l, q), q.after)
  {
    if q.outcome.Failed? {
      StampsBefore(l.redis, clock, q.after);
      StampsBefore(l.memory, clock, q.after);
      RecordStaysCoupled(c, stores, l, q.upAfter, q.after);
    } else if q.outcome.Succeeded? {
      ClearStaysCoupled(c, stores, l, q.upAfter, q.after);
    }
  }

  lemma MemorySettles(l: Logs, q: Request)
    ensures LogSettle(l, q).memory == LogSettle(Logs([], l.memory), q).memory
  {
  }

  lemma StoresAfter(c: Config, s: Side, l: Logs, q: Request)
    requires StoresCoupled(c, s.stores, l, s.clock) && InTime(s.clock, q)
    ensures Serve(c, s, q).1 == LogAnswer(c, l, q)
    ensures StoresCoupled(c, Serve(c, s, q).0.stores, LogServe(c, l, q), q.after)
  {
    CheckAnswers(c, s.stores, l, s.clock, q);
    CheckStaysCoupled(c, s.stores, l, s.clock, q);
    var (stores, answer) := CheckStores(s.stores, c.limit, c.window, q.upCheck, q.redisNow, q.memoryNow);
    ServeIs(c, s, q);
    MemorySettles(l, q);
    if answer.None? {
      SettleStaysCoupled(c, stores, l, s.clock, q);
    }
  }

  /** One request answers as the logs do and leaves both machines alike. */
  lemma ServeMatches(c: Config, s: Side, l: Logs, q: Request)
    requires Matches(c, s, l) && InTime(s.clock, q)
    ensures Serve(c, s, q).1 == LogAnswer(c, l, q)
    ensures Matches(c, Serve(c, s, q).0, LogServe(c, l, q)) && Serve(c, s, q).0.clock == q.after
  {
    StoresAfter(c, s, l, q);
    ServeIs(c, s, q);
    MemorySettles(l, q);
  }

  lemma {:induction false} RunMatches(c: Config, s: Side, l: Logs, qs: seq<Request>)
    requires Matches(c, s, l) && Timely(s.clock, qs)
    ensures Answers(c, s, qs) == LogAnswers(c, l, qs)
    ensures Matches(c, ServeAll(c, s, qs), LogServeAll(c, l, qs))
    decreases |qs|
  {
    if qs != [] {
      ServeMatches(c, s, l, qs[0]);
      RunMatches(c, Serve(c, s, qs[0]).0, LogServe(c, l, qs[0]), qs[1..]);
    }
  }

  lemma StartMatches(c: Config)
    ensures Matches(c, START, Logs([], []))
  {
    EmptyTail(c.window, 0.0);
  }

  /**
    Main result: under any pattern of outages, every request of every run is answered from the logs of
    what Redis and memory were given, although both stores keep dropping expired entries.
   */
  lemma OutageRefinesLogs(c: Config, qs: seq<Request>)
    requires Timely(0.0, qs)
    ensures Answers(c, START, qs) == LogAnswers(c, Logs([], []), qs)
  {
    StartMatches(c);
    RunMatches(c, START, Logs([], []), qs);
  }

  /** Redis answers nothing: it is down, or fewer than `limit` of its entries are still in the window. */
  ghost predicate RedisSilent(c: Config, l: Logs, q: Request) {
    q.upCheck ==> FromLog(c, l.redis, q.redisNow) == None
  }

  /** After any run the next request is answered from the logs, and memory's log is the model's. */
  lemma NextAnswer(c: Config, qs: seq<Request>, q: Request)
    requires Timely(0.0, qs) && Timely(ServeAll(c, START, qs).clock, [q])
    ensures var s, l := ServeAll(c, START, qs), LogServeAll(c, Logs([], []), qs);
            && Serve(c, s, q).1 == LogAnswer(c, l, q) && s.memoryLog == l.memory
            && Sorted(s.memoryLog) && forall i :: 0 <= i < |s.memoryLog| ==> s.memoryLog[i] <= s.clock
  {
    StartMatches(c);
    RunMatches(c, START, Logs([], []), qs);
    ServeMatches(c, ServeAll(c, START, qs), LogServeAll(c, Logs([], []), qs), q);
  }

  /** When Redis answers nothing, the request gets the answer of all that memory was given. */
  lemma MemoryAnswers(c: Config, qs: seq<Request>, q: Request)
    requires Timely(0.0, qs) && Timely(ServeAll(c, START, qs).clock, [q])
    requires RedisSilent(c, LogServeAll(c, Logs([], []), qs), q)
    ensures var s := ServeAll(c, START, qs);
            Serve(c, s, q).1
            == Answer(Live(s.memoryLog, q.memoryNow - c.window as real), c.limit, c.window, q.memoryNow)
  {
    NextAnswer(c, qs, q);
  }

  lemma MemoryWithin(c: Config, qs: seq<Request>, to: real)
    requires c.limit >= 1 && Timely(0.0, qs)
    ensures InWindow(ServeAll(c, START, qs).memoryLog, c.window, to) <= c.limit
  {
    EmptyTail(c.window, 0.0);
    ServeAllInv(c, START, qs);
    assert Within(ServeAll(c, START, qs).memoryLog, [], c, to);
  }

  lemma MemorySorted(c: Config, qs: seq<Request>, q: Request)
    requires Timely(0.0, qs) && Timely(ServeAll(c, START, qs).clock, [q])
    ensures var log := ServeAll(c, START, qs).memoryLog;
            Sorted(log) && forall i :: 0 <= i < |log| ==> log[i] <= q.memoryNow
  {
    NextAnswer(c, qs, q);
  }

  /**
    Main result: whatever outages there were, the delay that memory hands on is the least whole number
    of seconds after which memory lets the key in again.
   */
  lemma MemoryDelayExact(c: Config, qs: seq<Request>, q: Request)
    requires c.limit >= 1 && Timely(0.0, qs) && Timely(ServeAll(c, START, qs).clock, [q])
    requires RedisSilent(c, LogServeAll(c, Logs([], []), qs), q)
    ensures var s := ServeAll(c, START, qs);
            Serve(c, s, q).1.Some? ==> LeastDelay(s.memoryLog, c.limit, c.window, q.memoryNow, Serve(c, s, q).1.value)
  {
    MemoryAnswers(c, qs, q);
    MemoryWithin(c, qs, q.memoryNow);
    MemorySorted(c, qs, q);
    ExactWithin(c, ServeAll(c, START, qs).memoryLog, q.memoryNow);
  }

  /** With Redis down throughout, that is every request: its delay is the least after which the key is free. */
  lemma DownDelayExact(c: Config, qs: seq<Request>, q: Request)
    requires c.limit >= 1 && Timely(0.0, qs) && Timely(ServeAll(c, START, qs).clock, [q])
    requires forall r :: r in qs + [q] ==> !r.upCheck && !r.upAfter
    ensures var s := ServeAll(c, START, qs);
            var answer := Serve(c, s, q).1;
            && answer == Answer(Live(s.memoryLog, q.memoryNow - c.window as real), c.limit, c.window, q.memoryNow)
            && (answer.Some? ==> LeastDelay(s.memoryLog, c.limit, c.window, q.memoryNow, answer.value))
  {
    assert q in qs + [q];
    MemoryAnswers(c, qs, q);
    MemoryDelayExact(c, qs, q);
  }

  // ---------------------------------------------------------------- what a success forgets

  /** A request that is let in and whose authentication succeeds. */
  ghost predicate Forgiven(c: Config, qs: seq<Request>, q: Request) {
    && Timely(0.0, qs) && Timely(ServeAll(c, START, qs).clock, [q])
    && Serve(c, ServeAll(c, START, qs), q).1 == None && q.outcome == Succeeded
  }

  lemma {:induction false} LastServe(c: Config, s: Side, l: Logs, qs: seq<Request>, q: Request)
    ensures ServeAll(c, s, qs + [q]) == Serve(c, ServeAll(c, s, qs), q).0
    ensures LogServeAll(c, l, qs + [q]) == LogServe(c, LogServeAll(c, l, qs), q)
    decreases |qs|
  {
    if qs == [] {
      assert ([] + [q])[0] == q && ([] + [q])[1..] == [];
    } else {
      assert (qs + [q])[1..] == qs[1..] + [q];
      LastServe(c, Serve(c, s, qs[0]).0, LogServe(c, l, qs[0]), qs[1..], q);
    }
  }

  lemma {:induction false} TimelyAppend(c: Config, s: Side, qs: seq<Request>, q: Request)
    requires Timely(s.clock, qs) && Timely(ServeAll(c, s, qs).clock, [q])
    ensures Timely(s.clock, qs + [q])
    decreases |qs|
  {
    if qs == [] {
      assert [] + [q] == [q];
    } else {
      assert (qs + [q])[1..] == qs[1..] + [q];
      TimelyAppend(c, Serve(c, s, qs[0]).0, qs[1..], q);
    }
  }

  lemma AfterSuccess(c: Config, qs: seq<Request>, q: Request, next: Request)
    requires Forgiven(c, qs, q) && Timely(q.after, [next])
    ensures var kept := if q.upAfter then [] else LogServeAll(c, Logs([], []), qs).redis;
            Serve(c, ServeAll(c, START, qs + [q]), next).1 == LogAnswer(c, Logs(kept, []), next)
  {
    NextAnswer(c, qs, q);
    LastServe(c, START, Logs([], []), qs, q);
    TimelyAppend(c, START, qs, q);
    ServeIs(c, ServeAll(c, START, qs), q);
    NextAnswer(c, qs + [q], next);
  }

  /** After a success with Redis up nothing is left of the past, and the next request is let in. */
  lemma SuccessFreesKey(c: Config, qs: seq<Request>, q: Request, next: Request)
    requires Forgiven(c, qs, q) && q.upAfter && Timely(q.after, [next])
    ensures ServeAll(c, START, qs + [q]).stores == Stores([], [])
    ensures Serve(c, ServeAll(c, START, qs + [q]), next).1 == None
  {
    AfterSuccess(c, qs, q, next);
    LastServe(c, START, Logs([], []), qs, q);
  }

  /**
    A success while Redis is down forgets memory only.  The next request is limited exactly if Redis is
    back and what it was given before the outage still fills the limit.
   */
  lemma SuccessWhileDown(c: Config, qs: seq<Request>, q: Request, next: Request)
    requires Forgiven(c, qs, q) && !q.upAfter && Timely(q.after, [next])
    ensures ServeAll(c, START, qs + [q]).stores.bucket == []
    ensures var kept := LogServeAll(c, Logs([], []), qs).redis;
            var live := Live(kept, next.redisNow - c.window as real);
            Serve(c, ServeAll(c, START, qs + [q]), next).1.Some?
            <==> next.upCheck && live != [] && |live| >= c.limit
  {
    AfterSuccess(c, qs, q, next);
    LastServe(c, START, Logs([], []), qs, q);
  }

  // ---------------------------------------------------------------- counts

  lemma RedisCounts(c: Config, zset: seq<real>, log: seq<real>, clock: real, now: real)
    requires RedisCoupled(c, zset, log, clock) && clock < now
    ensures |ZAdd(ZRemRange(zset, 0.0, now - c.window as real), now)| == |Live(log, now - c.window as real)| + 1
  {
    RemShowsLive(c, zset, log, clock, now);
    LiveFacts(log, now - c.window as real);
    StampsBefore(log, clock, now);
    ZAddLast(Live(log, now - c.window as real), now);
  }

  /** The count that a record returns is that of the live entries of its log, itself included. */
  lemma RecordCounts(c: Config, stores: Stores, l: Logs, clock: real, up: bool, now: real)
    requires StoresCoupled(c, stores, l, clock) && clock < now
    ensures RecordStores(stores, c.window, up, now).1
            == |Live(if up then l.redis else l.memory, now - c.window as real)| + 1
  {
    if up {
      RedisCounts(c, stores.zset, l.redis, clock, now);
    } else {
      PruneShowsLive(stores.bucket, l.memory, c.window, clock, now);
    }
  }
}
