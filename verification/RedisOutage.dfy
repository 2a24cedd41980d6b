/**
  The combined limiter under Redis outages.  Requests for one key are served one after the other;
  each sees Redis up or down when it checks and again when it records or clears.
 */
module RedisOutage {
  import opened Wrappers
  import opened RateLimiter
  import opened AttemptWindows
  import Ordering

  datatype Request = Request(upCheck: bool, redisNow: real, memoryNow: real, outcome: Outcome,
                             upAfter: bool, after: real)

  /**
    Both stores of a key, and the attempts each of them was given since the key's last clear;
    `recovered` lists those Redis received from requests whose own check had found it down.
   */
  datatype Side = Side(stores: Stores, redisLog: seq<real>, memoryLog: seq<real>, recovered: seq<real>, clock: real)

  const START := Side(Stores([], []), [], [], [], 0.0)

  /** Redis comes back between the request's check and its record. */
  predicate Recovers(q: Request) { q.upAfter && !q.upCheck }

  /** One request: check, and if not limited authenticate and then record or clear. */
  function Serve(c: Config, s: Side, q: Request): (Side, Option<int>) {
    var (stores, answer) := CheckStores(s.stores, c.limit, c.window, q.upCheck, q.redisNow, q.memoryNow);
    var checked := s.(stores := stores, clock := q.after);
    if answer.Some? then (checked, answer)
    else
      match q.outcome
      case Crashed => (checked, None)
      case Succeeded => (Side(ClearStores(stores, q.upAfter), [], [], [], q.after), None)
      case Failed =>
        var recorded := checked.(stores := RecordStores(stores, c.window, q.upAfter, q.after).0);
        (if Recovers(q) then recorded.(redisLog := s.redisLog + [q.after], recovered := s.recovered + [q.after])
         else if q.upAfter then recorded.(redisLog := s.redisLog + [q.after])
         else recorded.(memoryLog := s.memoryLog + [q.after]), None)
  }

  function ServeAll(c: Config, s: Side, qs: seq<Request>): Side
    decreases |qs|
  {
    if qs == [] then s else ServeAll(c, Serve(c, s, qs[0]).0, qs[1..])
  }

  /** Clock readings never go back, and no two records share one. */
  ghost predicate Timely(clock: real, qs: seq<Request>)
    decreases |qs|
  {
    qs != [] ==>
      && clock <= qs[0].redisNow <= qs[0].memoryNow <= qs[0].after
      && clock < qs[0].after
      && Timely(qs[0].after, qs[1..])
  }

  /** How many requests of a run see Redis come back in their middle. */
  function Recoveries(qs: seq<Request>): nat {
    if qs == [] then 0 else (if Recovers(qs[0]) then 1 else 0) + Recoveries(qs[1..])
  }

  // ---------------------------------------------------------------- the invariant

  /** In every window the log exceeds the limit by at most the entries of `excess` that lie in it. */
  ghost predicate Within(log: seq<real>, excess: seq<real>, c: Config, to: real) {
    InWindow(log, c.window, to) <= Cap(c, 1) + InWindow(excess, c.window, to)
  }

  ghost predicate SideInv(c: Config, s: Side) {
    && Ordering.NoDuplicates(s.redisLog)
    && (forall x :: x in s.redisLog || x in s.memoryLog ==> x <= s.clock)
    && Holds(s.stores.zset, s.redisLog, s.clock - c.window as real)
    && IsTail(s.stores.bucket, s.memoryLog, c.window, s.clock)
    && (forall to :: Within(s.redisLog, s.recovered, c, to))
    && (forall to :: Within(s.memoryLog, [], c, to))
  }

  lemma {:induction false} FutureWindow(log: seq<real>, width: int, clock: real, to: real)
    requires forall x :: x in log ==> x <= clock
    ensures clock <= to ==> InWindow(log, width, to) <= InWindow(log, width, clock)
  {
    if log != [] {
      forall i | 0 <= i < |log| - 1 ensures log[i] <= clock { assert log[i] in log; }
      assert log[|log| - 1] in log;
      FutureWindow(log[..|log| - 1], width, clock, to);
    }
  }

  /** Recording a stamp later than all others is safe when the window ending there has room. */
  lemma RecordWithin(c: Config, log: seq<real>, excess: seq<real>, clock: real, stamp: real)
    requires forall x :: x in log ==> x <= clock
    requires clock < stamp && forall to :: Within(log, excess, c, to)
    requires InWindow(log, c.window, stamp) <= Cap(c, 0)
    ensures forall to :: Within(log + [stamp], excess, c, to)
  {
    forall to ensures Within(log + [stamp], excess, c, to) {
      InWindowAppend(log, stamp, c.window, to);
      assert Within(log, excess, c, to);
      if stamp <= to {
        FutureWindow(log, c.window, stamp, to);
      }
    }
  }

  /** An unchecked record takes its own share of the excess. */
  lemma RecoveryWithin(c: Config, log: seq<real>, excess: seq<real>, stamp: real)
    requires forall to :: Within(log, excess, c, to)
    ensures forall to :: Within(log + [stamp], excess + [stamp], c, to)
  {
    forall to ensures Within(log + [stamp], excess + [stamp], c, to) {
      InWindowAppend(log, stamp, c.window, to);
      InWindowAppend(excess, stamp, c.window, to);
      assert Within(log, excess, c, to);
    }
  }

  lemma CheckKeeps(c: Config, s: Side, q: Request)
    requires SideInv(c, s) && Timely(s.clock, [q])
    ensures var stores := CheckStores(s.stores, c.limit, c.window, q.upCheck, q.redisNow, q.memoryNow).0;
            && Holds(stores.zset, s.redisLog, q.after - c.window as real)
            && IsTail(stores.bucket, s.memoryLog, c.window, q.after)
  {
    PruneKeepsTail(s.stores.bucket, s.memoryLog, c.window, s.clock, q.memoryNow, q.after);
    TailLater(s.stores.bucket, s.memoryLog, c.window, s.clock, q.after);
  }

  /** A check that passes while Redis is up leaves room in Redis; any passing check leaves room in memory. */
  lemma PassLeavesRoom(c: Config, s: Side, q: Request)
    requires SideInv(c, s) && Timely(s.clock, [q])
    requires CheckStores(s.stores, c.limit, c.window, q.upCheck, q.redisNow, q.memoryNow).1 == None
    ensures q.upCheck ==> InWindow(s.redisLog, c.window, q.after) <= Cap(c, 0)
    ensures InWindow(s.memoryLog, c.window, q.after) <= Cap(c, 0)
  {
    CheckKeeps(c, s, q);
    var stores := CheckStores(s.stores, c.limit, c.window, q.upCheck, q.redisNow, q.memoryNow).0;
    HeldCount(c, stores.zset, s.redisLog, q.after, q.after);
    TailCounts(c, stores.bucket, s.memoryLog, q.after, q.after);
  }

  lemma RedisRecordInv(c: Config, s: Side, q: Request)
    requires SideInv(c, s) && Timely(s.clock, [q]) && q.upAfter && q.outcome.Failed?
    requires Serve(c, s, q).1 == None
    ensures SideInv(c, Serve(c, s, q).0)
  {
    CheckKeeps(c, s, q);
    PassLeavesRoom(c, s, q);
    if q.upCheck {
      RecordWithin(c, s.redisLog, s.recovered, s.clock, q.after);
    } else {
      RecoveryWithin(c, s.redisLog, s.recovered, q.after);
    }
    RedisGrown(c, s, Serve(c, s, q).0, q.after);
  }

  lemma RedisGrown(c: Config, s: Side, t: Side, stamp: real)
    requires SideInv(c, s) && s.clock < stamp && t.clock == stamp
    requires t.memoryLog == s.memoryLog && t.redisLog == s.redisLog + [stamp]
    requires Holds(t.stores.zset, s.redisLog, stamp - c.window as real) && stamp in t.stores.zset
    requires IsTail(t.stores.bucket, s.memoryLog, c.window, stamp)
    requires forall to :: Within(s.redisLog + [stamp], t.recovered, c, to)
    ensures SideInv(c, t)
  {
    assert forall i :: 0 <= i < |s.redisLog| ==> s.redisLog[i] in s.redisLog;
  }

  lemma MemoryRecordInv(c: Config, s: Side, q: Request)
    requires SideInv(c, s) && Timely(s.clock, [q]) && !q.upAfter && q.outcome.Failed?
    requires Serve(c, s, q).1 == None
    ensures SideInv(c, Serve(c, s, q).0)
  {
    CheckKeeps(c, s, q);
    PassLeavesRoom(c, s, q);
    MemoryGrown(c, s, CheckStores(s.stores, c.limit, c.window, q.upCheck, q.redisNow, q.memoryNow).0,
                Serve(c, s, q).0, q.after);
  }

  lemma MemoryGrown(c: Config, s: Side, checked: Stores, t: Side, stamp: real)
    requires SideInv(c, s) && s.clock < stamp && t.clock == stamp
    requires t.redisLog == s.redisLog && t.recovered == s.recovered && t.memoryLog == s.memoryLog + [stamp]
    requires t.stores == RecordStores(checked, c.window, false, stamp).0
    requires Holds(checked.zset, s.redisLog, stamp - c.window as real)
    requires IsTail(checked.bucket, s.memoryLog, c.window, stamp)
    requires InWindow(s.memoryLog, c.window, stamp) <= Cap(c, 0)
    ensures SideInv(c, t)
  {
    RecordWithin(c, s.memoryLog, [], s.clock, stamp);
    PrunedAppend(checked.bucket, s.memoryLog, c.window, stamp);
    MemoryInv(c, s, t, stamp);
  }

  lemma MemoryInv(c: Config, s: Side, t: Side, stamp: real)
    requires SideInv(c, s) && s.clock < stamp && t.clock == stamp
    requires t.redisLog == s.redisLog && t.recovered == s.recovered && t.memoryLog == s.memoryLog + [stamp]
    requires Holds(t.stores.zset, t.redisLog, stamp - c.window as real)
    requires IsTail(t.stores.bucket, t.memoryLog, c.window, stamp)
    requires forall to :: Within(t.memoryLog, [], c, to)
    ensures SideInv(c, t)
  {
  }

  lemma PrunedAppend(bucket: seq<real>, log: seq<real>, window: int, now: real)
    requires IsTail(bucket, log, window, now)
    ensures IsTail(Pruned(bucket, now - window as real) + [now], log + [now], window, now)
  {
    PruneKeepsTail(bucket, log, window, now, now, now);
    AppendKeepsTail(Pruned(bucket, now - window as real), log, window, now, now);
  }

  lemma NoRecordInv(c: Config, s: Side, q: Request)
    requires SideInv(c, s) && Timely(s.clock, [q])
    requires Serve(c, s, q).1 != None || !q.outcome.Failed?
    ensures SideInv(c, Serve(c, s, q).0)
  {
    CheckKeeps(c, s, q);
    EmptyTail(c.window, q.after);
  }

  lemma ServeInv(c: Config, s: Side, q: Request)
    requires SideInv(c, s) && Timely(s.clock, [q])
    ensures SideInv(c, Serve(c, s, q).0)
  {
    if Serve(c, s, q).1 != None || !q.outcome.Failed? {
      NoRecordInv(c, s, q);
    } else if q.upAfter {
      RedisRecordInv(c, s, q);
    } else {
      MemoryRecordInv(c, s, q);
    }
  }

  lemma {:induction false} ServeAllInv(c: Config, s: Side, qs: seq<Request>)
    requires SideInv(c, s) && Timely(s.clock, qs)
    ensures SideInv(c, ServeAll(c, s, qs))
    decreases |qs|
  {
    if qs != [] {
      ServeInv(c, s, qs[0]);
      ServeAllInv(c, Serve(c, s, qs[0]).0, qs[1..]);
    }
  }

  function Attempts(c: Config, s: Side, to: real): nat {
    InWindow(s.redisLog, c.window, to) + InWindow(s.memoryLog, c.window, to)
  }

  /**
    Main result: under any pattern of outages both stores together hold at most twice the limit,
    plus the attempts in that very window during whose request Redis came back.
   */
  lemma AttemptsBound(c: Config, qs: seq<Request>, to: real)
    requires Timely(0.0, qs)
    ensures var s := ServeAll(c, START, qs);
            Attempts(c, s, to) <= 2 * Cap(c, 1) + InWindow(s.recovered, c.window, to)
  {
    EmptyTail(c.window, 0.0);
    ServeAllInv(c, START, qs);
    var s := ServeAll(c, START, qs);
    assert Within(s.redisLog, s.recovered, c, to) && Within(s.memoryLog, [], c, to);
  }

  lemma {:induction false} RecoveredCount(c: Config, s: Side, qs: seq<Request>)
    ensures |ServeAll(c, s, qs).recovered| <= |s.recovered| + Recoveries(qs)
    decreases |qs|
  {
    if qs != [] {
      RecoveredCount(c, Serve(c, s, qs[0]).0, qs[1..]);
    }
  }

  lemma {:induction false} InWindowAtMost(log: seq<real>, width: int, to: real)
    ensures InWindow(log, width, to) <= |log|
  {
    if log != [] {
      InWindowAtMost(log[..|log| - 1], width, to);
    }
  }

  /** So a run in which Redis comes back m times in the middle of a request exceeds twice the limit by at most m. */
  lemma RecoveryBound(c: Config, qs: seq<Request>, to: real)
    requires Timely(0.0, qs)
    ensures Attempts(c, ServeAll(c, START, qs), to) <= 2 * Cap(c, 1) + Recoveries(qs)
  {
    AttemptsBound(c, qs, to);
    RecoveredCount(c, START, qs);
    InWindowAtMost(ServeAll(c, START, qs).recovered, c.window, to);
  }

  lemma {:induction false} NoneRecovers(qs: seq<Request>)
    requires forall q :: q in qs ==> !Recovers(q)
    ensures Recoveries(qs) == 0
  {
    if qs != [] {
      assert qs[0] in qs;
      NoneRecovers(qs[1..]);
    }
  }

  /** Outages between requests only: at most twice the limit. */
  lemma OutageBound(c: Config, qs: seq<Request>, to: real)
    requires Timely(0.0, qs) && forall q :: q in qs ==> !Recovers(q)
    ensures Attempts(c, ServeAll(c, START, qs), to) <= 2 * Cap(c, 1)
  {
    RecoveryBound(c, qs, to);
    NoneRecovers(qs);
  }

  /** One request while Redis is up and memory is empty: memory stays empty and the answer is Redis's own. */
  lemma UpRequest(c: Config, s: Side, q: Request)
    requires s.stores.bucket == [] && s.memoryLog == [] && s.recovered == [] && q.upCheck && q.upAfter
    ensures var (t, answer) := Serve(c, s, q);
            && t.stores.bucket == [] && t.memoryLog == [] && t.recovered == []
            && answer == Answer(ZRemRange(s.stores.zset, 0.0, q.redisNow - c.window as real),
                                c.limit, c.window, q.redisNow)
  {
  }

  /** While Redis stays up the memory bucket stays empty, and each answer is Redis's own. */
  lemma {:induction false} AlwaysUp(c: Config, s: Side, qs: seq<Request>)
    requires s.stores.bucket == [] && s.memoryLog == [] && s.recovered == []
    requires forall q :: q in qs ==> q.upCheck && q.upAfter
    ensures var t := ServeAll(c, s, qs); t.stores.bucket == [] && t.memoryLog == [] && t.recovered == []
    ensures qs != [] ==> Serve(c, s, qs[0]).1
                         == Answer(ZRemRange(s.stores.zset, 0.0, qs[0].redisNow - c.window as real),
                                   c.limit, c.window, qs[0].redisNow)
    decreases |qs|
  {
    if qs != [] {
      assert qs[0] in qs;
      UpRequest(c, s, qs[0]);
      AlwaysUp(c, Serve(c, s, qs[0]).0, qs[1..]);
    }
  }

  /** So without outages the plain limit holds. */
  lemma NoOutageBound(c: Config, qs: seq<Request>, to: real)
    requires Timely(0.0, qs) && forall q :: q in qs ==> q.upCheck && q.upAfter
    ensures Attempts(c, ServeAll(c, START, qs), to) <= Cap(c, 1)
  {
    EmptyTail(c.window, 0.0);
    ServeAllInv(c, START, qs);
    AlwaysUp(c, START, qs);
    assert Within(ServeAll(c, START, qs).redisLog, [], c, to);
  }

  // ---------------------------------------------------------------- Redis, too, answers from the full log

  /** On a sorted set of non-negative scores ZREMRANGEBYSCORE drops just the expired head, like the deque's prune. */
  lemma {:induction false} ZRemIsPrune(z: seq<real>, cutoff: real)
    requires Sorted(z) && forall x :: x in z ==> x >= 0.0
    ensures ZRemRange(z, 0.0, cutoff) == Pruned(z, cutoff)
  {
    if z != [] {
      assert z[0] in z && forall x :: x in z[1..] ==> x in z;
      if z[0] <= cutoff {
        ZRemIsPrune(z[1..], cutoff);
      } else {
        forall x | x in z ensures x > cutoff {
          var i :| 0 <= i < |z| && z[i] == x;
        }
        ZRemKeeps(z, 0.0, cutoff);
      }
    }
  }

  /** The sorted set is the Redis log without expired entries. */
  ghost predicate RedisCoupled(c: Config, zset: seq<real>, log: seq<real>, clock: real) {
    && 0.0 <= clock && Coupled(zset, log, c.window, clock)
    && forall x :: x in log ==> 0.0 <= x
  }

  lemma RemIsPruned(zset: seq<real>, log: seq<real>, window: int, clock: real, cutoff: real)
    requires Coupled(zset, log, window, clock) && forall x :: x in log ==> 0.0 <= x
    ensures ZRemRange(zset, 0.0, cutoff) == Pruned(zset, cutoff)
  {
    TailIsSorted(zset, log, window, clock);
    ZRemIsPrune(zset, cutoff);
  }

  lemma RemShowsLive(c: Config, zset: seq<real>, log: seq<real>, clock: real, now: real)
    requires RedisCoupled(c, zset, log, clock) && clock <= now
    ensures ZRemRange(zset, 0.0, now - c.window as real) == Live(log, now - c.window as real)
  {
    RemIsPruned(zset, log, c.window, clock, now - c.window as real);
    PruneShowsLive(zset, log, c.window, clock, now);
  }

  lemma RemCoupled(c: Config, zset: seq<real>, log: seq<real>, clock: real, now: real, later: real)
    requires RedisCoupled(c, zset, log, clock) && clock <= now <= later
    ensures RedisCoupled(c, ZRemRange(zset, 0.0, now - c.window as real), log, later)
  {
    RemIsPruned(zset, log, c.window, clock, now - c.window as real);
    PruneKeepsTail(zset, log, c.window, clock, now, later);
  }

  lemma TailIsSorted(zset: seq<real>, log: seq<real>, window: int, clock: real)
    requires Sorted(log) && IsTail(zset, log, window, clock)
    ensures Sorted(zset) && forall x :: x in zset ==> x in log
  {
    var n :| ExpiredPrefix(zset, log, n, window, clock);
  }

  lemma RecordCoupled(c: Config, zset: seq<real>, log: seq<real>, clock: real, now: real)
    requires RedisCoupled(c, zset, log, clock) && clock <= now && forall x :: x in log ==> x < now
    ensures RedisCoupled(c, ZAdd(ZRemRange(zset, 0.0, now - c.window as real), now), log + [now], now)
  {
    RemCoupled(c, zset, log, clock, now, now);
    AddCoupled(c, ZRemRange(zset, 0.0, now - c.window as real), log, now);
  }

  /** Adding the newest stamp to a coupled set. */
  lemma AddCoupled(c: Config, zset: seq<real>, log: seq<real>, now: real)
    requires RedisCoupled(c, zset, log, now) && forall x :: x in log ==> x < now
    ensures RedisCoupled(c, ZAdd(zset, now), log + [now], now)
  {
    TailIsSorted(zset, log, c.window, now);
    ZAddLast(zset, now);
    AppendKeepsTail(zset, log, c.window, now, now);
    AppendKeepsSorted(log, now);
  }

  lemma StampsBefore(log: seq<real>, clock: real, now: real)
    requires clock < now && forall i :: 0 <= i < |log| ==> log[i] <= clock
    ensures forall x :: x in log ==> x < now
  {
  }

  /** What one request leaves in Redis while it is up. */
  lemma RedisAfter(c: Config, s: Side, q: Request)
    requires q.upCheck && q.upAfter
    ensures var (t, answer) := Serve(c, s, q);
            var kept := ZRemRange(s.stores.zset, 0.0, q.redisNow - c.window as real);
            && t.clock == q.after
            && (if answer.Some? || q.outcome.Crashed? then t.stores.zset == kept && t.redisLog == s.redisLog
                else if q.outcome.Succeeded? then t.stores.zset == [] && t.redisLog == []
                else && t.stores.zset == ZAdd(ZRemRange(kept, 0.0, q.after - c.window as real), q.after)
                     && t.redisLog == s.redisLog + [q.after])
            && (s.stores.bucket == [] && s.memoryLog == [] ==> t.stores.bucket == [] && t.memoryLog == [])
  {
  }

  /** While Redis is up its answer to a check is the one the full log gives. */
  lemma RedisAnswersFromLog(c: Config, s: Side, q: Request)
    requires RedisCoupled(c, s.stores.zset, s.redisLog, s.clock) && s.clock <= q.redisNow
    requires q.upCheck && s.stores.bucket == []
    ensures Serve(c, s, q).1 == Answer(Live(s.redisLog, q.redisNow - c.window as real), c.limit, c.window, q.redisNow)
  {
    RemShowsLive(c, s.stores.zset, s.redisLog, s.clock, q.redisNow);
  }

  lemma KeptCoupled(c: Config, zset: seq<real>, log: seq<real>, clock: real, now: real, later: real)
    requires RedisCoupled(c, zset, log, clock) && clock <= now <= later && clock < later
    ensures var kept := ZRemRange(zset, 0.0, now - c.window as real);
            && RedisCoupled(c, kept, log, later)
            && RedisCoupled(c, ZAdd(ZRemRange(kept, 0.0, later - c.window as real), later), log + [later], later)
    ensures RedisCoupled(c, [], [], later)
  {
    EmptyTail(c.window, later);
    StampsBefore(log, clock, later);
    RemCoupled(c, zset, log, clock, now, later);
    RecordCoupled(c, ZRemRange(zset, 0.0, now - c.window as real), log, later, later);
  }

  /** Whichever of its three outcomes a request has, it leaves Redis coupled to its log. */
  lemma OutcomeCoupled(c: Config, zset: seq<real>, log: seq<real>, clock: real, now: real, later: real,
                       zset': seq<real>, log': seq<real>)
    requires RedisCoupled(c, zset, log, clock) && clock <= now <= later && clock < later
    requires var kept := ZRemRange(zset, 0.0, now - c.window as real);
             || (zset' == kept && log' == log)
             || (zset' == [] && log' == [])
             || (zset' == ZAdd(ZRemRange(kept, 0.0, later - c.window as real), later) && log' == log + [later])
    ensures RedisCoupled(c, zset', log', later)
  {
    KeptCoupled(c, zset, log, clock, now, later);
  }

  lemma RedisStaysCoupled(c: Config, s: Side, q: Request)
    requires RedisCoupled(c, s.stores.zset, s.redisLog, s.clock)
    requires s.clock <= q.redisNow <= q.after && s.clock < q.after && q.upCheck && q.upAfter
    ensures RedisCoupled(c, Serve(c, s, q).0.stores.zset, Serve(c, s, q).0.redisLog, q.after)
  {
    RedisAfter(c, s, q);
    var t := Serve(c, s, q).0;
    OutcomeCoupled(c, s.stores.zset, s.redisLog, s.clock, q.redisNow, q.after, t.stores.zset, t.redisLog);
  }

  /** In the whole run each answer is the one computed from the log of attempts recorded so far. */
  ghost predicate AnsweredFromLog(c: Config, s: Side, qs: seq<Request>)
    decreases |qs|
  {
    qs != [] ==>
      && Serve(c, s, qs[0]).1
         == Answer(Live(s.redisLog, qs[0].redisNow - c.window as real), c.limit, c.window, qs[0].redisNow)
      && AnsweredFromLog(c, Serve(c, s, qs[0]).0, qs[1..])
  }

  ghost predicate RedisOnly(c: Config, s: Side) {
    RedisCoupled(c, s.stores.zset, s.redisLog, s.clock) && s.stores.bucket == [] && s.memoryLog == []
  }

  lemma RedisStep(c: Config, s: Side, q: Request)
    requires RedisOnly(c, s) && s.clock <= q.redisNow <= q.after && s.clock < q.after && q.upCheck && q.upAfter
    ensures RedisOnly(c, Serve(c, s, q).0) && Serve(c, s, q).0.clock == q.after
    ensures Serve(c, s, q).1 == Answer(Live(s.redisLog, q.redisNow - c.window as real), c.limit, c.window, q.redisNow)
  {
    RedisAnswersFromLog(c, s, q);
    RedisStaysCoupled(c, s, q);
    RedisAfter(c, s, q);
  }

  lemma RedisRestTimely(clock: real, qs: seq<Request>)
    requires qs != [] && Timely(clock, qs) && forall q :: q in qs ==> q.upCheck && q.upAfter
    ensures clock <= qs[0].redisNow <= qs[0].after && clock < qs[0].after && qs[0].upCheck && qs[0].upAfter
    ensures Timely(qs[0].after, qs[1..]) && forall q :: q in qs[1..] ==> q.upCheck && q.upAfter
  {
    assert qs[0] in qs;
  }

  /** Main result: without outages the Redis limiter gives, in every run, the answers of the full attempt log. */
  lemma {:induction false} RedisRefinesLog(c: Config, s: Side, qs: seq<Request>)
    requires RedisOnly(c, s)
    requires Timely(s.clock, qs) && forall q :: q in qs ==> q.upCheck && q.upAfter
    ensures AnsweredFromLog(c, s, qs)
    decreases |qs|
  {
    if qs != [] {
      RedisRestTimely(s.clock, qs);
      RedisStep(c, s, qs[0]);
      RedisRefinesLog(c, Serve(c, s, qs[0]).0, qs[1..]);
    }
  }

  lemma {:induction false} RunRedisOnly(c: Config, s: Side, qs: seq<Request>)
    requires RedisOnly(c, s)
    requires Timely(s.clock, qs) && forall q :: q in qs ==> q.upCheck && q.upAfter
    ensures RedisOnly(c, ServeAll(c, s, qs))
    decreases |qs|
  {
    if qs != [] {
      RedisRestTimely(s.clock, qs);
      RedisStep(c, s, qs[0]);
      RunRedisOnly(c, Serve(c, s, qs[0]).0, qs[1..]);
    }
  }

  lemma StartRedisOnly(c: Config)
    ensures RedisOnly(c, START)
  {
    EmptyTail(c.window, 0.0);
  }

  lemma DelayOfBounded(c: Config, s: Side, q: Request)
    requires c.limit >= 1 && RedisOnly(c, s) && s.clock <= q.redisNow && q.upCheck
    requires InWindow(s.redisLog, c.window, q.redisNow) <= c.limit
    ensures Serve(c, s, q).1.Some? ==> LeastDelay(s.redisLog, c.limit, c.window, q.redisNow, Serve(c, s, q).1.value)
  {
    RedisAnswersFromLog(c, s, q);
    LiveIsWindow(s.redisLog, c.window, q.redisNow);
    ExactWhenFull(s.redisLog, Live(s.redisLog, q.redisNow - c.window as real), c.limit, c.window, q.redisNow);
  }

  /**
    Main result: with Redis up, after any run, the delay that the next request is told is the least
    whole number of seconds after which its key is free.
   */
  lemma RedisDelayExact(c: Config, qs: seq<Request>, q: Request)
    requires c.limit >= 1 && Timely(0.0, qs) && forall r :: r in qs ==> r.upCheck && r.upAfter
    requires Timely(ServeAll(c, START, qs).clock, [q]) && q.upCheck
    ensures var s := ServeAll(c, START, qs);
            Serve(c, s, q).1.Some? ==> LeastDelay(s.redisLog, c.limit, c.window, q.redisNow, Serve(c, s, q).1.value)
  {
    StartRedisOnly(c);
    RunRedisOnly(c, START, qs);
    NoOutageBound(c, qs, q.redisNow);
    DelayOfBounded(c, ServeAll(c, START, qs), q);
  }
}
