/**
  The sliding-window rate limiter: a lazily pruned deque per key held in memory, a Redis
  sorted set beside it, and the public API that tries Redis first.  Times are reals; every
  `time.time()` of the source is a parameter.
 */
module RateLimiter {
  import opened Wrappers

  // ---------------------------------------------------------------- one bucket

  /** What popping expired entries from the left of a deque leaves. */
  function Pruned(bucket: seq<real>, cutoff: real): seq<real> {
    if bucket != [] && bucket[0] <= cutoff then Pruned(bucket[1..], cutoff) else bucket
  }

  /** The entries of a full attempt log that are younger than the cutoff. */
  function Live(log: seq<real>, cutoff: real): seq<real> {
    if log == [] then []
    else (if log[0] > cutoff then [log[0]] else []) + Live(log[1..], cutoff)
  }

  ghost predicate Sorted(s: seq<real>) {
    forall i, j :: 0 <= i < j < |s| ==> s[i] <= s[j]
  }

  function Ceil(x: real): int { -((-x).Floor) }

  /** The moment, in whole seconds from `now`, at which the entry `stamp` has left the window. */
  function ExpiresIn(window: int, now: real, stamp: real): int {
    Ceil(window as real - (now - stamp))
  }

  function RetryAfter(window: int, now: real, oldest: real): int {
    var wait := ExpiresIn(window, now, oldest);
    if wait > 1 then wait else 1
  }

  /** The answer of a limit check whose surviving entries are `kept`, oldest first. */
  function Answer(kept: seq<real>, limit: int, window: int, now: real): Option<int> {
    if kept == [] || |kept| < limit then None else Some(RetryAfter(window, now, kept[0]))
  }

  // ---------------------------------------------------------------- one locked call in memory

  datatype Call = Check(limit: int, now: real) | Record(now: real) | Clear

  datatype Reply = Retry(after: Option<int>) | Count(n: nat) | Cleared

  /** One in-memory call on a key, on the lazily pruned deque. */
  function LazyStep(bucket: seq<real>, window: int, call: Call): (seq<real>, Reply) {
    match call
    case Check(limit, now) =>
      var kept := Pruned(bucket, now - window as real);
      (kept, Retry(Answer(kept, limit, window, now)))
    case Record(now) =>
      var kept := Pruned(bucket, now - window as real) + [now];
      (kept, Count(|kept|))
    case Clear => ([], Cleared)
  }

  // ---------------------------------------------------------------- Redis sorted sets

  /** ZREMRANGEBYSCORE key lo hi: both ends are inclusive. */
  function ZRemRange(z: seq<real>, lo: real, hi: real): (r: seq<real>)
    ensures forall x :: x in r <==> x in z && !(lo <= x <= hi)
    ensures |r| <= |z|
  {
    if z == [] then []
    else (if lo <= z[0] <= hi then [] else [z[0]]) + ZRemRange(z[1..], lo, hi)
  }

  /** ZADD key s str(s): entries are kept by ascending score; a member already there is not added twice. */
  function ZAdd(z: seq<real>, s: real): (r: seq<real>)
    ensures forall x :: x in r <==> x in z || x == s
  {
    if z == [] then [s]
    else if s == z[0] then z
    else if s < z[0] then [s] + z
    else [z[0]] + ZAdd(z[1..], s)
  }

  lemma {:induction false} ZRemKeeps(z: seq<real>, lo: real, hi: real)
    requires forall x :: x in z ==> x > hi
    ensures ZRemRange(z, lo, hi) == z
  {
    if z != [] {
      assert z[0] in z && forall x :: x in z[1..] ==> x in z;
      ZRemKeeps(z[1..], lo, hi);
    }
  }

  lemma {:induction false} ZAddLast(z: seq<real>, s: real)
    requires forall x :: x in z ==> x < s
    ensures ZAdd(z, s) == z + [s]
  {
    if z != [] {
      assert z[0] in z && forall x :: x in z[1..] ==> x in z;
      ZAddLast(z[1..], s);
    }
  }

  // ---------------------------------------------------------------- both stores of one key

  /** What the two stores hold for one key. */
  datatype Stores = Stores(zset: seq<real>, bucket: seq<real>)

  /** is_limited for one key: Redis is asked when it is up, memory whenever Redis gave no answer. */
  function CheckStores(s: Stores, limit: int, window: int, up: bool, redisNow: real, memoryNow: real)
    : (Stores, Option<int>)
  {
    var zset := if up then ZRemRange(s.zset, 0.0, redisNow - window as real) else s.zset;
    var redis := if up then Answer(zset, limit, window, redisNow) else None;
    if redis.Some? then (Stores(zset, s.bucket), redis)
    else
      var (bucket, reply) := LazyStep(s.bucket, window, Check(limit, memoryNow));
      (Stores(zset, bucket), reply.after)
  }

  /** record_attempt for one key: the attempt goes to Redis when it is up, else to memory. */
  function RecordStores(s: Stores, window: int, up: bool, now: real): (Stores, nat) {
    if up then
      var zset := ZAdd(ZRemRange(s.zset, 0.0, now - window as real), now);
      (Stores(zset, s.bucket), |zset|)
    else
      var (bucket, reply) := LazyStep(s.bucket, window, Record(now));
      (Stores(s.zset, bucket), reply.n)
  }

  /** clear_attempts for one key: an unreachable Redis keeps its entries. */
  function ClearStores(s: Stores, up: bool): Stores {
    Stores(if up then [] else s.zset, [])
  }

  // ---------------------------------------------------------------- the mutable limiter

  class Limiter {
    var buckets: map<string, seq<real>>  // process memory
    var zsets: map<string, seq<real>>    // the Redis server

    /** A bucket that becomes empty is removed, so the dictionary never holds an idle key. */
    ghost predicate Valid()
      reads this
    {
      forall key :: key in buckets ==> buckets[key] != []
    }

    function View(key: string): Stores
      reads this
    {
      Stores(if key in zsets then zsets[key] else [], if key in buckets then buckets[key] else [])
    }

    constructor ()
      ensures Valid()
      ensures forall key :: View(key) == Stores([], [])
    {
      buckets, zsets := map[], map[];
    }

    method Prune(bucket: seq<real>, now: real, window: int) returns (kept: seq<real>)
      ensures kept == Pruned(bucket, now - window as real)
    {
      var cutoff := now - window as real;
      kept := bucket;
      while kept != [] && kept[0] <= cutoff
        invariant Pruned(kept, cutoff) == Pruned(bucket, cutoff)
        decreases |kept|
      {
        kept := kept[1..];
      }
    }

    method MemoryIsLimited(key: string, limit: int, window: int, now: real) returns (r: Option<int>)
      requires Valid()
      modifies this`buckets
      ensures Valid()
      ensures (View(key).bucket, Retry(r)) == LazyStep(old(View(key)).bucket, window, Check(limit, now))
      ensures forall k :: k != key ==> View(k) == old(View(k))
    {
      if key !in buckets || buckets[key] == [] {
        return None;
      }
      var bucket := Prune(buckets[key], now, window);
      if bucket == [] {
        buckets := buckets - {key};
        return None;
      }
      buckets := buckets[key := bucket];
      if |bucket| < limit {
        return None;
      }
      return Some(RetryAfter(window, now, bucket[0]));
    }

    method MemoryRecordAttempt(key: string, window: int, now: real) returns (count: nat)
      requires Valid()
      modifies this`buckets
      ensures Valid()
      ensures (View(key).bucket, Count(count)) == LazyStep(old(View(key)).bucket, window, Record(now))
      ensures forall k :: k != key ==> View(k) == old(View(k))
    {
      var bucket := Prune(if key in buckets then buckets[key] else [], now, window);
      bucket := bucket + [now];
      buckets := buckets[key := bucket];
      count := |bucket|;
    }

    method IsLimited(key: string, limit: int, window: int, up: bool, redisNow: real, memoryNow: real)
      returns (r: Option<int>)
      requires Valid()
      modifies this
      ensures Valid()
      ensures (View(key), r) == CheckStores(old(View(key)), limit, window, up, redisNow, memoryNow)
      ensures forall k :: k != key ==> View(k) == old(View(k))
    {
      if up {
        var zset := ZRemRange(if key in zsets then zsets[key] else [], 0.0, redisNow - window as real);
        zsets := zsets[key := zset];
        if |zset| >= limit && zset != [] {
          return Some(RetryAfter(window, redisNow, zset[0]));
        }
      }
      r := MemoryIsLimited(key, limit, window, memoryNow);
    }

    method RecordAttempt(key: string, window: int, up: bool, now: real) returns (count: nat)
      requires Valid()
      modifies this
      ensures Valid()
      ensures (View(key), count) == RecordStores(old(View(key)), window, up, now)
      ensures forall k :: k != key ==> View(k) == old(View(k))
    {
      if up {
        var zset := ZAdd(ZRemRange(if key in zsets then zsets[key] else [], 0.0, now - window as real), now);
        zsets := zsets[key := zset];
        if |zset| > 0 {
          return |zset|;
        }
      }
      count := MemoryRecordAttempt(key, window, now);
    }

    method MemoryClearAttempts(key: string)
      requires Valid()
      modifies this`buckets
      ensures Valid()
      ensures View(key).bucket == []
      ensures forall k :: k != key ==> View(k) == old(View(k))
    {
      buckets := buckets - {key};
    }

    method ClearAttempts(key: string, up: bool)
      requires Valid()
      modifies this
      ensures Valid()
      ensures View(key) == ClearStores(old(View(key)), up)
      ensures forall k :: k != key ==> View(k) == old(View(k))
    {
      if up {
        zsets := zsets - {key};
      }
      MemoryClearAttempts(key);
    }
  }

  // ---------------------------------------------------------------- the lazy deque refines the full log

  /** The same call answered by filtering a log from which nothing is ever pruned. */
  function LogStep(log: seq<real>, window: int, call: Call): (seq<real>, Reply) {
    match call
    case Check(limit, now) => (log, Retry(Answer(Live(log, now - window as real), limit, window, now)))
    case Record(now) => (log + [now], Count(|Live(log, now - window as real)| + 1))
    case Clear => ([], Cleared)
  }

  function LazyRun(bucket: seq<real>, window: int, calls: seq<Call>): seq<Reply>
    decreases |calls|
  {
    if calls == [] then []
    else var (b, r) := LazyStep(bucket, window, calls[0]); [r] + LazyRun(b, window, calls[1..])
  }

  function LogRun(log: seq<real>, window: int, calls: seq<Call>): seq<Reply>
    decreases |calls|
  {
    if calls == [] then []
    else var (l, r) := LogStep(log, window, calls[0]); [r] + LogRun(l, window, calls[1..])
  }

  /** The clock read by successive calls never goes back. */
  ghost predicate Monotone(clock: real, calls: seq<Call>)
    decreases |calls|
  {
    calls != [] ==>
      if calls[0].Clear? then Monotone(clock, calls[1..])
      else clock <= calls[0].now && Monotone(calls[0].now, calls[1..])
  }

  /** The deque is the log without its first n entries, all of which have expired. */
  ghost predicate ExpiredPrefix(bucket: seq<real>, log: seq<real>, n: int, window: int, clock: real) {
    && 0 <= n <= |log|
    && bucket == log[n..]
    && forall i :: 0 <= i < n ==> log[i] <= clock - window as real
  }

  ghost predicate IsTail(bucket: seq<real>, log: seq<real>, window: int, clock: real) {
    exists n :: ExpiredPrefix(bucket, log, n, window, clock)
  }

  ghost predicate Coupled(bucket: seq<real>, log: seq<real>, window: int, clock: real) {
    && Sorted(log)
    && (forall i :: 0 <= i < |log| ==> log[i] <= clock)
    && IsTail(bucket, log, window, clock)
  }

  /** Pruning drops the first k entries, and they have expired. */
  lemma {:induction false} PrunedIsSuffix(bucket: seq<real>, cutoff: real) returns (k: nat)
    ensures k <= |bucket| && Pruned(bucket, cutoff) == bucket[k..]
    ensures forall i :: 0 <= i < k ==> bucket[i] <= cutoff
  {
    if bucket != [] && bucket[0] <= cutoff {
      var j := PrunedIsSuffix(bucket[1..], cutoff);
      k := j + 1;
    } else {
      k := 0;
    }
  }

  lemma {:induction false} PrunedIsLive(bucket: seq<real>, cutoff: real)
    requires Sorted(bucket)
    ensures Pruned(bucket, cutoff) == Live(bucket, cutoff)
  {
    if bucket != [] {
      if bucket[0] <= cutoff {
        PrunedIsLive(bucket[1..], cutoff);
      } else {
        AllLive(bucket, cutoff);
      }
    }
  }

  lemma {:induction false} AllLive(log: seq<real>, cutoff: real)
    requires forall i :: 0 <= i < |log| ==> log[i] > cutoff
    ensures Live(log, cutoff) == log
  {
    if log != [] {
      AllLive(log[1..], cutoff);
    }
  }

  lemma {:induction false} LiveDropsExpired(log: seq<real>, n: nat, cutoff: real)
    requires n <= |log| && forall i :: 0 <= i < n ==> log[i] <= cutoff
    ensures Live(log, cutoff) == Live(log[n..], cutoff)
  {
    if n > 0 {
      LiveDropsExpired(log[1..], n - 1, cutoff);
      assert log[1..][n - 1..] == log[n..];
    }
  }

  /** One prune of a coupled deque shows exactly the live part of the log. */
  lemma PruneShowsLive(bucket: seq<real>, log: seq<real>, window: int, clock: real, now: real)
    requires Coupled(bucket, log, window, clock) && clock <= now
    ensures Pruned(bucket, now - window as real) == Live(log, now - window as real)
  {
    var cutoff := now - window as real;
    var n :| ExpiredPrefix(bucket, log, n, window, clock);
    PrunedIsLive(bucket, cutoff);
    LiveDropsExpired(log, n, cutoff);
  }

  /** Pruning with a clock reading that is not ahead of `clock` only drops expired entries. */
  lemma PruneKeepsTail(bucket: seq<real>, log: seq<real>, window: int, earlier: real, now: real, clock: real)
    requires IsTail(bucket, log, window, earlier) && earlier <= clock && now <= clock
    ensures IsTail(Pruned(bucket, now - window as real), log, window, clock)
  {
    var n :| ExpiredPrefix(bucket, log, n, window, earlier);
    var k := PrunedIsSuffix(bucket, now - window as real);
    DropMore(bucket, log, n, k, window, earlier, now, clock);
  }

  lemma DropMore(bucket: seq<real>, log: seq<real>, n: nat, k: nat, window: int, earlier: real, now: real, clock: real)
    requires ExpiredPrefix(bucket, log, n, window, earlier) && earlier <= clock && now <= clock
    requires k <= |bucket| && forall i :: 0 <= i < k ==> bucket[i] <= now - window as real
    ensures ExpiredPrefix(bucket[k..], log, n + k, window, clock)
  {
    forall i | 0 <= i < n + k ensures log[i] <= clock - window as real {
      if n <= i { assert log[i] == bucket[i - n]; }
    }
  }

  lemma AppendKeepsTail(bucket: seq<real>, log: seq<real>, window: int, clock: real, stamp: real)
    requires IsTail(bucket, log, window, clock)
    ensures IsTail(bucket + [stamp], log + [stamp], window, clock)
  {
    var n :| ExpiredPrefix(bucket, log, n, window, clock);
    assert (log + [stamp])[n..] == bucket + [stamp];
    assert ExpiredPrefix(bucket + [stamp], log + [stamp], n, window, clock);
  }

  lemma EmptyTail(window: int, clock: real)
    ensures IsTail([], [], window, clock)
  {
    assert ExpiredPrefix([], [], 0, window, clock);
  }

  lemma AppendKeepsSorted(log: seq<real>, stamp: real)
    requires Sorted(log) && forall i :: 0 <= i < |log| ==> log[i] <= stamp
    ensures Sorted(log + [stamp])
  {
  }

  /** One call on a key: both machines reply alike ... */
  lemma StepRepliesAlike(bucket: seq<real>, log: seq<real>, window: int, clock: real, call: Call)
    requires Coupled(bucket, log, window, clock)
    requires call.Clear? || clock <= call.now
    ensures LazyStep(bucket, window, call).1 == LogStep(log, window, call).1
  {
    if !call.Clear? {
      PruneShowsLive(bucket, log, window, clock, call.now);
    }
  }

  /** ... and stay coupled. */
  lemma StepStaysCoupled(bucket: seq<real>, log: seq<real>, window: int, clock: real, call: Call)
    requires Coupled(bucket, log, window, clock)
    requires call.Clear? || clock <= call.now
    ensures Coupled(LazyStep(bucket, window, call).0, LogStep(log, window, call).0, window,
                    if call.Clear? then clock else call.now)
  {
    match call
    case Clear => EmptyTail(window, clock);
    case Check(_, now) => PruneKeepsTail(bucket, log, window, clock, now, now);
    case Record(now) =>
      PruneKeepsTail(bucket, log, window, clock, now, now);
      AppendKeepsTail(Pruned(bucket, now - window as real), log, window, now, now);
      AppendKeepsSorted(log, now);
  }

  /** Main result: on a monotone clock the lazily pruned deque is indistinguishable from the full log. */
  lemma {:induction false} LazyRefinesLog(bucket: seq<real>, log: seq<real>, window: int, clock: real,
                                          calls: seq<Call>)
    requires Coupled(bucket, log, window, clock) && Monotone(clock, calls)
    ensures LazyRun(bucket, window, calls) == LogRun(log, window, calls)
    decreases |calls|
  {
    if calls != [] {
      var call := calls[0];
      StepRepliesAlike(bucket, log, window, clock, call);
      StepStaysCoupled(bucket, log, window, clock, call);
      LazyRefinesLog(LazyStep(bucket, window, call).0, LogStep(log, window, call).0, window,
                     if call.Clear? then clock else call.now, calls[1..]);
    }
  }

  // ---------------------------------------------------------------- the whole table

  function At(table: map<string, seq<real>>, key: string): seq<real> {
    if key in table then table[key] else []
  }

  /** A call on one key of the dictionary of deques. */
  function LazyTableRun(buckets: map<string, seq<real>>, windows: string -> int, calls: seq<(string, Call)>): seq<Reply>
    decreases |calls|
  {
    if calls == [] then []
    else
      var (key, call) := calls[0];
      var (bucket, reply) := LazyStep(At(buckets, key), windows(key), call);
      [reply] + LazyTableRun(buckets[key := bucket], windows, calls[1..])
  }

  function LogTableRun(logs: map<string, seq<real>>, windows: string -> int, calls: seq<(string, Call)>): seq<Reply>
    decreases |calls|
  {
    if calls == [] then []
    else
      var (key, call) := calls[0];
      var (log, reply) := LogStep(At(logs, key), windows(key), call);
      [reply] + LogTableRun(logs[key := log], windows, calls[1..])
  }

  function Later(clock: real, call: Call): real { if call.Clear? then clock else call.now }

  ghost predicate MonotoneTable(clock: real, calls: seq<(string, Call)>)
    decreases |calls|
  {
    calls != [] ==>
      clock <= Later(clock, calls[0].1) && MonotoneTable(Later(clock, calls[0].1), calls[1..])
  }

  ghost predicate TableCoupled(buckets: map<string, seq<real>>, logs: map<string, seq<real>>, windows: string -> int,
                               clock: real)
  {
    forall key :: Coupled(At(buckets, key), At(logs, key), windows(key), clock)
  }

  lemma CoupledLater(bucket: seq<real>, log: seq<real>, window: int, clock: real, later: real)
    requires Coupled(bucket, log, window, clock) && clock <= later
    ensures Coupled(bucket, log, window, later)
  {
    var n :| ExpiredPrefix(bucket, log, n, window, clock);
    assert ExpiredPrefix(bucket, log, n, window, later);
  }

  lemma TableStaysCoupled(buckets: map<string, seq<real>>, logs: map<string, seq<real>>, windows: string -> int,
                          clock: real, key: string, call: Call)
    requires TableCoupled(buckets, logs, windows, clock) && clock <= Later(clock, call)
    ensures TableCoupled(buckets[key := LazyStep(At(buckets, key), windows(key), call).0],
                         logs[key := LogStep(At(logs, key), windows(key), call).0], windows, Later(clock, call))
  {
    assert Coupled(At(buckets, key), At(logs, key), windows(key), clock);
    StepStaysCoupled(At(buckets, key), At(logs, key), windows(key), clock, call);
    EntryReplaced(buckets, logs, windows, clock, Later(clock, call), key,
                  LazyStep(At(buckets, key), windows(key), call).0, LogStep(At(logs, key), windows(key), call).0);
  }

  lemma EntryReplaced(buckets: map<string, seq<real>>, logs: map<string, seq<real>>, windows: string -> int,
                      clock: real, later: real, key: string, bucket: seq<real>, log: seq<real>)
    requires TableCoupled(buckets, logs, windows, clock) && clock <= later && Coupled(bucket, log, windows(key), later)
    ensures TableCoupled(buckets[key := bucket], logs[key := log], windows, later)
  {
    forall k | k != key ensures Coupled(At(buckets, k), At(logs, k), windows(k), later) {
      assert Coupled(At(buckets, k), At(logs, k), windows(k), clock);
      CoupledLater(At(buckets, k), At(logs, k), windows(k), clock, later);
    }
  }

  lemma {:induction false} TableRefinesLog(buckets: map<string, seq<real>>, logs: map<string, seq<real>>,
                                           windows: string -> int, clock: real, calls: seq<(string, Call)>)
    requires TableCoupled(buckets, logs, windows, clock) && MonotoneTable(clock, calls)
    ensures LazyTableRun(buckets, windows, calls) == LogTableRun(logs, windows, calls)
    decreases |calls|
  {
    if calls != [] {
      var (key, call) := calls[0];
      assert Coupled(At(buckets, key), At(logs, key), windows(key), clock);
      StepRepliesAlike(At(buckets, key), At(logs, key), windows(key), clock, call);
      TableStaysCoupled(buckets, logs, windows, clock, key, call);
      TableRefinesLog(buckets[key := LazyStep(At(buckets, key), windows(key), call).0],
                      logs[key := LogStep(At(logs, key), windows(key), call).0], windows,
                      Later(clock, call), calls[1..]);
    }
  }

  /**
    From an empty dictionary, with one window per key: every interleaving of checks, records and
    clears on any keys gets the replies that unpruned logs would give.
   */
  lemma LimiterRefinesLog(windows: string -> int, clock: real, calls: seq<(string, Call)>)
    requires MonotoneTable(clock, calls)
    ensures LazyTableRun(map[], windows, calls) == LogTableRun(map[], windows, calls)
  {
    forall key ensures Coupled(At(map[], key), At(map[], key), windows(key), clock) {
      EmptyTail(windows(key), clock);
    }
    TableRefinesLog(map[], map[], windows, clock, calls);
  }

  // ---------------------------------------------------------------- the retry delay

  lemma CeilBounds(x: real, j: int)
    ensures j < Ceil(x) <==> j as real < x
  {
    if j as real < x {
      assert -x < (-j) as real;
    }
  }

  lemma {:induction false} LiveOfLive(log: seq<real>, early: real, late: real)
    requires early <= late
    ensures Live(Live(log, early), late) == Live(log, late)
  {
    if log != [] {
      var rest := Live(log[1..], early);
      LiveOfLive(log[1..], early, late);
      if log[0] > early {
        assert Live(log, early)[0] == log[0] && Live(log, early)[1..] == rest;
      } else {
        assert Live(log, early) == rest;
      }
    }
  }

  lemma {:induction false} LiveFacts(log: seq<real>, cutoff: real)
    ensures forall x :: x in Live(log, cutoff) ==> x in log && x > cutoff
    ensures Sorted(log) ==> Sorted(Live(log, cutoff))
    ensures |Live(log, cutoff)| <= |log|
  {
    if log != [] {
      LiveFacts(log[1..], cutoff);
      forall i | 0 <= i < |Live(log[1..], cutoff)|
        ensures Sorted(log) ==> log[0] <= Live(log[1..], cutoff)[i]
      {
        assert Live(log[1..], cutoff)[i] in Live(log[1..], cutoff);
      }
    }
  }

  /** In a sorted log at least `limit` entries are live exactly when the limit-th youngest is. */
  lemma {:induction false} LimitReached(s: seq<real>, limit: nat, cutoff: real)
    requires Sorted(s) && 1 <= limit <= |s|
    ensures |Live(s, cutoff)| >= limit <==> s[|s| - limit] > cutoff
  {
    if s[0] > cutoff {
      AllLive(s, cutoff);
    } else if |s| == limit {
      LiveFacts(s[1..], cutoff);
    } else {
      LimitReached(s[1..], limit, cutoff);
    }
  }

  lemma LimitReachedLater(log: seq<real>, limit: nat, early: real, late: real)
    requires Sorted(log) && early <= late && 1 <= limit <= |Live(log, early)|
    ensures |Live(log, late)| >= limit <==> Live(log, early)[|Live(log, early)| - limit] > late
  {
    LiveFacts(log, early);
    LimitReached(Live(log, early), limit, late);
    LiveOfLive(log, early, late);
  }

  /** The key is limited `delay` seconds after `now`, provided nothing is recorded in between. */
  ghost predicate LimitedIn(delay: nat, log: seq<real>, limit: int, window: int, now: real) {
    var later := now + delay as real;
    Answer(Live(log, later - window as real), limit, window, later).Some?
  }

  /** `delay` is the least whole number of seconds after which the key is free, if nothing is recorded. */
  ghost predicate LeastDelay(log: seq<real>, limit: int, window: int, now: real, delay: int) {
    forall j: nat :: LimitedIn(j, log, limit, window, now) <==> j < delay
  }

  lemma RetryAfterBounds(log: seq<real>, limit: int, window: int, now: real)
    requires window >= 1 && LimitedIn(0, log, limit, window, now)
    requires forall x :: x in log ==> x <= now
    ensures 1 <= Answer(Live(log, now - window as real), limit, window, now).value <= window
  {
    var kept := Live(log, now - window as real);
    LiveFacts(log, now - window as real);
    assert kept[0] in kept;
    CeilBounds(window as real - (now - kept[0]), window);
  }

  /** The live entry whose expiry frees the key: the limit-th youngest. */
  function Blocking(log: seq<real>, limit: nat, window: int, now: real): real
    requires 1 <= limit <= |Live(log, now - window as real)|
  {
    var kept := Live(log, now - window as real);
    kept[|kept| - limit]
  }

  lemma ExpiresInMeaning(window: int, now: real, stamp: real, j: int)
    ensures j < ExpiresIn(window, now, stamp) <==> (now + j as real) - window as real < stamp
  {
    CeilBounds(window as real - (now - stamp), j);
  }

  /** A key is limited by `limit` live entries or more; the delay is the first whole second at which the oldest left. */
  lemma AnswerMeaning(kept: seq<real>, limit: int, window: int, now: real, j: int)
    ensures var answer := Answer(kept, limit, window, now);
            && (answer.Some? <==> kept != [] && |kept| >= limit)
            && (answer.Some? ==>
                  && answer.value >= 1 && kept[0] <= now + answer.value as real - window as real
                  && (1 <= j < answer.value ==> now + j as real - window as real < kept[0]))
  {
    if kept != [] && |kept| >= limit {
      ExpiresInMeaning(window, now, kept[0], Answer(kept, limit, window, now).value);
      ExpiresInMeaning(window, now, kept[0], j);
    }
  }

  /** A key stays limited for j seconds exactly while the limit-th youngest live entry is still live. */
  lemma LimitedLater(log: seq<real>, limit: nat, window: int, now: real, j: nat)
    requires Sorted(log) && 1 <= limit <= |Live(log, now - window as real)|
    ensures LimitedIn(j, log, limit, window, now)
            <==> j < ExpiresIn(window, now, Blocking(log, limit, window, now))
  {
    LimitReachedLater(log, limit, now - window as real, now + j as real - window as real);
    ExpiresInMeaning(window, now, Blocking(log, limit, window, now), j);
  }

  /** A delay is the least sufficient one exactly when it is the blocking entry's expiry. */
  lemma LeastDelayIff(log: seq<real>, limit: nat, window: int, now: real, delay: nat)
    requires Sorted(log) && 1 <= limit <= |Live(log, now - window as real)|
    ensures LeastDelay(log, limit, window, now, delay)
            <==> delay == ExpiresIn(window, now, Blocking(log, limit, window, now))
  {
    var last := ExpiresIn(window, now, Blocking(log, limit, window, now));
    LiveIsYoung(log, limit, window, now);
    forall j: nat ensures LimitedIn(j, log, limit, window, now) <==> j < last {
      LimitedLater(log, limit, window, now, j);
    }
    if LeastDelay(log, limit, window, now, delay) {
      assert LimitedIn(delay, log, limit, window, now) <==> delay < last;
      assert LimitedIn(last, log, limit, window, now) <==> last < delay;
    }
  }

  lemma LiveIsYoung(log: seq<real>, limit: nat, window: int, now: real)
    requires 1 <= limit <= |Live(log, now - window as real)|
    ensures ExpiresIn(window, now, Blocking(log, limit, window, now)) > 0
    ensures ExpiresIn(window, now, Live(log, now - window as real)[0]) > 0
  {
    var kept := Live(log, now - window as real);
    LiveFacts(log, now - window as real);
    assert kept[0] in kept && kept[|kept| - limit] in kept;
    ExpiresInMeaning(window, now, kept[0], 0);
    ExpiresInMeaning(window, now, kept[|kept| - limit], 0);
  }

  /**
    The advertised delay is the least sufficient one if and only if the oldest entry and the
    limit-th youngest expire within the same whole second.
   */
  lemma RetryAfterExactIff(log: seq<real>, limit: nat, window: int, now: real)
    requires Sorted(log) && 1 <= limit <= |Live(log, now - window as real)|
    ensures var kept := Live(log, now - window as real);
            LeastDelay(log, limit, window, now, Answer(kept, limit, window, now).value)
            <==> ExpiresIn(window, now, kept[0]) == ExpiresIn(window, now, Blocking(log, limit, window, now))
  {
    LiveIsYoung(log, limit, window, now);
    LeastDelayIff(log, limit, window, now, ExpiresIn(window, now, Live(log, now - window as real)[0]));
  }

  /** A bucket holding exactly `limit` live entries always gets the exact delay. */
  lemma RetryAfterExact(log: seq<real>, limit: nat, window: int, now: real)
    requires Sorted(log) && limit >= 1 && |Live(log, now - window as real)| == limit
    ensures LeastDelay(log, limit, window, now,
                       Answer(Live(log, now - window as real), limit, window, now).value)
  {
    RetryAfterExactIff(log, limit, window, now);
  }

  /** An overfull bucket can be told to come back too early: after one second this key is still limited. */
  lemma RetryAfterTooEarly()
    ensures Answer(Live([0.0, 5.0], 0.0 - 0.5), 1, 10, 9.5) == Some(1)
    ensures LimitedIn(1, [0.0, 5.0], 1, 10, 9.5)
  {
    var log := [0.0, 5.0];
    assert log[1..] == [5.0];
    AllLive(log, -0.5);
    assert Live([5.0], 0.5) == [5.0];
    assert Live(log, 0.5) == [5.0];
    CeilBounds(0.5, 0);
    CeilBounds(0.5, 1);
  }
}
