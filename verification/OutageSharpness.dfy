/**
  The outage bound is sharp: for every limit, window and number m of recoveries some run of
  requests leaves exactly 2 * limit + m attempts in one window.
 */
module OutageSharpness {
  import opened Wrappers
  import opened RateLimiter
  import opened AttemptWindows
  import opened RedisOutage
  import opened Spacing

  /** A failing request at time t. */
  function Failure(t: real, upCheck: bool, upAfter: bool): Request {
    Request(upCheck, t, t, Failed, upAfter, t)
  }

  /** Failing requests number from+1 .. from+n. */
  function Failures(from: nat, n: nat, gap: real, upCheck: bool, upAfter: bool): seq<Request> {
    if n == 0 then []
    else Failures(from, n - 1, gap, upCheck, upAfter) + [Failure(TimeAt(from + n, gap), upCheck, upAfter)]
  }

  /** `limit` attempts with Redis up, m during which it comes back, then `limit` with Redis down. */
  function OutageRun(limit: nat, m: nat, gap: real): seq<Request> {
    Failures(0, limit, gap, true, true) + Failures(limit, m, gap, false, true)
    + Failures(limit + m, limit, gap, false, false)
  }

  /** Redis was given the first a attempts, memory the next b, and nothing has expired. */
  ghost predicate Filled(s: Side, a: nat, b: nat, gap: real) {
    && s.stores == Stores(Stamps(0, a, gap), Stamps(a, b, gap))
    && s.redisLog == Stamps(0, a, gap)
    && s.memoryLog == Stamps(a, b, gap)
    && s.clock == TimeAt(a + b, gap)
  }

  lemma {:induction false} ServeConcat(c: Config, s: Side, a: seq<Request>, b: seq<Request>)
    ensures ServeAll(c, s, a + b) == ServeAll(c, ServeAll(c, s, a), b)
    decreases |a|
  {
    if a == [] {
      assert a + b == b;
    } else {
      assert (a + b)[0] == a[0] && (a + b)[1..] == a[1..] + b;
      ServeConcat(c, Serve(c, s, a[0]).0, a[1..], b);
    }
  }

  /** The last of n failures is served after the others. */
  lemma LastServed(c: Config, s: Side, from: nat, n: nat, gap: real, upCheck: bool, upAfter: bool)
    requires n > 0
    ensures ServeAll(c, s, Failures(from, n, gap, upCheck, upAfter))
            == Serve(c, ServeAll(c, s, Failures(from, n - 1, gap, upCheck, upAfter)),
                     Failure(TimeAt(from + n, gap), upCheck, upAfter)).0
  {
    var before, q := Failures(from, n - 1, gap, upCheck, upAfter), Failure(TimeAt(from + n, gap), upCheck, upAfter);
    ServeConcat(c, s, before, [q]);
    var t := ServeAll(c, s, before);
    assert [q][1..] == [];
    assert ServeAll(c, t, [q]) == ServeAll(c, Serve(c, t, q).0, []);
  }

  // ---------------------------------------------------------------- the run is timely

  lemma {:induction false} TimelyConcat(clock: real, a: seq<Request>, q: Request)
    requires Timely(clock, a)
    requires Timely(if a == [] then clock else a[|a| - 1].after, [q])
    ensures Timely(clock, a + [q])
    decreases |a|
  {
    if a == [] {
      assert a + [q] == [q];
    } else {
      assert (a + [q])[1..] == a[1..] + [q];
      TimelyConcat(a[0].after, a[1..], q);
    }
  }

  ghost predicate TimelyUntil(qs: seq<Request>, t: real) {
    Timely(0.0, qs) && (if qs == [] then 0.0 else qs[|qs| - 1].after) == t
  }

  lemma {:induction false} FailuresTimely(prefix: seq<Request>, from: nat, n: nat, gap: real,
                                          upCheck: bool, upAfter: bool)
    requires 0.0 < gap && TimelyUntil(prefix, TimeAt(from, gap))
    ensures TimelyUntil(prefix + Failures(from, n, gap, upCheck, upAfter), TimeAt(from + n, gap))
  {
    if n == 0 {
      assert prefix + [] == prefix;
    } else {
      var before := Failures(from, n - 1, gap, upCheck, upAfter);
      var q := Failure(TimeAt(from + n, gap), upCheck, upAfter);
      FailuresTimely(prefix, from, n - 1, gap, upCheck, upAfter);
      TimesGrow(from + n - 1, from + n, gap);
      assert prefix + (before + [q]) == (prefix + before) + [q];
      TimelyConcat(0.0, prefix + before, q);
    }
  }

  lemma RunTimely(limit: nat, m: nat, gap: real)
    requires 0.0 < gap
    ensures Timely(0.0, OutageRun(limit, m, gap))
  {
    var up := Failures(0, limit, gap, true, true);
    assert [] + up == up;
    FailuresTimely([], 0, limit, gap, true, true);
    FailuresTimely(up, limit, m, gap, false, true);
    FailuresTimely(up + Failures(limit, m, gap, false, true), limit + m, limit, gap, false, false);
  }

  // ---------------------------------------------------------------- its recoveries

  lemma {:induction false} RecoveriesConcat(a: seq<Request>, b: seq<Request>)
    ensures Recoveries(a + b) == Recoveries(a) + Recoveries(b)
  {
    if a == [] {
      assert a + b == b;
    } else {
      assert (a + b)[0] == a[0] && (a + b)[1..] == a[1..] + b;
      RecoveriesConcat(a[1..], b);
    }
  }

  lemma {:induction false} FailuresRecoveries(from: nat, n: nat, gap: real, upCheck: bool, upAfter: bool)
    ensures Recoveries(Failures(from, n, gap, upCheck, upAfter)) == if upAfter && !upCheck then n else 0
  {
    if n > 0 {
      var q := Failure(TimeAt(from + n, gap), upCheck, upAfter);
      FailuresRecoveries(from, n - 1, gap, upCheck, upAfter);
      RecoveriesConcat(Failures(from, n - 1, gap, upCheck, upAfter), [q]);
      assert [q][1..] == [];
    }
  }

  lemma RunRecoveries(limit: nat, m: nat, gap: real)
    ensures Recoveries(OutageRun(limit, m, gap)) == m
  {
    var up, back := Failures(0, limit, gap, true, true), Failures(limit, m, gap, false, true);
    FailuresRecoveries(0, limit, gap, true, true);
    FailuresRecoveries(limit, m, gap, false, true);
    FailuresRecoveries(limit + m, limit, gap, false, false);
    RecoveriesConcat(up, back);
    RecoveriesConcat(up + back, Failures(limit + m, limit, gap, false, false));
  }

  // ---------------------------------------------------------------- what it leaves behind

  /** A failing request whose check passes, at a time when nothing in either store has expired. */
  lemma FailureServed(c: Config, s: Side, t: real, upCheck: bool, upAfter: bool)
    requires forall x :: x in s.stores.zset || x in s.stores.bucket ==> t - c.window as real < x < t
    requires upCheck ==> |s.stores.zset| < c.limit
    requires |s.stores.bucket| < c.limit
    ensures var u := Serve(c, s, Failure(t, upCheck, upAfter)).0;
            && u.stores == (if upAfter then Stores(s.stores.zset + [t], s.stores.bucket)
                            else Stores(s.stores.zset, s.stores.bucket + [t]))
            && u.redisLog == (if upAfter then s.redisLog + [t] else s.redisLog)
            && u.memoryLog == (if upAfter then s.memoryLog else s.memoryLog + [t])
            && u.clock == t
  {
    var cutoff := t - c.window as real;
    ZRemKeeps(s.stores.zset, 0.0, cutoff);
    ZAddLast(s.stores.zset, t);
    assert s.stores.bucket != [] ==> s.stores.bucket[0] in s.stores.bucket;
    assert Pruned(s.stores.bucket, cutoff) == s.stores.bucket;
  }

  /** Everything recorded so far is still live one gap later. */
  lemma StillLive(c: Config, s: Side, a: nat, b: nat, gap: real)
    requires 0.0 < gap && c.window >= 1 && Filled(s, a, b, gap) && TimeAt(a + b + 1, gap) <= 1.0
    ensures var t := TimeAt(a + b + 1, gap);
            forall x :: x in s.stores.zset || x in s.stores.bucket ==> t - c.window as real < x < t
  {
    var t := TimeAt(a + b + 1, gap);
    forall x | x in s.stores.zset || x in s.stores.bucket ensures t - c.window as real < x < t {
      if x in s.stores.zset {
        StampsFacts(0, a, gap, x);
        TimesGrow(a, a + b + 1, gap);
      } else {
        StampsFacts(a, b, gap, x);
      }
    }
  }

  lemma RedisTakesOne(c: Config, s: Side, a: nat, next: nat, gap: real, upCheck: bool)
    requires 0.0 < gap && c.window >= 1 && c.limit >= 1 && next == a + 1 && TimeAt(next, gap) <= 1.0
    requires Filled(s, a, 0, gap) && (upCheck ==> a < c.limit)
    ensures Filled(Serve(c, s, Failure(TimeAt(next, gap), upCheck, true)).0, next, 0, gap)
  {
    StillLive(c, s, a, 0, gap);
    FailureServed(c, s, TimeAt(next, gap), upCheck, true);
    StampsGrow(0, a, gap);
  }

  lemma MemoryTakesOne(c: Config, s: Side, a: nat, b: nat, next: nat, gap: real)
    requires 0.0 < gap && c.window >= 1 && b < c.limit && next == a + b + 1 && TimeAt(next, gap) <= 1.0
    requires Filled(s, a, b, gap)
    ensures Filled(Serve(c, s, Failure(TimeAt(next, gap), false, false)).0, a, b + 1, gap)
  {
    StillLive(c, s, a, b, gap);
    FailureServed(c, s, TimeAt(next, gap), false, false);
    StampsGrow(a, b, gap);
  }

  lemma {:induction false} RedisFills(c: Config, s: Side, a: nat, n: nat, gap: real, upCheck: bool)
    requires 0.0 < gap && c.window >= 1 && c.limit >= 1 && TimeAt(a + n, gap) <= 1.0
    requires Filled(s, a, 0, gap) && (upCheck ==> a + n <= c.limit)
    ensures Filled(ServeAll(c, s, Failures(a, n, gap, upCheck, true)), a + n, 0, gap)
  {
    if n > 0 {
      TimesFit(a + n - 1, a + n, gap);
      RedisFills(c, s, a, n - 1, gap, upCheck);
      LastServed(c, s, a, n, gap, upCheck, true);
      RedisTakesOne(c, ServeAll(c, s, Failures(a, n - 1, gap, upCheck, true)), a + n - 1, a + n, gap, upCheck);
    }
  }

  lemma {:induction false} MemoryFills(c: Config, s: Side, a: nat, n: nat, gap: real)
    requires 0.0 < gap && c.window >= 1 && n <= c.limit && TimeAt(a + n, gap) <= 1.0
    requires Filled(s, a, 0, gap)
    ensures Filled(ServeAll(c, s, Failures(a, n, gap, false, false)), a, n, gap)
  {
    if n > 0 {
      TimesFit(a + n - 1, a + n, gap);
      MemoryFills(c, s, a, n - 1, gap);
      LastServed(c, s, a, n, gap, false, false);
      MemoryTakesOne(c, ServeAll(c, s, Failures(a, n - 1, gap, false, false)), a, n - 1, a + n, gap);
    }
  }

  lemma RunInThree(c: Config, s: Side, u: Side, t: Side, limit: nat, m: nat, gap: real)
    requires u == ServeAll(c, ServeAll(c, s, Failures(0, limit, gap, true, true)), Failures(limit, m, gap, false, true))
    requires t == ServeAll(c, u, Failures(limit + m, limit, gap, false, false))
    ensures t == ServeAll(c, s, OutageRun(limit, m, gap))
  {
    var up, back := Failures(0, limit, gap, true, true), Failures(limit, m, gap, false, true);
    ServeConcat(c, s, up + back, Failures(limit + m, limit, gap, false, false));
    ServeConcat(c, s, up, back);
  }

  lemma RedisFilledTwice(c: Config, s: Side, a: nat, m: nat, b: nat, gap: real) returns (t: Side)
    requires c.limit == a >= 1 && c.window >= 1 && gap > 0.0 && b == a + m && TimeAt(b, gap) <= 1.0
    requires Filled(s, 0, 0, gap)
    ensures t == ServeAll(c, ServeAll(c, s, Failures(0, a, gap, true, true)), Failures(a, m, gap, false, true))
    ensures Filled(t, b, 0, gap)
  {
    TimesFit(a, b, gap);
    RedisFills(c, s, 0, a, gap, true);
    var u := ServeAll(c, s, Failures(0, a, gap, true, true));
    RedisFills(c, u, a, m, gap, false);
    t := ServeAll(c, u, Failures(a, m, gap, false, true));
  }

  lemma MemoryFilled(c: Config, s: Side, b: nat, n: nat, end: nat, gap: real) returns (t: Side)
    requires c.limit == n >= 1 && c.window >= 1 && gap > 0.0 && end == b + n && TimeAt(end, gap) <= 1.0
    requires Filled(s, b, 0, gap)
    ensures t == ServeAll(c, s, Failures(b, n, gap, false, false)) && Filled(t, b, n, gap)
  {
    MemoryFills(c, s, b, n, gap);
    t := ServeAll(c, s, Failures(b, n, gap, false, false));
  }

  lemma RunFills(c: Config, s: Side, n: nat, m: nat, b: nat, end: nat, gap: real) returns (t: Side)
    requires c.limit == n >= 1 && c.window >= 1 && gap > 0.0
    requires b == n + m && end == b + n && TimeAt(end, gap) <= 1.0 && Filled(s, 0, 0, gap)
    ensures t == ServeAll(c, s, OutageRun(n, m, gap)) && Filled(t, b, n, gap)
  {
    TimesFit(b, end, gap);
    var u := RedisFilledTwice(c, s, n, m, b, gap);
    t := MemoryFilled(c, u, b, n, end, gap);
    RunInThree(c, s, u, t, n, m, gap);
  }

  lemma FilledCount(c: Config, s: Side, a: nat, b: nat, gap: real)
    requires c.window >= 1 && gap > 0.0 && TimeAt(a + b, gap) <= 1.0 && Filled(s, a, b, gap)
    ensures Attempts(c, s, 1.0) == a + b
  {
    if b > 0 { TimesGrow(a, a + b, gap); }
    StampsCount(0, a, gap, c.window, 1.0);
    StampsCount(a, b, gap, c.window, 1.0);
  }

  /** For every limit, window and m, a run with m recoveries reaches 2 * limit + m attempts in one window. */
  lemma RecoveryBoundAttained(c: Config, m: nat)
    requires c.limit >= 1 && c.window >= 1
    ensures var run := OutageRun(c.limit, m, 1.0 / (2 * c.limit + m) as real);
            && Timely(0.0, run) && Recoveries(run) == m
            && Attempts(c, ServeAll(c, START, run), 1.0) == 2 * c.limit + m
  {
    var gap := 1.0 / (2 * c.limit + m) as real;
    GapFits(2 * c.limit + m);
    RunTimely(c.limit, m, gap);
    RunRecoveries(c.limit, m, gap);
    var s := RunFills(c, START, c.limit, m, c.limit + m, 2 * c.limit + m, gap);
    FilledCount(c, s, c.limit + m, c.limit, gap);
  }

  /** With outages between requests only, the doubled limit is reached. */
  lemma OutageBoundAttained(c: Config)
    requires c.limit >= 1 && c.window >= 1
    ensures var run := OutageRun(c.limit, 0, 1.0 / (2 * c.limit) as real);
            && Timely(0.0, run) && Recoveries(run) == 0
            && Attempts(c, ServeAll(c, START, run), 1.0) == 2 * c.limit
  {
    RecoveryBoundAttained(c, 0);
  }

  // ---------------------------------------------------------------- the exact bound

  /** No run with at most m recoveries puts more than `bound` attempts in a window. */
  ghost predicate HoldsTo(c: Config, m: nat, bound: int) {
    forall qs, to :: Timely(0.0, qs) && Recoveries(qs) <= m ==> Attempts(c, ServeAll(c, START, qs), to) <= bound
  }

  /** Main result: with at most m recoveries in the middle of a request, 2 * limit + m is the least bound. */
  lemma LeastBound(c: Config, m: nat, bound: int)
    requires c.limit >= 1 && c.window >= 1
    ensures HoldsTo(c, m, bound) <==> 2 * c.limit + m <= bound
  {
    var run := OutageRun(c.limit, m, 1.0 / (2 * c.limit + m) as real);
    RecoveryBoundAttained(c, m);
    if HoldsTo(c, m, bound) {
      assert Attempts(c, ServeAll(c, START, run), 1.0) <= bound;
    }
    if 2 * c.limit + m <= bound {
      forall qs, to | Timely(0.0, qs) && Recoveries(qs) <= m
        ensures Attempts(c, ServeAll(c, START, qs), to) <= bound
      {
        RecoveryBound(c, qs, to);
      }
    }
  }

  /** The doubled limit holds exactly when Redis never comes back in the middle of a request. */
  lemma DoubledLimitIff(c: Config, m: nat)
    requires c.limit >= 1 && c.window >= 1
    ensures HoldsTo(c, m, 2 * c.limit) <==> m == 0
  {
    LeastBound(c, m, 2 * c.limit);
  }

  /** So without a bound on recoveries there is none on attempts. */
  lemma MidRequestRecoveryUnbounded(c: Config, n: nat)
    requires c.limit >= 1 && c.window >= 1
    ensures exists qs, to :: Timely(0.0, qs) && Attempts(c, ServeAll(c, START, qs), to) > n
  {
    RecoveryBoundAttained(c, n);
    var run := OutageRun(c.limit, n, 1.0 / (2 * c.limit + n) as real);
    assert Attempts(c, ServeAll(c, START, run), 1.0) > n;
  }
}
