/**
  Explicit interleavings of logins: one that reaches the bound on concurrent attempts, and one
  that leaves a bucket whose advertised delay is too short.
 */
module LoginBursts {
  import opened Wrappers
  import opened RateLimiter
  import opened AttemptWindows
  import opened LoginProtocol

  /** One worker starts a login and passes both checks. */
  function Enter(w: nat): seq<Step> {
    [Begin(w, "", ""), Advance(w, Failed), Advance(w, Failed), Advance(w, Failed)]
  }

  /** The same worker finds the password wrong and records on both keys. */
  function Leave(w: nat): seq<Step> {
    [Advance(w, Failed), Advance(w, Failed), Advance(w, Failed), Advance(w, Failed)]
  }

  function Alone(rounds: nat): seq<Step> {
    if rounds == 0 then [] else Alone(rounds - 1) + (Enter(0) + Leave(0))
  }

  function AllEnter(k: nat): seq<Step> {
    if k == 0 then [] else AllEnter(k - 1) + Enter(k - 1)
  }

  function AllLeave(k: nat): seq<Step> {
    if k == 0 then [] else AllLeave(k - 1) + Leave(k - 1)
  }

  /** Worker 0 fails limit - 1 times on its own; then all k workers check before any of them records. */
  function Burst(limit: nat, k: nat): seq<Step>
    requires limit >= 1
  {
    Alone(limit - 1) + AllEnter(k) + AllLeave(k)
  }

  function Zeros(n: nat): seq<real> { seq(n, _ => 0.0) }

  /** It is time t, both keys hold these attempts, and none of them has expired. */
  ghost predicate Holding(c: Config, s: State, t: real, entries: seq<real>) {
    && s.clock == t
    && Pruned(entries, t - c.window as real) == entries
    && At(s.buckets, IpKey("")) == At(s.log, IpKey("")) == entries
    && At(s.buckets, IdKey("")) == At(s.log, IdKey("")) == entries
  }

  /** Time stands still at 0 and both keys hold n attempts. */
  ghost predicate Full(c: Config, s: State, n: nat) {
    Holding(c, s, 0.0, Zeros(n))
  }

  lemma {:induction false} RunConcat(c: Config, s: State, a: seq<Step>, b: seq<Step>)
    ensures Run(c, s, a + b) == Run(c, Run(c, s, a), b)
    decreases |a|
  {
    if a == [] {
      assert a + b == b;
    } else {
      assert (a + b)[0] == a[0] && (a + b)[1..] == a[1..] + b;
      RunConcat(c, Next(c, s, a[0]), a[1..], b);
    }
  }

  lemma RunFour(c: Config, s: State, p: Step, q: Step, r: Step, v: Step)
    ensures Run(c, s, [p, q, r, v]) == Next(c, Next(c, Next(c, Next(c, s, p), q), r), v)
  {
    var s1 := Next(c, s, p);
    assert Run(c, s, [p, q, r, v]) == Run(c, s1, [q, r, v]) by { assert [p, q, r, v][1..] == [q, r, v]; }
    var s2 := Next(c, s1, q);
    assert Run(c, s1, [q, r, v]) == Run(c, s2, [r, v]) by { assert [q, r, v][1..] == [r, v]; }
    var s3 := Next(c, s2, r);
    assert Run(c, s2, [r, v]) == Run(c, s3, [v]) by { assert [r, v][1..] == [v]; }
    assert Run(c, s3, [v]) == Run(c, Next(c, s3, v), []);
  }

  lemma ZerosAreKept(window: int, n: nat)
    requires window >= 1
    ensures Pruned(Zeros(n), 0.0 - window as real) == Zeros(n)
    ensures Zeros(n) + [0.0] == Zeros(n + 1)
  {
  }

  lemma EnterPasses(c: Config, s: State, w: nat, t: real, entries: seq<real>)
    requires |entries| < c.limit && Holding(c, s, t, entries)
    requires w < |s.workers| && s.workers[w].phase.Idle?
    ensures Holding(c, Run(c, s, Enter(w)), t, entries)
    ensures Run(c, s, Enter(w)).workers == s.workers[w := Worker(IpKey(""), IdKey(""), Authenticating)]
  {
    KeysDiffer("", "");
    RunFour(c, s, Begin(w, "", ""), Advance(w, Failed), Advance(w, Failed), Advance(w, Failed));
    var s1 := Next(c, s, Begin(w, "", ""));
    var s2 := Next(c, s1, Advance(w, Failed));
    assert Holding(c, s2, t, entries) && s2.workers == s.workers[w := Worker(IpKey(""), IdKey(""), IpPassed)];
    var s3 := Next(c, s2, Advance(w, Failed));
    assert Holding(c, s3, t, entries) && s3.workers == s.workers[w := Worker(IpKey(""), IdKey(""), IdSampled(t))];
  }

  /** The first two steps of Leave record on the address ... */
  lemma IpRecorded(c: Config, s: State, w: nat, t: real, entries: seq<real>)
    requires Holding(c, s, t, entries)
    requires w < |s.workers| && s.workers[w] == Worker(IpKey(""), IdKey(""), Authenticating)
    ensures var u := Next(c, Next(c, s, Advance(w, Failed)), Advance(w, Failed));
            && u.clock == t && u.workers == s.workers[w := Worker(IpKey(""), IdKey(""), FailIpRecorded)]
            && At(u.buckets, IpKey("")) == At(u.log, IpKey("")) == entries + [t]
            && At(u.buckets, IdKey("")) == At(u.log, IdKey("")) == entries
  {
    KeysDiffer("", "");
    var s1 := Next(c, s, Advance(w, Failed));
    assert s1 == Move(s, w, FailIpSampled(t));
  }

  /** ... and the last two on the identifier. */
  lemma IdRecorded(c: Config, s: State, w: nat, t: real, entries: seq<real>)
    requires Pruned(entries, t - c.window as real) == entries && s.clock == t
    requires At(s.buckets, IdKey("")) == At(s.log, IdKey("")) == entries
    requires w < |s.workers| && s.workers[w] == Worker(IpKey(""), IdKey(""), FailIpRecorded)
    ensures var u := Next(c, Next(c, s, Advance(w, Failed)), Advance(w, Failed));
            && u.clock == t && u.workers == s.workers[w := Worker(IpKey(""), IdKey(""), Idle)]
            && At(u.buckets, IpKey("")) == At(s.buckets, IpKey("")) && At(u.log, IpKey("")) == At(s.log, IpKey(""))
            && At(u.buckets, IdKey("")) == At(u.log, IdKey("")) == entries + [t]
  {
    KeysDiffer("", "");
    var s1 := Next(c, s, Advance(w, Failed));
    assert s1 == Move(s, w, FailIdSampled(t));
  }

  lemma LeaveRecords(c: Config, s: State, w: nat, t: real, entries: seq<real>)
    requires Holding(c, s, t, entries) && Pruned(entries + [t], t - c.window as real) == entries + [t]
    requires w < |s.workers| && s.workers[w] == Worker(IpKey(""), IdKey(""), Authenticating)
    ensures Holding(c, Run(c, s, Leave(w)), t, entries + [t])
    ensures Run(c, s, Leave(w)).workers == s.workers[w := Worker(IpKey(""), IdKey(""), Idle)]
  {
    RunFour(c, s, Advance(w, Failed), Advance(w, Failed), Advance(w, Failed), Advance(w, Failed));
    IpRecorded(c, s, w, t, entries);
    IdRecorded(c, Next(c, Next(c, s, Advance(w, Failed)), Advance(w, Failed)), w, t, entries);
  }

  lemma EnterAtZero(c: Config, s: State, w: nat, n: nat)
    requires n < c.limit && Full(c, s, n) && w < |s.workers| && s.workers[w].phase.Idle?
    ensures Full(c, Run(c, s, Enter(w)), n)
    ensures Run(c, s, Enter(w)).workers == s.workers[w := Worker(IpKey(""), IdKey(""), Authenticating)]
  {
    EnterPasses(c, s, w, 0.0, Zeros(n));
  }

  lemma LeaveAtZero(c: Config, s: State, w: nat, n: nat)
    requires c.window >= 1 && Full(c, s, n)
    requires w < |s.workers| && s.workers[w] == Worker(IpKey(""), IdKey(""), Authenticating)
    ensures Full(c, Run(c, s, Leave(w)), n + 1)
    ensures Run(c, s, Leave(w)).workers == s.workers[w := Worker(IpKey(""), IdKey(""), Idle)]
  {
    ZerosAreKept(c.window, n);
    ZerosAreKept(c.window, n + 1);
    LeaveRecords(c, s, w, 0.0, Zeros(n));
  }

  ghost predicate AllIdle(s: State) {
    forall i :: 0 <= i < |s.workers| ==> s.workers[i].phase.Idle?
  }

  lemma FailRound(c: Config, s: State, n: nat)
    requires c.window >= 1 && n < c.limit && Full(c, s, n) && AllIdle(s) && |s.workers| >= 1
    ensures var t := Run(c, s, Enter(0) + Leave(0));
            Full(c, t, n + 1) && AllIdle(t) && |t.workers| == |s.workers|
  {
    RunConcat(c, s, Enter(0), Leave(0));
    EnterAtZero(c, s, 0, n);
    LeaveAtZero(c, Run(c, s, Enter(0)), 0, n);
  }

  lemma {:induction false} AloneFills(c: Config, s: State, rounds: nat)
    requires c.window >= 1 && rounds < c.limit && Full(c, s, 0) && AllIdle(s) && |s.workers| >= 1
    ensures var t := Run(c, s, Alone(rounds));
            Full(c, t, rounds) && AllIdle(t) && |t.workers| == |s.workers|
  {
    if rounds > 0 {
      AloneFills(c, s, rounds - 1);
      RunConcat(c, s, Alone(rounds - 1), Enter(0) + Leave(0));
      FailRound(c, Run(c, s, Alone(rounds - 1)), rounds - 1);
    }
  }

  lemma {:induction false} AllEnterPass(c: Config, s: State, n: nat, k: nat)
    requires c.window >= 1 && n < c.limit && Full(c, s, n) && AllIdle(s) && k <= |s.workers|
    ensures var t := Run(c, s, AllEnter(k));
            && Full(c, t, n) && |t.workers| == |s.workers|
            && (forall i :: 0 <= i < k ==> t.workers[i] == Worker(IpKey(""), IdKey(""), Authenticating))
            && (forall i :: k <= i < |s.workers| ==> t.workers[i].phase.Idle?)
  {
    if k > 0 {
      AllEnterPass(c, s, n, k - 1);
      RunConcat(c, s, AllEnter(k - 1), Enter(k - 1));
      EnterAtZero(c, Run(c, s, AllEnter(k - 1)), k - 1, n);
    }
  }

  lemma {:induction false} AllLeaveRecord(c: Config, s: State, n: nat, k: nat)
    requires c.window >= 1 && Full(c, s, n) && k <= |s.workers|
    requires forall i :: 0 <= i < |s.workers| ==> s.workers[i] == Worker(IpKey(""), IdKey(""), Authenticating)
    ensures var t := Run(c, s, AllLeave(k));
            && Full(c, t, n + k) && |t.workers| == |s.workers|
            && (forall i :: k <= i < |s.workers| ==> t.workers[i] == s.workers[i])
  {
    if k > 0 {
      AllLeaveRecord(c, s, n, k - 1);
      RunConcat(c, s, AllLeave(k - 1), Leave(k - 1));
      LeaveAtZero(c, Run(c, s, AllLeave(k - 1)), k - 1, n + k - 1);
    }
  }

  lemma {:induction false} ZerosInWindow(n: nat, window: int)
    requires window >= 1
    ensures InWindow(Zeros(n), window, 0.0) == n
  {
    if n > 0 {
      ZerosInWindow(n - 1, window);
      assert Zeros(n)[..n - 1] == Zeros(n - 1);
    }
  }

  lemma BurstInThree(c: Config, s: State, limit: nat, k: nat)
    requires limit >= 1
    ensures Run(c, s, Burst(limit, k)) == Run(c, Run(c, Run(c, s, Alone(limit - 1)), AllEnter(k)), AllLeave(k))
  {
    RunConcat(c, s, Alone(limit - 1) + AllEnter(k), AllLeave(k));
    RunConcat(c, s, Alone(limit - 1), AllEnter(k));
  }

  lemma BurstFills(c: Config, s: State, k: nat) returns (t: State)
    requires c.limit >= 1 && c.window >= 1 && k >= 1 && Full(c, s, 0) && AllIdle(s) && |s.workers| == k
    ensures t == Run(c, s, Burst(c.limit, k)) && Full(c, t, c.limit - 1 + k)
  {
    AloneFills(c, s, c.limit - 1);
    var filled := Run(c, s, Alone(c.limit - 1));
    AllEnterPass(c, filled, c.limit - 1, k);
    var entered := Run(c, filled, AllEnter(k));
    AllLeaveRecord(c, entered, c.limit - 1, k);
    BurstInThree(c, s, c.limit, k);
    t := Run(c, entered, AllLeave(k));
  }

  /** For every limit, window and number of workers some interleaving reaches the bound. */
  lemma BurstAttained(c: Config, k: nat)
    requires c.limit >= 1 && c.window >= 1 && k >= 1
    ensures InWindow(At(Run(c, Initial(k), Burst(c.limit, k)).log, IpKey("")), c.window, 0.0) == Cap(c, k)
  {
    ZerosAreKept(c.window, 0);
    var _ := BurstFills(c, Initial(k), k);
    ZerosInWindow(c.limit - 1 + k, c.window);
  }

  // ---------------------------------------------------------------- an overfull bucket

  /** With one attempt allowed in ten seconds: both workers check at 0, one records at 0, the other at 5. */
  const OVERFULL: seq<Step> := AllEnter(2) + Leave(0) + [Tick(5.0)] + Leave(1)

  lemma TickTo(c: Config, s: State, t: real, entries: seq<real>, later: real)
    requires Holding(c, s, t, entries) && t <= later && Pruned(entries, later - c.window as real) == entries
    ensures Holding(c, Run(c, s, [Tick(later)]), later, entries)
    ensures Run(c, s, [Tick(later)]).workers == s.workers
  {
    assert [Tick(later)][1..] == [];
    assert Run(c, s, [Tick(later)]) == Run(c, Next(c, s, Tick(later)), []);
  }

  lemma OverfullTail(c: Config, s: State)
    requires c == Config(1, 10) && Full(c, s, 0) && |s.workers| == 2
    requires s.workers[0] == s.workers[1] == Worker(IpKey(""), IdKey(""), Authenticating)
    ensures At(Run(c, Run(c, Run(c, s, Leave(0)), [Tick(5.0)]), Leave(1)).log, IpKey("")) == [0.0, 5.0]
  {
    LeaveAtZero(c, s, 0, 0);
    assert Zeros(1) == [0.0];
    var left := Run(c, s, Leave(0));
    TickTo(c, left, 0.0, [0.0], 5.0);
    assert [0.0] + [5.0] == [0.0, 5.0];
    LeaveRecords(c, Run(c, left, [Tick(5.0)]), 1, 5.0, [0.0]);
  }

  lemma OverfullLog()
    ensures At(Run(Config(1, 10), Initial(2), OVERFULL).log, IpKey("")) == [0.0, 5.0]
  {
    var c, s := Config(1, 10), Initial(2);
    var a := AllEnter(2);
    RunConcat(c, s, a + Leave(0) + [Tick(5.0)], Leave(1));
    RunConcat(c, s, a + Leave(0), [Tick(5.0)]);
    RunConcat(c, s, a, Leave(0));
    ZerosAreKept(10, 0);
    AllEnterPass(c, s, 0, 2);
    OverfullTail(c, Run(c, s, a));
  }

  /**
    So two concurrent logins can leave a key that is told at 9.5 to retry in one second, and is
    still limited then.
   */
  lemma OverfullBucketReached()
    ensures var log := At(Run(Config(1, 10), Initial(2), OVERFULL).log, IpKey(""));
            && Answer(Live(log, 9.5 - 10.0), 1, 10, 9.5) == Some(1)
            && LimitedIn(1, log, 1, 10, 9.5)
  {
    OverfullLog();
    RetryAfterTooEarly();
  }
}
