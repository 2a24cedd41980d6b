/**
  A login that no other worker interrupts: the machine of interleaved steps then does to the two keys
  what the handler does when it runs from beginning to end, with the times that it read.
 */
module SoloRuns {
  import opened Wrappers
  import opened RateLimiter
  import opened AttemptWindows
  import opened LoginProtocol

  /** The clock readings of one login: before each check, and before each record of a failure. */
  datatype Times = Times(ip: real, id: real, ipAfter: real, idAfter: real)

  ghost predicate Ascending(clock: real, t: Times) { clock <= t.ip <= t.id <= t.ipAfter <= t.idAfter }

  /** The address is checked with the time read before, although the clock has moved on since. */
  function IpSteps(w: nat, ipDigest: string, idDigest: string, t: Times, outcome: Outcome): seq<Step> {
    [Tick(t.ip), Begin(w, ipDigest, idDigest), Tick(t.id), Advance(w, outcome)]
  }

  function IdSteps(w: nat, t: Times, outcome: Outcome): seq<Step> {
    [Advance(w, outcome), Tick(t.ipAfter), Advance(w, outcome)]
  }

  function EndSteps(w: nat, t: Times, outcome: Outcome): seq<Step> {
    [Advance(w, outcome), Tick(t.idAfter), Advance(w, outcome), Advance(w, outcome), Advance(w, outcome)]
  }

  /** The steps of one whole login; a worker that is done earlier stays idle. */
  function LoginSteps(w: nat, ipDigest: string, idDigest: string, t: Times, outcome: Outcome): seq<Step> {
    IpSteps(w, ipDigest, idDigest, t, outcome) + (IdSteps(w, t, outcome) + EndSteps(w, t, outcome))
  }

  // ---------------------------------------------------------------- what a login leaves

  /** The key's entries that are still in the window at a time. */
  function Kept(c: Config, s: State, key: string, now: real): seq<real> {
    Pruned(At(s.buckets, key), now - c.window as real)
  }

  ghost predicate Free(c: Config, s: State, key: string, now: real) {
    Kept(c, s, key, now) == [] || |Kept(c, s, key, now)| < c.limit
  }

  /** What a failure read at `now` adds to what a check has left of a deque. */
  function Grown(c: Config, kept: seq<real>, now: real): seq<real> { Pruned(kept, now - c.window as real) + [now] }

  ghost predicate Holds(t: State, key: string, bucket: seq<real>, log: seq<real>) {
    At(t.buckets, key) == bucket && At(t.log, key) == log
  }

  ghost predicate Untouched(s: State, t: State, key: string) {
    Holds(t, key, At(s.buckets, key), At(s.log, key))
  }

  /** The state `u` after a login from `s` on these keys, with this outcome of the authentication. */
  ghost predicate LoginEffect(c: Config, s: State, u: State, ip: string, id: string, t: Times, outcome: Outcome) {
    && (forall key :: key != ip && key != id ==> Untouched(s, u, key))
    && (!Free(c, s, ip, t.ip) ==> Holds(u, ip, Kept(c, s, ip, t.ip), At(s.log, ip)) && Untouched(s, u, id))
    && (Free(c, s, ip, t.ip) && (!Free(c, s, id, t.id) || outcome.Crashed?) ==>
          && Holds(u, ip, Kept(c, s, ip, t.ip), At(s.log, ip)) && Holds(u, id, Kept(c, s, id, t.id), At(s.log, id)))
    && (Free(c, s, ip, t.ip) && Free(c, s, id, t.id) && outcome.Failed? ==>
          && Holds(u, ip, Grown(c, Kept(c, s, ip, t.ip), t.ipAfter), At(s.log, ip) + [t.ipAfter])
          && Holds(u, id, Grown(c, Kept(c, s, id, t.id), t.idAfter), At(s.log, id) + [t.idAfter]))
    && (Free(c, s, ip, t.ip) && Free(c, s, id, t.id) && outcome.Succeeded? ==>
          Holds(u, ip, [], []) && Holds(u, id, [], []))
  }

  /** `u` has the workers of `s`, but that worker w stands at `phase`. */
  ghost predicate Stands(s: State, u: State, w: nat, phase: Phase) {
    w < |s.workers| && u.workers == s.workers[w := s.workers[w].(phase := phase)]
  }

  // ---------------------------------------------------------------- runs, step by step

  lemma {:induction false} RunConcat(c: Config, s: State, a: seq<Step>, b: seq<Step>)
    ensures Run(c, s, a + b) == Run(c, Run(c, s, a), b)
    decreases |a|
  {
    if a == [] {
      assert [] + b == b;
    } else {
      assert (a + b)[1..] == a[1..] + b;
      RunConcat(c, Next(c, s, a[0]), a[1..], b);
    }
  }

  lemma RunCons(c: Config, s: State, step: Step, rest: seq<Step>)
    ensures Run(c, s, [step] + rest) == Run(c, Next(c, s, step), rest)
  {
    assert ([step] + rest)[1..] == rest;
  }

  lemma RunTwo(c: Config, s: State, a: Step, b: Step)
    ensures Run(c, s, [a, b]) == Next(c, Next(c, s, a), b)
  {
    assert [a, b] == [a] + [b];
    RunCons(c, s, a, [b]);
    assert [b] == [b] + [];
    RunCons(c, Next(c, s, a), b, []);
  }

  lemma RunThree(c: Config, s: State, a: Step, b: Step, d: Step)
    ensures Run(c, s, [a, b, d]) == Next(c, Next(c, Next(c, s, a), b), d)
  {
    assert [a, b, d] == [a] + [b, d];
    RunCons(c, s, a, [b, d]);
    RunTwo(c, Next(c, s, a), b, d);
  }

  // ---------------------------------------------------------------- the two checks

  /** The locked section of a check, at whatever time: it uses the reading taken before. */
  lemma IpChecked(c: Config, s: State, w: nat, now: real, outcome: Outcome)
    requires w < |s.workers| && s.workers[w].phase == IpSampled(now)
    ensures var ip := s.workers[w].ip;
            var u := Next(c, s, Advance(w, outcome));
            && u.clock == s.clock && Stands(s, u, w, if Free(c, s, ip, now) then IpPassed else Idle)
            && Holds(u, ip, Kept(c, s, ip, now), At(s.log, ip))
            && forall key :: key != ip ==> Untouched(s, u, key)
  {
  }

  lemma IdChecked(c: Config, s: State, w: nat, now: real, outcome: Outcome)
    requires w < |s.workers| && s.workers[w].phase == IdSampled(now)
    ensures var id := s.workers[w].id;
            var u := Next(c, s, Advance(w, outcome));
            && u.clock == s.clock && Stands(s, u, w, if Free(c, s, id, now) then Authenticating else Idle)
            && Holds(u, id, Kept(c, s, id, now), At(s.log, id))
            && forall key :: key != id ==> Untouched(s, u, key)
  {
  }

  /** A failure is recorded under the time read before, whatever has happened since. */
  lemma FailureRecorded(c: Config, s: State, w: nat, now: real, outcome: Outcome)
    requires w < |s.workers|
    requires s.workers[w].phase == FailIpSampled(now) || s.workers[w].phase == FailIdSampled(now)
    ensures var first := s.workers[w].phase.FailIpSampled?;
            var key := if first then s.workers[w].ip else s.workers[w].id;
            var u := Next(c, s, Advance(w, outcome));
            && u.clock == s.clock && Stands(s, u, w, if first then FailIpRecorded else Idle)
            && Holds(u, key, Grown(c, At(s.buckets, key), now), At(s.log, key) + [now])
            && forall k :: k != key ==> Untouched(s, u, k)
  {
  }

  /** A success empties its address key, whatever other workers have done. */
  lemma SuccessClearsIp(c: Config, s: State, w: nat)
    requires w < |s.workers| && s.workers[w].phase == Authenticating
    ensures var ip := s.workers[w].ip;
            var u := Next(c, s, Advance(w, Succeeded));
            && u.clock == s.clock && Stands(s, u, w, SuccessIpCleared) && Holds(u, ip, [], [])
            && forall key :: key != ip ==> Untouched(s, u, key)
  {
  }

  /** And then its identifier key. */
  lemma SuccessClearsId(c: Config, s: State, w: nat, outcome: Outcome)
    requires w < |s.workers| && s.workers[w].phase == SuccessIpCleared
    ensures var id := s.workers[w].id;
            var u := Next(c, s, Advance(w, outcome));
            && u.clock == s.clock && Stands(s, u, w, Idle) && Holds(u, id, [], [])
            && forall key :: key != id ==> Untouched(s, u, key)
  {
  }

  /** The steps that read the clock, and a crash. */
  lemma ReadsClock(c: Config, s: State, w: nat, outcome: Outcome)
    requires w < |s.workers|
    ensures var p := s.workers[w].phase;
            var u := Next(c, s, Advance(w, outcome));
            && (p == IpPassed ==> u == s.(workers := u.workers) && Stands(s, u, w, IdSampled(s.clock)))
            && (p == FailIpRecorded ==> u == s.(workers := u.workers) && Stands(s, u, w, FailIdSampled(s.clock)))
            && (p == Authenticating && outcome == Failed
                ==> u == s.(workers := u.workers) && Stands(s, u, w, FailIpSampled(s.clock)))
            && (p == Authenticating && outcome == Crashed
                ==> u == s.(workers := u.workers) && Stands(s, u, w, Idle))
  {
  }

  /** From the start of a login to the end of the address's check. */
  lemma IpAlone(c: Config, s: State, w: nat, ipDigest: string, idDigest: string, t: Times, outcome: Outcome)
    requires w < |s.workers| && s.workers[w].phase.Idle? && Ascending(s.clock, t)
    ensures var u := Run(c, s, IpSteps(w, ipDigest, idDigest, t, outcome));
            var ip := IpKey(ipDigest);
            && u.clock == t.id && Holds(u, ip, Kept(c, s, ip, t.ip), At(s.log, ip))
            && (forall key :: key != ip ==> Untouched(s, u, key))
            && u.workers == s.workers[w := Worker(ip, IdKey(idDigest),
                                                  if Free(c, s, ip, t.ip) then IpPassed else Idle)]
  {
    var begin := [Tick(t.ip), Begin(w, ipDigest, idDigest), Tick(t.id)];
    var b := s.(clock := t.id, workers := s.workers[w := Worker(IpKey(ipDigest), IdKey(idDigest), IpSampled(t.ip))]);
    RunThree(c, s, Tick(t.ip), Begin(w, ipDigest, idDigest), Tick(t.id));
    assert Run(c, s, begin) == b;
    assert IpSteps(w, ipDigest, idDigest, t, outcome) == begin + [Advance(w, outcome)];
    RunConcat(c, s, begin, [Advance(w, outcome)]);
    assert [Advance(w, outcome)] == [Advance(w, outcome)] + [];
    RunCons(c, b, Advance(w, outcome), []);
    IpChecked(c, b, w, t.ip, outcome);
  }

  /** From there to the end of the identifier's check. */
  lemma IdAlone(c: Config, s: State, w: nat, t: Times, outcome: Outcome)
    requires w < |s.workers| && s.workers[w].phase == IpPassed && s.clock == t.id <= t.ipAfter
    ensures var u := Run(c, s, IdSteps(w, t, outcome));
            var id := s.workers[w].id;
            && u.clock == t.ipAfter && Holds(u, id, Kept(c, s, id, t.id), At(s.log, id))
            && (forall key :: key != id ==> Untouched(s, u, key))
            && Stands(s, u, w, if Free(c, s, id, t.id) then Authenticating else Idle)
  {
    var go := Advance(w, outcome);
    RunThree(c, s, go, Tick(t.ipAfter), go);
    ReadsClock(c, s, w, outcome);
    var a := Next(c, s, go);
    var b := Next(c, a, Tick(t.ipAfter));
    assert b == a.(clock := t.ipAfter);
    IdChecked(c, b, w, t.id, outcome);
  }

  // ---------------------------------------------------------------- the end of a login

  lemma RunEnd(c: Config, s: State, w: nat, t: Times, outcome: Outcome)
    ensures var go := Advance(w, outcome);
            Run(c, s, EndSteps(w, t, outcome))
            == Next(c, Next(c, Next(c, Next(c, Next(c, s, go), Tick(t.idAfter)), go), go), go)
  {
    var go := Advance(w, outcome);
    assert EndSteps(w, t, outcome) == [go, Tick(t.idAfter)] + [go, go, go];
    RunConcat(c, s, [go, Tick(t.idAfter)], [go, go, go]);
    RunTwo(c, s, go, Tick(t.idAfter));
    RunThree(c, Next(c, Next(c, s, go), Tick(t.idAfter)), go, go, go);
  }

  /** The second half of a recorded failure: the identifier key, under a reading of its own. */
  lemma IdRecorded(c: Config, s: State, w: nat, outcome: Outcome)
    requires w < |s.workers| && s.workers[w].phase == FailIpRecorded
    ensures var go := Advance(w, outcome);
            var id := s.workers[w].id;
            var u := Next(c, Next(c, s, go), go);
            && u.clock == s.clock && Stands(s, u, w, Idle)
            && Holds(u, id, Grown(c, At(s.buckets, id), s.clock), At(s.log, id) + [s.clock])
            && forall key :: key != id ==> Untouched(s, u, key)
  {
    ReadsClock(c, s, w, outcome);
    FailureRecorded(c, Next(c, s, Advance(w, outcome)), w, s.clock, outcome);
  }

  lemma FailureAlone(c: Config, s: State, w: nat, t: Times)
    requires w < |s.workers| && s.workers[w].phase == Authenticating && s.workers[w].ip != s.workers[w].id
    requires s.clock == t.ipAfter <= t.idAfter
    ensures var (ip, id) := (s.workers[w].ip, s.workers[w].id);
            var u := Run(c, s, EndSteps(w, t, Failed));
            && u.clock == t.idAfter && Stands(s, u, w, Idle)
            && Holds(u, ip, Grown(c, At(s.buckets, ip), t.ipAfter), At(s.log, ip) + [t.ipAfter])
            && Holds(u, id, Grown(c, At(s.buckets, id), t.idAfter), At(s.log, id) + [t.idAfter])
            && forall key :: key != ip && key != id ==> Untouched(s, u, key)
  {
    var go := Advance(w, Failed);
    RunEnd(c, s, w, t, Failed);
    ReadsClock(c, s, w, Failed);
    var a := Next(c, Next(c, s, go), Tick(t.idAfter));
    FailureRecorded(c, a, w, t.ipAfter, Failed);
    IdRecorded(c, Next(c, a, go), w, Failed);
  }

  lemma SuccessAlone(c: Config, s: State, w: nat, t: Times)
    requires w < |s.workers| && s.workers[w].phase == Authenticating && s.workers[w].ip != s.workers[w].id
    requires s.clock == t.ipAfter <= t.idAfter
    ensures var (ip, id) := (s.workers[w].ip, s.workers[w].id);
            var u := Run(c, s, EndSteps(w, t, Succeeded));
            && u.clock == t.idAfter && Stands(s, u, w, Idle) && Holds(u, ip, [], []) && Holds(u, id, [], [])
            && forall key :: key != ip && key != id ==> Untouched(s, u, key)
  {
    var go := Advance(w, Succeeded);
    RunEnd(c, s, w, t, Succeeded);
    SuccessClearsIp(c, s, w);
    var a := Next(c, Next(c, s, go), Tick(t.idAfter));
    SuccessClearsId(c, a, w, Succeeded);
    var b := Next(c, a, go);
    assert Next(c, b, go) == b;
  }

  lemma CrashAlone(c: Config, s: State, w: nat, t: Times)
    requires w < |s.workers| && s.workers[w].phase == Authenticating && s.clock == t.ipAfter <= t.idAfter
    ensures var u := Run(c, s, EndSteps(w, t, Crashed));
            u.clock == t.idAfter && Stands(s, u, w, Idle) && forall key :: Untouched(s, u, key)
  {
    var go := Advance(w, Crashed);
    RunEnd(c, s, w, t, Crashed);
    ReadsClock(c, s, w, Crashed);
    var a := Next(c, Next(c, s, go), Tick(t.idAfter));
    assert Next(c, a, go) == a;
  }

  lemma IdleClock(c: Config, s: State, w: nat, t: Times, outcome: Outcome)
    requires w < |s.workers| && s.workers[w].phase.Idle? && s.clock <= t.idAfter
    ensures Run(c, s, EndSteps(w, t, outcome)) == s.(clock := t.idAfter)
  {
    RunEnd(c, s, w, t, outcome);
    assert Next(c, s, Advance(w, outcome)) == s;
  }

  lemma IdleId(c: Config, s: State, w: nat, t: Times, outcome: Outcome)
    requires w < |s.workers| && s.workers[w].phase.Idle? && s.clock <= t.ipAfter
    ensures Run(c, s, IdSteps(w, t, outcome)) == s.(clock := t.ipAfter)
  {
    RunThree(c, s, Advance(w, outcome), Tick(t.ipAfter), Advance(w, outcome));
    assert Next(c, s, Advance(w, outcome)) == s;
  }

  lemma StandsAgain(s: State, a: State, u: State, w: nat, before: Phase, after: Phase)
    requires Stands(s, a, w, before) && Stands(a, u, w, after)
    ensures Stands(s, u, w, after)
  {
  }

  /** After the address's check. */
  lemma RestAlone(c: Config, s: State, w: nat, t: Times, outcome: Outcome)
    requires w < |s.workers| && s.workers[w].phase == IpPassed && s.workers[w].ip != s.workers[w].id
    requires s.clock == t.id <= t.ipAfter <= t.idAfter
    ensures var (ip, id) := (s.workers[w].ip, s.workers[w].id);
            var u := Run(c, s, IdSteps(w, t, outcome) + EndSteps(w, t, outcome));
            && u.clock == t.idAfter && Stands(s, u, w, Idle)
            && (forall key :: key != ip && key != id ==> Untouched(s, u, key))
            && (!Free(c, s, id, t.id) || outcome.Crashed? ==>
                  Untouched(s, u, ip) && Holds(u, id, Kept(c, s, id, t.id), At(s.log, id)))
            && (Free(c, s, id, t.id) && outcome.Failed? ==>
                  && Holds(u, ip, Grown(c, At(s.buckets, ip), t.ipAfter), At(s.log, ip) + [t.ipAfter])
                  && Holds(u, id, Grown(c, Kept(c, s, id, t.id), t.idAfter), At(s.log, id) + [t.idAfter]))
            && (Free(c, s, id, t.id) && outcome.Succeeded? ==> Holds(u, ip, [], []) && Holds(u, id, [], []))
  {
    RunConcat(c, s, IdSteps(w, t, outcome), EndSteps(w, t, outcome));
    IdAlone(c, s, w, t, outcome);
    var (ip, id) := (s.workers[w].ip, s.workers[w].id);
    var a := Run(c, s, IdSteps(w, t, outcome));
    var u := Run(c, a, EndSteps(w, t, outcome));
    assert Untouched(s, a, ip);
    if !Free(c, s, id, t.id) {
      IdleClock(c, a, w, t, outcome);
    } else {
      match outcome {
        case Failed => FailureAlone(c, a, w, t);
        case Succeeded => SuccessAlone(c, a, w, t);
        case Crashed => CrashAlone(c, a, w, t);
      }
      StandsAgain(s, a, u, w, Authenticating, Idle);
    }
    forall key | key != ip && key != id ensures Untouched(s, u, key) {
      assert Untouched(s, a, key) && Untouched(a, u, key);
    }
    assert outcome.Crashed? && Free(c, s, id, t.id) ==> Untouched(a, u, ip) && Untouched(a, u, id);
  }

  lemma NothingLeft(c: Config, s: State, w: nat, t: Times, outcome: Outcome)
    requires w < |s.workers| && s.workers[w].phase.Idle? && s.clock <= t.ipAfter <= t.idAfter
    ensures Run(c, s, IdSteps(w, t, outcome) + EndSteps(w, t, outcome)) == s.(clock := t.idAfter)
  {
    RunConcat(c, s, IdSteps(w, t, outcome), EndSteps(w, t, outcome));
    IdleId(c, s, w, t, outcome);
    IdleClock(c, s.(clock := t.ipAfter), w, t, outcome);
  }

  /**
    Main result: a login that runs alone, from any state of the limiter, does to its two keys what the
    handler does with the times it reads, is done at its end, and touches no other key.
   */
  lemma SoloLogin(c: Config, s: State, w: nat, ipDigest: string, idDigest: string, t: Times, outcome: Outcome)
    requires w < |s.workers| && s.workers[w].phase.Idle? && Ascending(s.clock, t)
    ensures var u := Run(c, s, LoginSteps(w, ipDigest, idDigest, t, outcome));
            && LoginEffect(c, s, u, IpKey(ipDigest), IdKey(idDigest), t, outcome)
            && u.clock == t.idAfter
            && u.workers == s.workers[w := Worker(IpKey(ipDigest), IdKey(idDigest), Idle)]
  {
    KeysDiffer(ipDigest, idDigest);
    RunConcat(c, s, IpSteps(w, ipDigest, idDigest, t, outcome), IdSteps(w, t, outcome) + EndSteps(w, t, outcome));
    IpAlone(c, s, w, ipDigest, idDigest, t, outcome);
    var a := Run(c, s, IpSteps(w, ipDigest, idDigest, t, outcome));
    var u := Run(c, a, IdSteps(w, t, outcome) + EndSteps(w, t, outcome));
    var (ip, id) := (IpKey(ipDigest), IdKey(idDigest));
    assert Untouched(s, a, id);
    if !Free(c, s, ip, t.ip) {
      NothingLeft(c, a, w, t, outcome);
    } else {
      RestAlone(c, a, w, t, outcome);
      assert u.workers == s.workers[w := Worker(ip, id, Idle)];
    }
    forall key | key != ip && key != id ensures Untouched(s, u, key) {
      assert Untouched(s, a, key) && Untouched(a, u, key);
    }
  }
}
