/**
  Logins on Redis: one worker alone, an interleaving that reaches the bound, and one in which a
  success makes another worker record its failure twice.
 */
module RedisBursts {
  import opened Wrappers
  import opened RateLimiter
  import opened AttemptWindows
  import opened RedisProtocol
  import opened Spacing

  // ---------------------------------------------------------------- when memory is written

  /** No worker is on its way to memory. */
  ghost predicate NoFallback(s: State) {
    forall i :: 0 <= i < |s.workers| ==> !s.workers[i].FallbackDue? && !s.workers[i].FallbackSampled?
  }

  ghost predicate FallbackIsDue(s: State) {
    exists i :: 0 <= i < |s.workers| && s.workers[i].FallbackDue?
  }

  /** The step is a ZCARD, after the worker's own ZADD, on an empty set. */
  ghost predicate CountsNone(s: State, step: Step) {
    step.Advance? && step.w < |s.workers| && s.workers[step.w].RecordAdded? && s.zset == []
  }

  /** Some step of the run is such a ZCARD. */
  ghost predicate SomeCountsNone(c: Config, s: State, steps: seq<Step>)
    decreases |steps|
  {
    steps != [] && (CountsNone(s, steps[0]) || SomeCountsNone(c, Next(c, s, steps[0]), steps[1..]))
  }

  /** In some state of the run a worker has to turn to memory. */
  ghost predicate FallsBack(c: Config, s: State, steps: seq<Step>)
    decreases |steps|
  {
    FallbackIsDue(s) || (steps != [] && FallsBack(c, Next(c, s, steps[0]), steps[1..]))
  }

  /** Seen from one step: only that ZCARD makes a fallback due. */
  ghost predicate Quiet(s: State, t: State, none: bool) {
    && t.up && (FallbackIsDue(t) <==> none) && (!none ==> NoFallback(t))
  }

  lemma CommandQuiet(c: Config, s: State, w: nat)
    requires s.up && NoFallback(s) && w < |s.workers|
    ensures Quiet(s, Command(c, s, w), s.workers[w].RecordAdded? && s.zset == [])
  {
    if s.workers[w].RecordAdded? && s.zset == [] {
      assert Command(c, s, w).workers[w] == FallbackDue;
    }
  }

  lemma ProceedQuiet(c: Config, s: State, w: nat, outcome: Outcome)
    requires s.up && NoFallback(s) && w < |s.workers|
    ensures Quiet(s, Proceed(c, s, w, outcome), false)
  {
  }

  lemma QuietStep(c: Config, s: State, step: Step)
    requires s.up && !step.Switch? && NoFallback(s)
    ensures Quiet(s, Next(c, s, step), CountsNone(s, step))
  {
    if step.Advance? && step.w < |s.workers| {
      CommandQuiet(c, s, step.w);
      ProceedQuiet(c, s, step.w, step.outcome);
    }
  }

  /** While Redis is up a worker turns to memory exactly if a ZCARD after its own ZADD finds the set empty. */
  lemma {:induction false} FallsBackIff(c: Config, s: State, steps: seq<Step>)
    requires s.up && NoFallback(s) && StaysUp(steps)
    ensures FallsBack(c, s, steps) <==> SomeCountsNone(c, s, steps)
    decreases |steps|
  {
    if steps != [] {
      RestStaysUp(steps);
      QuietStep(c, s, steps[0]);
      if !CountsNone(s, steps[0]) {
        FallsBackIff(c, Next(c, s, steps[0]), steps[1..]);
      } else {
        assert FallsBack(c, Next(c, s, steps[0]), steps[1..]);
      }
    }
  }

  lemma RestStaysUp(steps: seq<Step>)
    requires steps != [] && StaysUp(steps)
    ensures !steps[0].Switch? && StaysUp(steps[1..])
  {
    assert steps[0] in steps;
  }

  lemma MemoryQuiet(c: Config, s: State, step: Step)
    requires NoFallback(s) && s.bucket == [] && s.memoryLog == []
    ensures Next(c, s, step).bucket == [] && Next(c, s, step).memoryLog == []
  {
  }

  /** And as long as none does, memory is not written. */
  lemma {:induction false} MemoryUntouched(c: Config, s: State, steps: seq<Step>)
    requires s.up && NoFallback(s) && StaysUp(steps) && s.bucket == [] && s.memoryLog == []
    requires !SomeCountsNone(c, s, steps)
    ensures Run(c, s, steps).bucket == [] && Run(c, s, steps).memoryLog == []
    decreases |steps|
  {
    if steps != [] {
      RestStaysUp(steps);
      QuietStep(c, s, steps[0]);
      MemoryQuiet(c, s, steps[0]);
      MemoryUntouched(c, Next(c, s, steps[0]), steps[1..]);
    }
  }

  // ---------------------------------------------------------------- what empties the set

  ghost predicate Clears(s: State, step: Step) {
    step.Advance? && step.w < |s.workers| && s.workers[step.w].Passed? && step.outcome.Succeeded?
  }

  /** The step is a prune with a clock reading a full window after the stamp. */
  ghost predicate Expires(c: Config, s: State, step: Step, stamp: real) {
    && step.Advance? && step.w < |s.workers|
    && (s.workers[step.w].CheckSampled? || s.workers[step.w].RecordSampled?)
    && 0.0 <= stamp && stamp + c.window as real <= s.workers[step.w].now
  }

  /** While Redis is up a stamp leaves the set exactly by a clear, or by a prune a full window later. */
  lemma StampLeavesIff(c: Config, s: State, step: Step, stamp: real)
    requires s.up && !step.Switch? && stamp in s.zset
    ensures stamp !in Next(c, s, step).zset <==> Clears(s, step) || Expires(c, s, step, stamp)
  {
  }

  ghost predicate SomeRemoves(c: Config, s: State, steps: seq<Step>, stamp: real)
    decreases |steps|
  {
    steps != [] && (|| Clears(s, steps[0]) || Expires(c, s, steps[0], stamp)
                    || SomeRemoves(c, Next(c, s, steps[0]), steps[1..], stamp))
  }

  lemma {:induction false} StampStays(c: Config, s: State, steps: seq<Step>, stamp: real)
    requires s.up && StaysUp(steps) && stamp in s.zset && !SomeRemoves(c, s, steps, stamp)
    ensures stamp in Run(c, s, steps).zset
    decreases |steps|
  {
    if steps != [] {
      RestStaysUp(steps);
      StampLeavesIff(c, s, steps[0], stamp);
      StampStays(c, Next(c, s, steps[0]), steps[1..], stamp);
    }
  }

  /** So a worker that counts none after adding its stamp was overtaken by a clear or, a window later, by a prune. */
  lemma EmptyCountHasCause(c: Config, s: State, w: nat, outcome: Outcome, more: seq<Step>)
    requires s.up && w < |s.workers| && s.workers[w].RecordPruned? && StaysUp(more)
    requires var t := Next(c, s, Advance(w, outcome)); CountsNone(Run(c, t, more), Advance(w, outcome))
    ensures SomeRemoves(c, Next(c, s, Advance(w, outcome)), more, s.workers[w].now)
  {
    var t, stamp := Next(c, s, Advance(w, outcome)), s.workers[w].now;
    assert stamp in t.zset;
    if !SomeRemoves(c, t, more, stamp) {
      StampStays(c, t, more, stamp);
    }
  }

  // ---------------------------------------------------------------- one worker alone

  /** The only worker finds its own stamp in the set. */
  ghost predicate Solo(s: State) {
    && s.up && |s.workers| <= 1 && NoFallback(s) && s.bucket == [] && s.memoryLog == []
    && forall i :: 0 <= i < |s.workers| && s.workers[i].RecordAdded? ==> s.zset != []
  }

  lemma AddIsSeen(zset: seq<real>, stamp: real)
    ensures ZAdd(zset, stamp) != []
  {
    assert stamp in ZAdd(zset, stamp);
  }

  lemma NextSolo(c: Config, s: State, step: Step)
    requires Solo(s) && !step.Switch?
    ensures Solo(Next(c, s, step))
  {
    QuietStep(c, s, step);
    MemoryQuiet(c, s, step);
    if |s.workers| == 1 && s.workers[0].RecordPruned? {
      AddIsSeen(s.zset, s.workers[0].now);
    }
  }

  lemma {:induction false} RunSolo(c: Config, s: State, steps: seq<Step>)
    requires Solo(s) && StaysUp(steps)
    ensures Solo(Run(c, s, steps))
    decreases |steps|
  {
    if steps != [] {
      RestStaysUp(steps);
      NextSolo(c, s, steps[0]);
      RunSolo(c, Next(c, s, steps[0]), steps[1..]);
    }
  }

  /** Main result: a single worker on Redis is held to the limit itself, and never falls back to memory. */
  lemma RedisSingleWorker(c: Config, steps: seq<Step>, to: real)
    requires c.limit >= 1 && DistinctStamps(c, Initial(1), steps) && StaysUp(steps)
    ensures var s := Run(c, Initial(1), steps);
            InWindow(s.redisLog, c.window, to) <= c.limit && s.bucket == [] && s.memoryLog == []
  {
    RedisBurstBound(c, 1, steps, Redis, to);
    RunSolo(c, Initial(1), steps);
  }

  // ---------------------------------------------------------------- building runs

  /** These steps lead from s to t without an outage, and every stamp they add is a new one. */
  ghost predicate Reaches(c: Config, s: State, steps: seq<Step>, t: State) {
    Run(c, s, steps) == t && DistinctStamps(c, s, steps) && StaysUp(steps)
  }

  lemma {:induction false} Then(c: Config, s: State, a: seq<Step>, t: State, b: seq<Step>, u: State)
    requires Reaches(c, s, a, t) && Reaches(c, t, b, u)
    ensures Reaches(c, s, a + b, u)
    decreases |a|
  {
    if a == [] {
      assert a + b == b;
    } else {
      assert (a + b)[0] == a[0] && (a + b)[1..] == a[1..] + b;
      Then(c, Next(c, s, a[0]), a[1..], t, b, u);
    }
  }

  lemma One(c: Config, s: State, step: Step)
    requires FreshStamp(s, step) && !step.Switch?
    ensures Reaches(c, s, [step], Next(c, s, step))
  {
    assert [step][1..] == [];
  }

  function Advances(w: nat, n: nat, outcome: Outcome): seq<Step> { seq(n, _ => Advance(w, outcome)) }

  /** One more step of a worker, after n of them. */
  lemma Onward(c: Config, s: State, w: nat, n: nat, outcome: Outcome, t: State)
    requires Reaches(c, s, Advances(w, n, outcome), t) && FreshStamp(t, Advance(w, outcome))
    ensures Reaches(c, s, Advances(w, n + 1, outcome), Next(c, t, Advance(w, outcome)))
  {
    One(c, t, Advance(w, outcome));
    Then(c, s, Advances(w, n, outcome), t, [Advance(w, outcome)], Next(c, t, Advance(w, outcome)));
    assert Advances(w, n + 1, outcome) == Advances(w, n, outcome) + [Advance(w, outcome)];
  }

  /** A check that finds the key free: two Redis commands, then the memory check. */
  function Enter(w: nat): seq<Step> { [Begin(w)] + Advances(w, 4, Failed) }

  lemma RedisFree(c: Config, s: State, w: nat)
    requires ZRemRange(s.zset, 0.0, s.clock - c.window as real) == s.zset && |s.zset| < c.limit
    requires s.up && w < |s.workers| && s.workers[w].Idle?
    ensures Reaches(c, Move(s, w, CheckSampled(s.clock)), Advances(w, 2, Failed), Move(s, w, MemoryDue(true)))
  {
    var s1 := Move(s, w, CheckSampled(s.clock));
    Onward(c, s1, w, 0, Failed, s1);
    assert Next(c, s1, Advance(w, Failed)) == Move(s, w, CheckPruned(s.clock));
    Onward(c, s1, w, 1, Failed, Move(s, w, CheckPruned(s.clock)));
    assert Next(c, Move(s, w, CheckPruned(s.clock)), Advance(w, Failed)) == Move(s, w, MemoryDue(true));
  }

  lemma EnterFree(c: Config, s: State, w: nat)
    requires ZRemRange(s.zset, 0.0, s.clock - c.window as real) == s.zset && |s.zset| < c.limit
    requires s.up && s.bucket == [] && w < |s.workers| && s.workers[w].Idle?
    ensures Reaches(c, s, Enter(w), Move(s, w, Passed(true)))
  {
    var s1 := Move(s, w, CheckSampled(s.clock));
    One(c, s, Begin(w));
    RedisFree(c, s, w);
    Onward(c, s1, w, 2, Failed, Move(s, w, MemoryDue(true)));
    assert Next(c, Move(s, w, MemoryDue(true)), Advance(w, Failed)) == Move(s, w, MemorySampled(s.clock, true));
    Onward(c, s1, w, 3, Failed, Move(s, w, MemorySampled(s.clock, true)));
    assert Next(c, Move(s, w, MemorySampled(s.clock, true)), Advance(w, Failed)) == Move(s, w, Passed(true));
    Then(c, s, [Begin(w)], s1, Advances(w, 4, Failed), Move(s, w, Passed(true)));
  }

  /** The store after a failure at its own clock reading has been added. */
  function Added(s: State, w: nat): State
    requires w < |s.workers|
  {
    Move(s, w, RecordAdded).(zset := s.zset + [s.clock], redisLog := s.redisLog + [s.clock])
  }

  /** A failed login up to its ZADD, at a time when nothing has expired and all stamps are older. */
  lemma AddStamp(c: Config, s: State, w: nat)
    requires ZRemRange(s.zset, 0.0, s.clock - c.window as real) == s.zset && ZAdd(s.zset, s.clock) == s.zset + [s.clock]
    requires s.up && s.clock !in s.redisLog && w < |s.workers| && s.workers[w] == Passed(true)
    ensures Reaches(c, s, Advances(w, 3, Failed), Added(s, w))
  {
    Onward(c, s, w, 0, Failed, s);
    assert Next(c, s, Advance(w, Failed)) == Move(s, w, RecordSampled(s.clock, true));
    Onward(c, s, w, 1, Failed, Move(s, w, RecordSampled(s.clock, true)));
    assert Next(c, Move(s, w, RecordSampled(s.clock, true)), Advance(w, Failed))
        == Move(s, w, RecordPruned(s.clock, true));
    Onward(c, s, w, 2, Failed, Move(s, w, RecordPruned(s.clock, true)));
    assert Next(c, Move(s, w, RecordPruned(s.clock, true)), Advance(w, Failed)) == Added(s, w);
  }

  // ---------------------------------------------------------------- two workers are enough

  /** Both workers pass; worker 0 fails up to its ZADD; worker 1 succeeds; worker 0 goes on. */
  const RACE: seq<Step> :=
    Enter(0) + Enter(1) + Advances(0, 3, Failed) + Advances(1, 2, Succeeded) + Advances(0, 3, Failed)

  /** Worker 0 passes and fails up to its ZADD; a window later worker 1 starts a check; worker 0 goes on. */
  function Expiry(window: int): seq<Step> {
    Enter(0) + Advances(0, 3, Failed) + [Tick(window as real)] + ([Begin(1)] + Advances(1, 1, Failed))
    + Advances(0, 3, Failed)
  }

  function Cleared(s: State, w: nat): State
    requires w < |s.workers|
  {
    Move(s, w, Idle).(zset := [], redisLog := [], recovered := [], bucket := [], memoryLog := [])
  }

  /** A success clears both stores. */
  lemma ClearBoth(c: Config, s: State, w: nat)
    requires s.up && w < |s.workers| && s.workers[w].Passed?
    ensures Reaches(c, s, Advances(w, 2, Succeeded), Cleared(s, w))
  {
    Onward(c, s, w, 0, Succeeded, s);
    var s1 := Next(c, s, Advance(w, Succeeded));
    Onward(c, s, w, 1, Succeeded, s1);
    assert Next(c, s1, Advance(w, Succeeded)) == Cleared(s, w);
  }

  function RecordedAgain(s: State, w: nat): State
    requires w < |s.workers|
  {
    Move(s, w, Idle).(bucket := [s.clock], memoryLog := s.memoryLog + [s.clock])
  }

  /** A worker that reads back a count of zero records once more, in memory. */
  lemma RecordAgain(c: Config, s: State, w: nat)
    requires s.up && s.zset == [] && s.bucket == [] && w < |s.workers| && s.workers[w].RecordAdded?
    ensures Reaches(c, s, Advances(w, 3, Failed), RecordedAgain(s, w))
  {
    Onward(c, s, w, 0, Failed, s);
    assert Next(c, s, Advance(w, Failed)) == Move(s, w, FallbackDue);
    Onward(c, s, w, 1, Failed, Move(s, w, FallbackDue));
    assert Next(c, Move(s, w, FallbackDue), Advance(w, Failed)) == Move(s, w, FallbackSampled(s.clock));
    Onward(c, s, w, 2, Failed, Move(s, w, FallbackSampled(s.clock)));
    assert Next(c, Move(s, w, FallbackSampled(s.clock)), Advance(w, Failed)) == RecordedAgain(s, w);
  }

  /** The first two of k workers, the others idle. */
  function Two(k: nat, first: Phase, second: Phase): seq<Phase>
    requires k >= 2
  {
    [first, second] + seq(k - 2, _ => Idle)
  }

  function Empty(workers: seq<Phase>): State { State(0.0, true, [], [], [], [], [], workers) }

  /** Both workers get through, and worker 0 adds its stamp. */
  lemma RaceBegins(c: Config, k: nat)
    requires c.limit >= 1 && k >= 2
    ensures Reaches(c, Initial(k), Enter(0) + Enter(1) + Advances(0, 3, Failed),
                    Empty(Two(k, RecordAdded, Passed(true))).(zset := [0.0], redisLog := [0.0]))
  {
    var s, s1, s2 := Initial(k), Empty(Two(k, Passed(true), Idle)), Empty(Two(k, Passed(true), Passed(true)));
    assert s.workers == Two(k, Idle, Idle);
    EnterFree(c, s, 0);
    assert Move(s, 0, Passed(true)) == s1;
    EnterFree(c, s1, 1);
    assert Move(s1, 1, Passed(true)) == s2;
    Then(c, s, Enter(0), s1, Enter(1), s2);
    AddStamp(c, s2, 0);
    assert Added(s2, 0) == Empty(Two(k, RecordAdded, Passed(true))).(zset := [0.0], redisLog := [0.0]);
    Then(c, s, Enter(0) + Enter(1), s2, Advances(0, 3, Failed), Added(s2, 0));
  }

  /**
    Memory can be written although Redis is up all the time: a success that clears the key between
    the other worker's ZADD and ZCARD makes that worker record its failure a second time, where
    Redis no longer sees it.
   */
  lemma FallbackAfterClear(c: Config, k: nat)
    requires c.limit >= 1 && k >= 2
    ensures Reaches(c, Initial(k), RACE, Initial(k).(bucket := [0.0], memoryLog := [0.0]))
  {
    var s := Initial(k);
    var s3 := Empty(Two(k, RecordAdded, Passed(true))).(zset := [0.0], redisLog := [0.0]);
    var s4 := Empty(Two(k, RecordAdded, Idle));
    RaceBegins(c, k);
    ClearBoth(c, s3, 1);
    assert Cleared(s3, 1) == s4;
    Then(c, s, Enter(0) + Enter(1) + Advances(0, 3, Failed), s3, Advances(1, 2, Succeeded), s4);
    RecordAgain(c, s4, 0);
    assert s.workers == Two(k, Idle, Idle) == Two(k, RecordAdded, Idle)[0 := Idle];
    assert RecordedAgain(s4, 0) == s.(bucket := [0.0], memoryLog := [0.0]);
    Then(c, s, Enter(0) + Enter(1) + Advances(0, 3, Failed) + Advances(1, 2, Succeeded), s4,
         Advances(0, 3, Failed), RecordedAgain(s4, 0));
  }

  /** A prune that drops all there is, a window after time 0. */
  lemma PruneAll(c: Config, s: State, w: nat)
    requires s.up && s.zset == [0.0] && s.clock == c.window as real && w < |s.workers| && s.workers[w].Idle?
    ensures Reaches(c, s, [Begin(w)] + Advances(w, 1, Failed), Move(s, w, CheckPruned(s.clock)).(zset := []))
  {
    var s1 := Move(s, w, CheckSampled(s.clock));
    One(c, s, Begin(w));
    Onward(c, s1, w, 0, Failed, s1);
    assert ZRemRange([0.0], 0.0, 0.0) == [];
    assert Next(c, s1, Advance(w, Failed)) == Move(s, w, CheckPruned(s.clock)).(zset := []);
    Then(c, s, [Begin(w)], s1, Advances(w, 1, Failed), Move(s, w, CheckPruned(s.clock)).(zset := []));
  }

  /** Worker 0 gets through and adds its stamp, and a whole window passes before it counts. */
  lemma ExpiryBegins(c: Config, k: nat)
    requires c.limit >= 1 && c.window >= 1 && k >= 2
    ensures Reaches(c, Initial(k), Enter(0) + Advances(0, 3, Failed) + [Tick(c.window as real)],
                    Empty(Two(k, RecordAdded, Idle)).(clock := c.window as real, zset := [0.0], redisLog := [0.0]))
  {
    var s, s1 := Initial(k), Empty(Two(k, Passed(true), Idle));
    var s2 := Empty(Two(k, RecordAdded, Idle)).(zset := [0.0], redisLog := [0.0]);
    assert s.workers == Two(k, Idle, Idle);
    EnterFree(c, s, 0);
    assert Move(s, 0, Passed(true)) == s1;
    AddStamp(c, s1, 0);
    assert Added(s1, 0) == s2;
    Then(c, s, Enter(0), s1, Advances(0, 3, Failed), s2);
    One(c, s2, Tick(c.window as real));
    Then(c, s, Enter(0) + Advances(0, 3, Failed), s2, [Tick(c.window as real)], s2.(clock := c.window as real));
  }

  /** Nor does it take a success: a prune by another worker, a window later, has the same effect. */
  lemma FallbackAfterExpiry(c: Config, k: nat)
    requires c.limit >= 1 && c.window >= 1 && k >= 2
    ensures var t := c.window as real;
            Reaches(c, Initial(k), Expiry(c.window),
                    State(t, true, [], [t], [0.0], [t], [], Two(k, Idle, CheckPruned(t))))
  {
    var t := c.window as real;
    var s, s3 := Initial(k), Empty(Two(k, RecordAdded, Idle)).(clock := t, zset := [0.0], redisLog := [0.0]);
    var s4 := Empty(Two(k, RecordAdded, CheckPruned(t))).(clock := t, redisLog := [0.0]);
    ExpiryBegins(c, k);
    PruneAll(c, s3, 1);
    assert Move(s3, 1, CheckPruned(t)).(zset := []) == s4;
    Then(c, s, Enter(0) + Advances(0, 3, Failed) + [Tick(t)], s3, [Begin(1)] + Advances(1, 1, Failed), s4);
    RecordAgain(c, s4, 0);
    assert RecordedAgain(s4, 0) == State(t, true, [], [t], [0.0], [t], [], Two(k, Idle, CheckPruned(t)));
    Then(c, s, Enter(0) + Advances(0, 3, Failed) + [Tick(t)] + ([Begin(1)] + Advances(1, 1, Failed)), s4,
         Advances(0, 3, Failed), RecordedAgain(s4, 0));
  }

  /** In every run of k workers without an outage memory stays empty. */
  ghost predicate MemoryStaysEmpty(c: Config, k: nat) {
    forall steps :: StaysUp(steps) && DistinctStamps(c, Initial(k), steps) ==> Run(c, Initial(k), steps).memoryLog == []
  }

  /** Main result: while Redis is up memory is sure to stay empty exactly if at most one worker runs at a time. */
  lemma MemoryUntouchedIff(c: Config, k: nat)
    requires c.limit >= 1
    ensures MemoryStaysEmpty(c, k) <==> k <= 1
  {
    if k <= 1 {
      forall steps | StaysUp(steps) && DistinctStamps(c, Initial(k), steps)
        ensures Run(c, Initial(k), steps).memoryLog == []
      {
        RunSolo(c, Initial(k), steps);
      }
    } else {
      FallbackAfterClear(c, k);
      assert Run(c, Initial(k), RACE).memoryLog == [0.0];
    }
  }

  // ---------------------------------------------------------------- the bound is attained

  /** A worker that has passed fails at time t. */
  function Fail(w: nat, t: real): seq<Step> { [Tick(t)] + Advances(w, 4, Failed) }

  /** Worker 0 fails n times on its own, one gap apart. */
  function Alone(n: nat, gap: real): seq<Step> {
    if n == 0 then [] else Alone(n - 1, gap) + (Enter(0) + Fail(0, TimeAt(n, gap)))
  }

  function AllEnter(k: nat): seq<Step> {
    if k == 0 then [] else AllEnter(k - 1) + Enter(k - 1)
  }

  function AllFail(from: nat, k: nat, gap: real): seq<Step> {
    if k == 0 then [] else AllFail(from, k - 1, gap) + Fail(k - 1, TimeAt(from + k, gap))
  }

  /** limit - 1 failures one after the other; then all k workers check before any of them records. */
  function Burst(limit: nat, k: nat, gap: real): seq<Step>
    requires limit >= 1
  {
    Alone(limit - 1, gap) + AllEnter(k) + AllFail(limit - 1, k, gap)
  }

  /** After n failures in Redis, none of them expired. */
  function After(n: nat, gap: real, workers: seq<Phase>): State {
    State(TimeAt(n, gap), true, Stamps(0, n, gap), [], Stamps(0, n, gap), [], [], workers)
  }

  lemma NothingExpired(c: Config, n: nat, gap: real, now: real)
    requires 0.0 < gap && c.window >= 1 && 0.0 <= now <= 1.0
    ensures ZRemRange(Stamps(0, n, gap), 0.0, now - c.window as real) == Stamps(0, n, gap)
  {
    forall x | x in Stamps(0, n, gap) ensures x > now - c.window as real {
      StampsFacts(0, n, gap, x);
    }
    ZRemKeeps(Stamps(0, n, gap), 0.0, now - c.window as real);
  }

  lemma EnterAfter(c: Config, n: nat, gap: real, workers: seq<Phase>, w: nat)
    requires 0.0 < gap && c.window >= 1 && n < c.limit && TimeAt(n, gap) <= 1.0
    requires w < |workers| && workers[w].Idle?
    ensures Reaches(c, After(n, gap, workers), Enter(w), After(n, gap, workers[w := Passed(true)]))
  {
    TimesGrow(n, n + 1, gap);
    NothingExpired(c, n, gap, TimeAt(n, gap));
    EnterFree(c, After(n, gap, workers), w);
  }

  /** The state a failure at time t leads to. */
  function AfterFailure(s: State, w: nat, t: real): State
    requires w < |s.workers|
  {
    s.(clock := t, zset := s.zset + [t], redisLog := s.redisLog + [t], workers := s.workers[w := Idle])
  }

  lemma FailAt(c: Config, s: State, w: nat, t: real)
    requires ZRemRange(s.zset, 0.0, t - c.window as real) == s.zset && ZAdd(s.zset, t) == s.zset + [t]
    requires s.up && t !in s.redisLog && s.clock <= t && w < |s.workers| && s.workers[w] == Passed(true)
    ensures Reaches(c, s, Fail(w, t), AfterFailure(s, w, t))
  {
    var s1 := s.(clock := t);
    One(c, s, Tick(t));
    AddStamp(c, s1, w);
    Onward(c, s1, w, 3, Failed, Added(s1, w));
    assert Next(c, Added(s1, w), Advance(w, Failed)) == AfterFailure(s, w, t);
    Then(c, s, [Tick(t)], s1, Advances(w, 4, Failed), AfterFailure(s, w, t));
  }

  lemma NewestStamp(n: nat, gap: real)
    requires 0.0 < gap
    ensures var t := TimeAt(n + 1, gap);
            0.0 <= TimeAt(n, gap) <= t && t !in Stamps(0, n, gap) && ZAdd(Stamps(0, n, gap), t) == Stamps(0, n + 1, gap)
  {
    var t := TimeAt(n + 1, gap);
    TimesGrow(n, n + 1, gap);
    forall x | x in Stamps(0, n, gap) ensures x < t {
      StampsFacts(0, n, gap, x);
    }
    ZAddLast(Stamps(0, n, gap), t);
    StampsGrow(0, n, gap);
  }

  lemma FailAfter(c: Config, n: nat, gap: real, workers: seq<Phase>, w: nat)
    requires 0.0 < gap && c.window >= 1 && TimeAt(n + 1, gap) <= 1.0
    requires w < |workers| && workers[w] == Passed(true)
    ensures Reaches(c, After(n, gap, workers), Fail(w, TimeAt(n + 1, gap)), After(n + 1, gap, workers[w := Idle]))
  {
    var t := TimeAt(n + 1, gap);
    NewestStamp(n, gap);
    NothingExpired(c, n, gap, t);
    StampsGrow(0, n, gap);
    FailAt(c, After(n, gap, workers), w, t);
  }

  lemma FailAlone(c: Config, n: nat, gap: real, workers: seq<Phase>)
    requires 0.0 < gap && c.window >= 1 && n < c.limit && TimeAt(n + 1, gap) <= 1.0
    requires workers != [] && workers[0].Idle?
    ensures Reaches(c, After(n, gap, workers), Enter(0) + Fail(0, TimeAt(n + 1, gap)), After(n + 1, gap, workers))
  {
    TimesFit(n, n + 1, gap);
    EnterAfter(c, n, gap, workers, 0);
    FailAfter(c, n, gap, workers[0 := Passed(true)], 0);
    assert workers[0 := Passed(true)][0 := Idle] == workers;
    Then(c, After(n, gap, workers), Enter(0), After(n, gap, workers[0 := Passed(true)]),
         Fail(0, TimeAt(n + 1, gap)), After(n + 1, gap, workers));
  }

  lemma {:induction false} AloneFills(c: Config, n: nat, gap: real, workers: seq<Phase>)
    requires 0.0 < gap && c.window >= 1 && n < c.limit && TimeAt(n, gap) <= 1.0
    requires workers != [] && workers[0].Idle?
    ensures Reaches(c, After(0, gap, workers), Alone(n, gap), After(n, gap, workers))
  {
    if n > 0 {
      TimesFit(n - 1, n, gap);
      AloneFills(c, n - 1, gap, workers);
      FailAlone(c, n - 1, gap, workers);
      Then(c, After(0, gap, workers), Alone(n - 1, gap), After(n - 1, gap, workers),
           Enter(0) + Fail(0, TimeAt(n, gap)), After(n, gap, workers));
    }
  }

  /** The first i of k workers in one phase, the others in another. */
  function Split(k: nat, i: nat, first: Phase, rest: Phase): seq<Phase> {
    seq(k, j => if j < i then first else rest)
  }

  lemma {:induction false} AllEnterPass(c: Config, n: nat, gap: real, k: nat, i: nat)
    requires 0.0 < gap && c.window >= 1 && n < c.limit && TimeAt(n, gap) <= 1.0 && i <= k
    ensures Reaches(c, After(n, gap, Split(k, 0, Passed(true), Idle)), AllEnter(i),
                    After(n, gap, Split(k, i, Passed(true), Idle)))
  {
    if i > 0 {
      var before, after := Split(k, i - 1, Passed(true), Idle), Split(k, i, Passed(true), Idle);
      AllEnterPass(c, n, gap, k, i - 1);
      EnterAfter(c, n, gap, before, i - 1);
      assert before[i - 1 := Passed(true)] == after;
      Then(c, After(n, gap, Split(k, 0, Passed(true), Idle)), AllEnter(i - 1), After(n, gap, before),
           Enter(i - 1), After(n, gap, after));
    }
  }

  lemma {:induction false} AllFailRecord(c: Config, n: nat, gap: real, k: nat, i: nat)
    requires 0.0 < gap && c.window >= 1 && TimeAt(n + i, gap) <= 1.0 && i <= k
    ensures Reaches(c, After(n, gap, Split(k, 0, Idle, Passed(true))), AllFail(n, i, gap),
                    After(n + i, gap, Split(k, i, Idle, Passed(true))))
  {
    if i > 0 {
      var before, after := Split(k, i - 1, Idle, Passed(true)), Split(k, i, Idle, Passed(true));
      TimesGrow(n + i - 1, n + i, gap);
      AllFailRecord(c, n, gap, k, i - 1);
      FailAfter(c, n + i - 1, gap, before, i - 1);
      assert before[i - 1 := Idle] == after;
      Then(c, After(n, gap, Split(k, 0, Idle, Passed(true))), AllFail(n, i - 1, gap), After(n + i - 1, gap, before),
           Fail(i - 1, TimeAt(n + i, gap)), After(n + i, gap, after));
    }
  }

  lemma BurstReaches(c: Config, k: nat, gap: real)
    requires c.limit >= 1 && c.window >= 1 && k >= 1 && 0.0 < gap && TimeAt(c.limit - 1 + k, gap) <= 1.0
    ensures Reaches(c, Initial(k), Burst(c.limit, k, gap), After(c.limit - 1 + k, gap, Split(k, k, Idle, Passed(true))))
  {
    var n := c.limit - 1;
    var idle, passed := Split(k, 0, Passed(true), Idle), Split(k, k, Passed(true), Idle);
    TimesFit(n, n + k, gap);
    assert Initial(k) == After(0, gap, idle) && passed == Split(k, 0, Idle, Passed(true));
    AloneFills(c, n, gap, idle);
    AllEnterPass(c, n, gap, k, k);
    AllFailRecord(c, n, gap, k, k);
    Then(c, Initial(k), Alone(n, gap), After(n, gap, idle), AllEnter(k), After(n, gap, passed));
    Then(c, Initial(k), Alone(n, gap) + AllEnter(k), After(n, gap, passed), AllFail(n, k, gap),
         After(n + k, gap, Split(k, k, Idle, Passed(true))));
  }

  /** Main result: for every limit, window and number of workers some interleaving of commands reaches the bound. */
  lemma RedisBurstAttained(c: Config, k: nat)
    requires c.limit >= 1 && c.window >= 1 && k >= 1
    ensures var run := Burst(c.limit, k, 1.0 / (c.limit - 1 + k) as real);
            && DistinctStamps(c, Initial(k), run) && StaysUp(run)
            && InWindow(Run(c, Initial(k), run).redisLog, c.window, 1.0) == Cap(c, k)
  {
    var n := c.limit - 1 + k;
    GapFits(n);
    BurstReaches(c, k, 1.0 / n as real);
    StampsCount(0, n, 1.0 / n as real, c.window, 1.0);
  }
}
