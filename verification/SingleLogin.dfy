/**
  One worker alone: its stamps are recorded in order and never exceed the limit, so the delay it
  advertises is always the exact one.
 */
module SingleLogin {
  import opened Wrappers
  import opened RateLimiter
  import opened AttemptWindows
  import opened LoginProtocol

  predicate Sampled(p: Phase) { p.IpSampled? || p.IdSampled? || p.FailIpSampled? || p.FailIdSampled? }

  /** The clock as the worker knows it: its last reading while it waits for the lock. */
  function Reading(s: State): real {
    if |s.workers| == 1 && Sampled(s.workers[0].phase) then s.workers[0].phase.now else s.clock
  }

  ghost predicate KeyCoupled(c: Config, s: State, key: string, now: real) {
    Coupled(At(s.buckets, key), At(s.log, key), c.window, now)
  }

  ghost predicate Orderly(c: Config, s: State) {
    && |s.workers| == 1 && Reading(s) <= s.clock
    && forall key :: KeyCoupled(c, s, key, Reading(s))
  }

  /** Waiting keeps deque and log coupled, and so do the three locked sections. */
  lemma WaitCoupled(c: Config, s: State, key: string, now: real, later: real)
    requires KeyCoupled(c, s, key, now) && now <= later
    ensures KeyCoupled(c, s, key, later)
  {
    CoupledLater(At(s.buckets, key), At(s.log, key), c.window, now, later);
  }

  lemma CheckCoupled(c: Config, s: State, target: string, key: string, now: real, later: real)
    requires KeyCoupled(c, s, key, now) && now <= later
    ensures KeyCoupled(c, CheckKey(c, s, target, now).0, key, later)
  {
    if key == target {
      StepStaysCoupled(At(s.buckets, key), At(s.log, key), c.window, now, Check(c.limit, now));
    }
    WaitCoupled(c, CheckKey(c, s, target, now).0, key, now, later);
  }

  lemma RecordCoupled(c: Config, s: State, target: string, key: string, now: real, later: real)
    requires KeyCoupled(c, s, key, now) && now <= later
    ensures KeyCoupled(c, RecordKey(c, s, target, now), key, later)
  {
    if key == target {
      StepStaysCoupled(At(s.buckets, key), At(s.log, key), c.window, now, Record(now));
    }
    WaitCoupled(c, RecordKey(c, s, target, now), key, now, later);
  }

  lemma ClearCoupled(c: Config, s: State, target: string, key: string, now: real, later: real)
    requires KeyCoupled(c, s, key, now) && now <= later
    ensures KeyCoupled(c, ClearKey(s, target), key, later)
  {
    EmptyTail(c.window, now);
    WaitCoupled(c, ClearKey(s, target), key, now, later);
  }

  /** After a step the worker either holds a fresh reading or none. */
  lemma ProceedReading(c: Config, s: State, outcome: Outcome)
    requires |s.workers| == 1 && !s.workers[0].phase.Idle?
    ensures var t := Proceed(c, s, 0, outcome);
            |t.workers| == 1 && t.clock == s.clock && Reading(t) == s.clock
  {
  }

  lemma ProceedCoupled(c: Config, s: State, outcome: Outcome, key: string)
    requires Orderly(c, s)
    ensures KeyCoupled(c, Proceed(c, s, 0, outcome), key, s.clock)
  {
    var worker, now := s.workers[0], Reading(s);
    assert KeyCoupled(c, s, key, now);
    match worker.phase
    case IpSampled(_) => CheckCoupled(c, s, worker.ip, key, now, s.clock);
    case IdSampled(_) => CheckCoupled(c, s, worker.id, key, now, s.clock);
    case FailIpSampled(_) => RecordCoupled(c, s, worker.ip, key, now, s.clock);
    case FailIdSampled(_) => RecordCoupled(c, s, worker.id, key, now, s.clock);
    case Authenticating => ClearCoupled(c, s, worker.ip, key, now, s.clock);
    case SuccessIpCleared => ClearCoupled(c, s, worker.id, key, now, s.clock);
    case _ =>
  }

  lemma NextOrderly(c: Config, s: State, step: Step)
    requires Orderly(c, s)
    ensures Orderly(c, Next(c, s, step))
  {
    var t := Next(c, s, step);
    match step
    case Advance(w, outcome) =>
      if w == 0 && !s.workers[0].phase.Idle? {
        ProceedReading(c, s, outcome);
        forall key ensures KeyCoupled(c, t, key, Reading(t)) {
          ProceedCoupled(c, s, outcome, key);
        }
      }
    case _ =>
      forall key ensures KeyCoupled(c, t, key, Reading(t)) {
        assert KeyCoupled(c, s, key, Reading(s));
        WaitCoupled(c, s, key, Reading(s), Reading(t));
      }
  }

  lemma {:induction false} RunOrderly(c: Config, s: State, steps: seq<Step>)
    requires Orderly(c, s)
    ensures Orderly(c, Run(c, s, steps))
    decreases |steps|
  {
    if steps != [] {
      NextOrderly(c, s, steps[0]);
      RunOrderly(c, Next(c, s, steps[0]), steps[1..]);
    }
  }

  /**
    Main result: whenever a single worker's check finds a key limited, in any run, the delay it
    advertises is the least whole number of seconds after which the key is free.
   */
  lemma SingleWorkerDelayExact(c: Config, steps: seq<Step>, key: string)
    requires c.limit >= 1
    ensures var s := Run(c, Initial(1), steps);
            var answer := LazyStep(At(s.buckets, key), c.window, Check(c.limit, Reading(s))).1.after;
            answer.Some? ==> LeastDelay(At(s.log, key), c.limit, c.window, Reading(s), answer.value)
  {
    forall k ensures KeyCoupled(c, Initial(1), k, 0.0) {
      EmptyTail(c.window, 0.0);
    }
    RunOrderly(c, Initial(1), steps);
    var s := Run(c, Initial(1), steps);
    assert KeyCoupled(c, s, key, Reading(s));
    SingleWorkerBound(c, steps, key, Reading(s));
    ExactWhenBounded(c, At(s.buckets, key), At(s.log, key), Reading(s));
  }
}
