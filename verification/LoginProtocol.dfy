/**
  Several workers run the login handler at once against the in-memory limiter.  Each limiter
  call reads the clock first and takes the lock later, so the two are separate steps, and the
  limit check and the recording of a failed attempt are separate locked sections.
 */
module LoginProtocol {
  import opened Wrappers
  import opened RateLimiter
  import opened AttemptWindows
  import opened Claims

  /** Where a worker stands inside one login; the times are the clock readings taken before the lock. */
  datatype Phase =
    | Idle
    | IpSampled(now: real)
    | IpPassed
    | IdSampled(now: real)
    | Authenticating
    | FailIpSampled(now: real)
    | FailIpRecorded
    | FailIdSampled(now: real)
    | SuccessIpCleared

  datatype Worker = Worker(ip: string, id: string, phase: Phase)

  /** `buckets` is the limiter's memory; `log` holds every attempt recorded for a key since its last clear. */
  datatype State = State(clock: real, buckets: map<string, seq<real>>, log: map<string, seq<real>>,
                         workers: seq<Worker>)

  datatype Step =
    | Tick(to: real)
    | Begin(w: nat, ipDigest: string, idDigest: string)
    | Advance(w: nat, outcome: Outcome)

  function IpKey(digest: string): string { "auth-login-ip:" + digest }

  function IdKey(digest: string): string { "auth-login-identifier:" + digest }

  function Initial(k: nat): State {
    State(0.0, map[], map[], seq(k, _ => Worker("", "", Idle)))
  }

  /** The locked section of a limit check. */
  function CheckKey(c: Config, s: State, key: string, now: real): (State, bool) {
    var (kept, reply) := LazyStep(At(s.buckets, key), c.window, Check(c.limit, now));
    (s.(buckets := s.buckets[key := kept]), reply.after == None)
  }

  /** The locked section that records an attempt. */
  function RecordKey(c: Config, s: State, key: string, now: real): State {
    s.(buckets := s.buckets[key := LazyStep(At(s.buckets, key), c.window, Record(now)).0],
       log := s.log[key := At(s.log, key) + [now]])
  }

  function ClearKey(s: State, key: string): State {
    s.(buckets := s.buckets[key := []], log := s.log[key := []])
  }

  function Move(s: State, w: nat, phase: Phase): State
    requires w < |s.workers|
  {
    s.(workers := s.workers[w := s.workers[w].(phase := phase)])
  }

  /** One atomic step; a step that is not enabled changes nothing. */
  function Next(c: Config, s: State, step: Step): State {
    match step
    case Tick(to) => if s.clock <= to then s.(clock := to) else s
    case Begin(w, ipDigest, idDigest) =>
      if w < |s.workers| && s.workers[w].phase.Idle? then
        s.(workers := s.workers[w := Worker(IpKey(ipDigest), IdKey(idDigest), IpSampled(s.clock))])
      else s
    case Advance(w, outcome) => if w < |s.workers| then Proceed(c, s, w, outcome) else s
  }

  function Proceed(c: Config, s: State, w: nat, outcome: Outcome): State
    requires w < |s.workers|
  {
    var worker := s.workers[w];
    match worker.phase
    case Idle => s
    case IpSampled(now) =>
      var (t, free) := CheckKey(c, s, worker.ip, now);
      Move(t, w, if free then IpPassed else Idle)
    case IpPassed => Move(s, w, IdSampled(s.clock))
    case IdSampled(now) =>
      var (t, free) := CheckKey(c, s, worker.id, now);
      Move(t, w, if free then Authenticating else Idle)
    case Authenticating =>
      (match outcome
       case Failed => Move(s, w, FailIpSampled(s.clock))
       case Succeeded => Move(ClearKey(s, worker.ip), w, SuccessIpCleared)
       case Crashed => Move(s, w, Idle))
    case FailIpSampled(now) => Move(RecordKey(c, s, worker.ip, now), w, FailIpRecorded)
    case FailIpRecorded => Move(s, w, FailIdSampled(s.clock))
    case FailIdSampled(now) => Move(RecordKey(c, s, worker.id, now), w, Idle)
    case SuccessIpCleared => Move(ClearKey(s, worker.id), w, Idle)
  }

  function Run(c: Config, s: State, steps: seq<Step>): State
    decreases |steps|
  {
    if steps == [] then s else Run(c, Next(c, s, steps[0]), steps[1..])
  }

  // ---------------------------------------------------------------- the invariant

  /** What the worker may still record on the key without a fresh check. */
  function ClaimOf(w: Worker, key: string): Claim {
    if key == w.ip then
      match w.phase
      case FailIpSampled(now) => Stamped(now)
      case _ => if w.phase.IpPassed? || w.phase.IdSampled? || w.phase.Authenticating? then Due else Nothing
    else if key == w.id then
      match w.phase
      case FailIdSampled(now) => Stamped(now)
      case _ => if w.phase.Authenticating? || w.phase.FailIpSampled? || w.phase.FailIpRecorded? then Due else Nothing
    else Nothing
  }

  /** The key as its workers see it; in memory nothing is recorded without a check. */
  function LedgerOf(s: State, key: string): Ledger {
    Ledger(At(s.log, key), [], seq(|s.workers|, i requires 0 <= i < |s.workers| => ClaimOf(s.workers[i], key)))
  }

  /** The bucket is the log without entries that have expired by now. */
  ghost predicate Faithful(c: Config, s: State, key: string) {
    IsTail(At(s.buckets, key), At(s.log, key), c.window, s.clock)
  }

  ghost predicate Sane(s: State, w: Worker) {
    && (w.phase.Idle? || w.ip != w.id)
    && ((w.phase.IpSampled? || w.phase.IdSampled? || w.phase.FailIpSampled? || w.phase.FailIdSampled?)
        ==> w.phase.now <= s.clock)
  }

  /** Recorded attempts plus those already committed to never exceed the cap, in any window. */
  ghost predicate Inv(c: Config, s: State) {
    && (forall w :: w in s.workers ==> Sane(s, w))
    && (forall key :: Faithful(c, s, key))
    && (forall key, to :: Bounded(c, LedgerOf(s, key), to, s.clock))
  }

  lemma InitialInv(c: Config, k: nat)
    ensures Inv(c, Initial(k))
  {
    var s := Initial(k);
    forall key ensures Faithful(c, s, key) {
      EmptyTail(c.window, s.clock);
    }
    forall key, to ensures Bounded(c, LedgerOf(s, key), to, s.clock) {
      EmptyBounded(c, LedgerOf(s, key), to, s.clock);
    }
  }

  /** A passed check leaves room: every window that is still open holds fewer than `limit` attempts. */
  lemma PassedCheck(c: Config, s: State, key: string, now: real, to: real)
    requires Faithful(c, s, key) && now <= s.clock <= to
    requires CheckKey(c, s, key, now).1
    ensures InWindow(At(s.log, key), c.window, to) <= Cap(c, 0)
  {
    var kept := Pruned(At(s.buckets, key), now - c.window as real);
    PruneKeepsTail(At(s.buckets, key), At(s.log, key), c.window, s.clock, now, s.clock);
    TailCounts(c, kept, At(s.log, key), s.clock, to);
  }

  // ---------------------------------------------------------------- every step keeps it

  lemma CheckFaithful(c: Config, s: State, target: string, now: real, key: string)
    requires Faithful(c, s, key) && now <= s.clock
    ensures Faithful(c, CheckKey(c, s, target, now).0, key)
  {
    if key == target {
      PruneKeepsTail(At(s.buckets, key), At(s.log, key), c.window, s.clock, now, s.clock);
    }
  }

  lemma RecordFaithful(c: Config, s: State, target: string, now: real, key: string)
    requires Faithful(c, s, key) && now <= s.clock
    ensures Faithful(c, RecordKey(c, s, target, now), key)
  {
    if key == target {
      var kept := Pruned(At(s.buckets, key), now - c.window as real);
      PruneKeepsTail(At(s.buckets, key), At(s.log, key), c.window, s.clock, now, s.clock);
      AppendKeepsTail(kept, At(s.log, key), c.window, s.clock, now);
    }
  }

  lemma AdvanceFaithful(c: Config, s: State, w: nat, outcome: Outcome, key: string)
    requires w < |s.workers| && Sane(s, s.workers[w]) && Faithful(c, s, key)
    ensures Faithful(c, Proceed(c, s, w, outcome), key)
  {
    var worker := s.workers[w];
    match worker.phase
    case IpSampled(now) => CheckFaithful(c, s, worker.ip, now, key);
    case IdSampled(now) => CheckFaithful(c, s, worker.id, now, key);
    case FailIpSampled(now) => RecordFaithful(c, s, worker.ip, now, key);
    case FailIdSampled(now) => RecordFaithful(c, s, worker.id, now, key);
    case _ => EmptyTail(c.window, s.clock);
  }

  lemma LedgerMoved(s: State, t: State, w: nat, key: string)
    requires w < |s.workers| == |t.workers| && t.workers == s.workers[w := t.workers[w]]
    ensures LedgerOf(t, key).claims == LedgerOf(s, key).claims[w := ClaimOf(t.workers[w], key)]
  {
  }

  /** A check commits the worker to the key it was made on, if it passes. */
  lemma CheckAllowed(c: Config, s: State, w: nat, outcome: Outcome, key: string)
    requires w < |s.workers| && Sane(s, s.workers[w]) && Faithful(c, s, key)
    requires s.workers[w].phase.IpSampled? || s.workers[w].phase.IdSampled?
    ensures Allowed(c, LedgerOf(s, key), LedgerOf(Proceed(c, s, w, outcome), key), w, 0.0, s.clock)
  {
    var worker, t := s.workers[w], Proceed(c, s, w, outcome);
    var target := if worker.phase.IpSampled? then worker.ip else worker.id;
    LedgerMoved(s, t, w, key);
    if key == target && CheckKey(c, s, key, worker.phase.now).1 {
      forall to | s.clock <= to ensures InWindow(At(s.log, key), c.window, to) <= Cap(c, 0) {
        PassedCheck(c, s, key, worker.phase.now, to);
      }
    }
  }

  /** What recording a failed attempt changes. */
  lemma RecordShape(c: Config, s: State, w: nat, outcome: Outcome, key: string)
    requires w < |s.workers| && (s.workers[w].phase.FailIpSampled? || s.workers[w].phase.FailIdSampled?)
    ensures var t, worker := Proceed(c, s, w, outcome), s.workers[w];
            var onIp := worker.phase.FailIpSampled?;
            && |t.workers| == |s.workers|
            && t.workers == s.workers[w := worker.(phase := if onIp then FailIpRecorded else Idle)]
            && At(t.log, key) == At(s.log, key)
                                 + if key == (if onIp then worker.ip else worker.id) then [worker.phase.now] else []
  {
  }

  lemma RecordAllowed(c: Config, s: State, w: nat, outcome: Outcome, key: string)
    requires w < |s.workers| && s.workers[w].ip != s.workers[w].id
    requires s.workers[w].phase.FailIpSampled? || s.workers[w].phase.FailIdSampled?
    ensures Allowed(c, LedgerOf(s, key), LedgerOf(Proceed(c, s, w, outcome), key), w, 0.0, s.clock)
  {
    RecordShape(c, s, w, outcome, key);
    LedgerMoved(s, Proceed(c, s, w, outcome), w, key);
  }

  /** Steps that neither check nor record keep the worker's claims or drop them, or clear the key. */
  lemma OtherAllowed(c: Config, s: State, w: nat, outcome: Outcome, key: string)
    requires w < |s.workers| && s.workers[w].ip != s.workers[w].id
    requires var phase := s.workers[w].phase;
             phase.IpPassed? || phase.Authenticating? || phase.FailIpRecorded? || phase.SuccessIpCleared?
    ensures Allowed(c, LedgerOf(s, key), LedgerOf(Proceed(c, s, w, outcome), key), w, 0.0, s.clock)
  {
    AdvanceShape(c, s, w, outcome);
    LedgerMoved(s, Proceed(c, s, w, outcome), w, key);
  }

  lemma AdvanceAllowed(c: Config, s: State, w: nat, outcome: Outcome, key: string)
    requires w < |s.workers| && Sane(s, s.workers[w]) && Faithful(c, s, key) && !s.workers[w].phase.Idle?
    ensures Allowed(c, LedgerOf(s, key), LedgerOf(Proceed(c, s, w, outcome), key), w, 0.0, s.clock)
  {
    match s.workers[w].phase
    case IpSampled(_) => CheckAllowed(c, s, w, outcome, key);
    case IdSampled(_) => CheckAllowed(c, s, w, outcome, key);
    case FailIpSampled(_) => RecordAllowed(c, s, w, outcome, key);
    case FailIdSampled(_) => RecordAllowed(c, s, w, outcome, key);
    case _ => OtherAllowed(c, s, w, outcome, key);
  }

  lemma AdvanceBounded(c: Config, s: State, w: nat, outcome: Outcome, key: string, to: real)
    requires w < |s.workers| && Sane(s, s.workers[w]) && Faithful(c, s, key)
    requires Bounded(c, LedgerOf(s, key), to, s.clock)
    ensures Bounded(c, LedgerOf(Proceed(c, s, w, outcome), key), to, s.clock)
  {
    if !s.workers[w].phase.Idle? {
      AdvanceAllowed(c, s, w, outcome, key);
      AllowedBounded(c, LedgerOf(s, key), LedgerOf(Proceed(c, s, w, outcome), key), w, 0.0, to, s.clock);
    }
  }

  /** Starting a login claims nothing. */
  lemma BeginBounded(c: Config, s: State, w: nat, worker: Worker, key: string, to: real)
    requires w < |s.workers| && s.workers[w].phase.Idle? && worker.phase.IpSampled?
    requires Bounded(c, LedgerOf(s, key), to, s.clock)
    ensures Bounded(c, LedgerOf(s.(workers := s.workers[w := worker]), key), to, s.clock)
  {
    var t := s.(workers := s.workers[w := worker]);
    LedgerMoved(s, t, w, key);
    AllowedBounded(c, LedgerOf(s, key), LedgerOf(t, key), w, 0.0, to, s.clock);
  }

  lemma NextInv(c: Config, s: State, step: Step)
    requires Inv(c, s)
    ensures Inv(c, Next(c, s, step)) && |Next(c, s, step).workers| == |s.workers|
  {
    var t := Next(c, s, step);
    forall key ensures Faithful(c, t, key) {
      assert Faithful(c, s, key);
      NextFaithful(c, s, step, key);
    }
    forall key, to ensures Bounded(c, LedgerOf(t, key), to, t.clock) {
      assert Faithful(c, s, key) && Bounded(c, LedgerOf(s, key), to, s.clock);
      NextBounded(c, s, step, key, to);
    }
    forall w | w in t.workers ensures Sane(t, w) {
      NextSane(c, s, step, w);
    }
  }

  lemma NextFaithful(c: Config, s: State, step: Step, key: string)
    requires (forall w :: w in s.workers ==> Sane(s, w)) && Faithful(c, s, key)
    ensures Faithful(c, Next(c, s, step), key)
  {
    match step
    case Tick(to) =>
      if s.clock <= to {
        var n :| ExpiredPrefix(At(s.buckets, key), At(s.log, key), n, c.window, s.clock);
        assert ExpiredPrefix(At(s.buckets, key), At(s.log, key), n, c.window, to);
      }
    case Begin(_, _, _) =>
    case Advance(w, outcome) =>
      if w < |s.workers| {
        AdvanceFaithful(c, s, w, outcome, key);
      }
  }

  lemma NextBounded(c: Config, s: State, step: Step, key: string, to: real)
    requires (forall w :: w in s.workers ==> Sane(s, w)) && Faithful(c, s, key)
    requires Bounded(c, LedgerOf(s, key), to, s.clock)
    ensures Bounded(c, LedgerOf(Next(c, s, step), key), to, Next(c, s, step).clock)
  {
    match step
    case Tick(later) =>
      if s.clock <= later {
        assert LedgerOf(s.(clock := later), key) == LedgerOf(s, key);
        TickBounded(c, LedgerOf(s, key), to, s.clock, later);
      }
    case Begin(w, ipDigest, idDigest) =>
      if w < |s.workers| && s.workers[w].phase.Idle? {
        BeginBounded(c, s, w, Worker(IpKey(ipDigest), IdKey(idDigest), IpSampled(s.clock)), key, to);
      }
    case Advance(w, outcome) =>
      if w < |s.workers| {
        AdvanceShape(c, s, w, outcome);
        AdvanceBounded(c, s, w, outcome, key, to);
      }
  }

  lemma KeysDiffer(ipDigest: string, idDigest: string)
    ensures IpKey(ipDigest) != IdKey(idDigest)
  {
    assert IpKey(ipDigest)[12] == 'p' && IdKey(idDigest)[12] == 'd';
  }

  lemma AdvanceShape(c: Config, s: State, i: nat, outcome: Outcome)
    requires i < |s.workers|
    ensures var t := Proceed(c, s, i, outcome);
            |t.workers| == |s.workers| && t.clock == s.clock && t.workers == s.workers[i := t.workers[i]]
  {
  }

  lemma AdvanceSane(c: Config, s: State, i: nat, outcome: Outcome)
    requires i < |s.workers| && Sane(s, s.workers[i])
    ensures var t := Proceed(c, s, i, outcome);
            i < |t.workers| && Sane(t, t.workers[i])
  {
    AdvanceShape(c, s, i, outcome);
    var before, after := s.workers[i], Proceed(c, s, i, outcome).workers[i];
    assert after.ip == before.ip && after.id == before.id;
    assert before.phase.Idle? ==> after == before;
  }

  lemma NextSane(c: Config, s: State, step: Step, w: Worker)
    requires forall v :: v in s.workers ==> Sane(s, v)
    requires w in Next(c, s, step).workers
    ensures Sane(Next(c, s, step), w)
  {
    var t := Next(c, s, step);
    var i :| 0 <= i < |t.workers| && t.workers[i] == w;
    match step
    case Begin(j, ipDigest, idDigest) =>
      KeysDiffer(ipDigest, idDigest);
      assert i != j ==> t.workers[i] in s.workers;
    case Tick(_) =>
    case Advance(j, outcome) =>
      if j < |s.workers| {
        assert Sane(s, s.workers[j]);
        AdvanceShape(c, s, j, outcome);
        AdvanceSane(c, s, j, outcome);
        assert i != j ==> t.workers[i] in s.workers;
      }
  }

  lemma {:induction false} RunInv(c: Config, s: State, steps: seq<Step>)
    requires Inv(c, s)
    ensures Inv(c, Run(c, s, steps)) && |Run(c, s, steps).workers| == |s.workers|
    decreases |steps|
  {
    if steps != [] {
      NextInv(c, s, steps[0]);
      RunInv(c, Next(c, s, steps[0]), steps[1..]);
    }
  }

  /**
    Main result: whatever the interleaving of k workers, no window of the configured width holds
    more than limit - 1 + k attempts recorded on a key since its last clear.
   */
  lemma BurstBound(c: Config, k: nat, steps: seq<Step>, key: string, to: real)
    ensures InWindow(At(Run(c, Initial(k), steps).log, key), c.window, to) <= Cap(c, k)
  {
    InitialInv(c, k);
    RunInv(c, Initial(k), steps);
    var s := Run(c, Initial(k), steps);
    assert Bounded(c, LedgerOf(s, key), to, s.clock);
  }

  /** One worker alone is held to exactly the configured limit (LoginBursts.BurstAttained reaches it). */
  lemma SingleWorkerBound(c: Config, steps: seq<Step>, key: string, to: real)
    requires c.limit >= 1
    ensures InWindow(At(Run(c, Initial(1), steps).log, key), c.window, to) <= c.limit
  {
    BurstBound(c, 1, steps, key, to);
  }
}
