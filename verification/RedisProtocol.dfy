/**
  Several workers run the login handler at once on Redis, which may go down and come back at any
  moment.  Each Redis command is atomic, but a limit check and a record are sequences of commands,
  so other workers and outages act between them.  The machine follows one key; a login that is
  limited on its other key, or crashes, just stops.
 */
module RedisProtocol {
  import opened Wrappers
  import opened RateLimiter
  import opened AttemptWindows
  import opened Claims
  import Ordering

  /**
    How far a worker has come with the key; a time is the clock reading it still works with, and
    `checked` says whether Redis itself found the key free.
   */
  datatype Phase =
    | Idle
    | CheckSampled(now: real)
    | CheckPruned(now: real)
    | CheckCounted
    | MemoryDue(checked: bool)
    | MemorySampled(now: real, checked: bool)
    | Passed(checked: bool)
    | RecordSampled(now: real, checked: bool)
    | RecordPruned(now: real, checked: bool)
    | RecordAdded
    | FallbackDue
    | FallbackSampled(now: real)
    | RedisCleared

  /**
    Both stores of the key, and the attempts each was given since it was last cleared; `recovered`
    lists those Redis was given by workers whose check it had not answered.
   */
  datatype State = State(clock: real, up: bool, zset: seq<real>, bucket: seq<real>, redisLog: seq<real>,
                         memoryLog: seq<real>, recovered: seq<real>, workers: seq<Phase>)

  datatype Step = Tick(to: real) | Switch(up: bool) | Begin(w: nat) | Advance(w: nat, outcome: Outcome)

  datatype Store = Redis | Memory

  function Initial(k: nat): State { State(0.0, true, [], [], [], [], [], seq(k, _ => Idle)) }

  function Move(s: State, w: nat, phase: Phase): State
    requires w < |s.workers|
  {
    s.(workers := s.workers[w := phase])
  }

  /** One atomic step; a step that is not enabled changes nothing. */
  function Next(c: Config, s: State, step: Step): State {
    match step
    case Tick(to) => if s.clock <= to then s.(clock := to) else s
    case Switch(up) => s.(up := up)
    case Begin(w) => if w < |s.workers| && s.workers[w].Idle? then Move(s, w, CheckSampled(s.clock)) else s
    case Advance(w, outcome) =>
      if w >= |s.workers| then s
      else if OnRedis(s.workers[w]) then (if s.up then Command(c, s, w) else Refused(s, w))
      else Proceed(c, s, w, outcome)
  }

  /** The worker's next step is a Redis command. */
  predicate OnRedis(p: Phase) {
    p.CheckSampled? || p.CheckPruned? || p.CheckCounted? || p.RecordSampled? || p.RecordPruned? || p.RecordAdded?
  }

  /** A Redis command that is answered. */
  function Command(c: Config, s: State, w: nat): State
    requires w < |s.workers|
  {
    match s.workers[w]
    // ZREMRANGEBYSCORE, ZCARD, and ZRANGE if the count is too high; an empty ZRANGE means not limited
    case CheckSampled(now) => Move(s.(zset := ZRemRange(s.zset, 0.0, now - c.window as real)), w, CheckPruned(now))
    case CheckPruned(_) => Move(s, w, if |s.zset| < c.limit then MemoryDue(true) else CheckCounted)
    case CheckCounted => Move(s, w, if s.zset == [] then MemoryDue(true) else Idle)
    // ZREMRANGEBYSCORE, ZADD, ZCARD; a count of zero sends the attempt to memory as well
    case RecordSampled(now, checked) =>
      Move(s.(zset := ZRemRange(s.zset, 0.0, now - c.window as real)), w, RecordPruned(now, checked))
    case RecordPruned(now, checked) =>
      Move(s.(zset := ZAdd(s.zset, now), redisLog := s.redisLog + [now],
              recovered := if checked then s.recovered else s.recovered + [now]), w, RecordAdded)
    case RecordAdded => Move(s, w, if s.zset != [] then Idle else FallbackDue)
    case _ => s
  }

  /** A Redis command that fails: the limiter turns to memory. */
  function Refused(s: State, w: nat): State
    requires w < |s.workers|
  {
    var p := s.workers[w];
    Move(s, w, if p.CheckSampled? || p.CheckPruned? || p.CheckCounted? then MemoryDue(false) else FallbackDue)
  }

  /** The other steps; a clear forgets Redis's entries only while Redis is up. */
  function Proceed(c: Config, s: State, w: nat, outcome: Outcome): State
    requires w < |s.workers|
  {
    match s.workers[w]
    case MemoryDue(checked) => Move(s, w, MemorySampled(s.clock, checked))
    case MemorySampled(now, checked) =>
      var (bucket, reply) := LazyStep(s.bucket, c.window, Check(c.limit, now));
      Move(s.(bucket := bucket), w, if reply.after == None then Passed(checked) else Idle)
    case Passed(checked) =>
      (match outcome
       case Failed => Move(s, w, RecordSampled(s.clock, checked))
       case Succeeded => Move(s.(zset := if s.up then [] else s.zset, redisLog := [], recovered := []), w, RedisCleared)
       case Crashed => Move(s, w, Idle))
    case FallbackDue => Move(s, w, FallbackSampled(s.clock))
    case FallbackSampled(now) =>
      Move(s.(bucket := LazyStep(s.bucket, c.window, Record(now)).0, memoryLog := s.memoryLog + [now]), w, Idle)
    case RedisCleared => Move(s.(bucket := [], memoryLog := []), w, Idle)
    case _ => s
  }

  function Run(c: Config, s: State, steps: seq<Step>): State
    decreases |steps|
  {
    if steps == [] then s else Run(c, Next(c, s, steps[0]), steps[1..])
  }

  /** Set members are the stamps' texts: a ZADD must not meet a stamp already recorded. */
  ghost predicate FreshStamp(s: State, step: Step) {
    step.Advance? && step.w < |s.workers| && s.workers[step.w].RecordPruned? && s.up
    ==> s.workers[step.w].now !in s.redisLog
  }

  ghost predicate DistinctStamps(c: Config, s: State, steps: seq<Step>)
    decreases |steps|
  {
    steps != [] ==> FreshStamp(s, steps[0]) && DistinctStamps(c, Next(c, s, steps[0]), steps[1..])
  }

  // ---------------------------------------------------------------- the invariant

  function LogOf(s: State, store: Store): seq<real> { if store.Redis? then s.redisLog else s.memoryLog }

  /** What the worker may still record in the store without a fresh check; an unchecked record claims nothing. */
  function ClaimOf(p: Phase, store: Store): Claim {
    if store.Redis? then
      match p
      case MemoryDue(checked) => if checked then Due else Nothing
      case MemorySampled(_, checked) => if checked then Due else Nothing
      case Passed(checked) => if checked then Due else Nothing
      case RecordSampled(now, checked) => if checked then Stamped(now) else Nothing
      case RecordPruned(now, checked) => if checked then Stamped(now) else Nothing
      case _ => Nothing
    else
      match p
      case FallbackSampled(now) => Stamped(now)
      case _ =>
        if p.Passed? || p.RecordSampled? || p.RecordPruned? || p.RecordAdded? || p.FallbackDue? then Due else Nothing
  }

  function LedgerOf(s: State, store: Store): Ledger {
    Ledger(LogOf(s, store), if store.Redis? then s.recovered else [],
           seq(|s.workers|, i requires 0 <= i < |s.workers| => ClaimOf(s.workers[i], store)))
  }

  ghost predicate ReadBefore(p: Phase, clock: real) {
    p.CheckSampled? || p.CheckPruned? || p.MemorySampled? || p.RecordSampled? || p.RecordPruned? || p.FallbackSampled?
    ==> p.now <= clock
  }

  /** Both stores hold all that has not expired. */
  ghost predicate Faithful(c: Config, s: State) {
    && Ordering.NoDuplicates(s.redisLog)
    && Holds(s.zset, s.redisLog, s.clock - c.window as real)
    && IsTail(s.bucket, s.memoryLog, c.window, s.clock)
  }

  ghost predicate Inv(c: Config, s: State) {
    && (forall i :: 0 <= i < |s.workers| ==> ReadBefore(s.workers[i], s.clock))
    && Faithful(c, s)
    && (forall store, to :: Bounded(c, LedgerOf(s, store), to, s.clock))
  }

  lemma InitialInv(c: Config, k: nat)
    ensures Inv(c, Initial(k))
  {
    EmptyTail(c.window, 0.0);
    forall store, to ensures Bounded(c, LedgerOf(Initial(k), store), to, 0.0) {
      EmptyBounded(c, LedgerOf(Initial(k), store), to, 0.0);
    }
  }

  // ---------------------------------------------------------------- every step keeps it

  /** A step of a worker moves that worker alone. */
  ghost predicate MovesOnly(s: State, t: State, w: nat)
    requires w < |s.workers|
  {
    && |t.workers| == |s.workers| && t.clock == s.clock && t.workers == s.workers[w := t.workers[w]]
    && ReadBefore(t.workers[w], s.clock)
  }

  lemma CommandShape(c: Config, s: State, w: nat)
    requires w < |s.workers| && ReadBefore(s.workers[w], s.clock)
    ensures MovesOnly(s, Command(c, s, w), w)
  {
  }

  lemma ProceedShape(c: Config, s: State, w: nat, outcome: Outcome)
    requires w < |s.workers| && ReadBefore(s.workers[w], s.clock)
    ensures MovesOnly(s, Proceed(c, s, w, outcome), w)
  {
  }

  lemma AdvanceShape(c: Config, s: State, w: nat, outcome: Outcome)
    requires w < |s.workers| && ReadBefore(s.workers[w], s.clock)
    ensures MovesOnly(s, Next(c, s, Advance(w, outcome)), w)
  {
    if !OnRedis(s.workers[w]) {
      ProceedShape(c, s, w, outcome);
    } else if s.up {
      CommandShape(c, s, w);
    }
  }

  lemma LedgerMoved(s: State, t: State, w: nat, store: Store)
    requires w < |s.workers| == |t.workers| && t.workers == s.workers[w := t.workers[w]]
    ensures LedgerOf(t, store).claims == LedgerOf(s, store).claims[w := ClaimOf(t.workers[w], store)]
  {
  }

  lemma PruneHolds(zset: seq<real>, log: seq<real>, window: int, clock: real, now: real)
    requires Holds(zset, log, clock - window as real) && now <= clock
    ensures Holds(ZRemRange(zset, 0.0, now - window as real), log, clock - window as real)
  {
  }

  lemma AddHolds(zset: seq<real>, log: seq<real>, cutoff: real, stamp: real)
    requires Holds(zset, log, cutoff) && Ordering.NoDuplicates(log) && stamp !in log
    ensures Holds(ZAdd(zset, stamp), log + [stamp], cutoff) && Ordering.NoDuplicates(log + [stamp])
  {
  }

  lemma CommandFaithful(c: Config, s: State, w: nat)
    requires w < |s.workers| && ReadBefore(s.workers[w], s.clock) && Faithful(c, s) && s.up
    requires FreshStamp(s, Advance(w, Failed))
    ensures Faithful(c, Command(c, s, w))
  {
    match s.workers[w]
    case CheckSampled(now) => PruneHolds(s.zset, s.redisLog, c.window, s.clock, now);
    case RecordSampled(now, _) => PruneHolds(s.zset, s.redisLog, c.window, s.clock, now);
    case RecordPruned(now, _) => AddHolds(s.zset, s.redisLog, s.clock - c.window as real, now);
    case _ =>
  }

  /** The two memory calls prune the bucket, and a record appends to it. */
  lemma BucketFaithful(bucket: seq<real>, log: seq<real>, window: int, clock: real, now: real)
    requires IsTail(bucket, log, window, clock) && now <= clock
    ensures IsTail(Pruned(bucket, now - window as real), log, window, clock)
    ensures IsTail(Pruned(bucket, now - window as real) + [now], log + [now], window, clock)
  {
    PruneKeepsTail(bucket, log, window, clock, now, clock);
    AppendKeepsTail(Pruned(bucket, now - window as real), log, window, clock, now);
  }

  lemma MemoryFaithful(c: Config, s: State, w: nat, outcome: Outcome)
    requires w < |s.workers| && ReadBefore(s.workers[w], s.clock) && Faithful(c, s)
    requires s.workers[w].MemorySampled? || s.workers[w].FallbackSampled?
    ensures Faithful(c, Proceed(c, s, w, outcome))
  {
    BucketFaithful(s.bucket, s.memoryLog, c.window, s.clock, s.workers[w].now);
  }

  lemma QuietFaithful(c: Config, s: State, w: nat, outcome: Outcome)
    requires w < |s.workers| && Faithful(c, s)
    requires !s.workers[w].MemorySampled? && !s.workers[w].FallbackSampled?
    ensures Faithful(c, Proceed(c, s, w, outcome))
  {
    EmptyTail(c.window, s.clock);
  }

  lemma ProceedFaithful(c: Config, s: State, w: nat, outcome: Outcome)
    requires w < |s.workers| && ReadBefore(s.workers[w], s.clock) && Faithful(c, s)
    ensures Faithful(c, Proceed(c, s, w, outcome))
  {
    if s.workers[w].MemorySampled? || s.workers[w].FallbackSampled? {
      MemoryFaithful(c, s, w, outcome);
    } else {
      QuietFaithful(c, s, w, outcome);
    }
  }

  lemma AdvanceFaithful(c: Config, s: State, w: nat, outcome: Outcome)
    requires w < |s.workers| && ReadBefore(s.workers[w], s.clock) && Faithful(c, s)
    requires FreshStamp(s, Advance(w, outcome))
    ensures Faithful(c, Next(c, s, Advance(w, outcome)))
  {
    if !OnRedis(s.workers[w]) {
      ProceedFaithful(c, s, w, outcome);
    } else if s.up {
      CommandFaithful(c, s, w);
    }
  }

  /** What the two stores hold bounds every window that is still open. */
  lemma RedisRoom(c: Config, s: State)
    requires Faithful(c, s) && (|s.zset| < c.limit || s.zset == [])
    ensures Room(c, s.redisLog, s.clock)
  {
    forall to | s.clock <= to ensures InWindow(s.redisLog, c.window, to) <= Cap(c, 0) {
      HeldCount(c, s.zset, s.redisLog, s.clock, to);
    }
  }

  lemma MemoryRoom(c: Config, s: State, now: real)
    requires Faithful(c, s) && now <= s.clock
    requires LazyStep(s.bucket, c.window, Check(c.limit, now)).1.after == None
    ensures Room(c, s.memoryLog, s.clock)
  {
    var kept := Pruned(s.bucket, now - c.window as real);
    PruneKeepsTail(s.bucket, s.memoryLog, c.window, s.clock, now, s.clock);
    forall to | s.clock <= to ensures InWindow(s.memoryLog, c.window, to) <= Cap(c, 0) {
      TailCounts(c, kept, s.memoryLog, s.clock, to);
    }
  }

  /** The stamp a worker would write next. */
  function StampOf(p: Phase): real { if p.RecordPruned? then p.now else 0.0 }

  /** The count, or an empty range, commits a worker to Redis; an unchecked record goes into the excess. */
  lemma CommandAllowed(c: Config, s: State, w: nat, store: Store)
    requires w < |s.workers| && Faithful(c, s) && OnRedis(s.workers[w])
    ensures |Command(c, s, w).workers| == |s.workers|
    ensures Allowed(c, LedgerOf(s, store), LedgerOf(Command(c, s, w), store), w, StampOf(s.workers[w]), s.clock)
  {
    LedgerMoved(s, Command(c, s, w), w, store);
    if |s.zset| < c.limit || s.zset == [] {
      RedisRoom(c, s);
    }
  }

  lemma RefusedAllowed(c: Config, s: State, w: nat, store: Store)
    requires w < |s.workers| && OnRedis(s.workers[w])
    ensures Allowed(c, LedgerOf(s, store), LedgerOf(Refused(s, w), store), w, 0.0, s.clock)
  {
    LedgerMoved(s, Refused(s, w), w, store);
  }

  /** A passed memory check commits a worker to memory. */
  lemma MemoryCheckAllowed(c: Config, s: State, w: nat, outcome: Outcome, store: Store)
    requires w < |s.workers| && ReadBefore(s.workers[w], s.clock) && Faithful(c, s) && s.workers[w].MemorySampled?
    ensures Allowed(c, LedgerOf(s, store), LedgerOf(Proceed(c, s, w, outcome), store), w, 0.0, s.clock)
  {
    LedgerMoved(s, Proceed(c, s, w, outcome), w, store);
    var now := s.workers[w].now;
    if LazyStep(s.bucket, c.window, Check(c.limit, now)).1.after == None {
      MemoryRoom(c, s, now);
    }
  }

  lemma OtherAllowed(c: Config, s: State, w: nat, outcome: Outcome, store: Store)
    requires w < |s.workers| && !OnRedis(s.workers[w]) && !s.workers[w].MemorySampled? && !s.workers[w].Idle?
    ensures Allowed(c, LedgerOf(s, store), LedgerOf(Proceed(c, s, w, outcome), store), w, 0.0, s.clock)
  {
    LedgerMoved(s, Proceed(c, s, w, outcome), w, store);
  }

  lemma AdvanceBounded(c: Config, s: State, w: nat, outcome: Outcome, store: Store, to: real)
    requires w < |s.workers| && ReadBefore(s.workers[w], s.clock) && Faithful(c, s)
    requires Bounded(c, LedgerOf(s, store), to, s.clock)
    ensures Bounded(c, LedgerOf(Next(c, s, Advance(w, outcome)), store), to, s.clock)
  {
    var p, a, b := s.workers[w], LedgerOf(s, store), LedgerOf(Next(c, s, Advance(w, outcome)), store);
    if OnRedis(p) {
      if s.up {
        CommandAllowed(c, s, w, store);
        AllowedBounded(c, a, b, w, StampOf(p), to, s.clock);
      } else {
        RefusedAllowed(c, s, w, store);
        AllowedBounded(c, a, b, w, 0.0, to, s.clock);
      }
    } else if p.MemorySampled? {
      MemoryCheckAllowed(c, s, w, outcome, store);
      AllowedBounded(c, a, b, w, 0.0, to, s.clock);
    } else if !p.Idle? {
      OtherAllowed(c, s, w, outcome, store);
      AllowedBounded(c, a, b, w, 0.0, to, s.clock);
    }
  }

  lemma BeginBounded(c: Config, s: State, w: nat, store: Store, to: real)
    requires w < |s.workers| && s.workers[w].Idle? && Bounded(c, LedgerOf(s, store), to, s.clock)
    ensures Bounded(c, LedgerOf(Move(s, w, CheckSampled(s.clock)), store), to, s.clock)
  {
    var t := Move(s, w, CheckSampled(s.clock));
    LedgerMoved(s, t, w, store);
    AllowedBounded(c, LedgerOf(s, store), LedgerOf(t, store), w, 0.0, to, s.clock);
  }

  lemma NextBounded(c: Config, s: State, step: Step, store: Store, to: real)
    requires (forall i :: 0 <= i < |s.workers| ==> ReadBefore(s.workers[i], s.clock)) && Faithful(c, s)
    requires Bounded(c, LedgerOf(s, store), to, s.clock)
    ensures Bounded(c, LedgerOf(Next(c, s, step), store), to, Next(c, s, step).clock)
  {
    match step
    case Tick(later) =>
      if s.clock <= later {
        assert LedgerOf(s.(clock := later), store) == LedgerOf(s, store);
        TickBounded(c, LedgerOf(s, store), to, s.clock, later);
      }
    case Switch(up) => assert LedgerOf(s.(up := up), store) == LedgerOf(s, store);
    case Begin(w) =>
      if w < |s.workers| && s.workers[w].Idle? {
        BeginBounded(c, s, w, store, to);
      }
    case Advance(w, outcome) =>
      if w < |s.workers| {
        AdvanceShape(c, s, w, outcome);
        AdvanceBounded(c, s, w, outcome, store, to);
      }
  }

  lemma NextFaithful(c: Config, s: State, step: Step)
    requires (forall i :: 0 <= i < |s.workers| ==> ReadBefore(s.workers[i], s.clock)) && Faithful(c, s)
    requires FreshStamp(s, step)
    ensures Faithful(c, Next(c, s, step))
  {
    match step
    case Tick(later) =>
      if s.clock <= later {
        TailLater(s.bucket, s.memoryLog, c.window, s.clock, later);
      }
    case Advance(w, outcome) =>
      if w < |s.workers| {
        AdvanceFaithful(c, s, w, outcome);
      }
    case _ =>
  }

  lemma NextReadBefore(c: Config, s: State, step: Step)
    requires forall i :: 0 <= i < |s.workers| ==> ReadBefore(s.workers[i], s.clock)
    ensures var t := Next(c, s, step);
            |t.workers| == |s.workers| && forall i :: 0 <= i < |t.workers| ==> ReadBefore(t.workers[i], t.clock)
  {
    if step.Advance? && step.w < |s.workers| {
      AdvanceShape(c, s, step.w, step.outcome);
    }
  }

  lemma NextInv(c: Config, s: State, step: Step)
    requires Inv(c, s) && FreshStamp(s, step)
    ensures Inv(c, Next(c, s, step)) && |Next(c, s, step).workers| == |s.workers|
  {
    var t := Next(c, s, step);
    NextReadBefore(c, s, step);
    NextFaithful(c, s, step);
    forall store, to ensures Bounded(c, LedgerOf(t, store), to, t.clock) {
      assert Bounded(c, LedgerOf(s, store), to, s.clock);
      NextBounded(c, s, step, store, to);
    }
  }

  lemma {:induction false} RunInv(c: Config, s: State, steps: seq<Step>)
    requires Inv(c, s) && DistinctStamps(c, s, steps)
    ensures Inv(c, Run(c, s, steps)) && |Run(c, s, steps).workers| == |s.workers|
    decreases |steps|
  {
    if steps != [] {
      NextInv(c, s, steps[0]);
      RunInv(c, Next(c, s, steps[0]), steps[1..]);
    }
  }

  /**
    Main result: whatever the interleaving of the commands of k logins, and whatever the outages, no
    window holds more than limit - 1 + k attempts in memory, nor more than that in Redis apart from
    those recorded there without a check of it.
   */
  lemma BurstUnderOutages(c: Config, k: nat, steps: seq<Step>, to: real)
    requires DistinctStamps(c, Initial(k), steps)
    ensures var s := Run(c, Initial(k), steps);
            && InWindow(s.memoryLog, c.window, to) <= Cap(c, k)
            && InWindow(s.redisLog, c.window, to) <= Cap(c, k) + InWindow(s.recovered, c.window, to)
  {
    InitialInv(c, k);
    RunInv(c, Initial(k), steps);
    var s := Run(c, Initial(k), steps);
    assert Bounded(c, LedgerOf(s, Redis), to, s.clock) && Bounded(c, LedgerOf(s, Memory), to, s.clock);
  }

  // ---------------------------------------------------------------- while Redis stays up

  ghost predicate StaysUp(steps: seq<Step>) {
    forall step :: step in steps ==> !step.Switch?
  }

  predicate Unchecked(p: Phase) {
    (p.MemoryDue? || p.MemorySampled? || p.Passed? || p.RecordSampled? || p.RecordPruned?) && !p.checked
  }

  ghost predicate AllChecked(s: State) {
    s.up && s.recovered == [] && forall i :: 0 <= i < |s.workers| ==> !Unchecked(s.workers[i])
  }

  lemma CommandChecked(c: Config, s: State, w: nat)
    requires AllChecked(s) && w < |s.workers|
    ensures AllChecked(Command(c, s, w))
  {
  }

  lemma ProceedChecked(c: Config, s: State, w: nat, outcome: Outcome)
    requires AllChecked(s) && w < |s.workers|
    ensures AllChecked(Proceed(c, s, w, outcome))
  {
  }

  lemma NextChecked(c: Config, s: State, step: Step)
    requires AllChecked(s) && !step.Switch?
    ensures AllChecked(Next(c, s, step))
  {
    if step.Advance? && step.w < |s.workers| {
      CommandChecked(c, s, step.w);
      ProceedChecked(c, s, step.w, step.outcome);
    }
  }

  lemma {:induction false} RunChecked(c: Config, s: State, steps: seq<Step>)
    requires AllChecked(s) && StaysUp(steps)
    ensures AllChecked(Run(c, s, steps))
    decreases |steps|
  {
    if steps != [] {
      assert steps[0] in steps && forall step :: step in steps[1..] ==> step in steps;
      NextChecked(c, s, steps[0]);
      RunChecked(c, Next(c, s, steps[0]), steps[1..]);
    }
  }

  /** With Redis up, neither store holds more than limit - 1 + k attempts of a window. */
  lemma RedisBurstBound(c: Config, k: nat, steps: seq<Step>, store: Store, to: real)
    requires DistinctStamps(c, Initial(k), steps) && StaysUp(steps)
    ensures InWindow(LogOf(Run(c, Initial(k), steps), store), c.window, to) <= Cap(c, k)
  {
    BurstUnderOutages(c, k, steps, to);
    RunChecked(c, Initial(k), steps);
  }
}
