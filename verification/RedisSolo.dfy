/**
  A request that no other worker interrupts: its Redis commands and memory calls, run one by one, do
  exactly what one request does in the model of requests served in turn.
 */
module RedisSolo {
  import opened Wrappers
  import opened RateLimiter
  import opened AttemptWindows
  import opened RedisProtocol
  import RedisOutage

  lemma {:induction false} RunConcat(c: Config, s: State, a: seq<Step>, b: seq<Step>)
    ensures Run(c, s, a + b) == Run(c, Run(c, s, a), b)
    decreases |a|
  {
    if a == [] {
      assert [] + b == b;
    } else {
      assert (a + b)[1..] == a[1..] + b;
      RunConcat(c, Next(c, s, a[0]), a[1..], b);
    }
  }

  lemma RunOne(c: Config, s: State, step: Step)
    ensures Run(c, s, [step]) == Next(c, s, step)
  {
    assert Run(c, Next(c, s, step), []) == Next(c, s, step);
  }

  lemma RunTwo(c: Config, s: State, a: Step, b: Step)
    ensures Run(c, s, [a, b]) == Next(c, Next(c, s, a), b)
  {
    assert [a, b] == [a] + [b];
    RunConcat(c, s, [a], [b]);
    RunOne(c, s, a);
    RunOne(c, Next(c, s, a), b);
  }

  lemma RunThree(c: Config, s: State, a: Step, b: Step, d: Step)
    ensures Run(c, s, [a, b, d]) == Next(c, Next(c, Next(c, s, a), b), d)
  {
    assert [a, b, d] == [a, b] + [d];
    RunConcat(c, s, [a, b], [d]);
    RunTwo(c, s, a, b);
    RunOne(c, Next(c, Next(c, s, a), b), d);
  }

  /** The state `s` with worker w standing at `phase`. */
  function AtPhase(s: State, w: nat, phase: Phase): State
    requires w < |s.workers|
  {
    s.(workers := s.workers[w := phase])
  }

  predicate RedisLimits(c: Config, zset: seq<real>) { zset != [] && |zset| >= c.limit }

  lemma Restand(s: State, w: nat, before: Phase, after: Phase)
    requires w < |s.workers|
    ensures AtPhase(AtPhase(s, w, before), w, after) == AtPhase(s, w, after)
  {
  }

  /** The commands of a check, one by one. */
  lemma CheckCommands(c: Config, s: State, w: nat, now: real)
    requires w < |s.workers| && s.up
    ensures var go := Advance(w, Crashed);
            && (s.workers[w] == CheckSampled(now) ==>
                  Next(c, s, go) == AtPhase(s.(zset := ZRemRange(s.zset, 0.0, now - c.window as real)), w,
                                            CheckPruned(now)))
            && (s.workers[w] == CheckPruned(now) ==>
                  Next(c, s, go) == AtPhase(s, w, if |s.zset| < c.limit then MemoryDue(true) else CheckCounted))
            && (s.workers[w] == CheckCounted ==>
                  Next(c, s, go) == AtPhase(s, w, if s.zset == [] then MemoryDue(true) else Idle))
  {
  }

  /** The Redis half of a check that has begun: two commands, or three if the count is too high. */
  lemma CheckBegun(c: Config, s: State, w: nat, now: real) returns (steps: seq<Step>)
    requires w < |s.workers| && s.workers[w] == CheckSampled(now) && s.up
    ensures var zset := ZRemRange(s.zset, 0.0, now - c.window as real);
            Run(c, s, steps) == AtPhase(s.(zset := zset), w, if RedisLimits(c, zset) then Idle else MemoryDue(true))
  {
    var go := Advance(w, Crashed);
    var kept := s.(zset := ZRemRange(s.zset, 0.0, now - c.window as real));
    CheckCommands(c, s, w, now);
    CheckCommands(c, AtPhase(kept, w, CheckPruned(now)), w, now);
    Restand(kept, w, CheckPruned(now), MemoryDue(true));
    if |kept.zset| < c.limit {
      steps := [go, go];
      RunTwo(c, s, go, go);
    } else {
      steps := [go, go, go];
      RunThree(c, s, go, go, go);
      Restand(kept, w, CheckPruned(now), CheckCounted);
      CheckCommands(c, AtPhase(kept, w, CheckCounted), w, now);
      Restand(kept, w, CheckCounted, MemoryDue(true));
      Restand(kept, w, CheckCounted, Idle);
    }
  }

  lemma Begun(c: Config, s: State, w: nat, now: real, up: bool)
    requires w < |s.workers| && s.workers[w] == Idle && s.clock <= now
    ensures Run(c, s, [Tick(now), Switch(up), Begin(w)]) == AtPhase(s.(clock := now, up := up), w, CheckSampled(now))
  {
    RunThree(c, s, Tick(now), Switch(up), Begin(w));
  }

  lemma CheckRefused(c: Config, s: State, w: nat, now: real)
    requires w < |s.workers| && s.workers[w] == CheckSampled(now) && !s.up
    ensures Run(c, s, [Advance(w, Crashed)]) == AtPhase(s, w, MemoryDue(false))
  {
    RunOne(c, s, Advance(w, Crashed));
  }

  /** The Redis half of the check, with Redis up or down throughout. */
  lemma RedisCheckAlone(c: Config, s: State, w: nat, now: real, up: bool) returns (steps: seq<Step>)
    requires w < |s.workers| && s.workers[w] == Idle && s.clock <= now
    ensures var zset := if up then ZRemRange(s.zset, 0.0, now - c.window as real) else s.zset;
            Run(c, s, steps) == AtPhase(s.(clock := now, up := up, zset := zset), w,
                                        if up && RedisLimits(c, zset) then Idle else MemoryDue(up))
  {
    var begun := s.(clock := now, up := up);
    var begin := [Tick(now), Switch(up), Begin(w)];
    var more := [Advance(w, Crashed)];
    Begun(c, s, w, now, up);
    if up {
      var kept := begun.(zset := ZRemRange(s.zset, 0.0, now - c.window as real));
      more := CheckBegun(c, AtPhase(begun, w, CheckSampled(now)), w, now);
      Restand(kept, w, CheckSampled(now), if RedisLimits(c, kept.zset) then Idle else MemoryDue(true));
    } else {
      CheckRefused(c, AtPhase(begun, w, CheckSampled(now)), w, now);
      Restand(begun, w, CheckSampled(now), MemoryDue(false));
    }
    RunConcat(c, s, begin, more);
    steps := begin + more;
  }

  /** The memory half of the check, step by step; the locked section uses the reading taken before. */
  lemma MemoryCalls(c: Config, s: State, w: nat, now: real, checked: bool)
    requires w < |s.workers|
    ensures var go := Advance(w, Crashed);
            var (bucket, reply) := LazyStep(s.bucket, c.window, Check(c.limit, now));
            && (s.workers[w] == MemoryDue(checked) ==> Next(c, s, go) == AtPhase(s, w, MemorySampled(s.clock, checked)))
            && (s.workers[w] == MemorySampled(now, checked) ==>
                  Next(c, s, go) == AtPhase(s.(bucket := bucket), w,
                                            if reply.after == None then Passed(checked) else Idle))
  {
  }

  lemma MemoryCheckAlone(c: Config, s: State, w: nat, now: real, checked: bool) returns (steps: seq<Step>)
    requires w < |s.workers| && s.workers[w] == MemoryDue(checked) && s.clock <= now
    ensures var (bucket, reply) := LazyStep(s.bucket, c.window, Check(c.limit, now));
            Run(c, s, steps) == AtPhase(s.(clock := now, bucket := bucket), w,
                                        if reply.after == None then Passed(checked) else Idle)
  {
    var go := Advance(w, Crashed);
    var a := s.(clock := now);
    var (bucket, reply) := LazyStep(s.bucket, c.window, Check(c.limit, now));
    steps := [Tick(now), go, go];
    RunThree(c, s, Tick(now), go, go);
    MemoryCalls(c, a, w, now, checked);
    MemoryCalls(c, AtPhase(a, w, MemorySampled(now, checked)), w, now, checked);
    Restand(a.(bucket := bucket), w, MemorySampled(now, checked),
            if reply.after == None then Passed(checked) else Idle);
  }

  function RedisGiven(c: Config, s: State, now: real, checked: bool): State {
    s.(zset := ZAdd(ZRemRange(s.zset, 0.0, now - c.window as real), now), redisLog := s.redisLog + [now],
       recovered := if checked then s.recovered else s.recovered + [now])
  }

  function MemoryGiven(c: Config, s: State, now: real): State {
    s.(bucket := Pruned(s.bucket, now - c.window as real) + [now], memoryLog := s.memoryLog + [now])
  }

  /** The three commands of a record, one by one. */
  lemma RecordCommands(c: Config, s: State, w: nat, now: real, checked: bool)
    requires w < |s.workers| && s.up
    ensures var go := Advance(w, Failed);
            && (s.workers[w] == RecordSampled(now, checked) ==>
                  Next(c, s, go) == AtPhase(s.(zset := ZRemRange(s.zset, 0.0, now - c.window as real)), w,
                                            RecordPruned(now, checked)))
            && (s.workers[w] == RecordPruned(now, checked) ==>
                  Next(c, s, go) == AtPhase(s.(zset := ZAdd(s.zset, now), redisLog := s.redisLog + [now],
                                               recovered := if checked then s.recovered else s.recovered + [now]),
                                            w, RecordAdded))
            && (s.workers[w] == RecordAdded && s.zset != [] ==> Next(c, s, go) == AtPhase(s, w, Idle))
  {
  }

  lemma RedisRecordAlone(c: Config, s: State, w: nat, now: real, checked: bool)
    requires w < |s.workers| && s.workers[w] == RecordSampled(now, checked) && s.up
    ensures var go := Advance(w, Failed);
            Run(c, s, [go, go, go]) == AtPhase(RedisGiven(c, s, now, checked), w, Idle)
  {
    var go := Advance(w, Failed);
    var kept := s.(zset := ZRemRange(s.zset, 0.0, now - c.window as real));
    var given := RedisGiven(c, s, now, checked);
    RunThree(c, s, go, go, go);
    RecordCommands(c, s, w, now, checked);
    RecordCommands(c, AtPhase(kept, w, RecordPruned(now, checked)), w, now, checked);
    Restand(given, w, RecordPruned(now, checked), RecordAdded);
    assert now in given.zset;
    RecordCommands(c, AtPhase(given, w, RecordAdded), w, now, checked);
    Restand(given, w, RecordAdded, Idle);
  }

  /** The steps of a record while Redis is down, one by one. */
  lemma FallbackCalls(c: Config, s: State, w: nat, now: real, checked: bool)
    requires w < |s.workers| && !s.up
    ensures var go := Advance(w, Failed);
            && (s.workers[w] == RecordSampled(now, checked) ==> Next(c, s, go) == AtPhase(s, w, FallbackDue))
            && (s.workers[w] == FallbackDue ==> Next(c, s, go) == AtPhase(s, w, FallbackSampled(s.clock)))
            && (s.workers[w] == FallbackSampled(now) ==> Next(c, s, go) == AtPhase(MemoryGiven(c, s, now), w, Idle))
  {
  }

  lemma MemoryRecordAlone(c: Config, s: State, w: nat, checked: bool)
    requires w < |s.workers| && s.workers[w] == RecordSampled(s.clock, checked) && !s.up
    ensures var go := Advance(w, Failed);
            Run(c, s, [go, go, go]) == AtPhase(MemoryGiven(c, s, s.clock), w, Idle)
  {
    var go, now := Advance(w, Failed), s.clock;
    RunThree(c, s, go, go, go);
    FallbackCalls(c, s, w, now, checked);
    FallbackCalls(c, AtPhase(s, w, FallbackDue), w, now, checked);
    Restand(s, w, FallbackDue, FallbackSampled(now));
    FallbackCalls(c, AtPhase(s, w, FallbackSampled(now)), w, now, checked);
    Restand(MemoryGiven(c, s, now), w, FallbackSampled(now), Idle);
  }

  lemma FailureSampled(c: Config, s: State, w: nat, checked: bool)
    requires w < |s.workers| && s.workers[w] == Passed(checked)
    ensures Next(c, s, Advance(w, Failed)) == AtPhase(s, w, RecordSampled(s.clock, checked))
  {
  }

  /** A failure is recorded in Redis if it is up, else in memory. */
  lemma RecordAlone(c: Config, s: State, w: nat, checked: bool)
    requires w < |s.workers| && s.workers[w] == Passed(checked)
    ensures var go := Advance(w, Failed);
            Run(c, s, [go] + [go, go, go])
            == AtPhase(if s.up then RedisGiven(c, s, s.clock, checked) else MemoryGiven(c, s, s.clock), w, Idle)
  {
    var go, now := Advance(w, Failed), s.clock;
    var a := AtPhase(s, w, RecordSampled(now, checked));
    RunConcat(c, s, [go], [go, go, go]);
    RunOne(c, s, go);
    FailureSampled(c, s, w, checked);
    if s.up {
      RedisRecordAlone(c, a, w, now, checked);
      Restand(RedisGiven(c, s, now, checked), w, RecordSampled(now, checked), Idle);
    } else {
      MemoryRecordAlone(c, a, w, checked);
      Restand(MemoryGiven(c, s, now), w, RecordSampled(now, checked), Idle);
    }
  }

  /** A success clears memory, and Redis if it is up. */
  lemma ClearAlone(c: Config, s: State, w: nat, checked: bool)
    requires w < |s.workers| && s.workers[w] == Passed(checked)
    ensures var go := Advance(w, Succeeded);
            Run(c, s, [go, go])
            == AtPhase(s.(zset := if s.up then [] else s.zset, redisLog := [], recovered := [],
                          bucket := [], memoryLog := []), w, Idle)
  {
    var go := Advance(w, Succeeded);
    RunTwo(c, s, go, go);
    assert Next(c, s, go).workers[w] == RedisCleared;
  }

  function SideOf(s: State): RedisOutage.Side {
    RedisOutage.Side(Stores(s.zset, s.bucket), s.redisLog, s.memoryLog, s.recovered, s.clock)
  }

  /** The check of a request: its stores are those of CheckStores, and it goes on if no store limits the key. */
  lemma CheckAlone(c: Config, s: State, w: nat, q: RedisOutage.Request) returns (steps: seq<Step>)
    requires w < |s.workers| && s.workers[w] == Idle && s.clock <= q.redisNow <= q.memoryNow <= q.after
    ensures var (stores, answer) := CheckStores(Stores(s.zset, s.bucket), c.limit, c.window, q.upCheck,
                                                q.redisNow, q.memoryNow);
            var t := Run(c, s, steps);
            t == AtPhase(s.(clock := t.clock, up := q.upCheck, zset := stores.zset, bucket := stores.bucket), w,
                         if answer == None then Passed(q.upCheck) else Idle)
            && t.clock <= q.after
  {
    steps := RedisCheckAlone(c, s, w, q.redisNow, q.upCheck);
    var t := Run(c, s, steps);
    if t.workers[w] != Idle {
      var more := MemoryCheckAlone(c, t, w, q.memoryNow, q.upCheck);
      RunConcat(c, s, steps, more);
      steps := steps + more;
    }
  }

  /** Redis's state and the clock when the request goes on. */
  lemma Turn(c: Config, s: State, now: real, up: bool)
    requires s.clock <= now
    ensures Run(c, s, [Tick(now), Switch(up)]) == s.(clock := now, up := up)
  {
    RunTwo(c, s, Tick(now), Switch(up));
  }

  /** What a worker that passed the check does to the end of its request. */
  lemma EndAlone(c: Config, s: State, w: nat, checked: bool, outcome: Outcome) returns (steps: seq<Step>)
    requires w < |s.workers| && s.workers[w] == Passed(checked)
    ensures var t := Run(c, s, steps);
            && t.workers == s.workers[w := Idle] && t.clock == s.clock
            && SideOf(t) == match outcome
                            case Crashed => SideOf(s)
                            case Succeeded => RedisOutage.Side(ClearStores(Stores(s.zset, s.bucket), s.up),
                                                               [], [], [], s.clock)
                            case Failed =>
                              var side := SideOf(s).(stores := RecordStores(Stores(s.zset, s.bucket), c.window, s.up,
                                                                            s.clock).0);
                              if !s.up then side.(memoryLog := s.memoryLog + [s.clock])
                              else if checked then side.(redisLog := s.redisLog + [s.clock])
                              else side.(redisLog := s.redisLog + [s.clock], recovered := s.recovered + [s.clock])
  {
    var go := Advance(w, outcome);
    match outcome
    case Crashed =>
      steps := [go];
      RunOne(c, s, go);
    case Succeeded =>
      steps := [go, go];
      ClearAlone(c, s, w, checked);
    case Failed =>
      steps := [go] + [go, go, go];
      RecordAlone(c, s, w, checked);
  }

  /**
    Main result: for every request there are steps by which a worker that is not interrupted serves it,
    and they leave the stores and logs that serving the request as a whole leaves.
   */
  lemma SoloRequest(c: Config, s: State, w: nat, q: RedisOutage.Request) returns (steps: seq<Step>)
    requires w < |s.workers| && s.workers[w] == Idle
    requires s.clock <= q.redisNow <= q.memoryNow <= q.after
    ensures var t := Run(c, s, steps);
            t.workers == s.workers && SideOf(t) == RedisOutage.Serve(c, SideOf(s), q).0
  {
    var check := CheckAlone(c, s, w, q);
    var a := Run(c, s, check);
    var turn := [Tick(q.after), Switch(q.upAfter)];
    var b := a.(clock := q.after, up := q.upAfter);
    Turn(c, a, q.after, q.upAfter);
    RunConcat(c, s, check, turn);
    assert s.workers[w := Idle] == s.workers;
    if a.workers[w] == Idle {
      steps := check + turn;
    } else {
      var end := EndAlone(c, b, w, q.upCheck, q.outcome);
      RunConcat(c, s, check + turn, end);
      steps := check + turn + end;
    }
  }
}
