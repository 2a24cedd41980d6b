/**
  The adaptive-learning topic average: an incremental mean that is rounded to two decimals at
  every update but the first.
 */
module RunningAverage {
  import opened Wrappers
  import opened Rounding

  datatype Topic = Topic(avgScore: real, attempts: nat)

  /** enrollment number, topic, organisation */
  type Key = (string, string, int)

  /** The incremental mean before rounding. */
  function Blend(average: real, attempts: nat, score: real): real {
    (average * attempts as real + score) / (attempts + 1) as real
  }

  /** One score arriving at a topic record; `round` is round(_, 2). */
  function Updated(round: real -> real, existing: Option<Topic>, score: real): Topic {
    match existing
    case None => Topic(score, 1)
    case Some(t) => Topic(round(Blend(t.avgScore, t.attempts, score)), t.attempts + 1)
  }

  class PalTopics {
    var records: map<Key, Topic>

    constructor ()
      ensures records == map[]
    {
      records := map[];
    }

    method UpsertTopic(key: Key, score: real) returns (topic: Topic)
      modifies this
      ensures topic == Updated(Round2, if key in old(records) then Some(old(records)[key]) else None, score)
      ensures records == old(records)[key := topic]
    {
      if key !in records {
        topic := Topic(score, 1);
      } else {
        var existing := records[key];
        var newAvg := (existing.avgScore * existing.attempts as real + score) / (existing.attempts + 1) as real;
        assert newAvg == Blend(existing.avgScore, existing.attempts, score);
        topic := existing.(avgScore := Round2(newAvg));
        topic := topic.(attempts := topic.attempts + 1);
      }
      records := records[key := topic];
    }
  }

  // ---------------------------------------------------------------- a whole history of scores

  function Sum(scores: seq<real>): real {
    if scores == [] then 0.0 else Sum(scores[..|scores| - 1]) + scores[|scores| - 1]
  }

  /** The record after a non-empty history of scores. */
  function After(round: real -> real, scores: seq<real>): (t: Topic)
    requires scores != []
    ensures t.attempts == |scores|
  {
    if |scores| == 1 then Updated(round, None, scores[0])
    else Updated(round, Some(After(round, scores[..|scores| - 1])), scores[|scores| - 1])
  }

  /** attempts * average - sum: how far the stored average has drifted, times the number of scores. */
  function Drift(round: real -> real, scores: seq<real>): real
    requires scores != []
  {
    var t := After(round, scores);
    t.avgScore * t.attempts as real - Sum(scores)
  }

  lemma MulDiv(x: real, n: real)
    requires n > 0.0
    ensures (x / n) * n == x
  {
  }

  lemma ProductSign(u: real, m: real)
    requires m > 0.0
    ensures u * m >= 0.0 <==> u >= 0.0
    ensures u * m > 0.0 <==> u > 0.0
  {
  }

  lemma ScaledError(e: real, m: real)
    requires m > 0.0 && Abs(e) <= 0.005
    ensures Abs(e * m) <= 0.005 * m
  {
    ProductSign(0.005 - e, m);
    ProductSign(0.005 + e, m);
  }

  lemma BlendMeaning(a: real, n: nat, score: real)
    ensures Blend(a, n, score) * (n as real + 1.0) == a * n as real + score
  {
    MulDiv(a * n as real + score, (n + 1) as real);
  }

  lemma Distribute(rounded: real, exact: real, e: real, m: real)
    requires rounded == exact + e
    ensures rounded * m == exact * m + e * m
  {
    assert (exact + e) * m == exact * m + e * m;
  }

  lemma RoundedTotal(rounded: real, exact: real, e: real, m: real, total: real)
    requires m > 0.0 && Abs(e) <= 0.005 && rounded == exact + e && exact * m == total
    ensures Abs(rounded * m - total) <= 0.005 * m
  {
    ScaledError(e, m);
    Distribute(rounded, exact, e, m);
    var scaled, difference := e * m, rounded * m - total;
    assert difference == scaled;
  }

  /** attempts * average before and after one update differ by the score, up to half a hundredth per attempt. */
  lemma UpdateTotal(round: real -> real, t: Topic, score: real)
    requires NearestHundredth(round)
    ensures var n := (t.attempts + 1) as real;
            Abs(Updated(round, Some(t), score).avgScore * n - (t.avgScore * t.attempts as real + score)) <= 0.005 * n
  {
    var exact, n := Blend(t.avgScore, t.attempts, score), (t.attempts + 1) as real;
    BlendMeaning(t.avgScore, t.attempts, score);
    RoundedTotal(round(exact), exact, round(exact) - exact, n, t.avgScore * t.attempts as real + score);
  }

  /** In plain numbers: d and e are the drifts after and before the update. */
  lemma DriftDifference(d: real, e: real, scaled: real, total: real, sum: real, score: real, bound: real)
    requires d == scaled - (sum + score) && e == total - sum && Abs(scaled - (total + score)) <= bound
    ensures Abs(d - e) <= bound
  {
  }

  /** One update adds at most half a hundredth per attempt to the drift. */
  lemma DriftStep(round: real -> real, scores: seq<real>)
    requires NearestHundredth(round) && |scores| > 1
    ensures Abs(Drift(round, scores) - Drift(round, scores[..|scores| - 1])) <= 0.005 * |scores| as real
  {
    var front, score, n := scores[..|scores| - 1], scores[|scores| - 1], |scores| as real;
    var t := After(round, front);
    var scaled, total := After(round, scores).avgScore * n, t.avgScore * t.attempts as real;
    UpdateTotal(round, t, score);
    DriftDifference(Drift(round, scores), Drift(round, front), scaled, total, Sum(front), score, 0.005 * n);
  }

  /** 0.005 for every attempt after the first, weighted by its number. */
  function ErrorBound(n: nat): real {
    if n <= 1 then 0.0 else ErrorBound(n - 1) + 0.005 * n as real
  }

  lemma {:induction false} ErrorBoundClosed(n: nat)
    requires n >= 1
    ensures ErrorBound(n) == 0.005 * ((n * (n + 1) / 2) as real - 1.0)
  {
    if n > 1 {
      ErrorBoundClosed(n - 1);
      Triangle(n);
    }
  }

  lemma Triangle(n: nat)
    requires n >= 1
    ensures n * (n + 1) / 2 == (n - 1) * n / 2 + n
  {
    assert n * (n + 1) == (n - 1) * n + 2 * n;
  }

  /** The first score is stored as it is. */
  lemma FirstScore(round: real -> real, scores: seq<real>)
    requires |scores| == 1
    ensures After(round, scores) == Topic(scores[0], 1) && Sum(scores) == scores[0]
    ensures Drift(round, scores) == 0.0
  {
    assert scores[..0] == [];
    var t := After(round, scores);
    assert t.avgScore * t.attempts as real == scores[0];
  }

  /**
    Main result: after n scores, |n * average - sum| is at most ErrorBound(n), which is
    0.005 * (n(n+1)/2 - 1) by ErrorBoundClosed.
   */
  lemma {:induction false} AccumulatedError(round: real -> real, scores: seq<real>)
    requires NearestHundredth(round) && scores != []
    ensures Abs(Drift(round, scores)) <= ErrorBound(|scores|)
  {
    if |scores| == 1 {
      FirstScore(round, scores);
    } else {
      var front := scores[..|scores| - 1];
      AccumulatedError(round, front);
      DriftStep(round, scores);
      BoundsAdd(Drift(round, scores), Drift(round, front), ErrorBound(|front|), 0.005 * |scores| as real);
    }
  }

  lemma BoundsAdd(x: real, y: real, bound: real, step: real)
    requires Abs(y) <= bound && Abs(x - y) <= step
    ensures Abs(x) <= bound + step
  {
  }

  /** n * |average - mean| is |n * average - sum|. */
  lemma MeanForm(a: real, n: real, sum: real, mean: real, bound: real)
    requires n > 0.0 && mean * n == sum && Abs(a * n - sum) <= bound
    ensures n * Abs(a - mean) <= bound
  {
    ProductSign(a - mean, n);
    if a < mean {
      assert n * (mean - a) == sum - a * n;
    } else {
      assert n * (a - mean) == a * n - sum;
    }
  }

  /** The true mean of the scores. */
  function Mean(scores: seq<real>): real
    requires scores != []
  {
    Sum(scores) / |scores| as real
  }

  /** n times the distance of the stored average from the true mean. */
  function Distance(round: real -> real, scores: seq<real>): real
    requires scores != []
  {
    |scores| as real * Abs(After(round, scores).avgScore - Mean(scores))
  }

  lemma DistanceFromDrift(round: real -> real, scores: seq<real>, bound: real)
    requires scores != [] && Abs(Drift(round, scores)) <= bound
    ensures Distance(round, scores) <= bound
  {
    var t, n, sum := After(round, scores), |scores| as real, Sum(scores);
    MulDiv(sum, n);
    MeanForm(t.avgScore, n, sum, Mean(scores), bound);
  }

  /** Main result: after n scores n * |average - mean| is at most 0.005 * (n(n+1)/2 - 1). */
  lemma DistanceToMean(round: real -> real, scores: seq<real>)
    requires NearestHundredth(round) && scores != []
    ensures var n := |scores|;
            Distance(round, scores) <= 0.005 * ((n * (n + 1) / 2) as real - 1.0)
  {
    AccumulatedError(round, scores);
    ErrorBoundClosed(|scores|);
    DistanceFromDrift(round, scores, ErrorBound(|scores|));
  }

  // ---------------------------------------------------------------- range

  ghost predicate AllWithin(scores: seq<real>, lo: real, hi: real) {
    forall i :: 0 <= i < |scores| ==> lo <= scores[i] <= hi
  }

  /** A weighted mean of a value and a score lies between the same bounds. */
  lemma BlendWithin(a: real, n: nat, score: real, lo: real, hi: real)
    requires lo <= a <= hi && lo <= score <= hi
    ensures lo <= Blend(a, n, score) <= hi
  {
    BlendMeaning(a, n, score);
    WeightedWithin(Blend(a, n, score), a, n as real, score, lo, hi);
  }

  lemma WeightedWithin(x: real, a: real, n: real, score: real, lo: real, hi: real)
    requires n >= 0.0 && lo <= a <= hi && lo <= score <= hi && x * (n + 1.0) == a * n + score
    ensures lo <= x <= hi
  {
    assert (x - lo) * (n + 1.0) == (a - lo) * n + (score - lo);
    assert (hi - x) * (n + 1.0) == (hi - a) * n + (hi - score);
    assert (a - lo) * n >= 0.0 && (hi - a) * n >= 0.0;
    ProductSign(x - lo, n + 1.0);
    ProductSign(hi - x, n + 1.0);
  }

  lemma RoundWithin(round: real -> real, x: real, lo: real, hi: real)
    requires NearestHundredth(round) && OnGrid(lo) && OnGrid(hi) && lo <= x <= hi
    ensures lo <= round(x) <= hi
  {
    NearestIsMonotone(round, lo, x);
    NearestIsMonotone(round, x, hi);
    NearestFixesGrid(round, lo, lo);
    NearestFixesGrid(round, hi, hi);
  }

  /** The average never leaves an interval of hundredths that contains all scores. */
  lemma {:induction false} StaysWithin(round: real -> real, scores: seq<real>, lo: real, hi: real)
    requires NearestHundredth(round) && scores != []
    requires OnGrid(lo) && OnGrid(hi) && AllWithin(scores, lo, hi)
    ensures lo <= After(round, scores).avgScore <= hi
  {
    if |scores| > 1 {
      var front, score := scores[..|scores| - 1], scores[|scores| - 1];
      StaysWithin(round, front, lo, hi);
      var t := After(round, front);
      BlendWithin(t.avgScore, t.attempts, score, lo, hi);
      RoundWithin(round, Blend(t.avgScore, t.attempts, score), lo, hi);
    }
  }

  // ---------------------------------------------------------------- the average freezes

  function Fed(round: real -> real, t: Topic, scores: seq<real>): Topic
    decreases |scores|
  {
    if scores == [] then t else Fed(round, Updated(round, Some(t), scores[0]), scores[1..])
  }

  /** With enough attempts a single score moves the exact mean by less than half a hundredth. */
  lemma SmallMove(x: real, a: real, n: real, score: real, range: real)
    requires n >= 0.0 && n + 1.0 > 200.0 * range && Abs(score - a) <= range
    requires x * (n + 1.0) == a * n + score
    ensures Abs(x - a) < 0.005
  {
    var d, m := x - a, n + 1.0;
    assert d * m == score - a;
    ProductSign(0.005 - d, m);
    ProductSign(0.005 + d, m);
  }

  lemma FrozenStep(round: real -> real, t: Topic, score: real, lo: real, hi: real)
    requires NearestHundredth(round) && OnGrid(t.avgScore) && lo <= t.avgScore <= hi && lo <= score <= hi
    requires (t.attempts + 1) as real > 200.0 * (hi - lo)
    ensures Updated(round, Some(t), score) == Topic(t.avgScore, t.attempts + 1)
  {
    var x := Blend(t.avgScore, t.attempts, score);
    BlendMeaning(t.avgScore, t.attempts, score);
    SmallMove(x, t.avgScore, t.attempts as real, score, hi - lo);
    NearestFixesGrid(round, x, t.avgScore);
  }

  /** The exact mean moves by (score - average) / (attempts + 1). */
  lemma MoveOf(x: real, a: real, n: real, score: real, half: real)
    requires n >= 0.0 && x * (n + 1.0) == a * n + score
    ensures score - a > half * (n + 1.0) <==> x - a > half
    ensures a - score > half * (n + 1.0) <==> a - x > half
    ensures Abs(score - a) < half * (n + 1.0) <==> Abs(x - a) < half
  {
    var d, m := x - a, n + 1.0;
    assert d * m == score - a;
    ProductSign(d - half, m);
    ProductSign(-d - half, m);
    ProductSign(half - d, m);
    ProductSign(half + d, m);
  }

  lemma FarIsMoved(round: real -> real, x: real, a: real)
    requires NearestHundredth(round) && (x - a > 0.005 || a - x > 0.005)
    ensures round(x) != a
  {
    assert Abs(round(x) - x) <= 0.005;
  }

  /**
    Main result: apart from ties, an update leaves an average on the grid alone exactly if the score
    differs from it by less than 0.005 * (attempts + 1).
   */
  lemma UpdateKeepsIff(round: real -> real, t: Topic, score: real)
    requires NearestHundredth(round) && OnGrid(t.avgScore)
    requires Abs(score - t.avgScore) != 0.005 * (t.attempts as real + 1.0)
    ensures Updated(round, Some(t), score).avgScore == t.avgScore
            <==> Abs(score - t.avgScore) < 0.005 * (t.attempts as real + 1.0)
  {
    var x := Blend(t.avgScore, t.attempts, score);
    BlendMeaning(t.avgScore, t.attempts, score);
    MoveOf(x, t.avgScore, t.attempts as real, score, 0.005);
    if Abs(x - t.avgScore) < 0.005 {
      NearestFixesGrid(round, x, t.avgScore);
    } else {
      FarIsMoved(round, x, t.avgScore);
    }
  }

  /** Main result: once attempts + 1 > 200 * (hi - lo), no run of scores in [lo, hi] ever moves the average again. */
  lemma {:induction false} AverageFreezes(round: real -> real, t: Topic, scores: seq<real>, lo: real, hi: real)
    requires NearestHundredth(round) && OnGrid(t.avgScore) && lo <= t.avgScore <= hi
    requires (t.attempts + 1) as real > 200.0 * (hi - lo)
    requires AllWithin(scores, lo, hi)
    ensures Fed(round, t, scores) == Topic(t.avgScore, t.attempts + |scores|)
    decreases |scores|
  {
    if scores != [] {
      FrozenStep(round, t, scores[0], lo, hi);
      AverageFreezes(round, Topic(t.avgScore, t.attempts + 1), scores[1..], lo, hi);
    }
  }

  /** From the second score on the stored average is a hundredth. */
  lemma StoredOnGrid(round: real -> real, scores: seq<real>)
    requires NearestHundredth(round) && |scores| > 1
    ensures OnGrid(After(round, scores).avgScore)
  {
    var t := After(round, scores[..|scores| - 1]);
    assert After(round, scores) == Topic(round(Blend(t.avgScore, t.attempts, scores[|scores| - 1])), |scores|);
  }

  lemma {:induction false} AfterConcat(round: real -> real, a: seq<real>, b: seq<real>)
    requires a != []
    ensures After(round, a + b) == Fed(round, After(round, a), b)
    decreases |b|
  {
    if b == [] {
      assert a + b == a;
    } else {
      var next := a + [b[0]];
      assert next[..|next| - 1] == a;
      assert a + b == next + b[1..];
      AfterConcat(round, next, b[1..]);
    }
  }

  /**
    Main result: a history of n > 1 scores in an interval [lo, hi] of hundredths with
    n + 1 > 200 * (hi - lo) fixes the average: no continuation inside the interval changes it.
   */
  lemma HistoryFreezes(round: real -> real, scores: seq<real>, more: seq<real>, lo: real, hi: real)
    requires NearestHundredth(round) && |scores| > 1 && OnGrid(lo) && OnGrid(hi)
    requires AllWithin(scores, lo, hi) && AllWithin(more, lo, hi)
    requires (|scores| + 1) as real > 200.0 * (hi - lo)
    ensures After(round, scores + more) == Topic(After(round, scores).avgScore, |scores| + |more|)
  {
    StaysWithin(round, scores, lo, hi);
    StoredOnGrid(round, scores);
    AverageFreezes(round, After(round, scores), more, lo, hi);
    AfterConcat(round, scores, more);
  }

  function Repeat(score: real, n: nat): seq<real> { seq(n, _ => score) }

  lemma {:induction false} RepeatSum(score: real, n: nat)
    ensures Sum(Repeat(score, n)) == score * n as real
  {
    if n > 0 {
      RepeatSum(score, n - 1);
      assert Repeat(score, n)[..n - 1] == Repeat(score, n - 1);
    }
  }

  lemma {:induction false} SumConcat(a: seq<real>, b: seq<real>)
    ensures Sum(a + b) == Sum(a) + Sum(b)
  {
    if b == [] {
      assert a + b == a;
    } else {
      var last := |b| - 1;
      assert (a + b)[..|a + b| - 1] == a + b[..last];
      SumConcat(a, b[..last]);
    }
  }

  /** A history of zero scores has average zero. */
  lemma ZerosAverage(n: nat)
    requires n >= 1
    ensures After(Round2, Repeat(0.0, n)) == Topic(0.0, n)
  {
    Round2IsNearest();
    assert 0.0 == Hundredths(0);
    StaysWithin(Round2, Repeat(0.0, n), 0.0, 0.0);
  }

  /** Half zeros, half hi: the mean is hi / 2. */
  lemma HalfMean(n: nat, hi: real)
    requires n >= 1
    ensures Mean(Repeat(0.0, n) + Repeat(hi, n)) == hi / 2.0
  {
    var scores := Repeat(0.0, n) + Repeat(hi, n);
    RepeatSum(0.0, n);
    RepeatSum(hi, n);
    SumConcat(Repeat(0.0, n), Repeat(hi, n));
    HalfOfDouble(hi, n as real, Sum(scores), |scores| as real);
  }

  lemma HalfOfDouble(hi: real, n: real, sum: real, count: real)
    requires n > 0.0 && sum == hi * n && count == 2.0 * n
    ensures sum / count == hi / 2.0
  {
    var q := sum / count;
    MulDiv(sum, count);
    assert (2.0 * q - hi) * n == 0.0;
    ProductSign(2.0 * q - hi, n);
    ProductSign(hi - 2.0 * q, n);
  }

  /**
    Freezing is not harmless: after n zero scores, n >= 200 * hi, the average stays 0 through n
    scores of hi, while the true mean has risen to hi / 2.
   */
  lemma FrozenFarFromMean(n: nat, hi: real)
    requires n >= 1 && hi >= 0.0 && n as real >= 200.0 * hi
    ensures After(Round2, Repeat(0.0, n) + Repeat(hi, n)) == Topic(0.0, 2 * n)
    ensures Mean(Repeat(0.0, n) + Repeat(hi, n)) == hi / 2.0
  {
    HalfMean(n, hi);
    StaysAtZero(Repeat(0.0, n), Repeat(hi, n), n, hi);
  }

  lemma StaysAtZero(low: seq<real>, high: seq<real>, n: nat, hi: real)
    requires n >= 1 && hi >= 0.0 && n as real >= 200.0 * hi && low == Repeat(0.0, n)
    requires |high| == n && AllWithin(high, 0.0, hi)
    ensures After(Round2, low + high) == Topic(0.0, 2 * n)
  {
    Round2IsNearest();
    ZerosAverage(n);
    assert 0.0 == Hundredths(0);
    AverageFreezes(Round2, Topic(0.0, n), high, 0.0, hi);
    AfterConcat(Round2, low, high);
  }
}
