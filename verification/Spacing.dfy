/** Evenly spaced times, as many as needed inside one second. */
module Spacing {
  import opened AttemptWindows

  /** The time of the i-th event when consecutive events are `gap` apart. */
  function TimeAt(i: nat, gap: real): real { if i == 0 then 0.0 else TimeAt(i - 1, gap) + gap }

  /** The times of events from+1 .. from+n. */
  function Stamps(from: nat, n: nat, gap: real): seq<real> {
    seq(n, i requires 0 <= i => TimeAt(from + i + 1, gap))
  }

  lemma {:induction false} TimesGrow(i: nat, j: nat, gap: real)
    requires 0.0 < gap && i < j
    ensures 0.0 <= TimeAt(i, gap) < TimeAt(j, gap)
  {
    if i + 1 < j {
      TimesGrow(i, j - 1, gap);
    } else if i > 0 {
      TimesGrow(i - 1, i, gap);
    }
  }

  lemma {:induction false} TimeIsProduct(i: nat, gap: real)
    ensures TimeAt(i, gap) == i as real * gap
  {
    if i > 0 {
      TimeIsProduct(i - 1, gap);
      assert i as real * gap == (i - 1) as real * gap + gap;
    }
  }

  lemma TimesFit(a: nat, b: nat, gap: real)
    requires gap > 0.0 && a <= b && TimeAt(b, gap) <= 1.0
    ensures TimeAt(a, gap) <= 1.0
  {
    if a < b { TimesGrow(a, b, gap); }
  }

  lemma GapFits(n: nat)
    requires n >= 1
    ensures TimeAt(n, 1.0 / n as real) == 1.0 && 1.0 / n as real > 0.0
  {
    TimeIsProduct(n, 1.0 / n as real);
  }

  lemma StampsFacts(from: nat, n: nat, gap: real, x: real)
    requires 0.0 < gap && x in Stamps(from, n, gap)
    ensures 0.0 < x <= TimeAt(from + n, gap) && x < TimeAt(from + n + 1, gap)
  {
    var i :| 0 <= i < n && Stamps(from, n, gap)[i] == x;
    TimesGrow(0, from + i + 1, gap);
    TimesGrow(from + i + 1, from + n + 1, gap);
    if i + 1 < n { TimesGrow(from + i + 1, from + n, gap); }
  }

  lemma StampsGrow(from: nat, n: nat, gap: real)
    ensures Stamps(from, n, gap) + [TimeAt(from + n + 1, gap)] == Stamps(from, n + 1, gap)
  {
  }

  lemma {:induction false} StampsCount(from: nat, n: nat, gap: real, width: int, to: real)
    requires 0.0 < gap && width >= 1 && TimeAt(from + n, gap) <= to <= 1.0
    ensures InWindow(Stamps(from, n, gap), width, to) == n
  {
    if n > 0 {
      TimesGrow(from + n - 1, from + n, gap);
      TimesGrow(0, from + n, gap);
      assert Stamps(from, n, gap)[..n - 1] == Stamps(from, n - 1, gap);
      StampsCount(from, n - 1, gap, width, to);
    }
  }
}
