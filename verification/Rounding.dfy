/** Rounding to two decimals. */
module Rounding {
  /** A multiple of one hundredth. */
  ghost predicate OnGrid(x: real) {
    exists k: int :: x == Hundredths(k)
  }

  function Hundredths(k: int): real { k as real / 100.0 }

  function Abs(x: real): real { if x < 0.0 then -x else x }

  /** Any rounding that picks a nearest hundredth, however it breaks ties. */
  ghost predicate NearestHundredth(round: real -> real) {
    forall x :: OnGrid(round(x)) && Abs(round(x) - x) <= 0.005
  }

  function HalfEven(x: real): int {
    var below := x.Floor;
    var part := x - below as real;
    if part < 0.5 || (part == 0.5 && below % 2 == 0) then below else below + 1
  }

  /** Python's round(x, 2) on reals. */
  function Round2(x: real): real { Hundredths(HalfEven(x * 100.0)) }

  lemma Round2IsNearest()
    ensures NearestHundredth(Round2)
  {
    forall x ensures OnGrid(Round2(x)) && Abs(Round2(x) - x) <= 0.005 {
      var y := x * 100.0;
      assert Abs(HalfEven(y) as real - y) <= 0.5;
      assert Round2(x) == Hundredths(HalfEven(y));
    }
  }

  /** Two different hundredths are at least a hundredth apart. */
  lemma GridGap(j: int, k: int)
    ensures j < k ==> Hundredths(k) - Hundredths(j) >= 0.01
  {
    assert Hundredths(k) - Hundredths(j) == (k - j) as real / 100.0;
  }

  /** Nearest-hundredth rounding is monotone, whatever it does on ties. */
  lemma NearestIsMonotone(round: real -> real, x: real, y: real)
    requires NearestHundredth(round) && x <= y
    ensures round(x) <= round(y)
  {
    assert OnGrid(round(x)) && OnGrid(round(y)) && Abs(round(x) - x) <= 0.005 && Abs(round(y) - y) <= 0.005;
    var j: int :| round(x) == Hundredths(j);
    var k: int :| round(y) == Hundredths(k);
    GridGap(k, j);
  }

  /** ... and leaves a hundredth alone, as well as anything closer than half a hundredth to it. */
  lemma NearestFixesGrid(round: real -> real, x: real, g: real)
    requires NearestHundredth(round) && OnGrid(g) && Abs(x - g) < 0.005
    ensures round(x) == g
  {
    assert OnGrid(round(x)) && Abs(round(x) - x) <= 0.005;
    var j: int :| round(x) == Hundredths(j);
    var k: int :| g == Hundredths(k);
    GridGap(j, k);
    GridGap(k, j);
  }

  /** x is y to two decimals: the nearest hundredth, or of two equally near ones the one with an even last digit. */
  ghost predicate Rounds(x: real, y: real) {
    exists k: int :: x == Hundredths(k) && Abs(x - y) <= 0.005 && (Abs(x - y) == 0.005 ==> k % 2 == 0)
  }

  lemma HalfEvenChoice(y: real)
    ensures Abs(HalfEven(y) as real - y) <= 0.5
    ensures Abs(HalfEven(y) as real - y) == 0.5 ==> HalfEven(y) % 2 == 0
  {
  }

  /** Both conditions together determine the rounded value. */
  lemma Round2Iff(x: real, y: real)
    ensures x == Round2(y) <==> Rounds(x, y)
  {
    var n := HalfEven(y * 100.0);
    HalfEvenChoice(y * 100.0);
    assert Abs(Hundredths(n) - y) == Abs(n as real - y * 100.0) / 100.0;
    if Rounds(x, y) {
      var k: int :| x == Hundredths(k) && Abs(x - y) <= 0.005 && (Abs(x - y) == 0.005 ==> k % 2 == 0);
      assert Abs(Hundredths(k) - y) == Abs(k as real - y * 100.0) / 100.0;
      NearWholes(k, n, y * 100.0);
    }
  }

  /** Two integers that are both nearest to z, and even on a tie, are the same. */
  lemma NearWholes(j: int, k: int, z: real)
    requires Abs(j as real - z) <= 0.5 && (Abs(j as real - z) == 0.5 ==> j % 2 == 0)
    requires Abs(k as real - z) <= 0.5 && (Abs(k as real - z) == 0.5 ==> k % 2 == 0)
    ensures j == k
  {
  }

  lemma Scaled(x: real, bound: real, n: real, most: real)
    requires x <= bound && n >= 0.0 && bound * n == most
    ensures x * n <= most
  {
    assert (bound - x) * n >= 0.0;
  }

  /** n times a value within half a hundredth of the mean is within n half hundredths of the total. */
  lemma TimesMean(shown: real, mean: real, n: real, total: real)
    requires -0.005 <= shown - mean <= 0.005 && n >= 0.0 && mean * n == total
    ensures total - 0.005 * n <= shown * n <= total + 0.005 * n
  {
    Scaled(shown, mean + 0.005, n, total + 0.005 * n);
    Scaled(-shown, -mean + 0.005, n, -total + 0.005 * n);
    assert (-shown) * n == -(shown * n);
  }
}
