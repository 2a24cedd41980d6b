/** Sums of natural numbers, for counting what a group of workers may still do. */
module Totals {
  function Sum(loads: seq<nat>): nat {
    if loads == [] then 0 else loads[0] + Sum(loads[1..])
  }

  lemma {:induction false} SumUpdate(loads: seq<nat>, i: nat, load: nat)
    requires i < |loads|
    ensures Sum(loads[i := load]) + loads[i] == Sum(loads) + load
  {
    if i == 0 {
      assert loads[0 := load][1..] == loads[1..];
    } else {
      assert loads[i := load][1..] == loads[1..][i - 1 := load];
      SumUpdate(loads[1..], i - 1, load);
    }
  }

  lemma {:induction false} SumMonotone(a: seq<nat>, b: seq<nat>)
    requires |a| == |b| && forall i :: 0 <= i < |a| ==> a[i] <= b[i]
    ensures Sum(a) <= Sum(b)
  {
    if a != [] {
      SumMonotone(a[1..], b[1..]);
    }
  }

  /** Loads of at most one add up to at most the number of workers. */
  lemma {:induction false} SumOfBits(loads: seq<nat>)
    requires forall i :: 0 <= i < |loads| ==> loads[i] <= 1
    ensures Sum(loads) <= |loads|
  {
    if loads != [] {
      SumOfBits(loads[1..]);
    }
  }

  lemma {:induction false} SumOfZeros(loads: seq<nat>)
    requires forall i :: 0 <= i < |loads| ==> loads[i] == 0
    ensures Sum(loads) == 0
  {
    if loads != [] {
      SumOfZeros(loads[1..]);
    }
  }
}
