/** Filtering and ORDER BY over tables held as sequences. */
module Ordering {
  function Filter<T>(s: seq<T>, p: T -> bool): seq<T> {
    if s == [] then []
    else if p(s[0]) then [s[0]] + Filter(s[1..], p)
    else Filter(s[1..], p)
  }

  /** The position of the first row that satisfies p, |s| if there is none. */
  function FirstIndex<T>(s: seq<T>, p: T -> bool): (k: nat)
    ensures k <= |s| && (k < |s| ==> p(s[k]))
    ensures forall j :: 0 <= j < k ==> !p(s[j])
  {
    if s == [] || p(s[0]) then 0 else 1 + FirstIndex(s[1..], p)
  }

  lemma {:induction false} FilterMembers<T(!new)>(s: seq<T>, p: T -> bool)
    ensures forall x :: x in Filter(s, p) <==> x in s && p(x)
    ensures |Filter(s, p)| <= |s|
  {
    if s != [] {
      FilterMembers(s[1..], p);
    }
  }

  ghost predicate IsOrder<T(!new)>(le: (T, T) -> bool) {
    && (forall x, y :: le(x, y) || le(y, x))
    && (forall x, y, z :: le(x, y) && le(y, z) ==> le(x, z))
  }

  ghost predicate SortedBy<T(!new)>(s: seq<T>, le: (T, T) -> bool) {
    forall i, j :: 0 <= i < j < |s| ==> le(s[i], s[j])
  }

  function Insert<T(!new)>(x: T, s: seq<T>, le: (T, T) -> bool): (r: seq<T>)
    ensures multiset(r) == multiset{x} + multiset(s)
  {
    if s == [] then [x]
    else if le(x, s[0]) then assert s == [s[0]] + s[1..]; [x] + s
    else assert s == [s[0]] + s[1..]; [s[0]] + Insert(x, s[1..], le)
  }

  /** SELECT ... ORDER BY le, ties in table order. */
  function SortBy<T(!new)>(s: seq<T>, le: (T, T) -> bool): (r: seq<T>)
    ensures multiset(r) == multiset(s)
  {
    if s == [] then [] else assert s == [s[0]] + s[1..]; Insert(s[0], SortBy(s[1..], le), le)
  }

  lemma {:induction false} InsertSorted<T(!new)>(x: T, s: seq<T>, le: (T, T) -> bool)
    requires IsOrder(le) && SortedBy(s, le)
    ensures SortedBy(Insert(x, s, le), le)
  {
    if s != [] && !le(x, s[0]) {
      InsertSorted(x, s[1..], le);
      var rest := Insert(x, s[1..], le);
      forall i | 0 <= i < |rest| ensures le(s[0], rest[i]) {
        assert rest[i] in multiset(rest);
        assert rest[i] == x || rest[i] in s[1..];
      }
    }
  }

  lemma {:induction false} SortSorts<T(!new)>(s: seq<T>, le: (T, T) -> bool)
    requires IsOrder(le)
    ensures SortedBy(SortBy(s, le), le)
  {
    if s != [] {
      SortSorts(s[1..], le);
      InsertSorted(s[0], SortBy(s[1..], le), le);
    }
  }

  lemma TailMultiset<T(!new)>(s: seq<T>)
    requires s != []
    ensures multiset(s[1..]) == multiset(s) - multiset{s[0]}
  {
    assert s == [s[0]] + s[1..];
  }

  lemma SameHead<T(!new)>(a: seq<T>, b: seq<T>, le: (T, T) -> bool)
    requires SortedBy(a, le) && SortedBy(b, le) && multiset(a) == multiset(b) && a != [] && b != []
    requires forall x, y :: x in a && y in a && le(x, y) && le(y, x) ==> x == y
    ensures a[0] == b[0]
  {
    assert b[0] in multiset(a) && a[0] in multiset(b);
    var i :| 0 <= i < |a| && a[i] == b[0];
    var j :| 0 <= j < |b| && b[j] == a[0];
  }

  /** With distinct sort keys the answer of ORDER BY is unique, however the database computes it. */
  lemma {:induction false} SortedUnique<T(!new)>(a: seq<T>, b: seq<T>, le: (T, T) -> bool)
    requires SortedBy(a, le) && SortedBy(b, le) && multiset(a) == multiset(b)
    requires forall x, y :: x in a && y in a && le(x, y) && le(y, x) ==> x == y
    ensures a == b
  {
    assert |a| == |multiset(a)| == |multiset(b)| == |b|;
    if a != [] {
      SameHead(a, b, le);
      TailMultiset(a);
      TailMultiset(b);
      forall x | x in a[1..] ensures x in a { }
      SortedUnique(a[1..], b[1..], le);
    }
  }

  lemma FilterCons<T(!new)>(x: T, s: seq<T>, p: T -> bool)
    ensures Filter([x] + s, p) == if p(x) then [x] + Filter(s, p) else Filter(s, p)
  {
    assert ([x] + s)[1..] == s;
  }

  lemma InsertCons<T(!new)>(x: T, y: T, s: seq<T>, le: (T, T) -> bool)
    ensures Insert(x, [y] + s, le) == if le(x, y) then [x] + ([y] + s) else [y] + Insert(x, s, le)
  {
    assert ([y] + s)[1..] == s;
  }

  /** x may stand before every entry after the first one it may stand before. */
  ghost predicate Places<T>(x: T, s: seq<T>, le: (T, T) -> bool) {
    forall i, j :: 0 <= i < j < |s| && le(x, s[i]) ==> le(x, s[j])
  }

  lemma SortedPlaces<T(!new)>(x: T, s: seq<T>, le: (T, T) -> bool)
    requires IsOrder(le) && SortedBy(s, le)
    ensures Places(x, s, le)
  {
  }

  lemma {:induction false} FilterInsert<T(!new)>(x: T, s: seq<T>, le: (T, T) -> bool, p: T -> bool)
    requires Places(x, s, le)
    ensures Filter(Insert(x, s, le), p) == if p(x) then Insert(x, Filter(s, p), le) else Filter(s, p)
  {
    if s == [] {
      FilterCons(x, [], p);
    } else if le(x, s[0]) {
      FilterCons(x, s, p);
      FilterMembers(s, p);
      if Filter(s, p) != [] {
        assert Filter(s, p)[0] in s;
      }
    } else {
      FilterInsert(x, s[1..], le, p);
      FilterCons(s[0], Insert(x, s[1..], le), p);
      InsertCons(x, s[0], Filter(s[1..], p), le);
    }
  }

  /** Filtering an ordered answer is ordering the filtered table. */
  lemma {:induction false} FilterSort<T(!new)>(s: seq<T>, le: (T, T) -> bool, p: T -> bool)
    requires IsOrder(le)
    ensures Filter(SortBy(s, le), p) == SortBy(Filter(s, p), le)
  {
    if s != [] {
      FilterSort(s[1..], le, p);
      SortSorts(s[1..], le);
      SortedPlaces(s[0], SortBy(s[1..], le), le);
      FilterInsert(s[0], SortBy(s[1..], le), le, p);
    }
  }

  lemma {:induction false} FilterFilter<T(!new)>(s: seq<T>, p: T -> bool, q: T -> bool, r: T -> bool)
    requires forall x :: x in s ==> (r(x) <==> p(x) && q(x))
    ensures Filter(Filter(s, p), q) == Filter(s, r)
  {
    if s != [] {
      FilterFilter(s[1..], p, q, r);
      if p(s[0]) {
        FilterCons(s[0], Filter(s[1..], p), q);
      }
    }
  }

  lemma {:induction false} FilterAgree<T(!new)>(s: seq<T>, p: T -> bool, q: T -> bool)
    requires forall x :: x in s ==> (p(x) <==> q(x))
    ensures Filter(s, p) == Filter(s, q)
  {
    if s != [] {
      FilterAgree(s[1..], p, q);
    }
  }

  lemma {:induction false} FilterAppend<T(!new)>(s: seq<T>, x: T, p: T -> bool)
    ensures Filter(s + [x], p) == Filter(s, p) + if p(x) then [x] else []
  {
    if s != [] {
      assert (s + [x])[1..] == s[1..] + [x];
      FilterAppend(s[1..], x, p);
    }
  }

  lemma {:induction false} InsertAgree<T(!new)>(x: T, s: seq<T>, le: (T, T) -> bool, other: (T, T) -> bool)
    requires forall y :: y in s ==> (le(x, y) <==> other(x, y))
    ensures Insert(x, s, le) == Insert(x, s, other)
  {
    if s != [] && !le(x, s[0]) {
      InsertAgree(x, s[1..], le, other);
    }
  }

  /** Two orders that agree on the rows at hand sort them alike. */
  lemma {:induction false} SortAgree<T(!new)>(s: seq<T>, le: (T, T) -> bool, other: (T, T) -> bool)
    requires forall x, y :: x in s && y in s ==> (le(x, y) <==> other(x, y))
    ensures SortBy(s, le) == SortBy(s, other)
  {
    if s != [] {
      SortAgree(s[1..], le, other);
      forall y | y in SortBy(s[1..], le) ensures le(s[0], y) <==> other(s[0], y) {
        assert y in multiset(s[1..]);
      }
      InsertAgree(s[0], SortBy(s[1..], le), le, other);
    }
  }

  /** The (key, id) order of ORDER BY key, id. */
  predicate PairLe(a: (int, int), b: (int, int)) {
    a.0 < b.0 || (a.0 == b.0 && a.1 <= b.1)
  }

  /** A filter that is the disjoint union of two others keeps exactly what they keep. */
  lemma {:induction false} FilterSplits<T(!new)>(s: seq<T>, p: T -> bool, a: T -> bool, b: T -> bool)
    requires forall x :: x in s ==> (p(x) <==> a(x) || b(x)) && !(a(x) && b(x))
    ensures multiset(Filter(s, p)) == multiset(Filter(s, a)) + multiset(Filter(s, b))
  {
    if s != [] {
      FilterSplits(s[1..], p, a, b);
    }
  }

  lemma {:induction false} FilterNothing<T(!new)>(s: seq<T>, p: T -> bool)
    requires forall x :: x in s ==> !p(x)
    ensures Filter(s, p) == []
  {
    if s != [] {
      FilterNothing(s[1..], p);
    }
  }

  ghost predicate NoDuplicates<T>(s: seq<T>) {
    forall i, j :: 0 <= i < j < |s| ==> s[i] != s[j]
  }

  lemma {:induction false} FilterKeepsDistinct<T(!new)>(s: seq<T>, p: T -> bool)
    requires NoDuplicates(s)
    ensures NoDuplicates(Filter(s, p))
  {
    if s != [] {
      FilterKeepsDistinct(s[1..], p);
      FilterMembers(s[1..], p);
      assert s[0] !in s[1..];
    }
  }

  lemma {:induction false} InsertKeepsDistinct<T(!new)>(x: T, s: seq<T>, le: (T, T) -> bool)
    requires NoDuplicates(s) && x !in s
    ensures NoDuplicates(Insert(x, s, le))
  {
    if s != [] && !le(x, s[0]) {
      InsertKeepsDistinct(x, s[1..], le);
      assert s[0] !in multiset{x} + multiset(s[1..]);
      assert s[0] !in multiset(Insert(x, s[1..], le));
    }
  }

  lemma {:induction false} SortKeepsDistinct<T(!new)>(s: seq<T>, le: (T, T) -> bool)
    requires NoDuplicates(s)
    ensures NoDuplicates(SortBy(s, le))
  {
    if s != [] {
      SortKeepsDistinct(s[1..], le);
      assert s[0] !in multiset(s[1..]);
      assert s[0] !in multiset(SortBy(s[1..], le));
      InsertKeepsDistinct(s[0], SortBy(s[1..], le), le);
    }
  }

  /** The rows an ordered query returns are those of the table that pass its filter. */
  lemma QueryMembers<T(!new)>(s: seq<T>, p: T -> bool, le: (T, T) -> bool)
    ensures forall x :: x in SortBy(Filter(s, p), le) <==> x in s && p(x)
  {
    FilterMembers(s, p);
    forall x ensures x in SortBy(Filter(s, p), le) <==> x in Filter(s, p) {
      assert x in SortBy(Filter(s, p), le) <==> x in multiset(SortBy(Filter(s, p), le));
      assert x in Filter(s, p) <==> x in multiset(Filter(s, p));
    }
  }

  lemma {:induction false} DistinctAtMostLength<T>(s: seq<T>)
    ensures |set x | x in s| <= |s|
  {
    if s != [] {
      DistinctAtMostLength(s[1..]);
      assert (set x | x in s) == {s[0]} + (set x | x in s[1..]);
    }
  }

  /** n pairwise distinct names that are all taken need a set of at least n names. */
  lemma {:induction false} Pigeonhole<T>(name: nat -> T, n: nat, taken: set<T>)
    requires forall j, k :: 0 <= j < k < n ==> name(j) != name(k)
    requires forall k :: 0 <= k < n ==> name(k) in taken
    ensures n <= |taken|
  {
    if n > 0 {
      Pigeonhole(name, n - 1, taken - {name(n - 1)});
    }
  }
}
