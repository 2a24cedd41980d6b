/** Comparing two JSON responses: a mutable list of differences, and the relation it decides. */
module ResponseCompare {
  import Text

  /** A decoded response; Python's int, float, Decimal and bool are told apart by type. */
  datatype Json =
    | Null
    | Bool(b: bool)
    | Int(n: int)
    | Float(f: real)
    | Decimal(d: real)
    | Str(s: string)
    | List(items: seq<Json>)
    | Dict(entries: map<string, Json>)

  datatype Difference =
    | NullMismatch(path: string, value1: Json, value2: Json)
    | TypeMismatch(path: string, value1: Json, value2: Json)
    | StringMismatch(path: string, value1: Json, value2: Json)
    | NumericMismatch(path: string, number1: real, number2: real)
    | LengthMismatch(path: string, length1: nat, length2: nat)
    | MissingInSecond(path: string, key: string, value1: Json)
    | MissingInFirst(path: string, key: string, value2: Json)

  predicate SameType(a: Json, b: Json) {
    match a
    case Null => b.Null?
    case Bool(_) => b.Bool?
    case Int(_) => b.Int?
    case Float(_) => b.Float?
    case Decimal(_) => b.Decimal?
    case Str(_) => b.Str?
    case List(_) => b.List?
    case Dict(_) => b.Dict?
  }

  /** In Python bool is a subclass of int, so booleans are compared as numbers too. */
  predicate IsNumber(a: Json) { a.Bool? || a.Int? || a.Float? || a.Decimal? }

  function Number(a: Json): real
    requires IsNumber(a)
  {
    match a
    case Bool(b) => if b then 1.0 else 0.0
    case Int(n) => n as real
    case Float(f) => f
    case Decimal(d) => d
  }

  function Distance(x: real, y: real): real { if x < y then y - x else x - y }

  function ChildPath(path: string, key: string): string { if path != "" then path + "." + key else key }

  function IndexPath(path: string, i: nat): string { path + "[" + Text.Dec(i) + "]" }

  // ---------------------------------------------------------------- the relation

  /** Equal up to `tolerance` at every number, and exactly equal everywhere else. */
  ghost predicate Similar(a: Json, b: Json, tolerance: real)
    decreases a
  {
    && SameType(a, b)
    && match a
       case Null => true
       case Str(s) => s == b.s
       case List(items) =>
         |items| == |b.items| && forall i :: 0 <= i < |items| ==> Similar(items[i], b.items[i], tolerance)
       case Dict(entries) =>
         entries.Keys == b.entries.Keys && forall k :: k in entries ==> Similar(entries[k], b.entries[k], tolerance)
       case _ => Distance(Number(a), Number(b)) <= tolerance
  }

  /** `d` is a difference between a and b, found at or below `path`. */
  ghost predicate Reports(a: Json, b: Json, path: string, tolerance: real, d: Difference)
    decreases a
  {
    if a.Null? || b.Null? then !(a.Null? && b.Null?) && d == NullMismatch(path, a, b)
    else if !SameType(a, b) then d == TypeMismatch(path, a, b)
    else if a.Str? then a.s != b.s && d == StringMismatch(path, a, b)
    else if a.List? then
      || (|a.items| != |b.items| && d == LengthMismatch(path, |a.items|, |b.items|))
      || exists i :: && 0 <= i < |a.items| && i < |b.items|
                     && Reports(a.items[i], b.items[i], IndexPath(path, i), tolerance, d)
    else if a.Dict? then
      || Missing(a.entries, b.entries, path, d)
      || exists k :: k in a.entries && k in b.entries
                     && Reports(a.entries[k], b.entries[k], ChildPath(path, k), tolerance, d)
    else Distance(Number(a), Number(b)) > tolerance && d == NumericMismatch(path, Number(a), Number(b))
  }

  /** A key that only one of the two dictionaries has. */
  ghost predicate Missing(a: map<string, Json>, b: map<string, Json>, path: string, d: Difference) {
    || (exists k :: k in a && k !in b && d == MissingInSecond(path + "." + k, k, a[k]))
    || (exists k :: k in b && k !in a && d == MissingInFirst(path + "." + k, k, b[k]))
  }

  // ---------------------------------------------------------------- the comparator

  class ResponseComparator {
    const tolerance: real
    var differences: seq<Difference>

    constructor (tolerance: real)
      ensures this.tolerance == tolerance && differences == []
    {
      this.tolerance := tolerance;
      differences := [];
    }

    /** The list has grown by exactly the differences between a and b below path. */
    twostate predicate Added(a: Json, b: Json, path: string)
      reads this
    {
      && old(differences) <= differences
      && forall d :: d in differences[|old(differences)|..] <==> Reports(a, b, path, tolerance, d)
    }

    method Compare(a: Json, b: Json) returns (same: bool)
      modifies this
      ensures same <==> Similar(a, b, tolerance)
      ensures forall d :: d in differences <==> Reports(a, b, "", tolerance, d)
    {
      differences := [];
      CompareRecursive(a, b, "");
      assert differences[0..] == differences;
      same := |differences| == 0;
      NoReportsIffSimilar(a, b, "", tolerance);
      if same {
        forall d ensures !Reports(a, b, "", tolerance, d) { assert d !in differences[0..]; }
      } else {
        assert differences[0] in differences[0..];
        assert Reports(a, b, "", tolerance, differences[0]);
      }
    }

    method CompareRecursive(a: Json, b: Json, path: string)
      modifies this
      ensures Added(a, b, path)
      decreases a, 1
    {
      if a.Null? && b.Null? {
        return;
      }
      if a.Null? || b.Null? {
        differences := differences + [NullMismatch(path, a, b)];
        return;
      }
      if !SameType(a, b) {
        differences := differences + [TypeMismatch(path, a, b)];
        return;
      }
      if a.Dict? {
        CompareDicts(a, b, path);
        return;
      }
      if a.List? {
        CompareLists(a, b, path);
        return;
      }
      if IsNumber(a) {
        if Distance(Number(a), Number(b)) > tolerance {
          differences := differences + [NumericMismatch(path, Number(a), Number(b))];
        }
        return;
      }
      if a.s != b.s {
        differences := differences + [StringMismatch(path, a, b)];
      }
    }

    method CompareLists(a: Json, b: Json, path: string)
      requires a.List? && b.List?
      modifies this
      ensures Added(a, b, path)
      decreases a, 0
    {
      ghost var start := |differences|;
      if |a.items| != |b.items| {
        differences := differences + [LengthMismatch(path, |a.items|, |b.items|)];
      }
      var shorter := if |a.items| < |b.items| then |a.items| else |b.items|;
      for i := 0 to shorter
        invariant old(differences) <= differences
        invariant forall d :: d in differences[start..] <==>
          || (|a.items| != |b.items| && d == LengthMismatch(path, |a.items|, |b.items|))
          || exists j :: 0 <= j < i && Reports(a.items[j], b.items[j], IndexPath(path, j), tolerance, d)
      {
        ghost var before := differences;
        CompareRecursive(a.items[i], b.items[i], IndexPath(path, i));
        assert differences[start..] == before[start..] + differences[|before|..];
      }
    }

    method CompareDicts(a: Json, b: Json, path: string)
      requires a.Dict? && b.Dict?
      modifies this
      ensures Added(a, b, path)
      decreases a, 0
    {
      ReportMissing(a, b, path);
      ghost var start := |old(differences)|;
      var common := a.entries.Keys * b.entries.Keys;
      var left := common;
      while left != {}
        invariant left <= common
        invariant old(differences) <= differences
        invariant forall d :: d in differences[start..] <==>
          || Missing(a.entries, b.entries, path, d)
          || exists k :: k in common - left && Reports(a.entries[k], b.entries[k], ChildPath(path, k), tolerance, d)
        decreases left
      {
        var key :| key in left;
        ghost var before := differences;
        CompareRecursive(a.entries[key], b.entries[key], ChildPath(path, key));
        assert differences[start..] == before[start..] + differences[|before|..];
        left := left - {key};
      }
    }

    method ReportMissing(a: Json, b: Json, path: string)
      requires a.Dict? && b.Dict?
      modifies this
      ensures old(differences) <= differences
      ensures forall d :: d in differences[|old(differences)|..] <==> Missing(a.entries, b.entries, path, d)
    {
      ghost var start := |differences|;
      var left := a.entries.Keys - b.entries.Keys;
      while left != {}
        invariant left <= a.entries.Keys - b.entries.Keys
        invariant old(differences) <= differences
        invariant forall d :: d in differences[start..] <==>
          exists k :: k in a.entries.Keys - b.entries.Keys - left
                      && d == MissingInSecond(path + "." + k, k, a.entries[k])
        decreases left
      {
        var key :| key in left;
        ghost var before := differences;
        differences := differences + [MissingInSecond(path + "." + key, key, a.entries[key])];
        assert differences[start..] == before[start..] + [MissingInSecond(path + "." + key, key, a.entries[key])];
        left := left - {key};
      }
      left := b.entries.Keys - a.entries.Keys;
      while left != {}
        invariant left <= b.entries.Keys - a.entries.Keys
        invariant old(differences) <= differences
        invariant forall d :: d in differences[start..] <==>
          || (exists k :: k in a.entries && k !in b.entries && d == MissingInSecond(path + "." + k, k, a.entries[k]))
          || (exists k :: k in b.entries.Keys - a.entries.Keys - left
                             && d == MissingInFirst(path + "." + k, k, b.entries[k]))
        decreases left
      {
        var key :| key in left;
        ghost var before := differences;
        differences := differences + [MissingInFirst(path + "." + key, key, b.entries[key])];
        assert differences[start..] == before[start..] + [MissingInFirst(path + "." + key, key, b.entries[key])];
        left := left - {key};
      }
    }
  }

  // ---------------------------------------------------------------- the list is empty exactly for similar responses

  lemma {:induction false} SimilarReportsNothing(a: Json, b: Json, path: string, tolerance: real, d: Difference)
    requires Similar(a, b, tolerance)
    ensures !Reports(a, b, path, tolerance, d)
    decreases a
  {
    if a.List? {
      forall i | 0 <= i < |a.items| ensures !Reports(a.items[i], b.items[i], IndexPath(path, i), tolerance, d) {
        SimilarReportsNothing(a.items[i], b.items[i], IndexPath(path, i), tolerance, d);
      }
    } else if a.Dict? {
      forall k | k in a.entries ensures !Reports(a.entries[k], b.entries[k], ChildPath(path, k), tolerance, d) {
        SimilarReportsNothing(a.entries[k], b.entries[k], ChildPath(path, k), tolerance, d);
      }
    }
  }

  lemma {:induction false} DissimilarReports(a: Json, b: Json, path: string, tolerance: real) returns (d: Difference)
    requires !Similar(a, b, tolerance)
    ensures Reports(a, b, path, tolerance, d)
    decreases a
  {
    if a.Null? || b.Null? {
      d := NullMismatch(path, a, b);
    } else if !SameType(a, b) {
      d := TypeMismatch(path, a, b);
    } else if a.Str? {
      d := StringMismatch(path, a, b);
    } else if a.List? {
      if |a.items| != |b.items| {
        d := LengthMismatch(path, |a.items|, |b.items|);
      } else {
        var i :| 0 <= i < |a.items| && !Similar(a.items[i], b.items[i], tolerance);
        d := DissimilarReports(a.items[i], b.items[i], IndexPath(path, i), tolerance);
      }
    } else if a.Dict? {
      if k :| k in a.entries && k !in b.entries {
        d := MissingInSecond(path + "." + k, k, a.entries[k]);
      } else if k :| k in b.entries && k !in a.entries {
        d := MissingInFirst(path + "." + k, k, b.entries[k]);
      } else {
        assert a.entries.Keys == b.entries.Keys;
        var k :| k in a.entries && !Similar(a.entries[k], b.entries[k], tolerance);
        d := DissimilarReports(a.entries[k], b.entries[k], ChildPath(path, k), tolerance);
      }
    } else {
      d := NumericMismatch(path, Number(a), Number(b));
    }
  }

  /** Main result: nothing is reported exactly when the responses are similar. */
  lemma NoReportsIffSimilar(a: Json, b: Json, path: string, tolerance: real)
    ensures (forall d :: !Reports(a, b, path, tolerance, d)) <==> Similar(a, b, tolerance)
  {
    if Similar(a, b, tolerance) {
      forall d ensures !Reports(a, b, path, tolerance, d) {
        SimilarReportsNothing(a, b, path, tolerance, d);
      }
    } else {
      var d := DissimilarReports(a, b, path, tolerance);
      assert Reports(a, b, path, tolerance, d);
    }
  }

  // ---------------------------------------------------------------- laws of the relation

  lemma {:induction false} SimilarReflexive(a: Json, tolerance: real)
    requires tolerance >= 0.0
    ensures Similar(a, a, tolerance)
    decreases a
  {
    if a.List? {
      forall i | 0 <= i < |a.items| ensures Similar(a.items[i], a.items[i], tolerance) {
        SimilarReflexive(a.items[i], tolerance);
      }
    } else if a.Dict? {
      forall k | k in a.entries ensures Similar(a.entries[k], a.entries[k], tolerance) {
        SimilarReflexive(a.entries[k], tolerance);
      }
    }
  }

  lemma {:induction false} SimilarSymmetric(a: Json, b: Json, tolerance: real)
    requires Similar(a, b, tolerance)
    ensures Similar(b, a, tolerance)
    decreases a
  {
    if a.List? {
      forall i | 0 <= i < |a.items| ensures Similar(b.items[i], a.items[i], tolerance) {
        SimilarSymmetric(a.items[i], b.items[i], tolerance);
      }
    } else if a.Dict? {
      forall k | k in b.entries ensures Similar(b.entries[k], a.entries[k], tolerance) {
        SimilarSymmetric(a.entries[k], b.entries[k], tolerance);
      }
    }
  }

  /** Tolerances add up along a chain of comparisons. */
  lemma {:induction false} SimilarComposes(a: Json, b: Json, c: Json, t1: real, t2: real)
    requires Similar(a, b, t1) && Similar(b, c, t2)
    ensures Similar(a, c, t1 + t2)
    decreases a
  {
    if a.List? {
      forall i | 0 <= i < |a.items| ensures Similar(a.items[i], c.items[i], t1 + t2) {
        SimilarComposes(a.items[i], b.items[i], c.items[i], t1, t2);
      }
    } else if a.Dict? {
      forall k | k in a.entries ensures Similar(a.entries[k], c.entries[k], t1 + t2) {
        SimilarComposes(a.entries[k], b.entries[k], c.entries[k], t1, t2);
      }
    }
  }

  /** At tolerance 0 the relation is equality. */
  lemma {:induction false} SimilarAtZeroIsEquality(a: Json, b: Json)
    ensures Similar(a, b, 0.0) <==> a == b
    decreases a
  {
    if a == b {
      SimilarReflexive(a, 0.0);
    }
    if Similar(a, b, 0.0) {
      if a.List? {
        forall i | 0 <= i < |a.items| ensures a.items[i] == b.items[i] {
          SimilarAtZeroIsEquality(a.items[i], b.items[i]);
        }
        assert a.items == b.items;
      } else if a.Dict? {
        forall k | k in a.entries ensures a.entries[k] == b.entries[k] {
          SimilarAtZeroIsEquality(a.entries[k], b.entries[k]);
        }
        assert a.entries == b.entries;
      }
    }
  }
}
