/** Where two responses differ: the reported differences, place by place, without recursion. */
module ResponsePlaces {
  import opened Wrappers
  import opened ResponseCompare
  import Text

  datatype Place = Key(k: string) | Index(i: nat)

  function Child(v: Json, p: Place): Option<Json> {
    match (v, p)
    case (Dict(entries), Key(k)) => if k in entries then Some(entries[k]) else None
    case (List(items), Index(i)) => if i < |items| then Some(items[i]) else None
    case _ => None
  }

  /** The places lead from v down to w. */
  predicate Reaches(v: Json, places: seq<Place>, w: Json)
    decreases |places|
  {
    if places == [] then v == w
    else Child(v, places[0]).Some? && Reaches(Child(v, places[0]).value, places[1..], w)
  }

  /** How the list of places is written, below `path`: keys with dots between them, positions in brackets. */
  function PathTo(path: string, places: seq<Place>): string
    decreases |places|
  {
    if places == [] then path
    else
      var next := match places[0]
        case Key(k) => if path == "" then k else path + "." + k
        case Index(i) => path + "[" + Text.Dec(i) + "]";
      PathTo(next, places[1..])
  }

  /** One of the two values of the same place has this key, and the other has not. */
  ghost predicate OnlyOneHas(x: map<string, Json>, y: map<string, Json>, path: string, d: Difference) {
    || (exists k :: k in x && k !in y && d == MissingInSecond(path + "." + k, k, x[k]))
    || (exists k :: k in y && k !in x && d == MissingInFirst(path + "." + k, k, y[k]))
  }

  ghost predicate BothNumbers(x: Json, y: Json) {
    (x.Bool? && y.Bool?) || (x.Int? && y.Int?) || (x.Float? && y.Float?) || (x.Decimal? && y.Decimal?)
  }

  /** The value a number counts as: in Python True is 1 and False is 0. */
  ghost predicate CountsAs(x: Json, m: real) {
    && (x == Bool(true) ==> m == 1.0) && (x == Bool(false) ==> m == 0.0)
    && (x.Int? ==> m == x.n as real) && (x.Float? ==> m == x.f) && (x.Decimal? ==> m == x.d)
  }

  /** What is told of x and y themselves, which stand at the same place. */
  ghost predicate Differ(x: Json, y: Json, path: string, tolerance: real, d: Difference) {
    match d
    case NullMismatch(p, v, w) => (p, v, w) == (path, x, y) && (x == Null || y == Null) && x != y
    case TypeMismatch(p, v, w) =>
      && (p, v, w) == (path, x, y) && x != Null && y != Null && !BothNumbers(x, y)
      && !(x.Str? && y.Str?) && !(x.List? && y.List?) && !(x.Dict? && y.Dict?)
    case StringMismatch(p, v, w) => (p, v, w) == (path, x, y) && x.Str? && y.Str? && x.s != y.s
    case NumericMismatch(p, m, n) =>
      && p == path && BothNumbers(x, y) && CountsAs(x, m) && CountsAs(y, n)
      && (m - n > tolerance || n - m > tolerance)
    case LengthMismatch(p, m, n) =>
      p == path && x.List? && y.List? && m == |x.items| && n == |y.items| && m != n
    case MissingInSecond(_, _, _) => x.Dict? && y.Dict? && OnlyOneHas(x.entries, y.entries, path, d)
    case MissingInFirst(_, _, _) => x.Dict? && y.Dict? && OnlyOneHas(x.entries, y.entries, path, d)
  }

  /** The difference is one between the two values of a place that both responses have. */
  ghost predicate DifferAt(a: Json, b: Json, path: string, tolerance: real, d: Difference, places: seq<Place>) {
    exists x, y :: Reaches(a, places, x) && Reaches(b, places, y) && Differ(x, y, PathTo(path, places), tolerance, d)
  }

  lemma HereReports(a: Json, b: Json, path: string, tolerance: real, d: Difference)
    requires Differ(a, b, path, tolerance, d)
    ensures Reports(a, b, path, tolerance, d)
  {
  }

  lemma BelowReports(a: Json, b: Json, path: string, tolerance: real, d: Difference, p: Place)
    requires Child(a, p).Some? && Child(b, p).Some?
    requires Reports(Child(a, p).value, Child(b, p).value, PathTo(path, [p]), tolerance, d)
    ensures Reports(a, b, path, tolerance, d)
  {
    match p
    case Key(k) => assert PathTo(path, [p]) == ChildPath(path, k);
    case Index(i) => assert PathTo(path, [p]) == IndexPath(path, i);
  }

  lemma PathOfFirst(path: string, places: seq<Place>)
    requires places != []
    ensures PathTo(PathTo(path, [places[0]]), places[1..]) == PathTo(path, places)
  {
    assert [places[0]][1..] == [];
  }

  lemma {:induction false} DifferAtReports(a: Json, b: Json, path: string, tolerance: real, d: Difference,
                                           places: seq<Place>)
    requires DifferAt(a, b, path, tolerance, d, places)
    ensures Reports(a, b, path, tolerance, d)
    decreases |places|
  {
    var x, y :| Reaches(a, places, x) && Reaches(b, places, y) && Differ(x, y, PathTo(path, places), tolerance, d);
    if places == [] {
      HereReports(a, b, path, tolerance, d);
    } else {
      var p := places[0];
      PathOfFirst(path, places);
      DifferAtReports(Child(a, p).value, Child(b, p).value, PathTo(path, [p]), tolerance, d, places[1..]);
      BelowReports(a, b, path, tolerance, d, p);
    }
  }

  lemma Here(a: Json, b: Json, path: string, tolerance: real, d: Difference)
    requires Differ(a, b, path, tolerance, d)
    ensures DifferAt(a, b, path, tolerance, d, [])
  {
    assert Reaches(a, [], a) && Reaches(b, [], b);
  }

  lemma Below(a: Json, b: Json, path: string, tolerance: real, d: Difference, p: Place, places: seq<Place>)
    requires Child(a, p).Some? && Child(b, p).Some?
    requires DifferAt(Child(a, p).value, Child(b, p).value, PathTo(path, [p]), tolerance, d, places)
    ensures DifferAt(a, b, path, tolerance, d, [p] + places)
  {
    var all := [p] + places;
    assert all[1..] == places;
    PathOfFirst(path, all);
    var x, y :| Reaches(Child(a, p).value, places, x) && Reaches(Child(b, p).value, places, y)
                && Differ(x, y, PathTo(PathTo(path, [p]), places), tolerance, d);
    assert Reaches(a, all, x) && Reaches(b, all, y);
  }

  lemma {:induction false} ReportsDifferAt(a: Json, b: Json, path: string, tolerance: real, d: Difference)
    returns (places: seq<Place>)
    requires Reports(a, b, path, tolerance, d)
    ensures DifferAt(a, b, path, tolerance, d, places)
    decreases a
  {
    if a.List? && b.List? && !(|a.items| != |b.items| && d == LengthMismatch(path, |a.items|, |b.items|)) {
      var i :| && 0 <= i < |a.items| && i < |b.items|
               && Reports(a.items[i], b.items[i], IndexPath(path, i), tolerance, d);
      places := ReportsDifferAt(a.items[i], b.items[i], IndexPath(path, i), tolerance, d);
      assert PathTo(path, [Index(i)]) == IndexPath(path, i);
      Below(a, b, path, tolerance, d, Index(i), places);
      places := [Index(i)] + places;
    } else if a.Dict? && b.Dict? && !Missing(a.entries, b.entries, path, d) {
      var k :| && k in a.entries && k in b.entries
               && Reports(a.entries[k], b.entries[k], ChildPath(path, k), tolerance, d);
      places := ReportsDifferAt(a.entries[k], b.entries[k], ChildPath(path, k), tolerance, d);
      assert PathTo(path, [Key(k)]) == ChildPath(path, k);
      Below(a, b, path, tolerance, d, Key(k), places);
      places := [Key(k)] + places;
    } else {
      places := [];
      Here(a, b, path, tolerance, d);
    }
  }

  /** Some place that both responses have tells them apart in the way of d. */
  ghost predicate Somewhere(a: Json, b: Json, path: string, tolerance: real, d: Difference) {
    exists places :: DifferAt(a, b, path, tolerance, d, places)
  }

  lemma ReportedSomewhere(a: Json, b: Json, path: string, tolerance: real, d: Difference)
    requires Reports(a, b, path, tolerance, d)
    ensures Somewhere(a, b, path, tolerance, d)
  {
    var places := ReportsDifferAt(a, b, path, tolerance, d);
  }

  lemma SomewhereReported(a: Json, b: Json, path: string, tolerance: real, d: Difference)
    requires Somewhere(a, b, path, tolerance, d)
    ensures Reports(a, b, path, tolerance, d)
  {
    var places :| DifferAt(a, b, path, tolerance, d, places);
    DifferAtReports(a, b, path, tolerance, d, places);
  }

  /** Main result: the comparator reports exactly the differences between the two values of some common place. */
  lemma ReportsIffSomewhere(a: Json, b: Json, path: string, tolerance: real, d: Difference)
    ensures Reports(a, b, path, tolerance, d) <==> Somewhere(a, b, path, tolerance, d)
  {
    if Somewhere(a, b, path, tolerance, d) {
      SomewhereReported(a, b, path, tolerance, d);
    } else if Reports(a, b, path, tolerance, d) {
      ReportedSomewhere(a, b, path, tolerance, d);
    }
  }

  /** So two responses compare as the same exactly if no place that both have tells them apart. */
  lemma SimilarIffNowhere(a: Json, b: Json, tolerance: real)
    ensures Similar(a, b, tolerance) <==> forall d :: !Somewhere(a, b, "", tolerance, d)
  {
    if Similar(a, b, tolerance) {
      forall d ensures !Somewhere(a, b, "", tolerance, d) {
        SimilarReportsNothing(a, b, "", tolerance, d);
        ReportsIffSomewhere(a, b, "", tolerance, d);
      }
    } else {
      var d := DissimilarReports(a, b, "", tolerance);
      ReportsIffSomewhere(a, b, "", tolerance, d);
    }
  }
}
