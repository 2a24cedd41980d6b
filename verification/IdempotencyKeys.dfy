/** The idempotency-key builders of the notification producers. */
module IdempotencyKeys {
  import opened Wrappers
  import opened Text

  /** A path id is an integer or a string. */
  datatype PathId = Number(n: int) | Name(s: string)

  datatype Subject =
    | CoursePublished(courseVersionId: Option<string>, courseId: Option<string>, versionNumber: Option<int>)
    | CertificateAwarded(certificateId: string)
    | PathUnlocked(pathId: PathId, course: string)
    | PathAssigned(pathId: PathId)
    | PathCompleted(pathId: PathId)

  /** What an f-string shows of a path id. */
  function Shown(p: PathId): string {
    match p
    case Number(n) => IntText(n)
    case Name(s) => s
  }

  /** Neither 0 nor the empty string. */
  predicate Given(p: PathId) { p != Number(0) && p != Name("") }

  predicate Truthy(s: Option<string>) { s.Some? && s.value != "" }

  function KindName(s: Subject): string {
    match s
    case CoursePublished(_, _, _) => "course_published:"
    case CertificateAwarded(_) => "certificate_awarded:"
    case PathUnlocked(_, _) => "learning_path_unlocked:"
    case PathAssigned(_) => "learning_path_assigned:"
    case PathCompleted(_) => "learning_path_completed:"
  }

  /** The part after the kind; None where the builder raises.  Certificates and paths also need a user. */
  function Rest(user: string, s: Subject): Option<string> {
    match s
    case CoursePublished(version, course, number) =>
      if Truthy(version) then version
      else if Truthy(course) && number.Some? then Some(course.value + (":v" + IntText(number.value)))
      else None
    case CertificateAwarded(id) => if user == "" || id == "" then None else Some(id)
    case PathUnlocked(path, course) =>
      if user == "" || !Given(path) || course == "" then None else Some(Shown(path) + (":" + course))
    case PathAssigned(path) => if user == "" || !Given(path) then None else Some(Shown(path))
    case PathCompleted(path) => if user == "" || !Given(path) then None else Some(Shown(path))
  }

  function Key(user: string, s: Subject): Option<string> {
    match Rest(user, s)
    case None => None
    case Some(rest) => Some(user + ":" + KindName(s) + rest)
  }

  // ---------------------------------------------------------------- kinds

  lemma KindsDiffer(a: Subject, b: Subject, x: string, y: string)
    requires KindName(a) + x == KindName(b) + y
    ensures KindName(a) == KindName(b)
  {
    var p, q := KindName(a) + x, KindName(b) + y;
    assert p[0] == KindName(a)[0] && q[0] == KindName(b)[0];
    assert p[1] == KindName(a)[1] && q[1] == KindName(b)[1];
    assert p[14] == KindName(a)[14] && q[14] == KindName(b)[14];
  }

  lemma TailOf(head: string, tail: string)
    ensures (head + tail)[|head|..] == tail
  {
  }

  lemma KeyTail(user: string, s: Subject)
    requires Key(user, s).Some?
    ensures Key(user, s).value == (user + ":") + (KindName(s) + Rest(user, s).value)
  {
    KeyParts(user + ":", KindName(s), Rest(user, s).value);
  }

  lemma KeyParts(head: string, kind: string, rest: string)
    ensures head + kind + rest == head + (kind + rest)
  {
  }

  /** For one user, keys of different kinds never coincide; equal keys have equal rests. */
  lemma SameKeySameKind(user: string, a: Subject, b: Subject)
    requires Key(user, a).Some? && Key(user, a) == Key(user, b)
    ensures KindName(a) == KindName(b) && Rest(user, a) == Rest(user, b)
  {
    KeyTail(user, a);
    KeyTail(user, b);
    var x, y := Rest(user, a).value, Rest(user, b).value;
    SameTail(user + ":", KindName(a) + x, KindName(b) + y);
    KindsDiffer(a, b, x, y);
    SameTail(KindName(a), x, y);
  }

  lemma SameTail(head: string, x: string, y: string)
    requires head + x == head + y
    ensures x == y
  {
    TailOf(head, x);
    TailOf(head, y);
  }

  // ---------------------------------------------------------------- within a kind

  predicate ColonFree(s: string) { ':' !in s }

  lemma IntTextColonFree(n: int)
    ensures ColonFree(IntText(n))
  {
    var t := IntText(n);
    forall i | 0 <= i < |t| ensures t[i] != ':' {
      if n < 0 && i > 0 {
        assert IsDigit(Dec(-n)[i - 1]);
      } else if n >= 0 {
        assert IsDigit(Dec(n)[i]);
      }
    }
  }

  /** A colon-free head is determined by the first colon. */
  lemma SplitAtFirstColon(a: string, x: string, b: string, y: string)
    requires ColonFree(a) && ColonFree(b) && a + (":" + x) == b + (":" + y)
    ensures a == b && x == y
  {
    var s, t := a + (":" + x), b + (":" + y);
    assert s[|a|] == ':' && t[|b|] == ':';
    if |a| == |b| {
      assert a == s[..|a|] && b == t[..|b|];
      assert x == s[|a| + 1..] && y == t[|b| + 1..];
    }
  }

  /** A colon-free tail is determined by the last colon. */
  lemma SplitAtLastColon(x: string, a: string, y: string, b: string)
    requires ColonFree(a) && ColonFree(b) && x + (":v" + a) == y + (":v" + b)
    ensures a == b && x == y
  {
    var s, t := x + (":v" + a), y + (":v" + b);
    assert |s| == |t| && s[|x|] == ':' && t[|y|] == ':';
    if |x| == |y| {
      assert x == s[..|x|] && y == t[..|y|];
      assert a == s[|x| + 2..] && b == t[|y| + 2..];
    }
  }

  /**
    What a subject's key is meant to identify: the version id if there is one, else course and
    number; of a path id its text.
   */
  function Identity(s: Subject): Subject {
    match s
    case CoursePublished(version, course, number) =>
      if Truthy(version) then CoursePublished(version, None, None) else CoursePublished(None, course, number)
    case CertificateAwarded(_) => s
    case PathUnlocked(path, course) => PathUnlocked(Name(Shown(path)), course)
    case PathAssigned(path) => PathAssigned(Name(Shown(path)))
    case PathCompleted(path) => PathCompleted(Name(Shown(path)))
  }

  /** Neither a version id nor the path id before a course may contain a colon; numbers never do. */
  predicate Plain(s: Subject) {
    match s
    case CoursePublished(version, _, _) => Truthy(version) ==> ColonFree(version.value)
    case PathUnlocked(path, _) => path.Name? ==> ColonFree(path.s)
    case _ => true
  }

  predicate ByVersion(s: Subject) { s.CoursePublished? && Truthy(s.courseVersionId) }

  predicate ByNumber(s: Subject) { s.CoursePublished? && !Truthy(s.courseVersionId) }

  /** The only possible clash: a version id that spells out a course id, ":v" and a number. */
  lemma VersionClashIff(user: string, a: Subject, b: Subject)
    requires Key(user, a).Some? && Key(user, b).Some? && ByVersion(a) && ByNumber(b)
    ensures Key(user, a) == Key(user, b)
            <==> a.courseVersionId.value == b.courseId.value + (":v" + IntText(b.versionNumber.value))
  {
    if Key(user, a) == Key(user, b) {
      SameKeySameKind(user, a, b);
    }
  }

  lemma SameNumbered(user: string, a: Subject, b: Subject)
    requires Key(user, a).Some? && Key(user, a) == Key(user, b) && ByNumber(a) && ByNumber(b)
    ensures Identity(a) == Identity(b)
  {
    SameKeySameKind(user, a, b);
    IntTextColonFree(a.versionNumber.value);
    IntTextColonFree(b.versionNumber.value);
    SplitAtLastColon(a.courseId.value, IntText(a.versionNumber.value),
                     b.courseId.value, IntText(b.versionNumber.value));
    IntTextInjective(a.versionNumber.value, b.versionNumber.value);
  }

  lemma MixedFormsDiffer(user: string, a: Subject, b: Subject)
    requires Key(user, a).Some? && Key(user, b).Some? && ByVersion(a) && ByNumber(b) && Plain(a)
    ensures Key(user, a) != Key(user, b)
  {
    VersionClashIff(user, a, b);
    var number := b.courseId.value + (":v" + IntText(b.versionNumber.value));
    assert number[|b.courseId.value|] == ':';
  }

  lemma PlainPath(p: PathId)
    requires p.Name? ==> ColonFree(p.s)
    ensures ColonFree(Shown(p))
  {
    if p.Number? { IntTextColonFree(p.n); }
  }

  lemma SamePaths(user: string, a: Subject, b: Subject)
    requires Key(user, a).Some? && Key(user, a) == Key(user, b) && !a.CoursePublished? && Plain(a) && Plain(b)
    ensures Identity(a) == Identity(b)
  {
    SameKeySameKind(user, a, b);
    if a.PathUnlocked? {
      assert b.PathUnlocked?;
      PlainPath(a.pathId);
      PlainPath(b.pathId);
      SplitAtFirstColon(Shown(a.pathId), a.course, Shown(b.pathId), b.course);
    }
  }

  /** One path id is the other, a colon and some text, and that text and a colon begin the other's course. */
  ghost predicate ColonShifted(p: string, x: string, q: string, y: string) {
    exists r :: q == p + (":" + r) && x == r + (":" + y)
  }

  lemma ShiftedTextsMeet(p: string, x: string, q: string, y: string)
    requires ColonShifted(p, x, q, y)
    ensures p + (":" + x) == q + (":" + y)
  {
    var r :| q == p + (":" + r) && x == r + (":" + y);
    assert p + (":" + (r + (":" + y))) == (p + (":" + r)) + (":" + y);
  }

  lemma MeetingTextsShift(p: string, x: string, q: string, y: string)
    requires p + (":" + x) == q + (":" + y) && |p| < |q|
    ensures ColonShifted(p, x, q, y)
  {
    var s := p + (":" + x);
    var r := q[|p| + 1..];
    assert s[..|q|] == q && s[|p|] == ':' && s[|q|] == ':';
    assert q == p + (":" + r);
    assert x == s[|p| + 1..] && y == s[|q| + 1..];
    assert x == r + (":" + y);
  }

  lemma SameLengthTexts(p: string, x: string, q: string, y: string)
    requires p + (":" + x) == q + (":" + y) && |p| == |q|
    ensures p == q && x == y
  {
    var s := p + (":" + x);
    assert s[..|p|] == p && s[..|q|] == q && s[|p| + 1..] == x && s[|q| + 1..] == y;
  }

  /** Keys of unlocked paths coincide exactly if id and course are the same or a colon has shifted between them. */
  lemma UnlockedClashIff(user: string, a: Subject, b: Subject)
    requires Key(user, a).Some? && Key(user, b).Some? && a.PathUnlocked? && b.PathUnlocked?
    ensures Key(user, a) == Key(user, b)
            <==> || (Shown(a.pathId) == Shown(b.pathId) && a.course == b.course)
                 || ColonShifted(Shown(a.pathId), a.course, Shown(b.pathId), b.course)
                 || ColonShifted(Shown(b.pathId), b.course, Shown(a.pathId), a.course)
  {
    var p, x, q, y := Shown(a.pathId), a.course, Shown(b.pathId), b.course;
    if Key(user, a) == Key(user, b) {
      SameKeySameKind(user, a, b);
      if |p| < |q| {
        MeetingTextsShift(p, x, q, y);
      } else if |q| < |p| {
        MeetingTextsShift(q, y, p, x);
      } else {
        SameLengthTexts(p, x, q, y);
      }
    } else if ColonShifted(p, x, q, y) {
      ShiftedTextsMeet(p, x, q, y);
    } else if ColonShifted(q, y, p, x) {
      ShiftedTextsMeet(q, y, p, x);
    }
  }

  /** Path "1:2" with course "3" and path 1 with course "2:3" have one key. */
  lemma ColonShiftClash(user: string)
    requires user != ""
    ensures var a, b := PathUnlocked(Name("1:2"), "3"), PathUnlocked(Number(1), "2:3");
            Key(user, a).Some? && Key(user, a) == Key(user, b) && Identity(a) != Identity(b)
  {
    assert Shown(Number(1)) == "1";
    assert "1:2" == "1" + (":" + "2") && "2:3" == "2" + (":" + "3");
    assert ColonShifted("1", "2:3", "1:2", "3");
    UnlockedClashIff(user, PathUnlocked(Name("1:2"), "3"), PathUnlocked(Number(1), "2:3"));
  }

  /** Main result: for one user, with colon-free version and path ids, equal keys mean the same subject. */
  lemma KeysAreInjective(user: string, a: Subject, b: Subject)
    requires Key(user, a).Some? && Key(user, b).Some? && Plain(a) && Plain(b)
    ensures Key(user, a) == Key(user, b) ==> Identity(a) == Identity(b)
  {
    if Key(user, a) == Key(user, b) {
      SameKeySameKind(user, a, b);
      if !a.CoursePublished? {
        SamePaths(user, a, b);
      } else if ByNumber(a) && ByNumber(b) {
        SameNumbered(user, a, b);
      } else if ByVersion(a) && ByNumber(b) {
        MixedFormsDiffer(user, a, b);
      } else if ByNumber(a) && ByVersion(b) {
        MixedFormsDiffer(user, b, a);
      }
    }
  }

  predicate NumberedPath(s: Subject) {
    match s
    case PathUnlocked(path, _) => path.Number?
    case PathAssigned(path) => path.Number?
    case PathCompleted(path) => path.Number?
    case _ => false
  }

  /** Integer path ids need no condition: equal keys mean equal subjects. */
  lemma NumberedPathsAreInjective(user: string, a: Subject, b: Subject)
    requires Key(user, a).Some? && Key(user, a) == Key(user, b) && NumberedPath(a) && NumberedPath(b)
    ensures a == b
  {
    SamePaths(user, a, b);
    IntTextInjective(a.pathId.n, b.pathId.n);
  }

  // ---------------------------------------------------------------- the keys as texts

  ghost predicate Blank(s: Option<string>) { s == None || s == Some("") }

  /** The key of a published course: a version id comes before course and number. */
  lemma PublishedKey(user: string, version: Option<string>, course: Option<string>, number: Option<int>)
    ensures var key := Key(user, CoursePublished(version, course, number));
            && (!Blank(version) ==> key == Some((user + ":") + ("course_published:" + version.value)))
            && (Blank(version) && !Blank(course) && number.Some?
                ==> key == Some((user + ":")
                                + ("course_published:" + (course.value + (":v" + IntText(number.value))))))
            && (key == None <==> Blank(version) && (Blank(course) || number == None))
  {
    if Key(user, CoursePublished(version, course, number)).Some? {
      KeyTail(user, CoursePublished(version, course, number));
    }
  }

  lemma TailKey(user: string, s: Subject)
    ensures Key(user, s) == match Rest(user, s)
                            case None => None
                            case Some(rest) => Some((user + ":") + (KindName(s) + rest))
  {
    if Key(user, s).Some? {
      KeyTail(user, s);
    }
  }

  /** The other kinds, which raise without a user, and without what identifies the subject. */
  lemma OtherKeys(user: string, id: string, path: PathId, course: string)
    ensures var known := user != "" && path != Number(0) && path != Name("");
            var shown := if path.Number? then IntText(path.n) else path.s;
            && Key(user, CertificateAwarded(id))
               == (if user != "" && id != "" then Some((user + ":") + ("certificate_awarded:" + id)) else None)
            && Key(user, PathUnlocked(path, course))
               == (if known && course != ""
                   then Some((user + ":") + ("learning_path_unlocked:" + (shown + (":" + course)))) else None)
            && Key(user, PathAssigned(path))
               == (if known then Some((user + ":") + ("learning_path_assigned:" + shown)) else None)
            && Key(user, PathCompleted(path))
               == (if known then Some((user + ":") + ("learning_path_completed:" + shown)) else None)
  {
    TailKey(user, CertificateAwarded(id));
    TailKey(user, PathUnlocked(path, course));
    TailKey(user, PathAssigned(path));
    TailKey(user, PathCompleted(path));
  }
}
