/** The string operations the repositories rely on, over ASCII. */
module Text {
  // ---------------------------------------------------------------- decimal numerals

  function Digit(d: nat): char
    requires d < 10
  {
    '0' + d as char
  }

  predicate IsDigit(c: char) { '0' <= c <= '9' }

  /** str(n) */
  function Dec(n: nat): (r: string)
    ensures r != [] && forall i :: 0 <= i < |r| ==> IsDigit(r[i])
  {
    if n < 10 then [Digit(n)] else Dec(n / 10) + [Digit(n % 10)]
  }

  function Value(s: string): nat
    requires forall i :: 0 <= i < |s| ==> IsDigit(s[i])
  {
    if s == [] then 0
    else
      var last := s[|s| - 1];
      assert IsDigit(last);
      10 * Value(s[..|s| - 1]) + (last as int - '0' as int)
  }

  lemma {:induction false} ValueOfDec(n: nat)
    ensures Value(Dec(n)) == n
  {
    if n >= 10 {
      ValueOfDec(n / 10);
      assert Dec(n)[..|Dec(n)| - 1] == Dec(n / 10);
    } else {
      assert Dec(n)[..0] == [];
    }
  }

  /** Different numbers are written differently. */
  lemma DecInjective(m: nat, n: nat)
    ensures Dec(m) == Dec(n) ==> m == n
  {
    ValueOfDec(m);
    ValueOfDec(n);
  }

  /** str(n) for any integer. */
  function IntText(n: int): string { if n < 0 then "-" + Dec(-n) else Dec(n) }

  lemma SignShows(n: int)
    ensures IntText(n) != "" && (IntText(n)[0] == '-' <==> n < 0)
    ensures n < 0 ==> IntText(n)[1..] == Dec(-n)
  {
    if n >= 0 {
      assert IsDigit(Dec(n)[0]);
    }
  }

  lemma IntTextInjective(m: int, n: int)
    ensures IntText(m) == IntText(n) ==> m == n
  {
    SignShows(m);
    SignShows(n);
    if m < 0 && n < 0 {
      DecInjective(-m, -n);
    } else if m >= 0 && n >= 0 {
      DecInjective(m, n);
    }
  }

  // ---------------------------------------------------------------- strip and lower

  /** The ASCII characters str.strip removes. */
  predicate IsSpace(c: char) {
    ('\t' <= c <= '\r') || ('\U{1c}' <= c <= ' ')
  }

  function LowerChar(c: char): char {
    if 'A' <= c <= 'Z' then c - 'A' + 'a' else c
  }

  function Lower(s: string): string {
    seq(|s|, i requires 0 <= i < |s| => LowerChar(s[i]))
  }

  function StripLeft(s: string): string {
    if s != [] && IsSpace(s[0]) then StripLeft(s[1..]) else s
  }

  function StripRight(s: string): string {
    if s != [] && IsSpace(s[|s| - 1]) then StripRight(s[..|s| - 1]) else s
  }

  function Strip(s: string): string { StripRight(StripLeft(s)) }

  /** How e-mail addresses, usernames and slugs are normalised before they are looked up. */
  function Normal(s: string): string { Lower(Strip(s)) }

  predicate Trimmed(s: string) {
    s == [] || (!IsSpace(s[0]) && !IsSpace(s[|s| - 1]))
  }

  lemma LowerFacts(s: string)
    ensures Lower(Lower(s)) == Lower(s)
    ensures forall i :: 0 <= i < |s| ==> (IsSpace(Lower(s)[i]) <==> IsSpace(s[i]))
  {
  }

  lemma {:induction false} LowerStripLeft(s: string)
    ensures StripLeft(Lower(s)) == Lower(StripLeft(s))
  {
    LowerFacts(s);
    if s != [] && IsSpace(s[0]) {
      assert Lower(s)[1..] == Lower(s[1..]);
      LowerStripLeft(s[1..]);
    }
  }

  lemma {:induction false} LowerStripRight(s: string)
    ensures StripRight(Lower(s)) == Lower(StripRight(s))
  {
    LowerFacts(s);
    if s != [] && IsSpace(s[|s| - 1]) {
      assert Lower(s)[..|s| - 1] == Lower(s[..|s| - 1]);
      LowerStripRight(s[..|s| - 1]);
    }
  }

  /** The source writes both lower().strip() and strip().lower(); they agree. */
  lemma LowerThenStrip(s: string)
    ensures Strip(Lower(s)) == Normal(s)
  {
    LowerStripLeft(s);
    LowerStripRight(StripLeft(s));
  }

  lemma {:induction false} StripLeftTrims(s: string)
    ensures StripLeft(s) != [] ==> !IsSpace(StripLeft(s)[0])
  {
    if s != [] && IsSpace(s[0]) {
      StripLeftTrims(s[1..]);
    }
  }

  lemma {:induction false} StripRightTrims(s: string)
    requires s != [] ==> !IsSpace(s[0])
    ensures Trimmed(StripRight(s))
  {
    if s != [] && IsSpace(s[|s| - 1]) {
      StripRightTrims(s[..|s| - 1]);
    }
  }

  lemma NormalOfTrimmed(s: string)
    requires Trimmed(s)
    ensures Normal(s) == Lower(s)
  {
  }

  lemma NormalIsTrimmed(s: string)
    ensures Trimmed(Normal(s)) && Lower(Normal(s)) == Normal(s)
  {
    StripLeftTrims(s);
    StripRightTrims(StripLeft(s));
    LowerFacts(Strip(s));
  }

  /** Normalising twice is normalising once. */
  lemma NormalIdempotent(s: string)
    ensures Normal(Normal(s)) == Normal(s)
  {
    NormalIsTrimmed(s);
    NormalOfTrimmed(Normal(s));
  }

  // ---------------------------------------------------------------- slugs

  predicate IsAlnum(c: char) {
    IsDigit(c) || ('a' <= c <= 'z') || ('A' <= c <= 'Z')
  }

  function CleanChar(c: char): char { if IsAlnum(c) then LowerChar(c) else '-' }

  function Clean(s: string): string {
    seq(|s|, i requires 0 <= i < |s| => CleanChar(s[i]))
  }

  /** s.split('-') without the empty parts. */
  function Parts(s: string): seq<string> {
    PartsFrom(s, "")
  }

  /** Splitting `s` when `part` has been read since the last hyphen. */
  function PartsFrom(s: string, part: string): seq<string> {
    if s == [] then (if part == "" then [] else [part])
    else if s[0] == '-' then (if part == "" then [] else [part]) + PartsFrom(s[1..], "")
    else PartsFrom(s[1..], part + [s[0]])
  }

  /** "-".join(parts) */
  function Join(parts: seq<string>): string {
    if parts == [] then ""
    else if |parts| == 1 then parts[0]
    else parts[0] + "-" + Join(parts[1..])
  }

  function Slugify(s: string): string { Join(Parts(Clean(s))) }

  predicate SlugChar(c: char) { IsDigit(c) || 'a' <= c <= 'z' }

  predicate IsPart(p: string) {
    p != "" && forall i :: 0 <= i < |p| ==> SlugChar(p[i])
  }

  predicate AllParts(parts: seq<string>) {
    forall i :: 0 <= i < |parts| ==> IsPart(parts[i])
  }

  lemma {:induction false} PartsAreParts(s: string, part: string)
    requires forall i :: 0 <= i < |s| ==> s[i] == '-' || SlugChar(s[i])
    requires forall i :: 0 <= i < |part| ==> SlugChar(part[i])
    ensures AllParts(PartsFrom(s, part))
    decreases |s|
  {
    if s != [] {
      if s[0] == '-' {
        PartsAreParts(s[1..], "");
      } else {
        PartsAreParts(s[1..], part + [s[0]]);
      }
    }
  }

  lemma {:induction false} JoinChars(parts: seq<string>)
    requires AllParts(parts)
    ensures forall i :: 0 <= i < |Join(parts)| ==> Join(parts)[i] == '-' || SlugChar(Join(parts)[i])
    ensures parts != [] ==> Join(parts) != "" && SlugChar(Join(parts)[0]) && SlugChar(Join(parts)[|Join(parts)| - 1])
  {
    if |parts| > 1 {
      JoinChars(parts[1..]);
    }
  }

  /** Reading through a hyphen-free stretch just extends the current part. */
  lemma {:induction false} ReadPart(p: string, rest: string, part: string)
    requires forall i :: 0 <= i < |p| ==> SlugChar(p[i])
    ensures PartsFrom(p + rest, part) == PartsFrom(rest, part + p)
    decreases |p|
  {
    if p == [] {
      assert p + rest == rest && part + p == part;
    } else {
      assert (p + rest)[1..] == p[1..] + rest;
      assert (part + [p[0]]) + p[1..] == part + p;
      ReadPart(p[1..], rest, part + [p[0]]);
    }
  }

  lemma {:induction false} SplitJoin(parts: seq<string>)
    requires AllParts(parts)
    ensures Parts(Join(parts)) == parts
  {
    if |parts| == 1 {
      ReadPart(parts[0], "", "");
      assert parts[0] + "" == parts[0] && "" + parts[0] == parts[0];
    } else if |parts| > 1 {
      var rest := "-" + Join(parts[1..]);
      ReadPart(parts[0], rest, "");
      assert parts[0] + "-" + Join(parts[1..]) == parts[0] + rest;
      assert "" + parts[0] == parts[0];
      assert rest[1..] == Join(parts[1..]);
      SplitJoin(parts[1..]);
    }
  }

  lemma CleanFacts(s: string)
    ensures forall i :: 0 <= i < |s| ==> Clean(s)[i] == '-' || SlugChar(Clean(s)[i])
    ensures (forall i :: 0 <= i < |s| ==> s[i] == '-' || SlugChar(s[i])) ==> Clean(s) == s
  {
  }

  /** A slug consists of lower-case letters, digits and inner hyphens, so normalising leaves it alone. */
  lemma SlugIsNormal(s: string)
    ensures Normal(Slugify(s)) == Slugify(s)
    ensures forall i :: 0 <= i < |Slugify(s)| ==> Slugify(s)[i] == '-' || SlugChar(Slugify(s)[i])
  {
    CleanFacts(s);
    PartsAreParts(Clean(s), "");
    JoinChars(Parts(Clean(s)));
    NormalOfTrimmed(Slugify(s));
  }

  /** A slug is its own slug. */
  lemma SlugifyIdempotent(s: string)
    ensures Slugify(Slugify(s)) == Slugify(s)
  {
    SlugIsNormal(s);
    CleanFacts(s);
    CleanFacts(Slugify(s));
    PartsAreParts(Clean(s), "");
    SplitJoin(Parts(Clean(s)));
  }

  /** The two character classes, character by character. */
  lemma CharacterClasses(c: char)
    ensures IsAlnum(c) <==> c in "0123456789" || c in "abcdefghijklmnopqrstuvwxyz" || c in "ABCDEFGHIJKLMNOPQRSTUVWXYZ"
    ensures IsSpace(c) <==> c in "\t\n\r " || c == '\U{0b}' || c == '\U{0c}'
                            || c in {'\U{1c}', '\U{1d}', '\U{1e}', '\U{1f}'}
  {
    SomeDigit(c);
    SomeLetter(c);
    var spaces := "\t\n\r ";
    assert spaces[0] == '\t' && spaces[1] == '\n' && spaces[2] == '\r' && spaces[3] == ' ';
  }

  lemma SomeDigit(c: char)
    ensures c in "0123456789" <==> '0' <= c <= '9'
  {
    var digits := "0123456789";
    assert forall i :: 0 <= i < 10 ==> digits[i] as int == '0' as int + i;
    if '0' <= c <= '9' {
      assert digits[c as int - '0' as int] == c;
    }
  }

  lemma SomeLetter(c: char)
    ensures c in "abcdefghijklmnopqrstuvwxyz" <==> 'a' <= c <= 'z'
    ensures c in "ABCDEFGHIJKLMNOPQRSTUVWXYZ" <==> 'A' <= c <= 'Z'
  {
    var small, large := "abcdefghijklmnopqrstuvwxyz", "ABCDEFGHIJKLMNOPQRSTUVWXYZ";
    assert forall i :: 0 <= i < 26 ==> small[i] as int == 'a' as int + i && large[i] as int == 'A' as int + i;
    if 'a' <= c <= 'z' {
      assert small[c as int - 'a' as int] == c;
    }
    if 'A' <= c <= 'Z' {
      assert large[c as int - 'A' as int] == c;
    }
  }

  // ---------------------------------------------------------------- what a slug keeps of the text

  /** The letters and digits of a text, lower-cased, in order. */
  function Letters(s: string): string {
    if s == [] then [] else (if IsAlnum(s[0]) then [LowerChar(s[0])] else []) + Letters(s[1..])
  }

  /** For each letter or digit but the first, whether anything separates it from the one before. */
  function Gaps(s: string): seq<bool> {
    GapsFrom(s, false, false)
  }

  /** The same from a point where a letter has been `seen`, with a `gap` since the last one. */
  function GapsFrom(s: string, seen: bool, gap: bool): seq<bool> {
    if s == [] then []
    else if IsAlnum(s[0]) then (if seen then [gap] else []) + GapsFrom(s[1..], true, false)
    else GapsFrom(s[1..], seen, true)
  }

  /** Hyphens stand alone and inside. */
  ghost predicate InnerHyphens(s: string) {
    forall i :: 0 <= i < |s| && s[i] == '-' ==> 0 < i < |s| - 1 && s[i + 1] != '-'
  }

  lemma {:induction false} CleanKeeps(s: string, seen: bool, gap: bool)
    ensures Letters(Clean(s)) == Letters(s) && GapsFrom(Clean(s), seen, gap) == GapsFrom(s, seen, gap)
  {
    if s != [] {
      assert Clean(s)[1..] == Clean(s[1..]);
      CleanKeeps(s[1..], true, false);
      CleanKeeps(s[1..], seen, true);
    }
  }

  lemma {:induction false} LettersConcat(a: string, b: string)
    ensures Letters(a + b) == Letters(a) + Letters(b)
  {
    if a == [] {
      assert a + b == b;
    } else {
      assert (a + b)[1..] == a[1..] + b && (a + b)[0] == a[0];
      LettersConcat(a[1..], b);
      var first := if IsAlnum(a[0]) then [LowerChar(a[0])] else [];
      assert first + (Letters(a[1..]) + Letters(b)) == (first + Letters(a[1..])) + Letters(b);
    }
  }

  lemma {:induction false} GapsThrough(p: string, rest: string, seen: bool, gap: bool)
    requires IsPart(p)
    ensures GapsFrom(p + rest, seen, gap) == GapsFrom(p, seen, gap) + GapsFrom(rest, true, false)
    decreases |p|
  {
    assert (p + rest)[1..] == p[1..] + rest;
    if |p| == 1 {
      assert p[1..] + rest == rest;
    } else {
      GapsThrough(p[1..], rest, true, false);
    }
  }

  lemma {:induction false} FirstHasNoGap(s: string, gap: bool)
    ensures GapsFrom(s, false, gap) == GapsFrom(s, false, false)
    decreases |s|
  {
    if s != [] && !IsAlnum(s[0]) {
      FirstHasNoGap(s[1..], true);
      FirstHasNoGap(s[1..], gap);
    }
  }

  lemma JoinHead(p: string, parts: seq<string>)
    ensures Join([p] + parts) == if parts == [] then p else p + ("-" + Join(parts))
  {
    assert ([p] + parts)[1..] == parts;
    if parts != [] {
      assert p + "-" + Join(parts) == p + ("-" + Join(parts));
    }
  }

  ghost predicate Cleaned(s: string) { forall i :: 0 <= i < |s| ==> s[i] == '-' || SlugChar(s[i]) }

  /** What is read so far and what is left keep their letters when they are split and joined. */
  lemma {:induction false} JoinKeepsLetters(s: string, part: string)
    requires Cleaned(s)
    ensures Letters(Join(PartsFrom(s, part))) == Letters(part + s)
    decreases |s|
  {
    if s == [] {
      assert part + s == part;
    } else if s[0] == '-' {
      var parts := PartsFrom(s[1..], "");
      JoinKeepsLetters(s[1..], "");
      assert "" + s[1..] == s[1..] && [part] + parts == [part] + parts;
      LettersConcat(part, s);
      JoinHead(part, parts);
      LettersConcat(part, "-" + Join(parts));
      assert ("-" + Join(parts))[1..] == Join(parts);
      assert [] + parts == parts;
    } else {
      assert part + [s[0]] + s[1..] == part + s;
      JoinKeepsLetters(s[1..], part + [s[0]]);
    }
  }

  lemma {:induction false} JoinKeepsGaps(s: string, part: string, seen: bool, gap: bool)
    requires Cleaned(s) && (part == "" || IsPart(part)) && (part == "" && seen ==> gap)
    ensures GapsFrom(Join(PartsFrom(s, part)), seen, gap) == GapsFrom(part + s, seen, gap)
    decreases |s|
  {
    if s == [] {
      assert part + s == part;
    } else if s[0] == '-' {
      HyphenKeepsGaps(s, part, seen, gap);
    } else {
      assert part + [s[0]] + s[1..] == part + s;
      JoinKeepsGaps(s[1..], part + [s[0]], seen, gap);
    }
  }

  lemma {:induction false} HyphenKeepsGaps(s: string, part: string, seen: bool, gap: bool)
    requires Cleaned(s) && s != [] && s[0] == '-'
    requires (part == "" || IsPart(part)) && (part == "" && seen ==> gap)
    ensures GapsFrom(Join(PartsFrom(s, part)), seen, gap) == GapsFrom(part + s, seen, gap)
    decreases |s|, 0
  {
    var parts := PartsFrom(s[1..], "");
    assert "" + s[1..] == s[1..];
    if part == "" {
      assert [] + parts == parts && part + s == s;
      JoinKeepsGaps(s[1..], "", seen, gap);
      if !seen {
        FirstHasNoGap(s[1..], gap);
        FirstHasNoGap(s[1..], true);
      }
    } else {
      JoinKeepsGaps(s[1..], "", true, true);
      JoinHead(part, parts);
      GapsThrough(part, s, seen, gap);
      var rest := "-" + Join(parts);
      GapsThrough(part, rest, seen, gap);
      assert rest[1..] == Join(parts);
      assert GapsFrom(part, seen, gap) + [] == GapsFrom(part, seen, gap);
    }
  }

  lemma {:induction false} JoinInnerHyphens(parts: seq<string>)
    requires AllParts(parts)
    ensures InnerHyphens(Join(parts))
  {
    if |parts| > 1 {
      JoinInnerHyphens(parts[1..]);
      JoinChars(parts[1..]);
    }
  }

  /**
    A slug consists of the letters and digits of the text, lower-cased and in order, and of hyphens
    that stand one by one exactly where the text separates two of them.
   */
  lemma SlugKeepsLetters(s: string)
    ensures Letters(Slugify(s)) == Letters(s)
    ensures Gaps(Slugify(s)) == Gaps(s)
    ensures InnerHyphens(Slugify(s))
  {
    CleanFacts(s);
    CleanKeeps(s, false, false);
    assert "" + Clean(s) == Clean(s);
    JoinKeepsLetters(Clean(s), "");
    JoinKeepsGaps(Clean(s), "", false, false);
    PartsAreParts(Clean(s), "");
    JoinInnerHyphens(Parts(Clean(s)));
  }

  // ---------------------------------------------------------------- what normalising keeps of the text

  ghost predicate Spaces(s: string) { forall i :: 0 <= i < |s| ==> IsSpace(s[i]) }

  lemma {:induction false} StripLeftDrops(s: string) returns (left: string)
    ensures s == left + StripLeft(s) && Spaces(left)
  {
    if s != [] && IsSpace(s[0]) {
      left := StripLeftDrops(s[1..]);
      left := [s[0]] + left;
    } else {
      left := "";
    }
  }

  lemma {:induction false} StripRightDrops(s: string) returns (right: string)
    ensures s == StripRight(s) + right && Spaces(right)
  {
    if s != [] && IsSpace(s[|s| - 1]) {
      right := StripRightDrops(s[..|s| - 1]);
      right := right + [s[|s| - 1]];
      assert s == s[..|s| - 1] + [s[|s| - 1]];
    } else {
      right := "";
    }
  }

  /** Normalising drops the outer spaces, and only those, and lower-cases what stands between them. */
  lemma NormalKeeps(s: string) returns (left: string, middle: string, right: string)
    ensures s == left + middle + right && Spaces(left) && Spaces(right) && Trimmed(middle)
    ensures |Normal(s)| == |middle|
    ensures forall i :: 0 <= i < |middle| ==>
              Normal(s)[i] == if 'A' <= middle[i] <= 'Z' then middle[i] + ('a' - 'A') else middle[i]
  {
    left := StripLeftDrops(s);
    right := StripRightDrops(StripLeft(s));
    middle := Strip(s);
    StripLeftTrims(s);
    StripRightTrims(StripLeft(s));
    assert left + (middle + right) == left + middle + right;
  }
}
