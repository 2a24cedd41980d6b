/**
  Timestamps kept as text: "%Y-%m-%d %H:%M:%S" strings are compared as strings, and one clean-up
  job compares them with a "%Y-%m-%d %H:%M" string.
 */
module Timestamps {
  import opened Text

  datatype DateTime = DateTime(year: nat, month: nat, day: nat, hour: nat, minute: nat, second: nat)

  predicate IsLeap(y: nat) { y % 4 == 0 && (y % 100 != 0 || y % 400 == 0) }

  function DaysInMonth(y: nat, m: nat): nat {
    if m == 2 then (if IsLeap(y) then 29 else 28) else if m in {4, 6, 9, 11} then 30 else 31
  }

  /** A moment of the Gregorian calendar with a four-digit year. */
  predicate Valid(t: DateTime) {
    && 1000 <= t.year <= 9999 && 1 <= t.month <= 12 && 1 <= t.day <= DaysInMonth(t.year, t.month)
    && t.hour < 24 && t.minute < 60 && t.second < 60
  }

  // ---------------------------------------------------------------- text

  /** The last `width` decimal digits of n, with leading zeros. */
  function Pad(n: nat, width: nat): (r: string)
    ensures |r| == width
  {
    if width == 0 then "" else Pad(n / 10, width - 1) + [Digit(n % 10)]
  }

  /** strftime("%Y-%m-%d %H:%M") */
  function RenderMinute(t: DateTime): string {
    Pad(t.year, 4)
    + ("-" + (Pad(t.month, 2) + ("-" + (Pad(t.day, 2) + (" " + (Pad(t.hour, 2) + (":" + Pad(t.minute, 2))))))))
  }

  /** strftime("%Y-%m-%d %H:%M:%S") */
  function Render(t: DateTime): string { RenderMinute(t) + (":" + Pad(t.second, 2)) }

  /** Python's and SQL's string order on these characters. */
  predicate StrLess(a: string, b: string) {
    b != "" && (a == "" || a[0] < b[0] || (a[0] == b[0] && StrLess(a[1..], b[1..])))
  }

  lemma {:induction false} StrIrreflexive(a: string)
    ensures !StrLess(a, a)
  {
    if a != "" {
      StrIrreflexive(a[1..]);
    }
  }

  lemma {:induction false} StrTotal(a: string, b: string)
    ensures StrLess(a, b) || a == b || StrLess(b, a)
    ensures !(StrLess(a, b) && StrLess(b, a))
  {
    if a != "" && b != "" {
      StrTotal(a[1..], b[1..]);
      assert a == [a[0]] + a[1..] && b == [b[0]] + b[1..];
    }
  }

  /** Strings with heads of one length compare by their heads first. */
  lemma {:induction false} StrLessHeads(x: string, s: string, y: string, t: string)
    requires |x| == |y|
    ensures StrLess(x + s, y + t) <==> StrLess(x, y) || (x == y && StrLess(s, t))
  {
    if x == "" {
      assert x + s == s && y + t == t;
    } else {
      assert (x + s)[1..] == x[1..] + s && (y + t)[1..] == y[1..] + t;
      assert x == [x[0]] + x[1..] && y == [y[0]] + y[1..];
      StrLessHeads(x[1..], s, y[1..], t);
    }
  }

  function Power10(n: nat): nat { if n == 0 then 1 else 10 * Power10(n - 1) }

  /** Numbers that fit are ordered as their zero-padded texts are. */
  lemma {:induction false} PadOrder(m: nat, n: nat, width: nat)
    requires m < Power10(width) && n < Power10(width)
    ensures StrLess(Pad(m, width), Pad(n, width)) <==> m < n
    ensures Pad(m, width) == Pad(n, width) <==> m == n
  {
    if width > 0 {
      PadOrder(m / 10, n / 10, width - 1);
      StrLessHeads(Pad(m / 10, width - 1), [Digit(m % 10)], Pad(n / 10, width - 1), [Digit(n % 10)]);
      SingleDigits(m % 10, n % 10);
      var p, q := Pad(m, width), Pad(n, width);
      assert p[..width - 1] == Pad(m / 10, width - 1) && q[..width - 1] == Pad(n / 10, width - 1);
      assert p[width - 1] == Digit(m % 10) && q[width - 1] == Digit(n % 10);
    }
  }

  lemma SingleDigits(c: nat, d: nat)
    requires c < 10 && d < 10
    ensures StrLess([Digit(c)], [Digit(d)]) <==> c < d
    ensures Digit(c) == Digit(d) <==> c == d
  {
    assert [Digit(c)][1..] == "" && [Digit(d)][1..] == "";
  }

  /** One field of a timestamp followed by a separator and the remaining fields. */
  lemma FieldOrder(m: nat, n: nat, width: nat, sep: char, s: string, t: string)
    requires m < Power10(width) && n < Power10(width)
    ensures StrLess(Pad(m, width) + ([sep] + s), Pad(n, width) + ([sep] + t)) <==> m < n || (m == n && StrLess(s, t))
  {
    PadOrder(m, n, width);
    StrLessHeads(Pad(m, width), [sep] + s, Pad(n, width), [sep] + t);
    StrLessHeads([sep], s, [sep], t);
    StrIrreflexive([sep]);
  }

  // ---------------------------------------------------------------- calendar order

  predicate MinuteLess(a: DateTime, b: DateTime) {
    || a.year < b.year
    || (a.year == b.year && (|| a.month < b.month
                             || (a.month == b.month && (|| a.day < b.day
                                                        || (a.day == b.day && TimeLess(a, b))))))
  }

  predicate TimeLess(a: DateTime, b: DateTime) {
    a.hour < b.hour || (a.hour == b.hour && a.minute < b.minute)
  }

  predicate SameMinute(a: DateTime, b: DateTime) { a.(second := 0) == b.(second := 0) }

  lemma Widths()
    ensures Power10(2) == 100 && Power10(4) == 10000
  {
    assert Power10(1) == 10 && Power10(2) == 100 && Power10(3) == 1000;
  }

  lemma RenderMinuteOrder(a: DateTime, b: DateTime)
    requires Valid(a) && Valid(b)
    ensures StrLess(RenderMinute(a), RenderMinute(b)) <==> MinuteLess(a, b)
  {
    Widths();
    var a1, b1 := Pad(a.minute, 2), Pad(b.minute, 2);
    var a2, b2 := Pad(a.hour, 2) + (":" + a1), Pad(b.hour, 2) + (":" + b1);
    var a3, b3 := Pad(a.day, 2) + (" " + a2), Pad(b.day, 2) + (" " + b2);
    var a4, b4 := Pad(a.month, 2) + ("-" + a3), Pad(b.month, 2) + ("-" + b3);
    PadOrder(a.minute, b.minute, 2);
    FieldOrder(a.hour, b.hour, 2, ':', a1, b1);
    FieldOrder(a.day, b.day, 2, ' ', a2, b2);
    FieldOrder(a.month, b.month, 2, '-', a3, b3);
    FieldOrder(a.year, b.year, 4, '-', a4, b4);
  }

  lemma MinuteTrichotomy(a: DateTime, b: DateTime)
    ensures MinuteLess(a, b) || MinuteLess(b, a) || SameMinute(a, b)
    ensures SameMinute(a, b) ==> !MinuteLess(a, b) && !MinuteLess(b, a)
    ensures !(MinuteLess(a, b) && MinuteLess(b, a))
  {
  }

  lemma RenderMinuteLength(t: DateTime)
    ensures |RenderMinute(t)| == 16
  {
  }

  lemma RenderMinuteInjective(a: DateTime, b: DateTime)
    requires Valid(a) && Valid(b)
    ensures RenderMinute(a) == RenderMinute(b) <==> SameMinute(a, b)
  {
    RenderMinuteOrder(a, b);
    RenderMinuteOrder(b, a);
    MinuteTrichotomy(a, b);
    StrIrreflexive(RenderMinute(a));
  }

  // ---------------------------------------------------------------- seconds on the time line

  function DaysBeforeMonth(y: nat, m: nat): nat {
    if m <= 1 then 0 else DaysBeforeMonth(y, m - 1) + DaysInMonth(y, m - 1)
  }

  function DaysBeforeYear(y: nat): nat {
    if y == 0 then 0 else DaysBeforeYear(y - 1) + DaysBeforeMonth(y - 1, 13)
  }

  function DayNumber(t: DateTime): nat {
    DaysBeforeYear(t.year) + DaysBeforeMonth(t.year, t.month) + t.day
  }

  /** Seconds since the start of year 0 of the proleptic calendar. */
  function Instant(t: DateTime): nat {
    DayNumber(t) * 86400 + t.hour * 3600 + t.minute * 60 + t.second
  }

  lemma NextMonth(y: nat, m: nat)
    requires m >= 1
    ensures DaysBeforeMonth(y, m + 1) == DaysBeforeMonth(y, m) + DaysInMonth(y, m)
  {
  }

  lemma FirstMonths(y: nat)
    ensures DaysBeforeMonth(y, 3) == if IsLeap(y) then 60 else 59
  {
    NextMonth(y, 1);
    NextMonth(y, 2);
  }

  lemma MiddleMonths(y: nat)
    ensures DaysBeforeMonth(y, 8) == DaysBeforeMonth(y, 3) + 153
  {
    NextMonth(y, 3);
    NextMonth(y, 4);
    NextMonth(y, 5);
    NextMonth(y, 6);
    NextMonth(y, 7);
  }

  lemma LastMonths(y: nat)
    ensures DaysBeforeMonth(y, 13) == DaysBeforeMonth(y, 8) + 153
  {
    NextMonth(y, 8);
    NextMonth(y, 9);
    NextMonth(y, 10);
    NextMonth(y, 11);
    NextMonth(y, 12);
  }

  /** A year has 366 days exactly if it is divisible by 4 and, if by 100, by 400. */
  lemma YearLength(y: nat)
    ensures DaysBeforeYear(y + 1) - DaysBeforeYear(y)
            == if y % 4 == 0 && (y % 100 == 0 ==> y % 400 == 0) then 366 else 365
  {
    FirstMonths(y);
    MiddleMonths(y);
    LastMonths(y);
  }

  /** The next second by the calendar. */
  function NextSecond(t: DateTime): DateTime {
    if t.second < 59 then t.(second := t.second + 1)
    else if t.minute < 59 then t.(minute := t.minute + 1, second := 0)
    else if t.hour < 23 then t.(hour := t.hour + 1, minute := 0, second := 0)
    else NextDay(t)
  }

  function NextDay(t: DateTime): DateTime {
    if t.day < DaysInMonth(t.year, t.month) then DateTime(t.year, t.month, t.day + 1, 0, 0, 0)
    else if t.month < 12 then DateTime(t.year, t.month + 1, 1, 0, 0, 0)
    else DateTime(t.year + 1, 1, 1, 0, 0, 0)
  }

  lemma MonthLengths(y: nat, m: nat)
    requires 1 <= m <= 12
    ensures m == 1 || m == 3 || m == 5 || m == 7 || m == 8 || m == 10 || m == 12 ==> DaysInMonth(y, m) == 31
    ensures m == 4 || m == 6 || m == 9 || m == 11 ==> DaysInMonth(y, m) == 30
    ensures m == 2 ==> DaysInMonth(y, m) == 28 || DaysInMonth(y, m) == 29
  {
  }

  /** The calendar begins in the year 1000 and goes on, second by second, to the end of 9999. */
  lemma CalendarGoesOn(t: DateTime)
    ensures Valid(DateTime(1000, 1, 1, 0, 0, 0))
    ensures Valid(t) ==> Valid(NextSecond(t)) || NextSecond(t) == DateTime(10000, 1, 1, 0, 0, 0)
  {
    if 1 <= t.month < 12 {
      MonthLengths(t.year, t.month + 1);
    }
  }

  lemma NextDayCounts(t: DateTime)
    requires Valid(t)
    ensures DayNumber(NextDay(t)) == DayNumber(t) + 1
  {
    NextMonth(t.year, t.month);
  }

  lemma MidnightComes(t: DateTime)
    requires Valid(t) && t.hour == 23 && t.minute == 59 && t.second == 59
    ensures Instant(NextDay(t)) == Instant(t) + 1
  {
    NextDayCounts(t);
  }

  lemma SameDayCounts(t: DateTime)
    requires Valid(t) && !(t.hour == 23 && t.minute == 59 && t.second == 59)
    ensures Instant(NextSecond(t)) == Instant(t) + 1
  {
    var u := NextSecond(t);
    assert DayNumber(u) == DayNumber(t);
  }

  /** The time line counts the seconds of the calendar one by one. */
  lemma InstantCounts(t: DateTime)
    requires Valid(t)
    ensures Instant(NextSecond(t)) == Instant(t) + 1
  {
    if t.hour == 23 && t.minute == 59 && t.second == 59 {
      MidnightComes(t);
    } else {
      SameDayCounts(t);
    }
  }

  lemma {:induction false} MonthsGrow(y: nat, m: nat, n: nat)
    requires 1 <= m < n
    ensures DaysBeforeMonth(y, m) + DaysInMonth(y, m) <= DaysBeforeMonth(y, n)
  {
    if m + 1 < n {
      MonthsGrow(y, m, n - 1);
    }
  }

  lemma {:induction false} YearsGrow(x: nat, y: nat)
    requires x < y
    ensures DaysBeforeYear(x) + DaysBeforeMonth(x, 13) <= DaysBeforeYear(y)
  {
    if x + 1 < y {
      YearsGrow(x, y - 1);
    }
  }

  lemma LaterDay(a: DateTime, b: DateTime)
    requires Valid(a) && Valid(b)
    requires a.year < b.year || (a.year == b.year && (a.month < b.month || (a.month == b.month && a.day < b.day)))
    ensures DayNumber(a) < DayNumber(b)
  {
    if a.year < b.year {
      MonthsGrow(a.year, a.month, 13);
      YearsGrow(a.year, b.year);
    } else if a.month < b.month {
      MonthsGrow(a.year, a.month, b.month);
    }
  }

  lemma EarlierMinute(a: DateTime, b: DateTime)
    requires Valid(a) && Valid(b) && MinuteLess(a, b)
    ensures Instant(a) < Instant(b.(second := 0))
  {
    if a.year != b.year || a.month != b.month || a.day != b.day {
      LaterDay(a, b);
    }
  }

  lemma InstantOrder(a: DateTime, b: DateTime)
    requires Valid(a) && Valid(b)
    ensures Instant(a) < Instant(b) <==> MinuteLess(a, b) || (SameMinute(a, b) && a.second < b.second)
  {
    MinuteTrichotomy(a, b);
    if MinuteLess(a, b) {
      EarlierMinute(a, b);
    } else if MinuteLess(b, a) {
      EarlierMinute(b, a);
    }
  }

  /** Main result: for four-digit years the texts are ordered exactly as the moments are. */
  lemma TextOrderIsTimeOrder(a: DateTime, b: DateTime)
    requires Valid(a) && Valid(b)
    ensures StrLess(Render(a), Render(b)) <==> Instant(a) < Instant(b)
  {
    RenderMinuteLength(a);
    RenderMinuteLength(b);
    Widths();
    StrLessHeads(RenderMinute(a), ":" + Pad(a.second, 2), RenderMinute(b), ":" + Pad(b.second, 2));
    StrLessHeads(":", Pad(a.second, 2), ":", Pad(b.second, 2));
    StrIrreflexive(":");
    PadOrder(a.second, b.second, 2);
    RenderMinuteOrder(a, b);
    RenderMinuteInjective(a, b);
    InstantOrder(a, b);
  }

  /** A text with seconds against a text without: earlier exactly when the moment lies before that minute began. */
  lemma MinuteTextCutsAtMinuteStart(expires: DateTime, now: DateTime)
    requires Valid(expires) && Valid(now)
    ensures StrLess(Render(expires), RenderMinute(now)) <==> Instant(expires) < Instant(now.(second := 0))
  {
    RenderMinuteLength(expires);
    RenderMinuteLength(now);
    StrLessHeads(RenderMinute(expires), ":" + Pad(expires.second, 2), RenderMinute(now), "");
    assert RenderMinute(now) + "" == RenderMinute(now);
    RenderMinuteOrder(expires, now);
    InstantOrder(expires, now.(second := 0));
  }

  // ---------------------------------------------------------------- ISO texts

  /** datetime.isoformat(): a "T" between date and time, and a fraction unless it is zero. */
  function RenderIso(t: DateTime, fraction: string): string {
    DateText(t) + ("T" + (ClockText(t) + (":" + Pad(t.second, 2) + fraction)))
  }

  function DateText(t: DateTime): string { Pad(t.year, 4) + ("-" + (Pad(t.month, 2) + ("-" + Pad(t.day, 2)))) }

  function ClockText(t: DateTime): string { Pad(t.hour, 2) + (":" + Pad(t.minute, 2)) }

  function Midnight(t: DateTime): DateTime { t.(hour := 0, minute := 0, second := 0) }

  predicate DateLess(a: DateTime, b: DateTime) {
    || a.year < b.year
    || (a.year == b.year && (a.month < b.month || (a.month == b.month && a.day < b.day)))
  }

  lemma RenderSplit(t: DateTime)
    ensures Render(t) == DateText(t) + (" " + (ClockText(t) + (":" + Pad(t.second, 2))))
    ensures |DateText(t)| == 10
  {
  }

  lemma DateOrder(a: DateTime, b: DateTime)
    requires Valid(a) && Valid(b)
    ensures StrLess(DateText(a), DateText(b)) <==> DateLess(a, b)
  {
    Widths();
    PadOrder(a.day, b.day, 2);
    FieldOrder(a.month, b.month, 2, '-', Pad(a.day, 2), Pad(b.day, 2));
    FieldOrder(a.year, b.year, 4, '-', Pad(a.month, 2) + ("-" + Pad(a.day, 2)),
               Pad(b.month, 2) + ("-" + Pad(b.day, 2)));
  }

  /** Of two texts whose dates come first, a blank after the date precedes a "T" on the same date. */
  lemma BlankBeforeT(a: DateTime, b: DateTime, x: string, y: string)
    requires Valid(a) && Valid(b)
    ensures StrLess(DateText(a) + (" " + x), DateText(b) + ("T" + y)) <==> !DateLess(b, a)
    ensures StrLess(DateText(b) + ("T" + y), DateText(a) + (" " + x)) <==> DateLess(b, a)
  {
    RenderSplit(a);
    RenderSplit(b);
    DateOrder(a, b);
    DateOrder(b, a);
    StrTotal(DateText(a), DateText(b));
    StrLessHeads(DateText(a), " " + x, DateText(b), "T" + y);
    StrLessHeads(DateText(b), "T" + y, DateText(a), " " + x);
  }

  /** A moment lies before a day exactly if its date does. */
  lemma DateIsMidnight(a: DateTime, b: DateTime)
    requires Valid(a) && Valid(b)
    ensures DateLess(a, b) <==> Instant(a) < Instant(Midnight(b))
  {
    InstantOrder(a, Midnight(b));
  }

  /** An expiry with a blank is smaller than the current ISO text from midnight of its own day on. */
  lemma ExpiredOnItsDay(expires: DateTime, now: DateTime, fraction: string)
    requires Valid(expires) && Valid(now)
    ensures StrLess(Render(expires), RenderIso(now, fraction)) <==> Instant(Midnight(expires)) <= Instant(now)
  {
    RenderSplit(expires);
    BlankBeforeT(expires, now, ClockText(expires) + (":" + Pad(expires.second, 2)),
                 ClockText(now) + (":" + Pad(now.second, 2) + fraction));
    DateIsMidnight(now, expires);
  }

  /** The current text with a blank is smaller than an ISO expiry up to the end of the expiry's day. */
  lemma ListedThroughItsDay(expires: DateTime, now: DateTime, fraction: string)
    requires Valid(expires) && Valid(now)
    ensures StrLess(Render(now), RenderIso(expires, fraction)) <==> !DateLess(expires, now)
  {
    RenderSplit(now);
    BlankBeforeT(now, expires, ClockText(now) + (":" + Pad(now.second, 2)),
                 ClockText(expires) + (":" + Pad(expires.second, 2) + fraction));
  }

  lemma OneDigit(d: nat)
    requires d < 10
    ensures Pad(d, 1) == [Digit(d)]
  {
    assert d % 10 == d;
    assert Pad(d / 10, 0) == "";
  }

  lemma TwoDigits(n: nat)
    requires n < 100
    ensures Pad(n, 2) == [Digit(n / 10), Digit(n % 10)]
  {
    OneDigit(n / 10);
  }

  lemma FourDigits(n: nat)
    requires n < 10000
    ensures Pad(n, 4) == [Digit(n / 1000), Digit(n / 100 % 10), Digit(n / 10 % 10), Digit(n % 10)]
  {
    TwoDigits(n / 100);
    assert Pad(n / 10, 3) == Pad(n / 10 / 10, 2) + [Digit(n / 10 % 10)];
    assert n / 10 / 10 == n / 100 && n / 100 / 10 == n / 1000;
  }

  /** The three formats, digit by digit, for any moment. */
  lemma FormatsRead(t: DateTime, fraction: string)
    requires Valid(t)
    ensures var date := [Digit(t.year / 1000), Digit(t.year / 100 % 10), Digit(t.year / 10 % 10), Digit(t.year % 10),
                         '-', Digit(t.month / 10), Digit(t.month % 10), '-', Digit(t.day / 10), Digit(t.day % 10)];
            var clock := [Digit(t.hour / 10), Digit(t.hour % 10), ':', Digit(t.minute / 10), Digit(t.minute % 10)];
            var seconds := [':', Digit(t.second / 10), Digit(t.second % 10)];
            && RenderMinute(t) == date + [' '] + clock
            && Render(t) == date + [' '] + clock + seconds
            && RenderIso(t, fraction) == date + ['T'] + clock + seconds + fraction
  {
    DateReads(t);
    ClockReads(t);
    MinuteSplit(t);
    RenderSplit(t);
    TwoDigits(t.second);
    assert [':'] + [Digit(t.second / 10), Digit(t.second % 10)] == [':', Digit(t.second / 10), Digit(t.second % 10)];
  }

  lemma DateReads(t: DateTime)
    requires Valid(t)
    ensures DateText(t)
            == [Digit(t.year / 1000), Digit(t.year / 100 % 10), Digit(t.year / 10 % 10), Digit(t.year % 10),
                '-', Digit(t.month / 10), Digit(t.month % 10), '-', Digit(t.day / 10), Digit(t.day % 10)]
  {
    FourDigits(t.year);
    TwoDigits(t.month);
    assert t.day <= 31;
    TwoDigits(t.day);
  }

  lemma ClockReads(t: DateTime)
    requires Valid(t)
    ensures ClockText(t) == [Digit(t.hour / 10), Digit(t.hour % 10), ':', Digit(t.minute / 10), Digit(t.minute % 10)]
  {
    TwoDigits(t.hour);
    TwoDigits(t.minute);
  }

  lemma MinuteSplit(t: DateTime)
    ensures RenderMinute(t) == DateText(t) + [' '] + ClockText(t)
  {
  }
}
