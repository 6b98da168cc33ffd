/**
 * UTC instants, the text toISOString gives them, and when comparing two such texts as
 * strings agrees with comparing the instants in time.
 */
module Timestamps {
  import opened Common
  import opened Text

  /** Calendar fields of an instant in the proleptic Gregorian calendar, UTC. */
  datatype Instant = Instant(year: int, month: int, day: int, hour: int, minute: int, second: int, ms: int)

  predicate Leap(y: int) {
    (y % 4 == 0 && y % 100 != 0) || y % 400 == 0
  }

  function DaysInMonth(y: int, m: int): int
    requires 1 <= m <= 12
  {
    if m == 2 then (if Leap(y) then 29 else 28)
    else if m == 4 || m == 6 || m == 9 || m == 11 then 30
    else 31
  }

  /** Days from 0000-01-01 to the first day of year y. */
  function DaysBeforeYear(y: int): int {
    365 * y + (y + 3) / 4 - (y + 99) / 100 + (y + 399) / 400
  }

  function DaysBeforeMonth(y: int, m: nat): int
    requires 1 <= m <= 13
  {
    if m == 1 then 0 else DaysBeforeMonth(y, m - 1) + DaysInMonth(y, m - 1)
  }

  /** The years a JavaScript Date can print in six digits. */
  predicate Valid(i: Instant) {
    && -999999 <= i.year <= 999999
    && 1 <= i.month <= 12 && 1 <= i.day <= DaysInMonth(i.year, i.month)
    && 0 <= i.hour < 24 && 0 <= i.minute < 60 && 0 <= i.second < 60 && 0 <= i.ms < 1000
  }

  function Day(i: Instant): int
    requires Valid(i)
  {
    DaysBeforeYear(i.year) + DaysBeforeMonth(i.year, i.month) + (i.day - 1)
  }

  function MsOfDay(i: Instant): int {
    ((i.hour * 60 + i.minute) * 60 + i.second) * 1000 + i.ms
  }

  const EPOCH_DAY := 719528

  /** Milliseconds since 1970-01-01T00:00:00Z. */
  function Time(i: Instant): int
    requires Valid(i)
  {
    (Day(i) - EPOCH_DAY) * 86400000 + MsOfDay(i)
  }

  // ---------------------------------------------------------------------------
  // Time follows the calendar fields
  // ---------------------------------------------------------------------------

  predicate DateBefore(a: Instant, b: Instant) {
    a.year < b.year || (a.year == b.year && (a.month < b.month || (a.month == b.month && a.day < b.day)))
  }

  predicate SameDate(a: Instant, b: Instant) {
    a.year == b.year && a.month == b.month && a.day == b.day
  }

  predicate ClockBefore(a: Instant, b: Instant) {
    a.hour < b.hour || (a.hour == b.hour && (a.minute < b.minute || (a.minute == b.minute &&
      (a.second < b.second || (a.second == b.second && a.ms < b.ms)))))
  }

  /** The calendar order: the fields compared from the year down. */
  predicate FieldsBefore(a: Instant, b: Instant) {
    DateBefore(a, b) || (SameDate(a, b) && ClockBefore(a, b))
  }

  lemma FourthYears(y: int)
    ensures (y + 4) / 4 == (y + 3) / 4 + OneIf(y % 4 == 0)
  {
    assert y == 4 * (y / 4) + y % 4;
  }

  lemma HundredthYears(y: int)
    ensures (y + 100) / 100 == (y + 99) / 100 + OneIf(y % 100 == 0)
  {
    assert y == 100 * (y / 100) + y % 100;
  }

  lemma FourHundredthYears(y: int)
    ensures (y + 400) / 400 == (y + 399) / 400 + OneIf(y % 400 == 0)
  {
    assert y == 400 * (y / 400) + y % 400;
  }

  function OneIf(b: bool): int {
    if b then 1 else 0
  }

  lemma LeapRule(y: int)
    ensures OneIf(Leap(y)) == OneIf(y % 4 == 0) - OneIf(y % 100 == 0) + OneIf(y % 400 == 0)
  {
    MultipleOf400(y);
    MultipleOf100(y);
  }

  lemma MultipleOf400(y: int)
    ensures y % 400 == 0 ==> y % 100 == 0
  {
    var q := y / 400;
    assert y == 100 * (4 * q) + y % 400;
  }

  lemma MultipleOf100(y: int)
    ensures y % 100 == 0 ==> y % 4 == 0
  {
    var q := y / 100;
    assert y == 4 * (25 * q) + y % 100;
  }

  lemma YearLength(y: int)
    ensures DaysBeforeYear(y + 1) == DaysBeforeYear(y) + if Leap(y) then 366 else 365
  {
    LeapRule(y);
    FourthYears(y);
    HundredthYears(y);
    FourHundredthYears(y);
  }

  lemma {:induction false} YearsGrow(a: int, b: int)
    requires a <= b
    ensures DaysBeforeYear(a) <= DaysBeforeYear(b)
    decreases b - a
  {
    if a < b {
      YearLength(a);
      YearsGrow(a + 1, b);
    }
  }

  lemma {:induction false} MonthsGrow(y: int, a: nat, b: nat)
    requires 1 <= a <= b <= 13
    ensures 0 <= DaysBeforeMonth(y, a) <= DaysBeforeMonth(y, b)
    decreases b
  {
    if b > 1 {
      if a < b {
        MonthsGrow(y, a, b - 1);
      } else {
        MonthsGrow(y, 1, b - 1);
      }
    }
  }

  lemma YearDays(y: int)
    ensures DaysBeforeMonth(y, 13) == if Leap(y) then 366 else 365
  {
    assert DaysBeforeMonth(y, 2) == 31;
    assert DaysBeforeMonth(y, 4) == DaysBeforeMonth(y, 3) + 31 == DaysBeforeMonth(y, 2) + DaysInMonth(y, 2) + 31;
    assert DaysBeforeMonth(y, 6) == DaysBeforeMonth(y, 5) + 31 == DaysBeforeMonth(y, 4) + 61;
    assert DaysBeforeMonth(y, 8) == DaysBeforeMonth(y, 7) + 31 == DaysBeforeMonth(y, 6) + 61;
    assert DaysBeforeMonth(y, 10) == DaysBeforeMonth(y, 9) + 30 == DaysBeforeMonth(y, 8) + 61;
    assert DaysBeforeMonth(y, 12) == DaysBeforeMonth(y, 11) + 30 == DaysBeforeMonth(y, 10) + 61;
    assert DaysBeforeMonth(y, 13) == DaysBeforeMonth(y, 12) + 31;
  }

  lemma DayWithinYear(i: Instant)
    requires Valid(i)
    ensures DaysBeforeYear(i.year) <= Day(i) < DaysBeforeYear(i.year + 1)
  {
    MonthsGrow(i.year, 1, i.month);
    MonthsGrow(i.year, i.month + 1, 13);
    YearDays(i.year);
    YearLength(i.year);
  }

  lemma DayFollowsDate(a: Instant, b: Instant)
    requires Valid(a) && Valid(b) && DateBefore(a, b)
    ensures Day(a) < Day(b)
  {
    if a.year < b.year {
      DayWithinYear(a);
      DayWithinYear(b);
      YearsGrow(a.year + 1, b.year);
    } else if a.month < b.month {
      MonthsGrow(a.year, a.month + 1, b.month);
    }
  }

  lemma ClockFollowsFields(a: Instant, b: Instant)
    requires Valid(a) && Valid(b)
    ensures 0 <= MsOfDay(a) < 86400000
    ensures MsOfDay(a) < MsOfDay(b) <==> ClockBefore(a, b)
  {
  }

  lemma DateTrichotomy(a: Instant, b: Instant)
    ensures DateBefore(a, b) || SameDate(a, b) || DateBefore(b, a)
  {
  }

  /** Instants compare in time as their fields do from the year down. */
  lemma TimeFollowsFields(a: Instant, b: Instant)
    requires Valid(a) && Valid(b)
    ensures Time(a) < Time(b) <==> FieldsBefore(a, b)
    ensures Time(a) == Time(b) <==> a == b
  {
    ClockFollowsFields(a, b);
    ClockFollowsFields(b, a);
    if DateBefore(a, b) {
      DayFollowsDate(a, b);
    } else if DateBefore(b, a) {
      DayFollowsDate(b, a);
    } else {
      DateTrichotomy(a, b);
    }
  }

  /** The last day of its month: thirty days hath September, April, June and November. */
  predicate MonthEnds(i: Instant) {
    if i.month == 2 then i.day == if (i.year % 4 == 0 && i.year % 100 != 0) || i.year % 400 == 0 then 29 else 28
    else if i.month == 9 || i.month == 4 || i.month == 6 || i.month == 11 then i.day == 30
    else i.day == 31
  }

  function Midnight(year: int, month: int, day: int): Instant {
    Instant(year, month, day, 0, 0, 0, 0)
  }

  /** The instant one millisecond later, by the clock and the calendar. */
  function Tick(i: Instant): Instant {
    if i.ms < 999 then i.(ms := i.ms + 1)
    else if i.second < 59 then i.(second := i.second + 1, ms := 0)
    else if i.minute < 59 then i.(minute := i.minute + 1, second := 0, ms := 0)
    else if i.hour < 23 then i.(hour := i.hour + 1, minute := 0, second := 0, ms := 0)
    else if !MonthEnds(i) then Midnight(i.year, i.month, i.day + 1)
    else if i.month < 12 then Midnight(i.year, i.month + 1, 1)
    else Midnight(i.year + 1, 1, 1)
  }

  lemma DayAfter(i: Instant)
    requires Valid(i) && i.hour == 23 && i.minute == 59 && i.second == 59 && i.ms == 999
    requires i.year < 999999 || i.month < 12 || i.day < 31
    ensures Valid(Tick(i)) && Day(Tick(i)) == Day(i) + 1
  {
    if MonthEnds(i) {
      assert i.day == DaysInMonth(i.year, i.month);
      if i.month == 12 {
        YearDays(i.year);
        YearLength(i.year);
        assert DaysBeforeMonth(i.year, 13) == DaysBeforeMonth(i.year, 12) + 31;
      } else {
        assert DaysBeforeMonth(i.year, i.month + 1) == DaysBeforeMonth(i.year, i.month) + DaysInMonth(i.year, i.month);
      }
    }
  }

  /** Time counts the milliseconds since the first instant of 1970: it is zero there, and one more with every tick. */
  lemma TimeCountsTicks(i: Instant)
    requires Valid(i) && Valid(Tick(i))
    ensures Time(Tick(i)) == Time(i) + 1
    ensures Time(Midnight(1970, 1, 1)) == 0
  {
    assert DaysBeforeYear(1970) == EPOCH_DAY;
    if i.hour == 23 && i.minute == 59 && i.second == 59 && i.ms == 999 {
      DayAfter(i);
    }
  }

  // ---------------------------------------------------------------------------
  // The text form and string comparison
  // ---------------------------------------------------------------------------

  function Digit(d: int): char
    requires 0 <= d < 10
  {
    ('0' as int + d) as char
  }

  /** n in decimal, zero-padded to w digits. */
  function Pad(n: nat, w: nat): (s: string)
    ensures |s| == w
  {
    if w == 0 then "" else Pad(n / 10, w - 1) + [Digit(n % 10)]
  }

  /** Four digits for the years 0 to 9999, otherwise a sign and six digits. */
  function YearText(y: int): string {
    if 0 <= y <= 9999 then Pad(y, 4)
    else if y > 9999 then "+" + Pad(y, 6)
    else "-" + Pad(-y, 6)
  }

  function RestText(i: Instant): string
    requires Valid(i)
  {
    "-" + (Pad(i.month, 2) + ("-" + (Pad(i.day, 2) + ("T" + (Pad(i.hour, 2) + (":" + (Pad(i.minute, 2) + (":" +
    (Pad(i.second, 2) + ("." + (Pad(i.ms, 3) + "Z")))))))))))
  }

  function IsoText(i: Instant): string
    requires Valid(i)
  {
    YearText(i.year) + RestText(i)
  }

  function Pow10(w: nat): nat {
    if w == 0 then 1 else 10 * Pow10(w - 1)
  }

  lemma PowersOfTen()
    ensures Pow10(2) == 100 && Pow10(3) == 1000 && Pow10(4) == 10000 && Pow10(6) == 1000000
  {
    assert Pow10(1) == 10;
    assert Pow10(5) == 10 * Pow10(4);
  }

  /** Padded numbers of one width compare as strings just as they do as numbers. */
  lemma {:induction false} PadOrder(m: nat, n: nat, w: nat)
    requires m < Pow10(w) && n < Pow10(w)
    ensures TextBefore(Pad(m, w), Pad(n, w)) <==> m < n
    ensures Pad(m, w) == Pad(n, w) <==> m == n
  {
    if w > 0 {
      PadOrder(m / 10, n / 10, w - 1);
      var p, q := Pad(m / 10, w - 1), Pad(n / 10, w - 1);
      var c, d := Digit(m % 10), Digit(n % 10);
      TextBeforeLast(p, q, c, d);
      assert (p + [c])[..w - 1] == p && (q + [d])[..w - 1] == q;
      assert (p + [c])[w - 1] == c && (q + [d])[w - 1] == d;
    }
  }

  /** Two padded fields followed by more text: the fields decide unless they are equal. */
  lemma FieldOrder(sep: string, m: nat, n: nat, w: nat, a: string, b: string)
    requires m < Pow10(w) && n < Pow10(w)
    ensures TextBefore(sep + (Pad(m, w) + a), sep + (Pad(n, w) + b)) <==> m < n || (m == n && TextBefore(a, b))
  {
    PadOrder(m, n, w);
    TextBeforeSame(sep, Pad(m, w) + a, Pad(n, w) + b);
    if m == n {
      TextBeforeSame(Pad(m, w), a, b);
    } else {
      TextBeforeSplit(Pad(m, w), Pad(n, w), a, b);
    }
  }

  lemma ClockTextOrder(a: Instant, b: Instant, ta: string, tb: string)
    requires Valid(a) && Valid(b)
    requires ta == "T" + (Pad(a.hour, 2) + (":" + (Pad(a.minute, 2) + (":" + (Pad(a.second, 2) + ("." + (Pad(a.ms, 3) + "Z")))))))
    requires tb == "T" + (Pad(b.hour, 2) + (":" + (Pad(b.minute, 2) + (":" + (Pad(b.second, 2) + ("." + (Pad(b.ms, 3) + "Z")))))))
    ensures TextBefore(ta, tb) <==> ClockBefore(a, b)
  {
    PowersOfTen();
    var msA, msB := "." + (Pad(a.ms, 3) + "Z"), "." + (Pad(b.ms, 3) + "Z");
    var secA, secB := ":" + (Pad(a.second, 2) + msA), ":" + (Pad(b.second, 2) + msB);
    var minA, minB := ":" + (Pad(a.minute, 2) + secA), ":" + (Pad(b.minute, 2) + secB);
    FieldOrder(".", a.ms, b.ms, 3, "Z", "Z");
    FieldOrder(":", a.second, b.second, 2, msA, msB);
    FieldOrder(":", a.minute, b.minute, 2, secA, secB);
    FieldOrder("T", a.hour, b.hour, 2, minA, minB);
    assert !TextBefore("Z", "Z") by { TextBeforeSame("Z", "", ""); assert "Z" + "" == "Z"; }
  }

  predicate RestBefore(a: Instant, b: Instant) {
    a.month < b.month || (a.month == b.month && (a.day < b.day || (a.day == b.day && ClockBefore(a, b))))
  }

  lemma RestTextOrder(a: Instant, b: Instant)
    requires Valid(a) && Valid(b)
    ensures TextBefore(RestText(a), RestText(b)) <==> RestBefore(a, b)
  {
    PowersOfTen();
    var clockA := "T" + (Pad(a.hour, 2) + (":" + (Pad(a.minute, 2) + (":" + (Pad(a.second, 2) + ("." + (Pad(a.ms, 3) + "Z")))))));
    var clockB := "T" + (Pad(b.hour, 2) + (":" + (Pad(b.minute, 2) + (":" + (Pad(b.second, 2) + ("." + (Pad(b.ms, 3) + "Z")))))));
    ClockTextOrder(a, b, clockA, clockB);
    FieldOrder("-", a.day, b.day, 2, clockA, clockB);
    FieldOrder("-", a.month, b.month, 2, "-" + (Pad(a.day, 2) + clockA), "-" + (Pad(b.day, 2) + clockB));
  }

  /** The character a year text starts with: '+', '-' or a digit. */
  lemma YearTextStart(y: int)
    requires -999999 <= y <= 999999
    ensures var s := YearText(y);
            && s != "" && (y > 9999 ==> s[0] == '+') && (y < 0 ==> s[0] == '-')
            && (0 <= y <= 9999 ==> '0' <= s[0] <= '9')
  {
    if 0 <= y <= 9999 {
      assert Pad(y / 1000, 1)[0] == Digit(y / 1000 % 10);
      assert Pad(y, 4)[0] == Pad(y / 10, 3)[0] == Pad(y / 100, 2)[0] == Pad(y / 1000, 1)[0] by {
        assert y / 10 / 10 == y / 100 && y / 100 / 10 == y / 1000;
      }
    }
  }

  datatype Form = Negative | FourDigit | Positive

  function FormOf(y: int): Form {
    if y < 0 then Negative else if y <= 9999 then FourDigit else Positive
  }

  lemma SignedYearOrder(sign: string, m: nat, n: nat, w: nat, a: Instant, b: Instant)
    requires Valid(a) && Valid(b) && m < Pow10(w) && n < Pow10(w)
    ensures TextBefore((sign + Pad(m, w)) + RestText(a), (sign + Pad(n, w)) + RestText(b)) <==>
            m < n || (m == n && RestBefore(a, b))
  {
    RestTextOrder(a, b);
    FieldOrder(sign, m, n, w, RestText(a), RestText(b));
    assert (sign + Pad(m, w)) + RestText(a) == sign + (Pad(m, w) + RestText(a));
    assert (sign + Pad(n, w)) + RestText(b) == sign + (Pad(n, w) + RestText(b));
  }

  lemma FourDigitOrder(a: Instant, b: Instant)
    requires Valid(a) && Valid(b) && FormOf(a.year) == FormOf(b.year) == FourDigit
    ensures TextBefore(IsoText(a), IsoText(b)) <==> a.year < b.year || (a.year == b.year && RestBefore(a, b))
  {
    var m, n, w := a.year, b.year, 4;
    PowersOfTen();
    assert "" + Pad(m, w) == YearText(a.year) && "" + Pad(n, w) == YearText(b.year);
    SignedYearOrder("", m, n, w, a, b);
  }

  lemma SixDigitOrder(a: Instant, b: Instant)
    requires Valid(a) && Valid(b) && FormOf(a.year) == FormOf(b.year) != FourDigit
    ensures TextBefore(IsoText(a), IsoText(b)) <==>
            (if a.year == b.year then RestBefore(a, b)
             else if a.year < 0 then b.year < a.year else a.year < b.year)
  {
    var sign, w := if a.year < 0 then "-" else "+", 6;
    var m: nat, n: nat := if a.year < 0 then -a.year else a.year, if b.year < 0 then -b.year else b.year;
    PowersOfTen();
    SignedYearOrder(sign, m, n, w, a, b);
  }

  lemma OtherFormOrder(a: Instant, b: Instant)
    requires Valid(a) && Valid(b) && FormOf(a.year) != FormOf(b.year)
    ensures TextBefore(IsoText(a), IsoText(b)) <==> a.year > 9999 || (a.year < 0 && b.year <= 9999)
  {
    YearTextStart(a.year);
    YearTextStart(b.year);
    assert IsoText(a)[0] == YearText(a.year)[0] && IsoText(b)[0] == YearText(b.year)[0];
  }

  /** When string comparison may be used for time comparison. */
  predicate Comparable(a: Instant, b: Instant) {
    && (a.year > 9999 <==> b.year > 9999)
    && (a.year < 0 && b.year < 0 ==> a.year == b.year)
  }

  /**
   * Two distinct instants compare as texts the way they compare in time exactly when they
   * are comparable; in particular always between the years 0 and 9999, the fixed-width form
   * of section 5.1 of RFC 3339.
   */
  lemma TextOrderIsTimeOrder(a: Instant, b: Instant)
    requires Valid(a) && Valid(b)
    ensures (TextBefore(IsoText(a), IsoText(b)) <==> Time(a) < Time(b)) <==> Comparable(a, b)
  {
    TimeFollowsFields(a, b);
    if FormOf(a.year) == FormOf(b.year) == FourDigit {
      FourDigitOrder(a, b);
    } else if FormOf(a.year) == FormOf(b.year) {
      SixDigitOrder(a, b);
    } else {
      OtherFormOrder(a, b);
    }
  }

  predicate FixedWidth(i: Instant) {
    Valid(i) && 0 <= i.year <= 9999
  }

  // ---------------------------------------------------------------------------
  // Reading a text back
  // ---------------------------------------------------------------------------

  function Value(s: string): int {
    if s == "" then 0 else 10 * Value(s[..|s| - 1]) + (s[|s| - 1] as int - '0' as int)
  }

  /** The fields at the fixed positions of a 24-character text. */
  function ParseIso(s: string): Instant
    requires |s| == 24
  {
    Instant(Value(s[..4]), Value(s[5..7]), Value(s[8..10]),
            Value(s[11..13]), Value(s[14..16]), Value(s[17..19]), Value(s[20..23]))
  }

  lemma {:induction false} ValueOfPad(n: nat, w: nat)
    requires n < Pow10(w)
    ensures Value(Pad(n, w)) == n
  {
    if w > 0 {
      ValueOfPad(n / 10, w - 1);
      assert Pad(n, w)[..w - 1] == Pad(n / 10, w - 1);
    }
  }

  /** The next padded field of a text, after a separator of one character. */
  lemma FieldAt(head: string, sep: char, n: nat, w: nat, tail: string)
    requires n < Pow10(w)
    ensures var s := head + ([sep] + (Pad(n, w) + tail));
            && |s| == |head| + 1 + w + |tail|
            && Value(s[|head| + 1..|head| + 1 + w]) == n
            && s == (head + [sep] + Pad(n, w)) + tail
  {
    var s := head + ([sep] + (Pad(n, w) + tail));
    assert s[|head| + 1..|head| + 1 + w] == Pad(n, w);
    ValueOfPad(n, w);
  }

  /** Parsing a fixed-width text gives back the instant it was made from. */
  lemma ParseIsoText(i: Instant)
    requires FixedWidth(i)
    ensures |IsoText(i)| == 24 && ParseIso(IsoText(i)) == i
  {
    PowersOfTen();
    var w2, w3, w4 := 2, 3, 4;
    var y := Pad(i.year, w4);
    var ms := "." + (Pad(i.ms, w3) + "Z");
    var sec := ":" + (Pad(i.second, w2) + ms);
    var min := ":" + (Pad(i.minute, w2) + sec);
    var hour := "T" + (Pad(i.hour, w2) + min);
    var day := "-" + (Pad(i.day, w2) + hour);
    var s := y + ("-" + (Pad(i.month, w2) + day));
    assert IsoText(i) == s;
    ValueOfPad(i.year, w4);
    assert s[..4] == y;
    FieldAt(y, '-', i.month, w2, day);
    var h1 := y + "-" + Pad(i.month, w2);
    FieldAt(h1, '-', i.day, w2, hour);
    var h2 := h1 + "-" + Pad(i.day, w2);
    FieldAt(h2, 'T', i.hour, w2, min);
    var h3 := h2 + "T" + Pad(i.hour, w2);
    FieldAt(h3, ':', i.minute, w2, sec);
    var h4 := h3 + ":" + Pad(i.minute, w2);
    FieldAt(h4, ':', i.second, w2, ms);
    var h5 := h4 + ":" + Pad(i.second, w2);
    FieldAt(h5, '.', i.ms, w3, "Z");
  }

  lemma {:induction false} PadIsDigits(n: nat, w: nat)
    ensures forall k :: 0 <= k < w ==> '0' <= Pad(n, w)[k] <= '9'
  {
    if w > 0 {
      PadIsDigits(n / 10, w - 1);
    }
  }

  predicate DigitsAt(t: string, from: nat, to: nat) {
    to <= |t| && forall k :: from <= k < to ==> '0' <= t[k] <= '9'
  }

  lemma FieldShape(head: string, sep: char, n: nat, w: nat, tail: string)
    ensures var s := head + ([sep] + (Pad(n, w) + tail));
            && s[|head|] == sep && DigitsAt(s, |head| + 1, |head| + 1 + w)
            && s == (head + [sep] + Pad(n, w)) + tail
  {
    PadIsDigits(n, w);
    var s := head + ([sep] + (Pad(n, w) + tail));
    assert s[|head| + 1..|head| + 1 + w] == Pad(n, w);
    assert forall k :: |head| + 1 <= k < |head| + 1 + w ==> s[k] == Pad(n, w)[k - |head| - 1];
  }

  lemma YearShape(y: nat, tail: string)
    ensures DigitsAt(Pad(y, 4) + tail, 0, 4)
  {
    PadIsDigits(y, 4);
  }

  /** The complete date and time of section 5.6 of RFC 3339, in UTC with three digits of a second. */
  lemma IsoTextShape(i: Instant)
    requires FixedWidth(i)
    ensures var t := IsoText(i);
            && |t| == 24 && t[4] == t[7] == '-' && t[10] == 'T' && t[13] == t[16] == ':' && t[19] == '.' && t[23] == 'Z'
            && DigitsAt(t, 0, 4) && DigitsAt(t, 5, 7) && DigitsAt(t, 8, 10)
            && DigitsAt(t, 11, 13) && DigitsAt(t, 14, 16) && DigitsAt(t, 17, 19) && DigitsAt(t, 20, 23)
  {
    var w2, w3, w4 := 2, 3, 4;
    var y := Pad(i.year, w4);
    var ms := "." + (Pad(i.ms, w3) + "Z");
    var sec := ":" + (Pad(i.second, w2) + ms);
    var min := ":" + (Pad(i.minute, w2) + sec);
    var hour := "T" + (Pad(i.hour, w2) + min);
    var day := "-" + (Pad(i.day, w2) + hour);
    var s := y + ("-" + (Pad(i.month, w2) + day));
    assert IsoText(i) == s;
    YearShape(i.year, "-" + (Pad(i.month, w2) + day));
    FieldShape(y, '-', i.month, w2, day);
    var h1 := y + "-" + Pad(i.month, w2);
    FieldShape(h1, '-', i.day, w2, hour);
    var h2 := h1 + "-" + Pad(i.day, w2);
    FieldShape(h2, 'T', i.hour, w2, min);
    var h3 := h2 + "T" + Pad(i.hour, w2);
    FieldShape(h3, ':', i.minute, w2, sec);
    var h4 := h3 + ":" + Pad(i.minute, w2);
    FieldShape(h4, ':', i.second, w2, ms);
    var h5 := h4 + ":" + Pad(i.second, w2);
    FieldShape(h5, '.', i.ms, w3, "Z");
    assert (h5 + "." + Pad(i.ms, w3) + "Z")[23] == 'Z';
  }
}
