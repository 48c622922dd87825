/** `rfc3339_utc` (engine/src/api.rs): seconds since 1970 become a civil date and time by
    subtracting years and then months. The inverse is the Gregorian day count in closed form
    (section 5.6 and appendix C of RFC 3339). */
module Timestamps {
  import opened Common
  import opened Text

  datatype Civil = Civil(year: nat, month: nat, day: nat, hour: nat, minute: nat, second: nat)

  predicate IsLeap(y: nat) { (y % 4 == 0 && y % 100 != 0) || y % 400 == 0 }

  function YearDays(y: nat): nat { if IsLeap(y) then 366 else 365 }

  const DAYS_IN_MONTH: seq<nat> := [31, 28, 31, 30, 31, 30, 31, 31, 30, 31, 30, 31]

  function MonthDays(y: nat, m: nat): nat
    requires 1 <= m <= 12
  {
    DAYS_IN_MONTH[m - 1] + (if m == 2 && IsLeap(y) then 1 else 0)
  }

  predicate Valid(c: Civil) {
    && 1970 <= c.year && 1 <= c.month <= 12 && 1 <= c.day <= MonthDays(c.year, c.month)
    && c.hour < 24 && c.minute < 60 && c.second < 60
  }

  // ---------------------------------------------------------------- the closed-form inverse

  /** Leap years among the years 1 to n. */
  function LeapYears(n: nat): int { n / 4 - n / 100 + n / 400 }

  function DaysBeforeYear(y: nat): int
    requires 1970 <= y
  {
    365 * (y - 1970) + LeapYears(y - 1) - LeapYears(1969)
  }

  const BEFORE_MONTH: seq<nat> := [0, 31, 59, 90, 120, 151, 181, 212, 243, 273, 304, 334, 365]

  function DaysBeforeMonth(y: nat, m: nat): nat
    requires 1 <= m <= 13
  {
    BEFORE_MONTH[m - 1] + (if m > 2 && IsLeap(y) then 1 else 0)
  }

  function DayNumber(c: Civil): int
    requires Valid(c)
  {
    DaysBeforeYear(c.year) + DaysBeforeMonth(c.year, c.month) + (c.day - 1)
  }

  function SecondOfDay(c: Civil): nat { 3600 * c.hour + 60 * c.minute + c.second }

  function ToSeconds(c: Civil): int
    requires Valid(c)
  {
    86400 * DayNumber(c) + SecondOfDay(c)
  }

  lemma NextYear(y: nat)
    requires 1970 <= y
    ensures DaysBeforeYear(y + 1) == DaysBeforeYear(y) + YearDays(y)
  {
    hide IsLeap, LeapYears;
    NextLeap(y);
  }

  lemma NextLeap(y: nat)
    requires y > 0
    ensures LeapYears(y) == LeapYears(y - 1) + (if IsLeap(y) then 1 else 0)
  {
    NextMultiple(y, 4);
    NextMultiple(y, 100);
    NextMultiple(y, 400);
    MultipleOf(y, 400, 100);
    MultipleOf(y, 100, 4);
  }

  lemma MultipleOf(y: nat, big: nat, small: nat)
    requires (big == 400 && small == 100) || (big == 100 && small == 4)
    ensures y % big == 0 ==> y % small == 0
  {
    var q := y / big;
    assert y == q * big + y % big;
    if y % big == 0 { DivModIs(y, small, if big == 400 then 4 * q else 25 * q, 0); }
  }

  lemma NextMultiple(y: nat, d: nat)
    requires y > 0 && d > 0
    ensures y / d == (y - 1) / d + (if y % d == 0 then 1 else 0)
  {
    var q, r := y / d, y % d;
    assert y == q * d + r;
    if r == 0 {
      assert y - 1 == (q - 1) * d + (d - 1);
      DivModIs(y - 1, d, q - 1, d - 1);
    } else {
      DivModIs(y - 1, d, q, r - 1);
    }
  }

  lemma TimeOfDay(secs: nat)
    requires secs < 86400
    ensures secs / 3600 < 24 && 3600 * (secs / 3600) + 60 * ((secs / 60) % 60) + secs % 60 == secs
  {
    assert secs / 60 / 60 == secs / 3600;
  }

  lemma NextMonth(y: nat, m: nat)
    requires 1 <= m <= 12
    ensures DaysBeforeMonth(y, m + 1) == DaysBeforeMonth(y, m) + MonthDays(y, m)
    ensures DaysBeforeMonth(y, 13) == YearDays(y)
  {
  }

  lemma FirstYearAndMonth()
    ensures DaysBeforeYear(1970) == 0 && forall y :: DaysBeforeMonth(y, 1) == 0
  {
  }

  /** The two subtraction loops; the result is a valid date and time that converts back. */
  method CivilOf(unixSecs: nat) returns (c: Civil)
    ensures Valid(c) && ToSeconds(c) == unixSecs
  {
    hide DaysBeforeYear, DaysBeforeMonth, IsLeap;
    FirstYearAndMonth();
    var days, secs := unixSecs / 86400, unixSecs % 86400;
    var h, m, s := secs / 3600, (secs / 60) % 60, secs % 60;
    TimeOfDay(secs);
    var year := 1970;
    while days >= YearDays(year)
      invariant year >= 1970 && days >= 0 && DaysBeforeYear(year) + days == unixSecs / 86400
      decreases days
    {
      NextYear(year);
      days := days - YearDays(year);
      year := year + 1;
    }
    ghost var dayOfYear := days;
    var month := 1;
    for i := 0 to 12
      invariant month == i + 1 && days >= 0
      invariant DaysBeforeMonth(year, month) + days == dayOfYear < YearDays(year)
    {
      NextMonth(year, month);
      var len := DAYS_IN_MONTH[i] + (if i == 1 && IsLeap(year) then 1 else 0);
      if days >= len {
        days := days - len;
        month := month + 1;
      } else {
        break;
      }
    }
    NextMonth(year, 12);
    c := Civil(year, month, days + 1, h, m, s);
  }

  // ---------------------------------------------------------------- order

  /** Calendar order: years first, seconds last. */
  predicate Earlier(a: Civil, b: Civil) {
    a.year < b.year || (a.year == b.year &&
    (a.month < b.month || (a.month == b.month &&
    (a.day < b.day || (a.day == b.day && SecondEarlier(a, b))))))
  }

  predicate SecondEarlier(a: Civil, b: Civil) {
    a.hour < b.hour || (a.hour == b.hour && (a.minute < b.minute || (a.minute == b.minute && a.second < b.second)))
  }

  lemma {:induction false} YearsGrow(y: nat, z: nat)
    requires 1970 <= y < z
    ensures DaysBeforeYear(y) + YearDays(y) <= DaysBeforeYear(z)
  {
    NextYear(z - 1);
    if y < z - 1 { YearsGrow(y, z - 1); }
  }

  lemma {:induction false} MonthsGrow(y: nat, m: nat, n: nat)
    requires 1 <= m < n <= 13
    ensures DaysBeforeMonth(y, m) + MonthDays(y, m) <= DaysBeforeMonth(y, n)
  {
    NextMonth(y, m);
    NextMonth(y, n - 1);
    if m < n - 1 { MonthsGrow(y, m, n - 1); }
  }

  lemma EarlierIsSmaller(a: Civil, b: Civil)
    requires Valid(a) && Valid(b) && Earlier(a, b)
    ensures ToSeconds(a) < ToSeconds(b)
  {
    assert SecondOfDay(a) < 86400;
    if a.year < b.year {
      YearsGrow(a.year, b.year);
      MonthsGrow(a.year, a.month, 13);
      NextMonth(a.year, 12);
    } else if a.month < b.month {
      MonthsGrow(a.year, a.month, b.month);
    }
  }

  /** Calendar order and the order of seconds are the same order. */
  lemma CalendarOrderIsTimeOrder(a: Civil, b: Civil)
    requires Valid(a) && Valid(b)
    ensures Earlier(a, b) <==> ToSeconds(a) < ToSeconds(b)
    ensures a == b <==> ToSeconds(a) == ToSeconds(b)
  {
    hide ToSeconds;
    if Earlier(a, b) {
      EarlierIsSmaller(a, b);
    } else if Earlier(b, a) {
      EarlierIsSmaller(b, a);
    }
  }

  // ---------------------------------------------------------------- the text

  function Pow10(w: nat): nat { if w == 0 then 1 else 10 * Pow10(w - 1) }

  function Fixed(n: nat, w: nat): string { if w == 0 then "" else Fixed(n / 10, w - 1) + [Digit(n % 10)] }

  /** `{n:0w}`: at least `w` digits. */
  function Pad(n: nat, w: nat): string { if n < Pow10(w) then Fixed(n, w) else Decimal(n) }

  function Format(c: Civil): string {
    Pad(c.year, 4) + ("-" + (Pad(c.month, 2) + ("-" + (Pad(c.day, 2) + ("T" +
    (Pad(c.hour, 2) + (":" + (Pad(c.minute, 2) + (":" + (Pad(c.second, 2) + "Z"))))))))))
  }

  /** String order. */
  predicate Before(s: string, t: string) {
    t != "" && (s == "" || s[0] < t[0] || (s[0] == t[0] && Before(s[1..], t[1..])))
  }

  lemma {:induction false} BeforeConcat(a: string, b: string, c: string, d: string)
    requires |a| == |c|
    ensures Before(a + b, c + d) <==> Before(a, c) || (a == c && Before(b, d))
  {
    if a == "" {
      assert a + b == b && c + d == d;
    } else {
      assert (a + b)[1..] == a[1..] + b && (c + d)[1..] == c[1..] + d;
      assert a == [a[0]] + a[1..] && c == [c[0]] + c[1..];
      BeforeConcat(a[1..], b, c[1..], d);
    }
  }

  lemma {:induction false} FixedOrder(n: nat, m: nat, w: nat)
    requires n < Pow10(w) && m < Pow10(w)
    ensures |Fixed(n, w)| == |Fixed(m, w)| == w
    ensures Before(Fixed(n, w), Fixed(m, w)) <==> n < m
    ensures Fixed(n, w) == Fixed(m, w) <==> n == m
  {
    if w > 0 {
      FixedOrder(n / 10, m / 10, w - 1);
      var x, y := [Digit(n % 10)], [Digit(m % 10)];
      BeforeConcat(Fixed(n / 10, w - 1), x, Fixed(m / 10, w - 1), y);
      assert Before(x, y) <==> n % 10 < m % 10;
      assert Fixed(n, w)[..w - 1] == Fixed(n / 10, w - 1) && Fixed(m, w)[..w - 1] == Fixed(m / 10, w - 1);
      assert Fixed(n, w)[w - 1] == Digit(n % 10) && Fixed(m, w)[w - 1] == Digit(m % 10);
    }
  }

  lemma TwoDigits(n: nat, m: nat)
    requires n < 100 && m < 100
    ensures |Pad(n, 2)| == |Pad(m, 2)| == 2
    ensures (Before(Pad(n, 2), Pad(m, 2)) <==> n < m) && (Pad(n, 2) == Pad(m, 2) <==> n == m)
  {
    assert Pow10(2) == 100;
    FixedOrder(n, m, 2);
  }

  lemma FourDigits(n: nat, m: nat)
    requires n < 10000 && m < 10000
    ensures |Pad(n, 4)| == |Pad(m, 4)| == 4
    ensures (Before(Pad(n, 4), Pad(m, 4)) <==> n < m) && (Pad(n, 4) == Pad(m, 4) <==> n == m)
  {
    assert Pow10(2) == 100 && Pow10(4) == 100 * Pow10(2);
    FixedOrder(n, m, 4);
  }

  /** A field, its separator and what follows compare like the field and then what follows. */
  lemma FieldOrder(a: string, c: string, sep: string, b: string, d: string)
    requires |a| == |c| && |sep| == 1
    ensures Before(a + (sep + b), c + (sep + d)) <==> Before(a, c) || (a == c && Before(b, d))
  {
    BeforeConcat(a, sep + b, c, sep + d);
    BeforeConcat(sep, b, sep, d);
    assert !Before(sep, sep);
  }

  function TimeText(c: Civil): string {
    Pad(c.hour, 2) + (":" + (Pad(c.minute, 2) + (":" + (Pad(c.second, 2) + "Z"))))
  }

  lemma TimeTextOrder(a: Civil, b: Civil)
    requires Valid(a) && Valid(b)
    ensures Before(TimeText(a), TimeText(b)) <==> SecondEarlier(a, b)
  {
    hide Pad, Before;
    TwoDigits(a.hour, b.hour);
    TwoDigits(a.minute, b.minute);
    TwoDigits(a.second, b.second);
    BeforeConcat(Pad(a.second, 2), "Z", Pad(b.second, 2), "Z");
    assert !Before("Z", "Z") by { NotBeforeItself(); }
    FieldOrder(Pad(a.minute, 2), Pad(b.minute, 2), ":", Pad(a.second, 2) + "Z", Pad(b.second, 2) + "Z");
    FieldOrder(Pad(a.hour, 2), Pad(b.hour, 2), ":", Pad(a.minute, 2) + (":" + (Pad(a.second, 2) + "Z")),
               Pad(b.minute, 2) + (":" + (Pad(b.second, 2) + "Z")));
  }

  lemma NotBeforeItself()
    ensures !Before("Z", "Z")
  {
  }

  /** Through the year 9999 the timestamps sort as text exactly as they do in time. */
  lemma TextOrderIsTimeOrder(a: Civil, b: Civil)
    requires Valid(a) && Valid(b) && a.year <= 9999 && b.year <= 9999
    ensures Before(Format(a), Format(b)) <==> ToSeconds(a) < ToSeconds(b)
    ensures Format(a) == Format(b) <==> ToSeconds(a) == ToSeconds(b)
  {
    TextOrder(a, b);
    TextOrder(b, a);
    CalendarOrderIsTimeOrder(a, b);
    CalendarOrderIsTimeOrder(b, a);
  }

  lemma TextOrder(a: Civil, b: Civil)
    requires Valid(a) && Valid(b) && a.year <= 9999 && b.year <= 9999
    ensures Before(Format(a), Format(b)) <==> Earlier(a, b)
  {
    hide Pad, Before, SecondEarlier;
    TimeTextOrder(a, b);
    TwoDigits(a.day, b.day);
    TwoDigits(a.month, b.month);
    FourDigits(a.year, b.year);
    var p, q := Pad(a.day, 2) + ("T" + TimeText(a)), Pad(b.day, 2) + ("T" + TimeText(b));
    FieldOrder(Pad(a.day, 2), Pad(b.day, 2), "T", TimeText(a), TimeText(b));
    FieldOrder(Pad(a.month, 2), Pad(b.month, 2), "-", p, q);
    FieldOrder(Pad(a.year, 4), Pad(b.year, 4), "-", Pad(a.month, 2) + ("-" + p), Pad(b.month, 2) + ("-" + q));
  }

  /** `text` is the timestamp of this second. */
  ghost predicate Stamps(secs: nat, text: string) {
    exists c :: Valid(c) && ToSeconds(c) == secs && text == Format(c)
  }

  /** `rfc3339_utc`. */
  method Rfc3339Utc(unixSecs: nat) returns (text: string)
    ensures Stamps(unixSecs, text)
  {
    hide Format, ToSeconds, Valid;
    var c := CivilOf(unixSecs);
    text := Format(c);
  }

  /** The first second of the year 10000. */
  const YEAR_10000: nat := 253_402_300_800

  lemma DaysToYear10000(y: nat)
    requires y == 10000
    ensures DaysBeforeYear(y) == 2_932_897
  {
    assert LeapYears(9999) == 2424;
    assert LeapYears(1969) == 477;
  }

  lemma FirstOfYear(c: Civil)
    requires Valid(c) && c == Civil(c.year, 1, 1, 0, 0, 0)
    ensures ToSeconds(c) == 86400 * DaysBeforeYear(c.year)
  {
    hide DaysBeforeYear, IsLeap, MonthDays;
    assert DaysBeforeMonth(c.year, 1) == 0;
  }

  lemma Year10000(c: Civil)
    requires c == Civil(10000, 1, 1, 0, 0, 0)
    ensures Valid(c) && ToSeconds(c) == YEAR_10000
  {
    hide Valid, ToSeconds, DaysBeforeYear;
    YearEnd(Civil(9999, 12, 31, 23, 59, 59), c);
    DaysToYear10000(c.year);
    FirstOfYear(c);
  }

  lemma BeforeYear10000(c: Civil)
    requires Valid(c) && ToSeconds(c) < YEAR_10000
    ensures c.year <= 9999
  {
    var next := Civil(10000, 1, 1, 0, 0, 0);
    Year10000(next);
    hide ToSeconds, MonthDays;
    CalendarOrderIsTimeOrder(c, next);
  }

  /** The timestamps of two seconds before the year 10000 sort, and differ, exactly as the seconds. */
  lemma TextsSortAsSeconds(a: nat, b: nat, s: string, t: string)
    requires Stamps(a, s) && Stamps(b, t) && a < YEAR_10000 && b < YEAR_10000
    ensures (Before(s, t) <==> a < b) && (s == t <==> a == b)
  {
    hide Format, ToSeconds, Valid, Before;
    var c :| Valid(c) && ToSeconds(c) == a && s == Format(c);
    var d :| Valid(d) && ToSeconds(d) == b && t == Format(d);
    BeforeYear10000(c);
    BeforeYear10000(d);
    TextOrderIsTimeOrder(c, d);
  }

  lemma {:induction false} DecimalIsInjective(n: nat, m: nat)
    requires Decimal(n) == Decimal(m)
    ensures n == m
  {
    DecimalLength(n, 1);
    DecimalLength(m, 1);
    if n >= 10 && m >= 10 {
      var a, b := Decimal(n), Decimal(m);
      assert a[..|a| - 1] == Decimal(n / 10) && b[..|b| - 1] == Decimal(m / 10);
      assert a[|a| - 1] == Digit(n % 10) && b[|b| - 1] == Digit(m % 10);
      DecimalIsInjective(n / 10, m / 10);
    }
  }

  lemma {:induction false} DecimalLength(n: nat, w: nat)
    requires w > 0
    ensures n >= Pow10(w) <==> |Decimal(n)| > w
  {
    if w == 1 {
      assert Pow10(1) == 10;
      assert n >= 10 ==> |Decimal(n / 10)| >= 1;
    } else if n >= 10 {
      DecimalLength(n / 10, w - 1);
    } else {
      assert Pow10(w) >= 10 by { PowAtLeastTen(w); }
    }
  }

  lemma {:induction false} PowAtLeastTen(w: nat)
    requires w > 0
    ensures Pow10(w) >= 10
  {
    if w > 1 { PowAtLeastTen(w - 1); }
  }

  lemma YearTextIsInjective(y: nat, z: nat)
    requires Pad(y, 4) == Pad(z, 4)
    ensures y == z
  {
    hide Decimal, Fixed;
    assert Pow10(2) == 100 && Pow10(4) == 100 * Pow10(2);
    DecimalLength(y, 4);
    DecimalLength(z, 4);
    if y < 10000 { FixedOrder(y, y, 4); }
    if z < 10000 { FixedOrder(z, z, 4); }
    if y < 10000 && z < 10000 { FourDigits(y, z); }
    if y >= 10000 && z >= 10000 { DecimalIsInjective(y, z); }
  }

  /** Everything behind the year: always sixteen characters. */
  function AfterYear(c: Civil): string {
    "-" + (Pad(c.month, 2) + ("-" + (Pad(c.day, 2) + ("T" + TimeText(c)))))
  }

  lemma AfterYearIsInjective(a: Civil, b: Civil)
    requires Valid(a) && Valid(b)
    ensures |AfterYear(a)| == |AfterYear(b)| == 16
    ensures AfterYear(a) == AfterYear(b) ==> b == a.(year := b.year)
  {
    hide Pad;
    TwoDigits(a.month, b.month);
    TwoDigits(a.day, b.day);
    TwoDigits(a.hour, b.hour);
    TwoDigits(a.minute, b.minute);
    TwoDigits(a.second, b.second);
    if AfterYear(a) == AfterYear(b) {
      var p, q := Pad(a.day, 2) + ("T" + TimeText(a)), Pad(b.day, 2) + ("T" + TimeText(b));
      SameFields("-", Pad(a.month, 2) + ("-" + p), "-", Pad(b.month, 2) + ("-" + q));
      SameSeparated(Pad(a.month, 2), p, Pad(b.month, 2), q, "-");
      SameSeparated(Pad(a.day, 2), TimeText(a), Pad(b.day, 2), TimeText(b), "T");
      var x, y := Pad(a.second, 2) + "Z", Pad(b.second, 2) + "Z";
      SameSeparated(Pad(a.hour, 2), Pad(a.minute, 2) + (":" + x), Pad(b.hour, 2), Pad(b.minute, 2) + (":" + y), ":");
      SameSeparated(Pad(a.minute, 2), x, Pad(b.minute, 2), y, ":");
      SameFields(Pad(a.second, 2), "Z", Pad(b.second, 2), "Z");
    }
  }

  lemma SameFields(a: string, b: string, c: string, d: string)
    requires |a| == |c| && a + b == c + d
    ensures a == c && b == d
  {
    assert (a + b)[..|a|] == a && (a + b)[|a|..] == b;
    assert (c + d)[..|c|] == c && (c + d)[|c|..] == d;
  }

  lemma SameSeparated(a: string, b: string, c: string, d: string, sep: string)
    requires |a| == |c| && a + (sep + b) == c + (sep + d)
    ensures a == c && b == d
  {
    SameFields(a, sep + b, c, sep + d);
    SameFields(sep, b, sep, d);
  }

  // ---------------------------------------------------------------- reading a timestamp back

  function Number(s: string): nat
    requires forall i :: 0 <= i < |s| ==> '0' <= s[i] <= '9'
  {
    if s == "" then 0 else 10 * Number(s[..|s| - 1]) + (s[|s| - 1] - '0') as nat
  }

  predicate IsNumeral(s: string) { forall i :: 0 <= i < |s| ==> '0' <= s[i] <= '9' }

  lemma {:induction false} NumberOfFixed(n: nat, w: nat)
    requires n < Pow10(w)
    ensures |Fixed(n, w)| == w && IsNumeral(Fixed(n, w)) && Number(Fixed(n, w)) == n
  {
    if w > 0 {
      NumberOfFixed(n / 10, w - 1);
      var s := Fixed(n, w);
      assert s[..|s| - 1] == Fixed(n / 10, w - 1) && s[|s| - 1] == Digit(n % 10);
    }
  }

  /** One field of the given width, its separator, and what follows. */
  function Field(t: string, width: nat, sep: char): Option<(nat, string)> {
    if |t| > width && IsNumeral(t[..width]) && t[width] == sep
    then Some((Number(t[..width]), t[width + 1..])) else None
  }

  /** A reader of section 5.6 of RFC 3339: four, two and two digits with hyphens, a T, two, two and
      two digits with colons, a Z, and nothing behind it. */
  function ReadCivil(t: string): Option<Civil> {
    var y := Field(t, 4, '-');
    if y.None? then None else
    var mo := Field(y.value.1, 2, '-');
    if mo.None? then None else
    var d := Field(mo.value.1, 2, 'T');
    if d.None? then None else
    var h := Field(d.value.1, 2, ':');
    if h.None? then None else
    var mi := Field(h.value.1, 2, ':');
    if mi.None? then None else
    var s := Field(mi.value.1, 2, 'Z');
    if s.None? || s.value.1 != "" then None
    else Some(Civil(y.value.0, mo.value.0, d.value.0, h.value.0, mi.value.0, s.value.0))
  }

  lemma FieldReads(n: nat, width: nat, sep: char, rest: string)
    requires n < Pow10(width)
    ensures Field(Pad(n, width) + ([sep] + rest), width, sep) == Some((n, rest))
  {
    hide Number, Fixed;
    NumberOfFixed(n, width);
    var t := Pad(n, width) + ([sep] + rest);
    assert t[..width] == Pad(n, width) && t[width] == sep && t[width + 1..] == rest;
  }

  /** Through year 9999 the text is in the format of RFC 3339 and reads back as its date and time. */
  lemma TextReadsBack(c: Civil)
    requires Valid(c) && c.year <= 9999
    ensures ReadCivil(Format(c)) == Some(c)
  {
    hide Pad, Field;
    assert Pow10(2) == 100 && Pow10(4) == 100 * Pow10(2);
    var s := Pad(c.second, 2) + ("Z" + "");
    assert s == Pad(c.second, 2) + "Z";
    var mi := Pad(c.minute, 2) + (":" + s);
    var h := Pad(c.hour, 2) + (":" + mi);
    var d := Pad(c.day, 2) + ("T" + h);
    var mo := Pad(c.month, 2) + ("-" + d);
    FieldReads(c.second, 2, 'Z', "");
    FieldReads(c.minute, 2, ':', s);
    FieldReads(c.hour, 2, ':', mi);
    FieldReads(c.day, 2, 'T', h);
    FieldReads(c.month, 2, '-', d);
    FieldReads(c.year, 4, '-', mo);
  }

  /** In every year, different seconds have different texts. */
  lemma TextsAreDistinct(a: nat, b: nat, text: string)
    requires Stamps(a, text) && Stamps(b, text)
    ensures a == b
  {
    hide ToSeconds, Valid, Pad, AfterYear;
    var c :| Valid(c) && ToSeconds(c) == a && text == Format(c);
    var d :| Valid(d) && ToSeconds(d) == b && text == Format(d);
    FormatSplits(c);
    FormatSplits(d);
    AfterYearIsInjective(c, d);
    assert text[|text| - 16..] == AfterYear(c) && text[|text| - 16..] == AfterYear(d);
    assert text[..|text| - 16] == Pad(c.year, 4) && text[..|text| - 16] == Pad(d.year, 4);
    YearTextIsInjective(c.year, d.year);
  }

  lemma FormatSplits(c: Civil)
    ensures Format(c) == Pad(c.year, 4) + AfterYear(c)
  {
    hide Pad;
  }

  /** The last second of a year is followed by the first second of the next. */
  lemma YearEnd(last: Civil, next: Civil)
    requires last.year >= 1970 && last == Civil(last.year, 12, 31, 23, 59, 59)
    requires next == Civil(last.year + 1, 1, 1, 0, 0, 0)
    ensures Valid(last) && Valid(next) && ToSeconds(next) == ToSeconds(last) + 1
  {
    NextYear(last.year);
    NextMonth(last.year, 12);
  }

  /** With five-digit years the text order breaks: the last second of 9999 sorts after the first
      second of 10000. */
  lemma FiveDigitYearsBreakOrder(last: Civil, next: Civil)
    requires last == Civil(9999, 12, 31, 23, 59, 59) && next == Civil(10000, 1, 1, 0, 0, 0)
    ensures Valid(last) && Valid(next) && ToSeconds(last) < ToSeconds(next) && Before(Format(next), Format(last))
  {
    hide *;
    YearEnd(last, next);
    FirstDigits();
    FirstDigitDecides(next, last);
  }

  lemma FirstDigitDecides(a: Civil, b: Civil)
    requires Pad(a.year, 4) != "" && Pad(b.year, 4) != "" && Pad(a.year, 4)[0] < Pad(b.year, 4)[0]
    ensures Before(Format(a), Format(b))
  {
    hide Pad;
    assert Format(a)[0] == Pad(a.year, 4)[0] && Format(b)[0] == Pad(b.year, 4)[0];
  }

  lemma FirstDigits()
    ensures Pad(10000, 4) != "" && Pad(10000, 4)[0] == '1'
    ensures Pad(9999, 4) != "" && Pad(9999, 4)[0] == '9'
  {
    assert Pow10(2) == 100 && Pow10(4) == 100 * Pow10(2);
    assert Decimal(1) == "1";
    assert Decimal(100) == "10" + "0" by { assert Decimal(10) == "1" + "0"; }
    assert Decimal(10000) == Decimal(1000) + "0" && Decimal(1000) == Decimal(100) + "0";
    assert Fixed(9, 1) == "9" by { assert Fixed(0, 0) == ""; }
    assert Fixed(99, 2) == Fixed(9, 1) + "9" && Fixed(999, 3) == Fixed(99, 2) + "9";
    assert Fixed(9999, 4) == Fixed(999, 3) + "9";
  }
}
