/**
 * The date/time validator: `toDateTimeOrNull`, the canonical strings that
 * `setDate`/`setTime` keep, the `dateLD` parse, and the day arithmetic behind
 * `daysUntil`. Calendar rules are those of the ISO (proleptic Gregorian)
 * calendar that `LocalDate`/`LocalDateTime` use, with their year range.
 */
module Calendar {
  import opened Wrappers
  import opened Strings
  import opened Numbers

  /** The year range `LocalDate` accepts. */
  const MIN_YEAR: int := -999_999_999
  const MAX_YEAR: int := 999_999_999

  /** The placeholders `toDateTimeOrNull` uses for the half that is not asked for. */
  const DEFAULT_DATE: string := "2000-01-01"
  const DEFAULT_TIME: string := "00:00"

  datatype Date = Date(year: int, month: int, day: int)
  datatype Time = Time(hour: int, minute: int)
  datatype DateTime = DateTime(date: Date, time: Time)

  predicate IsLeapYear(y: int) {
    y % 4 == 0 && (y % 100 != 0 || y % 400 == 0)
  }

  function DaysInMonth(y: int, m: int): int
    requires 1 <= m <= 12
  {
    if m == 2 then (if IsLeapYear(y) then 29 else 28)
    else if m == 4 || m == 6 || m == 9 || m == 11 then 30
    else 31
  }

  predicate ValidDate(d: Date) {
    MIN_YEAR <= d.year <= MAX_YEAR && 1 <= d.month <= 12 && 1 <= d.day <= DaysInMonth(d.year, d.month)
  }

  predicate ValidTime(t: Time) {
    0 <= t.hour <= 23 && 0 <= t.minute <= 59
  }

  /** `parts.map { it.toInt() }`: fails as soon as one part is not an `Int`. */
  function ParseAll(parts: seq<string>): (r: Option<seq<int>>)
    ensures r.Some? ==> |r.value| == |parts|
    decreases |parts|
  {
    if parts == [] then Some([])
    else
      match ParseInt(parts[0])
      case None => None
      case Some(v) =>
        match ParseAll(parts[1..])
        case None => None
        case Some(vs) => Some([v] + vs)
  }

  /** The mapping succeeds exactly when every part is an `Int`, and then holds their values in order. */
  lemma {:induction false} ParseAllMeaning(parts: seq<string>)
    ensures ParseAll(parts).Some? <==> forall i :: 0 <= i < |parts| ==> ParseInt(parts[i]).Some?
    ensures ParseAll(parts).Some? ==> forall i :: 0 <= i < |parts| ==> ParseInt(parts[i]) == Some(ParseAll(parts).value[i])
    decreases |parts|
  {
    if parts != [] {
      ParseAllMeaning(parts[1..]);
      forall i | 0 < i < |parts| ensures parts[1..][i - 1] == parts[i] { }
    }
  }

  /**
   * `LocalDate(dateArr[0], dateArr[1], dateArr[2])` over `s.split("-")` mapped
   * with `toInt()`; `ParseDateAccepts` states when it succeeds.
   */
  function ParseDate(s: string): (r: Option<Date>)
    ensures r.Some? ==> ValidDate(r.value) && r.value.year >= 0
  {
    ParseAllMeaning(Split(s, '-'));
    match ParseAll(Split(s, '-'))
    case None => None
    case Some(v) =>
      if |v| >= 3 && ValidDate(Date(v[0], v[1], v[2])) then Some(Date(v[0], v[1], v[2])) else None
  }

  /** The time half: `s.split(":")` mapped with `toInt()`; `ParseTimeAccepts` states when it succeeds. */
  function ParseTime(s: string): (r: Option<Time>)
    ensures r.Some? ==> ValidTime(r.value)
  {
    match ParseAll(Split(s, ':'))
    case None => None
    case Some(v) =>
      if |v| >= 2 && ValidTime(Time(v[0], v[1])) then Some(Time(v[0], v[1])) else None
  }

  /**
   * A date string is accepted exactly when every `-`-separated part is an
   * `Int`, there are at least three, and the first three form a valid date;
   * further parts are ignored. An accepted date never has a negative year,
   * as no part can hold a `-`.
   */
  lemma ParseDateAccepts(s: string)
    ensures
      var p := Split(s, '-');
      ParseDate(s).Some? <==>
        && |p| >= 3
        && (forall i :: 0 <= i < |p| ==> ParseInt(p[i]).Some?)
        && ValidDate(Date(ParseInt(p[0]).value, ParseInt(p[1]).value, ParseInt(p[2]).value))
    ensures
      var p := Split(s, '-');
      ParseDate(s).Some? ==>
        ParseDate(s).value == Date(ParseInt(p[0]).value, ParseInt(p[1]).value, ParseInt(p[2]).value)
    ensures ParseDate(s).Some? ==> ParseDate(s).value.year >= 0
  {
    ParseAllMeaning(Split(s, '-'));
  }

  /** A time string is accepted exactly when every `:`-separated part is an `Int`, there are at least two, and the first two are an hour and a minute. */
  lemma ParseTimeAccepts(s: string)
    ensures
      var p := Split(s, ':');
      ParseTime(s).Some? <==>
        && |p| >= 2
        && (forall i :: 0 <= i < |p| ==> ParseInt(p[i]).Some?)
        && ValidTime(Time(ParseInt(p[0]).value, ParseInt(p[1]).value))
    ensures
      var p := Split(s, ':');
      ParseTime(s).Some? ==> ParseTime(s).value == Time(ParseInt(p[0]).value, ParseInt(p[1]).value)
  {
    ParseAllMeaning(Split(s, ':'));
  }

  /**
   * `toDateTimeOrNull(dateStr, timeStr)`: every exception of the Kotlin body
   * (a bad number, a missing part, an invalid calendar value) becomes `None`.
   */
  function ToDateTimeOrNull(dateStr: string, timeStr: string): (r: Option<DateTime>)
    ensures r.Some? <==> ParseDate(dateStr).Some? && ParseTime(timeStr).Some?
    ensures r.Some? ==> r.value.date == ParseDate(dateStr).value && r.value.time == ParseTime(timeStr).value
  {
    match ParseDate(dateStr)
    case None => None
    case Some(d) =>
      match ParseTime(timeStr)
      case None => None
      case Some(t) => Some(DateTime(d, t))
  }

  /** `LocalDate.toString()`'s year: at least four digits, a sign below zero or above 9999. */
  function YearString(y: int): string {
    var digits := ZeroPad(NatToString(if y < 0 then -y else y), 4);
    if y < 0 then "-" + digits else if y > 9999 then "+" + digits else digits
  }

  function TwoDigits(n: nat): string {
    ZeroPad(NatToString(n), 2)
  }

  /** `LocalDate.toString()`: `yyyy-mm-dd`. */
  function DateString(d: Date): string
    requires ValidDate(d)
  {
    YearString(d.year) + "-" + TwoDigits(d.month) + "-" + TwoDigits(d.day)
  }

  /** `LocalTime.toString()` with zero seconds: `hh:mm`. */
  function TimeString(t: Time): string
    requires ValidTime(t)
  {
    TwoDigits(t.hour) + ":" + TwoDigits(t.minute)
  }

  /** `LocalDateTime.toString()` with zero seconds. */
  function DateTimeString(dt: DateTime): string
    requires ValidDate(dt.date) && ValidTime(dt.time)
  {
    DateString(dt.date) + "T" + TimeString(dt.time)
  }

  /**
   * `setDate` applied to one input line: the line is accepted with the
   * default time, and the part of the rendered date-time before `T` is kept.
   */
  function AcceptDate(line: string): (r: Option<string>)
    ensures r.Some? <==> ParseDate(line).Some?
    ensures r.Some? ==> r.value == DateString(ParseDate(line).value)
  {
    DefaultTimeValid();
    match ToDateTimeOrNull(line, DEFAULT_TIME)
    case None => None
    case Some(dt) =>
      DateTimeSplits(dt);
      Some(SubstringBefore(DateTimeString(dt), 'T'))
  }

  /** `setTime` applied to one input line: accepted with the default date, the part after `T` is kept. */
  function AcceptTime(line: string): (r: Option<string>)
    ensures r.Some? <==> ParseTime(line).Some?
    ensures r.Some? ==> r.value == TimeString(ParseTime(line).value)
  {
    DefaultDateValid();
    match ToDateTimeOrNull(DEFAULT_DATE, line)
    case None => None
    case Some(dt) =>
      DateTimeSplits(dt);
      Some(SubstringAfter(DateTimeString(dt), 'T'))
  }

  lemma DefaultTimeValid()
    ensures ParseTime(DEFAULT_TIME) == Some(Time(0, 0))
  {
    TimeStringRoundTrip(Time(0, 0));
    assert NatToString(0) == "0";
    assert Repeat('0', 1) == "0";
    assert TwoDigits(0) == "00";
    assert TimeString(Time(0, 0)) == DEFAULT_TIME;
  }

  lemma DefaultDateValid()
    ensures ParseDate(DEFAULT_DATE) == Some(Date(2000, 1, 1))
  {
    DefaultYearDigits();
    DefaultDayDigits();
    var s := "2000" + "-" + "01" + "-" + "01";
    DateStringParts("2000", "01", "01");
    ParseDateParts(s, "2000", "01", "01", Date(2000, 1, 1));
    assert DEFAULT_DATE == s;
  }

  lemma DefaultYearDigits()
    ensures PlainChars("2000") && ParseInt("2000") == Some(2000)
  {
    assert DigitsValue("2") == 2;
    assert "20"[..1] == "2";
    assert DigitsValue("20") == 20;
    assert "200"[..2] == "20";
    assert DigitsValue("200") == 200;
    assert "2000"[..3] == "200";
    ParseDigits("2000");
  }

  lemma DefaultDayDigits()
    ensures PlainChars("01") && ParseInt("01") == Some(1)
  {
    assert DigitsValue("0") == 0;
    assert "01"[..1] == "0";
    ParseDigits("01");
  }

  /** The characters a canonical date or time string is made of. */
  predicate PlainChars(s: string) {
    forall k :: 0 <= k < |s| ==> IsDigit(s[k]) || s[k] == '+'
  }

  lemma PlainCharsExclude(s: string)
    requires PlainChars(s)
    ensures '-' !in s && 'T' !in s && ':' !in s && NoLineBreaks(s)
  {
  }

  lemma YearStringShape(y: int)
    requires 0 <= y <= MAX_YEAR
    ensures PlainChars(YearString(y))
    ensures ParseInt(YearString(y)) == Some(y)
    ensures y <= 9999 ==> |YearString(y)| == 4
  {
    var s := NatToString(y);
    var digits := ZeroPad(s, 4);
    ParseNatToString(y, 4);
    LeadingZerosValue(if |s| < 4 then 4 - |s| else 0, s);
    if y > 9999 {
      LongYearShape(y, digits);
    } else {
      assert YearString(y) == digits;
    }
  }

  lemma LongYearShape(y: int, digits: string)
    requires 9999 < y <= MAX_YEAR
    requires digits == ZeroPad(NatToString(y), 4)
    requires AllDigits(digits) && DigitsValue(digits) == y
    ensures PlainChars(YearString(y))
    ensures ParseInt(YearString(y)) == Some(y)
  {
    assert YearString(y) == "+" + digits;
    ParsePlusDigits(digits);
    forall k | 0 <= k < |YearString(y)| ensures IsDigit(YearString(y)[k]) || YearString(y)[k] == '+' {
      if k > 0 {
        assert YearString(y)[k] == digits[k - 1];
      }
    }
  }

  lemma TwoDigitsShape(n: nat)
    requires n < 100
    ensures |TwoDigits(n)| == 2 && AllDigits(TwoDigits(n)) && PlainChars(TwoDigits(n))
    ensures ParseInt(TwoDigits(n)) == Some(n)
  {
    var s := NatToString(n);
    ParseNatToString(n, 2);
    LeadingZerosValue(if |s| < 2 then 2 - |s| else 0, s);
  }

  /** Every valid date with a non-negative year is read back from its canonical string. */
  lemma DateStringRoundTrip(d: Date)
    requires ValidDate(d) && d.year >= 0
    ensures ParseDate(DateString(d)) == Some(d)
    ensures 'T' !in DateString(d) && NoLineBreaks(DateString(d))
    ensures d.year <= 9999 ==> |DateString(d)| == 10
  {
    YearStringShape(d.year);
    TwoDigitsShape(d.month);
    TwoDigitsShape(d.day);
    var y, m, dd := YearString(d.year), TwoDigits(d.month), TwoDigits(d.day);
    DateStringParts(y, m, dd);
    assert DateString(d) == y + "-" + m + "-" + dd;
    ParseDateParts(DateString(d), y, m, dd, d);
  }

  lemma DateStringParts(y: string, m: string, d: string)
    requires PlainChars(y) && PlainChars(m) && PlainChars(d)
    ensures Split(y + "-" + m + "-" + d, '-') == [y, m, d]
    ensures 'T' !in y + "-" + m + "-" + d && NoLineBreaks(y + "-" + m + "-" + d)
  {
    PlainCharsExclude(y);
    PlainCharsExclude(m);
    PlainCharsExclude(d);
    SplitThree(y, m, d, '-');
    DatePlainChars(y, m, d);
  }

  lemma ParseDateParts(s: string, y: string, m: string, dd: string, d: Date)
    requires ValidDate(d)
    requires Split(s, '-') == [y, m, dd]
    requires ParseInt(y) == Some(d.year) && ParseInt(m) == Some(d.month) && ParseInt(dd) == Some(d.day)
    ensures ParseDate(s) == Some(d)
  {
    var p := [y, m, dd];
    assert forall i :: 0 <= i < |p| ==> ParseInt(p[i]).Some?;
    ParseAllMeaning(p);
  }

  /** Every valid time is read back from its canonical string. */
  lemma TimeStringRoundTrip(t: Time)
    requires ValidTime(t)
    ensures ParseTime(TimeString(t)) == Some(t)
    ensures 'T' !in TimeString(t) && NoLineBreaks(TimeString(t)) && |TimeString(t)| == 5
  {
    TwoDigitsShape(t.hour);
    TwoDigitsShape(t.minute);
    var h, m := TwoDigits(t.hour), TwoDigits(t.minute);
    PlainCharsExclude(h);
    PlainCharsExclude(m);
    assert TimeString(t) == h + [':'] + m;
    SplitTwo(h, m, ':');
    ParseAllMeaning([h, m]);
    TimePlainChars(h, m);
  }

  lemma TimePlainChars(h: string, m: string)
    requires PlainChars(h) && PlainChars(m)
    ensures 'T' !in h + [':'] + m && NoLineBreaks(h + [':'] + m)
  {
    var s := h + [':'] + m;
    forall k | 0 <= k < |s| ensures s[k] != 'T' && !IsLineBreak(s[k]) {
      if k < |h| { assert s[k] == h[k]; }
      else if k > |h| { assert s[k] == m[k - |h| - 1]; }
    }
  }

  lemma DatePlainChars(y: string, m: string, d: string)
    requires PlainChars(y) && PlainChars(m) && PlainChars(d)
    ensures 'T' !in y + "-" + m + "-" + d && NoLineBreaks(y + "-" + m + "-" + d)
  {
    var s := y + "-" + m + "-" + d;
    forall k | 0 <= k < |s| ensures s[k] != 'T' && !IsLineBreak(s[k]) {
      if k < |y| { assert s[k] == y[k]; }
      else if k == |y| { }
      else if k < |y| + 1 + |m| { assert s[k] == m[k - |y| - 1]; }
      else if k == |y| + 1 + |m| { }
      else { assert s[k] == d[k - |y| - |m| - 2]; }
    }
  }

  lemma DateTimeSplits(dt: DateTime)
    requires ValidDate(dt.date) && ValidTime(dt.time) && dt.date.year >= 0
    ensures SubstringBefore(DateTimeString(dt), 'T') == DateString(dt.date)
    ensures SubstringAfter(DateTimeString(dt), 'T') == TimeString(dt.time)
  {
    DateStringRoundTrip(dt.date);
    TimeStringRoundTrip(dt.time);
    SubstringAround(DateString(dt.date), 'T', TimeString(dt.time));
  }

  /** Re-validating a date string that `setDate` stored gives back the same string. */
  lemma AcceptDateCanonical(line: string, c: string)
    requires AcceptDate(line) == Some(c)
    ensures AcceptDate(c) == Some(c)
    ensures 'T' !in c && NoLineBreaks(c)
  {
    DateStringRoundTrip(ParseDate(line).value);
  }

  /** Re-validating a time string that `setTime` stored gives back the same string. */
  lemma AcceptTimeCanonical(line: string, c: string)
    requires AcceptTime(line) == Some(c)
    ensures AcceptTime(c) == Some(c)
    ensures |c| == 5 && NoLineBreaks(c)
  {
    TimeStringRoundTrip(ParseTime(line).value);
  }

  /** Every valid date with a non-negative year is the canonical form of some accepted line. */
  lemma AcceptDateComplete(d: Date)
    requires ValidDate(d) && d.year >= 0
    ensures AcceptDate(DateString(d)) == Some(DateString(d))
  {
    DateStringRoundTrip(d);
  }

  // ---- day numbers, as `LocalDate.toEpochDay` counts them ----

  function YearLength(y: int): int {
    if IsLeapYear(y) then 366 else 365
  }

  /** Days from 0000-01-01 to the first day of year `y`. */
  function DaysBeforeYear(y: int): int {
    365 * y + (y + 3) / 4 - (y + 99) / 100 + (y + 399) / 400
  }

  /** Days from the first of January of year `y` to the first day of month `m` (13: the next year). */
  function DaysBeforeMonth(y: int, m: int): (r: int)
    requires 1 <= m <= 13
    ensures r >= 0
    decreases m
  {
    if m == 1 then 0 else DaysBeforeMonth(y, m - 1) + DaysInMonth(y, m - 1)
  }

  /** Days from 0000-01-01 to 1970-01-01. */
  const DAYS_0000_TO_1970: int := 719528

  /** The day number of a date, 0 on 1970-01-01. */
  function EpochDay(d: Date): int
    requires ValidDate(d)
  {
    DaysBeforeYear(d.year) + DaysBeforeMonth(d.year, d.month) + d.day - 1 - DAYS_0000_TO_1970
  }

  /** `from.daysUntil(to)`. */
  function DaysUntil(from: Date, to: Date): (n: int)
    requires ValidDate(from) && ValidDate(to)
    ensures n > 0 <==> Before(from, to)
    ensures n < 0 <==> Before(to, from)
    ensures n == 0 <==> from == to
  {
    EpochDayOrder(from, to);
    EpochDayOrder(to, from);
    EpochDay(to) - EpochDay(from)
  }

  /** Calendar order: `a` comes strictly before `b`. */
  predicate Before(a: Date, b: Date) {
    || a.year < b.year
    || (a.year == b.year && a.month < b.month)
    || (a.year == b.year && a.month == b.month && a.day < b.day)
  }

  lemma EpochOrigin()
    ensures EpochDay(Date(1970, 1, 1)) == 0
  {
  }

  lemma YearStep(y: int)
    ensures DaysBeforeYear(y + 1) == DaysBeforeYear(y) + YearLength(y)
  {
    CountStep4(y);
    CountStep100(y);
    CountStep400(y);
    DivisorsNest(y);
  }

  /** A year divisible by 400 is divisible by 100, and one divisible by 100 is divisible by 4. */
  lemma DivisorsNest(y: int)
    ensures y % 400 == 0 ==> y % 100 == 0
    ensures y % 100 == 0 ==> y % 4 == 0
  {
  }

  /** Stepping from year `y` to `y + 1` passes one more multiple of 4 exactly when `y` is one. */
  lemma CountStep4(y: int)
    ensures (y + 4) / 4 == (y + 3) / 4 + (if y % 4 == 0 then 1 else 0)
  {
  }

  lemma CountStep100(y: int)
    ensures (y + 100) / 100 == (y + 99) / 100 + (if y % 100 == 0 then 1 else 0)
  {
  }

  lemma CountStep400(y: int)
    ensures (y + 400) / 400 == (y + 399) / 400 + (if y % 400 == 0 then 1 else 0)
  {
  }

  lemma {:induction false} YearsAscend(y1: int, y2: int)
    requires y1 < y2
    ensures DaysBeforeYear(y1) + YearLength(y1) <= DaysBeforeYear(y2)
    decreases y2 - y1
  {
    YearStep(y1);
    if y1 + 1 < y2 {
      YearsAscend(y1 + 1, y2);
    }
  }

  /** The twelve months make up the year. */
  lemma MonthsFillYear(y: int)
    ensures DaysBeforeMonth(y, 13) == YearLength(y)
  {
    assert DaysBeforeMonth(y, 3) == 31 + DaysInMonth(y, 2);
    assert DaysBeforeMonth(y, 13) == 306 + DaysBeforeMonth(y, 3);
  }

  lemma {:induction false} MonthsAscend(y: int, m1: int, m2: int)
    requires 1 <= m1 < m2 <= 13
    ensures DaysBeforeMonth(y, m1) + DaysInMonth(y, m1) <= DaysBeforeMonth(y, m2)
    decreases m2 - m1
  {
    if m1 + 1 < m2 {
      MonthsAscend(y, m1 + 1, m2);
    }
  }

  lemma EpochDayAscends(a: Date, b: Date)
    requires ValidDate(a) && ValidDate(b) && Before(a, b)
    ensures EpochDay(a) < EpochDay(b)
  {
    var ma, mb := DaysBeforeMonth(a.year, a.month), DaysBeforeMonth(b.year, b.month);
    assert EpochDay(a) == DaysBeforeYear(a.year) + ma + a.day - 1 - DAYS_0000_TO_1970;
    assert EpochDay(b) == DaysBeforeYear(b.year) + mb + b.day - 1 - DAYS_0000_TO_1970;
    if a.year < b.year {
      YearsAscend(a.year, b.year);
      MonthsAscend(a.year, a.month, 13);
      MonthsFillYear(a.year);
      assert ma + a.day <= YearLength(a.year);
      assert mb >= 0;
    } else if a.month < b.month {
      MonthsAscend(a.year, a.month, b.month);
    }
  }

  /** Day numbers follow the calendar order, and differ exactly for different dates. */
  lemma EpochDayOrder(a: Date, b: Date)
    requires ValidDate(a) && ValidDate(b)
    ensures Before(a, b) <==> EpochDay(a) < EpochDay(b)
    ensures a == b <==> EpochDay(a) == EpochDay(b)
  {
    if Before(a, b) {
      EpochDayAscends(a, b);
    } else if Before(b, a) {
      EpochDayAscends(b, a);
    }
  }
}
