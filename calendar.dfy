/** What `new Date(text)` yields for the two release-date layouts the route accepts:
    the millisecond value of local midnight on that day, or nothing (`NaN`).
    Local time is taken as one uniform millisecond scale (no time zone, no
    daylight-saving shifts), so a date is its day number times the length of a day. */
module Calendar {
  import opened Wrappers
  import opened Text

  const DayMs: int := 1000 * 60 * 60 * 24

  /** Days from 0000-01-01 to 1970-01-01 in the proleptic Gregorian calendar. */
  const EpochOffset: int := 719_528

  predicate IsLeapYear(y: int) {
    y % 4 == 0 && (y % 100 != 0 || y % 400 == 0)
  }

  function DaysInYear(y: int): int {
    if IsLeapYear(y) then 366 else 365
  }

  /** Reference count: days from 0000-01-01 to January 1 of year `y`, one year at a time. */
  ghost function YearStartByCounting(y: nat): nat {
    if y == 0 then 0 else YearStartByCounting(y - 1) + DaysInYear(y - 1)
  }

  /** Closed form of the same count: 365 days a year plus one per leap year before `y`
      (multiples of 4, less multiples of 100, plus multiples of 400, year 0 included). */
  function YearStart(y: nat): nat {
    365 * y + (y + 3) / 4 - (y + 99) / 100 + (y + 399) / 400
  }

  /** Moving to the next year adds `d`'s multiples exactly when `y` is one. */
  lemma CountStep(y: nat, d: int)
    requires d == 4 || d == 100 || d == 400
    ensures (y + d) / d - (y + d - 1) / d == if y % d == 0 then 1 else 0
  {
    var q, r := y / d, y % d;
    assert y == d * q + r;
    if r == 0 {
      assert (y + d) / d == q + 1;
      assert (y + d - 1) / d == q;
    } else {
      assert (y + d) / d == q + 1;
      assert (y + d - 1) / d == q + 1;
    }
  }

  /** A multiple of 400 is a multiple of 100, and a multiple of 100 one of 4. */
  lemma MultipleChain(y: nat)
    ensures y % 400 == 0 ==> y % 100 == 0
    ensures y % 100 == 0 ==> y % 4 == 0
  {
    if y % 400 == 0 {
      var k := y / 400;
      assert y == 100 * (4 * k);
    }
    if y % 100 == 0 {
      var k := y / 100;
      assert y == 4 * (25 * k);
    }
  }

  /** The closed form advances by the length of each year. */
  lemma YearStartStep(y: nat)
    ensures YearStart(y + 1) == YearStart(y) + DaysInYear(y)
  {
    CountStep(y, 4);
    CountStep(y, 100);
    CountStep(y, 400);
    MultipleChain(y);
    var a := (y + 4) / 4 - (y + 3) / 4;
    var b := (y + 100) / 100 - (y + 99) / 100;
    var c := (y + 400) / 400 - (y + 399) / 400;
    assert YearStart(y + 1) - YearStart(y) == 365 + a - b + c;
  }

  /** The closed form is the year-by-year count. */
  lemma {:induction false} YearStartCounts(y: nat)
    ensures YearStart(y) == YearStartByCounting(y)
  {
    if y > 0 {
      YearStartCounts(y - 1);
      YearStartStep(y - 1);
    }
  }

  function DaysInMonth(y: int, m: int): int
    requires 1 <= m <= 12
  {
    if m == 2 then (if IsLeapYear(y) then 29 else 28)
    else if m == 4 || m == 6 || m == 9 || m == 11 then 30
    else 31
  }

  /** Days in the months of a common year before month `m + 1`. */
  const CumulativeDays: seq<int> := [0, 31, 59, 90, 120, 151, 181, 212, 243, 273, 304, 334]

  /** Days from January 1 of `y` to the first of month `m`. */
  function MonthStart(y: int, m: int): int
    requires 1 <= m <= 12
  {
    CumulativeDays[m - 1] + if m > 2 && IsLeapYear(y) then 1 else 0
  }

  /** Days since 1970-01-01 of day `d` of month `m` of year `y`. As in the engine's
      day arithmetic, a day past the end of the month runs on into the next. */
  function EpochDay(y: nat, m: int, d: int): int
    requires 1 <= m <= 12
  {
    YearStart(y) + MonthStart(y, m) + d - 1 - EpochOffset
  }

  /** The calendar is contiguous: the day after the last of a month is the first
      of the next month, and the day after December 31 is January 1. */
  lemma NextDayAfterMonthEnd(y: nat, m: int)
    requires 1 <= m <= 12
    ensures m < 12 ==> EpochDay(y, m, DaysInMonth(y, m)) + 1 == EpochDay(y, m + 1, 1)
    ensures m == 12 ==> EpochDay(y, m, DaysInMonth(y, m)) + 1 == EpochDay(y + 1, 1, 1)
  {
    if m == 12 {
      YearStartStep(y);
    }
  }

  /** A day number past the end of the month names a day of the next month
      (`Feb 30` is `Mar 2` in a common year), and past December the next year. */
  lemma DayOverflowRollsOver(y: nat, m: int, d: int)
    requires 1 <= m <= 12 && DaysInMonth(y, m) < d
    ensures m < 12 ==> EpochDay(y, m, d) == EpochDay(y, m + 1, d - DaysInMonth(y, m))
    ensures m == 12 ==> EpochDay(y, m, d) == EpochDay(y + 1, 1, d - DaysInMonth(y, m))
  {
    NextDayAfterMonthEnd(y, m);
  }

  predicate IsAsciiLetter(c: char) {
    ('A' <= c <= 'Z') || ('a' <= c <= 'z')
  }

  predicate IsDigit(c: char) {
    '0' <= c <= '9'
  }

  predicate AllLetters(s: string) {
    forall i :: 0 <= i < |s| ==> IsAsciiLetter(s[i])
  }

  predicate AllDigits(s: string) {
    forall i :: 0 <= i < |s| ==> IsDigit(s[i])
  }

  /** The decimal value of a run of digits. */
  function DigitsValue(s: string): nat
    requires AllDigits(s)
  {
    if s == [] then 0
    else 10 * DigitsValue(s[..|s| - 1]) + (s[|s| - 1] as int - '0' as int)
  }

  /** The value of `n` digits is below `10^n`. */
  lemma {:induction false} DigitsValueBound(s: string)
    requires AllDigits(s)
    ensures |s| <= 2 ==> DigitsValue(s) <= 99
    ensures |s| <= 1 ==> DigitsValue(s) <= 9
  {
    if s != [] {
      DigitsValueBound(s[..|s| - 1]);
    }
  }

  /** Month abbreviations as the engine's date parser knows them, lower case. */
  const MonthNames: seq<string> :=
    ["jan", "feb", "mar", "apr", "may", "jun", "jul", "aug", "sep", "oct", "nov", "dec"]

  function MonthFrom(lower: string, k: nat): (r: Option<int>)
    requires k <= 12
    ensures r.Some? ==> k < r.value <= 12 && MonthNames[r.value - 1] == lower
    ensures r.None? ==> forall j :: k <= j < 12 ==> MonthNames[j] != lower
    decreases 12 - k
  {
    if k == 12 then None
    else if MonthNames[k] == lower then Some(k + 1)
    else MonthFrom(lower, k + 1)
  }

  /** The month (1 to 12) that a three-letter name abbreviates, ignoring case. */
  function MonthNumber(name: string): (r: Option<int>)
    ensures r.Some? ==> 1 <= r.value <= 12 && MonthNames[r.value - 1] == ToLower(name)
    ensures r.None? ==> ToLower(name) !in MonthNames
  {
    MonthFrom(ToLower(name), 0)
  }

  /** The pieces a release-date layout captures: month name, day and year, as text. */
  datatype DateFields = DateFields(month: string, day: string, year: string)

  /** What the regular expressions admit: three ASCII letters, one or two digits,
      four digits. */
  predicate WellFormed(f: DateFields) {
    && |f.month| == 3 && AllLetters(f.month)
    && 1 <= |f.day| <= 2 && AllDigits(f.day)
    && |f.year| == 4 && AllDigits(f.year)
  }

  /** A number the engine accepts as a day of the month. */
  predicate IsDayNumber(n: int) {
    1 <= n <= 31
  }

  /** The engine's reading of a year number: 0 to 49 stand for 2000 to 2049, 50 to
      99 for 1950 to 1999, and larger numbers are the year as written. */
  function FullYear(y: nat): (r: nat)
    ensures y < 100 ==> 1950 <= r < 2050 && r % 100 == y
    ensures 100 <= y ==> r == y
  {
    if y < 50 then y + 2000 else if y < 100 then y + 1900 else y
  }

  /** The day and the year the engine composes from the two numbers of a date whose
      month is named: the first number is the day when it can be one; otherwise the
      first number is the year and the second the day. */
  function DayAndYear(f: DateFields): (nat, nat)
    requires WellFormed(f)
  {
    var first, second := DigitsValue(f.day), DigitsValue(f.year);
    if IsDayNumber(first) then (first, FullYear(second)) else (second, FullYear(first))
  }

  /** `new Date(text)` on text of either layout: local midnight of the composed day
      in milliseconds, or `None` (an invalid date) when the month name is unknown or
      the composed day is not between 1 and 31. */
  function DateOf(f: DateFields): (r: Option<int>)
    requires WellFormed(f)
    ensures r.Some? <==> MonthNumber(f.month).Some? && IsDayNumber(DayAndYear(f).0)
    ensures r.Some? ==> r.value == Midnight(DayAndYear(f).1, MonthNumber(f.month).value, DayAndYear(f).0)
  {
    match MonthNumber(f.month)
    case None => None
    case Some(m) =>
      var (d, y) := DayAndYear(f);
      if IsDayNumber(d) then Some(Midnight(y, m, d)) else None
  }

  /** A date as the layouts intend it, with a day of 1 to 31 and a year of at least
      100, is local midnight of exactly that day. */
  lemma DateOfAsWritten(f: DateFields, m: int)
    requires WellFormed(f) && MonthNumber(f.month) == Some(m)
    requires IsDayNumber(DigitsValue(f.day)) && 100 <= DigitsValue(f.year)
    ensures DateOf(f) == Some(Midnight(DigitsValue(f.year), m, DigitsValue(f.day)))
  {
  }

  /** When the day piece cannot be a day (it is 0 or above 31), the date, if valid,
      lies in 1950 to 2049: the day piece has at most two digits and is read as a
      two-digit year. */
  lemma MisplacedDayIsTwoDigitYear(f: DateFields)
    requires WellFormed(f) && !IsDayNumber(DigitsValue(f.day))
    ensures 1950 <= DayAndYear(f).1 < 2050
  {
    DigitsValueBound(f.day);
  }

  /** Local midnight of a calendar day, in milliseconds. */
  function Midnight(y: nat, m: int, d: int): int
    requires 1 <= m <= 12
  {
    EpochDay(y, m, d) * DayMs
  }

  /** Midnight of an earlier day of the same month comes first. */
  lemma MidnightIncreasing(y: nat, m: int, d: int, e: int)
    requires 1 <= m <= 12 && d < e
    ensures Midnight(y, m, d) < Midnight(y, m, e)
  {
  }
}
