/** `isRecentRelease`: does a store listing's release text name a day at most 30
    days before now? Placeholder text ("Coming soon", "TBA", "Q3 2026") is rejected
    outright; otherwise the trimmed text must have one of two exact layouts,
    "Jan 15, 2026" or "15 Jan, 2026", and name a valid date. */
module Recency {
  import opened Wrappers
  import opened Text
  import opened Calendar

  /** Words that mark a release text as a placeholder, matched in lower case. */
  const SkipWords: seq<string> := ["coming", "tba", "to be", "announced", "soon", "q1", "q2", "q3", "q4"]

  const WindowDays: int := 30

  /** The two accepted layouts, tried in this order. */
  datatype Layout = MonthDayYear | DayMonthYear

  const Layouts: seq<Layout> := [MonthDayYear, DayMonthYear]

  /** The text a layout produces from its three captured pieces. */
  function Render(l: Layout, f: DateFields): string {
    match l
    case MonthDayYear => f.month + " " + f.day + ", " + f.year
    case DayMonthYear => f.day + " " + f.month + ", " + f.year
  }

  /** The anchored regular expressions `^([A-Za-z]{3}) (\d{1,2}), (\d{4})$` and
      `^(\d{1,2}) ([A-Za-z]{3}), (\d{4})$`: the captured pieces when `s` matches. */
  function MatchLayout(l: Layout, s: string): (r: Option<DateFields>)
    ensures r.Some? ==> WellFormed(r.value) && Render(l, r.value) == s
  {
    if |s| != 11 && |s| != 12 then None
    else
      var w := |s| - 10;
      match l
      case MonthDayYear =>
        var f := DateFields(s[..3], s[4..4 + w], s[6 + w..]);
        if s[3] == ' ' && s[4 + w..6 + w] == ", " && WellFormed(f) then
          assert Render(l, f) == s[..3] + [s[3]] + s[4..4 + w] + s[4 + w..6 + w] + s[6 + w..];
          Some(f)
        else None
      case DayMonthYear =>
        var f := DateFields(s[w + 1..w + 4], s[..w], s[w + 6..]);
        if s[w] == ' ' && s[w + 4..w + 6] == ", " && WellFormed(f) then
          assert Render(l, f) == s[..w] + [s[w]] + s[w + 1..w + 4] + s[w + 4..w + 6] + s[w + 6..];
          Some(f)
        else None
  }

  /** Every text of a layout's shape matches that layout and gives its pieces back,
      so together with the contract of `MatchLayout` a layout matches exactly the
      texts it renders. */
  lemma MatchRender(l: Layout, f: DateFields)
    requires WellFormed(f)
    ensures MatchLayout(l, Render(l, f)) == Some(f)
  {
    var s := Render(l, f);
    var w := |f.day|;
    match l
    case MonthDayYear =>
      assert s[..3] == f.month && s[3] == ' ' && s[4..4 + w] == f.day;
      assert s[4 + w..6 + w] == ", " && s[6 + w..] == f.year;
    case DayMonthYear =>
      assert s[..w] == f.day && s[w] == ' ' && s[w + 1..w + 4] == f.month;
      assert s[w + 4..w + 6] == ", " && s[w + 6..] == f.year;
  }

  /** Text that does not start with a letter has no month-first layout. */
  lemma MonthFirstStartsWithLetter(s: string)
    requires s == [] || !IsAsciiLetter(s[0])
    ensures MatchLayout(MonthDayYear, s).None?
  {
  }

  /** Text that does not start with a digit has no day-first layout. */
  lemma DayFirstStartsWithDigit(s: string)
    requires s == [] || !IsDigit(s[0])
    ensures MatchLayout(DayMonthYear, s).None?
  {
  }

  /** A text matches at most one layout: one starts with a letter, the other with a digit. */
  lemma LayoutsExclusive(s: string)
    ensures MatchLayout(MonthDayYear, s).None? || MatchLayout(DayMonthYear, s).None?
  {
    if s != [] && IsAsciiLetter(s[0]) {
      DayFirstStartsWithDigit(s);
    } else {
      MonthFirstStartsWithLetter(s);
    }
  }

  /** The elapsed time from the release day to now is between 0 and 30 days. */
  predicate InWindow(now: int, release: int) {
    0 <= now - release <= WindowDays * DayMs
  }

  /** The loop over `formats`: the first layout that matches and names a valid date
      decides; a layout that matches an invalid date passes on to the next. */
  function RecentByLayouts(ls: seq<Layout>, s: string, now: int): bool {
    if ls == [] then false
    else
      match MatchLayout(ls[0], s)
      case Some(f) =>
        if DateOf(f).Some? then InWindow(now, DateOf(f).value)
        else RecentByLayouts(ls[1..], s, now)
      case None => RecentByLayouts(ls[1..], s, now)
  }

  /** `isRecentRelease(text)` evaluated at time `now` (milliseconds, local scale). */
  function IsRecentRelease(text: string, now: int): (r: bool)
    ensures text == "" ==> !r
    ensures ContainsAny(ToLower(text), SkipWords) ==> !r
  {
    if text == "" then false
    else if ContainsAny(ToLower(text), SkipWords) then false
    else RecentByLayouts(Layouts, Trim(text), now)
  }

  /** The route's steps: the two early rejections, then the loop over the layouts
      that returns as soon as one matches and names a valid date. */
  method CheckRecentRelease(text: string, now: int) returns (recent: bool)
    ensures recent == IsRecentRelease(text, now)
  {
    if text == "" {
      return false;
    }
    if ContainsAny(ToLower(text), SkipWords) {
      return false;
    }
    var s := Trim(text);
    var k := 0;
    while k < |Layouts|
      invariant 0 <= k <= |Layouts|
      invariant RecentByLayouts(Layouts[k..], s, now) == IsRecentRelease(text, now)
    {
      var fields := MatchLayout(Layouts[k], s);
      if fields.Some? {
        var parsed := DateOf(fields.value);
        if parsed.Some? {
          return InWindow(now, parsed.value);
        }
      }
      assert Layouts[k..][1..] == Layouts[k + 1..];
      k := k + 1;
    }
    return false;
  }

  /** The layout loop accepts only a layout that matches and names a date in the window. */
  lemma {:induction false} LayoutLoopWitness(ls: seq<Layout>, s: string, now: int)
    returns (l: Layout, f: DateFields, t: int)
    requires RecentByLayouts(ls, s, now)
    ensures l in ls && MatchLayout(l, s) == Some(f)
    ensures WellFormed(f) && DateOf(f) == Some(t) && InWindow(now, t)
  {
    var m := MatchLayout(ls[0], s);
    if m.Some? && DateOf(m.value).Some? {
      l, f, t := ls[0], m.value, DateOf(m.value).value;
    } else {
      l, f, t := LayoutLoopWitness(ls[1..], s, now);
    }
  }

  /** A recent release is non-empty, free of placeholder words, and its trimmed text
      has one of the layouts and names a day 0 to 30 days before now. */
  lemma RecentWitness(text: string, now: int) returns (l: Layout, f: DateFields, t: int)
    requires IsRecentRelease(text, now)
    ensures text != "" && !ContainsAny(ToLower(text), SkipWords)
    ensures l in Layouts && MatchLayout(l, Trim(text)) == Some(f)
    ensures WellFormed(f) && DateOf(f) == Some(t) && InWindow(now, t)
  {
    l, f, t := LayoutLoopWitness(Layouts, Trim(text), now);
  }

  /** Conversely, a non-empty, placeholder-free text whose trimmed form has one of
      the layouts and names a valid date is recent exactly when that date lies 0 to
      30 days before now: a future date or an older one is rejected. */
  lemma RecentComplete(text: string, now: int, l: Layout, f: DateFields, t: int)
    requires text != "" && !ContainsAny(ToLower(text), SkipWords)
    requires MatchLayout(l, Trim(text)) == Some(f) && DateOf(f) == Some(t)
    ensures IsRecentRelease(text, now) == InWindow(now, t)
  {
    var s := Trim(text);
    LayoutsExclusive(s);
    if l == DayMonthYear {
      assert MatchLayout(MonthDayYear, s).None?;
      assert RecentByLayouts(Layouts, s, now) == RecentByLayouts([DayMonthYear], s, now);
    }
  }

  /** In particular a release date still in the future is never recent. */
  lemma FutureDateNotRecent(text: string, now: int, l: Layout, f: DateFields, t: int)
    requires MatchLayout(l, Trim(text)) == Some(f) && DateOf(f) == Some(t)
    requires now < t
    ensures !IsRecentRelease(text, now)
  {
    if text != "" && !ContainsAny(ToLower(text), SkipWords) {
      RecentComplete(text, now, l, f, t);
    }
  }

  /** Text whose trimmed form fits neither layout is never recent. */
  lemma UnmatchedIsNotRecent(text: string, now: int)
    requires MatchLayout(MonthDayYear, Trim(text)).None?
    requires MatchLayout(DayMonthYear, Trim(text)).None?
    ensures !IsRecentRelease(text, now)
  {
    if IsRecentRelease(text, now) {
      var l, f, t := RecentWitness(text, now);
    }
  }

  /** No placeholder word occurs in text that lacks the letters o, t and q. */
  lemma NoSkipWord(s: string)
    requires 'o' !in s && 't' !in s && 'q' !in s
    ensures !ContainsAny(s, SkipWords)
  {
    var probes := ['o', 't', 't', 'o', 'o', 'q', 'q', 'q', 'q'];
    var at := [1, 0, 0, 3, 1, 0, 0, 0, 0];
    forall k | 0 <= k < |SkipWords|
      ensures !Contains(s, SkipWords[k])
    {
      assert SkipWords[k][at[k]] == probes[k];
      if Contains(s, SkipWords[k]) {
        ContainedCharOccurs(s, SkipWords[k], probes[k]);
      }
    }
    ContainsAnyIff(s, SkipWords);
  }

  /** A character that is not in the month name, not a digit, not a space and not
      a comma is nowhere in a date text. */
  lemma NotInRendered(l: Layout, f: DateFields, c: char)
    requires WellFormed(f) && c !in f.month && !IsDigit(c) && c != ' ' && c != ','
    ensures c !in Render(l, f)
  {
  }

  /** A date text whose month name has no o, t or q in either case holds no
      placeholder word, so the placeholder test lets it through to the layouts. */
  lemma RenderedDateHasNoSkipWord(l: Layout, f: DateFields)
    requires WellFormed(f)
    requires 'o' !in f.month && 'O' !in f.month && 't' !in f.month && 'T' !in f.month
    requires 'q' !in f.month && 'Q' !in f.month
    ensures !ContainsAny(ToLower(Render(l, f)), SkipWords)
  {
    var s := Render(l, f);
    NotInRendered(l, f, 'o');
    NotInRendered(l, f, 'O');
    NotInRendered(l, f, 't');
    NotInRendered(l, f, 'T');
    NotInRendered(l, f, 'q');
    NotInRendered(l, f, 'Q');
    LowerLacks(s, 'o', 'O');
    LowerLacks(s, 't', 'T');
    LowerLacks(s, 'q', 'Q');
    NoSkipWord(ToLower(s));
  }

  /** A date text whose month name has no o, t or q is already trimmed, passes the
      placeholder test and matches its own layout, giving its pieces back. */
  lemma RenderedDateReachesLayout(l: Layout, f: DateFields)
    requires WellFormed(f)
    requires 'o' !in f.month && 'O' !in f.month && 't' !in f.month && 'T' !in f.month
    requires 'q' !in f.month && 'Q' !in f.month
    ensures Render(l, f) != "" && !ContainsAny(ToLower(Render(l, f)), SkipWords)
    ensures MatchLayout(l, Trim(Render(l, f))) == Some(f)
  {
    var s := Render(l, f);
    assert IsAsciiLetter(f.month[0]) && IsDigit(f.day[0]) && IsDigit(f.year[3]);
    assert s[|s| - 1] == f.year[3];
    TrimUnchanged(s);
    RenderedDateHasNoSkipWord(l, f);
    MatchRender(l, f);
  }

  lemma JanuaryIsMonthOne()
    ensures MonthNumber("Jan") == Some(1)
  {
    assert ToLower("Jan") == "jan";
  }

  lemma DecemberIsMonthTwelve()
    ensures MonthNumber("Dec") == Some(12)
  {
    assert ToLower("Dec") == "dec";
    assert MonthFrom("dec", 11) == Some(12);
  }

  lemma ExampleDigits()
    ensures DigitsValue("15") == 15 && DigitsValue("31") == 31
    ensures DigitsValue("2025") == 2025 && DigitsValue("2026") == 2026
  {
    assert "15"[..1] == "1" && "31"[..1] == "3";
    assert "2026"[..3] == "202" && "2025"[..3] == "202" && "202"[..2] == "20" && "20"[..1] == "2";
  }

  lemma MonthFirstExampleDate()
    ensures DateOf(DateFields("Jan", "15", "2026")) == Some(Midnight(2026, 1, 15))
  {
    JanuaryIsMonthOne();
    ExampleDigits();
  }

  /** January 20 is five days after January 15; March 1, 2026 is 45 days after. */
  lemma MonthFirstExampleWindow()
    ensures InWindow(Midnight(2026, 1, 20), Midnight(2026, 1, 15))
    ensures !InWindow(Midnight(2026, 3, 1), Midnight(2026, 1, 15))
  {
    assert EpochDay(2026, 1, 20) - EpochDay(2026, 1, 15) == 5;
    assert EpochDay(2026, 3, 1) - EpochDay(2026, 1, 15) == 45;
  }

  /** Worked case: "Jan 15, 2026" is recent five days later but not on March 1. */
  lemma MonthFirstExample(text: string)
    requires text == "Jan 15, 2026"
    ensures IsRecentRelease(text, Midnight(2026, 1, 20))
    ensures !IsRecentRelease(text, Midnight(2026, 3, 1))
  {
    assert Render(MonthDayYear, DateFields("Jan", "15", "2026")) == text;
    RenderedDateReachesLayout(MonthDayYear, DateFields("Jan", "15", "2026"));
    MonthFirstExampleDate();
    MonthFirstExampleWindow();
    var f, t := DateFields("Jan", "15", "2026"), Midnight(2026, 1, 15);
    RecentComplete(text, Midnight(2026, 1, 20), MonthDayYear, f, t);
    RecentComplete(text, Midnight(2026, 3, 1), MonthDayYear, f, t);
  }

  lemma DayFirstExampleDate()
    ensures DateOf(DateFields("Dec", "31", "2025")) == Some(Midnight(2025, 12, 31))
  {
    DecemberIsMonthTwelve();
    ExampleDigits();
  }

  /** Worked case: "31 Dec, 2025" is not recent while that day is still to come. */
  lemma DayFirstExample(text: string)
    requires text == "31 Dec, 2025"
    ensures !IsRecentRelease(text, Midnight(2025, 12, 30))
  {
    assert Render(DayMonthYear, DateFields("Dec", "31", "2025")) == text;
    RenderedDateReachesLayout(DayMonthYear, DateFields("Dec", "31", "2025"));
    DayFirstExampleDate();
    MidnightIncreasing(2025, 12, 30, 31);
    FutureDateNotRecent(text, Midnight(2025, 12, 30), DayMonthYear, DateFields("Dec", "31", "2025"),
      Midnight(2025, 12, 31));
  }

  lemma ZeroPaddedYearDigits()
    ensures DigitsValue("0026") == 26 && DigitsValue("00") == 0 && DigitsValue("0015") == 15
  {
    assert "0026"[..3] == "002" && "002"[..2] == "00" && "00"[..1] == "0";
    assert "0015"[..3] == "001" && "001"[..2] == "00";
  }

  lemma ZeroPaddedYearDate()
    ensures DateOf(DateFields("Jan", "15", "0026")) == Some(Midnight(2026, 1, 15))
  {
    JanuaryIsMonthOne();
    ExampleDigits();
    ZeroPaddedYearDigits();
  }

  /** Worked case: a year written "0026" is read as 2026, so "Jan 15, 0026" is
      recent five days after January 15, 2026. */
  lemma ZeroPaddedYearExample(text: string)
    requires text == "Jan 15, 0026"
    ensures IsRecentRelease(text, Midnight(2026, 1, 20))
  {
    var f := DateFields("Jan", "15", "0026");
    assert Render(MonthDayYear, f) == text;
    RenderedDateReachesLayout(MonthDayYear, f);
    ZeroPaddedYearDate();
    MonthFirstExampleWindow();
    RecentComplete(text, Midnight(2026, 1, 20), MonthDayYear, f, Midnight(2026, 1, 15));
  }

  /** Worked case: a day piece of "00" cannot be a day, so the engine reads it as
      the year 2000 and the four-digit piece as the day: "Jan 00, 0015" is
      January 15, 2000. */
  lemma DayZeroExample()
    ensures DateOf(DateFields("Jan", "00", "0015")) == Some(Midnight(2000, 1, 15))
  {
    JanuaryIsMonthOne();
    ZeroPaddedYearDigits();
  }
}
