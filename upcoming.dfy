/** `getUpcomingHype`: the most wishlisted store rows whose release text reads as
    not out yet (a placeholder, a coming year or a quarter), at most twelve, in
    page order. */
module Upcoming {
  import opened Wrappers
  import opened Text
  import opened Recency
  import opened SteamSearch
  import opened Sequences

  /** How many search rows are looked at, and how many games are kept. */
  const RowLimit: nat := 20
  const ListLimit: nat := 12

  /** Lower-case words that mark a release text as upcoming. */
  const UpcomingKeywords: seq<string> :=
    ["coming", "tba", "to be", "announced", "2026", "2027", "soon", "q1", "q2", "q3", "q4"]

  /** What a row with an empty release text shows instead. */
  const Unannounced: string := "TBA"

  datatype UpcomingGame = UpcomingGame(title: string, release: string, url: string)

  /** `release.trim() || 'TBA'`. */
  function ReleaseShown(released: string): string {
    if Trim(released) == "" then Unannounced else Trim(released)
  }

  /** The shown release text is the trimmed release text, or "TBA" when that is
      empty; either way it is never empty and is already trimmed. */
  lemma ReleaseShownTrimmed(released: string)
    ensures Trim(released) == "" ==> ReleaseShown(released) == Unannounced
    ensures Trim(released) != "" ==> ReleaseShown(released) == Trim(released)
    ensures ReleaseShown(released) != ""
    ensures Trim(ReleaseShown(released)) == ReleaseShown(released)
  {
    TrimIdempotent(released);
    UnannouncedTrimmed(Unannounced);
  }

  lemma UnannouncedTrimmed(text: string)
    requires text == Unannounced
    ensures Trim(text) == text
  {
    assert text[0] == 'T' && text[|text| - 1] == 'A';
    TrimUnchanged(text);
  }

  /** `upcomingKeywords.some(w => release.toLowerCase().includes(w))`. */
  predicate IsHyped(release: string) {
    ContainsAny(ToLower(release), UpcomingKeywords)
  }

  /** "TBA" reads as upcoming, so a row without a release text is always kept. */
  lemma UnannouncedIsHyped()
    ensures IsHyped(Unannounced)
  {
    assert ToLower(Unannounced) == "tba";
    ContainsAt("tba", "tba", 0);
  }

  /** Every placeholder word that rules a text out as a recent release marks it as
      upcoming: the two lists agree on what "not out yet" means. */
  lemma PlaceholderIsHyped(text: string)
    requires ContainsAny(ToLower(text), SkipWords)
    ensures IsHyped(text)
  {
    var lower := ToLower(text);
    ContainsAnyIff(lower, SkipWords);
    ContainsAnyIff(lower, UpcomingKeywords);
    var k :| 0 <= k < |SkipWords| && Contains(lower, SkipWords[k]);
    var j := [0, 1, 2, 3, 6, 7, 8, 9, 10][k];
    assert UpcomingKeywords[j] == SkipWords[k];
  }

  /** A row is kept when its shown release text reads as upcoming. */
  predicate IsUpcoming(row: SearchRow) {
    IsHyped(ReleaseShown(row.released))
  }

  /** The entry a kept row becomes. */
  function UpcomingOf(row: SearchRow): UpcomingGame {
    UpcomingGame(Trim(row.title), ReleaseShown(row.released), StoreLink(row.href))
  }

  /** The games pushed while visiting `rows` in order: one per kept row. */
  function Candidates(rows: seq<SearchRow>): (r: seq<UpcomingGame>)
    ensures |r| <= |rows|
  {
    FilterMap(rows, IsUpcoming, UpcomingOf)
  }

  /** Every candidate was produced by a kept row. */
  lemma CandidatesSound(rows: seq<SearchRow>, g: UpcomingGame) returns (i: nat)
    requires g in Candidates(rows)
    ensures i < |rows| && IsUpcoming(rows[i]) && g == UpcomingOf(rows[i])
  {
    i := FilterMapSound(rows, IsUpcoming, UpcomingOf, g);
  }

  /** Every candidate shows an upcoming, trimmed, non-empty release text and a link
      without a query string. */
  predicate Listable(g: UpcomingGame) {
    && IsHyped(g.release) && g.release != "" && Trim(g.release) == g.release
    && !Contains(g.url, QueryMark)
  }

  lemma UpcomingOfListable(row: SearchRow)
    requires IsUpcoming(row)
    ensures Listable(UpcomingOf(row))
  {
    ReleaseShownTrimmed(row.released);
  }

  /** The wishlist list for a search results page (`None` when the page could not
      be fetched or read, which yields an empty list). */
  function UpcomingHype(page: Option<seq<SearchRow>>): seq<UpcomingGame> {
    match page
    case None => []
    case Some(rows) => Take(Candidates(Take(rows, RowLimit)), ListLimit)
  }

  /** At most twelve games, each listable; an unreadable page lists nothing. */
  lemma UpcomingHypeShape(page: Option<seq<SearchRow>>)
    ensures |UpcomingHype(page)| <= ListLimit
    ensures forall g :: g in UpcomingHype(page) ==> Listable(g)
    ensures page.None? ==> UpcomingHype(page) == []
  {
    forall g | g in UpcomingHype(page)
      ensures Listable(g)
    {
      var taken := Take(page.value, RowLimit);
      var i := CandidatesSound(taken, g);
      UpcomingOfListable(taken[i]);
    }
  }

  /** One game per kept row among the first twenty, cut at twelve. */
  lemma UpcomingHypeCount(rows: seq<SearchRow>)
    ensures |UpcomingHype(Some(rows))|
            == Min(ListLimit, |KeptBelow(rows, IsUpcoming, RowLimit)|)
  {
    FilterMapPrefixCount(rows, IsUpcoming, UpcomingOf, RowLimit);
  }

  /** A listed game comes from a kept row among the first twenty. */
  lemma UpcomingHypeSound(rows: seq<SearchRow>, g: UpcomingGame) returns (i: nat)
    requires g in UpcomingHype(Some(rows))
    ensures i < |rows| && i < RowLimit && IsUpcoming(rows[i]) && g == UpcomingOf(rows[i])
  {
    var taken := Take(rows, RowLimit);
    i := CandidatesSound(taken, g);
    assert taken[i] == rows[i];
  }

  /** A kept row among the first twenty with fewer than twelve kept rows before it
      is listed, at its place in page order. */
  lemma UpcomingHypeComplete(rows: seq<SearchRow>, i: nat)
    requires i < |rows| && i < RowLimit && IsUpcoming(rows[i])
    ensures var before := |Candidates(rows[..i])|;
            before < ListLimit ==> before < |UpcomingHype(Some(rows))|
                                   && UpcomingHype(Some(rows))[before] == UpcomingOf(rows[i])
  {
    var taken := Take(rows, RowLimit);
    TakePrefix(rows, RowLimit, i);
    TakeIndex(rows, RowLimit, i);
    FilterMapAt(taken, IsUpcoming, UpcomingOf, i);
    var before := |Candidates(rows[..i])|;
    if before < ListLimit {
      TakeIndex(Candidates(taken), ListLimit, before);
    }
  }

  /** The `.each` callback for one row: the row's game is pushed when its release
      text, "TBA" when empty, reads as upcoming. */
  method VisitRow(games: seq<UpcomingGame>, row: SearchRow) returns (pushed: seq<UpcomingGame>)
    ensures pushed == games + if IsUpcoming(row) then [UpcomingOf(row)] else []
  {
    pushed := games;
    var title := Trim(row.title);
    var release := Trim(row.released);
    if release == "" {
      release := Unannounced;
    }
    if ContainsAny(ToLower(release), UpcomingKeywords) {
      var url := StoreLink(row.href);
      pushed := games + [UpcomingGame(title, release, url)];
    }
  }

  /** The route's rows, visited in page order, then the first twelve games kept. */
  method GetUpcomingHype(page: Option<seq<SearchRow>>) returns (games: seq<UpcomingGame>)
    ensures games == UpcomingHype(page)
  {
    if page.None? {
      return [];
    }
    var rows := Take(page.value, RowLimit);
    games := [];
    var i := 0;
    while i < |rows|
      invariant 0 <= i <= |rows|
      invariant games == Candidates(rows[..i])
    {
      games := VisitRow(games, rows[i]);
      FilterMapSnoc(rows, IsUpcoming, UpcomingOf, i);
      i := i + 1;
    }
    FilterMapAll(rows, IsUpcoming, UpcomingOf);
    games := Take(games, ListLimit);
  }
}
