/** `getFreshReleases`: the newest store search rows whose release date lies in the
    last thirty days, each with its review label and sentiment score, best scores
    first. */
module Fresh {
  import opened Wrappers
  import opened Text
  import opened Recency
  import opened Sentiment
  import opened SteamSearch
  import opened Sequences

  /** How many search rows are looked at. */
  const RowLimit: nat := 60

  datatype Game = Game(title: string, release: string, reviews: string, url: string, score: int)

  /** A row is kept when its trimmed release text is a date of the last thirty days. */
  predicate IsFresh(row: SearchRow, now: int) {
    IsRecentRelease(Trim(row.released), now)
  }

  /** The entry a kept row becomes. */
  function GameOf(row: SearchRow): Game {
    var reviews := ReviewLabel(row.reviewTooltip);
    Game(Trim(row.title), Trim(row.released), reviews, StoreLink(row.href), Score(reviews))
  }

  /** What every listed game satisfies: a recent release text, a one-line non-empty
      review label, the score that label earns, and a link without a query string. */
  predicate Listable(g: Game, now: int) {
    && IsRecentRelease(g.release, now)
    && g.reviews != "" && !Contains(g.reviews, LineBreak)
    && g.score == Score(g.reviews) && 0 <= g.score <= 2
    && !Contains(g.url, QueryMark)
  }

  /** The row test at time `now`, as a function of the row alone. */
  function FreshAt(now: int): SearchRow -> bool {
    row => IsFresh(row, now)
  }

  /** The games pushed while visiting `rows` in order: one per kept row. */
  function Collected(rows: seq<SearchRow>, now: int): (r: seq<Game>)
    ensures |r| <= |rows|
  {
    FilterMap(rows, FreshAt(now), GameOf)
  }

  /** The game of a kept row is listable. */
  lemma GameOfListable(row: SearchRow, now: int)
    requires IsFresh(row, now)
    ensures Listable(GameOf(row), now)
  {
  }

  /** Every collected game was produced by a kept row. */
  lemma CollectedSound(rows: seq<SearchRow>, now: int, g: Game) returns (i: nat)
    requires g in Collected(rows, now)
    ensures i < |rows| && IsFresh(rows[i], now) && g == GameOf(rows[i])
  {
    i := FilterMapSound(rows, FreshAt(now), GameOf, g);
  }

  /** Every kept row produces a collected game. */
  lemma CollectedComplete(rows: seq<SearchRow>, now: int, i: nat)
    requires i < |rows| && IsFresh(rows[i], now)
    ensures GameOf(rows[i]) in Collected(rows, now)
  {
    FilterMapAt(rows, FreshAt(now), GameOf, i);
  }

  /** Every collected game is listable. */
  lemma CollectedListable(rows: seq<SearchRow>, now: int)
    ensures forall g :: g in Collected(rows, now) ==> Listable(g, now)
  {
    forall g | g in Collected(rows, now)
      ensures Listable(g, now)
    {
      var i := CollectedSound(rows, now, g);
      GameOfListable(rows[i], now);
    }
  }

  /** Every collected game scores 0, 1 or 2, as the sort by score expects. */
  lemma CollectedScores(rows: seq<SearchRow>, now: int)
    ensures ScoresInRange(Collected(rows, now))
  {
    CollectedListable(rows, now);
    var r := Collected(rows, now);
    assert forall i :: 0 <= i < |r| ==> r[i] in r;
  }

  /** The games of score `s`, in their original order. */
  function WithScore(gs: seq<Game>, s: int): (r: seq<Game>)
    ensures |r| <= |gs|
    ensures forall i :: 0 <= i < |r| ==> r[i].score == s
  {
    if gs == [] then []
    else
      var last := gs[|gs| - 1];
      WithScore(gs[..|gs| - 1], s) + if last.score == s then [last] else []
  }

  predicate ScoresInRange(gs: seq<Game>) {
    forall i :: 0 <= i < |gs| ==> 0 <= gs[i].score <= 2
  }

  predicate SortedByScore(gs: seq<Game>) {
    forall i, j :: 0 <= i < j < |gs| ==> gs[i].score >= gs[j].score
  }

  /** `gs.sort((a, b) => b.score - a.score)`. The sort is stable, so with scores
      0, 1 and 2 it lists the games of score 2, then those of score 1, then those
      of score 0, each group in its original order. That this is the one stable
      descending order is `StableSortIsUnique`; every collected game scores 0, 1
      or 2 (`CollectedListable`). */
  function SortByScore(gs: seq<Game>): seq<Game> {
    WithScore(gs, 2) + WithScore(gs, 1) + WithScore(gs, 0)
  }

  /** Appending a game appends it to the pick of its own score only. */
  lemma WithScoreSnoc(p: seq<Game>, x: Game, s: int)
    ensures WithScore(p + [x], s) == WithScore(p, s) + if x.score == s then [x] else []
  {
    DropLast(p, x);
  }

  /** Picking one score distributes over concatenation. */
  lemma {:induction false} WithScoreAppend(a: seq<Game>, b: seq<Game>, s: int)
    ensures WithScore(a + b, s) == WithScore(a, s) + WithScore(b, s)
  {
    if b == [] {
      assert a + b == a;
    } else {
      var b', y := b[..|b| - 1], b[|b| - 1];
      SplitLast(b);
      AppendLastAssoc(a, b', y);
      WithScoreAppend(a, b', s);
      WithScoreSnoc(a + b', y, s);
      AppendLastAssoc(WithScore(a, s), WithScore(b', s), y);
    }
  }

  /** A sequence whose games all have score `s` is its own pick of `s`. */
  lemma {:induction false} WithScoreAll(gs: seq<Game>, s: int)
    requires forall i :: 0 <= i < |gs| ==> gs[i].score == s
    ensures WithScore(gs, s) == gs
  {
    if gs != [] {
      WithScoreAll(gs[..|gs| - 1], s);
      SplitLast(gs);
    }
  }

  /** The pick of a score nobody has is empty. */
  lemma {:induction false} WithScoreNone(gs: seq<Game>, s: int)
    requires forall i :: 0 <= i < |gs| ==> gs[i].score != s
    ensures WithScore(gs, s) == []
  {
    if gs != [] {
      WithScoreNone(gs[..|gs| - 1], s);
    }
  }

  /** A game is picked exactly when it is in the sequence with that score. */
  lemma {:induction false} WithScoreMembers(gs: seq<Game>, s: int, g: Game)
    ensures g in WithScore(gs, s) <==> g in gs && g.score == s
  {
    if gs != [] {
      WithScoreMembers(gs[..|gs| - 1], s, g);
      SplitLast(gs);
    }
  }

  /** The sort is a permutation: it neither drops nor duplicates a game. */
  lemma {:induction false} SortByScorePermutes(gs: seq<Game>)
    requires ScoresInRange(gs)
    ensures multiset(SortByScore(gs)) == multiset(gs)
  {
    if gs != [] {
      var front, x := gs[..|gs| - 1], gs[|gs| - 1];
      SortByScorePermutes(front);
      SplitLast(gs);
      var a, b, c := WithScore(front, 2), WithScore(front, 1), WithScore(front, 0);
      var t := if x.score == 2 then [x] else [];
      var u := if x.score == 1 then [x] else [];
      var v := if x.score == 0 then [x] else [];
      WithScoreSnoc(front, x, 2);
      WithScoreSnoc(front, x, 1);
      WithScoreSnoc(front, x, 0);
      RegroupMultiset(a, b, c, t, u, v, x);
    }
  }

  /** The sort puts higher scores first. */
  lemma SortByScoreSorted(gs: seq<Game>)
    ensures SortedByScore(SortByScore(gs))
  {
    var a, b, c := WithScore(gs, 2), WithScore(gs, 1), WithScore(gs, 0);
    var r := SortByScore(gs);
    forall i, j | 0 <= i < j < |r|
      ensures r[i].score >= r[j].score
    {
      assert i < |a| ==> r[i] == a[i];
      assert |a| <= i < |a| + |b| ==> r[i] == b[i - |a|];
      assert |a| + |b| <= i ==> r[i] == c[i - |a| - |b|];
      assert j < |a| ==> r[j] == a[j];
      assert |a| <= j < |a| + |b| ==> r[j] == b[j - |a|];
      assert |a| + |b| <= j ==> r[j] == c[j - |a| - |b|];
    }
  }

  /** The sort is stable: the games of each score keep their original order. */
  lemma SortByScoreStable(gs: seq<Game>, s: int)
    requires ScoresInRange(gs)
    ensures WithScore(SortByScore(gs), s) == WithScore(gs, s)
  {
    var a, b, c := WithScore(gs, 2), WithScore(gs, 1), WithScore(gs, 0);
    WithScoreAppend(a + b, c, s);
    WithScoreAppend(a, b, s);
    var a', b', c' := WithScore(a, s), WithScore(b, s), WithScore(c, s);
    OnlyGroup(a', b', c');
    if s == 2 {
      WithScoreAll(a, 2); WithScoreNone(b, 2); WithScoreNone(c, 2);
    } else if s == 1 {
      WithScoreNone(a, 1); WithScoreAll(b, 1); WithScoreNone(c, 1);
    } else if s == 0 {
      WithScoreNone(a, 0); WithScoreNone(b, 0); WithScoreAll(c, 0);
    } else {
      WithScoreNone(a, s); WithScoreNone(b, s); WithScoreNone(c, s); WithScoreNone(gs, s);
    }
  }

  /** The front of a sorted sequence is sorted and no game in it scores below the last. */
  lemma FrontOfSorted(p: seq<Game>, x: Game)
    requires ScoresInRange(p + [x]) && SortedByScore(p + [x])
    ensures ScoresInRange(p) && SortedByScore(p) && 0 <= x.score <= 2
    ensures forall i :: 0 <= i < |p| ==> p[i].score >= x.score
  {
    assert forall i :: 0 <= i < |p| ==> (p + [x])[i] == p[i];
    assert (p + [x])[|p|] == x;
  }

  /** Appending a game that scores no higher than any before it keeps a grouped
      sequence grouped. */
  lemma GroupedStep(p: seq<Game>, x: Game)
    requires SortByScore(p) == p && 0 <= x.score <= 2
    requires forall i :: 0 <= i < |p| ==> p[i].score >= x.score
    ensures SortByScore(p + [x]) == p + [x]
  {
    var a, b, c := WithScore(p, 2), WithScore(p, 1), WithScore(p, 0);
    var t := if x.score == 2 then [x] else [];
    var u := if x.score == 1 then [x] else [];
    var v := if x.score == 0 then [x] else [];
    WithScoreSnoc(p, x, 2);
    WithScoreSnoc(p, x, 1);
    WithScoreSnoc(p, x, 0);
    assert SortByScore(p + [x]) == (a + t) + (b + u) + (c + v);
    if x.score == 1 {
      WithScoreNone(p, 0);
    } else if x.score == 2 {
      WithScoreNone(p, 0);
      WithScoreNone(p, 1);
    }
    Regroup(a, b, c, t, u, v, x);
  }

  /** A sequence already sorted by descending score is its own grouping by score. */
  lemma {:induction false} SortedIsGrouped(r: seq<Game>)
    requires ScoresInRange(r) && SortedByScore(r)
    ensures SortByScore(r) == r
  {
    if r != [] {
      var p, x := r[..|r| - 1], r[|r| - 1];
      SplitLast(r);
      FrontOfSorted(p, x);
      SortedIsGrouped(p);
      GroupedStep(p, x);
    }
  }

  /** The stable descending order is unique: any order that puts higher scores first
      and keeps the games of each score in their original order is `SortByScore`. */
  lemma StableSortIsUnique(gs: seq<Game>, r: seq<Game>)
    requires ScoresInRange(gs) && SortedByScore(r)
    requires forall s :: WithScore(r, s) == WithScore(gs, s)
    ensures r == SortByScore(gs)
  {
    forall i | 0 <= i < |r|
      ensures 0 <= r[i].score <= 2
    {
      WithScoreMembers(r, r[i].score, r[i]);
      WithScoreMembers(gs, r[i].score, r[i]);
    }
    SortedIsGrouped(r);
  }

  /** The fresh-release list for a search results page (`None` when the page could
      not be fetched or read, which yields an empty list). */
  function FreshReleases(page: Option<seq<SearchRow>>, now: int): seq<Game> {
    match page
    case None => []
    case Some(rows) => SortByScore(Collected(Take(rows, RowLimit), now))
  }

  /** Every listed game comes from one of the first sixty rows and is listable; the
      list is sorted by descending score; an unreadable page lists nothing. */
  lemma FreshReleasesShape(page: Option<seq<SearchRow>>, now: int)
    ensures |FreshReleases(page, now)| <= RowLimit
    ensures SortedByScore(FreshReleases(page, now))
    ensures forall g :: g in FreshReleases(page, now) ==> Listable(g, now)
    ensures page.None? ==> FreshReleases(page, now) == []
  {
    if page.Some? {
      var gs := Collected(Take(page.value, RowLimit), now);
      CollectedListable(Take(page.value, RowLimit), now);
      CollectedScores(Take(page.value, RowLimit), now);
      SortByScorePermutes(gs);
      SortByScoreSorted(gs);
      assert |FreshReleases(page, now)| == |multiset(gs)|;
      forall g | g in FreshReleases(page, now)
        ensures Listable(g, now)
      {
        assert g in multiset(gs);
      }
    }
  }

  /** The list is a reordering of the games of the kept rows among the first sixty,
      and tied games stay in page order. */
  lemma FreshReleasesReorders(rows: seq<SearchRow>, now: int)
    ensures multiset(FreshReleases(Some(rows), now)) == multiset(Collected(Take(rows, RowLimit), now))
    ensures forall s :: WithScore(FreshReleases(Some(rows), now), s)
                        == WithScore(Collected(Take(rows, RowLimit), now), s)
  {
    var gs := Collected(Take(rows, RowLimit), now);
    CollectedScores(Take(rows, RowLimit), now);
    SortByScorePermutes(gs);
    forall s
      ensures WithScore(FreshReleases(Some(rows), now), s) == WithScore(gs, s)
    {
      SortByScoreStable(gs, s);
    }
  }

  /** One game per fresh row among the first sixty, so sixty rows of which `m` are
      rejected list `60 - m` games. */
  lemma FreshReleasesCount(rows: seq<SearchRow>, now: int)
    ensures |FreshReleases(Some(rows), now)|
            == |KeptBelow(rows, FreshAt(now), RowLimit)|
  {
    var taken := Take(rows, RowLimit);
    var gs := Collected(taken, now);
    CollectedScores(taken, now);
    SortByScorePermutes(gs);
    assert |SortByScore(gs)| == |multiset(SortByScore(gs))| == |multiset(gs)| == |gs|;
    FilterMapPrefixCount(rows, FreshAt(now), GameOf, RowLimit);
  }

  /** A listed game comes from a kept row among the first sixty. */
  lemma FreshReleasesSound(rows: seq<SearchRow>, now: int, g: Game) returns (i: nat)
    requires g in FreshReleases(Some(rows), now)
    ensures i < |rows| && i < RowLimit && IsFresh(rows[i], now) && g == GameOf(rows[i])
  {
    var taken := Take(rows, RowLimit);
    var gs := Collected(taken, now);
    CollectedScores(taken, now);
    SortByScorePermutes(gs);
    assert g in multiset(gs);
    i := CollectedSound(taken, now, g);
    assert taken[i] == rows[i];
  }

  /** Every kept row among the first sixty is listed. */
  lemma FreshReleasesComplete(rows: seq<SearchRow>, now: int, i: nat)
    requires i < |rows| && i < RowLimit && IsFresh(rows[i], now)
    ensures GameOf(rows[i]) in FreshReleases(Some(rows), now)
  {
    var taken := Take(rows, RowLimit);
    var gs := Collected(taken, now);
    assert taken[i] == rows[i];
    CollectedComplete(taken, now, i);
    CollectedScores(taken, now);
    SortByScorePermutes(gs);
    assert GameOf(rows[i]) in multiset(FreshReleases(Some(rows), now));
  }

  /** The `.each` callback for one row: the row's game is pushed when its trimmed
      release text is recent, with the label and score read from the row. */
  method VisitRow(games: seq<Game>, row: SearchRow, now: int) returns (pushed: seq<Game>)
    ensures pushed == games + if IsFresh(row, now) then [GameOf(row)] else []
  {
    pushed := games;
    var title := Trim(row.title);
    var release := Trim(row.released);
    var recent := CheckRecentRelease(release, now);
    if !recent {
      return;
    }
    var reviews := ReadReviews(row.reviewTooltip);
    var url := StoreLink(row.href);
    var score := ScoreOf(reviews);
    pushed := games + [Game(title, release, reviews, url, score)];
  }

  /** The route's rows, visited in page order, then the list sorted by score. */
  method GetFreshReleases(page: Option<seq<SearchRow>>, now: int) returns (games: seq<Game>)
    ensures games == FreshReleases(page, now)
  {
    if page.None? {
      return [];
    }
    var rows := Take(page.value, RowLimit);
    games := [];
    var i := 0;
    while i < |rows|
      invariant 0 <= i <= |rows|
      invariant games == Collected(rows[..i], now)
    {
      games := VisitRow(games, rows[i], now);
      FilterMapSnoc(rows, FreshAt(now), GameOf, i);
      i := i + 1;
    }
    FilterMapAll(rows, FreshAt(now), GameOf);
    games := SortByScore(games);
  }
}
