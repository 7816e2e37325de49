# indie-radar: the games aggregation route

indie-radar gathers signals about trending indie games and serves them from one
endpoint, `GET /api/games`. The handler fetches four public pages side by side:
- the store's newest indie releases
- the store's most wishlisted upcoming indie games
- a news search feed
- itch.io's "new and popular" listing

It extracts a short typed list from each page and returns the four lists with a
generation timestamp.

This project models that route in Dafny, module by module:

- `Text`: the JavaScript string operations the route relies on: `trim`, ASCII
  `toLowerCase`, `includes`, `split(sep)[0]`, `slice(0, n)`, and `attr(...) || ''`.
- `Calendar`: what `new Date(text)` yields for the two accepted date layouts. The
  result is the day's local midnight in milliseconds, or nothing for an invalid date.
- `Recency`: `isRecentRelease`. It rejects placeholder words, tries the two anchored
  layouts in order, and keeps a date 0 to 30 days before now.
- `Sentiment`: the review label taken from a row's tooltip, and the 0/1/2 score that
  label earns.
- `SteamSearch`: a store search row and its store link with the query string removed.
- `Fresh`, `Upcoming`, `News`, `Itch`: the four extractors. Each `.each` loop is a
  method with a loop invariant. That method is proved equal to a specification
  function, and the promised properties are proved about that function: bounds,
  soundness and completeness with respect to the page, order, and the stable sort
  by score.
- `Route`: the handler that joins the four lists into one report.

A page that cannot be fetched or parsed (the route's `try`/`catch`) is the input
`None`, and that source contributes an empty list. The clock is the parameter `now`,
a millisecond count.

## Model

| member | source | states |
|---|---|---|
| Text.Trim | src/app/api/games/route.ts:75-76 | definition of `trim()`: the start trim followed by the end trim; what it keeps is stated by TrimIsCore |
| Text.ToLower | src/app/api/games/route.ts:13 | ASCII `toLowerCase`: the same length, each character lowered on its own |
| Text.Contains | src/app/api/games/route.ts:13 | definition of `includes`: its meaning as an occurrence at some index is proved by ContainsAt and ContainsIndex |
| Text.ContainsAt | src/app/api/games/route.ts:13 | an occurrence at any index makes `includes` true |
| Text.ContainsIndex | src/app/api/games/route.ts:13 | `includes` is true only where there is an occurrence, and the first one is returned |
| Text.AttrText | src/app/api/games/route.ts:83 | `attr(name) || ''`: the attribute's text, or the empty text when it is absent |
| Text.TrimIsCore | src/app/api/games/route.ts:75-76 | `trim()` returns a slice of the text that neither starts nor ends with white space, and everything cut off on both sides is white space (the ECMAScript set) |
| Text.TrimIdempotent | src/app/api/games/route.ts:75-76 | trimming a trimmed text changes nothing |
| Text.TrimStartSpaces | src/app/api/games/route.ts:75 | everything the start trim removes is white space |
| Text.TrimEndSpaces | src/app/api/games/route.ts:75 | everything the end trim removes is white space |
| Text.BeforeFirst | src/app/api/games/route.ts:84 | `split(sep)[0]` is a prefix of the text with no separator before its end, and it ends at the first separator or at the end of the text |
| Text.BeforeFirstAt | src/app/api/games/route.ts:84 | when the first separator occurs at `k`, `split(sep)[0]` is the first `k` characters |
| Text.ContainsAnyIff | src/app/api/games/route.ts:13 | `words.some(w => s.includes(w))` holds exactly when some word of the list occurs in the text |
| Text.ContainsAny | src/app/api/games/route.ts:13 | `words.some(w => s.includes(w))`, the keyword test used here and again at line 120; stated by ContainsAnyIff |
| Text.Take | src/app/api/games/route.ts:146 | `slice(0, n)` keeps the first `min(n, length)` elements |
| Sequences.FilterMap | src/app/api/games/route.ts:73-94 | what an `.each` loop that pushes one entry per kept element builds, in order; its length is stated by FilterMapCount |
| Sequences.FilterMapSound | src/app/api/games/route.ts:73-94 | every pushed entry is the image of a kept element |
| Sequences.FilterMapAt | src/app/api/games/route.ts:73-94 | a kept element's entry sits right after the entries of the elements before it, so every kept element is pushed, in order |
| Sequences.FilterMapCount | src/app/api/games/route.ts:73-94 | the list has exactly one entry per kept element: its length is the number of kept positions |
| Sequences.FilterMapPrefixCount | src/app/api/games/route.ts:73 | filtering the first `n` elements (`slice(0, n)`) gives one entry per kept position below `n` |
| Calendar.MonthNumber | src/app/api/games/route.ts:25 | a three-letter month name gives month 1 to 12 exactly when it abbreviates one in either case, and otherwise gives nothing |
| Calendar.FullYear | src/app/api/games/route.ts:25 | the engine reads a year number below 100 as 1950 to 2049 with the same last two digits, and any other year as written |
| Calendar.DayAndYear | src/app/api/games/route.ts:25 | of the two numbers of a date with a named month, the first is the day when it lies in 1 to 31, and otherwise it is the year and the second is the day |
| Calendar.DateOf | src/app/api/games/route.ts:25-26 | `new Date` names a valid date exactly when the month is known and the composed day is between 1 and 31, and its value is local midnight of the composed year, month and day |
| Calendar.DateOfAsWritten | src/app/api/games/route.ts:25-26 | a date with a day of 1 to 31 and a year of at least 100 is local midnight of exactly that day, month and year |
| Calendar.MisplacedDayIsTwoDigitYear | src/app/api/games/route.ts:25 | when the day piece cannot be a day, it is read as a two-digit year, so the date lies in 1950 to 2049 |
| Calendar.EpochDay | src/app/api/games/route.ts:25 | day number since 1970-01-01 of a Gregorian date; its day count per year is checked by YearStartCounts and its month boundaries by NextDayAfterMonthEnd |
| Calendar.Midnight | src/app/api/games/route.ts:25 | the time value of a valid `new Date`: local midnight of the day, EpochDay days of 86,400,000 ms after the epoch |
| Calendar.YearStartCounts | src/app/api/games/route.ts:25 | the closed-form day count at the start of a year equals the year-by-year Gregorian count |
| Calendar.DayOverflowRollsOver | src/app/api/games/route.ts:25 | a day past the end of a month names a day of the next month |
| Recency.MatchLayout | src/app/api/games/route.ts:16-19 | an anchored layout matches only well-formed pieces (three letters, one or two digits, four digits) that render back to the text |
| Recency.MatchRender | src/app/api/games/route.ts:16-19 | every text of a layout's shape matches that layout and yields its own pieces |
| Recency.LayoutsExclusive | src/app/api/games/route.ts:16-22 | no text matches both layouts, so the order of the loop cannot change the answer |
| Recency.InWindow | src/app/api/games/route.ts:27-28 | now is 0 to 30 days, counted in milliseconds, after the release: the `diffDays` test |
| Recency.RecentByLayouts | src/app/api/games/route.ts:21-31 | the loop over the formats: the first one that matches and names a valid date decides, and a text no format accepts is not recent |
| Recency.IsRecentRelease | src/app/api/games/route.ts:10-13 | an empty text or a text holding a placeholder word in any case is never recent |
| Recency.CheckRecentRelease | src/app/api/games/route.ts:9-34 | the early returns and the loop over the formats compute `isRecentRelease` |
| Recency.RecentWitness | src/app/api/games/route.ts:21-33 | a recent text is non-empty and free of placeholder words, and its trimmed form has a layout that names a valid date 0 to 30 days before now |
| Recency.RecentComplete | src/app/api/games/route.ts:21-28 | for a placeholder-free text whose trimmed form names a valid date, the text is recent exactly when that date is 0 to 30 days before now |
| Recency.FutureDateNotRecent | src/app/api/games/route.ts:28 | a release date later than now is never recent |
| Recency.UnmatchedIsNotRecent | src/app/api/games/route.ts:21-33 | a text matching neither layout is never recent |
| Recency.RenderedDateHasNoSkipWord | src/app/api/games/route.ts:12-13 | a date text whose month name has no o, t or q passes the placeholder test |
| Recency.RenderedDateReachesLayout | src/app/api/games/route.ts:10-25 | a date text whose month name has no o, t or q is non-empty, passes the placeholder test, is unchanged by trim and matches its own layout with its pieces captured |
| Recency.MonthFirstExample | src/app/api/games/route.ts:17 | "Jan 15, 2026" is recent on January 20, 2026 and not on March 1, 2026 |
| Recency.DayFirstExample | src/app/api/games/route.ts:18 | "31 Dec, 2025" is not recent on December 30, 2025 |
| Recency.ZeroPaddedYearExample | src/app/api/games/route.ts:17-28 | "Jan 15, 0026" is read as January 15, 2026 and so is recent on January 20, 2026 |
| Recency.DayZeroExample | src/app/api/games/route.ts:18-25 | "Jan 00, 0015" is read as January 15, 2000: a day piece of 00 becomes the year |
| Sentiment.ReviewLabel | src/app/api/games/route.ts:80-85 | the label is non-empty and holds no `<br>`; it is "New" when the row has no review element or the tooltip's first `<br>`-separated line is empty, and that line otherwise |
| Sentiment.EmptyFirstLineIsNew | src/app/api/games/route.ts:84 | an empty tooltip, and one that starts with `<br>`, read "New" |
| Sentiment.ReviewLabelReadsBack | src/app/api/games/route.ts:83-84 | a tooltip made of a label, optionally followed by `<br>` and more text, reads back as that label |
| Sentiment.ReadReviews | src/app/api/games/route.ts:80-85 | the route's assignments compute the review label |
| Sentiment.Score | src/app/api/games/route.ts:89-91 | the score is 0, 1 or 2: it is 2 exactly when the label says "Very Positive" or "Overwhelmingly", and 1 exactly when it says "Positive" and neither of those |
| Sentiment.ScoreOf | src/app/api/games/route.ts:89-91 | the route's assignments compute the score |
| Sentiment.UpperLabelScores | src/app/api/games/route.ts:90-91 | "Overwhelmingly Positive" and "Very Positive" score 2, "Positive" and "Mostly Positive" score 1, and "Overwhelmingly Negative" also scores 2 |
| Sentiment.LowerLabelScores | src/app/api/games/route.ts:89-91 | the negative labels, "Mixed", "New" and the empty text score 0 |
| SteamSearch.StoreLink | src/app/api/games/route.ts:87 | the link is the `href` up to its first `?`: a prefix with no `?` in it that ends where the `href` ends or where a `?` starts; an `href` without `?` is kept whole, and a missing `href` gives "" |
| SteamSearch.StoreLinkDropsQuery | src/app/api/games/route.ts:122 | a path followed by `?` and a query string reads back as the bare path |
| Fresh.IsFresh | src/app/api/games/route.ts:76-78 | a row is kept exactly when its trimmed release text passes isRecentRelease |
| Fresh.GameOf | src/app/api/games/route.ts:75-93 | the entry a kept row becomes: trimmed title and release, review label, store link and the label's score |
| Fresh.Collected | src/app/api/games/route.ts:73-94 | the games the loop pushes, one per row whose trimmed release text is recent, in page order |
| Fresh.CollectedListable | src/app/api/games/route.ts:73-94 | every pushed game has a recent release text, a non-empty one-line label, the score of that label, and a link without a query string |
| Fresh.CollectedSound | src/app/api/games/route.ts:78-93 | every pushed game comes from a row whose trimmed release text is recent |
| Fresh.CollectedComplete | src/app/api/games/route.ts:78-93 | every row whose trimmed release text is recent pushes its game |
| Fresh.SortByScore | src/app/api/games/route.ts:96 | the stable sort by descending score, as the games of score 2, then 1, then 0, each in page order; StableSortIsUnique shows it is the only such order |
| Fresh.SortByScorePermutes | src/app/api/games/route.ts:96 | the sort by score is a permutation |
| Fresh.SortByScoreSorted | src/app/api/games/route.ts:96 | the sort puts higher scores first |
| Fresh.SortByScoreStable | src/app/api/games/route.ts:96 | games with equal scores keep their page order |
| Fresh.StableSortIsUnique | src/app/api/games/route.ts:96 | any descending, stable order of the games is the one computed, so the score-bucket definition is the stable `sort` |
| Fresh.FreshReleases | src/app/api/games/route.ts:73-99 | the extractor's result: the first sixty rows filtered and sorted, or nothing when the page cannot be read |
| Fresh.FreshReleasesShape | src/app/api/games/route.ts:73-99 | at most sixty games, sorted by descending score, each listable, and none when the page cannot be read |
| Fresh.FreshReleasesReorders | src/app/api/games/route.ts:73-96 | the list reorders the games pushed for the first sixty rows, and ties stay in page order |
| Fresh.FreshReleasesCount | src/app/api/games/route.ts:73-96 | the list holds exactly one game per fresh row among the first sixty: sixty rows of which `m` are rejected list `60 - m` games |
| Fresh.FreshReleasesSound | src/app/api/games/route.ts:73-96 | a listed game comes from a recent row among the first sixty |
| Fresh.FreshReleasesComplete | src/app/api/games/route.ts:73-96 | every recent row among the first sixty is listed |
| Fresh.VisitRow | src/app/api/games/route.ts:74-93 | one row's callback pushes the row's game exactly when its release is recent |
| Fresh.GetFreshReleases | src/app/api/games/route.ts:62-101 | the extractor returns the fresh-release list of the page |
| Upcoming.ReleaseShown | src/app/api/games/route.ts:118 | `release.trim() || 'TBA'`; stated by ReleaseShownTrimmed |
| Upcoming.ReleaseShownTrimmed | src/app/api/games/route.ts:118 | the shown release text is the trimmed text, or "TBA" when that is empty; it is trimmed and non-empty |
| Upcoming.IsHyped | src/app/api/games/route.ts:113-120 | the release text, lowered, contains one of the eleven upcoming keywords; UnannouncedIsHyped and PlaceholderIsHyped are proved about it |
| Upcoming.UnannouncedIsHyped | src/app/api/games/route.ts:118-120 | a row without a release text is always kept, because "TBA" is a keyword |
| Upcoming.PlaceholderIsHyped | src/app/api/games/route.ts:12-13 | every placeholder word that makes a release not recent is also an upcoming keyword |
| Upcoming.IsUpcoming | src/app/api/games/route.ts:118-120 | a row is kept exactly when its shown release text, lower-cased, holds one of the keywords |
| Upcoming.UpcomingOf | src/app/api/games/route.ts:117-123 | the entry a kept row becomes: trimmed title, shown release text and store link |
| Upcoming.Candidates | src/app/api/games/route.ts:115-124 | the games the loop pushes, one per row whose shown release text holds a keyword, in page order |
| Upcoming.CandidatesSound | src/app/api/games/route.ts:115-124 | every pushed game comes from a row whose release text holds a keyword |
| Upcoming.UpcomingHype | src/app/api/games/route.ts:115-129 | the extractor's result: the first twenty rows filtered, then the first twelve games, or nothing when the page cannot be read |
| Upcoming.UpcomingHypeShape | src/app/api/games/route.ts:115-129 | at most twelve games, each with a trimmed, non-empty release text holding a keyword and a link without a query string, and none when the page cannot be read |
| Upcoming.UpcomingHypeCount | src/app/api/games/route.ts:115-126 | the list holds as many games as there are kept rows among the first twenty, but no more than twelve |
| Upcoming.UpcomingHypeSound | src/app/api/games/route.ts:115-126 | a listed game comes from a kept row among the first twenty |
| Upcoming.UpcomingHypeComplete | src/app/api/games/route.ts:115-126 | a kept row among the first twenty with fewer than twelve kept rows before it is listed, at its place in page order |
| Upcoming.VisitRow | src/app/api/games/route.ts:116-123 | one row's callback pushes the row's game exactly when its shown release text holds a keyword |
| Upcoming.GetUpcomingHype | src/app/api/games/route.ts:103-131 | the extractor returns the wishlist list of the page |
| News.ArticleOf | src/app/api/games/route.ts:146-150 | the title is the trimmed title cut to 80 characters, the url is the trimmed link, and the source is the item's own when it has one and is never empty |
| News.ArticleReadsBack | src/app/api/games/route.ts:146-150 | an item with a trimmed title of at most 80 characters, a trimmed link and a source reads back unchanged |
| News.MissingSourceIsNews | src/app/api/games/route.ts:148 | an item without a source is credited to "News" |
| News.Articles | src/app/api/games/route.ts:144-151 | the articles the loop pushes: one per item, in feed order |
| News.ArticleAt | src/app/api/games/route.ts:144-151 | the `i`-th article comes from the `i`-th item |
| News.NewsBuzz | src/app/api/games/route.ts:144-157 | the extractor's result: the articles of the first ten items, or nothing when the feed cannot be read |
| News.NewsBuzzShape | src/app/api/games/route.ts:144-157 | one article per item up to ten, in feed order, with titles of at most 80 characters and non-empty sources, and none when the feed cannot be read |
| News.VisitItem | src/app/api/games/route.ts:145-150 | one item's callback pushes its article |
| News.GetNewsBuzz | src/app/api/games/route.ts:133-158 | the extractor returns the article list of the feed |
| Itch.IsGameLink | src/app/api/games/route.ts:179 | a link mentions "itch.io" and not "/games" |
| Itch.FirstGameLink | src/app/api/games/route.ts:176-183 | the `href` of the first anchor that is a game link, or ""; stated by FirstGameLinkFound and FirstGameLinkEmpty |
| Itch.EmptyIsNoGameLink | src/app/api/games/route.ts:178-179 | an anchor without `href` is never a game link |
| Itch.FirstGameLinkFound | src/app/api/games/route.ts:177-183 | when some anchor has a game link, the url is that of the first such anchor |
| Itch.FirstGameLinkEmpty | src/app/api/games/route.ts:176-183 | the url is empty exactly when no anchor has a game link |
| Itch.FirstGameLinkIsGameLink | src/app/api/games/route.ts:176-183 | the url is empty or holds "itch.io" and not "/games" |
| Itch.FindGameLink | src/app/api/games/route.ts:176-183 | the inner loop, which stops at the first match, finds the first game link |
| Itch.AuthorShown | src/app/api/games/route.ts:174 | `author.trim() || 'Unknown'`; stated by AuthorShownTrimmed |
| Itch.AuthorShownTrimmed | src/app/api/games/route.ts:174 | the shown author is the trimmed author, or "Unknown" when that is empty; it is trimmed and never empty |
| Itch.IsListed | src/app/api/games/route.ts:185 | a cell is kept exactly when its trimmed title is not empty |
| Itch.ItchGameOf | src/app/api/games/route.ts:173-185 | the entry a kept cell becomes: trimmed title, shown author and the first game link |
| Itch.Listed | src/app/api/games/route.ts:171-186 | the games the loop pushes, one per cell with a non-empty trimmed title, in page order |
| Itch.ListedSound | src/app/api/games/route.ts:171-186 | every pushed game comes from a cell with a title |
| Itch.ItchTrending | src/app/api/games/route.ts:171-191 | the extractor's result: the games of the first ten cells, or nothing when the page cannot be read |
| Itch.ItchTrendingShape | src/app/api/games/route.ts:171-191 | at most ten games, each with a trimmed title, a trimmed author and an empty or game url, and none when the page cannot be read |
| Itch.ItchTrendingCount | src/app/api/games/route.ts:171-188 | the list holds exactly one game per titled cell among the first ten |
| Itch.ItchTrendingSound | src/app/api/games/route.ts:171-188 | a listed game comes from a cell with a title among the first ten |
| Itch.ItchTrendingComplete | src/app/api/games/route.ts:171-188 | every cell with a title among the first ten is listed, at its place in page order |
| Itch.VisitCell | src/app/api/games/route.ts:172-185 | one cell's callback pushes the cell's game exactly when it has a title |
| Itch.GetItchTrending | src/app/api/games/route.ts:160-193 | the extractor returns the trending list of the page |
| Route.ReportOf | src/app/api/games/route.ts:195-209 | the report: the four lists side by side with the time it was generated |
| Route.ReportBounds | src/app/api/games/route.ts:195-209 | the report holds at most 60 releases, 12 upcoming games, 10 articles and 10 itch.io games, and a failed source yields an empty list without affecting the others |
| Route.Get | src/app/api/games/route.ts:195-210 | the handler returns the report of the four pages stamped with the current time |

## Left out

- Network access is a parameter: a page is `Some(rows)`, or `None` when the fetch
  or parse fails. This covers `fetch` with its headers and `revalidate` option, HTML/XML parsing with
  cheerio, and CSS selector matching.
- The route's `try`/`catch` becomes the `None` input. `console.error` is left out.
- `Promise.all` concurrency is left out. The four extractors share no state, so they
  are run one after another.
- The clock is a parameter. The route reads the clock afresh in every
  `isRecentRelease` call (src/app/api/games/route.ts:15), and once more for the
  `generated` stamp after all fetches have finished
  (src/app/api/games/route.ts:204). The model replaces these separate reads with one
  `now` for the whole request, shared by every row and by the stamp. The stamp
  stays a millisecond count; its ISO-8601 rendering is left out.
- Calendar.DateOf: a three-letter piece that is not a month name gives an invalid
  date. V8 instead skips an unknown word that comes before the first number, or
  takes a time-zone abbreviation such as EST after a number as the zone. It then
  reads the two numbers without a named month: as month and day when the first is
  1 to 31, and otherwise as year and month. So the four-digit piece becomes the
  day, or the month when the day piece is 0 or above 31. Either way the answers can
  differ only when that piece is 0001 to 0031.
- Calendar.DateOf: local time is one uniform millisecond scale, without time zones
  or daylight-saving shifts.
- Text.ToLower: only ASCII letters are lower-cased. The only non-ASCII characters
  that JavaScript lower-cases to ASCII letters are U+212A (the Kelvin sign, which
  becomes `k`) and U+0130 (which becomes `i` followed by a combining dot). No
  keyword contains a `k`, and none has an `i` followed by a combining dot, so the
  keyword tests give the same answers.
- Strings are sequences of characters. JavaScript's UTF-16 code units (which
  `slice(0, 80)` counts) are not distinguished from code points.
- Fresh.SortByScore: defined for the scores 0, 1 and 2, which are the only scores
  `Score` produces; its permutation and stability lemmas require that range.
- The pages and components that display the report (`src/app/page.tsx`,
  `src/app/components/Scene.tsx`, `src/app/layout.tsx`) are presentation and are
  not part of this model.
