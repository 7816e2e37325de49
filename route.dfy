/** `GET /api/games`: the four lists gathered side by side into one report, stamped
    with the time it was generated. */
module Route {
  import opened Wrappers
  import opened SteamSearch
  import Fresh
  import Upcoming
  import News
  import Itch

  /** The response body. `generated` is the clock reading in milliseconds; the
      route sends it as an ISO-8601 string. */
  datatype Report = Report(
    generated: int,
    freshReleases: seq<Fresh.Game>,
    upcoming: seq<Upcoming.UpcomingGame>,
    news: seq<News.NewsArticle>,
    itch: seq<Itch.ItchGame>)

  /** The report for four fetched pages (each `None` when its fetch or parse failed)
      read at time `now`. */
  function ReportOf(
    freshPage: Option<seq<SearchRow>>, upcomingPage: Option<seq<SearchRow>>,
    feed: Option<seq<News.FeedItem>>, itchPage: Option<seq<Itch.GameCell>>, now: int): Report
  {
    Report(now, Fresh.FreshReleases(freshPage, now), Upcoming.UpcomingHype(upcomingPage),
           News.NewsBuzz(feed), Itch.ItchTrending(itchPage))
  }

  /** The report carries at most sixty fresh releases, twelve upcoming games, ten
      articles and ten itch.io games, and a failed source contributes an empty list
      without affecting the others. */
  lemma ReportBounds(
    freshPage: Option<seq<SearchRow>>, upcomingPage: Option<seq<SearchRow>>,
    feed: Option<seq<News.FeedItem>>, itchPage: Option<seq<Itch.GameCell>>, now: int)
    ensures var r := ReportOf(freshPage, upcomingPage, feed, itchPage, now);
            && |r.freshReleases| <= Fresh.RowLimit && |r.upcoming| <= Upcoming.ListLimit
            && |r.news| <= News.ItemLimit && |r.itch| <= Itch.CellLimit
            && (freshPage.None? ==> r.freshReleases == [])
            && (upcomingPage.None? ==> r.upcoming == [])
            && (feed.None? ==> r.news == [])
            && (itchPage.None? ==> r.itch == [])
  {
    Fresh.FreshReleasesShape(freshPage, now);
    Upcoming.UpcomingHypeShape(upcomingPage);
    if feed.Some? {
      News.NewsBuzzShape(feed.value);
    }
    Itch.ItchTrendingShape(itchPage);
  }

  /** The handler: each source gathered by its own loop, then joined. */
  method Get(
    freshPage: Option<seq<SearchRow>>, upcomingPage: Option<seq<SearchRow>>,
    feed: Option<seq<News.FeedItem>>, itchPage: Option<seq<Itch.GameCell>>, now: int)
    returns (report: Report)
    ensures report == ReportOf(freshPage, upcomingPage, feed, itchPage, now)
  {
    var freshReleases := Fresh.GetFreshReleases(freshPage, now);
    var upcoming := Upcoming.GetUpcomingHype(upcomingPage);
    var news := News.GetNewsBuzz(feed);
    var itch := Itch.GetItchTrending(itchPage);
    report := Report(now, freshReleases, upcoming, news, itch);
  }
}
