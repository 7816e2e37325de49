/** `getNewsBuzz`: the first ten items of the news search feed, each with its title
    cut to eighty characters, its link and its source. */
module News {
  import opened Wrappers
  import opened Text
  import opened Sequences

  /** How many feed items are read, and how long a shown title may be. */
  const ItemLimit: nat := 10
  const TitleLimit: nat := 80

  /** What an item without a source shows. */
  const UnknownSource: string := "News"

  /** The parts of an RSS `item` the route reads: the text of its `title`, `link`
      and `source` elements (empty when the element is missing). */
  datatype FeedItem = FeedItem(title: string, link: string, source: string)

  datatype NewsArticle = NewsArticle(title: string, source: string, url: string)

  /** The article an item becomes: `title.trim().slice(0, 80)`, `link.trim()` and
      `source || 'News'` (the source is not trimmed). */
  function ArticleOf(item: FeedItem): (a: NewsArticle)
    ensures |a.title| == Min(TitleLimit, |Trim(item.title)|)
    ensures a.title == Trim(item.title)[..|a.title|]
    ensures a.url == Trim(item.link)
    ensures a.source != ""
    ensures item.source != "" ==> a.source == item.source
  {
    NewsArticle(
      Take(Trim(item.title), TitleLimit),
      if item.source == "" then UnknownSource else item.source,
      Trim(item.link))
  }

  /** An item whose title and link are already trimmed, whose title fits and which
      names its source reads back unchanged. */
  lemma ArticleReadsBack(item: FeedItem)
    requires Trim(item.title) == item.title && |item.title| <= TitleLimit
    requires Trim(item.link) == item.link && item.source != ""
    ensures ArticleOf(item) == NewsArticle(item.title, item.source, item.link)
  {
    assert item.title[..|item.title|] == item.title;
  }

  /** An item without a source is credited to "News". */
  lemma MissingSourceIsNews(item: FeedItem)
    requires item.source == ""
    ensures ArticleOf(item).source == UnknownSource
  {
  }

  /** The articles pushed while visiting `items` in order: one per item. */
  function Articles(items: seq<FeedItem>): (r: seq<NewsArticle>)
    ensures |r| == |items|
  {
    if items == [] then []
    else Articles(items[..|items| - 1]) + [ArticleOf(items[|items| - 1])]
  }

  /** Visiting one more item pushes its article. */
  lemma ArticlesSnoc(items: seq<FeedItem>, i: nat)
    requires i < |items|
    ensures Articles(items[..i + 1]) == Articles(items[..i]) + [ArticleOf(items[i])]
  {
    assert items[..i + 1][..i] == items[..i];
  }

  /** The articles keep the feed's order: the `i`-th article comes from the `i`-th
      item. */
  lemma {:induction false} ArticleAt(items: seq<FeedItem>, i: nat)
    requires i < |items|
    ensures Articles(items)[i] == ArticleOf(items[i])
  {
    var front, last := items[..|items| - 1], items[|items| - 1];
    if i < |front| {
      ArticleAt(front, i);
      assert front[i] == items[i];
      IndexBeforeLast(Articles(front), ArticleOf(last), i);
    } else {
      IndexBeforeLast(Articles(front), ArticleOf(last), i);
    }
  }

  /** The article list for a news feed (`None` when the feed could not be fetched or
      read, which yields an empty list). */
  function NewsBuzz(feed: Option<seq<FeedItem>>): seq<NewsArticle> {
    match feed
    case None => []
    case Some(items) => Articles(Take(items, ItemLimit))
  }

  /** The list has one article per item up to ten, in feed order; every title fits
      in eighty characters and begins the trimmed title of its item, and every
      article names a source. */
  lemma NewsBuzzShape(items: seq<FeedItem>)
    ensures |NewsBuzz(Some(items))| == Min(ItemLimit, |items|)
    ensures forall i :: 0 <= i < |NewsBuzz(Some(items))| ==> NewsBuzz(Some(items))[i] == ArticleOf(items[i])
    ensures forall a :: a in NewsBuzz(Some(items)) ==> |a.title| <= TitleLimit && a.source != ""
    ensures NewsBuzz(None) == []
  {
    var taken := Take(items, ItemLimit);
    forall i | 0 <= i < |taken|
      ensures Articles(taken)[i] == ArticleOf(items[i])
    {
      ArticleAt(taken, i);
      TakeIndex(items, ItemLimit, i);
    }
  }

  /** The `.each` callback for one item: its article is pushed. */
  method VisitItem(articles: seq<NewsArticle>, item: FeedItem) returns (pushed: seq<NewsArticle>)
    ensures pushed == articles + [ArticleOf(item)]
  {
    var title := Take(Trim(item.title), TitleLimit);
    var url := Trim(item.link);
    var source := item.source;
    if source == "" {
      source := UnknownSource;
    }
    pushed := articles + [NewsArticle(title, source, url)];
  }

  /** The route's first ten items, visited in feed order. */
  method GetNewsBuzz(feed: Option<seq<FeedItem>>) returns (articles: seq<NewsArticle>)
    ensures articles == NewsBuzz(feed)
  {
    if feed.None? {
      return [];
    }
    var items := Take(feed.value, ItemLimit);
    articles := [];
    var i := 0;
    while i < |items|
      invariant 0 <= i <= |items|
      invariant articles == Articles(items[..i])
    {
      articles := VisitItem(articles, items[i]);
      ArticlesSnoc(items, i);
      i := i + 1;
    }
    assert items[..i] == items;
  }
}
