/** A row of the store's search results page (`a.search_result_row`), as both the
    fresh-release and the wishlist queries read it, and the store link it carries. */
module SteamSearch {
  import opened Wrappers
  import opened Text
  import opened Sequences

  /** The parts of a row the route reads: the text of its `.title` and
      `.search_released` elements (empty when the element is missing), the
      `data-tooltip-html` attribute of its `.search_review_summary` element
      (`None` when there is no such element, `Some("")` when the element has no
      tooltip), and the row's own `href` attribute. */
  datatype SearchRow = SearchRow(
    title: string,
    released: string,
    reviewTooltip: Option<string>,
    href: Option<string>)

  const QueryMark: string := "?"

  /** `(href || '').split('?')[0]`: the link without its query string. */
  function StoreLink(href: Option<string>): (r: string)
    ensures |r| <= |AttrText(href)| && r == AttrText(href)[..|r|]
    ensures !Contains(r, QueryMark)
    ensures !Contains(AttrText(href), QueryMark) ==> r == AttrText(href)
    ensures |r| == |AttrText(href)| || OccursAt(AttrText(href), QueryMark, |r|)
    ensures href.None? ==> r == ""
  {
    BeforeFirstExcludes(AttrText(href), QueryMark);
    BeforeFirstWithout(AttrText(href), QueryMark);
    BeforeFirst(AttrText(href), QueryMark)
  }

  /** A store link followed by a query string reads back as the bare link. */
  lemma StoreLinkDropsQuery(path: string, query: string)
    requires !Contains(path, QueryMark)
    ensures StoreLink(Some(path + QueryMark + query)) == path
  {
    var s := path + QueryMark + query;
    AppendAssoc(path, QueryMark, query);
    forall i | 0 <= i < |path|
      ensures !OccursAt(s, QueryMark, i)
    {
      NoOccurrenceInPrefix(path, QueryMark, QueryMark + query, i);
    }
    assert s[|path|..|path| + 1] == QueryMark;
    BeforeFirstAt(s, QueryMark, |path|);
    assert s[..|path|] == path;
  }
}
