/** `getItchTrending`: the first ten game cells of itch.io's new-and-popular page
    that show a title, each with its author and the first link that leads to a
    creator's page rather than to an itch.io listing. */
module Itch {
  import opened Wrappers
  import opened Text
  import opened Sequences

  /** How many game cells are looked at. */
  const CellLimit: nat := 10

  /** What a cell without an author shows. */
  const UnknownAuthor: string := "Unknown"

  /** A game link mentions the site and is not one of its `/games` listings. */
  const SiteName: string := "itch.io"
  const ListingPath: string := "/games"

  /** The parts of a `.game_cell` the route reads: the text of its `.title` and
      `.game_author` elements (empty when missing) and the `href` attribute of each
      of its anchors, in document order (`None` for an anchor without one). */
  datatype GameCell = GameCell(title: string, author: string, hrefs: seq<Option<string>>)

  datatype ItchGame = ItchGame(title: string, author: string, url: string)

  /** `href.includes('itch.io') && !href.includes('/games')`. */
  predicate IsGameLink(href: string) {
    Contains(href, SiteName) && !Contains(href, ListingPath)
  }

  /** The empty text, which an anchor without `href` reads as, is never a game link. */
  lemma EmptyIsNoGameLink()
    ensures !IsGameLink("")
  {
    if Contains("", SiteName) {
      ContainedCharOccurs("", SiteName, 'i');
    }
  }

  /** The first anchor's `href` that is a game link, or "" when there is none. */
  function FirstGameLink(hrefs: seq<Option<string>>): string {
    if hrefs == [] then ""
    else if IsGameLink(AttrText(hrefs[0])) then AttrText(hrefs[0])
    else FirstGameLink(hrefs[1..])
  }

  /** When some anchor has a game link, the url is the link of the first such
      anchor: every anchor before it has none. */
  lemma {:induction false} FirstGameLinkFound(hrefs: seq<Option<string>>, j: nat) returns (k: nat)
    requires j < |hrefs| && IsGameLink(AttrText(hrefs[j]))
    ensures k <= j && IsGameLink(AttrText(hrefs[k])) && FirstGameLink(hrefs) == AttrText(hrefs[k])
    ensures forall m :: 0 <= m < k ==> !IsGameLink(AttrText(hrefs[m]))
  {
    if IsGameLink(AttrText(hrefs[0])) {
      k := 0;
    } else {
      var rest := hrefs[1..];
      assert rest[j - 1] == hrefs[j];
      var k' := FirstGameLinkFound(rest, j - 1);
      k := k' + 1;
      forall m | 0 <= m < k
        ensures !IsGameLink(AttrText(hrefs[m]))
      {
        if m > 0 {
          assert hrefs[m] == rest[m - 1];
        }
      }
    }
  }

  /** The url is empty exactly when no anchor has a game link. */
  lemma {:induction false} FirstGameLinkEmpty(hrefs: seq<Option<string>>)
    ensures FirstGameLink(hrefs) == "" <==> forall m :: 0 <= m < |hrefs| ==> !IsGameLink(AttrText(hrefs[m]))
  {
    EmptyIsNoGameLink();
    if hrefs != [] {
      var rest := hrefs[1..];
      FirstGameLinkEmpty(rest);
      assert forall m :: 1 <= m < |hrefs| ==> hrefs[m] == rest[m - 1];
    }
  }

  /** The url is empty or a game link. */
  lemma {:induction false} FirstGameLinkIsGameLink(hrefs: seq<Option<string>>)
    ensures FirstGameLink(hrefs) == "" || IsGameLink(FirstGameLink(hrefs))
  {
    if hrefs != [] && !IsGameLink(AttrText(hrefs[0])) {
      FirstGameLinkIsGameLink(hrefs[1..]);
    }
  }

  /** The inner loop over a cell's anchors: the first game link is kept and the
      loop stops there. */
  method FindGameLink(hrefs: seq<Option<string>>) returns (url: string)
    ensures url == FirstGameLink(hrefs)
  {
    url := "";
    var k := 0;
    while k < |hrefs|
      invariant 0 <= k <= |hrefs|
      invariant FirstGameLink(hrefs[k..]) == FirstGameLink(hrefs)
    {
      var href := AttrText(hrefs[k]);
      if Contains(href, SiteName) && !Contains(href, ListingPath) {
        url := href;
        break;
      }
      assert hrefs[k..][1..] == hrefs[k + 1..];
      k := k + 1;
    }
  }

  /** `author.trim() || 'Unknown'`. */
  function AuthorShown(author: string): string {
    if Trim(author) == "" then UnknownAuthor else Trim(author)
  }

  /** The shown author is the trimmed author, or "Unknown" when that is empty; either
      way it is never empty and is already trimmed. */
  lemma AuthorShownTrimmed(author: string)
    ensures Trim(author) == "" ==> AuthorShown(author) == UnknownAuthor
    ensures Trim(author) != "" ==> AuthorShown(author) == Trim(author)
    ensures AuthorShown(author) != ""
    ensures Trim(AuthorShown(author)) == AuthorShown(author)
  {
    TrimIdempotent(author);
    UnknownAuthorTrimmed(UnknownAuthor);
  }

  lemma UnknownAuthorTrimmed(text: string)
    requires text == UnknownAuthor
    ensures Trim(text) == text
  {
    assert text[0] == 'U' && text[|text| - 1] == 'n';
    TrimUnchanged(text);
  }

  /** A cell is kept when its trimmed title is not empty. */
  predicate IsListed(cell: GameCell) {
    Trim(cell.title) != ""
  }

  /** The entry a kept cell becomes. */
  function ItchGameOf(cell: GameCell): ItchGame {
    ItchGame(Trim(cell.title), AuthorShown(cell.author), FirstGameLink(cell.hrefs))
  }

  /** Every entry has a non-empty trimmed title, a non-empty trimmed author and a
      url that is empty or a game link. */
  predicate Listable(g: ItchGame) {
    && g.title != "" && Trim(g.title) == g.title
    && g.author != "" && Trim(g.author) == g.author
    && (g.url == "" || IsGameLink(g.url))
  }

  lemma ItchGameOfListable(cell: GameCell)
    requires IsListed(cell)
    ensures Listable(ItchGameOf(cell))
  {
    TrimIdempotent(cell.title);
    AuthorShownTrimmed(cell.author);
    FirstGameLinkIsGameLink(cell.hrefs);
  }

  /** The games pushed while visiting `cells` in order: one per kept cell. */
  function Listed(cells: seq<GameCell>): (r: seq<ItchGame>)
    ensures |r| <= |cells|
  {
    FilterMap(cells, IsListed, ItchGameOf)
  }

  /** Every listed game was produced by a kept cell. */
  lemma ListedSound(cells: seq<GameCell>, g: ItchGame) returns (i: nat)
    requires g in Listed(cells)
    ensures i < |cells| && IsListed(cells[i]) && g == ItchGameOf(cells[i])
  {
    i := FilterMapSound(cells, IsListed, ItchGameOf, g);
  }

  /** The trending list for the new-and-popular page (`None` when the page could
      not be fetched or read, which yields an empty list). */
  function ItchTrending(page: Option<seq<GameCell>>): seq<ItchGame> {
    match page
    case None => []
    case Some(cells) => Listed(Take(cells, CellLimit))
  }

  /** At most ten games, each listable; an unreadable page lists nothing. */
  lemma ItchTrendingShape(page: Option<seq<GameCell>>)
    ensures |ItchTrending(page)| <= CellLimit
    ensures forall g :: g in ItchTrending(page) ==> Listable(g)
    ensures page.None? ==> ItchTrending(page) == []
  {
    forall g | g in ItchTrending(page)
      ensures Listable(g)
    {
      var taken := Take(page.value, CellLimit);
      var i := ListedSound(taken, g);
      ItchGameOfListable(taken[i]);
    }
  }

  /** One game per titled cell among the first ten. */
  lemma ItchTrendingCount(cells: seq<GameCell>)
    ensures |ItchTrending(Some(cells))|
            == |KeptBelow(cells, IsListed, CellLimit)|
  {
    FilterMapPrefixCount(cells, IsListed, ItchGameOf, CellLimit);
  }

  /** A listed game comes from a kept cell among the first ten. */
  lemma ItchTrendingSound(cells: seq<GameCell>, g: ItchGame) returns (i: nat)
    requires g in ItchTrending(Some(cells))
    ensures i < |cells| && i < CellLimit && IsListed(cells[i]) && g == ItchGameOf(cells[i])
  {
    var taken := Take(cells, CellLimit);
    i := ListedSound(taken, g);
    assert taken[i] == cells[i];
  }

  /** Every kept cell among the first ten is listed, in page order: its game comes
      right after those of the kept cells before it. */
  lemma ItchTrendingComplete(cells: seq<GameCell>, i: nat)
    requires i < |cells| && i < CellLimit && IsListed(cells[i])
    ensures |Listed(cells[..i])| < |ItchTrending(Some(cells))|
    ensures ItchTrending(Some(cells))[|Listed(cells[..i])|] == ItchGameOf(cells[i])
  {
    var taken := Take(cells, CellLimit);
    TakePrefix(cells, CellLimit, i);
    TakeIndex(cells, CellLimit, i);
    FilterMapAt(taken, IsListed, ItchGameOf, i);
  }

  /** The `.each` callback for one cell: its game, with the url found by the inner
      loop over its anchors, is pushed when the cell has a title. */
  method VisitCell(games: seq<ItchGame>, cell: GameCell) returns (pushed: seq<ItchGame>)
    ensures pushed == games + if IsListed(cell) then [ItchGameOf(cell)] else []
  {
    pushed := games;
    var title := Trim(cell.title);
    var author := Trim(cell.author);
    if author == "" {
      author := UnknownAuthor;
    }
    var url := FindGameLink(cell.hrefs);
    if title != "" {
      pushed := games + [ItchGame(title, author, url)];
    }
  }

  /** The route's first ten cells, visited in page order. */
  method GetItchTrending(page: Option<seq<GameCell>>) returns (games: seq<ItchGame>)
    ensures games == ItchTrending(page)
  {
    if page.None? {
      return [];
    }
    var cells := Take(page.value, CellLimit);
    games := [];
    var i := 0;
    while i < |cells|
      invariant 0 <= i <= |cells|
      invariant games == Listed(cells[..i])
    {
      games := VisitCell(games, cells[i]);
      FilterMapSnoc(cells, IsListed, ItchGameOf, i);
      i := i + 1;
    }
    FilterMapAll(cells, IsListed, ItchGameOf);
  }
}
