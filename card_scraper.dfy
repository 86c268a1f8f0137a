/** The one-level scraper: a listing page of decks, each container with its
    deck name and a list of card links. It flattens them into rows
    (deck, card, card URL) and writes every row. */
module CardScraper {
  import opened Dom
  import opened Site
  import Fetch

  const Header: seq<string> := ["Decks", "Cards", "Cards URL"]

  /** One output row; the deck is always present, card and URL may be null. */
  datatype Row = Row(deck: string, card: Option<string>, url: Option<string>)

  /** Outcome of a whole run: the listing page could not be fetched, the run
      stopped on an anchor without `href`, or the table written to the file. */
  datatype Outcome = NotFetched | Aborted | Written(table: seq<seq<string>>)

  /** A single request, no retry: the response text, or None when the request
      raises. It behaves as the retrying fetcher does with a budget of one. */
  function FetchHtml(respond: nat -> Fetch.Attempt): (r: Option<string>)
    ensures r.Some? <==> respond(0).Ok?
    ensures r.Some? ==> respond(0) == Fetch.Ok(r.value)
    ensures r == Fetch.Schedule(respond, 0, 1, 0).result
  {
    match respond(0)
    case Ok(text) => Some(text)
    case Failed => None
  }

  /** The deck name of a container: the text of its first card-link anchor. */
  function ExtractDeck(c: Node): (r: Option<string>)
    ensures r.None? <==> forall x :: x in Descendants(c) ==> !Matches(x, CardLink)
    ensures r.Some? ==> exists j :: IsFirstMatch(c, CardLink, j) && Descendants(c)[j].text == r.value
  {
    CardLinkText(c)
  }

  /** The cards of a container: the links of the items of its first list. */
  method ExtractCards(c: Node) returns (cards: Option<seq<Link>>)
    ensures cards == ListedLinks(c)
  {
    var ul := Find(c, ListTag);
    if ul.None? {
      return Some([]);
    }
    var items := FindAll(ul.value, ItemTag);
    var acc: seq<Link> := [];
    for i := 0 to |items|
      invariant LinksFrom(items[..i]) == Some(acc)
    {
      assert items[..i + 1][..i] == items[..i];
      match ReadItem(items[i])
      case NoAnchor =>
      case NoHref =>
        LinksFromAborts(items, i + 1);
        return None;
      case Linked(l) =>
        acc := acc + [l];
    }
    assert items[..|items|] == items;
    cards := Some(acc);
  }

  function LinkRows(deck: string, cards: seq<Link>): seq<Row>
  {
    if cards == [] then []
    else
      var card := cards[|cards| - 1];
      LinkRows(deck, cards[..|cards| - 1]) + [Row(deck, Some(card.text), Some(card.url))]
  }

  /** The rows of one container; None when reading its cards aborts. */
  function ContainerRows(c: Node): Option<seq<Row>>
  {
    match ExtractDeck(c)
    case None => Some([])
    case Some(deck) =>
      if deck == "" then Some([])
      else match ListedLinks(c)
        case None => None
        case Some(cards) =>
          if cards == [] then Some([Row(deck, None, None)])
          else Some(LinkRows(deck, cards))
  }

  /** The rows of all containers in order; None as soon as one aborts. */
  function CrawlRows(containers: seq<Node>): Option<seq<Row>>
  {
    if containers == [] then Some([])
    else match CrawlRows(containers[..|containers| - 1])
      case None => None
      case Some(rows) =>
        match ContainerRows(containers[|containers| - 1])
        case None => None
        case Some(more) => Some(rows + more)
  }

  /** Once a container aborts on an anchor without `href`, the whole crawl
      aborts; `Crawl` uses this to stop at the first aborting container. */
  lemma {:induction false} CrawlRowsAborts(containers: seq<Node>, i: nat)
    requires i <= |containers| && CrawlRows(containers[..i]) == None
    ensures CrawlRows(containers) == None
    decreases |containers| - i
  {
    if i < |containers| {
      assert containers[..i + 1][..i] == containers[..i];
      CrawlRowsAborts(containers, i + 1);
    } else {
      assert containers[..i] == containers;
    }
  }

  lemma CrawlRowsStep(containers: seq<Node>, i: nat)
    requires i < |containers|
    ensures CrawlRows(containers[..i + 1])
         == match CrawlRows(containers[..i])
            case None => None
            case Some(rows) =>
              match ContainerRows(containers[i])
              case None => None
              case Some(more) => Some(rows + more)
  {
    assert containers[..i + 1][..i] == containers[..i];
  }

  lemma LinkRowsStep(deck: string, cards: seq<Link>, k: nat)
    requires k < |cards|
    ensures LinkRows(deck, cards[..k + 1]) == LinkRows(deck, cards[..k]) + [Row(deck, Some(cards[k].text), Some(cards[k].url))]
  {
    assert cards[..k + 1][..k] == cards[..k];
  }

  /** The body of the container loop: appends the rows of container `c` to
      `data`, or gives None when reading its cards aborts. */
  method AppendContainerRows(data: seq<Row>, c: Node) returns (out: Option<seq<Row>>)
    ensures out == match ContainerRows(c)
                   case None => None
                   case Some(more) => Some(data + more)
  {
    var deck := ExtractDeck(c);
    if deck.None? || deck.value == "" {
      assert data + [] == data;
      return Some(data);
    }
    var name := deck.value;
    var cards := ExtractCards(c);
    if cards.None? {
      return None;
    }
    var cs := cards.value;
    if cs == [] {
      return Some(data + [Row(name, None, None)]);
    }
    var acc := data;
    for k := 0 to |cs|
      invariant acc == data + LinkRows(name, cs[..k])
    {
      LinkRowsStep(name, cs, k);
      var row := Row(name, Some(cs[k].text), Some(cs[k].url));
      AppendAssoc(data, LinkRows(name, cs[..k]), [row]);
      acc := acc + [row];
    }
    assert cs[..|cs|] == cs;
    out := Some(acc);
  }

  /** The loop over containers and their cards. */
  method Crawl(containers: seq<Node>) returns (rows: Option<seq<Row>>)
    ensures rows == CrawlRows(containers)
  {
    var data: seq<Row> := [];
    for i := 0 to |containers|
      invariant CrawlRows(containers[..i]) == Some(data)
    {
      CrawlRowsStep(containers, i);
      var next := AppendContainerRows(data, containers[i]);
      if next.None? {
        CrawlRowsAborts(containers, i + 1);
        return None;
      }
      data := next.value;
    }
    assert containers[..|containers|] == containers;
    rows := Some(data);
  }

  /** The cells the CSV writer receives for a row. */
  function Cells(r: Row): seq<string> {
    [r.deck, Cell(r.card), Cell(r.url)]
  }

  /** The header, then every row in input order, none filtered out. */
  method SaveToCsv(data: seq<Row>) returns (table: seq<seq<string>>)
    ensures |table| == 1 + |data| && table[0] == Header
    ensures forall k :: 0 <= k < |data| ==> table[k + 1] == Cells(data[k])
  {
    table := [Header];
    for i := 0 to |data|
      invariant |table| == 1 + i && table[0] == Header
      invariant forall k :: 0 <= k < i ==> table[k + 1] == Cells(data[k])
    {
      table := table + [Cells(data[i])];
    }
  }

  /** The whole run: fetch the listing, crawl its containers, save. */
  method Run(listing: Option<Page>) returns (out: Outcome)
    ensures out.NotFetched? <==> listing.None? || listing.value.raw == ""
    ensures out.Aborted? <==> !out.NotFetched? && CrawlRows(FindAll(listing.value.doc, PanelBody)).None?
    ensures out.Written? ==>
      var rows := CrawlRows(FindAll(listing.value.doc, PanelBody)).value;
      && |out.table| == 1 + |rows| && out.table[0] == Header
      && forall k :: 0 <= k < |rows| ==> out.table[k + 1] == Cells(rows[k])
  {
    if listing.None? || listing.value.raw == "" {
      return NotFetched;
    }
    var containers := FindAll(listing.value.doc, PanelBody);
    var rows := Crawl(containers);
    if rows.None? {
      return Aborted;
    }
    var table := SaveToCsv(rows.value);
    out := Written(table);
  }

  // ---------------------------------------------------------------- properties

  /** One row per card link, in order, each carrying the deck name. */
  lemma {:induction false} LinkRowsMeaning(deck: string, cards: seq<Link>)
    ensures |LinkRows(deck, cards)| == |cards|
    ensures forall k :: 0 <= k < |cards| ==> LinkRows(deck, cards)[k] == Row(deck, Some(cards[k].text), Some(cards[k].url))
  {
    if cards != [] {
      LinkRowsMeaning(deck, cards[..|cards| - 1]);
    }
  }

  /** A container without a deck name, or with an empty one, yields no rows; a
      deck without cards yields exactly one row with null card and URL;
      otherwise one row per card link, in order, each carrying the deck name. */
  lemma ContainerRowsCases(c: Node)
    ensures ExtractDeck(c).None? || ExtractDeck(c) == Some("") ==> ContainerRows(c) == Some([])
    ensures ExtractDeck(c).Some? && ExtractDeck(c).value != "" && ListedLinks(c) == Some([]) ==>
      ContainerRows(c) == Some([Row(ExtractDeck(c).value, None, None)])
    ensures ExtractDeck(c).Some? && ExtractDeck(c).value != "" && ListedLinks(c).Some? && ListedLinks(c).value != [] ==>
      var cards := ListedLinks(c).value;
      && |ContainerRows(c).value| == |cards|
      && forall k :: 0 <= k < |cards| ==>
           ContainerRows(c).value[k] == Row(ExtractDeck(c).value, Some(cards[k].text), Some(cards[k].url))
  {
    if ExtractDeck(c).Some? && ListedLinks(c).Some? {
      LinkRowsMeaning(ExtractDeck(c).value, ListedLinks(c).value);
    }
  }

  /** Every row of a run starts with a non-empty deck name read from one of
      the containers. */
  lemma {:induction false} EveryRowHasDeck(containers: seq<Node>)
    ensures CrawlRows(containers).Some? ==>
      forall r :: r in CrawlRows(containers).value ==>
        r.deck != "" && exists c :: c in containers && ExtractDeck(c) == Some(r.deck)
  {
    if containers != [] {
      var init, last := containers[..|containers| - 1], containers[|containers| - 1];
      EveryRowHasDeck(init);
      if CrawlRows(containers).Some? {
        ContainerRowsCases(last);
        forall r | r in CrawlRows(containers).value
          ensures r.deck != "" && exists c :: c in containers && ExtractDeck(c) == Some(r.deck)
        {
          if r in CrawlRows(init).value {
            var c :| c in init && ExtractDeck(c) == Some(r.deck);
            assert c in containers;
          } else {
            assert r in ContainerRows(last).value;
            if ListedLinks(last).value != [] {
              var k :| 0 <= k < |ContainerRows(last).value| && ContainerRows(last).value[k] == r;
            }
            assert last in containers;
          }
        }
      }
    }
  }
}
