/** The three-level scraper: a listing page of commanders, each with a list of
    decks, each deck page with card lists. It flattens everything into rows
    (commander, deck, card, quantity) and writes the complete ones. */
module Commander {
  import opened Dom
  import opened Site

  const BoardList: Selector := Selector("ul", Some("boardlist"))
  const MemberItem: Selector := Selector("li", Some("member"))

  const Header: seq<string> := ["Commander", "Deck Name", "Card", "Number of Cards"]

  /** A deck is a named link; a card entry is a name and a quantity string. */
  type Deck = Link
  datatype Card = Card(name: string, quantity: string)

  /** One output row; the commander is always present, the rest may be null. */
  datatype Row = Row(commander: string, deck: Option<string>, card: Option<string>, quantity: Option<string>)

  /** Outcome of a whole run: the listing page could not be fetched, the run
      stopped on an anchor without `href`, or the table written to the file. */
  datatype Outcome = NotFetched | Aborted | Written(table: seq<seq<string>>)

  // ---------------------------------------------------------------- extraction

  /** The commander of a container: the text of its first card-link anchor. */
  function ExtractCommander(c: Node): (r: Option<string>)
    ensures r.None? <==> forall x :: x in Descendants(c) ==> !Matches(x, CardLink)
    ensures r.Some? ==> exists j :: IsFirstMatch(c, CardLink, j) && Descendants(c)[j].text == r.value
  {
    CardLinkText(c)
  }

  /** The decks of a container: the links of the items of its first list. */
  method ExtractDecks(c: Node) returns (decks: Option<seq<Deck>>)
    ensures decks == ListedLinks(c)
  {
    var ul := Find(c, ListTag);
    if ul.None? {
      return Some([]);
    }
    var items := FindAll(ul.value, ItemTag);
    var acc: seq<Deck> := [];
    for i := 0 to |items|
      invariant LinksFrom(items[..i]) == Some(acc)
    {
      assert items[..i + 1][..i] == items[..i];
      match ReadItem(items[i])
      case NoAnchor =>
      case NoHref =>
        LinksFromAborts(items, i + 1);
        return None;
      case Linked(l) =>
        acc := acc + [l];
    }
    assert items[..|items|] == items;
    decks := Some(acc);
  }

  /** The quantity read from a card's first anchor: its text without the last
      character, and the empty string for an empty text. */
  function Quantity(s: string): (r: string)
    ensures |r| == if |s| == 0 then 0 else |s| - 1
    ensures r <= s
    ensures s != [] ==> s == r + [s[|s| - 1]]
  {
    if |s| == 0 then "" else s[..|s| - 1]
  }

  lemma QuantityExamples()
    ensures Quantity("3x") == "3"
    ensures Quantity("x") == ""
    ensures Quantity("") == ""
  {
  }

  /** The card read from one member item, if it has at least two anchors. */
  function CardOf(li: Node): seq<Card>
  {
    var anchors := FindAll(li, AnchorTag);
    if |anchors| >= 2 then [Card(anchors[1].text, Quantity(anchors[0].text))] else []
  }

  function CardsFrom(items: seq<Node>): seq<Card>
  {
    if items == [] then [] else CardsFrom(items[..|items| - 1]) + CardOf(items[|items| - 1])
  }

  /** The cards of a card-list container, from its member items in order. */
  function CardsOf(c: Node): seq<Card>
  {
    CardsFrom(FindAll(c, MemberItem))
  }

  method ExtractCards(c: Node) returns (cards: seq<Card>)
    ensures cards == CardsOf(c)
  {
    var items := FindAll(c, MemberItem);
    cards := [];
    for i := 0 to |items|
      invariant cards == CardsFrom(items[..i])
    {
      assert items[..i + 1][..i] == items[..i];
      var anchors := FindAll(items[i], AnchorTag);
      if |anchors| >= 2 {
        var quantity := Quantity(anchors[0].text);
        var card := anchors[1].text;
        cards := cards + [Card(card, quantity)];
      }
    }
    assert items[..|items|] == items;
  }

  // ---------------------------------------------------------------- traversal

  function CardRows(commander: string, deck: string, cards: seq<Card>): seq<Row>
  {
    if cards == [] then []
    else
      var card := cards[|cards| - 1];
      CardRows(commander, deck, cards[..|cards| - 1]) + [Row(commander, Some(deck), Some(card.name), Some(card.quantity))]
  }

  function BoardRows(commander: string, deck: string, boards: seq<Node>): seq<Row>
  {
    if boards == [] then []
    else BoardRows(commander, deck, boards[..|boards| - 1]) + CardRows(commander, deck, CardsOf(boards[|boards| - 1]))
  }

  /** The rows of one deck: a placeholder when it has no URL or its page could
      not be fetched (absent or empty text), else one row per card found in the
      page's card lists. */
  function DeckRows(commander: string, d: Deck, pages: map<string, Page>): seq<Row>
  {
    if d.url == "" then [Row(commander, Some(d.text), None, None)]
    else if d.url in pages && pages[d.url].raw != "" then
      BoardRows(commander, d.text, FindAll(pages[d.url].doc, BoardList))
    else [Row(commander, Some(d.text), None, None)]
  }

  function DecksRows(commander: string, decks: seq<Deck>, pages: map<string, Page>): seq<Row>
  {
    if decks == [] then []
    else DecksRows(commander, decks[..|decks| - 1], pages) + DeckRows(commander, decks[|decks| - 1], pages)
  }

  /** The rows of one container; None when reading its decks aborts. */
  function ContainerRows(c: Node, pages: map<string, Page>): Option<seq<Row>>
  {
    match ExtractCommander(c)
    case None => Some([])
    case Some(name) =>
      if name == "" then Some([])
      else match ListedLinks(c)
        case None => None
        case Some(decks) =>
          if decks == [] then Some([Row(name, None, None, None)])
          else Some(DecksRows(name, decks, pages))
  }

  /** The rows of all containers in order; None as soon as one aborts. */
  function CrawlRows(containers: seq<Node>, pages: map<string, Page>): Option<seq<Row>>
  {
    if containers == [] then Some([])
    else match CrawlRows(containers[..|containers| - 1], pages)
      case None => None
      case Some(rows) =>
        match ContainerRows(containers[|containers| - 1], pages)
        case None => None
        case Some(more) => Some(rows + more)
  }

  lemma {:induction false} CrawlRowsAborts(containers: seq<Node>, pages: map<string, Page>, i: nat)
    requires i <= |containers| && CrawlRows(containers[..i], pages) == None
    ensures CrawlRows(containers, pages) == None
    decreases |containers| - i
  {
    if i < |containers| {
      assert containers[..i + 1][..i] == containers[..i];
      CrawlRowsAborts(containers, pages, i + 1);
    } else {
      assert containers[..i] == containers;
    }
  }

  lemma CardRowsStep(commander: string, deck: string, cards: seq<Card>, k: nat)
    requires k < |cards|
    ensures CardRows(commander, deck, cards[..k + 1])
         == CardRows(commander, deck, cards[..k]) + [Row(commander, Some(deck), Some(cards[k].name), Some(cards[k].quantity))]
  {
    assert cards[..k + 1][..k] == cards[..k];
  }

  lemma BoardRowsStep(commander: string, deck: string, boards: seq<Node>, b: nat)
    requires b < |boards|
    ensures BoardRows(commander, deck, boards[..b + 1])
         == BoardRows(commander, deck, boards[..b]) + CardRows(commander, deck, CardsOf(boards[b]))
  {
    assert boards[..b + 1][..b] == boards[..b];
  }

  lemma DecksRowsStep(commander: string, decks: seq<Deck>, j: nat, pages: map<string, Page>)
    requires j < |decks|
    ensures DecksRows(commander, decks[..j + 1], pages)
         == DecksRows(commander, decks[..j], pages) + DeckRows(commander, decks[j], pages)
  {
    assert decks[..j + 1][..j] == decks[..j];
  }

  /** The body of the deck loop: appends the rows of deck `d` to `data`. */
  method AppendDeckRows(data: seq<Row>, name: string, d: Deck, pages: map<string, Page>)
    returns (out: seq<Row>)
    ensures out == data + DeckRows(name, d, pages)
  {
    out := data;
    if d.url == "" {
      out := out + [Row(name, Some(d.text), None, None)];
      return;
    }
    if d.url in pages && pages[d.url].raw != "" {
      var boards := FindAll(pages[d.url].doc, BoardList);
      for b := 0 to |boards|
        invariant out == data + BoardRows(name, d.text, boards[..b])
      {
        BoardRowsStep(name, d.text, boards, b);
        var cards := ExtractCards(boards[b]);
        ghost var atBoard := out;
        for k := 0 to |cards|
          invariant out == atBoard + CardRows(name, d.text, cards[..k])
        {
          CardRowsStep(name, d.text, cards, k);
          var row := Row(name, Some(d.text), Some(cards[k].name), Some(cards[k].quantity));
          AppendAssoc(atBoard, CardRows(name, d.text, cards[..k]), [row]);
          out := out + [row];
        }
        assert cards[..|cards|] == cards;
        AppendAssoc(data, BoardRows(name, d.text, boards[..b]), CardRows(name, d.text, cards));
      }
      assert boards[..|boards|] == boards;
    } else {
      out := out + [Row(name, Some(d.text), None, None)];
    }
  }

  lemma CrawlRowsStep(containers: seq<Node>, i: nat, pages: map<string, Page>)
    requires i < |containers|
    ensures CrawlRows(containers[..i + 1], pages)
         == match CrawlRows(containers[..i], pages)
            case None => None
            case Some(rows) =>
              match ContainerRows(containers[i], pages)
              case None => None
              case Some(more) => Some(rows + more)
  {
    assert containers[..i + 1][..i] == containers[..i];
  }

  /** The body of the container loop: appends the rows of container `c` to
      `data`, or gives None when reading its decks aborts. */
  method AppendContainerRows(data: seq<Row>, c: Node, pages: map<string, Page>)
    returns (out: Option<seq<Row>>)
    ensures out == match ContainerRows(c, pages)
                   case None => None
                   case Some(more) => Some(data + more)
  {
    var commander := ExtractCommander(c);
    if commander.None? || commander.value == "" {
      assert data + [] == data;
      return Some(data);
    }
    var name := commander.value;
    var decks := ExtractDecks(c);
    if decks.None? {
      return None;
    }
    var ds := decks.value;
    if ds == [] {
      return Some(data + [Row(name, None, None, None)]);
    }
    var acc := data;
    for j := 0 to |ds|
      invariant acc == data + DecksRows(name, ds[..j], pages)
    {
      DecksRowsStep(name, ds, j, pages);
      acc := AppendDeckRows(acc, name, ds[j], pages);
      AppendAssoc(data, DecksRows(name, ds[..j], pages), DeckRows(name, ds[j], pages));
    }
    assert ds[..|ds|] == ds;
    out := Some(acc);
  }

  /** The nested loops over containers, decks, card lists and cards. `pages`
      maps each deck URL whose fetch succeeded to the fetched page; a URL
      missing from it is a fetch that returned nothing. */
  method Crawl(containers: seq<Node>, pages: map<string, Page>) returns (rows: Option<seq<Row>>)
    ensures rows == CrawlRows(containers, pages)
  {
    var data: seq<Row> := [];
    for i := 0 to |containers|
      invariant CrawlRows(containers[..i], pages) == Some(data)
    {
      CrawlRowsStep(containers, i, pages);
      var next := AppendContainerRows(data, containers[i], pages);
      if next.None? {
        CrawlRowsAborts(containers, pages, i + 1);
        return None;
      }
      data := next.value;
    }
    assert containers[..|containers|] == containers;
    rows := Some(data);
  }

  // ---------------------------------------------------------------- output

  /** A field counts as present when it is neither None nor empty. */
  predicate Present(field: Option<string>) {
    field.Some? && field.value != ""
  }

  predicate Complete(r: Row) {
    r.commander != "" && Present(r.deck) && Present(r.card) && Present(r.quantity)
  }

  /** The complete rows, in order. */
  function KeepComplete(rows: seq<Row>): seq<Row>
  {
    if rows == [] then []
    else KeepComplete(rows[..|rows| - 1]) + (if Complete(rows[|rows| - 1]) then [rows[|rows| - 1]] else [])
  }

  /** The cells the CSV writer receives for a row. */
  function Cells(r: Row): seq<string> {
    [r.commander, Cell(r.deck), Cell(r.card), Cell(r.quantity)]
  }

  /** The header, then the cells of every complete row in input order. */
  method SaveToCsv(data: seq<Row>) returns (table: seq<seq<string>>)
    ensures |table| == 1 + |KeepComplete(data)| && table[0] == Header
    ensures forall k :: 0 <= k < |KeepComplete(data)| ==> table[k + 1] == Cells(KeepComplete(data)[k])
  {
    table := [Header];
    for i := 0 to |data|
      invariant |table| == 1 + |KeepComplete(data[..i])| && table[0] == Header
      invariant forall k :: 0 <= k < |KeepComplete(data[..i])| ==> table[k + 1] == Cells(KeepComplete(data[..i])[k])
    {
      assert data[..i + 1][..i] == data[..i];
      if Complete(data[i]) {
        table := table + [Cells(data[i])];
      }
    }
    assert data[..|data|] == data;
  }

  /** The whole run: fetch the listing, crawl its containers, save. */
  method Run(listing: Option<Page>, pages: map<string, Page>) returns (out: Outcome)
    ensures out.NotFetched? <==> listing.None? || listing.value.raw == ""
    ensures out.Aborted? <==> !out.NotFetched? && CrawlRows(FindAll(listing.value.doc, PanelBody), pages).None?
    ensures out.Written? ==>
      var kept := KeepComplete(CrawlRows(FindAll(listing.value.doc, PanelBody), pages).value);
      && |out.table| == 1 + |kept| && out.table[0] == Header
      && forall k :: 0 <= k < |kept| ==> out.table[k + 1] == Cells(kept[k])
  {
    if listing.None? || listing.value.raw == "" {
      return NotFetched;
    }
    var containers := FindAll(listing.value.doc, PanelBody);
    var rows := Crawl(containers, pages);
    if rows.None? {
      return Aborted;
    }
    var table := SaveToCsv(rows.value);
    out := Written(table);
  }

  // ---------------------------------------------------------------- properties

  /** The member items that yield a card: those with at least two anchors. */
  function Carded(items: seq<Node>): (r: seq<Node>)
    ensures |r| <= |items|
    ensures forall k :: 0 <= k < |r| ==> |FindAll(r[k], AnchorTag)| >= 2
  {
    if items == [] then []
    else if |FindAll(items[0], AnchorTag)| >= 2 then [items[0]] + Carded(items[1..])
    else Carded(items[1..])
  }

  lemma {:induction false} CardedSnoc(items: seq<Node>, x: Node)
    ensures Carded(items + [x]) == Carded(items) + (if |FindAll(x, AnchorTag)| >= 2 then [x] else [])
  {
    if items != [] {
      assert (items + [x])[1..] == items[1..] + [x];
      CardedSnoc(items[1..], x);
    }
  }

  /** Card extraction yields one card per member item with at least two
      anchors, in document order, and skips the others: the card's name is the
      second anchor's text and its quantity is read from the first anchor. */
  lemma {:induction false} CardsFromMeaning(items: seq<Node>)
    ensures |CardsFrom(items)| == |Carded(items)|
    ensures forall k :: 0 <= k < |Carded(items)| ==>
      var anchors := FindAll(Carded(items)[k], AnchorTag);
      CardsFrom(items)[k] == Card(anchors[1].text, Quantity(anchors[0].text))
  {
    if items != [] {
      var init, last := items[..|items| - 1], items[|items| - 1];
      assert items == init + [last];
      CardsFromMeaning(init);
      CardedSnoc(init, last);
    }
  }

  /** Every row built from a list of cards belongs to the given commander and
      deck, and there is one row per card, in order. */
  lemma {:induction false} CardRowsMeaning(commander: string, deck: string, cards: seq<Card>)
    ensures |CardRows(commander, deck, cards)| == |cards|
    ensures forall k :: 0 <= k < |cards| ==>
      CardRows(commander, deck, cards)[k] == Row(commander, Some(deck), Some(cards[k].name), Some(cards[k].quantity))
  {
    if cards != [] {
      CardRowsMeaning(commander, deck, cards[..|cards| - 1]);
    }
  }

  /** All cards of a sequence of card-list containers, container by container. */
  function AllCards(boards: seq<Node>): seq<Card>
  {
    if boards == [] then [] else AllCards(boards[..|boards| - 1]) + CardsOf(boards[|boards| - 1])
  }

  lemma {:induction false} CardRowsAppend(commander: string, deck: string, a: seq<Card>, b: seq<Card>)
    ensures CardRows(commander, deck, a + b) == CardRows(commander, deck, a) + CardRows(commander, deck, b)
  {
    CardRowsMeaning(commander, deck, a);
    CardRowsMeaning(commander, deck, b);
    CardRowsMeaning(commander, deck, a + b);
  }

  /** The rows of a fetched deck are one row per card of all its card lists. */
  lemma {:induction false} BoardRowsAreCardRows(commander: string, deck: string, boards: seq<Node>)
    ensures BoardRows(commander, deck, boards) == CardRows(commander, deck, AllCards(boards))
  {
    if boards != [] {
      var init := boards[..|boards| - 1];
      BoardRowsAreCardRows(commander, deck, init);
      CardRowsAppend(commander, deck, AllCards(init), CardsOf(boards[|boards| - 1]));
    }
  }

  /** A deck whose fetch failed (or gave an empty text) yields exactly one
      placeholder row; a fetched deck yields one row per card found across all
      its card lists, in order, and none at all when it has no cards. */
  lemma DeckRowsCases(commander: string, d: Deck, pages: map<string, Page>)
    requires d.url != ""
    ensures d.url !in pages || pages[d.url].raw == "" ==>
      DeckRows(commander, d, pages) == [Row(commander, Some(d.text), None, None)]
    ensures d.url in pages && pages[d.url].raw != "" ==>
      var cards := AllCards(FindAll(pages[d.url].doc, BoardList));
      && |DeckRows(commander, d, pages)| == |cards|
      && forall k :: 0 <= k < |cards| ==>
           DeckRows(commander, d, pages)[k] == Row(commander, Some(d.text), Some(cards[k].name), Some(cards[k].quantity))
  {
    if d.url in pages && pages[d.url].raw != "" {
      var boards := FindAll(pages[d.url].doc, BoardList);
      BoardRowsAreCardRows(commander, d.text, boards);
      CardRowsMeaning(commander, d.text, AllCards(boards));
    }
  }

  /** Every deck link read from a container has a non-empty URL that starts
      with the site origin, so the loop's branch for a deck without URL is
      never taken. */
  lemma DeckUrlsNonEmpty(c: Node)
    ensures ListedLinks(c).Some? ==>
      forall d :: d in ListedLinks(c).value ==> d.url != "" && Origin <= d.url
  {
    match Find(c, ListTag)
    case None =>
    case Some(ul) =>
      var items := FindAll(ul, ItemTag);
      LinksFromMeaning(items);
      if LinksFrom(items).Some? {
        var links := LinksFrom(items).value;
        forall d | d in links ensures d.url != "" && Origin <= d.url {
          var k :| 0 <= k < |links| && links[k] == d;
          assert ReadItem(Anchored(items)[k]) == Linked(d);
        }
      }
  }

  /** The rows of a deck all carry its commander and its name. */
  lemma {:induction false} DeckRowsOwner(commander: string, d: Deck, pages: map<string, Page>)
    ensures forall r :: r in DeckRows(commander, d, pages) ==> r.commander == commander && r.deck == Some(d.text)
  {
    if d.url != "" && d.url in pages && pages[d.url].raw != "" {
      var boards := FindAll(pages[d.url].doc, BoardList);
      BoardRowsAreCardRows(commander, d.text, boards);
      CardRowsMeaning(commander, d.text, AllCards(boards));
    }
  }

  lemma {:induction false} DecksRowsOwner(commander: string, decks: seq<Deck>, pages: map<string, Page>)
    ensures forall r :: r in DecksRows(commander, decks, pages) ==>
      r.commander == commander && exists d :: d in decks && r.deck == Some(d.text)
  {
    if decks != [] {
      var init, last := decks[..|decks| - 1], decks[|decks| - 1];
      DecksRowsOwner(commander, init, pages);
      DeckRowsOwner(commander, last, pages);
      forall r | r in DecksRows(commander, decks, pages)
        ensures r.commander == commander && exists d :: d in decks && r.deck == Some(d.text)
      {
        if r in DecksRows(commander, init, pages) {
          var d :| d in init && r.deck == Some(d.text);
          assert d in decks;
        } else {
          assert last in decks;
        }
      }
    }
  }

  /** A container without a commander, or with an empty one, yields no rows; a
      commander without decks yields exactly one row with the other three
      fields null; otherwise every row carries the commander and one of its
      decks. */
  lemma ContainerRowsCases(c: Node, pages: map<string, Page>)
    ensures ExtractCommander(c).None? || ExtractCommander(c) == Some("") ==> ContainerRows(c, pages) == Some([])
    ensures ExtractCommander(c).Some? && ExtractCommander(c).value != "" && ListedLinks(c) == Some([]) ==>
      ContainerRows(c, pages) == Some([Row(ExtractCommander(c).value, None, None, None)])
    ensures ContainerRows(c, pages).Some? ==>
      forall r :: r in ContainerRows(c, pages).value ==>
        && ExtractCommander(c) == Some(r.commander) && r.commander != ""
        && (r.deck.Some? ==> exists d :: d in ListedLinks(c).value && r.deck == Some(d.text))
  {
    match ExtractCommander(c)
    case None =>
    case Some(name) =>
      if name != "" && ListedLinks(c).Some? {
        DecksRowsOwner(name, ListedLinks(c).value, pages);
      }
  }

  /** Every row of a run has a non-empty commander, read from one of the
      containers. */
  lemma {:induction false} EveryRowHasCommander(containers: seq<Node>, pages: map<string, Page>)
    ensures CrawlRows(containers, pages).Some? ==>
      forall r :: r in CrawlRows(containers, pages).value ==>
        r.commander != "" && exists c :: c in containers && ExtractCommander(c) == Some(r.commander)
  {
    if containers != [] {
      var init, last := containers[..|containers| - 1], containers[|containers| - 1];
      EveryRowHasCommander(init, pages);
      ContainerRowsCases(last, pages);
      if CrawlRows(containers, pages).Some? {
        forall r | r in CrawlRows(containers, pages).value
          ensures r.commander != "" && exists c :: c in containers && ExtractCommander(c) == Some(r.commander)
        {
          if r in CrawlRows(init, pages).value {
            var c :| c in init && ExtractCommander(c) == Some(r.commander);
            assert c in containers;
          } else {
            assert last in containers;
          }
        }
      }
    }
  }

  /** The writer keeps exactly the complete rows, in input order: `idx` lists
      the positions of the kept rows, strictly increasing, and a position is in
      it exactly when its row is complete. */
  lemma {:induction false} KeptPositions(rows: seq<Row>) returns (idx: seq<nat>)
    ensures |idx| == |KeepComplete(rows)|
    ensures forall k :: 0 <= k < |idx| ==> idx[k] < |rows| && KeepComplete(rows)[k] == rows[idx[k]]
    ensures forall k, l :: 0 <= k < l < |idx| ==> idx[k] < idx[l]
    ensures forall j :: 0 <= j < |rows| ==> (j in idx <==> Complete(rows[j]))
  {
    if rows == [] {
      idx := [];
    } else {
      var n := |rows| - 1;
      var init := rows[..n];
      var prev := KeptPositions(init);
      idx := if Complete(rows[n]) then prev + [n] else prev;
      KeptIndexStep(rows, prev, idx);
      KeptOrderStep(prev, n, idx, Complete(rows[n]));
      KeptMembershipStep(rows, prev, idx);
    }
  }

  /** One more row: the kept rows are still found at the listed positions. */
  lemma KeptIndexStep(rows: seq<Row>, prev: seq<nat>, idx: seq<nat>)
    requires rows != []
    requires |prev| == |KeepComplete(rows[..|rows| - 1])|
    requires forall k :: 0 <= k < |prev| ==>
      prev[k] < |rows| - 1 && KeepComplete(rows[..|rows| - 1])[k] == rows[..|rows| - 1][prev[k]]
    requires idx == if Complete(rows[|rows| - 1]) then prev + [|rows| - 1] else prev
    ensures |idx| == |KeepComplete(rows)|
    ensures forall k :: 0 <= k < |idx| ==> idx[k] < |rows| && KeepComplete(rows)[k] == rows[idx[k]]
  {
    var n := |rows| - 1;
    var init := rows[..n];
    var kept, keptInit := KeepComplete(rows), KeepComplete(init);
    assert kept == keptInit + (if Complete(rows[n]) then [rows[n]] else []);
    forall k | 0 <= k < |idx| ensures idx[k] < |rows| && kept[k] == rows[idx[k]] {
      if k < |prev| {
        assert idx[k] == prev[k] && kept[k] == keptInit[k] && rows[prev[k]] == init[prev[k]];
      }
    }
  }

  /** One more position, larger than all before it: the positions still
      increase strictly. */
  lemma KeptOrderStep(prev: seq<nat>, n: nat, idx: seq<nat>, keep: bool)
    requires forall k :: 0 <= k < |prev| ==> prev[k] < n
    requires forall k, l :: 0 <= k < l < |prev| ==> prev[k] < prev[l]
    requires idx == if keep then prev + [n] else prev
    ensures forall k, l :: 0 <= k < l < |idx| ==> idx[k] < idx[l]
  {
    forall k, l | 0 <= k < l < |idx| ensures idx[k] < idx[l] {
      if l < |prev| { assert idx[k] == prev[k] && idx[l] == prev[l]; }
    }
  }

  /** One more row: a position is listed exactly when its row is complete. */
  lemma KeptMembershipStep(rows: seq<Row>, prev: seq<nat>, idx: seq<nat>)
    requires rows != []
    requires forall k :: 0 <= k < |prev| ==> prev[k] < |rows| - 1
    requires forall j :: 0 <= j < |rows| - 1 ==> (j in prev <==> Complete(rows[..|rows| - 1][j]))
    requires idx == if Complete(rows[|rows| - 1]) then prev + [|rows| - 1] else prev
    ensures forall j :: 0 <= j < |rows| ==> (j in idx <==> Complete(rows[j]))
  {
    var n := |rows| - 1;
    forall j | 0 <= j < |rows| ensures j in idx <==> Complete(rows[j]) {
      if j < n {
        assert rows[j] == rows[..n][j];
        assert j in prev <==> j in idx;
      }
    }
  }

  /** A placeholder row (deck, card or quantity null or empty) is never
      written; every written row is complete and comes from the input. */
  lemma {:induction false} WrittenRowsAreComplete(rows: seq<Row>)
    ensures forall r :: r in KeepComplete(rows) <==> r in rows && Complete(r)
  {
    if rows != [] {
      var init := rows[..|rows| - 1];
      WrittenRowsAreComplete(init);
      assert rows == init + [rows[|rows| - 1]];
    }
  }
}
