/** What both scrapers share: the markup conventions of the deck site (the
    site origin, the selectors, how a list of anchors is read into text and
    absolute URL pairs) and how the CSV writer renders a null field. */
module Site {
  import opened Dom

  const Origin: string := "https://tappedout.net"

  const CardLink: Selector := Selector("a", Some("card-link card-hover"))
  const PanelBody: Selector := Selector("div", Some("panel-body"))
  const ListTag: Selector := Selector("ul", None)
  const ItemTag: Selector := Selector("li", None)
  const AnchorTag: Selector := Selector("a", None)

  /** A fetched page: the response text and the tree parsed from it. */
  datatype Page = Page(raw: string, doc: Node)

  /** An anchor read as its text and the absolute URL of its `href`. */
  datatype Link = Link(text: string, url: string)

  /** What reading the first anchor of a list item gives: no anchor at all, an
      anchor without `href` (indexing the missing attribute raises), or a link. */
  datatype ItemRead = NoAnchor | NoHref | Linked(link: Link)

  /** The text of the first card-link anchor under `c`, if there is one. */
  function CardLinkText(c: Node): (r: Option<string>)
    ensures r.None? <==> forall x :: x in Descendants(c) ==> !Matches(x, CardLink)
    ensures r.Some? ==> exists j :: IsFirstMatch(c, CardLink, j) && Descendants(c)[j].text == r.value
  {
    FindIsFirst(c, CardLink);
    match Find(c, CardLink)
    case None => None
    case Some(a) => Some(a.text)
  }

  /** Reads the first anchor of a list item. A link's URL is the site origin
      followed by the `href`, so it always begins with the origin and is never
      empty. */
  function ReadItem(li: Node): (r: ItemRead)
    ensures r.NoAnchor? <==> forall x :: x in Descendants(li) ==> x.tag != "a"
    ensures r.NoHref? <==> exists j :: IsFirstMatch(li, AnchorTag, j) && "href" !in Descendants(li)[j].attrs
    ensures r.Linked? ==> exists j :: IsFirstMatch(li, AnchorTag, j) && "href" in Descendants(li)[j].attrs
                            && r.link == Link(Descendants(li)[j].text, Origin + Descendants(li)[j].attrs["href"])
    ensures r.Linked? ==> r.link.url != "" && Origin <= r.link.url
  {
    FindIsFirst(li, AnchorTag);
    match Find(li, AnchorTag)
    case None => NoAnchor
    case Some(a) =>
      if "href" in a.attrs then Linked(Link(a.text, Origin + a.attrs["href"])) else NoHref
  }

  /** The links read from a sequence of list items, in order; None when one of
      them has an anchor without `href`. Items without an anchor are skipped. */
  function LinksFrom(items: seq<Node>): Option<seq<Link>>
  {
    if items == [] then Some([])
    else match LinksFrom(items[..|items| - 1])
      case None => None
      case Some(links) =>
        match ReadItem(items[|items| - 1])
        case NoAnchor => Some(links)
        case NoHref => None
        case Linked(l) => Some(links + [l])
  }

  /** The links of the items of the first list under `c`; no list gives none. */
  function ListedLinks(c: Node): Option<seq<Link>>
  {
    match Find(c, ListTag)
    case None => Some([])
    case Some(ul) => LinksFrom(FindAll(ul, ItemTag))
  }

  /** The items that carry an anchor, in order. */
  function Anchored(items: seq<Node>): (r: seq<Node>)
    ensures |r| <= |items|
  {
    if items == [] then []
    else if ReadItem(items[0]).NoAnchor? then Anchored(items[1..])
    else [items[0]] + Anchored(items[1..])
  }

  /** Once the prefix `items[..i]` contains an anchor without `href`, so does
      every longer prefix. */
  lemma {:induction false} LinksFromAborts(items: seq<Node>, i: nat)
    requires i <= |items| && LinksFrom(items[..i]) == None
    ensures LinksFrom(items) == None
    decreases |items| - i
  {
    if i < |items| {
      assert items[..i + 1][..i] == items[..i];
      LinksFromAborts(items, i + 1);
    } else {
      assert items[..i] == items;
    }
  }

  lemma {:induction false} AnchoredSnoc(items: seq<Node>, x: Node)
    ensures Anchored(items + [x]) == Anchored(items) + (if ReadItem(x).NoAnchor? then [] else [x])
  {
    if items != [] {
      assert (items + [x])[1..] == items[1..] + [x];
      AnchoredSnoc(items[1..], x);
    }
  }

  /** Reading a list fails exactly when some item's first anchor has no
      `href`. */
  lemma {:induction false} LinksFromFails(items: seq<Node>)
    ensures LinksFrom(items).None? <==> exists x :: x in items && ReadItem(x).NoHref?
  {
    if items != [] {
      var init, last := items[..|items| - 1], items[|items| - 1];
      assert items == init + [last];
      LinksFromFails(init);
      if LinksFrom(items).None? && LinksFrom(init).None? {
        var x :| x in init && ReadItem(x).NoHref?;
        assert x in items;
      }
      if LinksFrom(items).Some? {
        forall x | x in items ensures !ReadItem(x).NoHref? {
          if x != last { assert x in init; }
        }
      }
    }
  }

  /** A list that is read gives one link per anchored item, in the same order,
      each read from that item's first anchor. */
  lemma {:induction false} LinksFromMeaning(items: seq<Node>)
    ensures LinksFrom(items).Some? ==>
      var links := LinksFrom(items).value;
      && |links| == |Anchored(items)|
      && forall k :: 0 <= k < |links| ==> ReadItem(Anchored(items)[k]) == Linked(links[k])
  {
    if items != [] && LinksFrom(items).Some? {
      var init, last := items[..|items| - 1], items[|items| - 1];
      assert items == init + [last];
      LinksFromMeaning(init);
      AnchoredSnoc(init, last);
    }
  }

  /** There is no list under `c`: the result is empty. */
  lemma NoListNoLinks(c: Node)
    requires forall x :: x in Descendants(c) ==> x.tag != "ul"
    ensures ListedLinks(c) == Some([])
  {
  }

  /** Appending to an accumulator in steps: the grouping does not matter.
      The loops that append rows call this rather than asserting the equation
      in place, so that the fact is proved apart from their large contexts. */
  lemma AppendAssoc<T>(a: seq<T>, b: seq<T>, c: seq<T>)
    ensures (a + b) + c == a + (b + c)
  {
  }

  /** The CSV writer renders a null field as an empty cell. */
  function Cell(field: Option<string>): string {
    if field.Some? then field.value else ""
  }
}
