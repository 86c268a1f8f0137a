/** A parsed HTML document as a tree of element nodes, and the two searches the
    scrapers use on it: `find` (first match) and `find_all` (every match).
    Both search the strict descendants of a node in document order, which is
    the pre-order of the tree. */
module Dom {

  datatype Option<+T> = None | Some(value: T)

  /** One element. `text` is what `get_text(strip=True)` yields for it;
      `classes` are the entries its `class` attribute matches: its tokens and,
      as an entry of its own, the whole attribute string (so that a multi-word
      selector such as "card-link card-hover" can match); `attrs` are its other
      attributes. */
  datatype Node = Node(
    tag: string,
    classes: seq<string>,
    text: string,
    attrs: map<string, string>,
    children: seq<Node>)

  /** A search criterion: a tag name and, optionally, a class the node must carry. */
  datatype Selector = Selector(tag: string, cls: Option<string>)

  predicate Matches(n: Node, sel: Selector) {
    n.tag == sel.tag && (sel.cls.None? || sel.cls.value in n.classes)
  }

  /** The strict descendants of `n`, in document (pre-)order. */
  function Descendants(n: Node): seq<Node>
    decreases n, 1
  {
    Forest(n.children)
  }

  /** The nodes of a sequence of sibling trees, each tree in pre-order. */
  function Forest(ns: seq<Node>): seq<Node>
    decreases ns, 0
  {
    if ns == [] then [] else [ns[0]] + Descendants(ns[0]) + Forest(ns[1..])
  }

  function Select(ns: seq<Node>, sel: Selector): (r: seq<Node>)
    ensures |r| <= |ns|
    ensures forall x :: x in r <==> x in ns && Matches(x, sel)
  {
    if ns == [] then []
    else if Matches(ns[0], sel) then [ns[0]] + Select(ns[1..], sel)
    else Select(ns[1..], sel)
  }

  /** `n.find_all(...)`: every matching descendant, in document order. */
  function FindAll(n: Node, sel: Selector): (r: seq<Node>)
    ensures forall x :: x in r <==> x in Descendants(n) && Matches(x, sel)
  {
    Select(Descendants(n), sel)
  }

  /** `n.find(...)`: the first matching descendant, or None when there is none. */
  function Find(n: Node, sel: Selector): (r: Option<Node>)
    ensures r.None? <==> forall x :: x in Descendants(n) ==> !Matches(x, sel)
    ensures r.Some? ==> r.value in Descendants(n) && Matches(r.value, sel)
  {
    var all := FindAll(n, sel);
    if all == [] then None else assert all[0] in all; Some(all[0])
  }

  /** `Find` returns the earliest match: no descendant before it matches. */
  lemma FindIsFirst(n: Node, sel: Selector)
    ensures Find(n, sel).Some? ==> exists j :: IsFirstMatch(n, sel, j) && Descendants(n)[j] == Find(n, sel).value
  {
    var d := Descendants(n);
    if Find(n, sel).Some? {
      var i :| 0 <= i < |d| && d[i] == Find(n, sel).value;
      SelectFirst(d, sel, i);
    }
  }

  /** Position `j` of the descendants of `n` is the first match in document
      order. */
  ghost predicate IsFirstMatch(n: Node, sel: Selector, j: int) {
    && 0 <= j < |Descendants(n)|
    && Matches(Descendants(n)[j], sel)
    && forall k :: 0 <= k < j ==> !Matches(Descendants(n)[k], sel)
  }

  /** The match `Find` returns comes before every other match in document order. */
  lemma {:induction false} SelectFirst(ns: seq<Node>, sel: Selector, i: nat)
    requires i < |ns| && Matches(ns[i], sel)
    ensures Select(ns, sel) != []
    ensures exists j :: 0 <= j <= i && ns[j] == Select(ns, sel)[0]
                        && forall k :: 0 <= k < j ==> !Matches(ns[k], sel)
  {
    if Matches(ns[0], sel) {
      assert ns[0] == Select(ns, sel)[0];
    } else {
      SelectFirst(ns[1..], sel, i - 1);
      var j :| 0 <= j <= i - 1 && ns[1..][j] == Select(ns[1..], sel)[0]
               && forall k :: 0 <= k < j ==> !Matches(ns[1..][k], sel);
      assert ns[j + 1] == Select(ns, sel)[0];
      forall k | 0 <= k < j + 1 ensures !Matches(ns[k], sel) {
        if k > 0 { assert ns[k] == ns[1..][k - 1]; }
      }
    }
  }
}
