/** An abstract HTML tree and the two BeautifulSoup queries the scraper uses:
    `find_all` (every matching descendant in document order) and `find`
    (the first of them, or nothing). */
module Html {
  import opened Wrappers
  import opened Text

  /** One element: its tag name, its class list, its `id` attribute, its
      text (BeautifulSoup's `.text`, the text of the whole subtree), its
      `href` attribute and its child elements in document order. */
  datatype Node = Node(
    tag: string,
    classes: seq<string>,
    id: Option<string>,
    text: string,
    href: Option<string>,
    children: seq<Node>)

  /** The arguments of a `find`/`find_all` call: a tag name, optionally a
      `class_=` value and optionally an `id=` value. */
  datatype Query = Query(tag: string, cls: Option<string>, id: Option<string>)

  function ByTag(tag: string): Query { Query(tag, None, None) }
  function ByClass(tag: string, cls: string): Query { Query(tag, Some(cls), None) }
  function ById(tag: string, id: string): Query { Query(tag, None, Some(id)) }

  /** BeautifulSoup's `class_=c` test on a multi-valued class attribute: `c`
      is one of the classes, or `c` is the whole attribute value (classes
      joined by single spaces), which is how `'mb-4 d-block'` matches. */
  predicate ClassMatches(classes: seq<string>, c: string) {
    c in classes || Join(classes, ' ') == c
  }

  predicate Matches(n: Node, q: Query) {
    n.tag == q.tag &&
    (q.cls.Some? ==> ClassMatches(n.classes, q.cls.value)) &&
    (q.id.Some? ==> n.id == q.id)
  }

  /** The element followed by all its descendants, in document (pre-)order. */
  function Preorder(n: Node): (r: seq<Node>)
    ensures |r| >= 1 && r[0] == n
    decreases n
  {
    [n] + PreorderAll(n.children)
  }

  /** The pre-order walks of a list of sibling trees, one after another. */
  function PreorderAll(ns: seq<Node>): seq<Node>
    decreases ns
  {
    if ns == [] then [] else Preorder(ns[0]) + PreorderAll(ns[1..])
  }

  /** What BeautifulSoup searches: the descendants of `n`, not `n` itself. */
  function Descendants(n: Node): seq<Node> {
    PreorderAll(n.children)
  }

  /** A descendant of a descendant is a descendant: what `find` returns
      inside an element that `find` returned is inside the whole tree. */
  lemma DescendantOfDescendant(n: Node, m: Node, x: Node)
    requires m in Descendants(n) && x in Descendants(m)
    ensures x in Descendants(n)
  {
    assert x in Preorder(m);
    PreorderAllTransitive(n.children, m, x);
  }

  lemma {:induction false} PreorderTransitive(x: Node, y: Node, z: Node)
    requires y in Preorder(x) && z in Preorder(y)
    ensures z in Preorder(x)
    decreases x
  {
    if y != x {
      assert y in PreorderAll(x.children);
      PreorderAllTransitive(x.children, y, z);
    }
  }

  lemma {:induction false} PreorderAllTransitive(ns: seq<Node>, y: Node, z: Node)
    requires y in PreorderAll(ns) && z in Preorder(y)
    ensures z in PreorderAll(ns)
    decreases ns
  {
    assert ns != [];
    if y in Preorder(ns[0]) {
      PreorderTransitive(ns[0], y, z);
    } else {
      PreorderAllTransitive(ns[1..], y, z);
    }
  }

  /** The elements of `ns` that match `q`, in their order in `ns`. */
  function Filter(ns: seq<Node>, q: Query): (r: seq<Node>)
    ensures |r| <= |ns|
    ensures forall i :: 0 <= i < |r| ==> Matches(r[i], q)
  {
    if ns == [] then []
    else if Matches(ns[0], q) then [ns[0]] + Filter(ns[1..], q)
    else Filter(ns[1..], q)
  }

  /** An element is kept by the filter exactly when it is in the list and
      matches. */
  lemma {:induction false} FilterMembership(ns: seq<Node>, q: Query, x: Node)
    ensures x in Filter(ns, q) <==> x in ns && Matches(x, q)
  {
    if ns != [] {
      FilterMembership(ns[1..], q, x);
      assert ns == [ns[0]] + ns[1..];
    }
  }

  /** `n.find_all(...)`. */
  function FindAll(n: Node, q: Query): seq<Node> {
    Filter(Descendants(n), q)
  }

  /** `n.find(...)`: the first element `find_all` would return, if any. */
  function Find(n: Node, q: Query): (r: Option<Node>)
    ensures r.Some? ==> Matches(r.value, q)
  {
    var all := FindAll(n, q);
    if all == [] then None else Some(all[0])
  }

  /** `find` returns a matching descendant, and returns nothing only when no
      descendant matches. */
  lemma FindSpec(n: Node, q: Query)
    ensures Find(n, q).Some? ==> Find(n, q).value in Descendants(n)
    ensures Find(n, q).None? <==> forall x :: x in Descendants(n) ==> !Matches(x, q)
  {
    var all := FindAll(n, q);
    if all != [] {
      FilterMembership(Descendants(n), q, all[0]);
    }
    forall x | x in Descendants(n) && Matches(x, q)
      ensures all != []
    {
      FilterMembership(Descendants(n), q, x);
    }
  }

  /** `find` returns the FIRST match in document order: if the descendant at
      position `k` matches and none before it does, that is the one found. */
  lemma FindIsFirstMatch(n: Node, q: Query, k: nat)
    requires k < |Descendants(n)| && Matches(Descendants(n)[k], q)
    requires forall j :: 0 <= j < k ==> !Matches(Descendants(n)[j], q)
    ensures Find(n, q) == Some(Descendants(n)[k])
  {
    FilterFirst(Descendants(n), q, k);
  }

  lemma {:induction false} FilterFirst(ns: seq<Node>, q: Query, k: nat)
    requires k < |ns| && Matches(ns[k], q)
    requires forall j :: 0 <= j < k ==> !Matches(ns[j], q)
    ensures Filter(ns, q) != [] && Filter(ns, q)[0] == ns[k]
  {
    if k > 0 {
      FilterFirst(ns[1..], q, k - 1);
    }
  }

  /** The text of a found element, stripped, or `""` when nothing was found:
      the `x.text.strip() if x else ''` idiom of the scraper. */
  function TextOrEmpty(found: Option<Node>): (r: string)
    ensures IsStripped(r)
  {
    if found.Some? then Strip(found.value.text) else ""
  }
}
