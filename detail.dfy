/** The parsing half of `get_detail_info`: a fund's detail page gives its
    description, its category and the link to its rules ("bases"), each
    defaulting to `""`. */
module Detail {
  import opened Wrappers
  import opened Text
  import opened Html

  /** The label that marks the category block. */
  const CategoryLabel: string := "Categoría:"

  /** The three keys DESCRIPCION, CATEGORIA and WEB. */
  datatype DetailInfo = DetailInfo(descripcion: string, categoria: string, web: string)

  /** A `me-3` block is the category block when its first `small` element
      carries the category label. */
  predicate IsCategoryBlock(div: Node) {
    var small := Find(div, ByTag("small"));
    small.Some? && Contains(small.value.text, CategoryLabel)
  }

  /** The text of the block's first `bg-rosa` span, stripped, or `""`. */
  function CategoryText(div: Node): (r: string)
    ensures IsStripped(r)
    ensures Find(div, ByClass("span", "bg-rosa")).None? ==> r == ""
  {
    TextOrEmpty(Find(div, ByClass("span", "bg-rosa")))
  }

  /** The position of the first category block at or after `from`, if any. */
  function FirstCategoryBlock(divs: seq<Node>, from: nat): (r: Option<nat>)
    requires from <= |divs|
    ensures r.Some? ==> from <= r.value < |divs| && IsCategoryBlock(divs[r.value])
    ensures r.Some? ==> forall j {:trigger IsCategoryBlock(divs[j])} :: from <= j < r.value ==> !IsCategoryBlock(divs[j])
    ensures r.None? <==> forall j {:trigger IsCategoryBlock(divs[j])} :: from <= j < |divs| ==> !IsCategoryBlock(divs[j])
    decreases |divs| - from
  {
    if from == |divs| then None
    else if IsCategoryBlock(divs[from]) then Some(from)
    else FirstCategoryBlock(divs, from + 1)
  }

  /** The category of a page whose `me-3` blocks are `divs`: read from the
      first category block only, `""` when there is none. */
  function CategoryOf(divs: seq<Node>): (r: string)
    ensures IsStripped(r)
    ensures FirstCategoryBlock(divs, 0).None? ==> r == ""
  {
    match FirstCategoryBlock(divs, 0)
    case None => ""
    case Some(k) => CategoryText(divs[k])
  }

  /** The scan stops at the first category block: its `bg-rosa` text is the
      category, and it is `""` when that block has no such span, whatever
      the later blocks hold. */
  lemma CategoryFromFirstBlock(divs: seq<Node>, k: nat)
    requires k < |divs| && IsCategoryBlock(divs[k])
    requires forall j {:trigger IsCategoryBlock(divs[j])} :: 0 <= j < k ==> !IsCategoryBlock(divs[j])
    ensures CategoryOf(divs) == CategoryText(divs[k])
    ensures Find(divs[k], ByClass("span", "bg-rosa")).None? ==> CategoryOf(divs) == ""
  {
    assert FirstCategoryBlock(divs, 0) == Some(k);
  }

  /** Without any category block the category is `""`. */
  lemma CategoryWithoutBlock(divs: seq<Node>)
    requires forall j {:trigger IsCategoryBlock(divs[j])} :: 0 <= j < |divs| ==> !IsCategoryBlock(divs[j])
    ensures CategoryOf(divs) == ""
  {
  }

  /** The `for div in categoria_divs` loop: it stops at the first block
      whose label matches, whether or not that block has a category span. */
  method FindCategory(divs: seq<Node>) returns (categoria: string)
    ensures categoria == CategoryOf(divs)
  {
    categoria := "";
    var i := 0;
    while i < |divs|
      invariant 0 <= i <= |divs|
      invariant forall j {:trigger IsCategoryBlock(divs[j])} :: 0 <= j < i ==> !IsCategoryBlock(divs[j])
      invariant categoria == ""
    {
      var small := Find(divs[i], ByTag("small"));
      if small.Some? && Contains(small.value.text, CategoryLabel) {
        var span := Find(divs[i], ByClass("span", "bg-rosa"));
        if span.Some? {
          categoria := Strip(span.value.text);
        }
        break;
      }
      i := i + 1;
    }
    if i < |divs| {
      CategoryFromFirstBlock(divs, i);
    } else {
      CategoryWithoutBlock(divs);
    }
  }

  /** The description: the stripped text of the first paragraph of the first
      `mb-4 d-block` block, or `""`. */
  function DescriptionOf(page: Node): (r: string)
    ensures IsStripped(r)
    ensures Find(page, ByClass("div", "mb-4 d-block")).None? ==> r == ""
    ensures var block := Find(page, ByClass("div", "mb-4 d-block"));
      block.Some? ==> r == TextOrEmpty(Find(block.value, ByTag("p")))
  {
    match Find(page, ByClass("div", "mb-4 d-block"))
    case None => ""
    case Some(block) => TextOrEmpty(Find(block, ByTag("p")))
  }

  /** The rules link: the `href` of the first anchor inside the `pills-04`
      block, as it stands (not stripped), or `""` when the block, the anchor
      or its `href` is missing. */
  function BasesLinkOf(page: Node): (r: string)
    ensures Find(page, ById("div", "pills-04")).None? ==> r == ""
    ensures var block := Find(page, ById("div", "pills-04"));
      block.Some? ==>
        var enlaces := FindAll(block.value, ByTag("a"));
        r == (if enlaces == [] || enlaces[0].href.None? then "" else enlaces[0].href.value)
    ensures r != "" ==> exists a :: a in Descendants(page) && Matches(a, ByTag("a")) && a.href == Some(r)
  {
    match Find(page, ById("div", "pills-04"))
    case None => ""
    case Some(block) =>
      var enlaces := FindAll(block, ByTag("a"));
      if enlaces == [] then ""
      else
        FindSpec(page, ById("div", "pills-04"));
        FilterMembership(Descendants(block), ByTag("a"), enlaces[0]);
        DescendantOfDescendant(page, block, enlaces[0]);
        if enlaces[0].href.Some? then enlaces[0].href.value else ""
  }

  /** The description is read from the first `mb-4 d-block` block of the
      page in document order, and from that block's first paragraph. */
  lemma DescriptionIsFirstParagraph(page: Node, k: nat, j: nat)
    requires k < |Descendants(page)| && Matches(Descendants(page)[k], ByClass("div", "mb-4 d-block"))
    requires forall i :: 0 <= i < k ==> !Matches(Descendants(page)[i], ByClass("div", "mb-4 d-block"))
    requires var block := Descendants(page)[k];
      j < |Descendants(block)| && Matches(Descendants(block)[j], ByTag("p")) &&
      forall i :: 0 <= i < j ==> !Matches(Descendants(block)[i], ByTag("p"))
    ensures DescriptionOf(page) == Strip(Descendants(Descendants(page)[k])[j].text)
  {
    var block := Descendants(page)[k];
    FindIsFirstMatch(page, ByClass("div", "mb-4 d-block"), k);
    FindIsFirstMatch(block, ByTag("p"), j);
  }

  /** The rules link is the `href` of the first anchor, in document order, of
      the first `pills-04` block, and `""` when that anchor has no `href`,
      whatever later anchors carry. */
  lemma BasesLinkIsFirstAnchor(page: Node, k: nat, j: nat)
    requires k < |Descendants(page)| && Matches(Descendants(page)[k], ById("div", "pills-04"))
    requires forall i :: 0 <= i < k ==> !Matches(Descendants(page)[i], ById("div", "pills-04"))
    requires var block := Descendants(page)[k];
      j < |Descendants(block)| && Matches(Descendants(block)[j], ByTag("a")) &&
      forall i :: 0 <= i < j ==> !Matches(Descendants(block)[i], ByTag("a"))
    ensures var anchor := Descendants(Descendants(page)[k])[j];
      BasesLinkOf(page) == (if anchor.href.Some? then anchor.href.value else "")
  {
    var block := Descendants(page)[k];
    FindIsFirstMatch(page, ById("div", "pills-04"), k);
    FindIsFirstMatch(block, ByTag("a"), j);
  }

  /** The detail fields of a fetched page. */
  function DetailOf(page: Node): DetailInfo {
    DetailInfo(DescriptionOf(page), CategoryOf(FindAll(page, ByClass("div", "me-3"))), BasesLinkOf(page))
  }

  /** `get_detail_info` after the page has been fetched and parsed. */
  method GetDetailInfo(page: Node) returns (d: DetailInfo)
    ensures d == DetailOf(page)
    ensures IsStripped(d.descripcion) && IsStripped(d.categoria)
  {
    var descripcion := DescriptionOf(page);
    var categoria := FindCategory(FindAll(page, ByClass("div", "me-3")));
    var web := BasesLinkOf(page);
    d := DetailInfo(descripcion, categoria, web);
  }
}
