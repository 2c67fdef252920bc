/** An SVG document as the scripts see it through ElementTree / lxml: a tree
    of elements, each with a tag in `{namespace}local` form, a map of
    attributes and an ordered list of children. An element is identified by
    its path from the root (the child indices to follow), which stands in for
    Python's object identity. */
module SvgTree {
  import opened Wrappers

  const SvgNs := "http://www.w3.org/2000/svg"
  const XlinkHref := "{http://www.w3.org/1999/xlink}href"
  const InkscapeLabel := "{http://www.inkscape.org/namespaces/inkscape}label"

  /** The `{namespace}local` tag of an element in the SVG namespace. */
  function QName(local: string): string {
    "{" + SvgNs + "}" + local
  }

  /** The `translate(tx,ty) scale(s)` transform the formula builder writes,
      kept as numbers rather than formatted text. */
  datatype Affine = Affine(tx: real, ty: real, scale: real)

  /** An element. `transform` is set only on the groups the builder creates;
      a transform attribute read from a file stays text in `attrs`. Text
      content and tails are not modelled. */
  datatype Element = Element(
    tag: string,
    attrs: map<string, string>,
    transform: Option<Affine>,
    children: seq<Element>)
  {
    /** `elem.get(name, default)`. */
    function Get(name: string, default: string): string {
      if name in attrs then attrs[name] else default
    }

    /** `elem.get(name)`, `None` when absent. */
    function Attr(name: string): Option<string> {
      if name in attrs then Some(attrs[name]) else None
    }
  }

  type Path = seq<nat>

  /** `p` leads from `e` to one of its elements (`[]` is `e` itself). */
  predicate ValidPath(e: Element, p: Path)
    decreases |p|
  {
    p == [] || (p[0] < |e.children| && ValidPath(e.children[p[0]], p[1..]))
  }

  /** The element `p` leads to. */
  function At(e: Element, p: Path): Element
    requires ValidPath(e, p)
    decreases |p|
  {
    if p == [] then e else At(e.children[p[0]], p[1..])
  }

  /** `e` with the element at `p` replaced by `n`. */
  function ReplaceAt(e: Element, p: Path, n: Element): (r: Element)
    requires ValidPath(e, p)
    decreases |p|
    ensures ValidPath(r, p) && At(r, p) == n
    ensures p != [] ==> r.tag == e.tag && r.attrs == e.attrs && |r.children| == |e.children|
  {
    if p == [] then n
    else
      var i := p[0];
      e.(children := e.children[i := ReplaceAt(e.children[i], p[1..], n)])
  }

  /** Replacing at `parent + [i]` replaces exactly the `i`-th child of the
      parent: the other children keep their order and number. */
  lemma {:induction false} ReplaceChild(e: Element, parent: Path, i: nat, n: Element)
    requires ValidPath(e, parent + [i])
    ensures ValidPath(e, parent) && ValidPath(ReplaceAt(e, parent + [i], n), parent)
    ensures var old_kids := At(e, parent).children;
            i < |old_kids| &&
            At(ReplaceAt(e, parent + [i], n), parent).children == old_kids[..i] + [n] + old_kids[i + 1..]
    ensures At(ReplaceAt(e, parent + [i], n), parent).tag == At(e, parent).tag
    ensures At(ReplaceAt(e, parent + [i], n), parent).attrs == At(e, parent).attrs
    decreases |parent|
  {
    if parent == [] {
      assert [i][1..] == [];
      var kids := e.children;
      assert kids[i := n] == kids[..i] + [n] + kids[i + 1..];
    } else {
      var k := parent[0];
      assert (parent + [i])[0] == k && (parent + [i])[1..] == parent[1..] + [i];
      ReplaceChild(e.children[k], parent[1..], i, n);
    }
  }

  /** Two paths are disjoint when neither is a prefix of the other. */
  predicate Disjoint(p: Path, q: Path) {
    exists k :: 0 <= k < |p| && k < |q| && p[k] != q[k]
  }

  /** Replacing at `p` changes nothing at a path disjoint from `p`. */
  lemma {:induction false} ReplaceElsewhere(e: Element, p: Path, q: Path, n: Element)
    requires ValidPath(e, p) && ValidPath(e, q) && Disjoint(p, q)
    ensures ValidPath(ReplaceAt(e, p, n), q) && At(ReplaceAt(e, p, n), q) == At(e, q)
    decreases |p|
  {
    var k :| 0 <= k < |p| && k < |q| && p[k] != q[k];
    var r := ReplaceAt(e, p, n);
    if p[0] != q[0] {
      assert r.children[q[0]] == e.children[q[0]];
    } else {
      assert k > 0;
      assert p[1..][k - 1] != q[1..][k - 1];
      ReplaceElsewhere(e.children[p[0]], p[1..], q[1..], n);
    }
  }

  /** What the scripts look elements up by. */
  datatype Query =
    | HasAttr(name: string, value: string)   // `[@name='value']`
    | HasTag(tag: string)                   // a tag test such as `svg:rect`

  predicate Matches(q: Query, e: Element) {
    match q
    case HasAttr(name, value) => name in e.attrs && e.attrs[name] == value
    case HasTag(tag) => e.tag == tag
  }

  /** Some element of the subtree rooted at `e`, `e` included, matches. */
  predicate Contains(e: Element, q: Query)
    decreases e
  {
    Matches(q, e) || exists k :: 0 <= k < |e.children| && Contains(e.children[k], q)
  }

  /** The first match, in document order, inside the subtrees of
      `parent.children[from..]`: ElementTree's descendant `find` when `from` is 0. */
  function FindIn(parent: Element, q: Query, from: nat): (r: Option<Path>)
    decreases parent, |parent.children| - from
    ensures r.Some? ==> |r.value| >= 1 && from <= r.value[0]
                        && ValidPath(parent, r.value) && Matches(q, At(parent, r.value))
    ensures r.None? ==> forall k :: from <= k < |parent.children| ==> !Contains(parent.children[k], q)
  {
    if from >= |parent.children| then None
    else
      var child := parent.children[from];
      if Matches(q, child) then Some([from])
      else
        match FindIn(child, q, 0)
        case Some(p) =>
          assert ([from] + p)[1..] == p;
          Some([from] + p)
        case None => FindIn(parent, q, from + 1)
  }

  /** ElementTree's `root.find` with a descendant path: the first match among the
      descendants of `e`, `e` itself excluded. */
  function FindDescendant(e: Element, q: Query): (r: Option<Path>)
    ensures r.Some? ==> r.value != [] && ValidPath(e, r.value) && Matches(q, At(e, r.value))
    ensures r.None? <==> forall k :: 0 <= k < |e.children| ==> !Contains(e.children[k], q)
  {
    var r := FindIn(e, q, 0);
    assert r.Some? ==> Contains(At(e, r.value), q);
    assert r.Some? ==> Contains(e.children[r.value[0]], q) by {
      if r.Some? { AtContains(e.children[r.value[0]], r.value[1..], q); }
    }
    r
  }

  /** lxml's `root.xpath(...)[0]` over all elements: the first match in document order,
      the root included. */
  function FindFirst(e: Element, q: Query): (r: Option<Path>)
    ensures r.Some? ==> ValidPath(e, r.value) && Matches(q, At(e, r.value))
    ensures r.None? <==> !Contains(e, q)
  {
    if Matches(q, e) then Some([]) else FindDescendant(e, q)
  }

  /** A matching element anywhere below makes the subtree contain a match. */
  lemma {:induction false} AtContains(e: Element, p: Path, q: Query)
    requires ValidPath(e, p) && Matches(q, At(e, p))
    ensures Contains(e, q)
    decreases |p|
  {
    if p != [] {
      AtContains(e.children[p[0]], p[1..], q);
    }
  }

  /** ElementTree's `root.find("svg:defs")` style lookup among the direct
      children: the index of the first child with the tag. */
  function FirstChildWithTag(e: Element, tag: string, from: nat): (r: Option<nat>)
    decreases |e.children| - from
    ensures r.Some? ==> from <= r.value < |e.children| && e.children[r.value].tag == tag
                        && forall k :: from <= k < r.value ==> e.children[k].tag != tag
    ensures r.None? ==> forall k :: from <= k < |e.children| ==> e.children[k].tag != tag
  {
    if from >= |e.children| then None
    else if e.children[from].tag == tag then Some(from)
    else FirstChildWithTag(e, tag, from + 1)
  }
}
