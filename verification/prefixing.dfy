/** The renaming that keeps a formula's definitions from colliding with the
    template's or another formula's: inside a slot's formula, every
    definition `id` gets the slot's prefix, and every local reference
    (`href` or `xlink:href` starting with `#`) is rewritten to match. The
    definitions have both rewritten, the drawn body only the references. */
module Prefixing {
  import opened Text
  import opened SvgTree

  /** The prefix of a slot: the slot id and two underscores. */
  function SlotPrefix(slotId: string): string {
    slotId + "__"
  }

  /** A local reference `#name`. */
  predicate IsLocalRef(v: string) {
    v != [] && v[0] == '#'
  }

  predicate IsRefAttr(name: string) {
    name == XlinkHref || name == "href"
  }

  /** A reference rewritten for the prefix: `#name` becomes
      `#` + prefix + `name`; anything else is left alone. */
  function PrefixRef(v: string, prefix: string): (r: string)
    ensures IsLocalRef(v) ==> IsLocalRef(r) && r[1..] == prefix + v[1..]
    ensures !IsLocalRef(v) ==> r == v
  {
    if IsLocalRef(v) then
      var r := "#" + prefix + v[1..];
      assert r[1..] == prefix + v[1..];
      r
    else v
  }

  /** An attribute value after the rewrite: a non-empty `id` gets the prefix
      when ids are renamed, a reference attribute is rewritten, any other
      attribute is kept. */
  function RewriteValue(name: string, v: string, prefix: string, renameIds: bool): string {
    if name == "id" && renameIds && v != [] then prefix + v
    else if IsRefAttr(name) then PrefixRef(v, prefix)
    else v
  }

  function RewriteAttrs(attrs: map<string, string>, prefix: string, renameIds: bool): (r: map<string, string>)
    ensures r.Keys == attrs.Keys
    ensures "id" in attrs ==>
      r["id"] == (if renameIds && attrs["id"] != [] then prefix + attrs["id"] else attrs["id"])
    ensures forall name :: name in attrs && IsRefAttr(name) && IsLocalRef(attrs[name]) ==>
      r[name] == "#" + prefix + attrs[name][1..]
    ensures forall name :: name in attrs && IsRefAttr(name) && !IsLocalRef(attrs[name]) ==>
      r[name] == attrs[name]
    ensures forall name :: name in attrs && name != "id" && !IsRefAttr(name) ==> r[name] == attrs[name]
  {
    map name | name in attrs :: RewriteValue(name, attrs[name], prefix, renameIds)
  }

  /** The clone of an element and everything below it, rewritten. */
  function PrefixTree(e: Element, prefix: string, renameIds: bool): (r: Element)
    decreases e, 1
    ensures r.tag == e.tag && r.transform == e.transform
    ensures r.attrs.Keys == e.attrs.Keys
    ensures |r.children| == |e.children|
  {
    Element(e.tag, RewriteAttrs(e.attrs, prefix, renameIds), e.transform, PrefixAll(e.children, prefix, renameIds))
  }

  function PrefixAll(es: seq<Element>, prefix: string, renameIds: bool): (r: seq<Element>)
    decreases es, 0
    ensures |r| == |es|
  {
    if es == [] then [] else [PrefixTree(es[0], prefix, renameIds)] + PrefixAll(es[1..], prefix, renameIds)
  }

  /** A definition merged into the template: ids and references prefixed. */
  function PrefixDefinition(e: Element, prefix: string): Element {
    PrefixTree(e, prefix, true)
  }

  /** A piece of the drawn body: references prefixed, ids kept. */
  function PrefixBody(e: Element, prefix: string): Element {
    PrefixTree(e, prefix, false)
  }

  /* ---------- ids and references of a tree ---------- */

  /** The non-empty ids of an element's subtree. */
  function Ids(e: Element): set<string>
    decreases e, 1
  {
    (if "id" in e.attrs && e.attrs["id"] != [] then {e.attrs["id"]} else {}) + IdsOf(e.children)
  }

  function IdsOf(es: seq<Element>): set<string>
    decreases es, 0
  {
    if es == [] then {} else Ids(es[0]) + IdsOf(es[1..])
  }

  /** The names an element refers to locally (without the `#`). */
  function OwnRefs(attrs: map<string, string>): set<string> {
    (if XlinkHref in attrs && IsLocalRef(attrs[XlinkHref]) then {attrs[XlinkHref][1..]} else {})
    + (if "href" in attrs && IsLocalRef(attrs["href"]) then {attrs["href"][1..]} else {})
  }

  /** The names the elements of a subtree refer to locally. */
  function Refs(e: Element): set<string>
    decreases e, 1
  {
    OwnRefs(e.attrs) + RefsOf(e.children)
  }

  function RefsOf(es: seq<Element>): set<string>
    decreases es, 0
  {
    if es == [] then {} else Refs(es[0]) + RefsOf(es[1..])
  }

  /** Every name of a set with the prefix in front. */
  function Prefixed(names: set<string>, prefix: string): set<string> {
    set n | n in names :: prefix + n
  }

  lemma PrefixedUnion(a: set<string>, b: set<string>, prefix: string)
    ensures Prefixed(a + b, prefix) == Prefixed(a, prefix) + Prefixed(b, prefix)
  {
  }

  /** Renaming ids prefixes every id of the subtree, and only those. */
  lemma {:induction false} DefinitionIds(e: Element, prefix: string)
    ensures Ids(PrefixTree(e, prefix, true)) == Prefixed(Ids(e), prefix)
    decreases e, 1
  {
    var r := PrefixTree(e, prefix, true);
    var own := if "id" in e.attrs && e.attrs["id"] != [] then {e.attrs["id"]} else {};
    var own' := if "id" in r.attrs && r.attrs["id"] != [] then {r.attrs["id"]} else {};
    assert own' == Prefixed(own, prefix);
    DefinitionIdsAll(e.children, prefix);
    PrefixedUnion(own, IdsOf(e.children), prefix);
  }

  lemma {:induction false} DefinitionIdsAll(es: seq<Element>, prefix: string)
    ensures IdsOf(PrefixAll(es, prefix, true)) == Prefixed(IdsOf(es), prefix)
    decreases es, 0
  {
    if es != [] {
      var rs := PrefixAll(es, prefix, true);
      assert rs[0] == PrefixTree(es[0], prefix, true) && rs[1..] == PrefixAll(es[1..], prefix, true);
      DefinitionIds(es[0], prefix);
      DefinitionIdsAll(es[1..], prefix);
      PrefixedUnion(Ids(es[0]), IdsOf(es[1..]), prefix);
    }
  }

  /** Without id renaming, the ids of the subtree stay as they are. */
  lemma {:induction false} BodyIds(e: Element, prefix: string)
    ensures Ids(PrefixTree(e, prefix, false)) == Ids(e)
    decreases e, 1
  {
    BodyIdsAll(e.children, prefix);
  }

  lemma {:induction false} BodyIdsAll(es: seq<Element>, prefix: string)
    ensures IdsOf(PrefixAll(es, prefix, false)) == IdsOf(es)
    decreases es, 0
  {
    if es != [] {
      var rs := PrefixAll(es, prefix, false);
      assert rs[0] == PrefixTree(es[0], prefix, false) && rs[1..] == PrefixAll(es[1..], prefix, false);
      BodyIds(es[0], prefix);
      BodyIdsAll(es[1..], prefix);
    }
  }

  /** Every local reference of the subtree gets the prefix, with or without
      id renaming. */
  lemma {:induction false} PrefixRefs(e: Element, prefix: string, renameIds: bool)
    ensures Refs(PrefixTree(e, prefix, renameIds)) == Prefixed(Refs(e), prefix)
    decreases e, 1
  {
    var r := PrefixTree(e, prefix, renameIds);
    OwnRefsPrefixed(e.attrs, prefix, renameIds);
    PrefixRefsAll(e.children, prefix, renameIds);
    PrefixedUnion(OwnRefs(e.attrs), RefsOf(e.children), prefix);
  }

  lemma {:induction false} PrefixRefsAll(es: seq<Element>, prefix: string, renameIds: bool)
    ensures RefsOf(PrefixAll(es, prefix, renameIds)) == Prefixed(RefsOf(es), prefix)
    decreases es, 0
  {
    if es != [] {
      var rs := PrefixAll(es, prefix, renameIds);
      assert rs[0] == PrefixTree(es[0], prefix, renameIds) && rs[1..] == PrefixAll(es[1..], prefix, renameIds);
      PrefixRefs(es[0], prefix, renameIds);
      PrefixRefsAll(es[1..], prefix, renameIds);
      PrefixedUnion(Refs(es[0]), RefsOf(es[1..]), prefix);
    }
  }

  lemma OwnRefsPrefixed(attrs: map<string, string>, prefix: string, renameIds: bool)
    ensures OwnRefs(RewriteAttrs(attrs, prefix, renameIds)) == Prefixed(OwnRefs(attrs), prefix)
  {
    var r := RewriteAttrs(attrs, prefix, renameIds);
    var x := if XlinkHref in attrs && IsLocalRef(attrs[XlinkHref]) then {attrs[XlinkHref][1..]} else {};
    var h := if "href" in attrs && IsLocalRef(attrs["href"]) then {attrs["href"][1..]} else {};
    var x' := if XlinkHref in r && IsLocalRef(r[XlinkHref]) then {r[XlinkHref][1..]} else {};
    var h' := if "href" in r && IsLocalRef(r["href"]) then {r["href"][1..]} else {};
    assert XlinkHref != "id" && "href" != "id";
    assert x' == Prefixed(x, prefix);
    assert h' == Prefixed(h, prefix);
    PrefixedUnion(x, h, prefix);
  }

  /** References stay resolved: if every local reference of the formula's
      body and definitions names one of the definitions' ids, then after the
      rewrite every reference names one of the rewritten definitions' ids. */
  lemma ReferencesStayResolved(defs: seq<Element>, body: seq<Element>, prefix: string)
    requires RefsOf(body) + RefsOf(defs) <= IdsOf(defs)
    ensures RefsOf(PrefixAll(body, prefix, false)) + RefsOf(PrefixAll(defs, prefix, true))
            <= IdsOf(PrefixAll(defs, prefix, true))
  {
    PrefixRefsAll(body, prefix, false);
    PrefixRefsAll(defs, prefix, true);
    DefinitionIdsAll(defs, prefix);
  }
}
