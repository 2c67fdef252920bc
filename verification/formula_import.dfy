/** `import_formula_into_template`: each formula SVG is merged into the card
    template in place of its slot. The formula's definitions are prefixed and
    appended to the template's `defs`; its drawing is prefixed, wrapped in a
    group scaled and aligned to the slot's rectangle, and that group takes
    the slot's place among its parent's children. Reading and writing files
    are left out: the template and the formulas arrive parsed. */
module FormulaImport {
  import opened Wrappers
  import opened Text
  import opened SvgTree
  import opened Lengths
  import opened Placement
  import opened Prefixing

  /** One entry of the slot table: a slot id and the parsed formula SVG. */
  datatype Job = Job(slotId: string, formula: Element)

  /** The state carried from one slot to the next: the document, the index of
      the template's `defs` among the root's children (`None` once a slot
      replaced the `defs` element itself, which leaves later definitions on a
      detached element), and the ids of the slots that were not found. */
  datatype State = State(root: Element, defs: Option<nat>, warnings: seq<string>)

  predicate DefsOk(st: State) {
    st.defs.Some? ==> st.defs.value < |st.root.children|
  }

  const EmptyDefs := Element(QName("defs"), map[], None, [])

  /** The template's `defs`: its first `defs` child, or a new empty one
      inserted as the first child. */
  function PrepareDefs(root: Element): (st: State)
    ensures st.defs.Some? && st.defs.value < |st.root.children|
    ensures st.root.children[st.defs.value].tag == QName("defs")
    ensures st.warnings == []
    ensures st.root.tag == root.tag && st.root.attrs == root.attrs
    ensures FirstChildWithTag(root, QName("defs"), 0).Some? ==> st.root == root
    ensures FirstChildWithTag(root, QName("defs"), 0).None? ==>
      st.root.children == [EmptyDefs] + root.children && st.defs == Some(0)
  {
    match FirstChildWithTag(root, QName("defs"), 0)
    case Some(i) => State(root, Some(i), [])
    case None => State(root.(children := [EmptyDefs] + root.children), Some(0), [])
  }

  /** The slot: the first element below the root whose `id` is `slotId`,
      else the first whose Inkscape label is. */
  function FindSlot(root: Element, slotId: string): (r: Option<Path>)
    ensures r.Some? ==> r.value != [] && ValidPath(root, r.value)
    ensures r.Some? ==> var e := At(root, r.value);
                        Matches(HasAttr("id", slotId), e) || Matches(HasAttr(InkscapeLabel, slotId), e)
    ensures r.None? <==>
      forall k :: 0 <= k < |root.children| ==>
        !Contains(root.children[k], HasAttr("id", slotId)) && !Contains(root.children[k], HasAttr(InkscapeLabel, slotId))
    ensures (exists k :: 0 <= k < |root.children| && Contains(root.children[k], HasAttr("id", slotId))) ==>
      r.Some? && Matches(HasAttr("id", slotId), At(root, r.value))
    ensures FindDescendant(root, HasAttr("id", slotId)).Some? ==> r == FindDescendant(root, HasAttr("id", slotId))
    ensures FindDescendant(root, HasAttr("id", slotId)).None? ==> r == FindDescendant(root, HasAttr(InkscapeLabel, slotId))
  {
    match FindDescendant(root, HasAttr("id", slotId))
    case Some(p) => Some(p)
    case None => FindDescendant(root, HasAttr(InkscapeLabel, slotId))
  }

  /** The box of a slot: the slot itself when it is a rectangle, else its
      first descendant rectangle; a slot with neither is a `RuntimeError`. */
  function SlotBox(slot: Element): (r: Result<Box>)
    ensures slot.tag == QName("rect") ==> r == BboxFromRect(slot)
    ensures slot.tag != QName("rect") && FindDescendant(slot, HasTag(QName("rect"))).None? ==>
      r.Err? && r.error.RuntimeError?
    ensures slot.tag != QName("rect") && FindDescendant(slot, HasTag(QName("rect"))).Some? ==>
      r == BboxFromRect(At(slot, FindDescendant(slot, HasTag(QName("rect"))).value))
  {
    if slot.tag == QName("rect") then BboxFromRect(slot)
    else
      match FindDescendant(slot, HasTag(QName("rect")))
      case None => Err(RuntimeError("slot has no sized rectangle"))
      case Some(p) => BboxFromRect(At(slot, p))
  }

  /** A zero side becomes 1, so the scale can divide by it. */
  function NonZero(v: real): (r: real)
    ensures r != 0.0
    ensures v != 0.0 ==> r == v
  {
    if v == 0.0 then 1.0 else v
  }

  /** The formula's definitions, prefixed: the children of its first `defs`
      child, none when it has no `defs`. */
  function MergedDefs(formula: Element, prefix: string): (r: seq<Element>)
    ensures FirstChildWithTag(formula, QName("defs"), 0).None? ==> r == []
    ensures FirstChildWithTag(formula, QName("defs"), 0).Some? ==>
      r == PrefixAll(formula.children[FirstChildWithTag(formula, QName("defs"), 0).value].children, prefix, true)
  {
    match FirstChildWithTag(formula, QName("defs"), 0)
    case None => []
    case Some(i) => PrefixAll(formula.children[i].children, prefix, true)
  }

  /** The drawing of the formula: every top-level child whose tag does not end
      in `defs`, in order, with its references prefixed. */
  function BodyOf(children: seq<Element>, prefix: string): (r: seq<Element>)
    ensures |r| <= |children|
    ensures forall k :: 0 <= k < |r| ==> !EndsWith(r[k].tag, "defs")
  {
    if children == [] then []
    else
      var rest := BodyOf(children[1..], prefix);
      if EndsWith(children[0].tag, "defs") then rest
      else [PrefixBody(children[0], prefix)] + rest
  }

  /** The top-level children a group keeps: those not tagged as `defs`. */
  function Drawn(children: seq<Element>): seq<Element> {
    if children == [] then []
    else (if EndsWith(children[0].tag, "defs") then [] else [children[0]]) + Drawn(children[1..])
  }

  /** The group's children are exactly the kept children, each with only its
      references rewritten. */
  lemma {:induction false} BodyIsDrawnPrefixed(children: seq<Element>, prefix: string)
    ensures BodyOf(children, prefix) == PrefixAll(Drawn(children), prefix, false)
    decreases |children|
  {
    if children != [] {
      BodyIsDrawnPrefixed(children[1..], prefix);
      if EndsWith(children[0].tag, "defs") {
        assert Drawn(children) == Drawn(children[1..]);
      } else {
        var d := Drawn(children);
        assert d == [children[0]] + Drawn(children[1..]);
        assert d[0] == children[0] && d[1..] == Drawn(children[1..]);
        assert PrefixAll(d, prefix, false) == [PrefixTree(d[0], prefix, false)] + PrefixAll(d[1..], prefix, false);
      }
    }
  }

  /** The group that takes the slot's place. */
  function ContentGroup(slotId: string, formula: Element, a: Affine): (g: Element)
    ensures g.tag == QName("g") && g.attrs == map["id" := slotId + "_content"] && g.transform == Some(a)
    ensures g.children == BodyOf(formula.children, SlotPrefix(slotId))
  {
    Element(QName("g"), map["id" := slotId + "_content"], Some(a), BodyOf(formula.children, SlotPrefix(slotId)))
  }

  /** The document with `extra` appended to the template's `defs`, if that
      is still in the document. */
  function AppendDefs(st: State, extra: seq<Element>): (r: Element)
    requires DefsOk(st)
    ensures r.tag == st.root.tag && r.attrs == st.root.attrs && |r.children| == |st.root.children|
    ensures st.defs.None? ==> r == st.root
    ensures st.defs.Some? ==>
      var d := st.defs.value;
      && r.children[d] == st.root.children[d].(children := st.root.children[d].children + extra)
      && forall k :: 0 <= k < |r.children| && k != d ==> r.children[k] == st.root.children[k]
  {
    match st.defs
    case None => st.root
    case Some(d) =>
      var defs := st.root.children[d];
      st.root.(children := st.root.children[d := defs.(children := defs.children + extra)])
  }

  /** Appending to the `defs` keeps every path of the document valid. */
  lemma AppendKeepsPaths(st: State, extra: seq<Element>, p: Path)
    requires DefsOk(st) && ValidPath(st.root, p)
    ensures ValidPath(AppendDefs(st, extra), p)
  {
    var r := AppendDefs(st, extra);
    if p != [] && st.defs.Some? && p[0] == st.defs.value {
      var c := st.root.children[p[0]];
      var c' := r.children[p[0]];
      if p[1..] != [] {
        assert c'.children[p[1..][0]] == c.children[p[1..][0]];
      }
    }
  }

  /** The document once a found slot is replaced: the formula's definitions
      appended to the `defs`, then the group written at the slot's path. */
  function PlaceFormula(st: State, job: Job, path: Path, slot: Box, formula: Box, alignMap: map<string, string>)
    : (r: State)
    requires DefsOk(st) && path != [] && ValidPath(st.root, path)
    requires formula.w != 0.0 && formula.h != 0.0
    ensures DefsOk(r) && r.root.tag == st.root.tag && r.warnings == st.warnings
    ensures ValidPath(r.root, path)
    ensures At(r.root, path) == ContentGroup(job.slotId, job.formula, Fit(slot, formula, AlignOf(alignMap, job.slotId)))
    ensures r.defs.None? <==> st.defs.None? || path == [st.defs.value]
  {
    var prefix := SlotPrefix(job.slotId);
    var merged := AppendDefs(st, MergedDefs(job.formula, prefix));
    var g := ContentGroup(job.slotId, job.formula, Fit(slot, formula, AlignOf(alignMap, job.slotId)));
    AppendKeepsPaths(st, MergedDefs(job.formula, prefix), path);
    var root := ReplaceAt(merged, path, g);
    var defs := if st.defs.Some? && path == [st.defs.value] then None else st.defs;
    State(root, defs, st.warnings)
  }

  /** One slot: find it (a missing slot is only a warning), measure it, merge
      the formula's definitions, compute the fit and replace the slot by the
      group. Errors while measuring abort the whole import. */
  function ImportSlot(st: State, job: Job, alignMap: map<string, string>): (r: Result<State>)
    requires DefsOk(st)
    ensures FindSlot(st.root, job.slotId).None? ==> r == Ok(st.(warnings := st.warnings + [job.slotId]))
    ensures r.Ok? ==> DefsOk(r.value) && r.value.root.tag == st.root.tag
    ensures r.Ok? ==> r.value.warnings == st.warnings || r.value.warnings == st.warnings + [job.slotId]
    ensures r.Ok? && FindSlot(st.root, job.slotId).Some? ==>
      var path := FindSlot(st.root, job.slotId).value;
      && r.value.warnings == st.warnings
      && ValidPath(r.value.root, path)
      && At(r.value.root, path).tag == QName("g")
      && At(r.value.root, path).attrs == map["id" := job.slotId + "_content"]
      && (r.value.defs.None? <==> st.defs.None? || path == [st.defs.value])
    ensures r.Err? ==> FindSlot(st.root, job.slotId).Some?
    ensures FindSlot(st.root, job.slotId).Some? ==>
      var slot := SlotBox(At(st.root, FindSlot(st.root, job.slotId).value));
      var fbox := ReadSvgSizeAndOrigin(job.formula);
      && (slot.Err? ==> r == Err(slot.error))
      && (slot.Ok? && fbox.Err? ==> r == Err(fbox.error))
      && (slot.Ok? && fbox.Ok? ==>
            r == Ok(PlaceFormula(st, job, FindSlot(st.root, job.slotId).value, slot.value,
                                 Box(fbox.value.x, fbox.value.y, NonZero(fbox.value.w), NonZero(fbox.value.h)), alignMap)))
  {
    match FindSlot(st.root, job.slotId)
    case None => Ok(st.(warnings := st.warnings + [job.slotId]))
    case Some(path) =>
      match SlotBox(At(st.root, path))
      case Err(e) => Err(e)
      case Ok(slot) =>
        match ReadSvgSizeAndOrigin(job.formula)
        case Err(e) => Err(e)
        case Ok(fbox) =>
          Ok(PlaceFormula(st, job, path, slot, Box(fbox.x, fbox.y, NonZero(fbox.w), NonZero(fbox.h)), alignMap))
  }

  /** Every slot in turn; the first error ends the import. */
  function ImportAll(st: State, jobs: seq<Job>, alignMap: map<string, string>): (r: Result<State>)
    requires DefsOk(st)
    decreases |jobs|
    ensures r.Ok? ==> DefsOk(r.value) && r.value.root.tag == st.root.tag
  {
    if jobs == [] then Ok(st)
    else
      match ImportSlot(st, jobs[0], alignMap)
      case Err(e) => Err(e)
      case Ok(next) => ImportAll(next, jobs[1..], alignMap)
  }

  /** The ids of the slots that were processed. */
  function SlotIds(jobs: seq<Job>): set<string> {
    set j | j in jobs :: j.slotId
  }

  /** The warnings only grow, and every new one is the id of one of the
      slots. */
  lemma {:induction false} WarningsFromJobs(st: State, jobs: seq<Job>, alignMap: map<string, string>)
    requires DefsOk(st) && ImportAll(st, jobs, alignMap).Ok?
    ensures var w := ImportAll(st, jobs, alignMap).value.warnings;
            && |st.warnings| <= |w| && w[..|st.warnings|] == st.warnings
            && forall k :: |st.warnings| <= k < |w| ==> w[k] in SlotIds(jobs)
    decreases |jobs|
  {
    if jobs != [] {
      var next := ImportSlot(st, jobs[0], alignMap).value;
      var w := ImportAll(st, jobs, alignMap).value.warnings;
      assert w == ImportAll(next, jobs[1..], alignMap).value.warnings;
      WarningsFromJobs(next, jobs[1..], alignMap);
      SlotIdsCons(jobs);
      GrowTwice(st.warnings, next.warnings, w, jobs[0].slotId, SlotIds(jobs));
    }
  }

  lemma SlotIdsCons(jobs: seq<Job>)
    requires jobs != []
    ensures jobs[0].slotId in SlotIds(jobs) && SlotIds(jobs[1..]) <= SlotIds(jobs)
  {
    assert jobs[0] in jobs;
    assert forall j :: j in jobs[1..] ==> j in jobs;
  }

  /** Two extensions, the first by nothing or by `x`, make one whose new
      entries are all in `ids`. */
  lemma GrowTwice(a: seq<string>, b: seq<string>, c: seq<string>, x: string, ids: set<string>)
    requires b == a || b == a + [x]
    requires x in ids
    requires |b| <= |c| && c[..|b|] == b
    requires forall k :: |b| <= k < |c| ==> c[k] in ids
    ensures |a| <= |c| && c[..|a|] == a
    ensures forall k :: |a| <= k < |c| ==> c[k] in ids
  {
    assert c[..|a|] == b[..|a|];
    forall k | |a| <= k < |c|
      ensures c[k] in ids
    {
      if k < |b| {
        assert c[k] == b[k] == x;
      }
    }
  }

  /** A slot that is not in the template is skipped with a warning, and the
      remaining slots are still processed. */
  lemma MissingSlotSkipped(st: State, jobs: seq<Job>, alignMap: map<string, string>)
    requires DefsOk(st) && jobs != []
    requires FindSlot(st.root, jobs[0].slotId).None?
    ensures ImportAll(st, jobs, alignMap) ==
      ImportAll(st.(warnings := st.warnings + [jobs[0].slotId]), jobs[1..], alignMap)
  {
  }

  /** The group takes the slot's exact position: the slot's parent keeps its
      other children, in order, and its number of children. */
  lemma ReplacedInPlace(st: State, job: Job, path: Path, slot: Box, formula: Box, alignMap: map<string, string>)
    requires DefsOk(st) && path != [] && ValidPath(st.root, path)
    requires formula.w != 0.0 && formula.h != 0.0
    ensures var parent := path[..|path| - 1];
            var i := path[|path| - 1];
            var r := PlaceFormula(st, job, path, slot, formula, alignMap).root;
            var before := AppendDefs(st, MergedDefs(job.formula, SlotPrefix(job.slotId)));
            && ValidPath(before, parent) && ValidPath(r, parent)
            && i < |At(before, parent).children|
            && At(r, parent).children == At(before, parent).children[..i] + [At(r, path)] + At(before, parent).children[i + 1..]
            && At(r, parent).tag == At(before, parent).tag
            && At(r, parent).attrs == At(before, parent).attrs
  {
    var parent := path[..|path| - 1];
    var i := path[|path| - 1];
    var before := AppendDefs(st, MergedDefs(job.formula, SlotPrefix(job.slotId)));
    AppendKeepsPaths(st, MergedDefs(job.formula, SlotPrefix(job.slotId)), path);
    assert path == parent + [i];
    var g := ContentGroup(job.slotId, job.formula, Fit(slot, formula, AlignOf(alignMap, job.slotId)));
    assert PlaceFormula(st, job, path, slot, formula, alignMap).root == ReplaceAt(before, path, g);
    ReplaceChild(before, parent, i, g);
  }

  /** Appending to the `defs` changes nothing outside it. */
  lemma AppendElsewhere(st: State, extra: seq<Element>, q: Path)
    requires DefsOk(st) && ValidPath(st.root, q) && q != []
    requires st.defs.None? || q[0] != st.defs.value
    ensures ValidPath(AppendDefs(st, extra), q) && At(AppendDefs(st, extra), q) == At(st.root, q)
  {
    assert AppendDefs(st, extra).children[q[0]] == st.root.children[q[0]];
  }

  /** Everything away from the slot and from the template's `defs` is left
      as it was. */
  lemma OutsideUnchanged(st: State, job: Job, path: Path, slot: Box, formula: Box, alignMap: map<string, string>, q: Path)
    requires DefsOk(st) && path != [] && ValidPath(st.root, path)
    requires formula.w != 0.0 && formula.h != 0.0
    requires ValidPath(st.root, q) && Disjoint(path, q) && q != []
    requires st.defs.None? || q[0] != st.defs.value
    ensures var r := PlaceFormula(st, job, path, slot, formula, alignMap).root;
            ValidPath(r, q) && At(r, q) == At(st.root, q)
  {
    var extra := MergedDefs(job.formula, SlotPrefix(job.slotId));
    var before := AppendDefs(st, extra);
    AppendKeepsPaths(st, extra, path);
    AppendElsewhere(st, extra, q);
    var g := ContentGroup(job.slotId, job.formula, Fit(slot, formula, AlignOf(alignMap, job.slotId)));
    assert PlaceFormula(st, job, path, slot, formula, alignMap).root == ReplaceAt(before, path, g);
    ReplaceElsewhere(before, path, q, g);
  }

  /** The ids the formula defines: those below its first `defs` child. */
  function DefinedIds(formula: Element): set<string> {
    match FirstChildWithTag(formula, QName("defs"), 0)
    case None => {}
    case Some(i) => IdsOf(formula.children[i].children)
  }

  lemma {:induction false} IdsOfAppend(a: seq<Element>, b: seq<Element>)
    ensures IdsOf(a + b) == IdsOf(a) + IdsOf(b)
    decreases |a|
  {
    if a != [] {
      assert (a + b)[0] == a[0] && (a + b)[1..] == a[1..] + b;
      IdsOfAppend(a[1..], b);
      assert IdsOf(a + b) == Ids(a[0]) + IdsOf(a[1..] + b);
    } else {
      assert a + b == b;
    }
  }

  /** The template's `defs` gains exactly the formula's ids, each with the
      slot's prefix, when the slot lies outside it. */
  lemma DefsGainPrefixedIds(st: State, job: Job, path: Path, slot: Box, formula: Box, alignMap: map<string, string>)
    requires DefsOk(st) && path != [] && ValidPath(st.root, path)
    requires formula.w != 0.0 && formula.h != 0.0
    requires st.defs.Some? && path[0] != st.defs.value
    ensures var d := st.defs.value;
            var r := PlaceFormula(st, job, path, slot, formula, alignMap).root;
            Ids(r.children[d]) == Ids(st.root.children[d]) + Prefixed(DefinedIds(job.formula), SlotPrefix(job.slotId))
  {
    var d := st.defs.value;
    var prefix := SlotPrefix(job.slotId);
    var extra := MergedDefs(job.formula, prefix);
    var before := AppendDefs(st, extra);
    AppendKeepsPaths(st, extra, path);
    var g := ContentGroup(job.slotId, job.formula, Fit(slot, formula, AlignOf(alignMap, job.slotId)));
    var r := PlaceFormula(st, job, path, slot, formula, alignMap).root;
    assert r == ReplaceAt(before, path, g);
    assert Disjoint(path, [d]) by { assert path[0] != [d][0]; }
    ReplaceElsewhere(before, path, [d], g);
    assert r.children[d] == At(r, [d]) && before.children[d] == At(before, [d]);
    var old_defs := st.root.children[d];
    IdsOfAppend(old_defs.children, extra);
    match FirstChildWithTag(job.formula, QName("defs"), 0)
    case None =>
    case Some(i) => DefinitionIdsAll(job.formula.children[i].children, prefix);
  }

  /** `import_formula_into_template` without the file I/O: the merged
      document and the ids of the slots that were skipped. */
  function ImportFormulaIntoTemplate(template: Element, jobs: seq<Job>, alignMap: map<string, string>)
    : (r: Result<(Element, seq<string>)>)
    ensures r.Ok? ==> r.value.0.tag == template.tag
    ensures r.Ok? ==> forall k :: 0 <= k < |r.value.1| ==> r.value.1[k] in SlotIds(jobs)
    ensures jobs == [] ==> r.Ok? && r.value.1 == []
  {
    var st := PrepareDefs(template);
    match ImportAll(st, jobs, alignMap)
    case Err(e) => Err(e)
    case Ok(fin) =>
      WarningsFromJobs(st, jobs, alignMap);
      Ok((fin.root, fin.warnings))
  }
}
