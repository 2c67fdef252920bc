/** The inline text renderer of the card generator (`render_text_in_slot` and
    its helpers): the tokens of a slot's text are laid out left to right with
    a two-variable cursor, wrapping to a new line before a word or formula
    that would cross the slot's right bound. Font measurement and formula
    typesetting are parameters: `measure` gives the advance width of a text
    run in the fixed 28px font, `render` gives the parsed root of the SVG a
    formula typesets to, or `None` when typesetting yields nothing. */
module Layout {
  import opened Wrappers
  import opened Text
  import Numbers
  import opened SvgTree
  import opened Tokenizer

  const FontSizePx: nat := 28
  const FontSize: real := 28.0
  const LineHeightRatio: real := 1.3
  const LatexScale: real := 2.5
  const BaselineRatio: real := 0.82
  /** The vertical distance between two lines. */
  const LineHeightPx: real := FontSize * LineHeightRatio
  /** The text starts this far right of the slot's `x` … */
  const InsetX: real := 10.0
  /** … and its first baseline this far below the slot's `y`. */
  const InsetY: real := 40.0
  /** The horizontal gap left after every formula. */
  const FormulaGap: real := 5.0

  type Measure = string -> real
  type Renderer = (string, real) -> Option<Element>

  datatype Cursor = Cursor(x: real, y: real)

  /** The horizontal extent of a slot's text: lines start at `xStart`, and a
      token is wrapped when it would end past `xStart + slotWidth`. */
  datatype Frame = Frame(xStart: real, slotWidth: real) {
    function Right(): real { xStart + slotWidth }
  }

  /** An element appended to the document. `width` is the advance the layout
      used for it; it is not written out. */
  datatype Placed =
    | TextRun(x: real, y: real, text: string, width: real)
    | FormulaGroup(x: real, y: real, content: seq<Element>, width: real)
  {
    /** The translation of a formula group: the formula is lifted from the
        line's baseline by a fixed share of the font size. */
    function Translation(): (real, real)
      requires FormulaGroup?
    {
      (x, y - FontSize * BaselineRatio)
    }
  }

  /* ---------- get_svg_width ---------- */

  /** `get_svg_width`: the third number of a `viewBox` of exactly four
      whitespace-separated numbers; `0.0` when the attribute is missing or
      empty, has another number of parts, or a part is not a number. */
  function SvgWidth(frag: Element): (r: real)
    ensures var vb := frag.Get("viewBox", "");
            var parts := Split(vb);
            if vb != [] && |parts| == 4 && Numbers.FloatsOf(parts).Ok?
            then r == Numbers.ParseFloat(parts[2]).value
            else r == 0.0
  {
    var vb := frag.Get("viewBox", "");
    if vb == [] then 0.0
    else
      var parts := Split(vb);
      if |parts| != 4 then 0.0
      else
        match Numbers.FloatsOf(parts)
        case Err(_) => 0.0
        case Ok(vs) => vs[2]
  }

  /** A `viewBox` written as four decimal integers separated by single spaces
      yields its third number as the width. */
  lemma SvgWidthOfViewBox(frag: Element, a: string, b: string, w: string, c: string)
    requires a != [] && b != [] && w != [] && c != []
    requires Numbers.AllDigits(a) && Numbers.AllDigits(b) && Numbers.AllDigits(w) && Numbers.AllDigits(c)
    requires frag.Get("viewBox", "") == a + " " + b + " " + w + " " + c
    ensures SvgWidth(frag) == Numbers.DigitsValue(w) as real
  {
    var vb := frag.Get("viewBox", "");
    var parts := [a, b, w, c];
    assert Split(vb) == parts by { Numbers.SplitFour(a, b, w, c); }
    var vs := [Numbers.DigitsValue(a) as real, Numbers.DigitsValue(b) as real,
               Numbers.DigitsValue(w) as real, Numbers.DigitsValue(c) as real];
    assert Numbers.FloatsOf(parts) == Ok(vs) by { Numbers.FloatsOfFour(a, b, w, c); }
    WidthOfFourParts(frag, parts, vs);
  }

  lemma WidthOfFourParts(frag: Element, parts: seq<string>, vs: seq<real>)
    requires frag.Get("viewBox", "") != [] && Split(frag.Get("viewBox", "")) == parts
    requires |parts| == 4 && Numbers.FloatsOf(parts) == Ok(vs)
    ensures SvgWidth(frag) == vs[2]
  {
  }

  /* ---------- set_slot_font_size ---------- */

  /** The declaration `font-size:{n}px;`. */
  function FontSizeDecl(n: nat): string {
    "font-size:" + Numbers.NatToString(n) + "px;"
  }

  /** `set_slot_font_size`: the slot's old style, stripped, then a `;` if it
      is non-empty and does not already end in one, then the font-size
      declaration. */
  function SetSlotFontSize(style: string, n: nat): (r: string)
    ensures EndsWith(r, FontSizeDecl(n))
    ensures StartsWith(r, Strip(style))
    ensures |r| == |Strip(style)| + |FontSizeDecl(n)|
                   + (if Strip(style) != [] && !EndsWith(Strip(style), ";") then 1 else 0)
  {
    var existing := Strip(style);
    var sep := if existing != [] && !EndsWith(existing, ";") then ";" else "";
    var r := existing + sep + FontSizeDecl(n);
    assert r[..|existing|] == existing;
    assert r[|r| - |FontSizeDecl(n)|..] == FontSizeDecl(n);
    r
  }

  /** What precedes the new declaration is either nothing or a declaration
      list closed by `;`, so the new declaration is never glued onto the
      previous one. */
  lemma SetSlotFontSizeSeparates(style: string, n: nat)
    ensures var r := SetSlotFontSize(style, n);
            var before := r[..|r| - |FontSizeDecl(n)|];
            before == [] || (before[|before| - 1] == ';' && StartsWith(before, Strip(style)))
  {
    var existing := Strip(style);
    var r := SetSlotFontSize(style, n);
    var before := r[..|r| - |FontSizeDecl(n)|];
    var sep := if existing != [] && !EndsWith(existing, ";") then ";" else "";
    assert r == existing + sep + FontSizeDecl(n);
    assert before == existing + sep;
    if existing != [] && sep == "" {
      assert existing[|existing| - 1..] == ";";
      assert before[|before| - 1] == existing[|existing| - 1];
    }
  }

  /* ---------- the layout fold ---------- */

  /** Where a token of width `w` is placed: at the cursor, or at the start of
      the next line when it would end past the right bound. */
  function Place(f: Frame, c: Cursor, w: real): (p: Cursor)
    ensures p.x + w <= f.Right() || (p.x == f.xStart && w > f.slotWidth)
    ensures p.y == c.y || p.y == c.y + LineHeightPx
  {
    if c.x + w > f.Right() then Cursor(f.xStart, c.y + LineHeightPx) else c
  }

  /** A placed item ends inside the slot, or is a single item too wide for
      any line and starts a line of its own. */
  predicate Fits(f: Frame, p: Placed) {
    p.x + p.width <= f.Right() || (p.x == f.xStart && p.width > f.slotWidth)
  }

  datatype StepResult = StepResult(cursor: Cursor, out: Option<Placed>)

  /** One token of the loop in `render_text_in_slot`. */
  function Step(f: Frame, measure: Measure, render: Renderer, c: Cursor, t: Token): (r: StepResult)
    ensures r.cursor.y == c.y || r.cursor.y == c.y + LineHeightPx
    ensures r.out.Some? ==> r.out.value.y == r.cursor.y && Fits(f, r.out.value)
    ensures t.kind == NewLine ==> r == StepResult(Cursor(f.xStart, c.y + LineHeightPx), None)
    ensures t.kind == Formula && render(t.text, LatexScale).None? ==> r == StepResult(c, None)
  {
    match t.kind
    case Word =>
      var w := measure(t.text);
      var p := Place(f, c, w);
      StepResult(Cursor(p.x + w, p.y), Some(TextRun(p.x, p.y, t.text, w)))
    case Formula =>
      (match render(t.text, LatexScale)
       case None => StepResult(c, None)
       case Some(frag) =>
         var w := SvgWidth(frag);
         var p := Place(f, c, w);
         StepResult(Cursor(p.x + w + FormulaGap, p.y), Some(FormulaGroup(p.x, p.y, frag.children, w))))
    case NewLine =>
      StepResult(Cursor(f.xStart, c.y + LineHeightPx), None)
  }

  /** The advance width the loop uses for a word or a rendered formula. */
  function TokenWidth(measure: Measure, render: Renderer, t: Token): real
    requires t.kind == Word || (t.kind == Formula && render(t.text, LatexScale).Some?)
  {
    if t.kind == Word then measure(t.text) else SvgWidth(render(t.text, LatexScale).value)
  }

  /** The wrap rule: a word or rendered formula that would end past the right
      bound goes to the start of the next line, one line height down;
      otherwise it goes at the cursor. The cursor then moves past it, and
      past the 5px gap after a formula. */
  lemma StepWrap(f: Frame, measure: Measure, render: Renderer, c: Cursor, t: Token)
    requires t.kind == Word || (t.kind == Formula && render(t.text, LatexScale).Some?)
    ensures var w := TokenWidth(measure, render, t);
            var r := Step(f, measure, render, c, t);
            && r.out.Some? && r.out.value.width == w
            && (c.x + w > f.Right() ==> r.out.value.x == f.xStart && r.out.value.y == c.y + LineHeightPx)
            && (c.x + w <= f.Right() ==> r.out.value.x == c.x && r.out.value.y == c.y)
            && r.cursor.y == r.out.value.y
            && r.cursor.x == r.out.value.x + w + (if t.kind == Formula then FormulaGap else 0.0)
            && (t.kind == Word ==> r.out.value == TextRun(r.out.value.x, r.out.value.y, t.text, w))
            && (t.kind == Formula ==>
                  && r.out.value.FormulaGroup?
                  && r.out.value.content == render(t.text, LatexScale).value.children
                  && r.out.value.Translation() == (r.out.value.x, r.out.value.y - FontSize * BaselineRatio))
  {
  }

  function Emitted(o: Option<Placed>): seq<Placed> {
    if o.Some? then [o.value] else []
  }

  datatype Pass = Pass(cursor: Cursor, placed: seq<Placed>)

  /** The whole loop over `tokens`, from cursor `c`. */
  function Layout(f: Frame, measure: Measure, render: Renderer, c: Cursor, tokens: seq<Token>): (r: Pass)
    decreases |tokens|
    ensures c.y <= r.cursor.y
    ensures forall k :: 0 <= k < |r.placed| ==> c.y <= r.placed[k].y <= r.cursor.y
    ensures forall k :: 0 <= k < |r.placed| ==> Fits(f, r.placed[k])
    ensures |r.placed| <= |tokens|
  {
    if tokens == [] then Pass(c, [])
    else
      var s := Step(f, measure, render, c, tokens[0]);
      var rest := Layout(f, measure, render, s.cursor, tokens[1..]);
      PrependStep(f, c, s, rest);
      Pass(rest.cursor, Emitted(s.out) + rest.placed)
  }

  /** The item one step emits goes in front of the rest of the pass without
      breaking its bounds. */
  lemma PrependStep(f: Frame, c: Cursor, s: StepResult, rest: Pass)
    requires c.y <= s.cursor.y
    requires s.out.Some? ==> s.out.value.y == s.cursor.y && Fits(f, s.out.value)
    requires s.cursor.y <= rest.cursor.y
    requires forall k :: 0 <= k < |rest.placed| ==> s.cursor.y <= rest.placed[k].y <= rest.cursor.y
    requires forall k :: 0 <= k < |rest.placed| ==> Fits(f, rest.placed[k])
    ensures var placed := Emitted(s.out) + rest.placed;
            forall k :: 0 <= k < |placed| ==> c.y <= placed[k].y <= rest.cursor.y && Fits(f, placed[k])
  {
    var placed := Emitted(s.out) + rest.placed;
    var e := |Emitted(s.out)|;
    forall k | 0 <= k < |placed| ensures c.y <= placed[k].y <= rest.cursor.y && Fits(f, placed[k]) {
      if k >= e {
        assert placed[k] == rest.placed[k - e];
      }
    }
  }

  /** No item is placed above an item placed before it. */
  predicate Rising(placed: seq<Placed>) {
    forall j, k :: 0 <= j < k < |placed| ==> placed[j].y <= placed[k].y
  }

  /** Every placed item is on the same line as, or a later line than, the
      items placed before it. */
  lemma {:induction false} LayoutRising(f: Frame, measure: Measure, render: Renderer, c: Cursor, tokens: seq<Token>)
    ensures Rising(Layout(f, measure, render, c, tokens).placed)
    decreases |tokens|
  {
    if tokens != [] {
      var s := Step(f, measure, render, c, tokens[0]);
      var rest := Layout(f, measure, render, s.cursor, tokens[1..]);
      LayoutRising(f, measure, render, s.cursor, tokens[1..]);
      var placed := Emitted(s.out) + rest.placed;
      assert Layout(f, measure, render, c, tokens).placed == placed;
      var e := |Emitted(s.out)|;
      assert Rising(rest.placed);
      forall j, k | 0 <= j < k < |placed| ensures placed[j].y <= placed[k].y {
        if j < e {
          assert s.out.Some? && e == 1;
          assert placed[j] == s.out.value && placed[k] == rest.placed[k - e];
          assert s.cursor.y <= rest.placed[k - e].y;
          assert placed[j].y == s.cursor.y;
        } else {
          assert placed[j] == rest.placed[j - e] && placed[k] == rest.placed[k - e];
          assert rest.placed[j - e].y <= rest.placed[k - e].y;
        }
      }
    }
  }

  /** The texts of the words of a token list, in order. */
  function WordTexts(tokens: seq<Token>): seq<string> {
    if tokens == [] then []
    else (if tokens[0].kind == Word then [tokens[0].text] else []) + WordTexts(tokens[1..])
  }

  /** The texts of the text runs among placed items, in order. */
  function RunTexts(placed: seq<Placed>): seq<string> {
    if placed == [] then []
    else (if placed[0].TextRun? then [placed[0].text] else []) + RunTexts(placed[1..])
  }

  /** The content of every formula the renderer typesets, in order. */
  function RenderedContents(render: Renderer, tokens: seq<Token>): seq<seq<Element>> {
    if tokens == [] then []
    else
      var t := tokens[0];
      (if t.kind == Formula && render(t.text, LatexScale).Some?
       then [render(t.text, LatexScale).value.children] else [])
      + RenderedContents(render, tokens[1..])
  }

  /** The contents of the formula groups among placed items, in order. */
  function GroupContents(placed: seq<Placed>): seq<seq<Element>> {
    if placed == [] then []
    else (if placed[0].FormulaGroup? then [placed[0].content] else []) + GroupContents(placed[1..])
  }

  /** Every word becomes exactly one text run with the word's text (trailing
      blanks included), in the order of the words. */
  lemma {:induction false} LayoutKeepsWords(f: Frame, measure: Measure, render: Renderer, c: Cursor, tokens: seq<Token>)
    ensures RunTexts(Layout(f, measure, render, c, tokens).placed) == WordTexts(tokens)
    decreases |tokens|
  {
    if tokens != [] {
      var s := Step(f, measure, render, c, tokens[0]);
      var rest := Layout(f, measure, render, s.cursor, tokens[1..]);
      LayoutKeepsWords(f, measure, render, s.cursor, tokens[1..]);
      RunTextsAppend(Emitted(s.out), rest.placed);
    }
  }

  /** Every formula the renderer typesets becomes exactly one group holding
      the rendered root's children; formulas it does not typeset leave no
      trace. */
  lemma {:induction false} LayoutKeepsFormulas(f: Frame, measure: Measure, render: Renderer, c: Cursor, tokens: seq<Token>)
    ensures GroupContents(Layout(f, measure, render, c, tokens).placed) == RenderedContents(render, tokens)
    decreases |tokens|
  {
    if tokens != [] {
      var s := Step(f, measure, render, c, tokens[0]);
      var rest := Layout(f, measure, render, s.cursor, tokens[1..]);
      LayoutKeepsFormulas(f, measure, render, s.cursor, tokens[1..]);
      GroupContentsAppend(Emitted(s.out), rest.placed);
    }
  }

  lemma {:induction false} RunTextsAppend(a: seq<Placed>, b: seq<Placed>)
    ensures RunTexts(a + b) == RunTexts(a) + RunTexts(b)
    decreases |a|
  {
    if a == [] {
      assert a + b == b;
    } else {
      assert (a + b)[1..] == a[1..] + b;
      RunTextsAppend(a[1..], b);
    }
  }

  lemma {:induction false} GroupContentsAppend(a: seq<Placed>, b: seq<Placed>)
    ensures GroupContents(a + b) == GroupContents(a) + GroupContents(b)
    decreases |a|
  {
    if a == [] {
      assert a + b == b;
    } else {
      assert (a + b)[1..] == a[1..] + b;
      GroupContentsAppend(a[1..], b);
    }
  }

  /** `n` lines' worth of vertical advance. */
  function LinesDown(n: nat): real {
    if n == 0 then 0.0 else LinesDown(n - 1) + LineHeightPx
  }

  lemma {:induction false} LinesDownIs(n: nat)
    ensures LinesDown(n) == LineHeightPx * n as real
  {
    if n > 0 {
      LinesDownIs(n - 1);
    }
  }

  /** Each newline token moves the cursor down one full line, and nothing
      moves it up: the text ends at least that many lines below its start. */
  lemma {:induction false} LayoutDescends(f: Frame, measure: Measure, render: Renderer, c: Cursor, tokens: seq<Token>)
    ensures Layout(f, measure, render, c, tokens).cursor.y >= c.y + LinesDown(CountKind(tokens, NewLine))
    decreases |tokens|
  {
    if tokens != [] {
      var s := Step(f, measure, render, c, tokens[0]);
      var m := CountKind(tokens[1..], NewLine);
      var y := Layout(f, measure, render, c, tokens).cursor.y;
      LayoutDescends(f, measure, render, s.cursor, tokens[1..]);
      assert y >= s.cursor.y + LinesDown(m) by { LayoutCursor(f, measure, render, c, tokens); }
      StepDescends(f, measure, render, c, tokens[0], m);
      assert CountKind(tokens, NewLine) == (if tokens[0].kind == NewLine then m + 1 else m);
    }
  }

  /** The cursor after a non-empty token list is the cursor after its tail,
      from where the first token left it. */
  lemma LayoutCursor(f: Frame, measure: Measure, render: Renderer, c: Cursor, tokens: seq<Token>)
    requires tokens != []
    ensures Layout(f, measure, render, c, tokens).cursor
         == Layout(f, measure, render, Step(f, measure, render, c, tokens[0]).cursor, tokens[1..]).cursor
  {
  }

  /** One step descends a line for a newline and never rises. */
  lemma StepDescends(f: Frame, measure: Measure, render: Renderer, c: Cursor, t: Token, m: nat)
    ensures var y := Step(f, measure, render, c, t).cursor.y;
            && (t.kind == NewLine ==> y + LinesDown(m) == c.y + LinesDown(m + 1))
            && y >= c.y
  {
  }

  /** The widths the layout will use are non-negative. */
  predicate WidthsNonNegative(measure: Measure, render: Renderer, tokens: seq<Token>) {
    forall k :: 0 <= k < |tokens| ==>
      (tokens[k].kind == Word ==> measure(tokens[k].text) >= 0.0)
      && (tokens[k].kind == Formula && render(tokens[k].text, LatexScale).Some?
          ==> SvgWidth(render(tokens[k].text, LatexScale).value) >= 0.0)
  }

  /** With non-negative widths nothing is placed left of the line start. */
  lemma {:induction false} LayoutLeftBound(f: Frame, measure: Measure, render: Renderer, c: Cursor, tokens: seq<Token>)
    requires c.x >= f.xStart
    requires WidthsNonNegative(measure, render, tokens)
    ensures var r := Layout(f, measure, render, c, tokens);
            r.cursor.x >= f.xStart && forall k :: 0 <= k < |r.placed| ==> r.placed[k].x >= f.xStart
    decreases |tokens|
  {
    if tokens != [] {
      var s := Step(f, measure, render, c, tokens[0]);
      assert s.cursor.x >= f.xStart && (s.out.Some? ==> s.out.value.x >= f.xStart) by {
        assert tokens[0] == tokens[0];
      }
      assert WidthsNonNegative(measure, render, tokens[1..]) by {
        forall k | 0 <= k < |tokens| - 1 ensures tokens[1..][k] == tokens[k + 1] { }
      }
      LayoutLeftBound(f, measure, render, s.cursor, tokens[1..]);
    }
  }

  /* ---------- render_text_in_slot ---------- */

  /** An attribute read as a number: `float(elem.get(name))`. A missing
      attribute is a `TypeError` (`float(None)`), a malformed one a
      `ValueError`. */
  function FloatAttr(e: Element, name: string): (r: Result<real>)
    ensures name !in e.attrs ==> r.Err? && r.error.TypeError?
    ensures name in e.attrs ==>
      match Numbers.ParseFloat(e.attrs[name])
      case Some(v) => r == Ok(v)
      case None => r.Err? && r.error.ValueError?
  {
    match e.Attr(name)
    case None => Err(TypeError("float() argument must be a string or a real number, not 'NoneType'"))
    case Some(v) =>
      match Numbers.ParseFloat(v)
      case Some(x) => Ok(x)
      case None => Err(ValueError("could not convert string to float"))
  }

  /** The frame and starting cursor of a slot, from its `width`, `x` and `y`,
      read in that order; the first one missing or malformed is the error. */
  function SlotFrame(slot: Element): (r: Result<(Frame, Cursor)>)
    ensures r.Ok? <==> FloatAttr(slot, "width").Ok? && FloatAttr(slot, "x").Ok? && FloatAttr(slot, "y").Ok?
    ensures r.Ok? ==>
      var x := FloatAttr(slot, "x").value;
      r.value.0 == Frame(x + InsetX, FloatAttr(slot, "width").value)
      && r.value.1 == Cursor(x + InsetX, FloatAttr(slot, "y").value + InsetY)
    ensures FloatAttr(slot, "width").Err? ==> r == Err(FloatAttr(slot, "width").error)
  {
    match FloatAttr(slot, "width")
    case Err(e) => Err(e)
    case Ok(width) =>
      match FloatAttr(slot, "x")
      case Err(e) => Err(e)
      case Ok(x) =>
        match FloatAttr(slot, "y")
        case Err(e) => Err(e)
        case Ok(y) => Ok((Frame(x + InsetX, width), Cursor(x + InsetX, y + InsetY)))
  }

  /** What rendering a text into a slot produces: the document with the slot's
      style updated, and the items to append to the document root, in order
      (a `text` element per text run, a `g` element per formula group). */
  datatype Rendered = Rendered(root: Element, appended: seq<Placed>)

  /** The slot with its font size set. */
  function Styled(slot: Element): (r: Element)
    ensures r.tag == slot.tag && r.children == slot.children && r.transform == slot.transform
    ensures r.attrs.Keys == slot.attrs.Keys + {"style"}
    ensures forall name :: name in slot.attrs && name != "style" ==> r.attrs[name] == slot.attrs[name]
    ensures EndsWith(r.attrs["style"], FontSizeDecl(FontSizePx))
  {
    slot.(attrs := slot.attrs["style" := SetSlotFontSize(slot.Get("style", ""), FontSizePx)])
  }

  /** `render_text_in_slot`: find the element whose `id` is `slotId` anywhere in
      the document, set its font size, read its `width`, `x` and `y`, and lay
      out the tokens of `text` from `(x + 10, y + 40)` inside `width`. The
      numbers are read from the slot before restyling, which gives the same
      values since only `style` changes. */
  function RenderTextInSlot(root: Element, slotId: string, text: string, measure: Measure, render: Renderer)
    : (r: Result<Rendered>)
    ensures FindFirst(root, HasAttr("id", slotId)).None? ==> r.Err? && r.error.IndexError?
    ensures FindFirst(root, HasAttr("id", slotId)).Some? ==>
      var path := FindFirst(root, HasAttr("id", slotId)).value;
      var slot := At(root, path);
      match SlotFrame(slot)
      case Err(e) => r == Err(e)
      case Ok(fc) =>
        && r.Ok?
        && r.value.root == ReplaceAt(root, path, Styled(slot))
        && r.value.appended == Layout(fc.0, measure, render, fc.1, Tokenize(text)).placed
  {
    match FindFirst(root, HasAttr("id", slotId))
    case None => Err(IndexError("list index out of range"))
    case Some(path) =>
      var slot := At(root, path);
      match SlotFrame(slot)
      case Err(e) => Err(e)
      case Ok(fc) =>
        Ok(Rendered(ReplaceAt(root, path, Styled(slot)), Layout(fc.0, measure, render, fc.1, Tokenize(text)).placed))
  }
}
