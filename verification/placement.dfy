/** The arithmetic that puts a typeset formula into a slot of the card
    template: a uniform scale that fits the formula into the slot less a 6%
    margin on every side, a horizontal alignment, and vertical centring. The
    result is the group's `translate(tx, ty) scale(s)`; the formula's own
    origin is shifted away so its drawing starts at `(tx, ty)`. */
module Placement {
  import opened SvgTree
  import opened Lengths

  /** The margin, as a share of the slot's width (or height), kept free on
      each side. */
  const Margin: real := 0.06
  /** The share of the slot the formula may fill: `1 - 2 * Margin`. */
  const Inner: real := 1.0 - 2.0 * Margin

  function Min(a: real, b: real): (r: real)
    ensures r <= a && r <= b && (r == a || r == b)
  {
    if a <= b then a else b
  }

  /** The scale that makes a formula of size `fw` x `fh` fit a slot of size
      `w` x `h` less the margins, or 1 when that is not positive. */
  function FitScale(w: real, h: real, fw: real, fh: real): (s: real)
    requires fw != 0.0 && fh != 0.0
    ensures s > 0.0
    ensures w > 0.0 && h > 0.0 && fw > 0.0 && fh > 0.0 ==>
      && fw * s <= w * Inner && fh * s <= h * Inner
      && (fw * s == w * Inner || fh * s == h * Inner)
  {
    var s := Min(w * Inner / fw, h * Inner / fh);
    if s <= 0.0 then 1.0
    else
      assert w > 0.0 && h > 0.0 && fw > 0.0 && fh > 0.0 ==>
        fw * s <= w * Inner && fh * s <= h * Inner && (fw * s == w * Inner || fh * s == h * Inner) by {
        if w > 0.0 && h > 0.0 && fw > 0.0 && fh > 0.0 {
          ScaledBelow(w * Inner, fw, s);
          ScaledBelow(h * Inner, fh, s);
        }
      }
      s
  }

  /** `d * s <= n` when `s <= n / d` and `d > 0`, with equality exactly when
      `s == n / d`. */
  lemma ScaledBelow(n: real, d: real, s: real)
    requires d > 0.0 && s <= n / d
    ensures d * s <= n
    ensures s == n / d ==> d * s == n
  {
    assert d * (n / d) == n;
  }

  /** No larger scale fits: when everything is positive, any scale above
      `FitScale` overflows the inner box in width or in height. */
  lemma FitScaleLargest(w: real, h: real, fw: real, fh: real, t: real)
    requires w > 0.0 && h > 0.0 && fw > 0.0 && fh > 0.0
    requires t > FitScale(w, h, fw, fh)
    ensures fw * t > w * Inner || fh * t > h * Inner
  {
    var s := FitScale(w, h, fw, fh);
    if fw * s == w * Inner {
      assert fw * t > fw * s;
    } else {
      assert fh * t > fh * s;
    }
  }

  /** The alignment of a slot: the one configured for it, else `center`. */
  function AlignOf(alignMap: map<string, string>, slotId: string): (a: string)
    ensures slotId in alignMap ==> a == alignMap[slotId]
    ensures slotId !in alignMap ==> a == "center"
  {
    if slotId in alignMap then alignMap[slotId] else "center"
  }

  /** The horizontal translation for an alignment: `left` and `right` keep a
      margin to the slot's side; every other value centres. */
  function HorizontalOffset(align: string, slot: Box, formula: Box, s: real): real {
    var left := slot.x - formula.x * s + slot.w * Margin;
    var center := slot.x + (slot.w - formula.w * s) / 2.0 - formula.x * s;
    var right := slot.x + (slot.w - formula.w * s) - formula.x * s - slot.w * Margin;
    if align == "left" then left
    else if align == "right" then right
    else center
  }

  /** The vertical translation: always centred. */
  function VerticalOffset(slot: Box, formula: Box, s: real): real {
    slot.y + (slot.h - formula.h * s) / 2.0 - formula.y * s
  }

  /** The transform of the group that carries the formula into the slot. */
  function Fit(slot: Box, formula: Box, align: string): (a: Affine)
    requires formula.w != 0.0 && formula.h != 0.0
    ensures a.scale == FitScale(slot.w, slot.h, formula.w, formula.h)
  {
    var s := FitScale(slot.w, slot.h, formula.w, formula.h);
    Affine(HorizontalOffset(align, slot, formula, s), VerticalOffset(slot, formula, s), s)
  }

  /** Where the drawing lands: the formula's own box mapped through the
      transform. */
  function DrawnLeft(a: Affine, formula: Box): real { a.tx + formula.x * a.scale }
  function DrawnRight(a: Affine, formula: Box): real { DrawnLeft(a, formula) + formula.w * a.scale }
  function DrawnTop(a: Affine, formula: Box): real { a.ty + formula.y * a.scale }
  function DrawnBottom(a: Affine, formula: Box): real { DrawnTop(a, formula) + formula.h * a.scale }

  /** Left alignment puts the drawing's left edge one margin inside the slot. */
  lemma AlignLeft(slot: Box, formula: Box)
    requires formula.w != 0.0 && formula.h != 0.0
    ensures DrawnLeft(Fit(slot, formula, "left"), formula) == slot.x + slot.w * Margin
  {
  }

  /** Right alignment puts the drawing's right edge one margin inside the slot. */
  lemma AlignRight(slot: Box, formula: Box)
    requires formula.w != 0.0 && formula.h != 0.0
    ensures DrawnRight(Fit(slot, formula, "right"), formula) == slot.x + slot.w - slot.w * Margin
  {
  }

  /** Any other alignment, a missing one included, leaves equal gaps left and
      right. */
  lemma AlignCenter(slot: Box, formula: Box, align: string)
    requires formula.w != 0.0 && formula.h != 0.0
    requires align != "left" && align != "right"
    ensures var a := Fit(slot, formula, align);
            DrawnLeft(a, formula) - slot.x == slot.x + slot.w - DrawnRight(a, formula)
  {
  }

  /** Whatever the alignment, the gaps above and below are equal. */
  lemma CentredVertically(slot: Box, formula: Box, align: string)
    requires formula.w != 0.0 && formula.h != 0.0
    ensures var a := Fit(slot, formula, align);
            DrawnTop(a, formula) - slot.y == slot.y + slot.h - DrawnBottom(a, formula)
  {
  }

  /** For a slot and formula of positive size, the drawing lies inside the
      slot less its margins, whatever the alignment. */
  lemma FitsInside(slot: Box, formula: Box, align: string)
    requires slot.w > 0.0 && slot.h > 0.0 && formula.w > 0.0 && formula.h > 0.0
    ensures var a := Fit(slot, formula, align);
            && slot.x + slot.w * Margin <= DrawnLeft(a, formula)
            && DrawnRight(a, formula) <= slot.x + slot.w - slot.w * Margin
            && slot.y + slot.h * Margin <= DrawnTop(a, formula)
            && DrawnBottom(a, formula) <= slot.y + slot.h - slot.h * Margin
  {
    var s := FitScale(slot.w, slot.h, formula.w, formula.h);
    assert formula.w * s <= slot.w * Inner && formula.h * s <= slot.h * Inner;
  }
}
