/** The geometry readers of the formula builder: an SVG length with its unit
    converted to pixels, the origin and size of a formula's SVG, and the box
    of a slot's rectangle. */
module Lengths {
  import opened Wrappers
  import opened Text
  import opened Numbers
  import opened SvgTree

  /* ---------- _parse_length ---------- */

  /** Pixels per unit, for the units the builder understands (matched after
      lower-casing); `None` for any other unit. CSS fixes 96 px to the inch. */
  function UnitFactor(unit: string): (r: Option<real>)
    ensures r.Some? ==> r.value > 0.0
    ensures r.Some? <==> unit in {"", "px", "pt", "in", "cm", "mm"}
  {
    if unit == "" || unit == "px" then Some(1.0)
    else if unit == "pt" then Some(96.0 / 72.0)
    else if unit == "in" then Some(96.0)
    else if unit == "cm" then Some(96.0 / 2.54)
    else if unit == "mm" then Some(96.0 / 25.4)
    else None
  }

  /** End of the maximal run of ASCII letters starting at `i`. */
  function LetterRunEnd(s: string, i: nat): (r: nat)
    requires i <= |s|
    decreases |s| - i
    ensures i <= r <= |s|
    ensures forall k :: i <= k < r ==> IsAsciiLetter(s[k])
    ensures r < |s| ==> !IsAsciiLetter(s[r])
  {
    if i == |s| || !IsAsciiLetter(s[i]) then i else LetterRunEnd(s, i + 1)
  }

  /** The language of the pattern "digits, an optional point, digits" with
      at least one digit after the point: `12`, `1.5`, `.5`, but not `1.`. */
  predicate Numeral(t: string) {
    || (t != [] && AllDigits(t))
    || exists p :: 0 <= p < |t| - 1 && t[p] == '.' && AllDigits(t[..p]) && AllDigits(t[p + 1..])
  }

  /** Where the numeral at the start of `s` ends, when there is one: the
      longest numeral prefix. It is the only one the pattern can use: a
      shorter choice would leave a digit or a point for the rest of the
      pattern, which accepts neither. */
  function LeadingNumber(s: string): (r: Option<nat>)
    ensures r.Some? ==> 0 < r.value <= |s| && Numeral(s[..r.value])
    ensures r.Some? ==> forall m :: r.value < m <= |s| ==> !Numeral(s[..m])
    ensures r.None? ==> forall m :: 0 < m <= |s| ==> !Numeral(s[..m])
    ensures r.Some? && r.value < |s| ==> !IsDigit(s[r.value])
  {
    var i1 := DigitRunEnd(s, 0);
    NumeralPrefixes(s);
    if i1 < |s| && s[i1] == '.' && DigitRunEnd(s, i1 + 1) > i1 + 1 then
      var i2 := DigitRunEnd(s, i1 + 1);
      assert s[..i2][..i1] == s[..i1] && s[..i2][i1 + 1..] == s[i1 + 1..i2];
      assert s[..i2][i1] == '.';
      Some(i2)
    else if i1 == 0 then None
    else
      assert s[..i1] == s[0..i1];
      Some(i1)
  }

  /** Every numeral prefix of `s` ends within the leading digits, or within
      the digits after a point that follows them. */
  lemma NumeralPrefixes(s: string)
    ensures forall m :: 0 < m <= |s| && Numeral(s[..m]) ==>
      var i1 := DigitRunEnd(s, 0);
      || m <= i1
      || (i1 < |s| && s[i1] == '.' && i1 + 1 < m <= DigitRunEnd(s, i1 + 1))
  {
    forall m | 0 < m <= |s| && Numeral(s[..m])
      ensures var i1 := DigitRunEnd(s, 0);
        || m <= i1
        || (i1 < |s| && s[i1] == '.' && i1 + 1 < m <= DigitRunEnd(s, i1 + 1))
    {
      NumeralBound(s, m);
    }
  }

  lemma NumeralBound(s: string, m: nat)
    requires 0 < m <= |s| && Numeral(s[..m])
    ensures var i1 := DigitRunEnd(s, 0);
      || m <= i1
      || (i1 < |s| && s[i1] == '.' && i1 + 1 < m <= DigitRunEnd(s, i1 + 1))
  {
    var t := s[..m];
    if t != [] && AllDigits(t) {
      forall k | 0 <= k < m ensures IsDigit(s[k]) { assert s[k] == t[k]; }
    } else {
      var p :| 0 <= p < |t| - 1 && t[p] == '.' && AllDigits(t[..p]) && AllDigits(t[p + 1..]);
      forall k | 0 <= k < p ensures IsDigit(s[k]) { assert s[k] == t[..p][k]; }
      assert s[p] == t[p];
      RunOfDigits(s, 0, p);
      forall k | p + 1 <= k < m ensures IsDigit(s[k]) { assert s[k] == t[p + 1..][k - p - 1]; }
    }
  }

  /** A numeral holds only digits and a point. */
  lemma NumeralChars(t: string)
    requires Numeral(t)
    ensures forall k :: 0 <= k < |t| ==> IsDigit(t[k]) || t[k] == '.'
  {
    if !(t != [] && AllDigits(t)) {
      var p :| 0 <= p < |t| - 1 && t[p] == '.' && AllDigits(t[..p]) && AllDigits(t[p + 1..]);
      forall k | 0 <= k < |t| ensures IsDigit(t[k]) || t[k] == '.' {
        if k < p { assert t[k] == t[..p][k]; }
        else if k > p { assert t[k] == t[p + 1..][k - p - 1]; }
      }
    }
  }

  /** A numeral prefix of `s` stops before any character that is neither a
      digit nor a point. */
  lemma NumeralBefore(s: string, m: nat, j: nat)
    requires m <= |s| && Numeral(s[..m])
    requires j < |s| && !IsDigit(s[j]) && s[j] != '.'
    ensures m <= j
  {
    NumeralChars(s[..m]);
    forall k | 0 <= k < m ensures IsDigit(s[k]) || s[k] == '.' { assert s[k] == s[..m][k]; }
  }

  /** A numeral ends with a digit. */
  lemma NumeralEnd(t: string)
    requires Numeral(t)
    ensures t != [] && IsDigit(t[|t| - 1])
  {
    if !(t != [] && AllDigits(t)) {
      var p :| 0 <= p < |t| - 1 && t[p] == '.' && AllDigits(t[..p]) && AllDigits(t[p + 1..]);
      assert t[|t| - 1] == t[p + 1..][|t| - p - 2];
    }
  }

  /** `float()` accepts every numeral, with a non-negative value. */
  lemma NumeralValue(t: string)
    requires Numeral(t)
    ensures ParseFloat(t).Some? && ParseFloat(t).value >= 0.0
  {
    if t != [] && AllDigits(t) {
      ParseFloatInteger(t);
    } else {
      var p :| 0 <= p < |t| - 1 && t[p] == '.' && AllDigits(t[..p]) && AllDigits(t[p + 1..]);
      assert t == t[..p] + "." + t[p + 1..];
      ParseFloatDecimal(t[..p], t[p + 1..]);
    }
  }

  /** A numeral starts with a digit or with its point. */
  lemma NumeralStart(t: string)
    requires Numeral(t)
    ensures t != [] && (IsDigit(t[0]) || t[0] == '.')
  {
    if t != [] && AllDigits(t) {
      assert IsDigit(t[0]);
    } else {
      var p :| 0 <= p < |t| - 1 && t[p] == '.' && AllDigits(t[..p]) && AllDigits(t[p + 1..]);
      if p > 0 { assert t[..p][0] == t[0]; }
    }
  }

  /** `s` splits as the groups of the length pattern do: a numeral
      `s[..n]`, optional whitespace, a unit of ASCII letters `s[a..b]`,
      optional whitespace to the end. */
  predicate LengthShape(s: string, n: nat, a: nat, b: nat) {
    && 0 < n <= a <= b <= |s|
    && Numeral(s[..n])
    && AllSpace(s[n..a])
    && (forall k :: a <= k < b ==> IsAsciiLetter(s[k]))
    && AllSpace(s[b..])
  }

  /** The number and unit of a stripped length: a numeral, optional
      whitespace, a run of ASCII letters, optional whitespace, nothing more.
      Gives the numeral's `float()` value and the unit as written. */
  function LengthParts(s: string): (r: Option<(real, string)>)
    ensures r.Some? ==> r.value.0 >= 0.0
    ensures r.Some? ==> forall k :: 0 <= k < |r.value.1| ==> IsAsciiLetter(r.value.1[k])
    ensures r.Some? ==> s != [] && (IsDigit(s[0]) || s[0] == '.')
    ensures r.Some? ==> exists n: nat, a: nat, b: nat :: LengthShape(s, n, a, b) && ParseFloat(s[..n]) == Some(r.value.0) && r.value.1 == s[a..b]
  {
    match LeadingNumber(s)
    case None => None
    case Some(n) =>
      var a := SkipSpace(s, n);
      var b := LetterRunEnd(s, a);
      if SkipSpace(s, b) != |s| then None
      else
        NumeralValue(s[..n]);
        NumeralStart(s[..n]);
        assert s[..n][0] == s[0];
        RunsShape(s, n);
        Some((ParseFloat(s[..n]).value, s[a..b]))
  }

  /** A numeral prefix whose whitespace and letter runs reach the end gives
      the length pattern's shape. */
  lemma RunsShape(s: string, n: nat)
    requires 0 < n <= |s| && Numeral(s[..n])
    requires SkipSpace(s, LetterRunEnd(s, SkipSpace(s, n))) == |s|
    ensures LengthShape(s, n, SkipSpace(s, n), LetterRunEnd(s, SkipSpace(s, n)))
  {
    var a := SkipSpace(s, n);
    var b := LetterRunEnd(s, a);
    assert AllSpace(s[n..a]) by {
      forall k | 0 <= k < a - n ensures IsSpace(s[n..a][k]) { assert s[n..a][k] == s[n + k]; }
    }
    assert AllSpace(s[b..]) by {
      forall k | 0 <= k < |s| - b ensures IsSpace(s[b..][k]) { assert s[b..][k] == s[b + k]; }
    }
  }

  /** Every string of the length pattern's shape has its parts read: the
      numeral's value and the unit as written. */
  lemma LengthPartsShape(s: string, n: nat, a: nat, b: nat)
    requires LengthShape(s, n, a, b)
    ensures LengthParts(s).Some?
    ensures ParseFloat(s[..n]) == Some(LengthParts(s).value.0) && LengthParts(s).value.1 == s[a..b]
  {
    LeadingIsNumeral(s, n, a, b);
    NumeralValue(s[..n]);
    ShapeRuns(s, n, a, b);
    var a' := SkipSpace(s, n);
    assert LengthParts(s) == Some((ParseFloat(s[..n]).value, s[a'..LetterRunEnd(s, a')]));
  }

  /** In a string of the length pattern's shape, the whitespace and letter
      runs after the numeral find the unit and reach the end. */
  lemma ShapeRuns(s: string, n: nat, a: nat, b: nat)
    requires LengthShape(s, n, a, b)
    ensures var a' := SkipSpace(s, n);
            var b' := LetterRunEnd(s, a');
            SkipSpace(s, b') == |s| && s[a'..b'] == s[a..b]
  {
    forall k | n <= k < a ensures IsSpace(s[k]) { assert s[k] == s[n..a][k - n]; }
    forall k | b <= k < |s| ensures IsSpace(s[k]) { assert s[k] == s[b..][k - b]; }
    if a < b {
      RunsWithUnit(s, n, a, b);
    } else {
      RunsWithoutUnit(s, n);
    }
  }

  lemma RunsWithUnit(s: string, n: nat, a: nat, b: nat)
    requires n <= a < b <= |s|
    requires forall k :: n <= k < a ==> IsSpace(s[k])
    requires forall k :: a <= k < b ==> IsAsciiLetter(s[k])
    requires forall k :: b <= k < |s| ==> IsSpace(s[k])
    ensures SkipSpace(s, n) == a && LetterRunEnd(s, a) == b && SkipSpace(s, b) == |s|
  {
    SkipSpaceFrom(s, b, |s|);
    SkipSpaceFrom(s, n, a);
    LetterRunFrom(s, a, b);
  }

  lemma RunsWithoutUnit(s: string, n: nat)
    requires n <= |s|
    requires forall k :: n <= k < |s| ==> IsSpace(s[k])
    ensures SkipSpace(s, n) == |s| && LetterRunEnd(s, |s|) == |s|
  {
    SkipSpaceFrom(s, n, |s|);
  }

  /** In a string of the length pattern's shape, the leading numeral is the
      pattern's numeral group. */
  lemma LeadingIsNumeral(s: string, n: nat, a: nat, b: nat)
    requires LengthShape(s, n, a, b)
    ensures LeadingNumber(s) == Some(n)
  {
    var r := LeadingNumber(s);
    assert r.Some? && n <= r.value;
    if n < |s| {
      assert IsSpace(s[n]) || IsAsciiLetter(s[n]) by {
        if n < a { assert s[n] == s[n..a][0]; }
        else if n == b { assert s[n] == s[b..][0]; }
      }
      NumeralBefore(s, r.value, n);
    }
  }

  /** `_parse_length`: an SVG length attribute in pixels. `None` for a missing
      or blank attribute, a percentage, anything that is not an unsigned
      decimal followed by a unit of ASCII letters, and any unit other than
      `px`, `pt`, `in`, `cm` and `mm` (in any letter case) or none. */
  function ParseLength(val: Option<string>): (r: Option<real>)
    ensures val.None? ==> r.None?
    ensures val.Some? && AllSpace(val.value) ==> r.None?
    ensures val.Some? && EndsWith(Strip(val.value), "%") ==> r.None?
    ensures r.Some? ==> r.value >= 0.0
    ensures r.Some? ==> IsDigit(Strip(val.value)[0]) || Strip(val.value)[0] == '.'
    ensures r.Some? ==> var s := Strip(val.value);
      exists n: nat, a: nat, b: nat :: LengthShape(s, n, a, b) && ParseFloat(s[..n]).Some?
                        && r == ScaleBy(ParseFloat(s[..n]).value, LowerAscii(s[a..b]))
  {
    match val
    case None => None
    case Some(v) =>
      var s := Strip(v);
      if s == [] then None
      else if EndsWith(s, "%") then None
      else
        match LengthParts(s)
        case None => None
        case Some((n, unit)) => ScaleBy(n, LowerAscii(unit))
  }

  /** Any length of the pattern's shape — optional whitespace, a numeral,
      optional whitespace, a unit of ASCII letters, optional whitespace —
      reads as the numeral's value in that unit, whatever the unit's letter
      case; a unit outside the table gives `None`. */
  lemma ParseLengthOf(lead: string, num: string, mid: string, unit: string, trail: string)
    requires AllSpace(lead) && AllSpace(mid) && AllSpace(trail)
    requires Numeral(num)
    requires forall k :: 0 <= k < |unit| ==> IsAsciiLetter(unit[k])
    ensures ParseFloat(num).Some?
    ensures ParseLength(Some(lead + num + mid + unit + trail)) == ScaleBy(ParseFloat(num).value, LowerAscii(unit))
  {
    NumeralValue(num);
    var x := lead + num + mid + unit + trail;
    if unit == [] {
      assert x == lead + num + (mid + trail);
      BareLength(x, lead, num, mid + trail);
    } else {
      assert x == lead + (num + mid + unit) + trail;
      UnitLength(x, lead, num, mid, unit, trail);
    }
  }

  lemma BareLength(x: string, lead: string, num: string, tail: string)
    requires x == lead + num + tail && AllSpace(lead) && AllSpace(tail)
    requires Numeral(num)
    ensures ParseFloat(num).Some?
    ensures ParseLength(Some(x)) == ScaleBy(ParseFloat(num).value, "")
  {
    NumeralStart(num);
    NumeralEnd(num);
    var n := |num|;
    assert num[..n] == num && num[n..n] == "";
    assert LengthShape(num, n, n, n);
    ShapedLength(x, lead, num, tail, n, n, n, num, "");
  }

  lemma UnitLength(x: string, lead: string, num: string, mid: string, unit: string, trail: string)
    requires x == lead + (num + mid + unit) + trail && AllSpace(lead) && AllSpace(mid) && AllSpace(trail)
    requires Numeral(num) && unit != []
    requires forall k :: 0 <= k < |unit| ==> IsAsciiLetter(unit[k])
    ensures ParseFloat(num).Some?
    ensures ParseLength(Some(x)) == ScaleBy(ParseFloat(num).value, LowerAscii(unit))
  {
    var core := num + mid + unit;
    var n, a := |num|, |num| + |mid|;
    UnitShape(num, mid, unit);
    ShapedLength(x, lead, core, trail, n, a, |core|, num, unit);
  }

  /** A numeral, whitespace and a non-empty unit make a trimmed string of the
      length pattern's shape. */
  lemma UnitShape(num: string, mid: string, unit: string)
    requires AllSpace(mid) && Numeral(num) && unit != []
    requires forall k :: 0 <= k < |unit| ==> IsAsciiLetter(unit[k])
    ensures var core := num + mid + unit;
            && LengthShape(core, |num|, |num| + |mid|, |core|) && Trimmed(core)
            && core[..|num|] == num && core[|num| + |mid|..|core|] == unit
  {
    NumeralStart(num);
    NumeralEnd(num);
    var n := |num|;
    var core := num + mid + unit;
    assert core[0] == num[0] && core[|core| - 1] == unit[|unit| - 1];
    assert core[..n] == num && core[n..n + |mid|] == mid && core[n + |mid|..|core|] == unit;
    forall k | n + |mid| <= k < |core| ensures IsAsciiLetter(core[k]) {
      assert core[k] == unit[k - n - |mid|];
    }
    assert core[|core|..] == [];
  }

  /** A trimmed length of the pattern's shape, between whitespace, reads as
      its numeral's value in its unit. */
  lemma ShapedLength(x: string, lead: string, core: string, tail: string, n: nat, a: nat, b: nat,
                      num: string, unit: string)
    requires x == lead + core + tail && AllSpace(lead) && AllSpace(tail)
    requires LengthShape(core, n, a, b) && Trimmed(core)
    requires core[..n] == num && core[a..b] == unit
    ensures ParseFloat(num).Some?
    ensures ParseLength(Some(x)) == ScaleBy(ParseFloat(num).value, LowerAscii(unit))
  {
    StripAround(lead, core, tail);
    assert !EndsWith(core, "%") by {
      assert core[|core| - 1] != '%' by { NumeralEnd(core[..n]); LastOfShape(core, n, a, b); }
    }
    LengthPartsShape(core, n, a, b);
  }

  /** A string of the length pattern's shape ends in a digit, a letter or
      whitespace. */
  lemma LastOfShape(s: string, n: nat, a: nat, b: nat)
    requires LengthShape(s, n, a, b)
    requires s[..n] != [] && IsDigit(s[..n][n - 1])
    ensures IsDigit(s[|s| - 1]) || IsAsciiLetter(s[|s| - 1]) || IsSpace(s[|s| - 1])
  {
    var j := |s| - 1;
    if j < n { assert s[j] == s[..n][j]; }
    else if j < a { assert s[j] == s[n..a][j - n]; }
    else if j >= b { assert s[j] == s[b..][j - b]; }
  }

  /** A number followed directly by a unit reads back as the number times the
      unit's factor, whatever the letter case of the unit; a unit outside the
      table gives `None`. */
  lemma ParseLengthUnit(digits: string, unit: string)
    requires digits != [] && AllDigits(digits)
    requires forall k :: 0 <= k < |unit| ==> IsAsciiLetter(unit[k])
    ensures ParseLength(Some(digits + unit)) == ScaleBy(DigitsValue(digits) as real, LowerAscii(unit))
  {
    assert Numeral(digits);
    ParseFloatInteger(digits);
    if unit == [] {
      ConcatEmpty(digits, unit);
      BareLength(digits + unit, "", digits, "");
    } else {
      ConcatEmpty(digits, unit);
      UnitLength(digits + unit, "", digits, "", unit, "");
    }
  }

  lemma ConcatEmpty(a: string, b: string)
    ensures a + b == "" + (a + "" + b) + ""
    ensures b == [] ==> a + b == "" + a + ""
  {
  }

  /** `n` in the given lower-case unit, in pixels. */
  function ScaleBy(n: real, unit: string): Option<real> {
    match UnitFactor(unit)
    case None => None
    case Some(k) => Some(n * k)
  }

  lemma LengthPartsOf(digits: string, unit: string)
    requires digits != [] && AllDigits(digits)
    requires forall k :: 0 <= k < |unit| ==> IsAsciiLetter(unit[k])
    ensures LengthParts(digits + unit) == Some((DigitsValue(digits) as real, unit))
  {
    var s := digits + unit;
    var n := |digits|;
    LeadingDigits(digits, unit);
    assert SkipSpace(s, n) == n by {
      assert n < |s| ==> s[n] == unit[0];
    }
    assert LetterRunEnd(s, n) == |s| by {
      LetterRunFrom(s, n, |s|);
    }
    assert s[n..|s|] == unit;
    assert ParseFloat(s[..n]) == Some(DigitsValue(digits) as real) by {
      assert s[..n] == digits;
      ParseFloatInteger(digits);
    }
  }

  lemma LeadingDigits(digits: string, unit: string)
    requires digits != [] && AllDigits(digits)
    requires forall k :: 0 <= k < |unit| ==> IsAsciiLetter(unit[k])
    ensures LeadingNumber(digits + unit) == Some(|digits|)
  {
    var s := digits + unit;
    var n := |digits|;
    RunOfDigits(s, 0, n);
    assert n < |s| ==> s[n] == unit[0];
  }

  lemma {:induction false} LetterRunFrom(s: string, i: nat, j: nat)
    requires i <= j <= |s|
    requires forall k :: i <= k < j ==> IsAsciiLetter(s[k])
    requires j < |s| ==> !IsAsciiLetter(s[j])
    ensures LetterRunEnd(s, i) == j
    decreases j - i
  {
    if i < j {
      LetterRunFrom(s, i + 1, j);
    }
  }

  /** The pixels per unit of each unit the builder accepts: `px` and no unit
      are pixels, and the physical units use 96 px to the inch (72 pt,
      2.54 cm, 25.4 mm). */
  const UnitTable: seq<(string, real)> :=
    [("", 1.0), ("px", 1.0), ("pt", 96.0 / 72.0), ("in", 96.0), ("cm", 96.0 / 2.54), ("mm", 96.0 / 25.4)]

  /** A number in one of the table's units reads back as the number scaled
      by that unit, whose factor is the table's; `TableScale` states the
      scaling itself. */
  lemma {:induction false} ParseLengthTable(digits: string, i: nat)
    requires digits != [] && AllDigits(digits)
    requires i < |UnitTable|
    ensures ParseLength(Some(digits + UnitTable[i].0)) == ScaleBy(DigitsValue(digits) as real, UnitTable[i].0)
    ensures UnitFactor(UnitTable[i].0) == Some(UnitTable[i].1)
  {
    TableEntry(i);
    ParseLengthUnit(digits, UnitTable[i].0);
  }

  /** A value in one of the table's units is that many times its factor in
      pixels. */
  lemma TableScale(v: real, i: nat)
    requires i < |UnitTable|
    ensures ScaleBy(v, UnitTable[i].0) == Some(v * UnitTable[i].1)
  {
    var (unit, factor) := UnitTable[i];
    assert UnitFactor(unit) == Some(factor) by { TableEntry(i); }
    ScaleByFactor(v, unit, factor);
  }

  lemma ScaleByFactor(v: real, unit: string, factor: real)
    requires UnitFactor(unit) == Some(factor)
    ensures ScaleBy(v, unit) == Some(v * factor)
  {
  }

  lemma TableEntry(i: nat)
    requires i < |UnitTable|
    ensures UnitFactor(UnitTable[i].0) == Some(UnitTable[i].1)
    ensures forall k :: 0 <= k < |UnitTable[i].0| ==> IsAsciiLetter(UnitTable[i].0[k])
    ensures LowerAscii(UnitTable[i].0) == UnitTable[i].0
  {
  }

  /** Units are matched without regard to letter case. */
  lemma {:induction false} ParseLengthCase(digits: string, unit: string)
    requires digits != [] && AllDigits(digits)
    requires forall k :: 0 <= k < |unit| ==> IsAsciiLetter(unit[k])
    ensures ParseLength(Some(digits + unit)) == ParseLength(Some(digits + LowerAscii(unit)))
  {
    var lower := LowerAscii(unit);
    assert LowerAscii(lower) == lower;
    ParseLengthUnit(digits, unit);
    ParseLengthUnit(digits, lower);
  }

  /** An unknown unit is refused. */
  lemma {:induction false} ParseLengthUnknownUnit(digits: string, unit: string)
    requires digits != [] && AllDigits(digits)
    requires forall k :: 0 <= k < |unit| ==> IsAsciiLetter(unit[k])
    requires LowerAscii(unit) !in {"", "px", "pt", "in", "cm", "mm"}
    ensures ParseLength(Some(digits + unit)) == None
  {
    ParseLengthUnit(digits, unit);
  }

  /** `digits` followed by a unit written `unit` whose lower-case form is
      `lower`. */
  lemma {:induction false} InUnit(digits: string, unit: string, lower: string)
    requires digits != [] && AllDigits(digits)
    requires forall k :: 0 <= k < |unit| ==> IsAsciiLetter(unit[k])
    requires |unit| == |lower|
    requires forall k :: 0 <= k < |unit| ==>
      lower[k] == (if 'A' <= unit[k] <= 'Z' then (unit[k] as int + 32) as char else unit[k])
    ensures ParseLength(Some(digits + unit)) == ScaleBy(DigitsValue(digits) as real, lower)
  {
    LowerIs(unit, lower);
    ParseLengthUnit(digits, unit);
  }

  lemma LowerIs(unit: string, lower: string)
    requires |unit| == |lower|
    requires forall k :: 0 <= k < |unit| ==>
      lower[k] == (if 'A' <= unit[k] <= 'Z' then (unit[k] as int + 32) as char else unit[k])
    ensures LowerAscii(unit) == lower
  {
  }

  /** A decimal followed directly by a unit reads back as the decimal's
      value in that unit, whatever the letter case of the unit. */
  lemma ParseLengthDecimal(whole: string, frac: string, unit: string)
    requires AllDigits(whole) && AllDigits(frac) && frac != []
    requires forall k :: 0 <= k < |unit| ==> IsAsciiLetter(unit[k])
    ensures ParseLength(Some(whole + "." + frac + unit)) == ScaleBy(DecimalValue(whole, frac), LowerAscii(unit))
  {
    var num := whole + "." + frac;
    DecimalNumeral(whole, frac);
    ParseFloatDecimal(whole, frac);
    ConcatEmpty(num, unit);
    if unit == [] {
      BareLength(num + unit, "", num, "");
    } else {
      UnitLength(num + unit, "", num, "", unit, "");
    }
  }

  /** A decimal in one of the table's units, `1.5mm` or `.5in` say, reads
      back as its value scaled by that unit; `TableScale` states the scaling
      itself. */
  lemma ParseLengthDecimalTable(whole: string, frac: string, i: nat)
    requires AllDigits(whole) && AllDigits(frac) && frac != []
    requires i < |UnitTable|
    ensures ParseLength(Some(whole + "." + frac + UnitTable[i].0)) == ScaleBy(DecimalValue(whole, frac), UnitTable[i].0)
  {
    TableEntry(i);
    ParseLengthDecimal(whole, frac, UnitTable[i].0);
  }

  /** ` 12 PX ` is 12 pixels: whitespace around and before the unit, and the
      unit in capitals. */
  lemma SpacedPixels()
    ensures ParseLength(Some(" 12 PX ")) == Some(12.0)
  {
    assert ParseFloat("12") == Some(12.0) by { ParseFloatInteger("12"); }
    assert LowerAscii("PX") == "px" by { LowerIs("PX", "px"); }
    assert ParseLength(Some(" 12 PX ")) == ScaleBy(ParseFloat("12").value, LowerAscii("PX")) by {
      assert Numeral("12") && AllSpace(" ");
      assert " 12 PX " == " " + ("12" + " " + "PX") + " ";
      UnitLength(" 12 PX ", " ", "12", " ", "PX", " ");
    }
    TableScale(12.0, 1);
  }

  /** `w.f` for single digits `w` and `f`, and `.f` for a single digit `f`. */
  lemma DecimalDigits(w: char, f: char)
    requires IsDigit(w) && IsDigit(f)
    ensures DecimalValue([w], [f]) == (w as int - '0' as int) as real + (f as int - '0' as int) as real / 10.0
    ensures DecimalValue([], [f]) == (f as int - '0' as int) as real / 10.0
  {
    OneDigit(w);
    OneDigit(f);
    assert Pow10(1) == 10;
  }

  /** A single digit denotes its own value. */
  lemma OneDigit(d: char)
    requires IsDigit(d)
    ensures DigitsValue([d]) == d as int - '0' as int
  {
    assert [d][..0] == [];
  }

  /** Digits, a point and at least one digit make a numeral. */
  lemma DecimalNumeral(whole: string, frac: string)
    requires AllDigits(whole) && AllDigits(frac) && frac != []
    ensures Numeral(whole + "." + frac)
  {
    var t := whole + "." + frac;
    var p := |whole|;
    assert t[p] == '.' && t[..p] == whole && t[p + 1..] == frac;
  }

  /** A signed number and a number ending in a point are not lengths. */
  lemma ParseLengthRejects(digits: string)
    requires digits != [] && AllDigits(digits)
    ensures ParseLength(Some("-" + digits)) == None
    ensures ParseLength(Some("+" + digits)) == None
    ensures ParseLength(Some(digits + ".")) == None
  {
    var t := "-" + digits;
    assert t[|t| - 1] == digits[|digits| - 1];
    StripTrimmed(t);
    var u := "+" + digits;
    assert u[|u| - 1] == digits[|digits| - 1];
    StripTrimmed(u);
    var d := digits + ".";
    assert d[0] == digits[0];
    StripTrimmed(d);
    RunOfDigits(d, 0, |digits|);
    assert DigitRunEnd(d, |digits| + 1) == |digits| + 1;
  }

  /* ---------- read_svg_size_and_origin ---------- */

  /** The origin and size of a formula's drawing. */
  datatype Box = Box(x: real, y: real, w: real, h: real)

  /** The parts of a `viewBox`: commas count as whitespace. */
  function ViewBoxParts(vb: string): seq<string> {
    Split(ReplaceChar(vb, ',', ' '))
  }

  /** `w or 1.0`: a missing or zero size becomes 1. */
  function OrOne(v: Option<real>): (r: real)
    ensures r != 0.0
    ensures v.Some? && v.value != 0.0 ==> r == v.value
  {
    if v.None? || v.value == 0.0 then 1.0 else v.value
  }

  /** `read_svg_size_and_origin`: a non-empty `viewBox` of exactly four parts
      is read verbatim as origin and size (a part that is not a number is a
      `ValueError`); otherwise the origin is `(0, 0)` and the size comes from
      the `width` and `height` lengths, each replaced by 1 when missing,
      unreadable or zero. */
  function ReadSvgSizeAndOrigin(root: Element): (r: Result<Box>)
    ensures var vb := root.Get("viewBox", "");
            if vb != [] && |ViewBoxParts(vb)| == 4 then
              match FloatsOf(ViewBoxParts(vb))
              case Ok(vs) => r == Ok(Box(vs[0], vs[1], vs[2], vs[3]))
              case Err(e) => r == Err(e)
            else
              && r.Ok? && r.value.x == 0.0 && r.value.y == 0.0
              && r.value.w == OrOne(ParseLength(root.Attr("width")))
              && r.value.h == OrOne(ParseLength(root.Attr("height")))
  {
    var vb := root.Get("viewBox", "");
    if vb != [] && |ViewBoxParts(vb)| == 4 then
      match FloatsOf(ViewBoxParts(vb))
      case Ok(vs) => Ok(Box(vs[0], vs[1], vs[2], vs[3]))
      case Err(e) => Err(e)
    else
      Ok(Box(0.0, 0.0, OrOne(ParseLength(root.Attr("width"))), OrOne(ParseLength(root.Attr("height")))))
  }

  /** The fallback never yields an empty size: without a four-part
      `viewBox` both sides are positive. */
  lemma FallbackPositive(root: Element)
    requires var vb := root.Get("viewBox", ""); vb == [] || |ViewBoxParts(vb)| != 4
    ensures ReadSvgSizeAndOrigin(root).Ok?
    ensures var b := ReadSvgSizeAndOrigin(root).value;
            b.x == 0.0 && b.y == 0.0 && b.w > 0.0 && b.h > 0.0
  {
  }

  /** A `viewBox` of four integers separated by commas is read back as is. */
  lemma {:induction false} ViewBoxVerbatim(root: Element, a: string, b: string, c: string, d: string)
    requires a != [] && b != [] && c != [] && d != []
    requires AllDigits(a) && AllDigits(b) && AllDigits(c) && AllDigits(d)
    requires root.Get("viewBox", "") == a + "," + b + "," + c + "," + d
    ensures ReadSvgSizeAndOrigin(root) == Ok(Box(DigitsValue(a) as real, DigitsValue(b) as real,
                                                 DigitsValue(c) as real, DigitsValue(d) as real))
  {
    var vb := a + "," + b + "," + c + "," + d;
    var spaced := a + " " + b + " " + c + " " + d;
    assert ReplaceChar(vb, ',', ' ') == spaced by {
      NoCommaDigits(a);
      NoCommaDigits(b);
      NoCommaDigits(c);
      NoCommaDigits(d);
      ReplaceCommaFour(a, b, c, d);
    }
    var parts := [a, b, c, d];
    assert ViewBoxParts(vb) == parts by { SplitFour(a, b, c, d); }
    var vs := [DigitsValue(a) as real, DigitsValue(b) as real, DigitsValue(c) as real, DigitsValue(d) as real];
    assert FloatsOf(parts) == Ok(vs) by { FloatsOfFour(a, b, c, d); }
    ReadFourParts(root, parts, vs);
  }

  /** A four-part `viewBox` whose parts all convert gives origin and size in
      the order written. */
  lemma ReadFourParts(root: Element, parts: seq<string>, vs: seq<real>)
    requires root.Get("viewBox", "") != [] && ViewBoxParts(root.Get("viewBox", "")) == parts
    requires |parts| == 4 && FloatsOf(parts) == Ok(vs)
    ensures ReadSvgSizeAndOrigin(root) == Ok(Box(vs[0], vs[1], vs[2], vs[3]))
  {
  }

  lemma NoCommaDigits(d: string)
    requires AllDigits(d)
    ensures ReplaceChar(d, ',', ' ') == d
  {
    forall k | 0 <= k < |d| ensures d[k] != ',' { assert IsDigit(d[k]); }
  }

  lemma ReplaceCommaFour(a: string, b: string, c: string, d: string)
    requires ReplaceChar(a, ',', ' ') == a && ReplaceChar(b, ',', ' ') == b
    requires ReplaceChar(c, ',', ' ') == c && ReplaceChar(d, ',', ' ') == d
    ensures ReplaceChar(a + "," + b + "," + c + "," + d, ',', ' ') == a + " " + b + " " + c + " " + d
  {
    var vb := a + "," + b + "," + c + "," + d;
    var sp := a + " " + b + " " + c + " " + d;
    var r := ReplaceChar(vb, ',', ' ');
    forall k | 0 <= k < |vb| ensures r[k] == sp[k] {
      if k < |a| {
        assert vb[k] == a[k] && sp[k] == a[k] && ReplaceChar(a, ',', ' ')[k] == a[k];
      } else if k == |a| {
      } else if k < |a| + 1 + |b| {
        var j := k - |a| - 1;
        assert vb[k] == b[j] && sp[k] == b[j] && ReplaceChar(b, ',', ' ')[j] == b[j];
      } else if k == |a| + 1 + |b| {
      } else if k < |a| + 2 + |b| + |c| {
        var j := k - |a| - 2 - |b|;
        assert vb[k] == c[j] && sp[k] == c[j] && ReplaceChar(c, ',', ' ')[j] == c[j];
      } else if k == |a| + 2 + |b| + |c| {
      } else {
        var j := k - |a| - 3 - |b| - |c|;
        assert vb[k] == d[j] && sp[k] == d[j] && ReplaceChar(d, ',', ' ')[j] == d[j];
      }
    }
  }

  /* ---------- bbox_from_rect ---------- */

  /** `bbox_from_rect`: the rectangle's `x` and `y` (each `"0"` when absent)
      and its `width` and `height`, which must be present. */
  function BboxFromRect(rect: Element): (r: Result<Box>)
    ensures ("width" !in rect.attrs && ParseFloat(rect.Get("x", "0")).Some?
             && ParseFloat(rect.Get("y", "0")).Some?) ==> r.Err? && r.error.TypeError?
    ensures r.Ok? ==> "width" in rect.attrs && "height" in rect.attrs
    ensures r.Ok? ==>
      && Some(r.value.x) == ParseFloat(rect.Get("x", "0"))
      && Some(r.value.y) == ParseFloat(rect.Get("y", "0"))
      && Some(r.value.w) == ParseFloat(rect.attrs["width"])
      && Some(r.value.h) == ParseFloat(rect.attrs["height"])
    ensures r.Err? <==>
      || ParseFloat(rect.Get("x", "0")).None? || ParseFloat(rect.Get("y", "0")).None?
      || "width" !in rect.attrs || ParseFloat(rect.attrs["width"]).None?
      || "height" !in rect.attrs || ParseFloat(rect.attrs["height"]).None?
  {
    match Required(rect.Get("x", "0"))
    case Err(e) => Err(e)
    case Ok(x) =>
      match Required(rect.Get("y", "0"))
      case Err(e) => Err(e)
      case Ok(y) =>
        match rect.Attr("width")
        case None => Err(TypeError("float() argument must be a string or a real number, not 'NoneType'"))
        case Some(ws) =>
          match Required(ws)
          case Err(e) => Err(e)
          case Ok(w) =>
            match rect.Attr("height")
            case None => Err(TypeError("float() argument must be a string or a real number, not 'NoneType'"))
            case Some(hs) =>
              match Required(hs)
              case Err(e) => Err(e)
              case Ok(h) => Ok(Box(x, y, w, h))
  }

  /** `float(s)` on a string that is present. */
  function Required(s: string): (r: Result<real>)
    ensures r.Ok? <==> ParseFloat(s).Some?
    ensures r.Ok? ==> r.value == ParseFloat(s).value
    ensures r.Err? ==> r.error.ValueError?
  {
    match ParseFloat(s)
    case Some(v) => Ok(v)
    case None => Err(ValueError("could not convert string to float"))
  }

  /** A rectangle without `x` and `y` sits at the origin. */
  lemma BboxDefaultsOrigin(rect: Element)
    requires "x" !in rect.attrs && "y" !in rect.attrs
    ensures BboxFromRect(rect).Ok? <==>
      && "width" in rect.attrs && ParseFloat(rect.attrs["width"]).Some?
      && "height" in rect.attrs && ParseFloat(rect.attrs["height"]).Some?
    ensures BboxFromRect(rect).Ok? ==> BboxFromRect(rect).value.x == 0.0 && BboxFromRect(rect).value.y == 0.0
  {
    ParseFloatInteger("0");
  }
}
