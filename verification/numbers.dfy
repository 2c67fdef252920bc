/** Decimal numbers as the scripts read and write them: Python's `float()` on a
    string (with exact `real` arithmetic in place of IEEE doubles) and the
    decimal text of a non-negative `int` as an f-string prints it. */
module Numbers {
  import opened Wrappers
  import opened Text

  predicate IsDigit(c: char) {
    '0' <= c <= '9'
  }

  predicate AllDigits(s: string) {
    forall k :: 0 <= k < |s| ==> IsDigit(s[k])
  }

  /** The number a string of decimal digits denotes; the empty string is 0. */
  function DigitsValue(s: string): nat
    requires AllDigits(s)
  {
    if s == [] then 0
    else DigitsValue(s[..|s| - 1]) * 10 + (s[|s| - 1] as int - '0' as int)
  }

  function Pow10(n: nat): (r: nat)
    ensures r >= 1
  {
    if n == 0 then 1 else 10 * Pow10(n - 1)
  }

  /** `10^e` for a possibly negative exponent. */
  function Scale10(e: int): (r: real)
    ensures r > 0.0
  {
    if e >= 0 then Pow10(e) as real else 1.0 / Pow10(-e) as real
  }

  /** The value of the literal `whole.frac`. */
  function DecimalValue(whole: string, frac: string): (r: real)
    requires AllDigits(whole) && AllDigits(frac)
    ensures r >= 0.0
  {
    DigitsValue(whole) as real + DigitsValue(frac) as real / Pow10(|frac|) as real
  }

  /** End of the maximal run of digits starting at `i`. */
  function DigitRunEnd(s: string, i: nat): (r: nat)
    requires i <= |s|
    decreases |s| - i
    ensures i <= r <= |s|
    ensures AllDigits(s[i..r])
    ensures r < |s| ==> !IsDigit(s[r])
  {
    if i == |s| || !IsDigit(s[i]) then i
    else
      var r := DigitRunEnd(s, i + 1);
      assert s[i..r] == [s[i]] + s[i + 1..r];
      r
  }

  /** The exponent part `[eE][+-]?digits` starting at `i`, which must run to
      the end of `t`; `None` when it is malformed. */
  function ParseExponent(t: string, i: nat): Option<int>
    requires i < |t| && (t[i] == 'e' || t[i] == 'E')
  {
    var j := if i + 1 < |t| && (t[i + 1] == '+' || t[i + 1] == '-') then i + 2 else i + 1;
    var k := DigitRunEnd(t, j);
    if k == j || k != |t| then None
    else
      var e: int := DigitsValue(t[j..k]);
      Some(if j == i + 2 && t[i + 1] == '-' then -e else e)
  }

  /** The value of `t[i..]` read as an unsigned decimal: digits with an
      optional fraction (at least one digit in all) and an optional exponent. */
  function ParseUnsigned(t: string, i: nat): (r: Option<real>)
    requires i <= |t|
    ensures r.Some? ==> r.value >= 0.0
  {
    var i1 := DigitRunEnd(t, i);
    if i1 < |t| && t[i1] == '.' then
      var i2 := DigitRunEnd(t, i1 + 1);
      if i1 == i && i2 == i1 + 1 then None
      else WithExponent(t, i2, DecimalValue(t[i..i1], t[i1 + 1..i2]))
    else if i1 == i then None
    else WithExponent(t, i1, DigitsValue(t[i..i1]) as real)
  }

  /** `mag` scaled by the exponent part at `t[i..]`, if that part is empty or
      well formed. */
  function WithExponent(t: string, i: nat, mag: real): (r: Option<real>)
    requires i <= |t| && mag >= 0.0
    ensures r.Some? ==> r.value >= 0.0
    ensures i == |t| ==> r == Some(mag)
  {
    if i == |t| then Some(mag)
    else if t[i] == 'e' || t[i] == 'E' then
      match ParseExponent(t, i)
      case Some(e) => Some(mag * Scale10(e))
      case None => None
    else None
  }

  /** Python's `float(s)` on a string: surrounding whitespace is ignored, then
      an optional sign and an unsigned decimal. Every other string is a
      `ValueError`, modelled as `None`. */
  function ParseFloat(s: string): (r: Option<real>)
    ensures r.Some? ==> Strip(s) != []
    ensures r.Some? && r.value < 0.0 ==> Strip(s)[0] == '-'
  {
    var t := Strip(s);
    if t == [] then None
    else if t[0] == '-' then
      match ParseUnsigned(t, 1)
      case Some(v) => Some(-v)
      case None => None
    else if t[0] == '+' then ParseUnsigned(t, 1)
    else ParseUnsigned(t, 0)
  }

  /** `float()` reads back a plain decimal literal `whole.frac` exactly; one
      of the two digit strings may be empty. */
  lemma ParseFloatDecimal(whole: string, frac: string)
    requires whole != [] || frac != []
    requires AllDigits(whole) && AllDigits(frac)
    ensures ParseFloat(whole + "." + frac) == Some(DecimalValue(whole, frac))
  {
    var t := whole + "." + frac;
    assert t[0] == if whole == [] then '.' else whole[0];
    assert t[|t| - 1] == (if frac == [] then '.' else frac[|frac| - 1]);
    StripTrimmed(t);
    RunOfDigits(t, 0, |whole|);
    RunOfDigits(t, |whole| + 1, |t|);
    assert t[0..|whole|] == whole;
    assert t[|whole| + 1..|t|] == frac;
  }

  /** `float()` reads back an integer literal exactly. */
  lemma ParseFloatInteger(whole: string)
    requires whole != [] && AllDigits(whole)
    ensures ParseFloat(whole) == Some(DigitsValue(whole) as real)
  {
    StripTrimmed(whole);
    assert whole[0..] == whole;
    UnsignedInteger(whole, 0);
  }

  /** A leading minus sign negates the value. */
  lemma ParseFloatNegative(whole: string)
    requires whole != [] && AllDigits(whole)
    ensures ParseFloat("-" + whole) == Some(-(DigitsValue(whole) as real))
  {
    var t := "-" + whole;
    assert t[|t| - 1] == whole[|whole| - 1];
    StripTrimmed(t);
    assert t[1..] == whole;
    assert t[0] == '-';
    UnsignedInteger(t, 1);
  }

  /** Digits running to the end of `t` read as that integer. */
  lemma UnsignedInteger(t: string, i: nat)
    requires i < |t| && AllDigits(t[i..])
    ensures ParseUnsigned(t, i) == Some(DigitsValue(t[i..]) as real)
  {
    forall k | i <= k < |t| ensures IsDigit(t[k]) { assert t[k] == t[i..][k - i]; }
    RunOfDigits(t, i, |t|);
    assert t[i..|t|] == t[i..];
  }

  /** A run of digits ending at the end of `t` or before a non-digit is exactly
      what `DigitRunEnd` finds. */
  lemma RunOfDigits(t: string, i: nat, j: nat)
    requires i <= j <= |t|
    requires forall k :: i <= k < j ==> IsDigit(t[k])
    requires j < |t| ==> !IsDigit(t[j])
    ensures DigitRunEnd(t, i) == j
    decreases j - i
  {
    if i < j {
      RunOfDigits(t, i + 1, j);
    }
  }

  /** The decimal text of `n`, as `str(n)` or an f-string prints an `int`. */
  function NatToString(n: nat): (r: string)
    ensures r != [] && AllDigits(r)
    ensures DigitsValue(r) == n
    ensures |r| > 1 ==> r[0] != '0'
  {
    var d := ['0' + (n % 10) as char];
    if n < 10 then d
    else
      var p := NatToString(n / 10);
      assert (p + d)[..|p + d| - 1] == p;
      p + d
  }

  /* ---------- several numbers at once ---------- */

  /** A list of strings read with `float()` one by one, as a comprehension
      does: all the values, or a `ValueError` when any part is not a number. */
  function FloatsOf(parts: seq<string>): (r: Result<seq<real>>)
    ensures r.Ok? ==> |r.value| == |parts|
    ensures r.Ok? <==> forall k :: 0 <= k < |parts| ==> ParseFloat(parts[k]).Some?
    ensures r.Ok? ==> forall k :: 0 <= k < |parts| ==> r.value[k] == ParseFloat(parts[k]).value
    ensures r.Err? ==> r.error.ValueError?
  {
    if forall k :: 0 <= k < |parts| ==> ParseFloat(parts[k]).Some? then
      Ok(seq(|parts|, k requires 0 <= k < |parts| => ParseFloat(parts[k]).value))
    else
      Err(ValueError("could not convert string to float"))
  }

  /** Parts that all convert give their values, in order. */
  lemma FloatsOfAll(parts: seq<string>, vs: seq<real>)
    requires |parts| == |vs|
    requires forall k :: 0 <= k < |parts| ==> ParseFloat(parts[k]) == Some(vs[k])
    ensures FloatsOf(parts) == Ok(vs)
  {
    var r := FloatsOf(parts);
    assert r.Ok?;
    assert r.value == vs by {
      forall k | 0 <= k < |vs| ensures r.value[k] == vs[k] { }
    }
  }

  /** Four decimal integers all convert, each to its value. */
  lemma FloatsOfFour(a: string, b: string, c: string, d: string)
    requires a != [] && b != [] && c != [] && d != []
    requires AllDigits(a) && AllDigits(b) && AllDigits(c) && AllDigits(d)
    ensures FloatsOf([a, b, c, d]) == Ok([DigitsValue(a) as real, DigitsValue(b) as real,
                                          DigitsValue(c) as real, DigitsValue(d) as real])
  {
    ParseFloatInteger(a);
    ParseFloatInteger(b);
    ParseFloatInteger(c);
    ParseFloatInteger(d);
    FloatsOfParsed(a, b, c, d, DigitsValue(a) as real, DigitsValue(b) as real,
                   DigitsValue(c) as real, DigitsValue(d) as real);
  }

  lemma FloatsOfParsed(a: string, b: string, c: string, d: string, va: real, vb: real, vc: real, vd: real)
    requires ParseFloat(a) == Some(va) && ParseFloat(b) == Some(vb)
    requires ParseFloat(c) == Some(vc) && ParseFloat(d) == Some(vd)
    ensures FloatsOf([a, b, c, d]) == Ok([va, vb, vc, vd])
  {
    var parts := [a, b, c, d];
    var vs := [va, vb, vc, vd];
    forall k | 0 <= k < 4 ensures ParseFloat(parts[k]) == Some(vs[k]) {
      if k == 0 {} else if k == 1 {} else if k == 2 {} else {}
    }
    FloatsOfAll(parts, vs);
  }

  lemma DigitsNoSpace(d: string)
    requires AllDigits(d)
    ensures NoSpace(d)
  {
    forall k | 0 <= k < |d| ensures !IsSpace(d[k]) { assert IsDigit(d[k]); }
  }

  /** Four digit strings separated by single spaces split into those four. */
  lemma SplitFour(a: string, b: string, c: string, d: string)
    requires a != [] && b != [] && c != [] && d != []
    requires AllDigits(a) && AllDigits(b) && AllDigits(c) && AllDigits(d)
    ensures Split(a + " " + b + " " + c + " " + d) == [a, b, c, d]
  {
    var bcd := b + " " + (c + " " + d);
    assert Split(a + " " + bcd) == [a] + [b, c, d] by {
      SplitThree(b, c, d);
      DigitsNoSpace(a);
      assert AllSpace(" ");
      SplitCons(a, " ", bcd);
    }
    Regroup(a, b, c, d);
  }

  lemma SplitThree(b: string, c: string, d: string)
    requires b != [] && c != [] && d != []
    requires AllDigits(b) && AllDigits(c) && AllDigits(d)
    ensures Split(b + " " + (c + " " + d)) == [b, c, d]
  {
    DigitsNoSpace(b);
    DigitsNoSpace(c);
    DigitsNoSpace(d);
    assert AllSpace(" ");
    var cd := c + " " + d;
    assert Split(cd) == [c, d] by { SplitSingle(d); SplitCons(c, " ", d); }
    SplitCons(b, " ", cd);
  }

  lemma Regroup(a: string, b: string, c: string, d: string)
    ensures a + " " + b + " " + c + " " + d == a + " " + (b + " " + (c + " " + d))
  {
  }
}
