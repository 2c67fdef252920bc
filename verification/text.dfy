/** The parts of Python's `str` behaviour the modelled scripts rely on:
    the `\s` / `str.isspace` character class, `strip()`, `split()` with no
    argument, `replace` of one character, and ASCII `lower()`. */
module Text {

  /** Python's whitespace: what `str.isspace()`, `str.strip()`, `str.split()`
      and the regular-expression class `\s` (on `str` patterns) agree on. */
  predicate IsSpace(c: char) {
    || ('\t' <= c <= '\r')                  // \t \n \v \f \r
    || ('\U{1C}' <= c <= '\U{1F}')           // file/group/record/unit separators
    || c == ' ' || c == '\U{85}' || c == '\U{A0}' || c == '\U{1680}'
    || ('\U{2000}' <= c <= '\U{200A}')
    || c == '\U{2028}' || c == '\U{2029}' || c == '\U{202F}' || c == '\U{205F}'
    || c == '\U{3000}'
  }

  /** The regular-expression class `[ \t]`. */
  predicate IsBlank(c: char) {
    c == ' ' || c == '\t'
  }

  predicate IsAsciiLetter(c: char) {
    ('a' <= c <= 'z') || ('A' <= c <= 'Z')
  }

  predicate AllSpace(s: string) {
    forall k :: 0 <= k < |s| ==> IsSpace(s[k])
  }

  predicate NoSpace(s: string) {
    forall k :: 0 <= k < |s| ==> !IsSpace(s[k])
  }

  predicate StartsWith(s: string, p: string) {
    |p| <= |s| && s[..|p|] == p
  }

  predicate EndsWith(s: string, p: string) {
    |p| <= |s| && s[|s| - |p|..] == p
  }

  /** `s` begins and ends with a non-space character (or is empty): a string
      `strip()` leaves alone. */
  predicate Trimmed(s: string) {
    s == [] || (!IsSpace(s[0]) && !IsSpace(s[|s| - 1]))
  }

  /** First index at or after `i` holding a non-space character. */
  function SkipSpace(s: string, i: nat): (r: nat)
    requires i <= |s|
    decreases |s| - i
    ensures i <= r <= |s|
    ensures forall k :: i <= k < r ==> IsSpace(s[k])
    ensures r < |s| ==> !IsSpace(s[r])
  {
    if i == |s| || !IsSpace(s[i]) then i else SkipSpace(s, i + 1)
  }

  /** First index at or after `i` holding a space character (or `|s|`). */
  function SkipNonSpace(s: string, i: nat): (r: nat)
    requires i <= |s|
    decreases |s| - i
    ensures i <= r <= |s|
    ensures forall k :: i <= k < r ==> !IsSpace(s[k])
    ensures r < |s| ==> IsSpace(s[r])
  {
    if i == |s| || IsSpace(s[i]) then i else SkipNonSpace(s, i + 1)
  }

  /** Smallest `j <= i` such that `s[j..i]` is all space. */
  function BackSpace(s: string, i: nat): (r: nat)
    requires i <= |s|
    ensures r <= i
    ensures forall k :: r <= k < i ==> IsSpace(s[k])
    ensures r > 0 ==> !IsSpace(s[r - 1])
  {
    if i == 0 || !IsSpace(s[i - 1]) then i else BackSpace(s, i - 1)
  }

  /** Where `strip()` cuts: everything before `a` and from `b` on is
      whitespace, and `s[a..b]` is empty or starts and ends with non-space. */
  function StripBounds(s: string): (r: (nat, nat))
    ensures r.0 <= r.1 <= |s|
    ensures AllSpace(s[..r.0]) && AllSpace(s[r.1..])
    ensures Trimmed(s[r.0..r.1])
  {
    var a := SkipSpace(s, 0);
    if a == |s| then (a, a)
    else
      var b := BackSpace(s, |s|);
      assert a < b;
      (a, b)
  }

  /** Python's `s.strip()`: the whitespace at both ends removed. */
  function Strip(s: string): (r: string)
    ensures Trimmed(r)
    ensures |r| <= |s|
    ensures r == [] <==> AllSpace(s)
    ensures exists a, b :: 0 <= a <= b <= |s| && r == s[a..b] && AllSpace(s[..a]) && AllSpace(s[b..])
  {
    var (a, b) := StripBounds(s);
    assert a == b ==> AllSpace(s) by {
      if a == b {
        forall k | 0 <= k < |s| ensures IsSpace(s[k]) {
          if k < a { assert s[k] == s[..a][k]; } else { assert s[k] == s[b..][k - b]; }
        }
      }
    }
    assert AllSpace(s[..a]) && AllSpace(s[b..]);
    s[a..b]
  }

  /** A string that is already trimmed is its own strip. */
  lemma StripTrimmed(s: string)
    requires Trimmed(s)
    ensures Strip(s) == s
  {
    if s != [] {
      assert SkipSpace(s, 0) == 0;
      assert BackSpace(s, |s|) == |s|;
      assert s[0..|s|] == s;
    }
  }

  /** Whitespace around a non-empty trimmed core strips back to exactly
      that core: the strip is the unique trimmed infix that only space
      surrounds. */
  lemma StripAround(lead: string, core: string, trail: string)
    requires AllSpace(lead) && AllSpace(trail)
    requires core != [] && Trimmed(core)
    ensures Strip(lead + core + trail) == core
  {
    var x := lead + core + trail;
    var r := Strip(x);
    var a, b :| 0 <= a <= b <= |x| && r == x[a..b] && AllSpace(x[..a]) && AllSpace(x[b..]);
    assert r != [] by { assert x[|lead|] == core[0]; }
    TrimmedInfix(x, lead, core, trail, a, b);
  }

  /** The core is the only non-empty trimmed infix that only space
      surrounds. */
  lemma TrimmedInfix(x: string, lead: string, core: string, trail: string, a: nat, b: nat)
    requires x == lead + core + trail
    requires AllSpace(lead) && AllSpace(trail)
    requires core != [] && Trimmed(core)
    requires a <= b <= |x| && x[a..b] != [] && Trimmed(x[a..b])
    requires AllSpace(x[..a]) && AllSpace(x[b..])
    ensures x[a..b] == core
  {
    var r := x[a..b];
    var L, C := |lead|, |core|;
    var lc := lead + core;
    assert x == lc + trail && |lc| == L + C;
    assert !IsSpace(core[0]) && !IsSpace(core[C - 1]);
    assert x[L] == lc[L] == core[0];
    assert x[L + C - 1] == lc[L + C - 1] == core[C - 1];
    SpaceAround(x, lead, core, trail);
    assert a == L by {
      assert !IsSpace(x[a]) by { assert r[0] == x[a]; }
      forall k | 0 <= k < a ensures IsSpace(x[k]) { assert x[..a][k] == x[k]; }
      FirstNonSpace(x, a, L);
    }
    assert b == L + C by {
      assert !IsSpace(x[b - 1]) by { assert r[|r| - 1] == x[b - 1]; }
      forall k | b <= k < |x| ensures IsSpace(x[k]) { assert x[b..][k - b] == x[k]; }
      LastNonSpace(x, b, L + C);
    }
    assert x[L..L + C] == core;
  }

  /** Two indices that are both the first non-space character agree. */
  lemma FirstNonSpace(x: string, i: nat, j: nat)
    requires i < |x| && j < |x| && !IsSpace(x[i]) && !IsSpace(x[j])
    requires forall k :: 0 <= k < i ==> IsSpace(x[k])
    requires forall k :: 0 <= k < j ==> IsSpace(x[k])
    ensures i == j
  {
  }

  /** Two ends that both follow the last non-space character agree. */
  lemma LastNonSpace(x: string, i: nat, j: nat)
    requires 0 < i <= |x| && 0 < j <= |x| && !IsSpace(x[i - 1]) && !IsSpace(x[j - 1])
    requires forall k :: i <= k < |x| ==> IsSpace(x[k])
    requires forall k :: j <= k < |x| ==> IsSpace(x[k])
    ensures i == j
  {
  }

  lemma SpaceAround(x: string, lead: string, core: string, trail: string)
    requires x == lead + core + trail
    requires AllSpace(lead) && AllSpace(trail)
    ensures forall k :: 0 <= k < |lead| ==> IsSpace(x[k])
    ensures forall k :: |lead| + |core| <= k < |x| ==> IsSpace(x[k])
  {
    forall k | 0 <= k < |lead| ensures IsSpace(x[k]) { assert x[k] == lead[k]; }
    forall k | |lead| + |core| <= k < |x| ensures IsSpace(x[k]) {
      assert x[k] == trail[k - |lead| - |core|];
    }
  }

  /** Python's `s.split()`: the maximal runs of non-space characters. */
  function Split(s: string): (parts: seq<string>)
    decreases |s|
    ensures forall k :: 0 <= k < |parts| ==> parts[k] != [] && NoSpace(parts[k])
    ensures parts == [] <==> AllSpace(s)
  {
    var a := SkipSpace(s, 0);
    if a == |s| then
      []
    else
      var b := SkipNonSpace(s, a);
      [s[a..b]] + Split(s[b..])
  }

  /** Splitting a word, some whitespace and a rest yields the word first. */
  lemma SplitCons(w: string, gap: string, rest: string)
    requires w != [] && NoSpace(w)
    requires gap != [] && AllSpace(gap)
    ensures Split(w + gap + rest) == [w] + Split(rest)
  {
    var s := w + gap + rest;
    var n := |w|;
    assert s[0] == w[0];
    assert SkipSpace(s, 0) == 0;
    assert forall k :: 0 <= k < n ==> !IsSpace(s[k]) by {
      forall k | 0 <= k < n ensures !IsSpace(s[k]) { assert s[k] == w[k]; }
    }
    SkipNonSpaceFrom(s, 0, n);
    assert s[n] == gap[0];
    assert SkipNonSpace(s, 0) == n;
    assert s[0..n] == w;
    assert s[n..] == gap + rest;
    SplitAfterSpace(gap, rest);
  }

  lemma SkipNonSpaceFrom(s: string, i: nat, j: nat)
    requires i <= j <= |s|
    requires forall k :: i <= k < j ==> !IsSpace(s[k])
    ensures SkipNonSpace(s, i) == SkipNonSpace(s, j)
    decreases j - i
  {
    if i < j {
      SkipNonSpaceFrom(s, i + 1, j);
    }
  }

  /** Leading whitespace does not change `split()`. */
  lemma SplitAfterSpace(gap: string, rest: string)
    requires AllSpace(gap)
    ensures Split(gap + rest) == Split(rest)
  {
    var s := gap + rest;
    assert s[|gap|..] == rest;
    GapSkipped(gap, rest);
    SplitShifted(s, rest, |gap|);
  }

  lemma GapSkipped(gap: string, rest: string)
    requires AllSpace(gap)
    ensures SkipSpace(gap + rest, 0) == SkipSpace(rest, 0) + |gap|
  {
    var s := gap + rest;
    var d := |gap|;
    assert s[d..] == rest;
    assert forall k :: 0 <= k < d ==> IsSpace(s[k]) by {
      forall k | 0 <= k < d ensures IsSpace(s[k]) { assert s[k] == gap[k]; }
    }
    SkipSpaceFrom(s, 0, d);
    SkipSpaceSlice(s, d, d);
  }

  /** When the first word of `s` starts `d` characters later than the first
      word of `s[d..]`, both split alike. */
  lemma SplitShifted(s: string, rest: string, d: nat)
    requires d <= |s| && s[d..] == rest
    requires SkipSpace(s, 0) == SkipSpace(rest, 0) + d
    ensures Split(s) == Split(rest)
  {
    var a := SkipSpace(s, 0);
    var a' := SkipSpace(rest, 0);
    if a < |s| {
      SkipNonSpaceOffset(s, a, d);
      var b := SkipNonSpace(s, a);
      var b' := SkipNonSpace(rest, a');
      assert a == a' + d && b == b' + d;
      SameWord(s, rest, d, a', b');
      var w, tail := s[a..b], s[b..];
      assert rest[a'..b'] == w && rest[b'..] == tail;
      assert Split(s) == [w] + Split(tail) by { SplitStep(s); }
      assert Split(rest) == [w] + Split(tail) by { SplitStep(rest); }
    } else {
      assert a' == |rest|;
    }
  }

  /** One step of `split()`: the first word, then the split of what follows it. */
  lemma SplitStep(s: string)
    requires SkipSpace(s, 0) < |s|
    ensures Split(s) == [s[SkipSpace(s, 0)..SkipNonSpace(s, SkipSpace(s, 0))]]
                        + Split(s[SkipNonSpace(s, SkipSpace(s, 0))..])
  {
  }

  lemma SameWord(s: string, rest: string, d: nat, a: nat, b: nat)
    requires d <= |s| && s[d..] == rest && a <= b <= |rest|
    ensures s[a + d..b + d] == rest[a..b] && s[b + d..] == rest[b..]
  {
    assert rest[a..b] == s[d..][a..b] == s[a + d..b + d];
    assert rest[b..] == s[d..][b..] == s[b + d..];
  }

  lemma SkipSpaceFrom(s: string, i: nat, j: nat)
    requires i <= j <= |s|
    requires forall k :: i <= k < j ==> IsSpace(s[k])
    ensures SkipSpace(s, i) == SkipSpace(s, j)
    decreases j - i
  {
    if i < j {
      SkipSpaceFrom(s, i + 1, j);
    }
  }

  lemma SkipSpaceSlice(s: string, i: nat, d: nat)
    requires d <= i <= |s|
    ensures SkipSpace(s, i) == SkipSpace(s[d..], i - d) + d
    decreases |s| - i
  {
    if i < |s| && IsSpace(s[i]) {
      SkipSpaceSlice(s, i + 1, d);
    }
  }

  lemma SkipNonSpaceOffset(s: string, i: nat, d: nat)
    requires d <= i <= |s|
    ensures SkipNonSpace(s, i) == SkipNonSpace(s[d..], i - d) + d
    decreases |s| - i
  {
    if i < |s| && !IsSpace(s[i]) {
      SkipNonSpaceOffset(s, i + 1, d);
    }
  }

  /** A single word with nothing around it splits into itself. */
  lemma SplitSingle(w: string)
    requires w != [] && NoSpace(w)
    ensures Split(w) == [w]
  {
    assert SkipSpace(w, 0) == 0;
    assert SkipNonSpace(w, 0) == |w|;
    assert w[0..|w|] == w;
    assert w[|w|..] == [];
    assert Split([]) == [];
  }

  /** Python's `s.replace(from, to)` for one-character `from` and `to`. */
  function ReplaceChar(s: string, from: char, to: char): (r: string)
    ensures |r| == |s|
    ensures forall k :: 0 <= k < |s| ==> r[k] == (if s[k] == from then to else s[k])
  {
    seq(|s|, k requires 0 <= k < |s| => if s[k] == from then to else s[k])
  }

  /** Python's `lower()` restricted to the ASCII letters, the only characters
      it is applied to in the modelled code. */
  function LowerAscii(s: string): (r: string)
    ensures |r| == |s|
    ensures forall k :: 0 <= k < |s| ==>
      r[k] == (if 'A' <= s[k] <= 'Z' then (s[k] as int + 32) as char else s[k])
  {
    seq(|s|, k requires 0 <= k < |s| =>
      if 'A' <= s[k] <= 'Z' then (s[k] as int + 32) as char else s[k])
  }

  /** `s` with every whitespace character deleted. */
  function Visible(s: string): (r: string)
    ensures NoSpace(r)
    ensures |r| <= |s|
  {
    if s == [] then []
    else (if IsSpace(s[0]) then [] else [s[0]]) + Visible(s[1..])
  }

  lemma {:induction false} VisibleAppend(a: string, b: string)
    ensures Visible(a + b) == Visible(a) + Visible(b)
    decreases |a|
  {
    if a != [] {
      assert (a + b)[0] == a[0];
      assert (a + b)[1..] == a[1..] + b;
      VisibleAppend(a[1..], b);
      var h := if IsSpace(a[0]) then [] else [a[0]];
      assert Visible(a + b) == h + Visible(a[1..] + b);
      assert Visible(a) == h + Visible(a[1..]);
    } else {
      assert a + b == b;
    }
  }

  lemma {:induction false} VisibleAllSpace(s: string)
    requires AllSpace(s)
    ensures Visible(s) == []
    decreases |s|
  {
    if s != [] {
      VisibleAllSpace(s[1..]);
    }
  }
}
