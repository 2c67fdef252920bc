/** The tokenizer of the inline text renderer (`PATTERN` and
    `split_text_into_tokens`): a left-to-right scan that, at each position,
    tries the alternatives of one regular expression in order — a newline, a
    formula (`$$…$$`, `\[…\]`, `$…$`, `\(…\)`, in that order), a word — and
    skips the character when none matches. */
module Tokenizer {
  import opened Wrappers
  import opened Text
  import Numbers

  datatype Kind = NewLine | Formula | Word

  /** One element of the token list: its type and the text it matched. */
  datatype Token = Token(kind: Kind, text: string)

  /** A match of the pattern: which alternative matched, and the half-open
      range `[start, end)` of the input it covers. */
  datatype Span = Span(kind: Kind, start: nat, end: nat)

  /** The delimiter `d` occurs in `s` at index `k`. */
  predicate Occurs(s: string, k: nat, d: string) {
    k + |d| <= |s| && s[k..k + |d|] == d
  }

  /* ---------- the delimited alternatives `$$…$$`, `\[…\]`, `\(…\)` ---------- */

  /** In `s[j..k)` there is no newline (`.` does not match one) and no
      occurrence of `close` begins. */
  ghost predicate ClearRun(s: string, j: nat, k: nat, close: string)
    requires j <= k <= |s|
  {
    forall m :: j <= m < k ==> s[m] != '\n' && !Occurs(s, m, close)
  }

  /** A body free of `close` followed by `close`, matched from `j`: the end of
      the match, or `None`.
      The body takes the first position that starts `close` and fails at a
      newline or the end of input; the contract states the match
      declaratively, in both directions. */
  function CloseEnd(s: string, j: nat, close: string): (r: Option<nat>)
    requires j <= |s| && |close| > 0
    decreases |s| - j
    ensures r.Some? ==> j + |close| <= r.value <= |s| && Occurs(s, r.value - |close|, close)
                        && ClearRun(s, j, r.value - |close|, close)
    ensures r.None? ==> forall k :: j <= k <= |s| && Occurs(s, k, close) ==> !ClearRun(s, j, k, close)
  {
    if Occurs(s, j, close) then Some(j + |close|)
    else if j == |s| || s[j] == '\n' then None
    else
      var r := CloseEnd(s, j + 1, close);
      if r.None? then NoCloseBefore(s, j, close); r else r
  }

  /** A character that is neither a newline nor the start of `close` does
      not let a run reach an occurrence of `close` that the runs from the
      next position cannot reach. */
  lemma NoCloseBefore(s: string, j: nat, close: string)
    requires j < |s| && s[j] != '\n' && !Occurs(s, j, close)
    requires forall k :: j + 1 <= k <= |s| && Occurs(s, k, close) ==> !ClearRun(s, j + 1, k, close)
    ensures forall k :: j <= k <= |s| && Occurs(s, k, close) ==> !ClearRun(s, j, k, close)
  {
  }

  /** A delimited alternative tried at `i`: `open`, then a body that neither
      crosses a newline nor contains `close`, then `close`. */
  function Delimited(s: string, i: nat, open: string, close: string): (r: Option<nat>)
    requires i <= |s| && |close| > 0
    ensures r.Some? ==> Occurs(s, i, open) && i + |open| + |close| <= r.value <= |s|
                        && Occurs(s, r.value - |close|, close)
                        && ClearRun(s, i + |open|, r.value - |close|, close)
  {
    if Occurs(s, i, open) then CloseEnd(s, i + |open|, close) else None
  }

  /* ---------- the single-dollar alternative, with its backslash and digit guards ---------- */

  /** An opening `$` at `i`, not preceded by a backslash. */
  predicate DollarOpen(s: string, i: nat) {
    i < |s| && s[i] == '$' && (i == 0 || s[i - 1] != '\\')
  }

  /** A closing `$` at `m`, not preceded by a backslash. */
  predicate DollarClose(s: string, m: nat) {
    0 < m < |s| && s[m] == '$' && s[m - 1] != '\\'
  }

  /** A character the lazy body may consume: not a newline, and not a `$`
      unless a digit follows it. */
  predicate DollarInner(s: string, m: nat) {
    m < |s| && s[m] != '\n' && (s[m] != '$' || (m + 1 < |s| && Numbers.IsDigit(s[m + 1])))
  }

  /** Every position of `s[k..m)` is consumed by the lazy body without the
      closing `$` having matched earlier. */
  ghost predicate LazyRun(s: string, k: nat, m: nat) {
    forall p :: k <= p < m ==> DollarInner(s, p) && !DollarClose(s, p)
  }

  /** The lazy body and closing `$` tried from `k`: at each position the
      closing `$` is tried before the body consumes one more character. */
  function DollarEnd(s: string, k: nat): (r: Option<nat>)
    requires 0 < k <= |s|
    decreases |s| - k
    ensures r.Some? ==> k < r.value <= |s| && DollarClose(s, r.value - 1) && LazyRun(s, k, r.value - 1)
    ensures r.None? ==> forall m :: k <= m < |s| && DollarClose(s, m) ==> !LazyRun(s, k, m)
  {
    if DollarClose(s, k) then Some(k + 1)
    else if DollarInner(s, k) then DollarEnd(s, k + 1)
    else None
  }

  /* ---------- the formula group and the word alternative ---------- */

  /** The text of a formula token: opened and closed by one of the four
      delimiter pairs. */
  predicate FormulaShape(t: string) {
    || (|t| >= 4 && t[..2] == "$$" && t[|t| - 2..] == "$$")
    || (|t| >= 4 && t[..2] == "\\[" && t[|t| - 2..] == "\\]")
    || (|t| >= 2 && t[0] == '$' && t[|t| - 1] == '$')
    || (|t| >= 4 && t[..2] == "\\(" && t[|t| - 2..] == "\\)")
  }

  predicate NoNewline(t: string) {
    forall k :: 0 <= k < |t| ==> t[k] != '\n'
  }

  /** `s[i..e]` is a formula token: it starts with `$` or a backslash, is
      delimited by one of the four pairs, and holds no newline. */
  predicate FormulaMatch(s: string, i: nat, e: nat) {
    i + 2 <= e <= |s| && (s[i] == '$' || s[i] == '\\')
    && FormulaShape(s[i..e]) && NoNewline(s[i..e])
  }

  /** The delimiter pairs of the alternatives that use fixed delimiters. */
  datatype Fence = DoubleDollar | Bracket | Paren {
    function Open(): string {
      match this
      case DoubleDollar => "$$"
      case Bracket => "\\["
      case Paren => "\\("
    }

    function Close(): string {
      match this
      case DoubleDollar => "$$"
      case Bracket => "\\]"
      case Paren => "\\)"
    }
  }

  /** The `$$…$$`, `\[…\]` or `\(…\)` alternative at `i`. */
  function DelimitedEnd(s: string, i: nat, f: Fence): (r: Option<nat>)
    requires i <= |s|
    ensures r.Some? ==> FormulaMatch(s, i, r.value)
  {
    var r := Delimited(s, i, f.Open(), f.Close());
    if r.Some? then
      FenceLengths(f);
      DelimitedSound(s, i, r.value, f);
      r
    else r
  }

  /** A match of a fence's alternative is opened and closed by the fence's
      delimiters. */
  lemma DelimitedEndFence(s: string, i: nat, f: Fence)
    requires i <= |s| && DelimitedEnd(s, i, f).Some?
    ensures var e := DelimitedEnd(s, i, f).value;
            2 <= e && Occurs(s, i, f.Open()) && Occurs(s, e - 2, f.Close())
  {
    FenceLengths(f);
  }

  lemma FenceLengths(f: Fence)
    ensures |f.Open()| == 2 && |f.Close()| == 2
  {
    match f
    case DoubleDollar =>
    case Bracket =>
    case Paren =>
  }

  /** A match of a fence's alternative is a formula. */
  lemma DelimitedSound(s: string, i: nat, e: nat, f: Fence)
    requires Occurs(s, i, f.Open()) && i + 4 <= e <= |s| && Occurs(s, e - 2, f.Close())
    requires ClearRun(s, i + 2, e - 2, f.Close())
    ensures FormulaMatch(s, i, e)
  {
    match f
    case DoubleDollar => DelimitedMatch(s, i, e, "$$", "$$");
    case Bracket => DelimitedMatch(s, i, e, "\\[", "\\]");
    case Paren => DelimitedMatch(s, i, e, "\\(", "\\)");
  }

  /** The `$…$` alternative at `i`: neither dollar may follow a backslash. */
  function SingleDollarEnd(s: string, i: nat): (r: Option<nat>)
    requires i <= |s|
    ensures r.Some? ==> FormulaMatch(s, i, r.value) && DollarOpen(s, i) && DollarClose(s, r.value - 1)
  {
    if DollarOpen(s, i) then
      var r := DollarEnd(s, i + 1);
      if r.Some? then DollarMatch(s, i, r.value); r else r
    else None
  }

  /** The `formula` group at `i`: its alternatives in the order the pattern
      lists them, the first that matches winning. */
  function FormulaEnd(s: string, i: nat): (r: Option<nat>)
    requires i <= |s|
    ensures r.Some? ==> FormulaMatch(s, i, r.value)
  {
    var dd := DelimitedEnd(s, i, DoubleDollar);
    if dd.Some? then dd
    else
      var br := DelimitedEnd(s, i, Bracket);
      if br.Some? then br
      else
        var dl := SingleDollarEnd(s, i);
        if dl.Some? then dl else DelimitedEnd(s, i, Paren)
  }

  /** No formula starts at a character other than `$` or a backslash. */
  lemma NoFormulaAt(s: string, i: nat)
    requires i < |s| && s[i] != '$' && s[i] != '\\'
    ensures FormulaEnd(s, i) == None
  {
  }

  /** A match of the `$…$` alternative is `$`, characters other than a
      newline, `$`. */
  lemma DollarMatch(s: string, i: nat, e: nat)
    requires DollarOpen(s, i) && i + 1 < e <= |s|
    requires DollarClose(s, e - 1) && LazyRun(s, i + 1, e - 1)
    ensures FormulaMatch(s, i, e)
  {
    var t := s[i..e];
    assert t[0] == s[i] && t[|t| - 1] == s[e - 1];
    forall k | 0 <= k < |t| ensures t[k] != '\n' {
      assert t[k] == s[i + k];
      if 0 < k < |t| - 1 { assert DollarInner(s, i + k); }
    }
  }

  /** A match of a delimited alternative has the delimiters at its ends and
      no newline inside. */
  lemma DelimitedMatch(s: string, i: nat, e: nat, open: string, close: string)
    requires (open, close) in {("$$", "$$"), ("\\[", "\\]"), ("\\(", "\\)")}
    requires Occurs(s, i, open) && i + 4 <= e <= |s| && Occurs(s, e - 2, close)
    requires ClearRun(s, i + 2, e - 2, close)
    ensures FormulaMatch(s, i, e)
  {
    var t := s[i..e];
    assert t[..2] == s[i..i + 2] == open;
    assert t[|t| - 2..] == s[e - 2..e] == close;
    assert s[i] == open[0];
    forall k | 0 <= k < |t| ensures t[k] != '\n' {
      assert t[k] == s[i + k];
      if k < 2 { assert s[i + k] == open[k]; }
      else if k >= |t| - 2 { assert s[i + k] == close[k - (|t| - 2)]; }
    }
  }

  /** End of the run of spaces and tabs starting at `i`. */
  function BlankRunEnd(s: string, i: nat): (r: nat)
    requires i <= |s|
    decreases |s| - i
    ensures i <= r <= |s|
    ensures forall k :: i <= k < r ==> IsBlank(s[k])
    ensures r < |s| ==> !IsBlank(s[r])
  {
    if i == |s| || !IsBlank(s[i]) then i else BlankRunEnd(s, i + 1)
  }

  /** `s[a..e]` is a word match as greedy matching leaves it (non-space
      characters, then spaces and tabs): it starts with a non-space character; once a space occurs only
      spaces or tabs follow; and it cannot be extended, so the next character
      is not a space or tab, and is not a non-space character either when the
      match ends in one. */
  ghost predicate WordAt(s: string, a: nat, e: nat) {
    && a < e <= |s|
    && !IsSpace(s[a])
    && (forall k :: a <= k < e && IsSpace(s[k]) ==> IsBlank(s[k]))
    && (forall k1, k2 :: a <= k1 < k2 < e && IsSpace(s[k1]) ==> IsSpace(s[k2]))
    && (e < |s| ==> !IsBlank(s[e]) && (IsSpace(s[e - 1]) || IsSpace(s[e])))
  }

  /** The `word` alternative at `i`, which matches whenever `s[i]` is not
      whitespace. */
  function WordEnd(s: string, i: nat): (r: nat)
    requires i < |s| && !IsSpace(s[i])
    ensures WordAt(s, i, r)
  {
    var m := SkipNonSpace(s, i);
    var e := BlankRunEnd(s, m);
    assert forall k :: m <= k < e ==> IsSpace(s[k]);
    e
  }

  /* ---------- the scan of `finditer` ---------- */

  /** The characters of `s[a..b)` are whitespace other than a newline: the
      only characters no alternative matches. */
  ghost predicate Skipped(s: string, a: nat, b: nat) {
    forall m :: a <= m < b && m < |s| ==> IsSpace(s[m]) && s[m] != '\n'
  }

  /** A span is a match of the alternative its kind names. */
  ghost predicate SpanOk(s: string, sp: Span) {
    && sp.start < sp.end <= |s|
    && match sp.kind
       case NewLine => sp.end == sp.start + 1 && s[sp.start] == '\n'
       case Formula => FormulaShape(s[sp.start..sp.end]) && NoNewline(s[sp.start..sp.end])
       case Word => WordAt(s, sp.start, sp.end)
  }

  /** `spans` accounts for `s[i..]`: the spans are well formed, in input
      order, do not overlap, and every character outside them is skipped
      whitespace. */
  ghost predicate Explains(s: string, i: nat, spans: seq<Span>)
    decreases |spans|
  {
    if spans == [] then i <= |s| && Skipped(s, i, |s|)
    else
      && i <= spans[0].start
      && SpanOk(s, spans[0])
      && Skipped(s, i, spans[0].start)
      && Explains(s, spans[0].end, spans[1..])
  }

  /** The matches `PATTERN.finditer(s)` yields from position `i` on. */
  function Scan(s: string, i: nat): (r: seq<Span>)
    requires i <= |s|
    decreases |s| - i
    ensures Explains(s, i, r)
  {
    if i == |s| then []
    else if s[i] == '\n' then
      var rest := Scan(s, i + 1);
      ExplainsCons(s, i, Span(NewLine, i, i + 1), rest);
      [Span(NewLine, i, i + 1)] + rest
    else
      match FormulaEnd(s, i)
      case Some(e) =>
        var rest := Scan(s, e);
        ExplainsCons(s, i, Span(Formula, i, e), rest);
        [Span(Formula, i, e)] + rest
      case None =>
        if !IsSpace(s[i]) then
          var e := WordEnd(s, i);
          var rest := Scan(s, e);
          ExplainsCons(s, i, Span(Word, i, e), rest);
          [Span(Word, i, e)] + rest
        else
          var rest := Scan(s, i + 1);
          ExplainsSkip(s, i, rest);
          rest
  }

  /** Which alternative wins at `i`: a newline is its own match; else the
      formula alternative, when one of its branches matches, takes priority
      over a word; a word needs a non-space first character; any other
      whitespace is skipped and the search resumes one character on. */
  lemma ScanHead(s: string, i: nat)
    requires i < |s|
    ensures s[i] == '\n' ==> Scan(s, i) == [Span(NewLine, i, i + 1)] + Scan(s, i + 1)
    ensures s[i] != '\n' && FormulaEnd(s, i).Some? ==>
      var e := FormulaEnd(s, i).value;
      Scan(s, i) == [Span(Formula, i, e)] + Scan(s, e)
    ensures FormulaEnd(s, i).None? && !IsSpace(s[i]) ==>
      Scan(s, i) == [Span(Word, i, WordEnd(s, i))] + Scan(s, WordEnd(s, i))
    ensures IsSpace(s[i]) && s[i] != '\n' ==> Scan(s, i) == Scan(s, i + 1)
  {
    if IsSpace(s[i]) && s[i] != '\n' {
      NoFormulaAt(s, i);
    }
  }

  /** A match at or after `i`, with only skipped characters before it,
      followed by an account of the rest. */
  lemma ExplainsCons(s: string, i: nat, sp: Span, rest: seq<Span>)
    requires i <= sp.start && SpanOk(s, sp) && Skipped(s, i, sp.start)
    requires Explains(s, sp.end, rest)
    ensures Explains(s, i, [sp] + rest)
  {
    assert ([sp] + rest)[1..] == rest;
  }

  /** A skipped character in front of an account of the rest. */
  lemma {:induction false} ExplainsSkip(s: string, i: nat, spans: seq<Span>)
    requires i < |s| && IsSpace(s[i]) && s[i] != '\n'
    requires Explains(s, i + 1, spans)
    ensures Explains(s, i, spans)
  {
    if spans != [] {
      assert spans[1..] == ([Span(Word, i, i)] + spans)[2..];
    }
  }

  function TokenOf(s: string, sp: Span): Token
    requires sp.start <= sp.end <= |s|
  {
    Token(sp.kind, s[sp.start..sp.end])
  }

  /** `split_text_into_tokens(text)`. */
  function Tokenize(s: string): (r: seq<Token>)
    ensures |r| == |Scan(s, 0)|
    ensures forall k :: 0 <= k < |r| ==> TokenShape(r[k])
  {
    var spans := Scan(s, 0);
    ExplainsSpans(s, 0, spans);
    seq(|spans|, k requires 0 <= k < |spans| => TokenOf(s, spans[k]))
  }

  /* ---------- properties ---------- */

  /** The text of a word token, on its own: a non-space first character, and
      only spaces or tabs after the first whitespace. */
  predicate WordShape(t: string) {
    && t != [] && !IsSpace(t[0])
    && (forall k :: 0 <= k < |t| && IsSpace(t[k]) ==> IsBlank(t[k]))
    && (forall k1, k2 :: 0 <= k1 < k2 < |t| && IsSpace(t[k1]) ==> IsSpace(t[k2]))
  }

  /** What each kind of token looks like. */
  predicate TokenShape(t: Token) {
    match t.kind
    case NewLine => t.text == "\n"
    case Formula => FormulaShape(t.text) && NoNewline(t.text)
    case Word => WordShape(t.text) && NoNewline(t.text)
  }

  lemma SpanShape(s: string, sp: Span)
    requires SpanOk(s, sp)
    ensures TokenShape(TokenOf(s, sp))
  {
    var t := s[sp.start..sp.end];
    forall k | 0 <= k < |t| ensures t[k] == s[sp.start + k] { }
    if sp.kind == NewLine {
      assert t == [s[sp.start]];
    }
  }

  /** Every span `Explains` admits is well formed and starts at or after `i`,
      and the spans are in input order. */
  lemma {:induction false} ExplainsSpans(s: string, i: nat, spans: seq<Span>)
    requires Explains(s, i, spans)
    ensures forall k :: 0 <= k < |spans| ==>
      i <= spans[k].start && SpanOk(s, spans[k]) && TokenShape(TokenOf(s, spans[k]))
    ensures forall k :: 0 < k < |spans| ==> spans[k - 1].end <= spans[k].start
    decreases |spans|
  {
    if spans != [] {
      ExplainsSpans(s, spans[0].end, spans[1..]);
      SpanShape(s, spans[0]);
      forall k | 0 < k < |spans|
        ensures i <= spans[k].start && SpanOk(s, spans[k]) && TokenShape(TokenOf(s, spans[k]))
      {
        assert spans[k] == spans[1..][k - 1];
      }
      forall k | 1 < k < |spans| ensures spans[k - 1].end <= spans[k].start {
        assert spans[k] == spans[1..][k - 1] && spans[k - 1] == spans[1..][k - 2];
      }
    }
  }

  /** The number of newline characters in `s[a..b)`. */
  function NewlinesIn(s: string, a: nat, b: nat): nat
    requires a <= b <= |s|
    decreases b - a
  {
    if a == b then 0 else NewlinesIn(s, a, b - 1) + (if s[b - 1] == '\n' then 1 else 0)
  }

  function CountKind(toks: seq<Token>, k: Kind): nat {
    if toks == [] then 0 else (if toks[0].kind == k then 1 else 0) + CountKind(toks[1..], k)
  }

  function SpanKindCount(spans: seq<Span>, k: Kind): nat {
    if spans == [] then 0 else (if spans[0].kind == k then 1 else 0) + SpanKindCount(spans[1..], k)
  }

  lemma {:induction false} NewlinesSplit(s: string, a: nat, b: nat, c: nat)
    requires a <= b <= c <= |s|
    ensures NewlinesIn(s, a, c) == NewlinesIn(s, a, b) + NewlinesIn(s, b, c)
    decreases c - b
  {
    if b < c {
      NewlinesSplit(s, a, b, c - 1);
    }
  }

  lemma {:induction false} NewlinesNone(s: string, a: nat, b: nat)
    requires a <= b <= |s|
    requires forall m :: a <= m < b ==> s[m] != '\n'
    ensures NewlinesIn(s, a, b) == 0
    decreases b - a
  {
    if a < b {
      NewlinesNone(s, a, b - 1);
    }
  }

  /** No span other than a newline span covers a newline character. */
  lemma SpanNewlines(s: string, sp: Span)
    requires SpanOk(s, sp)
    ensures NewlinesIn(s, sp.start, sp.end) == (if sp.kind == NewLine then 1 else 0)
  {
    match sp.kind
    case NewLine =>
      assert NewlinesIn(s, sp.start, sp.start) == 0;
    case Formula =>
      forall m | sp.start <= m < sp.end ensures s[m] != '\n' {
        assert s[m] == s[sp.start..sp.end][m - sp.start];
      }
      NewlinesNone(s, sp.start, sp.end);
    case Word =>
      NewlinesNone(s, sp.start, sp.end);
  }

  lemma {:induction false} ExplainsNewlines(s: string, i: nat, spans: seq<Span>)
    requires Explains(s, i, spans)
    ensures i <= |s|
    ensures NewlinesIn(s, i, |s|) == SpanKindCount(spans, NewLine)
    decreases |spans|
  {
    if spans == [] {
      NewlinesNone(s, i, |s|);
    } else {
      var sp := spans[0];
      ExplainsNewlines(s, sp.end, spans[1..]);
      NewlinesNone(s, i, sp.start);
      SpanNewlines(s, sp);
      NewlinesSplit(s, i, sp.start, |s|);
      NewlinesSplit(s, sp.start, sp.end, |s|);
    }
  }

  lemma {:induction false} TokenKindCount(s: string, spans: seq<Span>, toks: seq<Token>, k: Kind)
    requires forall j :: 0 <= j < |spans| ==> spans[j].start <= spans[j].end <= |s|
    requires |toks| == |spans|
    requires forall j :: 0 <= j < |spans| ==> toks[j] == TokenOf(s, spans[j])
    ensures CountKind(toks, k) == SpanKindCount(spans, k)
    decreases |spans|
  {
    if spans != [] {
      TokenKindCount(s, spans[1..], toks[1..], k);
    }
  }

  /** Every newline of the input becomes exactly one `NEW_LINE` token. */
  lemma NewlineTokens(s: string)
    ensures CountKind(Tokenize(s), NewLine) == NewlinesIn(s, 0, |s|)
  {
    var spans := Scan(s, 0);
    ExplainsSpans(s, 0, spans);
    ExplainsNewlines(s, 0, spans);
    TokenKindCount(s, spans, Tokenize(s), NewLine);
  }

  /** The token texts, concatenated in order. */
  function Joined(toks: seq<Token>): string {
    if toks == [] then [] else toks[0].text + Joined(toks[1..])
  }

  function SpanText(s: string, spans: seq<Span>): string
    requires forall j :: 0 <= j < |spans| ==> spans[j].start <= spans[j].end <= |s|
  {
    if spans == [] then [] else s[spans[0].start..spans[0].end] + SpanText(s, spans[1..])
  }

  lemma {:induction false} SkippedInvisible(s: string, a: nat, b: nat)
    requires a <= b <= |s| && Skipped(s, a, b)
    ensures Visible(s[a..b]) == []
  {
    assert AllSpace(s[a..b]) by {
      forall k | 0 <= k < b - a ensures IsSpace(s[a..b][k]) { assert s[a..b][k] == s[a + k]; }
    }
    VisibleAllSpace(s[a..b]);
  }

  /** The positional part of `Explains`: ordered spans with skipped
      whitespace between them. */
  ghost predicate Gapped(s: string, i: nat, spans: seq<Span>)
    decreases |spans|
  {
    if spans == [] then i <= |s| && Skipped(s, i, |s|)
    else
      && i <= spans[0].start <= spans[0].end <= |s|
      && Skipped(s, i, spans[0].start)
      && Gapped(s, spans[0].end, spans[1..])
  }

  lemma {:induction false} ExplainsGapped(s: string, i: nat, spans: seq<Span>)
    requires Explains(s, i, spans)
    ensures Gapped(s, i, spans)
    decreases |spans|
  {
    if spans != [] {
      ExplainsGapped(s, spans[0].end, spans[1..]);
    }
  }

  lemma {:induction false} GappedVisible(s: string, i: nat, spans: seq<Span>)
    requires Gapped(s, i, spans)
    requires forall j :: 0 <= j < |spans| ==> spans[j].start <= spans[j].end <= |s|
    ensures i <= |s|
    ensures Visible(s[i..]) == Visible(SpanText(s, spans))
    decreases |spans|
  {
    if spans == [] {
      SkippedInvisible(s, i, |s|);
      assert s[i..] == s[i..|s|];
    } else {
      var sp := spans[0];
      var rest := spans[1..];
      assert forall j :: 0 <= j < |rest| ==> rest[j] == spans[j + 1];
      GappedVisible(s, sp.end, rest);
      GappedStep(s, i, sp.start, sp.end, SpanText(s, rest));
    }
  }

  /** One span after skipped whitespace, followed by text whose visible part
      is already known. */
  lemma GappedStep(s: string, i: nat, start: nat, end: nat, tail: string)
    requires i <= start <= end <= |s|
    requires Skipped(s, i, start)
    requires Visible(s[end..]) == Visible(tail)
    ensures Visible(s[i..]) == Visible(s[start..end] + tail)
  {
    var a, b, c := s[i..start], s[start..end], s[end..];
    assert s[i..] == a + b + c;
    SkippedInvisible(s, i, start);
    VisibleAppend(a + b, c);
    VisibleAppend(a, b);
    VisibleAppend(b, tail);
  }

  lemma {:induction false} JoinedSpans(s: string, spans: seq<Span>, toks: seq<Token>)
    requires forall j :: 0 <= j < |spans| ==> spans[j].start <= spans[j].end <= |s|
    requires |toks| == |spans|
    requires forall j :: 0 <= j < |spans| ==> toks[j] == TokenOf(s, spans[j])
    ensures Joined(toks) == SpanText(s, spans)
    decreases |spans|
  {
    if spans != [] {
      JoinedSpans(s, spans[1..], toks[1..]);
    }
  }

  /** Only whitespace is lost: deleting the whitespace from the input and from
      the concatenated token texts gives the same string. */
  lemma TokensKeepVisibleText(s: string)
    ensures Visible(Joined(Tokenize(s))) == Visible(s)
  {
    var spans := Scan(s, 0);
    ExplainsSpans(s, 0, spans);
    ExplainsGapped(s, 0, spans);
    GappedVisible(s, 0, spans);
    JoinedSpans(s, spans, Tokenize(s));
    assert s[0..] == s;
  }
}
