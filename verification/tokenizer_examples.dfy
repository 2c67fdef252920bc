/** Worked inputs for the tokenizer: the scan of a short line that mixes
    words and an inline formula, as the alternatives of the pattern decide
    it position by position. */
module TokenizerExamples {
  import opened Wrappers
  import opened Text
  import opened Tokenizer

  const Sample := "Hello $x^2$ world"

  /** The lazy `$…$` alternative closes at the second dollar. */
  lemma FormulaAtSix()
    ensures FormulaEnd(Sample, 6) == Some(11)
  {
    assert Sample[6..8][1] == 'x';
    assert DelimitedEnd(Sample, 6, DoubleDollar) == None;
    assert DelimitedEnd(Sample, 6, Bracket) == None;
    assert DollarEnd(Sample, 10) == Some(11);
    assert DollarEnd(Sample, 9) == Some(11);
    assert DollarEnd(Sample, 8) == Some(11);
    assert DollarEnd(Sample, 7) == Some(11);
    assert SingleDollarEnd(Sample, 6) == Some(11);
  }

  /** A word takes its trailing space with it. */
  lemma WordAtZero()
    ensures WordEnd(Sample, 0) == 6
  {
    assert SkipNonSpace(Sample, 5) == 5;
    assert SkipNonSpace(Sample, 4) == 5;
    assert SkipNonSpace(Sample, 3) == 5;
    assert SkipNonSpace(Sample, 2) == 5;
    assert SkipNonSpace(Sample, 1) == 5;
    assert SkipNonSpace(Sample, 0) == 5;
    assert BlankRunEnd(Sample, 6) == 6;
    assert BlankRunEnd(Sample, 5) == 6;
  }

  /** No alternative of the formula group starts at the blank or at the `w`
      after the formula. */
  lemma NoFormulaAfter()
    ensures FormulaEnd(Sample, 11) == None && FormulaEnd(Sample, 12) == None
  {
    NoFormulaAt(Sample, 11);
    NoFormulaAt(Sample, 12);
  }

  lemma WordAtTwelve()
    ensures WordEnd(Sample, 12) == 17
  {
    assert SkipNonSpace(Sample, 16) == 17;
    assert SkipNonSpace(Sample, 14) == 17;
    assert SkipNonSpace(Sample, 12) == 17;
  }

  /** The space after the formula belongs to no match and is skipped. */
  lemma TailFromEleven()
    ensures Scan(Sample, 11) == [Span(Word, 12, 17)]
  {
    NoFormulaAfter();
    WordAtTwelve();
    assert Scan(Sample, 17) == [];
    assert Scan(Sample, 12) == [Span(Word, 12, 17)];
  }

  lemma TailFromSix()
    ensures Scan(Sample, 6) == [Span(Formula, 6, 11), Span(Word, 12, 17)]
  {
    FormulaAtSix();
    TailFromEleven();
  }

  lemma SampleScan()
    ensures Scan(Sample, 0) == [Span(Word, 0, 6), Span(Formula, 6, 11), Span(Word, 12, 17)]
  {
    WordAtZero();
    TailFromSix();
    NoFormulaAt(Sample, 0);
  }

  /** The tokens are the texts of the spans of the scan. */
  lemma TokensFromSpans(s: string, spans: seq<Span>, toks: seq<Token>)
    requires Scan(s, 0) == spans && |toks| == |spans|
    requires forall k :: 0 <= k < |spans| ==> spans[k].start <= spans[k].end <= |s| && toks[k] == TokenOf(s, spans[k])
    ensures Tokenize(s) == toks
  {
    var r := Tokenize(s);
    assert |r| == |toks|;
    forall k | 0 <= k < |r| ensures r[k] == toks[k] {
      assert r[k] == TokenOf(s, spans[k]);
    }
  }

  lemma SampleSlices(s: string)
    requires s == Sample
    ensures |s| == 17 && s[0..6] == "Hello " && s[6..11] == "$x^2$" && s[12..17] == "world"
  {
  }

  /** The whole line: a word, a formula and a word, in that order. */
  lemma SampleTokens(s: string)
    requires s == Sample
    ensures Tokenize(s) == [Token(Word, "Hello "), Token(Formula, "$x^2$"), Token(Word, "world")]
  {
    var sp0, sp1, sp2 := Span(Word, 0, 6), Span(Formula, 6, 11), Span(Word, 12, 17);
    assert Scan(s, 0) == [sp0, sp1, sp2] by { SampleScan(); }
    SampleSlices(s);
    ThreeTokens(s, sp0, sp1, sp2, Token(Word, "Hello "), Token(Formula, "$x^2$"), Token(Word, "world"));
  }

  lemma ThreeTokens(s: string, sp0: Span, sp1: Span, sp2: Span, t0: Token, t1: Token, t2: Token)
    requires Scan(s, 0) == [sp0, sp1, sp2]
    requires sp0.start <= sp0.end <= |s| && t0 == TokenOf(s, sp0)
    requires sp1.start <= sp1.end <= |s| && t1 == TokenOf(s, sp1)
    requires sp2.start <= sp2.end <= |s| && t2 == TokenOf(s, sp2)
    ensures Tokenize(s) == [t0, t1, t2]
  {
    var spans, toks := [sp0, sp1, sp2], [t0, t1, t2];
    forall k | 0 <= k < |spans|
      ensures spans[k].start <= spans[k].end <= |s| && toks[k] == TokenOf(s, spans[k])
    {
      if k == 0 {
        assert spans[k] == sp0 && toks[k] == t0;
      } else if k == 1 {
        assert spans[k] == sp1 && toks[k] == t1;
      } else {
        assert spans[k] == sp2 && toks[k] == t2;
      }
    }
    TokensFromSpans(s, spans, toks);
  }

  /* ---------- the single-dollar alternative's edge cases ---------- */

  const Pair := "$$ x"

  /** An unclosed `$$` is still a `$…$` match with an empty body, since the
      second dollar closes it at once. */
  lemma EmptyDollarPair()
    ensures FormulaEnd(Pair, 0) == Some(2)
  {
    assert |Pair| == 4;
    assert Pair[2..4][0] == ' ';
    assert CloseEnd(Pair, 4, "$$") == None;
    assert CloseEnd(Pair, 3, "$$") == None;
    assert CloseEnd(Pair, 2, "$$") == None;
    assert DelimitedEnd(Pair, 0, DoubleDollar) == None;
    assert DelimitedEnd(Pair, 0, Bracket) == None;
    assert DollarClose(Pair, 1);
    assert SingleDollarEnd(Pair, 0) == Some(2);
  }

  lemma PairScan()
    ensures Scan(Pair, 0) == [Span(Formula, 0, 2), Span(Word, 3, 4)]
  {
    EmptyDollarPair();
    assert Scan(Pair, 4) == [];
    assert FormulaEnd(Pair, 3) == None;
    assert WordEnd(Pair, 3) == 4;
    assert Scan(Pair, 3) == [Span(Word, 3, 4)];
    assert FormulaEnd(Pair, 2) == None;
  }

  const Prices := "$5 and $6"

  /** The lazy body stops at the first unescaped `$`, the one before `6`,
      although a digit follows it: the closing `$` is tried before the body
      consumes a character, and a digit after a `$` only lets the body step
      over a `$` that cannot close. */
  lemma DigitAfterDollar()
    ensures FormulaEnd(Prices, 0) == Some(8)
  {
    assert Prices[0..2][1] == '5';
    assert DelimitedEnd(Prices, 0, DoubleDollar) == None;
    assert DelimitedEnd(Prices, 0, Bracket) == None;
    assert DollarEnd(Prices, 7) == Some(8);
    assert DollarEnd(Prices, 6) == Some(8);
    assert DollarEnd(Prices, 5) == Some(8);
    assert DollarEnd(Prices, 4) == Some(8);
    assert DollarEnd(Prices, 3) == Some(8);
    assert DollarEnd(Prices, 2) == Some(8);
    assert DollarEnd(Prices, 1) == Some(8);
    assert SingleDollarEnd(Prices, 0) == Some(8);
  }

  /** An escaped `$` cannot close; the body steps over it only when a digit
      follows it. */
  lemma EscapedDollarDigit()
    ensures FormulaEnd("$a\\$5$", 0) == Some(6)
    ensures FormulaEnd("$a\\$b$", 0) == None
  {
    var s, u := "$a\\$5$", "$a\\$b$";
    assert s[0..2][1] == 'a' && u[0..2][1] == 'a';
    assert DelimitedEnd(s, 0, DoubleDollar) == None;
    assert DelimitedEnd(s, 0, Bracket) == None;
    assert DollarEnd(s, 3) == Some(6);
    assert DollarEnd(s, 1) == Some(6);
    assert DelimitedEnd(u, 0, DoubleDollar) == None;
    assert DelimitedEnd(u, 0, Bracket) == None;
    assert DollarEnd(u, 3) == None;
    assert DollarEnd(u, 1) == None;
    assert DelimitedEnd(u, 0, Paren) == None;
  }

  lemma PricesScan()
    ensures Scan(Prices, 0) == [Span(Formula, 0, 8), Span(Word, 8, 9)]
  {
    DigitAfterDollar();
    assert Scan(Prices, 9) == [];
    assert FormulaEnd(Prices, 8) == None;
    assert WordEnd(Prices, 8) == 9;
  }
}
