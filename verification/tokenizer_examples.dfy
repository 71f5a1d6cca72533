/**
 Concrete lines and what the dsh tokenizer makes of them, including the
 repository's own unit test. Each is derived from the whole-input lemmas
 rather than by evaluation.
 */
module TokenizerExamples {
  import opened Optional
  import opened Tokenizer
  import opened TokenizerFacts

  /** Between tokens: nothing buffered, no region, no pending escape. */
  predicate Idle(s: State) {
    s.token == [] && s.quote.None? && !s.escape
  }

  /** A word and the blank after it emit the word. */
  lemma RunWordBlank(s: State, w: string)
    requires Idle(s) && w != [] && Plain(w)
    ensures Run(s, w + " ") == s.(tokens := s.tokens + [w])
  {
    RunPlain(s, w);
    assert s.token + w == w;
    var t := s.(token := w);
    RunSnoc(s, w, ' ');
    assert Run(s, w + " ") == Step(t, ' ');
  }

  /** Two blank-terminated words emit both words. */
  lemma RunTwoWords(s: State, w1: string, w2: string)
    requires Idle(s) && w1 != [] && Plain(w1) && w2 != [] && Plain(w2)
    ensures Run(s, w1 + " " + w2 + " ") == s.(tokens := s.tokens + [w1, w2])
  {
    RunWordBlank(s, w1);
    var s1 := s.(tokens := s.tokens + [w1]);
    RunWordBlank(s1, w2);
    RunAppend(s, w1 + " ", w2 + " ");
    assert w1 + " " + (w2 + " ") == w1 + " " + w2 + " ";
    assert s.tokens + [w1] + [w2] == s.tokens + [w1, w2];
  }

  /** A quoted region, a blank, a word and a blank emit the region's content and the word. */
  lemma RunQuotedThenWord(s: State, q: char, body: string, w: string)
    requires Idle(s) && IsQuote(q)
    requires forall c :: c in body ==> c != q && c != Backslash
    requires w != [] && Plain(w)
    ensures Run(s, [q] + body + [q] + " " + w + " ") == s.(tokens := s.tokens + [body, w])
  {
    var region := [q] + body + [q];
    RunQuoted(s, q, body);
    var s1 := s.(tokens := s.tokens + [s.token + body], token := []);
    assert s.token + body == body;
    RunBlanks(s1, " ");
    assert Run(s1, " ") == s1;
    RunAppend(s, region, " ");
    RunWordBlank(s1, w);
    RunAppend(s, region + " ", w + " ");
    assert region + " " + (w + " ") == [q] + body + [q] + " " + w + " ";
    assert s.tokens + [body] + [w] == s.tokens + [body, w];
  }

  /** An escaped quote, a word and a blank: the quote stays in the word and opens no region. */
  lemma RunEscapedQuoteWord(s: State, q: char, w: string)
    requires Idle(s) && IsQuote(q) && w != [] && Plain(w)
    ensures Run(s, [Backslash, q] + w + " ") == s.(tokens := s.tokens + [[q] + w])
  {
    EscapedLiteral(s, q);
    var s1 := s.(token := [q]);
    assert s.token + [q] == [q];
    RunPlain(s1, w);
    RunSnoc(s1, w, ' ');
    assert Run(s1, w + " ") == s.(tokens := s.tokens + [[q] + w]);
    RunAppend(s, [Backslash, q], w + " ");
    assert [Backslash, q] + (w + " ") == [Backslash, q] + w + " ";
  }

  /** A word and an escaped quote: the quote ends up in the buffered word. */
  lemma RunWordEscapedQuote(s: State, q: char, w: string)
    requires Idle(s) && IsQuote(q) && Plain(w)
    ensures Run(s, w + [Backslash, q]) == s.(token := w + [q])
  {
    RunPlain(s, w);
    assert s.token + w == w;
    EscapedLiteral(s.(token := w), q);
    RunAppend(s, w, [Backslash, q]);
  }

  /** A non-empty stretch of characters without special meaning. */
  predicate Word(w: string) {
    w != [] && Plain(w)
  }

  /** Content for a region opened by q: neither q nor a backslash. */
  predicate RegionBody(q: char, body: string) {
    forall c :: c in body ==> c != q && c != Backslash
  }

  /** The first half of the source's test line: two words, a single-quoted
      region and a word. */
  lemma SourceTestFront(w1: string, w2: string, body: string, w3: string)
    requires Word(w1) && Word(w2) && RegionBody('\'', body) && Word(w3)
    ensures Run(Start, (w1 + " " + w2 + " ") + (['\''] + body + ['\''] + " " + w3 + " "))
         == State([w1, w2, body, w3], [], None, false)
  {
    var s1 := Start.(tokens := [w1, w2]);
    RunTwoWords(Start, w1, w2);
    RunQuotedThenWord(s1, '\'', body, w3);
    assert Run(Start, w1 + " " + w2 + " ") == s1 by {
      assert Start.tokens + [w1, w2] == [w1, w2];
    }
    RunAppend(Start, w1 + " " + w2 + " ", ['\''] + body + ['\''] + " " + w3 + " ");
  }

  /** The middle of the source's test line: a double-quoted region and three words. */
  lemma SourceTestMiddle(s: State, body: string, w4: string, w5: string, w6: string)
    requires Idle(s) && RegionBody('"', body) && Word(w4) && Word(w5) && Word(w6)
    ensures Run(s, (['"'] + body + ['"'] + " " + w4 + " ") + (w5 + " " + w6 + " "))
         == s.(tokens := s.tokens + [body, w4, w5, w6])
  {
    var s1 := s.(tokens := s.tokens + [body, w4]);
    RunQuotedThenWord(s, '"', body, w4);
    RunTwoWords(s1, w5, w6);
    RunAppend(s, ['"'] + body + ['"'] + " " + w4 + " ", w5 + " " + w6 + " ");
  }

  /** The end of the source's test line: two words between escaped quotes. */
  lemma SourceTestEnd(s: State, w7: string, w8: string)
    requires Idle(s) && Word(w7) && Plain(w8)
    ensures Run(s, ([Backslash, '"'] + w7 + " ") + (w8 + [Backslash, '"']))
         == State(s.tokens + [['"'] + w7], w8 + ['"'], None, false)
  {
    var s1 := s.(tokens := s.tokens + [['"'] + w7]);
    RunEscapedQuoteWord(s, '"', w7);
    RunWordEscapedQuote(s1, '"', w8);
    RunAppend(s, [Backslash, '"'] + w7 + " ", w8 + [Backslash, '"']);
  }

  /** The shape of the source's test line, for any words in its places. */
  lemma SourceTestShape(front: string, middle: string, end: string,
                        w1: string, w2: string, body1: string, w3: string, body2: string,
                        w4: string, w5: string, w6: string, w7: string, w8: string)
    requires Word(w1) && Word(w2) && RegionBody('\'', body1) && Word(w3)
    requires RegionBody('"', body2) && Word(w4) && Word(w5) && Word(w6) && Word(w7) && Plain(w8)
    requires front == (w1 + " " + w2 + " ") + (['\''] + body1 + ['\''] + " " + w3 + " ")
    requires middle == (['"'] + body2 + ['"'] + " " + w4 + " ") + (w5 + " " + w6 + " ")
    requires end == ([Backslash, '"'] + w7 + " ") + (w8 + [Backslash, '"'])
    ensures Tokenize(front + (middle + end))
         == [w1, w2, body1, w3, body2, w4, w5, w6, ['"'] + w7, w8 + ['"']]
  {
    var s1 := State([w1, w2, body1, w3], [], None, false);
    var s2 := s1.(tokens := s1.tokens + [body2, w4, w5, w6]);
    var s3 := State(s2.tokens + [['"'] + w7], w8 + ['"'], None, false);
    SourceTestFront(w1, w2, body1, w3);
    SourceTestMiddle(s1, body2, w4, w5, w6);
    SourceTestEnd(s2, w7, w8);
    RunAppend(s1, middle, end);
    RunAppend(Start, front, middle + end);
  }

  // The source's test line is long enough that comparing it as one string
  // literal, or running the tokenizer over it character by character, is
  // beyond what the solver does in reasonable time. So the line is taken in
  // three parts, each matched against the pattern of SourceTestShape by a
  // lemma of its own, and the words are checked in two small groups.

  lemma SourceTestFrontText()
    ensures ("This" + " " + "is" + " ") + (['\''] + "a test" + ['\''] + " " + "of" + " ")
         == "This is 'a test' of "
  {

  }

  lemma SourceTestMiddleText()
    ensures (['"'] + "quoted strings" + ['"'] + " " + "and" + " ") + ("unquoted" + " " + "strings." + " ")
         == "\"quoted strings\" and unquoted strings. "
  {

  }

  lemma SourceTestEndText()
    ensures ([Backslash, '"'] + "escaped" + " ") + ("quotes" + [Backslash, '"']) == "\\\"escaped quotes\\\""
  {

  }

  /** The unit test of the source: quoted regions become single tokens and
      escaped quotes stay in their words without opening a region. */
  lemma SourceTestQuotedStrings(line: string)
    requires line == "This is 'a test' of " + "\"quoted strings\" and unquoted strings. " + "\\\"escaped quotes\\\""
    ensures Tokenize(line)
         == ["This", "is", "a test", "of", "quoted strings", "and", "unquoted", "strings.", "\"escaped", "quotes\""]
  {
    var front := "This is 'a test' of ";
    var middle := "\"quoted strings\" and unquoted strings. ";
    var end := "\\\"escaped quotes\\\"";
    SourceTestFrontText();
    SourceTestMiddleText();
    SourceTestEndText();
    assert line == front + (middle + end);
    SourceTestWords();
    SourceTestShape(front, middle, end, "This", "is", "a test", "of", "quoted strings",
                    "and", "unquoted", "strings.", "escaped", "quotes");
  }

  /** The words of the source's test line have the forms SourceTestShape asks for. */
  lemma SourceTestWords()
    ensures Word("This") && Word("is") && Word("of") && Word("and")
    ensures Word("unquoted") && Word("strings.") && Word("escaped") && Plain("quotes")
    ensures RegionBody('\'', "a test") && RegionBody('"', "quoted strings")
    ensures ['"'] + "escaped" == "\"escaped" && "quotes" + ['"'] == "quotes\""
  {
    SourceTestShortWords();
    SourceTestLongWords();
  }

  lemma SourceTestShortWords()
    ensures Word("This") && Word("is") && Word("of") && Word("and")
  {
  }

  lemma SourceTestLongWords()
    ensures Word("unquoted") && Word("strings.") && Word("escaped") && Plain("quotes")
  {
  }

  /** An escaped blank outside a region still separates tokens: the blank is
      matched before the pending escape is looked at. */
  lemma EscapedBlankSeparates()
    ensures Tokenize("a\\ b") == ["a", "b"]
  {
    RunPlain(Start, "a");
    assert Start.token + "a" == "a";
    var s0 := State([], "a", None, false);
    assert Run(Start, "a") == s0;
    var s1 := State([], "a", None, true);
    assert Step(s0, Backslash) == s1;
    RunSnoc(Start, "a", Backslash);
    var s2 := State(["a"], [], None, false);
    assert Step(s1, ' ') == s2;
    RunSnoc(Start, "a" + [Backslash], ' ');
    assert Run(Start, "a" + [Backslash] + " ") == s2;
    RunPlain(s2, "b");
    assert s2.token + "b" == "b";
    RunAppend(Start, "a" + [Backslash] + " ", "b");
    assert "a" + [Backslash] + " " + "b" == "a\\ b";
  }

  /** A backslash before an ordinary character is dropped. */
  lemma EscapedOrdinaryLosesBackslash()
    ensures Tokenize("\\n") == ["n"]
  {
    RunSnoc(Start, [], Backslash);
    assert Run(Start, []) == Start;
    var s1 := State([], [], None, true);
    assert Run(Start, [Backslash]) == s1;
    RunSnoc(Start, [Backslash], 'n');
    assert Step(s1, 'n') == State([], "n", None, false);
    assert [Backslash] + ['n'] == "\\n";
  }

  /** Two backslashes give one literal backslash. */
  lemma DoubleBackslashIsOne()
    ensures Tokenize("\\\\") == ["\\"]
  {
    EscapedLiteral(Start, Backslash);
    assert Start.token + [Backslash] == "\\";
  }

  /** A pair of quotes with nothing between them is an empty token. */
  lemma EmptyQuotesGiveEmptyToken()
    ensures Tokenize("''") == [""]
    ensures Tokenize("\"\"") == [""]
  {
    QuotedRegionIsOneToken('\'', "");
    assert ['\''] + "" + ['\''] == "''";
    QuotedRegionIsOneToken('"', "");
    assert ['"'] + "" + ['"'] == "\"\"";
  }

  /** The other quote character inside a region is literal. */
  lemma OtherQuoteIsLiteral()
    ensures Tokenize("\"it's\"") == ["it's"]
  {
    QuotedRegionIsOneToken('"', "it's");
    assert ['"'] + "it's" + ['"'] == "\"it's\"";
  }

  /** An unterminated region is kept as the last token. */
  lemma UnterminatedQuoteIsKept()
    ensures Tokenize("'unterminated") == ["unterminated"]
  {
    UnterminatedRegionIsKept('\'', "unterminated");
    assert ['\''] + "unterminated" == "'unterminated";
  }

  /** An opening quote joins the region to the characters already buffered. */
  lemma OpeningQuoteKeepsBuffer()
    ensures Tokenize("ab'c d'") == ["abc d"]
  {
    var region := ['\''] + "c d" + ['\''];
    assert "ab" + region == "ab'c d'";
    var s := Start.(token := "ab");
    assert Run(Start, "ab") == s by {
      RunPlain(Start, "ab");
      assert Start.token + "ab" == "ab";
    }
    assert Run(s, region) == State([s.token + "c d"], [], None, false) by {
      RunQuoted(s, '\'', "c d");
    }
    assert s.token + "c d" == "abc d";
    RunAppend(Start, "ab", region);
  }

  /** Empty and blank-only lines give no tokens. */
  lemma BlankLinesGiveNothing()
    ensures Tokenize("") == []
    ensures Tokenize("   ") == []
    ensures Tokenize(" \t ") == []
  {
    BlankLineHasNoTokens("   ");
    BlankLineHasNoTokens(" \t ");
  }
}
