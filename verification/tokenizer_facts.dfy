/**
 Properties of the dsh tokenizer over whole inputs: how Run composes, what
 quoted regions, blanks and escapes do to a stretch of input, which tokens can
 be empty, which characters survive, and agreement with plain blank-splitting.
 */
module TokenizerFacts {
  import opened Optional
  import opened Tokenizer

  /** No backslash, quote or blank anywhere. */
  predicate Plain(s: string) {
    forall c :: c in s ==> !IsSpecial(c)
  }

  /** No blank anywhere. */
  predicate Unbroken(s: string) {
    forall c :: c in s ==> !IsBlank(c)
  }

  /** No quote character anywhere. */
  predicate QuoteFree(s: string) {
    forall c :: c in s ==> !IsQuote(c)
  }

  /** No quote character and no backslash anywhere: only blanks are special. */
  predicate Unquoted(s: string) {
    forall c :: c in s ==> !IsQuote(c) && c != Backslash
  }

  predicate AllBlank(s: string) {
    forall c :: c in s ==> IsBlank(c)
  }

  // ---------------------------------------------------------------------------
  // Composition of runs

  lemma RunSnoc(s: State, p: string, c: char)
    ensures Run(s, p + [c]) == Step(Run(s, p), c)
  {

  }

  /** Running over a + b is running over a, then over b from where a left off. */
  lemma {:induction false} RunAppend(s: State, a: string, b: string)
    ensures Run(s, a + b) == Run(Run(s, a), b)
    decreases |b|
  {
    if b == [] {
      assert a + b == a;
    } else {
      var b', c := b[..|b| - 1], b[|b| - 1];
      assert b == b' + [c];
      assert a + b == (a + b') + [c];
      RunAppend(s, a, b');
      RunSnoc(s, a + b', c);
      RunSnoc(Run(s, a), b', c);
    }
  }

  // ---------------------------------------------------------------------------
  // Stretches of input

  /** Characters with no special meaning are copied into the buffer, inside or
      outside a quoted region, and nothing is emitted. */
  lemma {:induction false} RunPlain(s: State, w: string)
    requires !s.escape && Plain(w)
    ensures Run(s, w) == s.(token := s.token + w)
    decreases |w|
  {
    if w == [] {
      assert s.token + w == s.token;
    } else {
      var w', c := w[..|w| - 1], w[|w| - 1];
      assert w == w' + [c];
      RunPlain(s, w');
      RunSnoc(s, w', c);
      assert s.token + w == (s.token + w') + [c];
    }
  }

  /** Inside a region opened by q, everything except q and the backslash is
      copied literally: blanks and the other quote character included. */
  lemma {:induction false} RunInRegion(s: State, q: char, body: string)
    requires IsQuote(q) && s.quote == Some(q) && !s.escape
    requires forall c :: c in body ==> c != q && c != Backslash
    ensures Run(s, body) == s.(token := s.token + body)
    decreases |body|
  {
    if body == [] {
      assert s.token + body == s.token;
    } else {
      var b', c := body[..|body| - 1], body[|body| - 1];
      assert body == b' + [c];
      assert forall d :: d in b' ==> d in body;
      assert c in body;
      RunInRegion(s, q, b');
      RunSnoc(s, b', c);
      assert s.token + body == (s.token + b') + [c];
    }
  }

  /** A quoted region after a partial token: the opening quote keeps the
      buffer, the closing quote emits buffer and region content as one token. */
  lemma RunQuoted(s: State, q: char, body: string)
    requires IsQuote(q) && s.quote.None? && !s.escape
    requires forall c :: c in body ==> c != q && c != Backslash
    ensures Run(s, [q] + body + [q]) == s.(tokens := s.tokens + [s.token + body], token := [])
  {
    var inside := Step(s, q);
    assert Run(s, [q]) == inside by { RunSnoc(s, [], q); }
    RunAppend(s, [q], body);
    RunInRegion(inside, q, body);
    RunSnoc(s, [q] + body, q);
  }

  /** A non-empty run of blanks outside a region emits the buffer (if any)
      once and leaves an empty buffer and no pending escape. */
  lemma {:induction false} RunBlanks(s: State, b: string)
    requires s.quote.None? && |b| > 0 && AllBlank(b)
    ensures Run(s, b) == State(Flush(s), [], None, false)
    decreases |b|
  {
    var b', c := b[..|b| - 1], b[|b| - 1];
    assert b == b' + [c];
    RunSnoc(s, b', c);
    if b' != [] {
      RunBlanks(s, b');
    }
  }

  /** A backslash followed by any character other than a blank outside a
      region yields that character literally and is itself dropped: a
      backslash or quote character opens or closes no region, and an
      ordinary character loses the backslash before it. */
  lemma EscapedLiteral(s: State, c: char)
    requires !s.escape && !(IsBlank(c) && s.quote.None?)
    ensures Run(s, [Backslash, c]) == s.(token := s.token + [c])
  {
    RunSnoc(s, [], Backslash);
    RunSnoc(s, [Backslash], c);
  }

  // ---------------------------------------------------------------------------
  // Whole inputs

  /** Empty and blank-only lines give no tokens. */
  lemma BlankLineHasNoTokens(input: string)
    requires AllBlank(input)
    ensures Tokenize(input) == []
  {
    if input != [] {
      RunBlanks(Start, input);
    }
  }

  /** A closed region gives its content as one token, verbatim, even when empty. */
  lemma QuotedRegionIsOneToken(q: char, body: string)
    requires IsQuote(q)
    requires forall c :: c in body ==> c != q && c != Backslash
    ensures Tokenize([q] + body + [q]) == [body]
  {
    RunQuoted(Start, q, body);
    assert Start.token + body == body;
  }

  /** An unterminated region is no error: its content so far, if any, is the last token. */
  lemma UnterminatedRegionIsKept(q: char, body: string)
    requires IsQuote(q)
    requires forall c :: c in body ==> c != q && c != Backslash
    ensures Tokenize([q] + body) == if body == [] then [] else [body]
  {
    RunSnoc(Start, [], q);
    RunAppend(Start, [q], body);
    RunInRegion(Step(Start, q), q, body);
    assert Step(Start, q).token + body == body;
  }

  /** A lone backslash at the end of the input is dropped. */
  lemma TrailingBackslashIsDropped(input: string)
    requires !Run(Start, input).escape
    ensures Tokenize(input + [Backslash]) == Tokenize(input)
  {

  }

  // ---------------------------------------------------------------------------
  // Empty tokens

  function EmptyCount(ts: seq<Token>): nat
    decreases |ts|
  {
    if ts == [] then 0
    else EmptyCount(ts[..|ts| - 1]) + (if ts[|ts| - 1] == [] then 1 else 0)
  }

  function QuoteCount(s: string): nat
    decreases |s|
  {
    if s == [] then 0
    else QuoteCount(s[..|s| - 1]) + (if IsQuote(s[|s| - 1]) then 1 else 0)
  }

  lemma EmptyCountSnoc(ts: seq<Token>, t: Token)
    ensures EmptyCount(ts + [t]) == EmptyCount(ts) + (if t == [] then 1 else 0)
  {

  }

  lemma QuoteCountSnoc(s: string, c: char)
    ensures QuoteCount(s + [c]) == QuoteCount(s) + (if IsQuote(c) then 1 else 0)
  {

  }

  /** Every empty token was emitted by a closing quote, which needs an opening
      quote before it: so empty tokens are at most half the quote characters. */
  lemma {:induction false} RunEmptyTokensBound(p: string)
    ensures var r := Run(Start, p);
      2 * EmptyCount(r.tokens) + (if r.quote.Some? then 1 else 0) <= QuoteCount(p)
    decreases |p|
  {
    if p != [] {
      var p', c := p[..|p| - 1], p[|p| - 1];
      assert p == p' + [c];
      RunEmptyTokensBound(p');
      RunSnoc(Start, p', c);
      QuoteCountSnoc(p', c);
      var s := Run(Start, p');
      if Step(s, c).tokens != s.tokens {
        EmptyCountSnoc(s.tokens, s.token);
      }
    }
  }

  lemma EmptyTokensNeedQuotes(input: string)
    ensures 2 * EmptyCount(Tokenize(input)) <= QuoteCount(input)
  {
    var r := Run(Start, input);
    RunEmptyTokensBound(input);
    if r.token != [] {
      EmptyCountSnoc(r.tokens, r.token);
    }
  }

  /** Without quote characters every token is non-empty, and no token holds
      a blank: outside a region a blank always ends a token. */
  lemma {:induction false} RunQuoteFree(p: string)
    requires QuoteFree(p)
    ensures var r := Run(Start, p);
      && r.quote.None?
      && Unbroken(r.token)
      && forall t :: t in r.tokens ==> t != [] && Unbroken(t)
    decreases |p|
  {
    if p != [] {
      var p', c := p[..|p| - 1], p[|p| - 1];
      assert p == p' + [c];
      RunQuoteFree(p');
      RunSnoc(Start, p', c);
    }
  }

  lemma QuoteFreeTokensAreUnbroken(input: string)
    requires QuoteFree(input)
    ensures forall t :: t in Tokenize(input) ==> t != [] && Unbroken(t)
  {
    RunQuoteFree(input);
  }

  // ---------------------------------------------------------------------------
  // Which characters survive

  /** Every character of every token is a character of the input. */
  lemma {:induction false} RunCharsFromInput(p: string)
    ensures var r := Run(Start, p);
      && (forall c :: c in r.token ==> c in p)
      && (forall t, c :: t in r.tokens && c in t ==> c in p)
    decreases |p|
  {
    if p != [] {
      var p', c := p[..|p| - 1], p[|p| - 1];
      assert p == p' + [c];
      RunCharsFromInput(p');
      RunSnoc(Start, p', c);
    }
  }

  lemma TokenCharsFromInput(input: string)
    ensures forall t, c :: t in Tokenize(input) && c in t ==> c in input
  {
    RunCharsFromInput(input);
  }

  /** The characters of all tokens, in order. */
  function Concat(ts: seq<Token>): string
    decreases |ts|
  {
    if ts == [] then [] else Concat(ts[..|ts| - 1]) + ts[|ts| - 1]
  }

  /** out is input with some backslashes, quote characters and blanks deleted,
      and nothing else changed: order and all other characters are kept. */
  predicate DropsOnlySpecials(out: string, input: string)
    decreases |input|
  {
    if input == [] then out == []
    else
      var input', c := input[..|input| - 1], input[|input| - 1];
      || (out != [] && out[|out| - 1] == c && DropsOnlySpecials(out[..|out| - 1], input'))
      || (IsSpecial(c) && DropsOnlySpecials(out, input'))
  }

  lemma KeepLast(out: string, input: string, c: char)
    requires DropsOnlySpecials(out, input)
    ensures DropsOnlySpecials(out + [c], input + [c])
  {

  }

  lemma DropLast(out: string, input: string, c: char)
    requires IsSpecial(c) && DropsOnlySpecials(out, input)
    ensures DropsOnlySpecials(out, input + [c])
  {

  }

  lemma {:induction false} RunDropsOnlySpecials(p: string)
    ensures var r := Run(Start, p); DropsOnlySpecials(Concat(r.tokens) + r.token, p)
    decreases |p|
  {
    if p == [] {
    } else {
      var p', c := p[..|p| - 1], p[|p| - 1];
      assert p == p' + [c];
      RunDropsOnlySpecials(p');
      RunSnoc(Start, p', c);
      var s := Run(Start, p');
      var r := Step(s, c);
      var kept := Concat(s.tokens) + s.token;
      if r.tokens == s.tokens && r.token == s.token + [c] {
        KeepLast(kept, p', c);
        assert Concat(r.tokens) + r.token == kept + [c];
      } else if r.tokens == s.tokens {
        assert r.token == s.token;
        DropLast(kept, p', c);
      } else {
        assert Concat(s.tokens + [s.token]) == kept by {
          assert (s.tokens + [s.token])[..|s.tokens|] == s.tokens;
        }
        assert Concat(r.tokens) + r.token == kept;
        DropLast(kept, p', c);
      }
    }
  }

  /** Tokenizing only ever deletes backslashes, quote characters and blanks:
      the tokens, concatenated, are the input in order with some of those
      characters removed. */
  lemma TokenizeDropsOnlySpecials(input: string)
    ensures DropsOnlySpecials(Concat(Tokenize(input)), input)
  {
    var r := Run(Start, input);
    RunDropsOnlySpecials(input);
    if r.token != [] {
      assert (r.tokens + [r.token])[..|r.tokens|] == r.tokens;
    } else {
      assert Concat(r.tokens) + r.token == Concat(r.tokens);
    }
  }

  // ---------------------------------------------------------------------------
  // Reference: splitting on blanks

  /** The pieces between blanks, one per blank plus one, empty pieces included. */
  function Fragments(s: string): (r: seq<string>)
    ensures |r| >= 1
    ensures forall f :: f in r ==> Unbroken(f)
    decreases |s|
  {
    if s == [] then [[]]
    else
      var init, c := Fragments(s[..|s| - 1]), s[|s| - 1];
      if IsBlank(c) then init + [[]]
      else
        assert init[|init| - 1] in init;
        init[..|init| - 1] + [init[|init| - 1] + [c]]
  }

  /** The non-empty pieces, in order. */
  function NonEmpty(fs: seq<string>): (r: seq<string>)
    ensures forall f :: f in r ==> f != [] && f in fs
    decreases |fs|
  {
    if fs == [] then []
    else
      var rest := NonEmpty(fs[..|fs| - 1]);
      if fs[|fs| - 1] == [] then rest else rest + [fs[|fs| - 1]]
  }

  /** Splitting on blanks and dropping empty fragments. */
  function Words(s: string): seq<string> {
    NonEmpty(Fragments(s))
  }

  lemma {:induction false} RunUnquoted(p: string)
    requires Unquoted(p)
    ensures var f := Fragments(p);
      Run(Start, p) == State(NonEmpty(f[..|f| - 1]), f[|f| - 1], None, false)
    decreases |p|
  {
    if p != [] {
      var p', c := p[..|p| - 1], p[|p| - 1];
      assert p == p' + [c];
      RunUnquoted(p');
      RunSnoc(Start, p', c);
      var f := Fragments(p');
      assert f == f[..|f| - 1] + [f[|f| - 1]];
      if IsBlank(c) {
        assert (f + [[]])[..|f|] == f;
      } else {
        var f' := f[..|f| - 1] + [f[|f| - 1] + [c]];
        assert f'[..|f'| - 1] == f[..|f| - 1];
      }
    }
  }

  /** On input without quote characters or backslashes the tokenizer is
      exactly splitting on runs of blanks. */
  lemma UnquotedInputSplitsOnBlanks(input: string)
    requires Unquoted(input)
    ensures Tokenize(input) == Words(input)
  {
    RunUnquoted(input);
    var f := Fragments(input);
    assert f == f[..|f| - 1] + [f[|f| - 1]];
  }

  // ---------------------------------------------------------------------------
  // Round trip through single-space joining

  function Join(ts: seq<Token>): string
    decreases |ts|
  {
    if |ts| == 0 then []
    else if |ts| == 1 then ts[0]
    else Join(ts[..|ts| - 1]) + [' '] + ts[|ts| - 1]
  }

  lemma {:induction false} RunJoin(ts: seq<Token>)
    requires |ts| > 0
    requires forall t :: t in ts ==> t != [] && Plain(t)
    ensures Run(Start, Join(ts)) == State(ts[..|ts| - 1], ts[|ts| - 1], None, false)
    decreases |ts|
  {
    if |ts| == 1 {
      RunPlain(Start, ts[0]);
    } else {
      var init, t := ts[..|ts| - 1], ts[|ts| - 1];
      assert t in ts;
      assert forall u :: u in init ==> u in ts;
      RunJoin(init);
      var last := init[|init| - 1];
      assert last in ts;
      assert init == init[..|init| - 1] + [last];
      var blank := State(init, [], None, false);
      BlankEndsWord(Join(init), init[..|init| - 1], last);
      assert Run(blank, t) == State(init, t, None, false) by {
        RunPlain(blank, t);
      }
      RunAppend(Start, Join(init) + [' '], t);
    }
  }

  /** A blank after a word, outside any region, emits the word. */
  lemma BlankEndsWord(p: string, done: seq<Token>, w: Token)
    requires w != [] && Run(Start, p) == State(done, w, None, false)
    ensures Run(Start, p + [' ']) == State(done + [w], [], None, false)
  {
  }

  /** Joining non-empty plain tokens with single spaces and tokenizing again
      gives the same tokens back. */
  lemma JoinRoundTrip(ts: seq<Token>)
    requires forall t :: t in ts ==> t != [] && Plain(t)
    ensures Tokenize(Join(ts)) == ts
  {
    if ts != [] {
      RunJoin(ts);
      assert ts[|ts| - 1] in ts;
      assert ts == ts[..|ts| - 1] + [ts[|ts| - 1]];
    }
  }

  /** Re-tokenizing the space-joined tokens of an input without quote
      characters or backslashes changes nothing. */
  lemma RetokenizeIsStable(input: string)
    requires Unquoted(input)
    ensures Tokenize(Join(Tokenize(input))) == Tokenize(input)
  {
    var ts := Tokenize(input);
    QuoteFreeTokensAreUnbroken(input);
    TokenCharsFromInput(input);
    JoinRoundTrip(ts);
  }
}
