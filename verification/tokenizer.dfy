/**
 The line tokenizer of the dsh shell: one left-to-right pass over the
 characters of a line, driven by a small state record (the tokens emitted so
 far, the token being built, the active quote character and the
 escape-pending flag). The tokenizer never fails.
 */
module Tokenizer {
  import opened Optional

  type Token = string

  const Backslash: char := '\\'

  /** The two characters that open and close a quoted region. */
  predicate IsQuote(ch: char) {
    ch == '"' || ch == '\''
  }

  /** The two characters that separate tokens outside a quoted region. */
  predicate IsBlank(ch: char) {
    ch == ' ' || ch == '\t'
  }

  /** The characters the tokenizer may consume without copying them into a token. */
  predicate IsSpecial(ch: char) {
    ch == Backslash || IsQuote(ch) || IsBlank(ch)
  }

  datatype State = State(tokens: seq<Token>, token: Token, quote: Option<char>, escape: bool)

  /** The state at the start of every call: nothing emitted, empty buffer,
      no quoted region, no pending escape. */
  const Start: State := State([], [], None, false)

  /** Consume one character. The arms follow the order in which the source
      matches them: backslash, quote characters, blanks outside a quoted
      region, and everything else. */
  function Step(s: State, ch: char): (r: State)
    // emitted tokens are never retracted, and the only token ever emitted is the buffer,
    // after which the buffer starts over
    ensures r.tokens == s.tokens || (r.tokens == s.tokens + [s.token] && r.token == [])
    // without an emission the buffer is kept or grows by exactly this character
    ensures r.tokens == s.tokens ==> r.token == s.token || r.token == s.token + [ch]
    // a character that is not copied into the buffer is a backslash, a quote or a blank
    ensures r.token == s.token + [ch] || IsSpecial(ch)
    // a token is emitted by a blank outside a region or by the closing quote
    ensures r.tokens != s.tokens ==> (IsBlank(ch) && s.quote.None?) || (s.quote == Some(ch) && !s.escape)
    // an empty token is emitted only by the closing quote
    ensures r.tokens != s.tokens && s.token == [] ==> s.quote == Some(ch) && !s.escape
    // only an unescaped quote character opens or closes a region
    ensures r.quote != s.quote ==> IsQuote(ch) && !s.escape
    // an unescaped quote outside a region opens one, without flushing the buffer
    ensures s.quote.None? && IsQuote(ch) && !s.escape ==> r.quote == Some(ch) && r.tokens == s.tokens && r.token == s.token
    // the same quote character, unescaped, closes the region and emits the buffer even when empty
    ensures IsQuote(ch) && s.quote == Some(ch) && !s.escape ==> r.quote.None? && r.tokens == s.tokens + [s.token] && r.token == []
    // inside a region every character but the backslash and the closing quote is literal
    ensures s.quote.Some? && ch != s.quote.value && ch != Backslash ==> r == s.(token := s.token + [ch], escape := false)
    // outside a region a blank always ends the token, even right after a backslash
    ensures s.quote.None? && IsBlank(ch) ==> r.token == [] && r.quote.None? && !r.escape
    // an escaped backslash or quote character is copied literally and changes no region
    ensures s.escape && (ch == Backslash || IsQuote(ch)) ==> r == s.(token := s.token + [ch], escape := false)
    // an escape is pending exactly after an unescaped backslash
    ensures r.escape <==> ch == Backslash && !s.escape
    // an unescaped backslash is consumed: it only arms the escape, and nothing is copied
    ensures ch == Backslash && !s.escape ==> r == s.(escape := true)
    // an ordinary character is copied; a backslash before it has already been dropped
    ensures !IsSpecial(ch) ==> r == s.(token := s.token + [ch], escape := false)
  {
    if ch == Backslash then
      if s.escape then s.(token := s.token + [ch], escape := false)
      else s.(escape := true)
    else if IsQuote(ch) then
      if s.escape then s.(token := s.token + [ch], escape := false)
      else if s.quote == Some(ch) then s.(tokens := s.tokens + [s.token], token := [], quote := None)
      else if s.quote.None? then s.(quote := Some(ch))
      else s.(token := s.token + [ch])
    else if IsBlank(ch) && s.quote.None? then
      var flushed := if s.token != [] then s.(tokens := s.tokens + [s.token], token := []) else s;
      flushed.(escape := false)
    else
      s.(token := s.token + [ch], escape := false)
  }

  /** Consume a whole string, one Step per character, left to right.
      The recursion peels off the LAST character, so that
      Run(s, p + [c]) == Step(Run(s, p), c) mirrors one iteration of the loop. */
  function Run(s: State, input: string): (r: State)
    // tokens emitted before the run are kept, in order, as a prefix
    ensures s.tokens <= r.tokens
    decreases |input|
  {
    if input == [] then s
    else Step(Run(s, input[..|input| - 1]), input[|input| - 1])
  }

  /** End of input: a non-empty buffer becomes the last token; an open region
      or a pending escape is silently discarded. */
  function Flush(s: State): seq<Token> {
    if s.token != [] then s.tokens + [s.token] else s.tokens
  }

  function Tokenize(input: string): seq<Token> {
    Flush(Run(Start, input))
  }

  /** The loop as the source writes it, with the state held in four mutable
      locals; it computes exactly Tokenize. */
  method TokenizeByLoop(input: string) returns (tokens: seq<Token>)
    ensures tokens == Tokenize(input)
  {
    tokens := [];
    var token: Token := [];
    var quote: Option<char> := None;
    var escape := false;
    var i := 0;
    while i < |input|
      invariant 0 <= i <= |input|
      invariant State(tokens, token, quote, escape) == Run(Start, input[..i])
    {
      var ch := input[i];
      assert input[..i + 1][..i] == input[..i];
      if ch == Backslash {
        if escape {
          token := token + [ch];
          escape := false;
        } else {
          escape := true;
        }
      } else if ch == '"' || ch == '\'' {
        if escape {
          token := token + [ch];
          escape := false;
        } else if quote == Some(ch) {
          quote := None;
          tokens := tokens + [token];
          token := [];
        } else if quote.None? {
          quote := Some(ch);
        } else {
          token := token + [ch];
        }
      } else if (ch == ' ' || ch == '\t') && quote.None? {
        if token != [] {
          tokens := tokens + [token];
          token := [];
        }
        escape := false;
      } else {
        if escape {
          escape := false;
        }
        token := token + [ch];
      }
      i := i + 1;
    }
    assert input[..i] == input;
    if token != [] {
      tokens := tokens + [token];
    }
  }
}
