/**
 The command dispatch of the dsh shell: the token sequence of one line is
 either nothing to run, or a program name followed by its arguments.
 Spawning the program and relaying its output are not part of this model.
 */
module Dispatcher {
  import opened Optional
  import opened Tokenizer
  import opened TokenizerFacts

  datatype Command = Command(program: string, args: seq<Token>)

  /** No line break character anywhere. */
  predicate OnOneLine(s: string) {
    forall c :: c in s ==> c != '\n' && c != '\r'
  }

  /** A token that survives being written on a command line unquoted. */
  predicate BareWord(t: Token) {
    t != [] && Plain(t) && OnOneLine(t)
  }

  /** No tokens is a successful no-op; otherwise the first token names the
      program and the remaining tokens, in order, are its arguments. */
  function Dispatch(tokens: seq<Token>): (r: Option<Command>)
    ensures r.None? <==> tokens == []
    ensures r.Some? ==> [r.value.program] + r.value.args == tokens
  {
    if tokens == [] then None else Some(Command(tokens[0], tokens[1..]))
  }

  /** The dispatch as the shell performs it: the line comes straight from a
      line read that keeps its terminating line break, and is tokenized as is. */
  function RunCommand(line: string): Option<Command> {
    Dispatch(Tokenize(line))
  }

  /** The line break is an ordinary character to the tokenizer, so it stays
      inside the last token: an empty line names the program "\n" instead of
      being a no-op. */
  lemma EmptyLineIsSpawned()
    ensures RunCommand("\n") == Some(Command("\n", []))
  {
    assert Plain("\n");
    JoinRoundTrip(["\n"]);
  }

  /** For the same reason the program "ls" is asked for as "ls\n", and a last
      argument "-l" arrives as "-l\n". */
  lemma LineBreakReachesCommand()
    ensures RunCommand("ls\n") == Some(Command("ls\n", []))
    ensures RunCommand("ls -l\n") == Some(Command("ls", ["-l\n"]))
  {
    ProgramKeepsLineBreak();
    ArgumentKeepsLineBreak();
  }

  lemma ProgramKeepsLineBreak()
    ensures Tokenize("ls\n") == ["ls\n"]
  {
    assert Plain("ls\n");
    JoinRoundTrip(["ls\n"]);
  }

  lemma ArgumentKeepsLineBreak()
    ensures Tokenize("ls -l\n") == ["ls", "-l\n"]
  {
    var ts: seq<Token> := ["ls", "-l\n"];
    assert Plain("ls") && Plain("-l\n");
    assert Join(ts) == "ls -l\n" by {
      assert ts[..1] == ["ls"];
    }
    JoinRoundTrip(ts);
  }

  /** In general: whatever precedes it, the line break that ends a line read
      this way is the last character of the last argument, or of the program
      name when there are no arguments. */
  lemma LineBreakEndsLastToken(text: string)
    ensures RunCommand(text + "\n").Some?
    ensures var c := RunCommand(text + "\n").value;
            var last := if c.args == [] then c.program else c.args[|c.args| - 1];
            last != [] && last[|last| - 1] == '\n'
  {
  }

  /** The line without its terminator: one trailing "\n" or "\r\n" is removed. */
  function StripLineBreak(line: string): (r: string)
    ensures r <= line
    ensures line == r || line == r + "\n" || line == r + "\r\n"
    ensures |line| > 0 && line[|line| - 1] == '\n' ==> |r| < |line|
    ensures |line| >= 2 && line[|line| - 2..] == "\r\n" ==> r == line[..|line| - 2]
  {
    if |line| >= 2 && line[|line| - 2..] == "\r\n" then line[..|line| - 2]
    else if |line| >= 1 && line[|line| - 1] == '\n' then line[..|line| - 1]
    else line
  }

  /** The dispatch with the line terminator removed before tokenizing. */
  function RunLine(line: string): Option<Command> {
    Dispatch(Tokenize(StripLineBreak(line)))
  }

  /** The text of a line does not itself end in a line break character. */
  predicate Unterminated(text: string) {
    |text| > 0 ==> text[|text| - 1] != '\n' && text[|text| - 1] != '\r'
  }

  /** With the terminator removed, a line dispatches exactly like its text. */
  lemma LineBreakIsNotPartOfCommand(text: string)
    requires Unterminated(text)
    ensures RunLine(text + "\n") == Dispatch(Tokenize(text))
    ensures RunLine(text + "\r\n") == Dispatch(Tokenize(text))
    ensures RunLine(text) == Dispatch(Tokenize(text))
  {
    var n := text + "\n";
    var rn := text + "\r\n";
    assert n[..|n| - 1] == text;
    assert rn[..|rn| - 2] == text;
    assert rn[|rn| - 2..] == "\r\n";
    if |n| >= 2 {
      assert n[|n| - 2] == text[|text| - 1];
    }
  }

  /** An empty or blank-only line, with or without its terminator, runs nothing. */
  lemma BlankLineIsNoOp(text: string)
    requires AllBlank(text)
    ensures RunLine(text + "\n") == None
    ensures RunLine(text + "\r\n") == None
    ensures RunLine(text) == None
  {
    if |text| > 0 {
      assert text[|text| - 1] in text;
    }
    LineBreakIsNotPartOfCommand(text);
    BlankLineHasNoTokens(text);
  }

  /** A command written as its program and arguments separated by single
      spaces, then a line break, dispatches to that same program and arguments. */
  lemma CommandLineRoundTrip(program: Token, args: seq<Token>)
    requires BareWord(program)
    requires forall a :: a in args ==> BareWord(a)
    ensures RunLine(Join([program] + args) + "\n") == Some(Command(program, args))
  {
    var ts := [program] + args;
    assert forall t :: t in ts ==> BareWord(t);
    JoinRoundTrip(ts);
    JoinCharsFromTokens(ts);
    var line := Join(ts);
    if |line| > 0 {
      assert line[|line| - 1] in line;
    }
    LineBreakIsNotPartOfCommand(line);
    assert ts[1..] == args;
  }

  /** Every character of a space-joined line is a space or a token character. */
  lemma {:induction false} JoinCharsFromTokens(ts: seq<Token>)
    ensures forall c :: c in Join(ts) ==> c == ' ' || exists t :: t in ts && c in t
    decreases |ts|
  {
    if |ts| > 1 {
      var init := ts[..|ts| - 1];
      JoinCharsFromTokens(init);
      assert forall t :: t in init ==> t in ts;
      assert ts[|ts| - 1] in ts;
    } else if |ts| == 1 {
      assert ts[0] in ts;
    }
  }
}
