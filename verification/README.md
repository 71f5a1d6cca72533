# dsh line tokenizer and command dispatch

`dsh` is a minimal interactive shell. It reads one line from the operator,
splits it into tokens according to its quoting and escaping rules, takes the
first token as the program to launch and the remaining tokens as its
arguments, and relays the child's output. This project models the part with
real logic: the tokenizer `tokenize` of `src/bin/dsh.rs` and the split of
its token sequence into program and arguments in `run_command`.

The modules are:

- `Optional`: the `Option` datatype.
- `Tokenizer`: the tokenizer state (`tokens`, `token`, `quote`, `escape`), one
  `Step` per character with the source's match arms in the source's order,
  the left-to-right fold `Run`, the end-of-input `Flush`, `Tokenize`, and
  `TokenizeByLoop`, the imperative loop of the source proved equal to
  `Tokenize`.
- `TokenizerFacts`: how runs compose, and the properties of `Tokenize`:
  quoted regions, blanks, escapes, where empty tokens can come from, which
  characters are dropped, an independent split-on-blanks reference
  definition (`Words`), and the round trip through a space-joined line
  (`Join`).
- `TokenizerExamples`: the source's own unit test and the edge cases of the
  quoting and escaping rules, as lemmas on concrete lines.
- `Dispatcher`: the program/arguments split, the dispatch of a line as the
  shell performs it, and the corrected dispatch that removes the line
  terminator first (see Findings).

A shell user might expect an escaped blank not to separate tokens, so that
`a\ b` would be one token `a b`. In the code the blank arm (`' ' | '\t'`
outside a quoted region) is matched before the pending escape is looked at.
The blank therefore ends the token, and the escape is cleared. `a\ b`
tokenizes to `a` and `b` (`TokenizerExamples.EscapedBlankSeparates`).

## Model

| member | source | states |
|---|---|---|
| Tokenizer.Step | src/bin/dsh.rs:75-111 | One character: an unescaped backslash only arms the escape and copies nothing; an escaped one is copied. An unescaped quote opens a region without flushing, and the same quote closes it and emits the buffer even when empty. The other quote inside a region is literal. A blank outside a region ends the token even after a backslash. Other characters are copied and clear the escape. Only the buffer is ever emitted, and the escape is pending exactly after an unescaped backslash. |
| Tokenizer.Run | src/bin/dsh.rs:74-112 | Folding the characters never retracts tokens already emitted: they stay a prefix of the result. |
| Tokenizer.Flush | src/bin/dsh.rs:114-116 | End of input. It has no contract of its own: `UnterminatedRegionIsKept` and `TrailingBackslashIsDropped` state that a non-empty buffer becomes the last token and that an open region or pending escape is dropped. |
| Tokenizer.Tokenize | src/bin/dsh.rs:68-119 | The tokenizer: the fold from the empty state, then the flush. It has no contract of its own: `TokenizeByLoop` proves it equal to the source's loop, and the `TokenizerFacts` lemmas state its properties. |
| Tokenizer.TokenizeByLoop | src/bin/dsh.rs:68-119 | The source's loop over four mutable locals, plus the final flush of a non-empty buffer, returns exactly `Tokenize(input)`. |
| TokenizerFacts.RunAppend | src/bin/dsh.rs:74-112 | Tokenizing `a + b` equals tokenizing `b` starting from the state left after `a`: the loop carries no other state. |
| TokenizerFacts.RunPlain | src/bin/dsh.rs:105-110 | A run of ordinary characters with no escape pending is appended to the buffer unchanged. |
| TokenizerFacts.RunInRegion | src/bin/dsh.rs:94-96 | Inside a region, every character other than the backslash and the closing quote, blanks and the other quote included, is appended literally. |
| TokenizerFacts.RunQuoted | src/bin/dsh.rs:84-97 | A whole quoted region emits one token: the buffer before it followed by the region's body. |
| TokenizerFacts.RunBlanks | src/bin/dsh.rs:98-104 | A run of blanks outside a region emits the buffer if it is non-empty, emits no empty token, and leaves the state idle. |
| TokenizerFacts.EscapedLiteral | src/bin/dsh.rs:76-110 | A backslash followed by any character other than a blank outside a region appends that character literally and is itself dropped. An escaped backslash or quote opens or closes no region. |
| TokenizerFacts.BlankLineHasNoTokens | src/bin/dsh.rs:98-104 | An empty or blank-only line yields no tokens. |
| TokenizerFacts.QuotedRegionIsOneToken | src/bin/dsh.rs:84-97 | A line that is one quoted region yields exactly its body as a single token. |
| TokenizerFacts.UnterminatedRegionIsKept | src/bin/dsh.rs:114-116 | A region left open at end of input still yields its body if it is non-empty. The open quote is silently discarded. |
| TokenizerFacts.TrailingBackslashIsDropped | src/bin/dsh.rs:76-82 | A backslash at end of input, when no escape is already pending, changes nothing: the pending escape is discarded. |
| TokenizerFacts.EmptyTokensNeedQuotes | src/bin/dsh.rs:88-91 | Each empty token consumes one opening and one closing quote, so twice the number of empty tokens is at most the number of quote characters in the line. |
| TokenizerFacts.QuoteFreeTokensAreUnbroken | src/bin/dsh.rs:98-104 | Without quote characters, every token is non-empty and contains no blank. |
| TokenizerFacts.TokenCharsFromInput | src/bin/dsh.rs:74-116 | Every character of every token occurs in the input. |
| TokenizerFacts.TokenizeDropsOnlySpecials | src/bin/dsh.rs:74-118 | The concatenated tokens are the input with some characters deleted. Every deleted character is a backslash, a quote or a blank, and the order is kept. |
| TokenizerFacts.UnquotedInputSplitsOnBlanks | src/bin/dsh.rs:98-116 | For input with no quote and no backslash, the tokens equal an independent definition: the input cut at every blank, with the empty pieces removed. |
| TokenizerFacts.JoinRoundTrip | src/bin/dsh.rs:98-116 | Non-empty tokens without special characters, joined by single spaces, tokenize back to exactly themselves. |
| TokenizerFacts.RetokenizeIsStable | src/bin/dsh.rs:98-116 | For unquoted, unescaped input, joining the tokens with spaces and tokenizing again gives the same tokens. |
| TokenizerExamples.SourceTestQuotedStrings | src/bin/dsh.rs:127-146 | The source's unit test line yields the ten tokens its test expects, including `"escaped` and `quotes"`. |
| TokenizerExamples.EscapedBlankSeparates | src/bin/dsh.rs:98-104 | `a\ b` yields `a` and `b`: the blank arm wins over the pending escape. |
| TokenizerExamples.EscapedOrdinaryLosesBackslash | src/bin/dsh.rs:105-110 | `\n` (backslash, letter n) yields `n`: the backslash is dropped. |
| TokenizerExamples.DoubleBackslashIsOne | src/bin/dsh.rs:76-82 | Two backslashes yield one literal backslash. |
| TokenizerExamples.EmptyQuotesGiveEmptyToken | src/bin/dsh.rs:88-91 | `''` and `""` each yield one empty token. |
| TokenizerExamples.OtherQuoteIsLiteral | src/bin/dsh.rs:94-96 | `"it's"` yields `it's`: the other quote is literal inside a region. |
| TokenizerExamples.UnterminatedQuoteIsKept | src/bin/dsh.rs:114-116 | `'unterminated` yields `unterminated`. |
| TokenizerExamples.OpeningQuoteKeepsBuffer | src/bin/dsh.rs:92-93 | `ab'c d'` yields `abc d`: opening a region does not end the current token. |
| TokenizerExamples.BlankLinesGiveNothing | src/bin/dsh.rs:98-104 | The empty line and blank-only lines yield no tokens. |
| Dispatcher.Dispatch | src/bin/dsh.rs:39-45 | No tokens means no command (the successful no-op). Otherwise the first token is the program and the remaining tokens, in order, are its arguments. |
| Dispatcher.EmptyLineIsSpawned | src/bin/dsh.rs:9-11 | An empty line as read, `"\n"`, dispatches to the program named `"\n"` instead of the no-op. |
| Dispatcher.RunCommand | src/bin/dsh.rs:38-45 | The dispatch as the shell performs it, on the line exactly as read. It has no contract of its own: `EmptyLineIsSpawned`, `LineBreakReachesCommand` and `LineBreakEndsLastToken` state its behaviour. |
| Dispatcher.LineBreakEndsLastToken | src/bin/dsh.rs:9-11 | For every line read with its `"\n"`, there is a command, and its last token (the last argument, or the program when there are none) ends in `"\n"`. |
| Dispatcher.LineBreakReachesCommand | src/bin/dsh.rs:9-11 | `ls` typed on a line asks for the program `"ls\n"`, and `ls -l` passes the argument `"-l\n"`. |
| Dispatcher.StripLineBreak | src/bin/dsh.rs:9-11 | Removes exactly one trailing `"\n"` or `"\r\n"` and nothing else: a line ending in `"\r\n"` loses both characters, and one ending in `"\n"` gets shorter. The result is a prefix of the line. |
| Dispatcher.RunLine | src/bin/dsh.rs:9-11 | The corrected dispatch: the line terminator is removed before tokenizing. It has no contract of its own: `LineBreakIsNotPartOfCommand`, `BlankLineIsNoOp` and `CommandLineRoundTrip` state its behaviour. |
| Dispatcher.LineBreakIsNotPartOfCommand | src/bin/dsh.rs:39-45 | With the terminator removed, a line ending in `"\n"` or `"\r\n"` (or none) dispatches exactly like its text. The text may hold line break characters anywhere except at its end. |
| Dispatcher.BlankLineIsNoOp | src/bin/dsh.rs:41-43 | An empty or blank-only line, with or without its terminator, dispatches to no command. |
| Dispatcher.CommandLineRoundTrip | src/bin/dsh.rs:39-45 | A program and its arguments written as bare words, separated by single spaces and ended by a line break, dispatch back to the same program and arguments. |

## Left out

- Spawning the child process and relaying its stdout and stderr line by line (`src/bin/dsh.rs:47-66`). This is process and pipe I/O, and a spawn failure is an external outcome.
- The prompt loop, reading stdin, flushing stdout, and the user name from `USER`/`USERNAME` (`src/bin/dsh.rs:6-36`). These are I/O and environment access. The model starts from the line as it was read. At end of input `read_line` returns an empty line, which the loop tokenizes to nothing and then repeats without end. This is not modelled.
- Error rendering in `parse_prompt_line`. It only prints.
- `src/bin/lc.rs`, the file-tree line counter, is not part of this model.
- Characters are Dafny `char`s. Rust iterates Unicode scalar values of a UTF-8 string. The tokenizer only compares characters and copies them, so nothing depends on the encoding.

## Findings

| source | as written | input that shows it | evidently intended | confidence | as-written member | corrected member |
|---|---|---|---|---|---|---|
| src/bin/dsh.rs:9-11 | The line from `read_line` keeps its terminating `"\n"` and is tokenized as is. `"\n"` is an ordinary character to the tokenizer, so an empty line is one token `"\n"`. | the empty line, read as `"\n"` | An empty line is the no-op that `run_command` provides for no tokens (lines 41-43). | not executed | Dispatcher.EmptyLineIsSpawned | Dispatcher.BlankLineIsNoOp |
| src/bin/dsh.rs:9-11 | The same kept line break ends up inside the last token of every line. | `ls`, read as `"ls\n"`, asks for the program `"ls\n"`; `ls -l` passes the argument `"-l\n"` | The line terminator is not part of any token. | not executed | Dispatcher.LineBreakEndsLastToken | Dispatcher.LineBreakIsNotPartOfCommand |
