# datadriven core, modelled in Dafny

This project models the core of `datadriven`, a Go library for data-driven
tests. A test file is a sequence of records. Each record has a directive
line (a command and its arguments), an input block, a `----` separator line
and the expected output. The model covers three parts of the library:

- **The directive parser** (`line_parser.go`). `splitDirectives` cuts a
  directive line into tokens by repeatedly matching a fixed regular
  expression at the front of the line. `ParseLine` turns the tokens into a
  command and an ordered list of `CmdArg`s (`key`, `key=value` or
  `key=(v1, v2, ...)`). In the model:
  - the regular expression is written twice: once as a hand-written matcher
    (`MatchToken`) and once as a grammar predicate (`TokenAt`);
  - both are proved to agree;
  - the tokenizer is specified by a pure function (`Tokenize`);
  - the Go loops are methods proved against that function.
- **The test-file reader** (`test_data_reader.go`). The model keeps the Go
  object: a `TestDataReader` class with
  - a line scanner,
  - the record being assembled,
  - an optional rewrite buffer that echoes the lines read in recording mode.

  `Next` is proved against a function `Seek` of the file's lines and the
  scanner position. `Seek` gives whether a record was found, the record
  itself, where the scanner stops and which lines were echoed.
  `readExpected` is proved against `ExpectedFrom`, which has two forms:
  - the single-separator form stops at a blank line;
  - the double-separator form stops at two consecutive `----` lines.
- **The diagram whiteboard** (`diagram/whiteboard.go`). This is an unbounded
  grid of spaces. Text can be written at any line and column, including
  negative ones. The model keeps `Whiteboard` as a class:
  - the `seq` of lines is reassigned in place;
  - `Write` and `getLine` are stated cell by cell through `Cell`;
  - `Indented` and `String` are proved to produce one row per line, with the
    common left margin removed.

Files:
- `wrappers.dfy`: `Option` and `Result`.
- `strings.dfy`: the parts of Go's `strings` and `fmt` packages that the
  core uses, over strings as sequences of runes.
- `line_parser.dfy`: module `LineParser`.
- `test_data_reader.dfy`: module `DataReader`.
- `whiteboard.dfy`: module `Diagram`.

Three behaviours of the code are easy to miss. The model follows the code
in each case:

- **Characters allowed in a command or key.** The token regular expression
  at `line_parser.go:61` allows ASCII letters and digits, `-`, `_`, `,` and
  `.`. So a command or key may hold a comma but not a slash. `IsWordChar`
  follows this.
- **What a parse error reports.** An older, one-argument `ParseLine` is what
  `datadriven_test.go:56-79` exercises, and it reported a column. This
  version's `splitDirectives` reports only the part of the line that is left
  unmatched (`line_parser.go:76`). `ParseError(pos, rest)` and
  `TokenizeFailure` follow this.
- **Whether a parse error stops the test.** It does not. `ParseLine`
  discards the error at `line_parser.go:31-33` and returns an empty command
  and no error. The reader then skips such a line as if it were blank.
  `ParseLine` proves `err == None`. As a result, the `t.Fatalf` branch at
  `test_data_reader.go:74-76` can never be taken.

## Model

| member | source | states |
|---|---|---|
| LineParser.MatchTokenIsGrammar | line_parser.go:61 | The hand-written matcher returns n > 0 exactly when the first n runes match the token regular expression: spaces, a word run, then an optional `=value` or `=(...)`, then a space or the end of the line. Both directions are proved. |
| LineParser.TrimmedChunk | line_parser.go:61-78 | The token kept for a matched chunk is the word and its value, without the leading spaces or the trailing space. |
| LineParser.SplitDirectives | line_parser.go:70-82 | The loop succeeds exactly when `Tokenize` succeeds, and then returns its tokens. On failure the error carries the position and the unmatched remainder of the line. |
| LineParser.TokenizeFailure | line_parser.go:73-77 | A failure's remainder is a non-empty suffix of the line, and no token of the grammar matches at its start. |
| LineParser.TokenizeSound | line_parser.go:73-81 | A successful split comes from cutting the whole line into consecutive grammar matches. Each token is its chunk, trimmed. |
| LineParser.TokenizeComplete | line_parser.go:73-81 | Any way of cutting the line into consecutive grammar matches is the one the loop follows, and yields exactly those chunks, trimmed. |
| LineParser.TokenizeFailsIffNoChunking | line_parser.go:70-82 | The split fails if and only if the line cannot be cut into grammar matches. |
| LineParser.ChunkingConcat | line_parser.go:78-79 | The matched chunks are non-empty and concatenate back to the line, so the loop consumes the line entirely. |
| LineParser.TokensAreTrimmed | line_parser.go:78 | Every token is non-empty, starts with a word rune and has no white space at either end. |
| LineParser.ParseArgument | line_parser.go:41-56 | One loop iteration equals `ParseArg`:<br>• no `=`: a bare key;<br>• otherwise the key before the first `=`, and as values either the trimmed comma-separated pieces of a `(...)` value longer than two runes, or the value kept verbatim. |
| LineParser.ParseArguments | line_parser.go:40-57 | One argument per token, in order, and repeated keys are kept. |
| LineParser.ParseLine | line_parser.go:30-59 | The error is always nil. A line that fails to split or has no tokens gives an empty command and no arguments. Otherwise the command is the first token, followed by the arguments of the other tokens. |
| LineParser.EmptyCommand | line_parser.go:31-37 | The command is empty if and only if the split fails or gives no token. An empty command comes with no arguments. |
| LineParser.FirstTokenNonEmpty | line_parser.go:35-38 | When there are tokens, the first one, which becomes the command, is non-empty. |
| LineParser.CommandAndArgs | line_parser.go:38-57 | The command is the first token. There is one argument per later token, in order. |
| LineParser.EmptyLineIsNoDirective | line_parser.go:35-37 | An empty line gives no command, no arguments and no error. |
| LineParser.BareArg | line_parser.go:41-43 | A token without `=` is a key with no values. |
| LineParser.KeyValueArg | line_parser.go:43-54 | With an `=`, the key is everything before the first `=` and contains no `=`. A value that is not a `(...)` of more than two runes is the single value, kept verbatim. |
| LineParser.ListArg | line_parser.go:47-51 | `key=(inner)` with a non-empty inner part gives the trimmed comma-separated pieces of `inner`, one more than there are commas. |
| LineParser.ArgTextParses | line_parser.go:40-57 | A well-formed argument written as its token parses back to itself. The token is `key`, `key=value` for one unparenthesized value, or `key=(v1,...,vn)`. |
| LineParser.TokenizeJoin | line_parser.go:70-82 | Tokens that each match the grammar in full, joined by single spaces, split back into exactly those tokens. |
| LineParser.SerializeRoundTrip | line_parser.go:30-82 | Writing a command and well-formed arguments out as a directive line, then parsing it, gives back the command and the arguments in order. Well-formed means:<br>• commands and keys are non-empty words;<br>• a single value is a run of value runes;<br>• list values are trimmed and hold no `,` or `)`. |
| Strings.SplitCount | line_parser.go:48 | `strings.Split` gives one more piece than there are separators. |
| Strings.JoinSplit | line_parser.go:48 | Joining the pieces of a split gives back the string. |
| Strings.SplitJoin | line_parser.go:48 | Splitting a join of separator-free pieces gives back the pieces. |
| Strings.TrimSpaceFacts | line_parser.go:50 | `TrimSpace` removes exactly the white space at both ends. |
| DataReader.LineScanner.Scan | test_data_reader.go:54 | Advances one line when one is left, and reports whether it did. |
| DataReader.TestDataReader.constructor | test_data_reader.go:33-48 | A fresh scanner at line 0 and an empty record. The rewrite buffer is present and empty exactly when recording. |
| DataReader.TestDataReader.Emit | test_data_reader.go:160-165 | Appends the line and a newline to the rewrite buffer when there is one. Otherwise nothing changes. |
| DataReader.TestDataReader.ScanEmit | test_data_reader.go:54-56 | Scans a line and echoes it to the rewrite buffer. |
| DataReader.TestDataReader.Next | test_data_reader.go:50-106 | Result, record, final scanner position and rewrite buffer are those of `Seek`: skip comments and lines without a command, join continuations, then read the input and expected output of the first directive. |
| DataReader.TestDataReader.JoinContinuation | test_data_reader.go:66-70 | Joins lines that end in a backslash with the trimmed next line, echoing every line consumed. |
| DataReader.TestDataReader.ReadBlock | test_data_reader.go:85-102 | The input is the trimmed text of the lines up to the first `----`, each echoed. The expected output is read only when a separator was found. |
| DataReader.TestDataReader.ReadInput | test_data_reader.go:85-96 | Collects and echoes the lines before the first separator. The separator is consumed and not echoed. |
| DataReader.TestDataReader.ReadExpected | test_data_reader.go:108-158 | The expected output is `Unlines` of `ExpectedFrom`'s lines, and the scanner stops where it says. Nothing is echoed. |
| DataReader.TestDataReader.ReadDouble | test_data_reader.go:120-139 | The double-separator loop equals `DoubleFrom`. |
| DataReader.TestDataReader.ReadSingle | test_data_reader.go:140-155 | The single-separator loop equals `SingleFrom`. |
| DataReader.ExpectedForms | test_data_reader.go:108-158 | With nothing after the separator the expected output is empty. A second `----` selects the form that runs to the next pair of separators, blank lines allowed. Otherwise the output runs to the first blank line and holds no blank line. |
| DataReader.DoubleFromIs | test_data_reader.go:120-139 | The double form keeps every line up to the first pair of consecutive separators and consumes the pair. Without a pair it runs to the end of the file. |
| DataReader.SingleFromIs | test_data_reader.go:140-155 | The single form keeps every line up to the first white-space-only line and consumes it. Without one it runs to the end of the file. |
| DataReader.FindSeparatorIs | test_data_reader.go:87-92 | The input ends at the first `----` line. |
| DataReader.ContinueStops | test_data_reader.go:66-70 | Joining stops only at a line without a trailing backslash or at the end of the file. A line without a backslash is left as it is. |
| DataReader.SeekNotFound | test_data_reader.go:53-105 | When `Next` returns false, it has consumed and echoed every remaining line and left the record empty. |
| DataReader.SeekEchoes | test_data_reader.go:54-94 | `Next` echoes the unread lines in order up to its record's separator. The separator and the expected output are never echoed. A record found has a non-empty command. |
| DataReader.BlockContents | test_data_reader.go:85-102 | The input is the trimmed text of the lines between the directive and the separator, none of which is a separator. The expected output is empty or ends in a newline. |
| DataReader.EchoLine | test_data_reader.go:160-165 | Echoing one more line extends the buffer by that line and a newline. |
| Strings.UnlinesEnd | test_data_reader.go:95 | `Fprintln` output is empty exactly when no line was printed, and otherwise ends in a newline. |
| Diagram.Whiteboard.constructor | diagram/whiteboard.go:26-29 | The zero whiteboard has no lines. |
| Diagram.Whiteboard.GetLine | diagram/whiteboard.go:73-89 | Line `lineIdx` exists afterwards and is returned. On an empty board it becomes the only line. Otherwise empty lines are added before or after, existing lines keep their absolute index, and no cell changes. |
| Diagram.Whiteboard.Write | diagram/whiteboard.go:39-71 | Afterwards the cell at (`lineIdx`, `colIdx + i`) holds rune i of `s`, and every other cell is unchanged. The board's extent is the one `getLine` gives: on an empty board, the one line `lineIdx`; otherwise it grows just enough to reach `lineIdx`. A line never written takes `s` as its buffer from `colIdx`. Other lines are carried over from `getLine`. |
| Diagram.ExtendLeft | diagram/whiteboard.go:48-63 | The buffer grows to the left to start at or before `colIdx`, by at least half its length. The new cells are spaces, and every column keeps its rune. |
| Diagram.ExtendRight | diagram/whiteboard.go:65-67 | The buffer grows to the right with spaces until it reaches the end of the write, and every column keeps its rune. |
| Diagram.CopyAt | diagram/whiteboard.go:69-70 | `copy` puts the runes at their columns and leaves every other column as it was. |
| Diagram.CountLeadingBlanks | diagram/whiteboard.go:105-107 | Counts the spaces that start a buffer. |
| Diagram.Whiteboard.Indented | diagram/whiteboard.go:98-126 | An empty board renders as "". Otherwise there is one row per line, in order, each with `indent` spaces, the line shifted left by the margin, and a newline. The margin is the least first non-space column over all lines, and it fits every line. |
| Diagram.Whiteboard.String | diagram/whiteboard.go:92-94 | `Indented` with no indentation. |
| Diagram.MarginIsLeast | diagram/whiteboard.go:102-112 | The margin is at or left of every line's first non-space column. Unless it is `MaxInt`, some line starts there. |
| Diagram.MarginCutsBlanks | diagram/whiteboard.go:116-121 | Every column left of the margin is a space on every line, so removing the margin drops only spaces. |
| Diagram.GapLineMargin | diagram/whiteboard.go:76-86 | On a valid board, a line that has no buffer, which only `getLine` can add, counts as starting at column 0, so it holds the margin at 0 or left of it. |
| Diagram.RowCells | diagram/whiteboard.go:115-123 | A row is `indent` spaces, then the line's cells from the margin to the end of its buffer. |
| Diagram.RenderedCell | diagram/whiteboard.go:98-126 | Rune `indent + x` of row j is the whiteboard's cell at line `firstLineIdx + j`, column `margin + x`. |

## Left out

- **`driver.go`, `yamldriven.go`, `test_interface.go` and the tests.** They
  drive the reader from `testing.T` and rewrite files on disk, and they are
  not part of this model. `datadriven_test.go` exercises the error text of a
  different, one-argument version of `ParseLine` that reported column positions.
- **`t.Helper` and `t.Fatalf`** (`test_data_reader.go:51`, `74-76`). These
  are calls into the test framework. The `Fatalf` branch is unreachable
  because `ParseLine` never returns an error.
- **`lineScanner` and the `io.Reader`.** The file arrives as its sequence of
  lines, and `LineScanner` keeps the number of lines scanned. The scanner's
  own line splitting, buffer limits and I/O errors are not modelled. The
  rewrite buffer is an `Option<string>`: `None` is the nil `*bytes.Buffer`.
- **Integer width.** Go's `int` is 64-bit. The model uses unbounded
  integers, with `MaxInt` kept as the margin's starting value. Overflow of
  column or line indices near the limits of `int` is not modelled.
- **Bytes and runes.** Strings are sequences of runes. `ParseLine` indexes
  bytes (`val[0]`, `len(val) > 2`, `arg[:pos]`). This agrees with the model
  on ASCII text, which is all the token grammar admits, except for text
  inside `(...)`. The whiteboard converts to runes explicitly, as the model
  does. Invalid UTF-8 is not modelled.
- **Go slice details.** Capacity, the backing arrays shared by `append`, and
  the pointer `getLine` returns are not modelled. Buffers are sequences, and
  `Write` stores the updated line back into the sequence. Nothing else holds
  that pointer, so the observable result is the same.
- **nil versus empty slices.** A `CmdArg` without values has `vals == []`
  for Go's nil slice, and `ParseLine`'s nil argument list is `[]`. A
  whiteboard line's nil buffer, which `Indented` treats like an empty one,
  is kept apart as `None`.
- Diagram.Whiteboard.Indented: requires a non-negative indent when there are
  lines, because `strings.Repeat` panics on a negative count. With no lines,
  any indent renders as "".
- Diagram.Whiteboard.Write: for a line that already had a buffer, it states
  the new line through its cells and not through its exact `firstColIdx` and
  buffer length. `ExtendLeft` and `ExtendRight` state those.
- DataReader.LineScanner.Scan: states only the position. `Text` gives the
  line at that position.
- **Writing a directive line.** The library has no function that writes a
  directive out. `Serialize` is the model's own, and it is used only to
  state the round trip. Arguments it cannot write unambiguously have no
  round trip: list values with a comma, a `)` or white space at either end,
  and commands that are not plain words.
