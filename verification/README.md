# csv_parser in Dafny

This project models csv_parser, a small CSV parser written in Rust on top of the nom parser
combinators. It parses text into a rectangular table of string cells, or returns an error
value with a human-readable message.

Each parser rule becomes a pure Dafny function from the remaining input to a decoded value
plus the unconsumed rest:

- `match_inside_quotes` becomes `Parser.InsideQuotes`.
- `cell` becomes `Parser.Cell`, with its two alternatives `QuotedCell` and `UnquotedCell`.
- `many_cells` becomes `Parser.ManyCells`, which uses `MoreCells` for the `separated_list` repetition.
- `consume_newlines` becomes `Parser.ConsumeNewlines`.
- `csv` becomes `Parser.Csv`, whose `while` loop is the recursive `Parser.Rows`. `Rows` terminates on the length of the remaining input.

The error types and their `Display` rendering are in `CsvErrors`, with decimal numbers in
`Decimal`.

Files and modules:

| file | module | contents |
|---|---|---|
| `wrappers.dfy` | `Wrappers` | `Option`, `Result` |
| `strings.dfy` | `Strings` | `TakeWhile` (the complete-input `take_while`/`space0`), suffix facts |
| `decimal.dfy` | `Decimal` | decimal rendering of naturals, and its inverse |
| `error.dfy` | `CsvErrors` | `SizeError`, `CsvError`, `Message`, and the message reader `ParseMessage` |
| `syntax.dfy` | `CsvSyntax` | delimiters and character classes, plus the reference writer `Escape`/`Quoted`/`WriteRow`/`WriteTable` |
| `parser.dfy` | `Parser` | the parser rules |
| `properties.dfy` | `ParserProperties` | round trips of the parser against the writer |
| `plainrows.dfy` | `PlainRows` | on quote-free lines, the parser equals a split at commas |
| `parser_examples.dfy` | `ParserExamples` | the unit tests of `src/parser.rs` as lemmas |

Partners the properties are stated against:

- **The reference writer in `CsvSyntax`.** It doubles every quote, wraps each field in quotes, joins fields with commas and joins rows with newlines. The writer is not part of the repository; it is the independent definition that the parser's round trips invert.
- **`PlainRows.SplitAtCommas` / `JoinWithCommas`.** A plain split at commas, for quote-free lines.
- **`CsvErrors.ParseMessage`.** A reader for the two message forms. It reads every message back as the error that produced it, so it is a left inverse of `Message`. It also accepts digit runs with leading zeros, which `Message` never writes.

Choices where the source leaves room:

- **Error payloads.** `src/parser.rs` builds `CSVError::SyntaxError` and `CSVError::UnequalColumns` without payloads, but `src/error.rs` declares them with payloads. The model uses the `src/error.rs` shape.
  - The line number of an error is the number of rows accepted so far plus one.
  - The `csv` test at `src/parser.rs:145` compares against a payload-free `UnequalColumns`. The model states the full value, `UnequalColumns(SizeError(3, 4, 3))`.
- **nom combinators.** Each combinator is given the behaviour it has on complete input, which is also the behaviour the unit tests pin down:
  - `take_while` and `space0` never fail, and return a possibly empty longest prefix.
  - `alt` backtracks to its second alternative.
  - `fold_many0` stops when neither alternative matches.
- **`separated_list` leniency.** The nom library is not part of this model. The model reads `separated_list` as accepting an empty first element, so `many_cells("")` is `[""]` (`Parser.ManyCells`). Three results depend on that reading:
  - `many_cells` never fails. (`cell` and `consume_newlines` never fail under any reading, because `take_while` and `space0` never fail.)
  - The `SyntaxError` arms of `csv` are unreachable. `Parser.Csv` proves that every error it returns is a column-count mismatch.
  - The extra `[""]` row after a trailing newline (`CsvTrailingNewline`, below) exists only because an empty line reads as one empty cell.
- **Trailing newline.** A newline after the last row is not swallowed. The loop sees input left, skips the newline, and reads one more row holding a single empty cell (`CsvTrailingNewline`). A general description of the format might treat trailing blank lines as pure separators; the model follows the code.

## Model

| member | source | states |
|---|---|---|
| Strings.TakeWhile | src/parser.rs:18 | `take_while` on complete input: the result splits the input into a prefix whose characters all satisfy the predicate, and a rest that is empty or starts with a character that fails it |
| Parser.InsideQuotes | src/parser.rs:51-63 | the decoder never fails; the text it consumes is exactly the escaped form (quotes doubled) of the value it returns; it stops at the end of the input or at a quote not followed by another quote |
| ParserProperties.InsideQuotesRoundTrip | src/parser.rs:53-61 | for every string, its escaped form followed by a lone quote (or by nothing) decodes to exactly that string, leaving the lone quote |
| Parser.OpensQuoteAfterSpaces | src/parser.rs:28-32 | after `space0`, the next character is an opening quote exactly when the input opens a quoted field |
| Parser.QuotedCell | src/parser.rs:28-38 | the quoted alternative matches exactly when an opening quote follows the leading spaces and tabs; it then consumes input, and its rest does not start with a space or tab |
| Parser.UnquotedCell | src/parser.rs:39-42 | the unquoted alternative always matches: the longest prefix free of commas and newlines (possibly empty), with the rest starting at a delimiter or empty |
| Parser.Cell | src/parser.rs:26-44 | `cell` never fails; it consumes at least one character when the input starts with neither `,` nor a newline; it takes the quoted alternative exactly when one opens, and the unquoted one otherwise |
| ParserProperties.CellQuotedRoundTrip | src/parser.rs:28-38 | a written quoted field, with any spaces and tabs before and after it, reads back as its value; the spaces are dropped and what follows is left, even when that starts with a quote after the spaces. The first cell test (lines 113-116) is the instance with one trailing space |
| ParserProperties.CellQuotedBare | src/parser.rs:26-44 | a written quoted field followed by a delimiter or by nothing reads back as its value |
| ParserProperties.CellUnterminated | src/parser.rs:34 | a quoted field never closed runs to the end of the input and reads back as its value |
| PlainRows.CellVerbatim | src/parser.rs:39-42 | a quote-free field followed by a delimiter or by nothing reads verbatim. The second cell test (lines 117-120) is an instance |
| Parser.MoreCells | src/parser.rs:47 | the repetition after the first cell stops before anything but a comma; on input that starts with a comma it consumes input and yields at least one cell, and it consumes nothing and yields no cell when no comma follows |
| Parser.ManyCells | src/parser.rs:46-48 | `many_cells` never fails and returns at least one cell; its rest is empty or does not start with a comma; it consumes input unless the input is empty or starts with a newline |
| ParserProperties.MoreCellsRoundTrip | src/parser.rs:47 | a comma followed by a written row reads back as that row's cells, stopping at a newline or the end of the input |
| ParserProperties.RowRoundTrip | src/parser.rs:46-48 | a written row followed by a newline or by nothing reads back as exactly its cells, leaving the newline |
| PlainRows.ManyCellsPlain | src/parser.rs:46-48 | on a line without quotes or newlines, `many_cells` is exactly the split at commas and consumes the whole line |
| PlainRows.ManyCellsCount | src/parser.rs:46-48 | on a line without quotes or newlines, `many_cells` returns one more cell than the commas it consumes |
| Parser.ConsumeNewlines | src/parser.rs:17-23 | `consume_newlines` never fails; it removes exactly a leading run of newlines, so its result is a suffix that does not start with one; it is the identity on input that does not start with a newline |
| ParserProperties.BlankLinesCollapse | src/parser.rs:82-84 | a run of any number of newlines between rows acts as a single row terminator for the loop |
| Parser.Rows | src/parser.rs:82-99 | the loop keeps the rows accepted before it and adds only rows of the expected width; its only error is a column-count mismatch whose line number is past the accepted rows and whose actual width differs from the expected one |
| Parser.Csv | src/parser.rs:65-102 | a table `csv` returns is non-empty and rectangular, and its first row is the first line's cells; every error is a column-count mismatch at line 2 or later whose expected width is the first row's |
| ParserProperties.RowsReadWritten | src/parser.rs:82-99 | after a row terminator, the loop accepts the rows of a written table while they have the expected width; it stops at the first row of another width with that row's line number, the expected width and the row's width |
| ParserProperties.CsvReadsWritten | src/parser.rs:65-102 | `csv` on a written table followed by a newline or nothing: a rectangular table is accepted whole; otherwise the error names the first row whose width differs from the first row's |
| ParserProperties.CsvRoundTrip | src/parser.rs:65-102 | parsing a written table gives it back exactly when it is rectangular; otherwise the result is the column-count error for its first mismatched row, with the 1-based line number, the first row's width and that row's width |
| ParserProperties.CsvTrailingNewline | src/parser.rs:82-99 | a newline after the last row yields one more row `[""]`: it is accepted in a one-column table and is a mismatch on the next line otherwise |
| PlainRows.CsvPlainLine | src/parser.rs:65-80 | a single quote-free line parses as a one-row table of its comma-separated fields |
| Decimal.NatToString | src/error.rs:22-25 | the `{}` rendering of a number is a canonical digit string (no leading zero) that denotes it |
| Decimal.NatToStringOfValue | src/error.rs:22-25 | every canonical digit string is the rendering of the number it denotes |
| CsvErrors.Message | src/error.rs:17-29 | the `Display` rendering: the two message forms with the fixed texts of lines 22 and 25, the numbers in decimal, in the order line, expected, actual; its meaning is stated by the round trip and injectivity rows below |
| CsvErrors.MessageRoundTrip | src/error.rs:17-29 | every error's message reads back as that error: the numbers appear in decimal, in the order line, expected and actual, between the fixed texts of the two formats |
| CsvErrors.UnequalRoundTrip | src/error.rs:20-24 | a column-count message reads back as its three numbers |
| CsvErrors.SyntaxRoundTrip | src/error.rs:25 | a syntax-error message reads back as its line number |
| CsvErrors.MessageInjective | src/error.rs:19-26 | different errors render different messages, within a variant and across the two variants |
| ParserExamples.InsideQuotesExample | src/parser.rs:105-109 | the quote test: quote-free text, four quotes, quote-free text and a closing quote decode to the text with two quotes, leaving the closing quote |
| ParserExamples.UnterminatedCellExample | src/parser.rs:121-124 | the third cell test: an opening quote followed by quote-free text (commas and newlines included) reads that text and consumes everything |
| ParserExamples.ManyCellsExample | src/parser.rs:128-140 | the `many_cells` test: plain, quoted-with-trailing-spaces, empty, plain and plain fields followed by a newline give exactly those five cells and leave the newline |
| ParserExamples.CsvExample | src/parser.rs:142-146 | the `csv` test: two four-field lines and a three-field line ending in an unclosed quoted field give `UnequalColumns(SizeError(3, 4, 3))` |

## Left out

- The nom library and the `eof!` macro (`src/parser.rs:3-15`) are given only their complete-input behaviour; the library itself is not part of this model.
- `fmt::Formatter`, `impl Error` and the derived traits (`src/error.rs:1-2`, `17-18`, `31`) are left out. The message is a plain string function. Structural equality of errors is the equality of Dafny datatypes.
- `src/lib.rs` is not part of this model. It only re-exports names, and one of them, `parse_csv`, does not exist.
- Machine-width integers are left out: `usize` widths and line numbers are unbounded naturals. No count in the parser can overflow on an input that fits in memory.
- The `SyntaxError` arms of `csv` (`src/parser.rs:74-76`, `89-91`) are unreachable under the lenient `separated_list` reading. The error arm of `consume_newlines` (`src/parser.rs:21`) is unreachable under any reading, because `take_while` never fails. So no member produces a syntax error. Its message is still modelled and proved to round-trip.
- Parser.MoreCells: its contract does not count cells per comma, because a quoted cell may contain commas. The cell count is proved only for quote-free lines (`ManyCellsCount`) and for written rows (`RowRoundTrip`).
- PlainRows.ManyCellsCount: the count "one more cell than commas consumed" is proved only for quote-free lines, because commas inside quoted fields are content, not separators. For lines with quoted fields, the cell count is given by `RowRoundTrip` instead.
- ParserExamples: the tests with quoted fields are stated over their field contents, not over the literal test strings. The literal test inputs are the instances in which:
  - `hello`, `he"llo`, `5` followed by a newline, and similar strings are the field values;
  - a single space is the whitespace parameter.

  The cell test `hello,buffalo,2` is the instance of `CellVerbatim` with field `hello`, and the quoted-cell test is an instance of `CellQuotedRoundTrip`.
