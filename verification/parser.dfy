/** The CSV parser: each rule maps the remaining input to a decoded value and the input it
    leaves unconsumed. All inputs are complete (nothing more arrives later), so a rule that
    reaches the end of the input stops there rather than asking for more. */
module Parser {
  import opened Wrappers
  import opened Strings
  import opened CsvSyntax
  import opened CsvErrors

  /** `match_inside_quotes`: decodes the interior of a quoted field. It repeatedly takes a
      maximal run of non-quote characters (kept verbatim) or a doubled quote (kept as one
      quote), and stops at a lone quote or at the end of the input. It never fails.
      The consumed text is exactly the escaped form of the decoded value. */
  function InsideQuotes(s: string): (r: (string, string))
    ensures Escape(r.0) + r.1 == s
    ensures r.1 == [] || (r.1[0] == Quote && (|r.1| == 1 || r.1[1] != Quote))
    decreases |s|
  {
    var split := TakeWhile(s, NotQuote);
    var run, rest := split.0, split.1;
    if run != [] then
      var inner := InsideQuotes(rest);
      var more, rest' := inner.0, inner.1;
      EscapePlainPrefix(run, more, rest');
      (run + more, rest')
    else if |s| >= 2 && s[0] == Quote && s[1] == Quote then
      var inner := InsideQuotes(s[2..]);
      var more, rest' := inner.0, inner.1;
      EscapedQuotePair(s, more, rest');
      ([Quote] + more, rest')
    else
      assert Escape([]) == [];
      ([], s)
  }

  /** After optional spaces and tabs, `s` opens a quoted field. */
  predicate OpensQuote(s: string) {
    s != [] && (s[0] == Quote || (IsSpace(s[0]) && OpensQuote(s[1..])))
  }

  lemma {:induction false} OpensQuoteAfterSpaces(s: string)
    ensures var t := TakeWhile(s, IsSpace).1; OpensQuote(s) <==> t != [] && t[0] == Quote
  {
    if s != [] && IsSpace(s[0]) {
      OpensQuoteAfterSpaces(s[1..]);
    }
  }

  /** The first alternative of `cell`: optional spaces, an opening quote, the decoded
      interior, a closing quote or the end of the input, optional spaces. `None` when the
      alternative does not match, in which case `cell` backtracks to the unquoted one. It
      matches exactly when an opening quote follows the leading spaces: the decoder always
      stops where a closing quote or the end of the input is. */
  function QuotedCell(s: string): (r: Option<(string, string)>)
    ensures r.Some? <==> OpensQuote(s)
    ensures r.Some? ==> IsSuffix(r.value.1, s) && |r.value.1| < |s|
    ensures r.Some? ==> r.value.1 == [] || !IsSpace(r.value.1[0])
  {
    OpensQuoteAfterSpaces(s);
    var spaces := TakeWhile(s, IsSpace);
    var afterSpace := spaces.1;
    if afterSpace == [] || afterSpace[0] != Quote then None
    else
      var inner := InsideQuotes(afterSpace[1..]);
      var content, rest := inner.0, inner.1;
      SuffixOfConcat(spaces.0, afterSpace);
      SuffixOfConcat(Escape(content), rest);
      SuffixAfterFirst(afterSpace, s, rest);
      if rest != [] && rest[0] == Quote then
        var trailing := TakeWhile(rest[1..], IsSpace);
        SuffixOfConcat(trailing.0, trailing.1);
        SuffixAfterFirst(rest, s, trailing.1);
        Some((content, trailing.1))
      else if rest == [] then
        Some((content, TakeWhile(rest, IsSpace).1))
      else
        None
  }

  /** The second alternative of `cell`: the longest run of characters that are neither a
      comma nor a newline, possibly empty. It always matches. */
  function UnquotedCell(s: string): (r: (string, string))
    ensures r.0 + r.1 == s
    ensures All(r.0, IsCellChar)
    ensures r.1 == [] || !IsCellChar(r.1[0])
  {
    TakeWhile(s, IsCellChar)
  }

  /** `cell`: the quoted alternative, else the unquoted one. It never fails, it consumes at
      least one character unless the input is empty or starts with a delimiter, and without
      an opening quote it is exactly the longest delimiter-free prefix. */
  function Cell(s: string): (r: (string, string))
    ensures IsSuffix(r.1, s)
    ensures s != [] && IsCellChar(s[0]) ==> |r.1| < |s|
    ensures OpensQuote(s) ==> Some(r) == QuotedCell(s)
    ensures !OpensQuote(s) ==>
              r.0 + r.1 == s && All(r.0, IsCellChar) && (r.1 == [] || !IsCellChar(r.1[0]))
  {
    match QuotedCell(s)
    case Some(quoted) => quoted
    case None => UnquotedCell(s)
  }

  /** The repetition inside `separated_list` after its first element: a comma and a cell,
      for as long as a comma follows. Each separating comma it reads is followed by one cell;
      commas inside a quoted cell are that cell's content. */
  function MoreCells(s: string): (r: (Row, string))
    ensures IsSuffix(r.1, s)
    ensures r.1 == [] || r.1[0] != Comma
    ensures s != [] && s[0] == Comma ==> |r.1| < |s| && |r.0| >= 1
    ensures (s == [] || s[0] != Comma) ==> r == ([], s)
    decreases |s|
  {
    if s != [] && s[0] == Comma then
      var (c, rest) := Cell(s[1..]);
      var (more, rest') := MoreCells(rest);
      SuffixTransitive(rest', rest, s[1..]);
      SuffixTransitive(rest', s[1..], s);
      ([c] + more, rest')
    else
      ([], s)
  }

  /** `many_cells`: comma-separated cells. The first cell may be empty, so an empty line
      reads as one empty cell. It never fails, stops before anything but a comma, and
      consumes at least one character unless the input is empty or starts with a newline. */
  function ManyCells(s: string): (r: (Row, string))
    ensures |r.0| >= 1
    ensures IsSuffix(r.1, s)
    ensures r.1 == [] || r.1[0] != Comma
    ensures s != [] && s[0] != Newline ==> |r.1| < |s|
  {
    var (c, rest) := Cell(s);
    var (more, rest') := MoreCells(rest);
    SuffixTransitive(rest', rest, s);
    ([c] + more, rest')
  }

  /** `consume_newlines`: skips a run of newlines, possibly empty. It never fails. */
  function ConsumeNewlines(s: string): (r: string)
    ensures IsSuffix(r, s)
    ensures All(s[..|s| - |r|], IsNewline)
    ensures r == [] || r[0] != Newline
    ensures s != [] && s[0] == Newline ==> |r| < |s|
    ensures s == [] || s[0] != Newline ==> r == s
  {
    var (run, rest) := TakeWhile(s, IsNewline);
    assert s[..|s| - |rest|] == run;
    rest
  }

  /** The loop of `csv`: while input remains, skip newlines and read a row; the first row
      whose width differs from `width` stops the loop with a column-count error whose line
      number is the number of rows accepted so far plus one. Every iteration shortens the
      remaining input, so the loop terminates. */
  function Rows(rest: string, width: nat, acc: Table): (r: Result<Table, CsvError>)
    ensures r.Ok? ==>
              acc <= r.value
              && forall i :: |acc| <= i < |r.value| ==> |r.value[i]| == width
    ensures r.Err? ==>
              && r.error.UnequalColumns?
              && |acc| < r.error.size.lineNo
              && r.error.size.expectedSize == width
              && r.error.size.actualSize != width
    decreases |rest|
  {
    if rest == [] then Ok(acc)
    else
      var next := ConsumeNewlines(rest);
      var read := ManyCells(next);
      var row, rest' := read.0, read.1;
      RowProgress(rest, next, row, rest');
      if |row| != width then Err(UnequalColumns(SizeError(|acc| + 1, width, |row|)))
      else
        var r := Rows(rest', width, acc + [row]);
        if r.Ok? then AcceptedRows(acc, row, r.value, width); r else r
  }

  /** Each iteration of the loop consumes input. */
  lemma RowProgress(rest: string, next: string, row: Row, rest': string)
    requires rest != [] && next == ConsumeNewlines(rest) && (row, rest') == ManyCells(next)
    ensures |rest'| < |rest|
  {
  }

  /** Rows accepted after `row` keep everything accepted before it. */
  lemma AcceptedRows(acc: Table, row: Row, rows: Table, width: nat)
    requires |row| == width && acc + [row] <= rows
    requires forall i :: |acc| + 1 <= i < |rows| ==> |rows[i]| == width
    ensures acc <= rows && forall i :: |acc| <= i < |rows| ==> |rows[i]| == width
  {
    assert rows[|acc|] == (acc + [row])[|acc|];
  }

  /** `csv`: reads the first row, fixes the table width to its cell count, then reads the
      remaining rows. A table it returns is non-empty and rectangular with the first row's
      width; the only error it returns is a column-count mismatch past the first row,
      whose expected width is the first row's. */
  function Csv(input: string): (r: Result<Table, CsvError>)
    ensures r.Ok? ==>
              && |r.value| >= 1
              && r.value[0] == ManyCells(input).0
              && forall i :: 0 <= i < |r.value| ==> |r.value[i]| == |r.value[0]|
    ensures r.Err? ==>
              && r.error.UnequalColumns?
              && r.error.size.lineNo >= 2
              && r.error.size.expectedSize == |ManyCells(input).0|
              && r.error.size.actualSize != r.error.size.expectedSize
  {
    var first := ManyCells(input);
    var r := Rows(first.1, |first.0|, [first.0]);
    if r.Ok? then FirstRowAccepted(first.0, r.value); r else r
  }

  /** A table that extends the one-row table `[row]` with rows of `row`'s width starts with
      `row` and is rectangular. */
  lemma FirstRowAccepted(row: Row, rows: Table)
    requires [row] <= rows && forall i :: 1 <= i < |rows| ==> |rows[i]| == |row|
    ensures |rows| >= 1 && rows[0] == row && forall i :: 0 <= i < |rows| ==> |rows[i]| == |rows[0]|
  {
    assert rows[0] == [row][0];
  }
}
