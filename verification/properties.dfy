/** Properties of the parser stated against an independent partner, the reference writer of
    `CsvSyntax`: reading written text gives back what was written. */
module ParserProperties {
  import opened Wrappers
  import opened Strings
  import opened CsvSyntax
  import opened CsvErrors
  import opened Parser

  /** Where the quoted-content decoder stops: at the end of the input or at a lone quote. */
  predicate LoneQuoteOrEnd(t: string) {
    t == [] || (t[0] == Quote && (|t| == 1 || t[1] != Quote))
  }

  lemma EscapeStartsWithQuote(q: string, t: string)
    requires q != [] && q[0] == Quote
    ensures (Escape(q) + t)[0] == Quote
  {
  }

  /** Decoding inverts escaping: the escaped form of any string, followed by a lone quote or
      by nothing, decodes to exactly that string and stops before the lone quote. */
  lemma {:induction false} InsideQuotesRoundTrip(s: string, t: string)
    requires LoneQuoteOrEnd(t)
    ensures InsideQuotes(Escape(s) + t) == (s, t)
    decreases |s|
  {
    var x := Escape(s) + t;
    var split := TakeWhile(s, NotQuote);
    var p, q := split.0, split.1;
    if p != [] {
      EscapePlainPrefix(p, q, t);
      assert x == p + (Escape(q) + t);
      if q != [] {
        EscapeStartsWithQuote(q, t);
      } else {
        assert Escape(q) + t == t;
      }
      TakeWhileUnique(p, Escape(q) + t, NotQuote);
      InsideQuotesRoundTrip(q, t);
    } else if s == [] {
      assert x == [] + t;
      TakeWhileUnique([], t, NotQuote);
    } else {
      EscapeQuotePrefix(s[1..], t);
      assert s == [Quote] + s[1..];
      assert x == [Quote, Quote] + (Escape(s[1..]) + t);
      TakeWhileUnique([], x, NotQuote);
      InsideQuotesRoundTrip(s[1..], t);
    }
  }

  /** `QuotedCell` when the decoder stops at a closing quote. */
  lemma QuotedCellClosed(s: string, afterSpace: string, content: string, rest: string, trailing: string)
    requires TakeWhile(s, IsSpace).1 == afterSpace && afterSpace != [] && afterSpace[0] == Quote
    requires InsideQuotes(afterSpace[1..]) == (content, rest)
    requires rest != [] && rest[0] == Quote && TakeWhile(rest[1..], IsSpace).1 == trailing
    ensures QuotedCell(s) == Some((content, trailing))
  {
  }

  /** `QuotedCell` when the decoder stops at the end of the input. */
  lemma QuotedCellAtEnd(s: string, afterSpace: string, content: string)
    requires TakeWhile(s, IsSpace).1 == afterSpace && afterSpace != [] && afterSpace[0] == Quote
    requires InsideQuotes(afterSpace[1..]) == (content, [])
    ensures QuotedCell(s) == Some((content, []))
  {
  }

  /** `Cell` takes the quoted alternative whenever it succeeds. */
  lemma CellTakesQuoted(s: string, content: string, trailing: string)
    requires QuotedCell(s) == Some((content, trailing))
    ensures Cell(s) == (content, trailing)
  {
  }

  /** A quoted field with spaces around it, regrouped from the opening quote on. */
  lemma QuotedFieldRegroup(lead: string, e: string, trail: string, t: string)
    ensures lead + ([Quote] + e + [Quote]) + trail + t == lead + ([Quote] + (e + ([Quote] + (trail + t))))
  {
  }

  /** `space0` before an opening quote consumes exactly the spaces. */
  lemma SpacesBeforeQuote(lead: string, x: string)
    requires All(lead, IsSpace)
    ensures TakeWhile(lead + ([Quote] + x), IsSpace).1 == [Quote] + x
  {
    DropFirst(Quote, x);
    TakeWhileUnique(lead, [Quote] + x, IsSpace);
  }

  /** The closing quote of a written field is a lone quote: spaces follow it, or the text
      after the field, which starts with a quote only when spaces come between. */
  lemma ClosingQuote(trail: string, t: string)
    requires All(trail, IsSpace)
    requires t == [] || (!IsSpace(t[0]) && (trail == [] ==> t[0] != Quote))
    ensures LoneQuoteOrEnd([Quote] + (trail + t))
    ensures TakeWhile(trail + t, IsSpace).1 == t
  {
    DropFirst(Quote, trail + t);
    if trail != [] {
      assert (trail + t)[0] == trail[0];
    } else {
      assert trail + t == t;
    }
    TakeWhileUnique(trail, t, IsSpace);
  }

  /** A quoted field, with any spaces or tabs around it, reads back as its value; the
      spaces are dropped and the text after them is left unconsumed. */
  lemma CellQuotedRoundTrip(lead: string, v: string, trail: string, t: string)
    requires All(lead, IsSpace) && All(trail, IsSpace)
    requires t == [] || (!IsSpace(t[0]) && (trail == [] ==> t[0] != Quote))
    ensures Cell(lead + Quoted(v) + trail + t) == (v, t)
  {
    var closing := [Quote] + (trail + t);
    var afterSpace := [Quote] + (Escape(v) + closing);
    QuotedFieldRegroup(lead, Escape(v), trail, t);
    SpacesBeforeQuote(lead, Escape(v) + closing);
    DropFirst(Quote, Escape(v) + closing);
    ClosingQuote(trail, t);
    DropFirst(Quote, trail + t);
    InsideQuotesRoundTrip(v, closing);
    QuotedCellClosed(lead + afterSpace, afterSpace, v, closing, t);
    CellTakesQuoted(lead + afterSpace, v, t);
  }

  /** A quoted field directly followed by a delimiter or by the end of the input. */
  lemma CellQuotedBare(v: string, t: string)
    requires t == [] || !IsCellChar(t[0])
    ensures Cell(Quoted(v) + t) == (v, t)
  {
    assert [] + Quoted(v) + [] + t == Quoted(v) + t;
    CellQuotedRoundTrip([], v, [], t);
  }

  /** A quoted field left open at the end of the input runs to the end of the input, commas
      and newlines included. */
  lemma CellUnterminated(lead: string, v: string)
    requires All(lead, IsSpace)
    ensures Cell(lead + [Quote] + Escape(v)) == (v, [])
  {
    var afterSpace := [Quote] + (Escape(v) + []);
    assert lead + [Quote] + Escape(v) == lead + afterSpace;
    SpacesBeforeQuote(lead, Escape(v) + []);
    DropFirst(Quote, Escape(v) + []);
    InsideQuotesRoundTrip(v, []);
    QuotedCellAtEnd(lead + afterSpace, afterSpace, v);
    CellTakesQuoted(lead + afterSpace, v, []);
  }

  /** Every written cell starts with a quote. */
  lemma WriteRowStartsWithQuote(cells: Row, t: string)
    requires |cells| >= 1
    ensures (WriteRow(cells) + t)[0] == Quote
  {
  }

  /** A written row is its first quoted field followed by the rest of the row. */
  lemma WriteRowSplit(cells: Row, t: string)
    requires |cells| >= 1
    ensures [cells[0]] + cells[1..] == cells
    ensures |cells| == 1 ==> WriteRow(cells) + t == Quoted(cells[0]) + t && cells[1..] == []
    ensures |cells| > 1 ==> WriteRow(cells) + t == Quoted(cells[0]) + ([Comma] + WriteRow(cells[1..]) + t)
  {
    if |cells| > 1 {
      ConcatAssoc(Quoted(cells[0]), [Comma], WriteRow(cells[1..]), t);
    }
  }

  /** One step of the repetition: a comma, then a cell, then the rest of the repetition. */
  lemma MoreCellsStep(x: string, c: string, rest: string, more: Row, rest': string)
    requires Cell(x) == (c, rest) && MoreCells(rest) == (more, rest')
    ensures MoreCells([Comma] + x) == ([c] + more, rest')
  {
    DropFirst(Comma, x);
  }

  /** The repetition after a comma reads back the remaining written cells. */
  lemma {:induction false} MoreCellsRoundTrip(cells: Row, t: string)
    requires |cells| >= 1
    requires t == [] || t[0] == Newline
    ensures MoreCells([Comma] + WriteRow(cells) + t) == (cells, t)
    decreases |cells|
  {
    var x := WriteRow(cells) + t;
    var tail := if |cells| == 1 then t else [Comma] + WriteRow(cells[1..]) + t;
    assert [Comma] + WriteRow(cells) + t == [Comma] + x;
    WriteRowSplit(cells, t);
    CellQuotedBare(cells[0], tail);
    if |cells| > 1 {
      MoreCellsRoundTrip(cells[1..], t);
    }
    MoreCellsStep(x, cells[0], tail, cells[1..], t);
  }

  /** `many_cells` is a first cell followed by the repetition. */
  lemma ManyCellsStep(x: string, c: string, rest: string, more: Row, rest': string)
    requires Cell(x) == (c, rest) && MoreCells(rest) == (more, rest')
    ensures ManyCells(x) == ([c] + more, rest')
  {
  }

  /** A written row, followed by a newline or by nothing, reads back as its cells. */
  lemma RowRoundTrip(cells: Row, t: string)
    requires |cells| >= 1
    requires t == [] || t[0] == Newline
    ensures ManyCells(WriteRow(cells) + t) == (cells, t)
  {
    var x := WriteRow(cells) + t;
    var tail := if |cells| == 1 then t else [Comma] + WriteRow(cells[1..]) + t;
    WriteRowSplit(cells, t);
    CellQuotedBare(cells[0], tail);
    if |cells| > 1 {
      MoreCellsRoundTrip(cells[1..], t);
    }
    ManyCellsStep(x, cells[0], tail, cells[1..], t);
  }

  /** Every row has `width` cells. */
  predicate Rectangular(rows: Table, width: nat) {
    forall i :: 0 <= i < |rows| ==> |rows[i]| == width
  }

  /** Every row has at least one cell (a written row with none would read back as one
      empty cell). */
  predicate NoEmptyRow(rows: Table) {
    forall i :: 0 <= i < |rows| ==> |rows[i]| >= 1
  }

  /** Row `k` is the first whose width is not `width`. */
  predicate FirstMismatch(rows: Table, width: nat, k: nat) {
    k < |rows| && |rows[k]| != width && forall j :: 0 <= j < k ==> |rows[j]| == width
  }

  /** One iteration of the `csv` loop. */
  lemma RowsStep(rest: string, width: nat, acc: Table, row: Row, rest': string)
    requires rest != [] && ManyCells(ConsumeNewlines(rest)) == (row, rest')
    ensures |row| != width ==> Rows(rest, width, acc) == Err(UnequalColumns(SizeError(|acc| + 1, width, |row|)))
    ensures |row| == width ==> Rows(rest, width, acc) == Rows(rest', width, acc + [row])
  {
  }

  /** What follows the first line of a written table. */
  function AfterFirstLine(rows: Table, t: string): string
    requires |rows| >= 1
  {
    if |rows| == 1 then t else [Newline] + WriteTable(rows[1..]) + t
  }

  /** After a row terminator, the loop reads the first line of a written table as its first
      row and stops before the next row terminator. */
  lemma ReadFirstLine(rows: Table, t: string)
    requires |rows| >= 1 && |rows[0]| >= 1
    requires t == [] || t[0] == Newline
    ensures ManyCells(ConsumeNewlines([Newline] + WriteTable(rows) + t)) == (rows[0], AfterFirstLine(rows, t))
  {
    var tail := AfterFirstLine(rows, t);
    WriteTableSplit(rows, t);
    NewlineBefore(WriteTable(rows), t, WriteRow(rows[0]) + tail);
    ReadLineAfterNewline(rows[0], tail);
  }

  lemma NewlineBefore(w: string, t: string, line: string)
    requires w + t == line
    ensures [Newline] + w + t == [Newline] + line
  {
  }

  /** After a row terminator, the loop reads a written row as its cells. */
  lemma ReadLineAfterNewline(cells: Row, tail: string)
    requires |cells| >= 1
    requires tail == [] || tail[0] == Newline
    ensures ManyCells(ConsumeNewlines([Newline] + (WriteRow(cells) + tail))) == (cells, tail)
  {
    WriteRowStartsWithQuote(cells, tail);
    SkipNewline(WriteRow(cells) + tail);
    RowRoundTrip(cells, tail);
  }

  /** A written table is its first row followed by what follows the first line. */
  lemma WriteTableSplit(rows: Table, t: string)
    requires |rows| >= 1
    ensures WriteTable(rows) + t == WriteRow(rows[0]) + AfterFirstLine(rows, t)
  {
    if |rows| > 1 {
      ConcatAssoc(WriteRow(rows[0]), [Newline], WriteTable(rows[1..]), t);
    }
  }

  /** `consume_newlines` skips a single newline before a line that does not start with one. */
  lemma SkipNewline(line: string)
    requires line != [] && line[0] != Newline
    ensures ConsumeNewlines([Newline] + line) == line
  {
    TakeWhileUnique([Newline], line, IsNewline);
  }

  /** Dropping the first row keeps every row non-empty. */
  lemma NoEmptyRest(rows: Table)
    requires |rows| >= 1 && NoEmptyRow(rows)
    ensures NoEmptyRow(rows[1..])
  {
    forall i | 0 <= i < |rows| - 1
      ensures |rows[1..][i]| >= 1
    {
      assert rows[1..][i] == rows[i + 1];
    }
  }

  /** Rows `i` onwards all have `width` cells. */
  predicate WidthFrom(rows: Table, width: nat, i: nat) {
    forall j :: i <= j < |rows| ==> |rows[j]| == width
  }

  /** Row `k` is the first from row `i` on whose width is not `width`. */
  predicate MismatchFrom(rows: Table, width: nat, i: nat, k: nat) {
    i <= k < |rows| && |rows[k]| != width && forall j :: i <= j < k ==> |rows[j]| == width
  }

  /** The loop over rows, abstractly: `outs[j]` is the outcome of the loop entered before row
      `j`, `final` its outcome after the last row. A row of another width ends the loop with
      the error for line `base + j + 1`; a row of the expected width hands over to the next
      iteration. From any row on, the loop reaches `final` when every remaining row has the
      expected width, and otherwise stops at the first one that does not. */
  lemma {:induction false} LoopFrom(outs: seq<Result<Table, CsvError>>, final: Result<Table, CsvError>,
                                    rows: Table, width: nat, base: nat, i: nat)
    requires |outs| == |rows| && i < |rows|
    requires forall j :: 0 <= j < |rows| && |rows[j]| != width ==>
               outs[j] == Err(UnequalColumns(SizeError(base + j + 1, width, |rows[j]|)))
    requires forall j {:trigger rows[j]} :: 0 <= j < |rows| - 1 && |rows[j]| == width ==> outs[j] == outs[j + 1]
    requires |rows[|rows| - 1]| == width ==> outs[|rows| - 1] == final
    ensures WidthFrom(rows, width, i) ==> outs[i] == final
    ensures forall k: nat :: MismatchFrom(rows, width, i, k) ==>
              outs[i] == Err(UnequalColumns(SizeError(base + k + 1, width, |rows[k]|)))
    decreases |rows| - i
  {
    if |rows[i]| == width && i + 1 < |rows| {
      LoopFrom(outs, final, rows, width, base, i + 1);
      assert outs[i] == outs[i + 1];
      assert WidthFrom(rows, width, i) ==> WidthFrom(rows, width, i + 1);
      forall k: nat | MismatchFrom(rows, width, i, k)
        ensures MismatchFrom(rows, width, i + 1, k)
      {
      }
    } else if |rows[i]| != width {
      forall k: nat | MismatchFrom(rows, width, i, k)
        ensures k == i
      {
      }
    } else {
      forall k: nat | MismatchFrom(rows, width, i, k)
        ensures false
      {
      }
    }
  }

  /** `LoopFrom` from the first row, in terms of the table predicates. */
  lemma LoopFromStart(outs: seq<Result<Table, CsvError>>, final: Result<Table, CsvError>,
                      rows: Table, width: nat, base: nat)
    requires |outs| == |rows| && |rows| >= 1
    requires forall j :: 0 <= j < |rows| && |rows[j]| != width ==>
               outs[j] == Err(UnequalColumns(SizeError(base + j + 1, width, |rows[j]|)))
    requires forall j {:trigger rows[j]} :: 0 <= j < |rows| - 1 && |rows[j]| == width ==> outs[j] == outs[j + 1]
    requires |rows[|rows| - 1]| == width ==> outs[|rows| - 1] == final
    ensures Rectangular(rows, width) ==> outs[0] == final
    ensures forall k: nat :: FirstMismatch(rows, width, k) ==>
              outs[0] == Err(UnequalColumns(SizeError(base + k + 1, width, |rows[k]|)))
  {
    LoopFrom(outs, final, rows, width, base, 0);
    assert Rectangular(rows, width) ==> WidthFrom(rows, width, 0);
    forall k: nat | FirstMismatch(rows, width, k)
      ensures MismatchFrom(rows, width, 0, k)
    {
    }
  }

  /** The input left before row `j` of a written table, after its row terminator. */
  function LineAt(rows: Table, t: string, j: nat): string
    requires j < |rows|
  {
    [Newline] + WriteTable(rows[j..]) + t
  }

  /** One iteration of the loop over a written table, at row `j`. */
  lemma RowsStepAt(rows: Table, t: string, width: nat, acc: Table, j: nat)
    requires j < |rows| && NoEmptyRow(rows)
    requires t == [] || t[0] == Newline
    ensures |rows[j]| != width ==>
              Outcome(rows, t, width, acc, j)
              == Err(UnequalColumns(SizeError(|acc + rows[..j]| + 1, width, |rows[j]|)))
    ensures |rows[j]| == width ==>
              Outcome(rows, t, width, acc, j) == Rows(AfterFirstLine(rows[j..], t), width, acc + rows[..j] + [rows[j]])
  {
    SuffixFacts(rows, t, acc, j);
    ReadFirstLine(rows[j..], t);
    RowsStep(LineAt(rows, t, j), width, acc + rows[..j], rows[j], AfterFirstLine(rows[j..], t));
  }

  /** How a written table's suffixes and prefixes fit together at row `j`. */
  lemma SuffixFacts(rows: Table, t: string, acc: Table, j: nat)
    requires j < |rows|
    ensures rows[j..][0] == rows[j] && |rows[j..]| >= 1
    ensures j < |rows| - 1 ==> AfterFirstLine(rows[j..], t) == LineAt(rows, t, j + 1)
    ensures j == |rows| - 1 ==> AfterFirstLine(rows[j..], t) == t
    ensures acc + rows[..j] + [rows[j]] == acc + rows[..j + 1]
    ensures j == |rows| - 1 ==> acc + rows[..j + 1] == acc + rows
    ensures |acc + rows[..j]| == |acc| + j
  {
    assert j < |rows| - 1 ==> rows[j..][1..] == rows[j + 1..];
    assert rows[..j] + [rows[j]] == rows[..j + 1];
    assert rows[..|rows|] == rows;
  }

  /** The outcome of the loop entered before row `j` of a written table, with the rows
      before it accepted. */
  ghost function Outcome(rows: Table, t: string, width: nat, acc: Table, j: nat): Result<Table, CsvError>
    requires j < |rows|
  {
    Rows(LineAt(rows, t, j), width, acc + rows[..j])
  }

  /** `outs` lists the outcomes of the loop before each row of a written table. */
  ghost predicate IsOutcomes(outs: seq<Result<Table, CsvError>>, rows: Table, t: string, width: nat, acc: Table) {
    |outs| == |rows|
    && forall j {:trigger Outcome(rows, t, width, acc, j)} :: 0 <= j < |rows| ==> outs[j] == Outcome(rows, t, width, acc, j)
  }

  /** A row of another width stops the loop at its own line. */
  lemma OutcomesStop(outs: seq<Result<Table, CsvError>>, rows: Table, t: string, width: nat, acc: Table)
    requires IsOutcomes(outs, rows, t, width, acc) && NoEmptyRow(rows)
    requires t == [] || t[0] == Newline
    ensures forall j :: 0 <= j < |rows| && |rows[j]| != width ==>
              outs[j] == Err(UnequalColumns(SizeError(|acc + rows[..j]| + 1, width, |rows[j]|)))
  {
    forall j | 0 <= j < |rows| && |rows[j]| != width
      ensures outs[j] == Err(UnequalColumns(SizeError(|acc + rows[..j]| + 1, width, |rows[j]|)))
    {
      assert outs[j] == Outcome(rows, t, width, acc, j);
      RowsStepAt(rows, t, width, acc, j);
    }
  }

  /** The line of row `j` is the number of rows before it plus one. */
  lemma StopLines(outs: seq<Result<Table, CsvError>>, rows: Table, width: nat, acc: Table)
    requires |outs| == |rows|
    requires forall j :: 0 <= j < |rows| && |rows[j]| != width ==>
               outs[j] == Err(UnequalColumns(SizeError(|acc + rows[..j]| + 1, width, |rows[j]|)))
    ensures forall j :: 0 <= j < |rows| && |rows[j]| != width ==>
              outs[j] == Err(UnequalColumns(SizeError(|acc| + j + 1, width, |rows[j]|)))
  {
  }

  /** A row of the expected width hands over to the next row. */
  lemma OutcomesContinue(outs: seq<Result<Table, CsvError>>, rows: Table, t: string, width: nat, acc: Table)
    requires IsOutcomes(outs, rows, t, width, acc) && NoEmptyRow(rows)
    requires t == [] || t[0] == Newline
    ensures forall j {:trigger rows[j]} :: 0 <= j < |rows| - 1 && |rows[j]| == width ==> outs[j] == outs[j + 1]
  {
    forall j {:trigger rows[j]} | 0 <= j < |rows| - 1 && |rows[j]| == width
      ensures outs[j] == outs[j + 1]
    {
      assert outs[j] == Outcome(rows, t, width, acc, j) && outs[j + 1] == Outcome(rows, t, width, acc, j + 1);
      RowsStepAt(rows, t, width, acc, j);
      SuffixFacts(rows, t, acc, j);
    }
  }

  /** A last row of the expected width ends the written table with every row accepted. */
  lemma OutcomesEnd(outs: seq<Result<Table, CsvError>>, rows: Table, t: string, width: nat, acc: Table)
    requires IsOutcomes(outs, rows, t, width, acc) && NoEmptyRow(rows) && |rows| >= 1
    requires t == [] || t[0] == Newline
    ensures |rows[|rows| - 1]| == width ==> outs[|rows| - 1] == Rows(t, width, acc + rows)
  {
    var j := |rows| - 1;
    assert outs[j] == Outcome(rows, t, width, acc, j);
    RowsStepAt(rows, t, width, acc, j);
    SuffixFacts(rows, t, acc, j);
  }

  /** The outcome before the first row is the loop on the whole written table. */
  lemma OutcomeFirst(rows: Table, t: string, width: nat, acc: Table)
    requires |rows| >= 1
    ensures Outcome(rows, t, width, acc, 0) == Rows([Newline] + WriteTable(rows) + t, width, acc)
  {
    assert rows[0..] == rows && acc + rows[..0] == acc;
  }

  /** The loop over the outcomes of a written table's rows. */
  lemma OutcomesLoop(outs: seq<Result<Table, CsvError>>, rows: Table, t: string, width: nat, acc: Table)
    requires IsOutcomes(outs, rows, t, width, acc) && NoEmptyRow(rows) && |rows| >= 1
    requires t == [] || t[0] == Newline
    ensures Rectangular(rows, width) ==> outs[0] == Rows(t, width, acc + rows)
    ensures forall k: nat :: FirstMismatch(rows, width, k) ==>
              outs[0] == Err(UnequalColumns(SizeError(|acc| + k + 1, width, |rows[k]|)))
  {
    OutcomesStop(outs, rows, t, width, acc);
    StopLines(outs, rows, width, acc);
    OutcomesContinue(outs, rows, t, width, acc);
    OutcomesEnd(outs, rows, t, width, acc);
    LoopFromStart(outs, Rows(t, width, acc + rows), rows, width, |acc|);
  }

  /** The lines of a written table after a row terminator: each row of the expected width is
      accepted in order; the first row of another width stops the loop with an error at its
      line number. */
  lemma RowsReadWritten(rows: Table, t: string, width: nat, acc: Table)
    requires |rows| >= 1 && NoEmptyRow(rows)
    requires t == [] || t[0] == Newline
    ensures Rectangular(rows, width) ==>
              Rows([Newline] + WriteTable(rows) + t, width, acc) == Rows(t, width, acc + rows)
    ensures forall k: nat :: FirstMismatch(rows, width, k) ==>
              Rows([Newline] + WriteTable(rows) + t, width, acc)
              == Err(UnequalColumns(SizeError(|acc| + k + 1, width, |rows[k]|)))
  {
    var outs := seq(|rows|, j requires 0 <= j < |rows| => Outcome(rows, t, width, acc, j));
    OutcomesLoop(outs, rows, t, width, acc);
    OutcomeFirst(rows, t, width, acc);
  }

  /** `csv` reads the first row with `many_cells` and hands the rest to the loop over rows. */
  lemma CsvStep(x: string, row: Row, rest: string)
    requires ManyCells(x) == (row, rest)
    ensures Csv(x) == Rows(rest, |row|, [row])
  {
  }

  /** `csv` reads the first line of a written table as its first row and hands what follows
      to the loop with that row accepted. */
  lemma CsvFirstRow(rows: Table, t: string)
    requires |rows| >= 1 && |rows[0]| >= 1
    requires t == [] || t[0] == Newline
    ensures Csv(WriteTable(rows) + t) == Rows(AfterFirstLine(rows, t), |rows[0]|, [rows[0]])
  {
    var tail := AfterFirstLine(rows, t);
    assert WriteTable(rows) + t == WriteRow(rows[0]) + tail by {
      if |rows| > 1 {
        ConcatAssoc(WriteRow(rows[0]), [Newline], WriteTable(rows[1..]), t);
      }
    }
    RowRoundTrip(rows[0], tail);
    CsvStep(WriteTable(rows) + t, rows[0], tail);
  }

  /** A table is its first row followed by the others; a written one-row table has nothing
      after its first line. */
  lemma FirstAndRest(rows: Table, t: string)
    requires |rows| >= 1
    ensures [rows[0]] + rows[1..] == rows
    ensures |rows| == 1 ==> [rows[0]] == rows && AfterFirstLine(rows, t) == t
  {
  }

  /** The loop after the first row, in terms of the whole table: the first row fixes the
      width, so a mismatch can only come later, one line further down. */
  lemma ShiftFirstRow(here: Result<Table, CsvError>, final: Result<Table, CsvError>, rows: Table)
    requires |rows| > 1
    requires Rectangular(rows[1..], |rows[0]|) ==> here == final
    requires forall k: nat :: FirstMismatch(rows[1..], |rows[0]|, k) ==>
               here == Err(UnequalColumns(SizeError(|[rows[0]]| + k + 1, |rows[0]|, |rows[1..][k]|)))
    ensures Rectangular(rows, |rows[0]|) ==> here == final
    ensures forall k: nat :: FirstMismatch(rows, |rows[0]|, k) ==>
              here == Err(UnequalColumns(SizeError(k + 1, |rows[0]|, |rows[k]|)))
  {
    var width := |rows[0]|;
    if Rectangular(rows, width) {
      forall i | 0 <= i < |rows| - 1
        ensures |rows[1..][i]| == width
      {
        assert rows[1..][i] == rows[i + 1];
      }
    }
    forall k: nat | FirstMismatch(rows, width, k)
      ensures here == Err(UnequalColumns(SizeError(k + 1, width, |rows[k]|)))
    {
      assert k != 0;
      assert rows[1..][k - 1] == rows[k];
      forall j | 0 <= j < k - 1
        ensures |rows[1..][j]| == width
      {
        assert rows[1..][j] == rows[j + 1];
      }
      assert FirstMismatch(rows[1..], width, k - 1);
    }
  }

  /** A one-row table is rectangular with its own width. */
  lemma SingleRow(here: Result<Table, CsvError>, final: Result<Table, CsvError>, rows: Table)
    requires |rows| == 1 && here == final
    ensures Rectangular(rows, |rows[0]|) && here == final
    ensures forall k: nat :: !FirstMismatch(rows, |rows[0]|, k)
  {
  }

  /** `csv` on a written one-row table. */
  lemma CsvReadsOneRow(rows: Table, t: string)
    requires |rows| == 1 && |rows[0]| >= 1
    requires t == [] || t[0] == Newline
    ensures Rectangular(rows, |rows[0]|) && Csv(WriteTable(rows) + t) == Rows(t, |rows[0]|, rows)
    ensures forall k: nat :: !FirstMismatch(rows, |rows[0]|, k)
  {
    CsvFirstRow(rows, t);
    FirstAndRest(rows, t);
    SingleRow(Csv(WriteTable(rows) + t), Rows(t, |rows[0]|, rows), rows);
  }

  /** `csv` on a written table of several rows. */
  lemma CsvReadsManyRows(rows: Table, t: string)
    requires |rows| > 1 && NoEmptyRow(rows)
    requires t == [] || t[0] == Newline
    ensures Rectangular(rows, |rows[0]|) ==> Csv(WriteTable(rows) + t) == Rows(t, |rows[0]|, rows)
    ensures forall k: nat :: FirstMismatch(rows, |rows[0]|, k) ==>
              Csv(WriteTable(rows) + t) == Err(UnequalColumns(SizeError(k + 1, |rows[0]|, |rows[k]|)))
  {
    CsvFirstRow(rows, t);
    FirstAndRest(rows, t);
    NoEmptyRest(rows);
    RowsReadWritten(rows[1..], t, |rows[0]|, [rows[0]]);
    ShiftFirstRow(Csv(WriteTable(rows) + t), Rows(t, |rows[0]|, rows), rows);
  }

  /** `csv` reads a written table: a rectangular table followed by a newline or by nothing
      continues the loop after the last row with every row accepted; otherwise it stops at
      the first row whose width differs from the first row's. */
  lemma CsvReadsWritten(rows: Table, t: string)
    requires |rows| >= 1 && NoEmptyRow(rows)
    requires t == [] || t[0] == Newline
    ensures Rectangular(rows, |rows[0]|) ==> Csv(WriteTable(rows) + t) == Rows(t, |rows[0]|, rows)
    ensures forall k: nat :: FirstMismatch(rows, |rows[0]|, k) ==>
              Csv(WriteTable(rows) + t) == Err(UnequalColumns(SizeError(k + 1, |rows[0]|, |rows[k]|)))
  {
    if |rows| == 1 {
      CsvReadsOneRow(rows, t);
    } else {
      CsvReadsManyRows(rows, t);
    }
  }

  /** Writing then parsing a table gives it back when it is rectangular, and otherwise the
      column-count error for its first row of a different width, with that row's 1-based
      line number. */
  lemma CsvRoundTrip(rows: Table)
    requires |rows| >= 1 && NoEmptyRow(rows)
    ensures Rectangular(rows, |rows[0]|) ==> Csv(WriteTable(rows)) == Ok(rows)
    ensures forall k: nat :: FirstMismatch(rows, |rows[0]|, k) ==>
              Csv(WriteTable(rows)) == Err(UnequalColumns(SizeError(k + 1, |rows[0]|, |rows[k]|)))
  {
    CsvReadsWritten(rows, []);
    assert WriteTable(rows) + [] == WriteTable(rows);
  }

  /** A lone newline left for the loop reads as one more row holding a single empty cell. */
  lemma TrailingRow(width: nat, acc: Table)
    ensures width == 1 ==> Rows([Newline], width, acc) == Ok(acc + [[""]])
    ensures width != 1 ==> Rows([Newline], width, acc) == Err(UnequalColumns(SizeError(|acc| + 1, width, 1)))
  {
    assert ConsumeNewlines([Newline]) == [];
    assert !OpensQuote([]) && TakeWhile([], IsCellChar) == ([], []);
    assert Cell([]) == ("", []);
    assert MoreCells([]) == ([], []);
    assert [""] + [] == [""];
    assert ManyCells([]) == ([""], []);
    RowsStep([Newline], width, acc, [""], []);
  }

  /** A newline after the last row starts one more row, which reads as a single empty cell:
      it is accepted when the table is one column wide and is a column-count error on the
      next line otherwise. */
  lemma CsvTrailingNewline(rows: Table)
    requires |rows| >= 1 && NoEmptyRow(rows) && Rectangular(rows, |rows[0]|)
    ensures |rows[0]| == 1 ==> Csv(WriteTable(rows) + [Newline]) == Ok(rows + [[""]])
    ensures |rows[0]| != 1 ==>
              Csv(WriteTable(rows) + [Newline])
              == Err(UnequalColumns(SizeError(|rows| + 1, |rows[0]|, 1)))
  {
    CsvReadsWritten(rows, [Newline]);
    TrailingRow(|rows[0]|, rows);
  }

  /** A run of blank lines between rows is one row terminator: the loop reads what follows
      it the same way whatever the length of the run. */
  lemma BlankLinesCollapse(run: string, t: string, width: nat, acc: Table)
    requires |run| >= 1 && All(run, IsNewline)
    requires t == [] || t[0] != Newline
    ensures Rows(run + t, width, acc) == Rows([Newline] + t, width, acc)
  {
    TakeWhileUnique(run, t, IsNewline);
    TakeWhileUnique([Newline], t, IsNewline);
  }
}
