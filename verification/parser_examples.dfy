/** The parser's unit tests as lemmas. Each test input is written here with its field
    contents as parameters (the test's own text is one instance), so a lemma covers the
    test's input and every input of the same shape. */
module ParserExamples {
  import opened Wrappers
  import opened Strings
  import opened CsvSyntax
  import opened CsvErrors
  import opened Parser
  import opened ParserProperties
  import opened PlainRows

  /** A field an unquoted cell reads verbatim: no quote, no delimiter. */
  predicate Plain(c: string) {
    All(c, NotQuote) && All(c, IsCellChar)
  }

  /** Doubling two adjacent quotes in otherwise quote-free text. */
  lemma EscapeTwoQuotes(a: string, b: string)
    requires All(a, NotQuote) && All(b, NotQuote)
    ensures Escape(a + ([Quote] + ([Quote] + b))) == a + ([Quote, Quote] + ([Quote, Quote] + b))
  {
    EscapeAppend([Quote], b);
    EscapeAppend([Quote], [Quote] + b);
    EscapeAppend(a, [Quote] + ([Quote] + b));
  }

  /** The quote test: `hello""""<newline> kello"` decodes to `hello""<newline> kello` and
      stops before the final quote; here `a` and `b` stand for the quote-free text around
      the four quotes. */
  lemma InsideQuotesExample(a: string, b: string)
    requires All(a, NotQuote) && All(b, NotQuote)
    ensures InsideQuotes(a + ([Quote, Quote] + ([Quote, Quote] + b)) + [Quote])
            == (a + ([Quote] + ([Quote] + b)), [Quote])
  {
    EscapeTwoQuotes(a, b);
    InsideQuotesRoundTrip(a + ([Quote] + ([Quote] + b)), [Quote]);
  }

  /** The third cell test: a quoted field that is never closed runs to the end of the
      input, commas and newlines included. */
  lemma UnterminatedCellExample(v: string)
    requires All(v, NotQuote)
    ensures Cell([Quote] + v) == (v, [])
  {
    CellUnterminated([], v);
    assert [] + [Quote] + Escape(v) == [Quote] + v;
  }

  /** A plain cell after a comma, then the rest of the repetition. */
  lemma MorePlain(c: string, x: string, y: string, more: Row, rest: string)
    requires Plain(c) && (x == [] || !IsCellChar(x[0])) && y == c + x
    requires MoreCells(x) == (more, rest)
    ensures MoreCells([Comma] + y) == ([c] + more, rest)
  {
    CellVerbatim(c, x);
    MoreCellsStep(y, c, x, more, rest);
  }

  /** A quoted cell, with the spaces around it, after a comma, then the rest of the
      repetition. */
  lemma MoreQuoted(lead: string, v: string, trail: string, x: string, y: string, more: Row, rest: string)
    requires All(lead, IsSpace) && All(trail, IsSpace)
    requires x == [] || (!IsSpace(x[0]) && x[0] != Quote)
    requires y == lead + Quoted(v) + trail + x
    requires MoreCells(x) == (more, rest)
    ensures MoreCells([Comma] + y) == ([v] + more, rest)
  {
    CellQuotedRoundTrip(lead, v, trail, x);
    MoreCellsStep(y, v, x, more, rest);
  }

  /** A quoted cell left open after a comma ends the input and the repetition. */
  lemma MoreUnterminated(v: string, y: string)
    requires y == [] + [Quote] + Escape(v)
    ensures MoreCells([Comma] + y) == ([v], [])
  {
    CellUnterminated([], v);
    MoreCellsStep(y, v, [], [], []);
    assert [v] + [] == [v];
  }

  /** The last plain cell of a line, before the newline that ends it. */
  lemma MorePlainLast(c: string, line: string, y: string)
    requires Plain(c) && y == c + ([Newline] + line)
    ensures MoreCells([Comma] + y) == ([c] + [], [Newline] + line)
  {
    DropFirst(Newline, line);
    MoreEnd([Newline] + line);
    MorePlain(c, [Newline] + line, y, [], [Newline] + line);
  }

  /** A plain first cell, then the repetition. */
  lemma FirstPlain(c: string, x: string, y: string, more: Row, rest: string)
    requires Plain(c) && (x == [] || !IsCellChar(x[0])) && y == c + x
    requires MoreCells(x) == (more, rest)
    ensures ManyCells(y) == ([c] + more, rest)
  {
    CellVerbatim(c, x);
    ManyCellsStep(y, c, x, more, rest);
  }

  /** A quoted first cell, with the spaces around it, then the repetition. */
  lemma FirstQuoted(lead: string, v: string, trail: string, x: string, y: string, more: Row, rest: string)
    requires All(lead, IsSpace) && All(trail, IsSpace)
    requires x == [] || (!IsSpace(x[0]) && x[0] != Quote)
    requires y == lead + Quoted(v) + trail + x
    requires MoreCells(x) == (more, rest)
    ensures ManyCells(y) == ([v] + more, rest)
  {
    CellQuotedRoundTrip(lead, v, trail, x);
    ManyCellsStep(y, v, x, more, rest);
  }

  /** `MoreQuoted` where a comma follows the quoted cell. */
  lemma MoreQuotedComma(lead: string, v: string, trail: string, z: string, y: string, more: Row, rest: string)
    requires All(lead, IsSpace) && All(trail, IsSpace)
    requires y == lead + Quoted(v) + trail + ([Comma] + z)
    requires MoreCells([Comma] + z) == (more, rest)
    ensures MoreCells([Comma] + y) == ([v] + more, rest)
  {
    DropFirst(Comma, z);
    MoreQuoted(lead, v, trail, [Comma] + z, y, more, rest);
  }

  /** `FirstPlain` where a comma follows the plain cell. */
  lemma FirstPlainComma(c: string, z: string, y: string, more: Row, rest: string)
    requires Plain(c) && y == c + ([Comma] + z)
    requires MoreCells([Comma] + z) == (more, rest)
    ensures ManyCells(y) == ([c] + more, rest)
  {
    DropFirst(Comma, z);
    FirstPlain(c, [Comma] + z, y, more, rest);
  }

  /** At a newline or at the end of the input the repetition stops at once. */
  lemma MoreEnd(tail: string)
    requires tail == [] || tail[0] == Newline
    ensures MoreCells(tail) == ([], tail)
  {
  }

  /** The line of the `many_cells` test, `this,"that" ,,2,9` and a newline, with its field
      contents and the spaces after the quoted field as parameters. The five cells come back,
      the quoted one without its quotes and spaces, and the newline is left for the caller. */
  lemma ManyCellsExample(p: string, q: string, sp: string, r: string, s: string, line: string)
    requires Plain(p) && All(q, NotQuote) && All(sp, IsSpace) && Plain(r) && Plain(s)
    requires line == p + [Comma] + Quoted(q) + sp + [Comma, Comma] + r + [Comma] + s + [Newline]
    ensures ManyCells(line) == ([p, q, "", r, s], [Newline])
  {
    var x2 := [] + ([Comma] + (r + ([Comma] + (s + [Newline]))));
    var x1 := [] + Quoted(q) + sp + ([Comma] + x2);
    QuotedThenThree(q, sp, r, s, x2, x1);
    ManyCellsLine(p, q, sp, r, s, line, x2, x1);
    FirstPlainComma(p, x1, line, [q] + ([[]] + ([r] + ([s] + []))), [Newline]);
    FiveCells(p, q, [], r, s);
  }

  /** The quoted cell of the `many_cells` test line and the three cells after it. */
  lemma QuotedThenThree(q: string, sp: string, r: string, s: string, x2: string, x1: string)
    requires All(sp, IsSpace) && Plain(r) && Plain(s)
    requires x2 == [] + ([Comma] + (r + ([Comma] + (s + [Newline]))))
    requires x1 == [] + Quoted(q) + sp + ([Comma] + x2)
    ensures MoreCells([Comma] + x1) == ([q] + ([[]] + ([r] + ([s] + []))), [Newline])
  {
    LastThreeCells(r, s, x2);
    MoreQuotedComma([], q, sp, x2, x1, [[]] + ([r] + ([s] + [])), [Newline]);
  }

  /** The last three cells of the `many_cells` test line: an empty one and two plain ones. */
  lemma LastThreeCells(r: string, s: string, x2: string)
    requires Plain(r) && Plain(s)
    requires x2 == [] + ([Comma] + (r + ([Comma] + (s + [Newline]))))
    ensures MoreCells([Comma] + x2) == ([[]] + ([r] + ([s] + [])), [Newline])
  {
    var x4 := s + [Newline];
    MorePlainLast(s, [], x4);
    assert [Newline] + [] == [Newline];
    var x3 := r + ([Comma] + x4);
    MorePlain(r, [Comma] + x4, x3, [s] + [], [Newline]);
    MorePlain([], [Comma] + x3, x2, [r] + ([s] + []), [Newline]);
  }

  /** Five cells put in front of the empty row one at a time form the row of five. */
  lemma FiveCells(a: string, b: string, c: string, d: string, e: string)
    ensures [a] + ([b] + ([c] + ([d] + ([e] + [])))) == [a, b, c, d, e]
  {
  }

  /** The `many_cells` test line, regrouped cell by cell. */
  lemma ManyCellsLine(p: string, q: string, sp: string, r: string, s: string, line: string, x2: string, x1: string)
    requires line == p + [Comma] + Quoted(q) + sp + [Comma, Comma] + r + [Comma] + s + [Newline]
    requires x2 == [] + ([Comma] + (r + ([Comma] + (s + [Newline]))))
    requires x1 == [] + Quoted(q) + sp + ([Comma] + x2)
    ensures line == p + ([Comma] + x1)
  {
  }

  /** `MorePlain` where a comma follows the plain cell. */
  lemma MorePlainComma(c: string, z: string, y: string, more: Row, rest: string)
    requires Plain(c) && y == c + ([Comma] + z)
    requires MoreCells([Comma] + z) == (more, rest)
    ensures MoreCells([Comma] + y) == ([c] + more, rest)
  {
    DropFirst(Comma, z);
    MorePlain(c, [Comma] + z, y, more, rest);
  }

  /** `FirstQuoted` where a comma follows the quoted cell. */
  lemma FirstQuotedComma(v: string, z: string, y: string, more: Row, rest: string)
    requires y == [] + Quoted(v) + [] + ([Comma] + z)
    requires MoreCells([Comma] + z) == (more, rest)
    ensures ManyCells(y) == ([v] + more, rest)
  {
    DropFirst(Comma, z);
    FirstQuoted([], v, [], [Comma] + z, y, more, rest);
  }

  /** The first line of the `csv` test, `"ankit", "he""llo",8,9`: two quoted fields, the
      second after a space, then two plain ones. */
  function TestLine1(a: string, sp: string, b: string, c: string, d: string): string {
    Quoted(a) + [Comma] + sp + Quoted(b) + [Comma] + c + [Comma] + d
  }

  /** The second line of the `csv` test, `2,3,"1""",5`. */
  function TestLine2(e: string, f: string, g: string, h: string): string {
    e + [Comma] + f + [Comma] + Quoted(g) + [Comma] + h
  }

  /** The last line of the `csv` test, `1,"5<newline>","6,9`: a plain field, a quoted one
      holding a newline, and a quoted one never closed. */
  function TestLine3(i: string, j: string, k: string): string {
    i + [Comma] + Quoted(j) + [Comma, Quote] + Escape(k)
  }

  /** The first line of the `csv` test reads as its four fields. */
  lemma ReadTestLine1(a: string, sp: string, b: string, c: string, d: string, line: string)
    requires All(sp, IsSpace) && Plain(c) && Plain(d)
    ensures ManyCells(TestLine1(a, sp, b, c, d) + ([Newline] + line))
            == ([a] + ([b] + ([c] + ([d] + []))), [Newline] + line)
  {
    var u4 := d + ([Newline] + line);
    var u3 := c + ([Comma] + u4);
    var u2 := sp + Quoted(b) + [] + ([Comma] + u3);
    var u1 := [] + Quoted(a) + [] + ([Comma] + u2);
    ReadTestLine1Tail(b, sp, c, d, line, u4, u3, u2);
    FirstQuotedComma(a, u2, u1, [b] + ([c] + ([d] + [])), [Newline] + line);
    TestLine1Regroup(a, sp, b, c, d, line, u4, u3, u2, u1);
  }

  /** The last three fields of the first line of the `csv` test. */
  lemma ReadTestLine1Tail(b: string, sp: string, c: string, d: string, line: string, u4: string, u3: string, u2: string)
    requires All(sp, IsSpace) && Plain(c) && Plain(d)
    requires u4 == d + ([Newline] + line)
    requires u3 == c + ([Comma] + u4)
    requires u2 == sp + Quoted(b) + [] + ([Comma] + u3)
    ensures MoreCells([Comma] + u2) == ([b] + ([c] + ([d] + [])), [Newline] + line)
  {
    MorePlainLast(d, line, u4);
    MorePlainComma(c, u4, u3, [d] + [], [Newline] + line);
    MoreQuotedComma(sp, b, [], u3, u2, [c] + ([d] + []), [Newline] + line);
  }

  /** The first line of the `csv` test with what follows it, grouped from the right. */
  lemma TestLine1Pieces(qa: string, sp: string, qb: string, c: string, d: string, t: string)
    ensures qa + [Comma] + sp + qb + [Comma] + c + [Comma] + d + t
            == [] + qa + [] + ([Comma] + (sp + qb + [] + ([Comma] + (c + ([Comma] + (d + t))))))
  {
  }

  /** The nested form `ReadTestLine1` reads is the first line. */
  lemma TestLine1Regroup(a: string, sp: string, b: string, c: string, d: string, line: string, u4: string, u3: string, u2: string, u1: string)
    requires u4 == d + ([Newline] + line)
    requires u3 == c + ([Comma] + u4)
    requires u2 == sp + Quoted(b) + [] + ([Comma] + u3)
    requires u1 == [] + Quoted(a) + [] + ([Comma] + u2)
    ensures TestLine1(a, sp, b, c, d) + ([Newline] + line) == u1
  {
    TestLine1Pieces(Quoted(a), sp, Quoted(b), c, d, [Newline] + line);
  }

  /** The second line of the `csv` test reads as its four fields. */
  lemma ReadTestLine2(e: string, f: string, g: string, h: string, line: string)
    requires Plain(e) && Plain(f) && Plain(h)
    ensures ManyCells(TestLine2(e, f, g, h) + ([Newline] + line))
            == ([e] + ([f] + ([g] + ([h] + []))), [Newline] + line)
  {
    var v4 := h + ([Newline] + line);
    var v3 := [] + Quoted(g) + [] + ([Comma] + v4);
    var v2 := f + ([Comma] + v3);
    var v1 := e + ([Comma] + v2);
    ReadTestLine2Tail(f, g, h, line, v4, v3, v2);
    FirstPlainComma(e, v2, v1, [f] + ([g] + ([h] + [])), [Newline] + line);
    TestLine2Regroup(e, f, g, h, line, v4, v3, v2, v1);
  }

  /** The last three fields of the second line of the `csv` test. */
  lemma ReadTestLine2Tail(f: string, g: string, h: string, line: string, v4: string, v3: string, v2: string)
    requires Plain(f) && Plain(h)
    requires v4 == h + ([Newline] + line)
    requires v3 == [] + Quoted(g) + [] + ([Comma] + v4)
    requires v2 == f + ([Comma] + v3)
    ensures MoreCells([Comma] + v2) == ([f] + ([g] + ([h] + [])), [Newline] + line)
  {
    MorePlainLast(h, line, v4);
    MoreQuotedComma([], g, [], v4, v3, [h] + [], [Newline] + line);
    MorePlainComma(f, v3, v2, [g] + ([h] + []), [Newline] + line);
  }

  /** The nested form `ReadTestLine2` reads is the second line. */
  lemma TestLine2Regroup(e: string, f: string, g: string, h: string, line: string, v4: string, v3: string, v2: string, v1: string)
    requires v4 == h + ([Newline] + line)
    requires v3 == [] + Quoted(g) + [] + ([Comma] + v4)
    requires v2 == f + ([Comma] + v3)
    requires v1 == e + ([Comma] + v2)
    ensures TestLine2(e, f, g, h) + ([Newline] + line) == v1
  {
  }

  /** The last line of the `csv` test reads as three fields, the unclosed quoted field
      running to the end of the input. */
  lemma ReadTestLine3(i: string, j: string, k: string)
    requires Plain(i)
    ensures ManyCells(TestLine3(i, j, k)) == ([i] + ([j] + [k]), [])
  {
    var w3 := [] + [Quote] + Escape(k);
    var w2 := [] + Quoted(j) + [] + ([Comma] + w3);
    var w1 := i + ([Comma] + w2);
    MoreUnterminated(k, w3);
    MoreQuotedComma([], j, [], w3, w2, [k], []);
    FirstPlainComma(i, w2, w1, [j] + [k], []);
    TestLine3Regroup(i, j, k, w3, w2, w1);
  }

  /** The nested form `ReadTestLine3` reads is the last line. */
  lemma TestLine3Regroup(i: string, j: string, k: string, w3: string, w2: string, w1: string)
    requires w3 == [] + [Quote] + Escape(k)
    requires w2 == [] + Quoted(j) + [] + ([Comma] + w3)
    requires w1 == i + ([Comma] + w2)
    ensures TestLine3(i, j, k) == w1
  {
  }

  /** Four cells put in front of the empty row one at a time form the row of four. */
  lemma FourCells(a: string, b: string, c: string, d: string)
    ensures [a] + ([b] + ([c] + ([d] + []))) == [a, b, c, d]
  {
  }

  /** A line that starts with a plain field (possibly empty) and then a comma does not start
      with a newline. */
  lemma PlainStart(e: string, z: string)
    requires Plain(e)
    ensures e + ([Comma] + z) != [] && (e + ([Comma] + z))[0] != Newline
  {
    if e == [] {
      assert e + ([Comma] + z) == [Comma] + z;
    } else {
      assert (e + ([Comma] + z))[0] == e[0];
    }
  }

  /** The `csv` test: `"ankit", "he""llo",8,9`, `2,3,"1""",5` and `1,"5<newline>","6,9`
      on three lines. The first two lines have four fields, the third only three (its last
      quoted field is never closed and swallows the rest of the input), so `csv` reports a
      column-count error at line 3: four columns expected, three found. */
  lemma CsvExample(a: string, sp: string, b: string, c: string, d: string,
                   e: string, f: string, g: string, h: string,
                   i: string, j: string, k: string, text: string)
    requires All(sp, IsSpace) && Plain(c) && Plain(d) && Plain(e) && Plain(f) && Plain(h) && Plain(i)
    requires text == TestLine1(a, sp, b, c, d) + [Newline] + TestLine2(e, f, g, h) + [Newline] + TestLine3(i, j, k)
    ensures Csv(text) == Err(UnequalColumns(SizeError(3, 4, 3)))
  {
    var l2, l3 := TestLine2(e, f, g, h), TestLine3(i, j, k);
    ThreeLines(TestLine1(a, sp, b, c, d), l2, l3);
    CsvTestFirstLine(a, sp, b, c, d, l2 + ([Newline] + l3));
    CsvTestLoop([a, b, c, d], e, f, g, h, i, j, k);
  }

  /** Three lines joined by newlines, grouped from the right. */
  lemma ThreeLines(l1: string, l2: string, l3: string)
    ensures l1 + [Newline] + l2 + [Newline] + l3 == l1 + ([Newline] + (l2 + ([Newline] + l3)))
  {
  }

  /** `csv` reads the first line of the `csv` test and hands the rest to the loop. */
  lemma CsvTestFirstLine(a: string, sp: string, b: string, c: string, d: string, line: string)
    requires All(sp, IsSpace) && Plain(c) && Plain(d)
    ensures Csv(TestLine1(a, sp, b, c, d) + ([Newline] + line)) == Rows([Newline] + line, 4, [[a, b, c, d]])
  {
    ReadTestLine1(a, sp, b, c, d, line);
    FourCells(a, b, c, d);
    CsvStep(TestLine1(a, sp, b, c, d) + ([Newline] + line), [a, b, c, d], [Newline] + line);
  }

  /** The loop over the last two lines of the `csv` test. */
  lemma CsvTestLoop(row1: Row, e: string, f: string, g: string, h: string, i: string, j: string, k: string)
    requires Plain(e) && Plain(f) && Plain(h) && Plain(i)
    ensures Rows([Newline] + (TestLine2(e, f, g, h) + ([Newline] + TestLine3(i, j, k))), 4, [row1])
            == Err(UnequalColumns(SizeError(3, 4, 3)))
  {
    ReadTestLine2(e, f, g, h, TestLine3(i, j, k));
    FourCells(e, f, g, h);
    ReadTestLine3(i, j, k);
    TestLine2Start(e, f, g, h);
    TestLine3Start(i, j, k);
    TwoRowsThenShort(row1, [e, f, g, h], [i] + ([j] + [k]), TestLine2(e, f, g, h), TestLine3(i, j, k));
  }

  /** The second line of the `csv` test does not start with a newline. */
  lemma TestLine2Start(e: string, f: string, g: string, h: string)
    requires Plain(e)
    ensures TestLine2(e, f, g, h) != [] && TestLine2(e, f, g, h)[0] != Newline
  {
    PlainStart(e, f + [Comma] + Quoted(g) + [Comma] + h);
    assert TestLine2(e, f, g, h) == e + ([Comma] + (f + [Comma] + Quoted(g) + [Comma] + h));
  }

  /** Regrouping after the first comma of a line. */
  lemma AfterFirstComma(i: string, x: string, y: string)
    ensures i + [Comma] + x + y == i + ([Comma] + (x + y))
  {
  }

  /** The last line of the `csv` test does not start with a newline. */
  lemma TestLine3Start(i: string, j: string, k: string)
    requires Plain(i)
    ensures TestLine3(i, j, k) != [] && TestLine3(i, j, k)[0] != Newline
  {
    var rest := Quoted(j) + [Comma, Quote] + Escape(k);
    PlainStart(i, rest);
    AfterFirstComma(i, Quoted(j), [Comma, Quote] + Escape(k));
  }

  /** After a first row of four cells, a line of four cells is accepted and a last line of
      three stops the loop at line 3. */
  lemma TwoRowsThenShort(row1: Row, row2: Row, row3: Row, l2: string, l3: string)
    requires |row2| == 4 && |row3| == 3
    requires l2 != [] && l2[0] != Newline && l3 != [] && l3[0] != Newline
    requires ManyCells(l2 + ([Newline] + l3)) == (row2, [Newline] + l3)
    requires ManyCells(l3) == (row3, [])
    ensures Rows([Newline] + (l2 + ([Newline] + l3)), 4, [row1]) == Err(UnequalColumns(SizeError(3, 4, 3)))
  {
    AcceptLine([row1], l2, [Newline] + l3, row2);
    StopAtLine([row1] + [row2], l3, row3);
  }

  /** A line after a row terminator, read as a row of the expected width, is accepted. */
  lemma AcceptLine(acc: Table, l: string, rest: string, row: Row)
    requires l != [] && l[0] != Newline && |row| == 4
    requires ManyCells(l + rest) == (row, rest)
    ensures Rows([Newline] + (l + rest), 4, acc) == Rows(rest, 4, acc + [row])
  {
    assert (l + rest)[0] == l[0];
    SkipNewline(l + rest);
    RowsStep([Newline] + (l + rest), 4, acc, row, rest);
  }

  /** A line after a row terminator, read as a row of another width, stops the loop. */
  lemma StopAtLine(acc: Table, l: string, row: Row)
    requires l != [] && l[0] != Newline && |row| == 3 && |acc| == 2
    requires ManyCells(l) == (row, [])
    ensures Rows([Newline] + l, 4, acc) == Err(UnequalColumns(SizeError(3, 4, 3)))
  {
    SkipNewline(l);
    RowsStep([Newline] + l, 4, acc, row, []);
  }
}
