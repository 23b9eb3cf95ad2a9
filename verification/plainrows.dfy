/** Lines without quotes or newlines: on them the parser is a plain split at commas, and
    joining the fields back with commas gives the line again. */
module PlainRows {
  import opened Wrappers
  import opened Strings
  import opened CsvSyntax
  import opened Parser
  import opened ParserProperties

  /** The fields of `s` between its commas, in order; `s` without commas is one field. */
  function SplitAtCommas(s: string): (r: Row)
    ensures |r| >= 1
    decreases |s|
  {
    var split := TakeWhile(s, NotComma);
    var field, rest := split.0, split.1;
    if rest == [] then [field] else [field] + SplitAtCommas(rest[1..])
  }

  /** The fields separated by single commas. */
  function JoinWithCommas(fields: Row): string
    requires |fields| >= 1
  {
    if |fields| == 1 then fields[0] else fields[0] + [Comma] + JoinWithCommas(fields[1..])
  }

  /** Splitting loses nothing and no field contains a comma. */
  lemma {:induction false} SplitJoin(s: string)
    ensures JoinWithCommas(SplitAtCommas(s)) == s
    ensures forall i :: 0 <= i < |SplitAtCommas(s)| ==> All(SplitAtCommas(s)[i], NotComma)
    decreases |s|
  {
    var split := TakeWhile(s, NotComma);
    var field, rest := split.0, split.1;
    if rest != [] {
      SplitJoin(rest[1..]);
      var fields := SplitAtCommas(s);
      assert fields == [field] + SplitAtCommas(rest[1..]);
      assert fields[1..] == SplitAtCommas(rest[1..]);
      assert rest == [Comma] + rest[1..];
      forall i | 0 <= i < |fields| ensures All(fields[i], NotComma) {
        if i > 0 {
          assert fields[i] == SplitAtCommas(rest[1..])[i - 1];
        }
      }
    }
  }

  /** The first field, then the fields after the comma that ends it, if any. */
  lemma SplitFirst(x: string, c: string, rest: string)
    requires TakeWhile(x, NotComma) == (c, rest)
    ensures SplitAtCommas(x) == [c] + (if rest == [] then [] else SplitAtCommas(rest[1..]))
  {
    if rest == [] {
      assert [c] + [] == [c];
    }
  }

  /** What remains of a string whose characters all satisfy `p` still satisfies it. */
  lemma AllSuffix(rest: string, s: string, p: char -> bool)
    requires All(s, p) && IsSuffix(rest, s)
    ensures All(rest, p)
  {
    forall i | 0 <= i < |rest| ensures p(rest[i]) {
      assert rest[i] == s[|s| - |rest| + i];
    }
  }

  /** Without a quote character nothing can open a quoted field. */
  lemma {:induction false} NoQuoteNoOpening(s: string)
    requires All(s, NotQuote)
    ensures !OpensQuote(s)
    decreases |s|
  {
    if s != [] {
      AllSuffix(s[1..], s, NotQuote);
      NoQuoteNoOpening(s[1..]);
    }
  }

  /** Quote-free text before a delimiter cannot open a quoted field either. */
  lemma {:induction false} OpensQuoteBeyond(c: string, t: string)
    requires All(c, NotQuote)
    ensures OpensQuote(c + t) ==> OpensQuote(t)
    decreases |c|
  {
    if c != [] {
      DropFirst(c[0], c[1..] + t);
      assert [c[0]] + (c[1..] + t) == c + t;
      AllSuffix(c[1..], c, NotQuote);
      OpensQuoteBeyond(c[1..], t);
    } else {
      assert c + t == t;
    }
  }

  /** A quote-free field followed by a delimiter or by nothing is read verbatim. */
  lemma CellVerbatim(c: string, t: string)
    requires All(c, NotQuote) && All(c, IsCellChar)
    requires t == [] || !IsCellChar(t[0])
    ensures Cell(c + t) == (c, t)
  {
    OpensQuoteBeyond(c, t);
    TakeWhileUnique(c, t, IsCellChar);
  }

  /** On a quote- and newline-free input a cell is the text up to the next comma. */
  lemma CellPlain(x: string)
    requires All(x, NotQuote) && All(x, NotNewline)
    ensures Cell(x) == TakeWhile(x, NotComma)
  {
    NoQuoteNoOpening(x);
    var r := Cell(x);
    assert All(r.0, NotComma) by {
      forall i | 0 <= i < |r.0| ensures NotComma(r.0[i]) {
        assert IsCellChar(r.0[i]);
      }
    }
    if r.1 != [] {
      assert r.1[0] == x[|r.0|];
      assert NotNewline(x[|r.0|]);
    }
    TakeWhileUnique(r.0, r.1, NotComma);
  }

  /** On a quote- and newline-free input that starts with a comma, the repetition reads every
      field after that comma. */
  lemma {:induction false} MoreCellsPlain(s: string)
    requires All(s, NotQuote) && All(s, NotNewline)
    requires s == [] || s[0] == Comma
    ensures MoreCells(s) == (if s == [] then [] else SplitAtCommas(s[1..]), [])
    decreases |s|
  {
    if s != [] {
      var x := s[1..];
      AllSuffix(x, s, NotQuote);
      AllSuffix(x, s, NotNewline);
      var split := TakeWhile(x, NotComma);
      var c, rest := split.0, split.1;
      CellPlain(x);
      SuffixOfConcat(c, rest);
      AllSuffix(rest, x, NotQuote);
      AllSuffix(rest, x, NotNewline);
      MoreCellsPlain(rest);
      SplitFirst(x, c, rest);
      assert s == [Comma] + x;
      MoreCellsStep(x, c, rest, MoreCells(rest).0, []);
    }
  }

  /** On a quote- and newline-free line `many_cells` is a split at commas and consumes the
      whole line. */
  lemma ManyCellsPlain(s: string)
    requires All(s, NotQuote) && All(s, NotNewline)
    ensures ManyCells(s) == (SplitAtCommas(s), [])
  {
    var split := TakeWhile(s, NotComma);
    var c, rest := split.0, split.1;
    CellPlain(s);
    SuffixOfConcat(c, rest);
    AllSuffix(rest, s, NotQuote);
    AllSuffix(rest, s, NotNewline);
    MoreCellsPlain(rest);
    SplitFirst(s, c, rest);
    ManyCellsStep(s, c, rest, MoreCells(rest).0, []);
  }

  /** A single quote-free line is read as a one-row table of its comma-separated fields. */
  lemma CsvPlainLine(s: string)
    requires All(s, NotQuote) && All(s, NotNewline)
    ensures Csv(s) == Ok([SplitAtCommas(s)])
  {
    ManyCellsPlain(s);
  }

  /** How many times `c` occurs in `s`. */
  function Occurrences(s: string, c: char): nat {
    if s == [] then 0 else (if s[0] == c then 1 else 0) + Occurrences(s[1..], c)
  }

  lemma {:induction false} OccurrencesAppend(a: string, b: string, c: char)
    ensures Occurrences(a + b, c) == Occurrences(a, c) + Occurrences(b, c)
    decreases |a|
  {
    if a != [] {
      assert (a + b)[0] == a[0];
      assert (a + b)[1..] == a[1..] + b;
      OccurrencesAppend(a[1..], b, c);
    } else {
      assert a + b == b;
    }
  }

  lemma {:induction false} OccurrencesNone(s: string)
    requires All(s, NotComma)
    ensures Occurrences(s, Comma) == 0
    decreases |s|
  {
    if s != [] {
      AllSuffix(s[1..], s, NotComma);
      OccurrencesNone(s[1..]);
    }
  }

  /** A line splits into one more field than it has commas. */
  lemma {:induction false} SplitCount(s: string)
    ensures |SplitAtCommas(s)| == Occurrences(s, Comma) + 1
    decreases |s|
  {
    var split := TakeWhile(s, NotComma);
    var field, rest := split.0, split.1;
    OccurrencesAppend(field, rest, Comma);
    OccurrencesNone(field);
    if rest != [] {
      SplitCount(rest[1..]);
    }
  }

  /** On a quote- and newline-free line `many_cells` returns one more cell than the number
      of commas it consumes, and it consumes the whole line. */
  lemma ManyCellsCount(s: string)
    requires All(s, NotQuote) && All(s, NotNewline)
    ensures ManyCells(s).1 == [] && |ManyCells(s).0| == Occurrences(s, Comma) + 1
  {
    ManyCellsPlain(s);
    SplitCount(s);
  }
}
