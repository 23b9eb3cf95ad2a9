/** The concrete syntax of CSV text: the delimiter characters, the character classes the
    parser's rules are built from, and a reference writer that produces text in that syntax.
    The writer is not part of the parser; it is the partner the parser's round trips are
    stated against. */
module CsvSyntax {
  import opened Strings

  const Quote := '"'
  const Comma := ','
  const Newline := '\n'

  /** The characters `space0` skips around a quoted field. */
  predicate IsSpace(c: char) {
    c == ' ' || c == '\t'
  }

  predicate NotQuote(c: char) {
    c != Quote
  }

  /** Characters an unquoted field may contain. */
  predicate IsCellChar(c: char) {
    c != Comma && c != Newline
  }

  predicate IsNewline(c: char) {
    c == Newline
  }

  predicate NotNewline(c: char) {
    c != Newline
  }

  predicate NotComma(c: char) {
    c != Comma
  }

  type Row = seq<string>
  type Table = seq<Row>

  /** The interior of a quoted field holding `s`: every quote doubled. */
  function Escape(s: string): (r: string)
    ensures |r| >= |s|
    ensures All(s, NotQuote) ==> r == s
  {
    if s == [] then []
    else (if s[0] == Quote then [Quote, Quote] else [s[0]]) + Escape(s[1..])
  }

  /** `Escape` works character by character, so it distributes over concatenation. */
  lemma {:induction false} EscapeAppend(a: string, b: string)
    ensures Escape(a + b) == Escape(a) + Escape(b)
  {
    if a != [] {
      assert (a + b)[0] == a[0];
      assert (a + b)[1..] == a[1..] + b;
      EscapeAppend(a[1..], b);
    } else {
      assert a + b == b;
    }
  }

  /** A quote-free run followed by more text escapes to the run itself followed by the
      escaped text. */
  lemma EscapePlainPrefix(run: string, more: string, tail: string)
    requires All(run, NotQuote)
    ensures Escape(run + more) + tail == run + (Escape(more) + tail)
  {
    EscapeAppend(run, more);
  }

  /** A leading quote escapes to a doubled quote. */
  lemma EscapeQuotePrefix(more: string, tail: string)
    ensures Escape([Quote] + more) + tail == [Quote, Quote] + (Escape(more) + tail)
  {
    EscapeAppend([Quote], more);
    assert Escape([Quote]) == [Quote, Quote] + Escape([]);
  }

  /** A doubled quote followed by the escaped form of `more` is the escaped form of a quote
      followed by `more`. */
  lemma EscapedQuotePair(s: string, more: string, tail: string)
    requires |s| >= 2 && s[0] == Quote && s[1] == Quote
    requires Escape(more) + tail == s[2..]
    ensures Escape([Quote] + more) + tail == s
  {
    EscapeQuotePrefix(more, tail);
    assert s == [Quote, Quote] + s[2..];
  }

  /** `s` written as a quoted field. */
  function Quoted(s: string): string {
    [Quote] + Escape(s) + [Quote]
  }

  /** A row written as quoted fields separated by commas. */
  function WriteRow(cells: Row): string {
    if |cells| == 0 then []
    else if |cells| == 1 then Quoted(cells[0])
    else Quoted(cells[0]) + [Comma] + WriteRow(cells[1..])
  }

  /** A table written one row per line, with no newline after the last row. */
  function WriteTable(rows: Table): string {
    if |rows| == 0 then []
    else if |rows| == 1 then WriteRow(rows[0])
    else WriteRow(rows[0]) + [Newline] + WriteTable(rows[1..])
  }
}
