/** The parser's error values and their human-readable messages. */
module CsvErrors {
  import opened Wrappers
  import opened Strings
  import opened Decimal

  /** Where a row of the wrong width was found: its 1-based line (row) number, the width of
      the first row, and the width of the offending row. */
  datatype SizeError = SizeError(lineNo: nat, expectedSize: nat, actualSize: nat)

  /** The two ways parsing can fail. Both carry the 1-based number of the row at which
      parsing stopped. Equality is structural: two errors are equal exactly when they are
      the same variant with equal fields. */
  datatype CsvError =
    | UnequalColumns(size: SizeError)
    | SyntaxError(line: nat)

  const UnequalPrefix := "Unequal number of columns at line "
  const ExpectedInfix := ", expected: "
  const GotInfix := " columns, got: "
  const SyntaxPrefix := "Syntax error at line number: "

  /** The message an error displays as. */
  function Message(e: CsvError): string {
    match e
    case UnequalColumns(v) =>
      UnequalPrefix + NatToString(v.lineNo) + ExpectedInfix + NatToString(v.expectedSize)
      + GotInfix + NatToString(v.actualSize)
    case SyntaxError(l) => SyntaxPrefix + NatToString(l)
  }

  /** Reads a non-empty run of decimal digits off the front of `s`, with what follows it. */
  function ReadNumber(s: string): (r: Option<(nat, string)>)
    ensures r.Some? ==> IsSuffix(r.value.1, s) && |r.value.1| < |s|
  {
    var split := TakeWhile(s, IsDigit);
    if split.0 == [] then None else Some((Value(split.0), split.1))
  }

  /** Reads the fixed text `text` off the front of `s`, with what follows it. */
  function ReadText(s: string, text: string): (r: Option<string>)
    ensures r.Some? ==> s == text + r.value
  {
    if text <= s then Some(s[|text|..]) else None
  }

  /** Reads the fixed text `text` and then a number off the front of `s`. */
  function ReadNumberAfter(s: string, text: string): (r: Option<(nat, string)>)
    ensures r.Some? ==> IsSuffix(r.value.1, s)
  {
    var after := ReadText(s, text);
    if after.None? then None else ReadNumber(after.value)
  }

  /** Reads the numbers of a column-count message after its opening text. */
  function ParseSizeError(s: string): Option<CsvError> {
    var line := ReadNumber(s);
    if line.None? then None
    else
      var expected := ReadNumberAfter(line.value.1, ExpectedInfix);
      if expected.None? then None
      else
        var actual := ReadNumberAfter(expected.value.1, GotInfix);
        if actual.None? || actual.value.1 != [] then None
        else Some(UnequalColumns(SizeError(line.value.0, expected.value.0, actual.value.0)))
  }

  /** Reads a message back into the error it describes; `None` for any text that is not a
      message. The inverse of `Message`. */
  function ParseMessage(m: string): Option<CsvError> {
    var afterUnequal := ReadText(m, UnequalPrefix);
    if afterUnequal.Some? then ParseSizeError(afterUnequal.value)
    else
      var line := ReadNumberAfter(m, SyntaxPrefix);
      if line.None? || line.value.1 != [] then None
      else Some(SyntaxError(line.value.0))
  }

  /** A number written in decimal reads back, up to the first non-digit. */
  lemma ReadNumberOf(n: nat, tail: string)
    requires tail == [] || !IsDigit(tail[0])
    ensures ReadNumber(NatToString(n) + tail) == Some((n, tail))
  {
    TakeWhileUnique(NatToString(n), tail, IsDigit);
  }

  /** A fixed text reads back, with what follows it. */
  lemma ReadTextOf(text: string, tail: string)
    ensures ReadText(text + tail, text) == Some(tail)
  {
    assert (text + tail)[|text|..] == tail;
  }

  /** Every message reads back as the error that produced it: the numbers are written in
      decimal, in the order line, expected, actual, between fixed texts that start with no
      digit. */
  lemma MessageRoundTrip(e: CsvError)
    ensures ParseMessage(Message(e)) == Some(e)
  {
    match e
    case UnequalColumns(v) => UnequalRoundTrip(v);
    case SyntaxError(l) => SyntaxRoundTrip(l);
  }

  /** A fixed text followed by a number written in decimal reads back, up to the first
      non-digit after the number. */
  lemma ReadNumberAfterOf(text: string, n: nat, tail: string)
    requires tail == [] || !IsDigit(tail[0])
    ensures ReadNumberAfter(text + (NatToString(n) + tail), text) == Some((n, tail))
  {
    ReadTextOf(text, NatToString(n) + tail);
    ReadNumberOf(n, tail);
  }

  /** Concatenation regrouped to the right. */
  lemma Regroup(p: string, a: string, i1: string, b: string, i2: string, c: string)
    ensures p + a + i1 + b + i2 + c == p + (a + (i1 + (b + (i2 + (c + [])))))
  {
  }

  /** The numbers of a column-count message read back. */
  lemma SizeErrorRoundTrip(v: SizeError)
    ensures ParseSizeError(NatToString(v.lineNo) + (ExpectedInfix + (NatToString(v.expectedSize)
              + (GotInfix + (NatToString(v.actualSize) + []))))) == Some(UnequalColumns(v))
  {
    var tail2 := GotInfix + (NatToString(v.actualSize) + []);
    var tail1 := ExpectedInfix + (NatToString(v.expectedSize) + tail2);
    ReadNumberOf(v.lineNo, tail1);
    ReadNumberAfterOf(ExpectedInfix, v.expectedSize, tail2);
    ReadNumberAfterOf(GotInfix, v.actualSize, []);
  }

  lemma UnequalRoundTrip(v: SizeError)
    ensures ParseMessage(Message(UnequalColumns(v))) == Some(UnequalColumns(v))
  {
    var a, b, c := NatToString(v.lineNo), NatToString(v.expectedSize), NatToString(v.actualSize);
    Regroup(UnequalPrefix, a, ExpectedInfix, b, GotInfix, c);
    ReadTextOf(UnequalPrefix, a + (ExpectedInfix + (b + (GotInfix + (c + [])))));
    SizeErrorRoundTrip(v);
  }

  lemma SyntaxRoundTrip(l: nat)
    ensures ParseMessage(Message(SyntaxError(l))) == Some(SyntaxError(l))
  {
    var m := Message(SyntaxError(l));
    assert m[0] == 'S' && UnequalPrefix[0] == 'U';
    assert ReadText(m, UnequalPrefix) == None;
    assert m == SyntaxPrefix + (NatToString(l) + []);
    ReadNumberAfterOf(SyntaxPrefix, l, []);
  }

  /** Different errors never display the same message; in particular a column-mismatch
      message never equals a syntax-error message. */
  lemma {:induction false} MessageInjective(a: CsvError, b: CsvError)
    requires Message(a) == Message(b)
    ensures a == b
  {
    MessageRoundTrip(a);
    MessageRoundTrip(b);
  }
}
