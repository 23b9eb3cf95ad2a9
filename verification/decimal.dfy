/** Decimal rendering of natural numbers, as Rust's `{}` formatting of a `usize` writes it. */
module Decimal {
  import opened Strings

  predicate IsDigit(c: char) {
    '0' <= c <= '9'
  }

  function DigitChar(d: nat): (c: char)
    requires d < 10
    ensures IsDigit(c) && DigitValue(c) == d
  {
    (48 + d) as char
  }

  function DigitValue(c: char): nat
    requires IsDigit(c)
  {
    c as int - 48
  }

  /** The number a string of decimal digits denotes (most significant digit first). */
  function Value(s: string): nat
    requires All(s, IsDigit)
  {
    if s == [] then 0
    else
      var p := s[..|s| - 1];
      assert All(p, IsDigit) by {
        forall i | 0 <= i < |p| ensures IsDigit(p[i]) { assert p[i] == s[i]; }
      }
      10 * Value(p) + DigitValue(s[|s| - 1])
  }

  /** Canonical decimal form: non-empty, only digits, no leading zero. */
  predicate Canonical(s: string) {
    |s| >= 1 && All(s, IsDigit) && (|s| > 1 ==> s[0] != '0')
  }

  /** The decimal rendering of `n`; reading it back yields `n`. */
  function NatToString(n: nat): (r: string)
    ensures Canonical(r)
    ensures Value(r) == n
    decreases n
  {
    if n < 10 then [DigitChar(n)]
    else
      var r := NatToString(n / 10) + [DigitChar(n % 10)];
      assert r[..|r| - 1] == NatToString(n / 10);
      r
  }

  /** A canonical digit string that starts with a non-zero digit denotes a positive number. */
  lemma {:induction false} ValuePositive(s: string)
    requires All(s, IsDigit) && |s| >= 1 && s[0] != '0'
    ensures Value(s) >= 1
  {
    if |s| > 1 {
      var p := s[..|s| - 1];
      assert All(p, IsDigit) by {
        forall i | 0 <= i < |p| ensures IsDigit(p[i]) { assert p[i] == s[i]; }
      }
      ValuePositive(p);
    }
  }

  /** Rendering is onto the canonical digit strings: every canonical string is the rendering
      of the number it denotes. With `NatToString`'s contract this makes rendering a
      bijection between naturals and canonical strings. */
  lemma {:induction false} NatToStringOfValue(s: string)
    requires Canonical(s)
    ensures NatToString(Value(s)) == s
  {
    if |s| > 1 {
      var p := s[..|s| - 1];
      assert All(p, IsDigit) by {
        forall i | 0 <= i < |p| ensures IsDigit(p[i]) { assert p[i] == s[i]; }
      }
      assert Canonical(p);
      ValuePositive(p);
      NatToStringOfValue(p);
      var n := Value(s);
      assert n / 10 == Value(p) && n % 10 == DigitValue(s[|s| - 1]);
      assert s == p + [s[|s| - 1]];
    }
  }
}
