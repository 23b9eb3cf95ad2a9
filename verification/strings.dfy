/** Character-sequence helpers shared by the parser and the error rendering. */
module Strings {

  /** Every character of `s` satisfies `p`. */
  predicate All(s: string, p: char -> bool) {
    forall i :: 0 <= i < |s| ==> p(s[i])
  }

  /** `rest` is what is left of `s` once some prefix of it has been consumed. */
  predicate IsSuffix(rest: string, s: string) {
    |rest| <= |s| && s[|s| - |rest|..] == rest
  }

  /** The observable behaviour of a complete-input `take_while`: the longest prefix of `s`
      whose characters all satisfy `keep`, and the unconsumed remainder. It never fails,
      and the prefix may be empty. */
  function TakeWhile(s: string, keep: char -> bool): (r: (string, string))
    ensures r.0 + r.1 == s
    ensures All(r.0, keep)
    ensures r.1 == [] || !keep(r.1[0])
  {
    if s == [] || !keep(s[0]) then ([], s)
    else
      var (run, rest) := TakeWhile(s[1..], keep);
      ([s[0]] + run, rest)
  }

  /** The three properties of `TakeWhile` determine its result: any split of the input into
      a `keep` run followed by a remainder that does not start with a `keep` character is
      the one `TakeWhile` returns. */
  lemma {:induction false} TakeWhileUnique(run: string, rest: string, keep: char -> bool)
    requires All(run, keep)
    requires rest == [] || !keep(rest[0])
    ensures TakeWhile(run + rest, keep) == (run, rest)
  {
    if run != [] {
      assert (run + rest)[0] == run[0] && keep(run[0]);
      assert (run + rest)[1..] == run[1..] + rest;
      assert All(run[1..], keep) by {
        forall i | 0 <= i < |run[1..]| ensures keep(run[1..][i]) {
          assert run[1..][i] == run[i + 1];
        }
      }
      TakeWhileUnique(run[1..], rest, keep);
      assert [run[0]] + run[1..] == run;
    } else {
      assert run + rest == rest;
    }
  }

  /** A character put in front of a string is its first character, and dropping it gives
      the string back. */
  lemma DropFirst(c: char, x: string)
    ensures ([c] + x)[0] == c && ([c] + x)[1..] == x && |[c] + x| == |x| + 1
  {
  }

  lemma ConcatAssoc(a: string, b: string, c: string, d: string)
    ensures a + b + c + d == a + (b + c + d)
  {
  }

  /** A suffix of a suffix is a suffix. */
  lemma SuffixTransitive(a: string, b: string, c: string)
    requires IsSuffix(a, b) && IsSuffix(b, c)
    ensures IsSuffix(a, c)
  {
    assert c[|c| - |a|..] == c[|c| - |b|..][|b| - |a|..];
  }

  /** The second part of a concatenation is a suffix of it. */
  lemma SuffixOfConcat(a: string, b: string)
    ensures IsSuffix(b, a + b)
  {
    assert (a + b)[|a + b| - |b|..] == b;
  }

  /** A suffix of what follows the first character of a suffix of `s` is a strictly shorter
      suffix of `s`. */
  lemma SuffixAfterFirst(x: string, s: string, y: string)
    requires IsSuffix(x, s) && x != [] && IsSuffix(y, x[1..])
    ensures IsSuffix(y, s) && |y| < |s|
  {
    SuffixOfConcat([x[0]], x[1..]);
    assert [x[0]] + x[1..] == x;
    SuffixTransitive(y, x[1..], x);
    SuffixTransitive(y, x, s);
  }
}
