/** Shared vocabulary of the JSON reader: read results, unread remainders, and
    the whitespace that Python's `json` module skips between tokens. */
module Parsing {

  /** The outcome of a read: a value, or a decode error (Python's `JSONDecodeError`). */
  datatype Result<+T> = Ok(value: T) | Fail

  /** A value read from the front of the input, together with the unread remainder. */
  datatype Parsed<+T> = Parsed(value: T, rest: string)

  /** `rest` is what is left of `s` after some of its front was consumed. */
  predicate IsSuffix(rest: string, s: string) {
    |rest| <= |s| && rest == s[|s| - |rest|..]
  }

  /** `rest` is what is left of `s` after at least one character was consumed. */
  predicate ProperSuffix(rest: string, s: string) {
    |rest| < |s| && IsSuffix(rest, s)
  }

  lemma SuffixTransitive(a: string, b: string, c: string)
    requires IsSuffix(a, b) && IsSuffix(b, c)
    ensures IsSuffix(a, c)
  {
    assert forall i | 0 <= i < |a| :: a[i] == b[|b| - |a| + i] == c[|c| - |a| + i];
  }

  /** A character of a suffix is a character of the whole, at the shifted position. */
  lemma SuffixAt(a: string, s: string, i: int)
    requires IsSuffix(a, s) && 0 <= i < |a|
    ensures a[i] == s[|s| - |a| + i]
  {
  }

  /** The whitespace JSON allows around tokens: space, tab, line feed, carriage return. */
  predicate IsJsonSpace(c: char) {
    c == ' ' || c == '\t' || c == '\n' || c == '\r'
  }

  /** Drops the leading JSON whitespace of `s`. */
  function SkipSpace(s: string): (r: string)
    ensures |r| <= |s|
    ensures r != [] ==> !IsJsonSpace(r[0])
  {
    if s != [] && IsJsonSpace(s[0]) then SkipSpace(s[1..]) else s
  }

  /** `SkipSpace` only drops characters from the front. */
  lemma {:induction false} SkipSpaceSuffix(s: string)
    ensures IsSuffix(SkipSpace(s), s)
  {
    if s != [] && IsJsonSpace(s[0]) {
      SkipSpaceSuffix(s[1..]);
      SuffixTransitive(SkipSpace(s), s[1..], s);
    }
  }

  /** Everything `SkipSpace` drops is whitespace. */
  lemma {:induction false} SkipSpaceDropsSpace(s: string)
    ensures forall i | 0 <= i < |s| - |SkipSpace(s)| :: IsJsonSpace(s[i])
  {
    if s != [] && IsJsonSpace(s[0]) {
      SkipSpaceDropsSpace(s[1..]);
      assert forall i | 1 <= i < |s| - |SkipSpace(s)| :: s[i] == s[1..][i - 1];
    }
  }

  /** Whitespace in front of `s` makes no difference once skipped. */
  lemma {:induction false} SkipSpacePrefix(w: string, s: string)
    requires forall i | 0 <= i < |w| :: IsJsonSpace(w[i])
    ensures SkipSpace(w + s) == SkipSpace(s)
  {
    if w != [] {
      var ws := w + s;
      assert ws[0] == w[0] && ws[1..] == w[1..] + s;
      assert SkipSpace(ws) == SkipSpace(ws[1..]);
      SkipSpacePrefix(w[1..], s);
    } else {
      assert w + s == s;
    }
  }
}
