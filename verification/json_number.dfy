/** Non-negative JSON integers: the digits `json.dumps` writes for a count and
    the integer branch of the number scanner in Python's `json.loads`. */
module JsonNumber {
  import opened Parsing

  predicate IsDigit(c: char) {
    '0' <= c <= '9'
  }

  predicate AllDigits(s: string) {
    forall i | 0 <= i < |s| :: IsDigit(s[i])
  }

  function DigitChar(d: nat): (c: char)
    requires d < 10
    ensures IsDigit(c) && c as int - '0' as int == d
  {
    ('0' as int + d) as char
  }

  /** The value of a run of decimal digits, most significant digit first. */
  function DigitsValue(s: string): nat
    requires AllDigits(s)
  {
    if s == [] then 0 else DigitsValue(s[..|s| - 1]) * 10 + (s[|s| - 1] as int - '0' as int)
  }

  /** The decimal text of `n`, as Python's `str(n)` writes a non-negative int:
      digits only, denoting `n`, and with no leading zero. */
  function NatText(n: nat): (s: string)
    ensures s != [] && AllDigits(s)
    ensures DigitsValue(s) == n
    ensures s[0] == '0' <==> n == 0
  {
    if n < 10 then [DigitChar(n)]
    else
      var front := NatText(n / 10);
      var s := front + [DigitChar(n % 10)];
      assert s[..|s| - 1] == front;
      s
  }

  /** The number of digits at the front of `s`. */
  function DigitRun(s: string): (k: nat)
    ensures k <= |s| && AllDigits(s[..k])
    ensures k < |s| ==> !IsDigit(s[k])
  {
    if s != [] && IsDigit(s[0]) then
      var k := 1 + DigitRun(s[1..]);
      assert s[..k] == [s[0]] + s[1..][..k - 1];
      k
    else 0
  }

  /** Reads a JSON number that is a non-negative integer. As in Python's scanner,
      `0` is a whole number on its own (so `01` leaves `1` unread), and any other
      number is a non-zero digit followed by every digit after it. A leading `-`,
      which Python reads as a negative int, is not accepted here. */
  function ParseNat(s: string): (r: Result<Parsed<nat>>)
    ensures r.Ok? <==> s != [] && IsDigit(s[0])
    ensures r.Ok? ==> |r.value.rest| < |s|
    ensures r.Ok? ==> r.value.rest == [] || !IsDigit(r.value.rest[0]) || s[0] == '0'
    ensures r.Ok? && s[0] == '0' ==> r.value == Parsed(0, s[1..])
    ensures r.Ok? ==> var read := s[..|s| - |r.value.rest|];
      AllDigits(read) && r.value.value == DigitsValue(read)
  {
    if s == [] || !IsDigit(s[0]) then Fail
    else if s[0] == '0' then
      assert s[..1] == ['0'] && s[..1][..0] == [];
      Ok(Parsed(0, s[1..]))
    else
      var k := DigitRun(s);
      Ok(Parsed(DigitsValue(s[..k]), s[k..]))
  }

  /** The number is read from the front: what is left is a suffix of the input. */
  lemma ParseNatSuffix(s: string)
    requires ParseNat(s).Ok?
    ensures ProperSuffix(ParseNat(s).value.rest, s)
  {
  }

  lemma {:induction false} DigitRunOfDigits(d: string, rest: string)
    requires AllDigits(d)
    requires rest == [] || !IsDigit(rest[0])
    ensures DigitRun(d + rest) == |d|
  {
    if d != [] {
      assert (d + rest)[1..] == d[1..] + rest;
      DigitRunOfDigits(d[1..], rest);
    }
  }

  /** Round trip: the decimal text of `n`, followed by anything that is not a
      digit, reads back as `n` with exactly that remainder. */
  lemma {:induction false} ParseNatText(n: nat, rest: string)
    requires rest == [] || !IsDigit(rest[0])
    ensures ParseNat(NatText(n) + rest) == Ok(Parsed(n, rest))
  {
    var d := NatText(n);
    var s := d + rest;
    if n == 0 {
      assert d == ['0'];
      assert s[1..] == rest;
    } else {
      DigitRunOfDigits(d, rest);
      assert s[..|d|] == d;
      assert s[|d|..] == rest;
    }
  }
}
