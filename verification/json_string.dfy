/** JSON string literals: the escaping `json.dumps` applies under its default
    `ensure_ascii=True`, and the string scanner of `json.loads` (strict mode). */
module JsonString {
  import opened Parsing

  /** The characters `json.dumps` may write without escaping them. */
  predicate IsPrintableAscii(c: char) {
    ' ' <= c <= '~'
  }

  predicate AllPrintableAscii(s: string) {
    forall i | 0 <= i < |s| :: IsPrintableAscii(s[i])
  }

  lemma PrintableConcat(a: string, b: string)
    requires AllPrintableAscii(a) && AllPrintableAscii(b)
    ensures AllPrintableAscii(a + b)
  {
  }

  predicate IsHexDigit(c: char) {
    '0' <= c <= '9' || 'a' <= c <= 'f' || 'A' <= c <= 'F'
  }

  function HexValue(c: char): (d: nat)
    requires IsHexDigit(c)
    ensures d < 16
  {
    if c <= '9' then c as int - '0' as int
    else if c <= 'F' then c as int - 'A' as int + 10
    else c as int - 'a' as int + 10
  }

  /** A lower-case hexadecimal digit, as Python's `'{0:04x}'` format writes one. */
  function HexDigit(d: nat): (c: char)
    requires d < 16
    ensures IsHexDigit(c) && IsPrintableAscii(c) && HexValue(c) == d
    ensures IsLowerHexDigit(c)
  {
    if d < 10 then ('0' as int + d) as char else ('a' as int + d - 10) as char
  }

  /** A digit of `'{0:04x}'`: `0`-`9` or a lower-case `a`-`f`. */
  predicate IsLowerHexDigit(c: char) {
    '0' <= c <= '9' || 'a' <= c <= 'f'
  }

  /** `s` starts with four hexadecimal digits. */
  predicate IsHex4(s: string) {
    |s| >= 4 && IsHexDigit(s[0]) && IsHexDigit(s[1]) && IsHexDigit(s[2]) && IsHexDigit(s[3])
  }

  /** The 16-bit code unit named by the four hexadecimal digits at the front of `s`. */
  function Hex4Value(s: string): (n: nat)
    requires IsHex4(s)
    ensures n < 0x1_0000
  {
    HexValue(s[0]) * 0x1000 + HexValue(s[1]) * 0x100 + HexValue(s[2]) * 0x10 + HexValue(s[3])
  }

  /** Four lower-case hexadecimal digits that name the code unit `n`. */
  function Hex4(n: nat): (s: string)
    requires n < 0x1_0000
    ensures |s| == 4 && AllPrintableAscii(s) && IsHex4(s) && Hex4Value(s) == n
    ensures forall i | 0 <= i < 4 :: IsLowerHexDigit(s[i])
  {
    var q1 := n / 16;
    var q2 := q1 / 16;
    var q3 := q2 / 16;
    assert n == q1 * 16 + n % 16 && q1 == q2 * 16 + q1 % 16 && q2 == q3 * 16 + q2 % 16;
    [HexDigit(q3), HexDigit(q2 % 16), HexDigit(q1 % 16), HexDigit(n % 16)]
  }

  /** Python's `py_encode_basestring_ascii` for one character: two-character
      escapes for quote, backslash, line feed, carriage return, tab, backspace
      and form feed; any other printable ASCII character as itself; everything
      else as `\uXXXX`, with a UTF-16 surrogate pair above U+FFFF. */
  function EscapeChar(c: char): (s: string)
    ensures s != [] && AllPrintableAscii(s)
  {
    if c == '"' then "\\\""
    else if c == '\\' then "\\\\"
    else if c == '\n' then "\\n"
    else if c == '\r' then "\\r"
    else if c == '\t' then "\\t"
    else if c == 8 as char then "\\b"
    else if c == 12 as char then "\\f"
    else if IsPrintableAscii(c) then [c]
    else if c as int < 0x1_0000 then "\\u" + Hex4(c as int)
    else
      var v := c as int - 0x1_0000;
      "\\u" + Hex4(0xD800 + v / 0x400) + "\\u" + Hex4(0xDC00 + v % 0x400)
  }

  /** The body of a JSON string literal for `s`, character by character. */
  function Escape(s: string): (r: string)
    ensures AllPrintableAscii(r)
  {
    if s == [] then [] else EscapeChar(s[0]) + Escape(s[1..])
  }

  /** The JSON string literal `json.dumps` writes for `s`: printable ASCII only,
      so in particular it never holds a line break. */
  function Quote(s: string): (r: string)
    ensures AllPrintableAscii(r) && |r| >= 2 && r[0] == '"' && r[|r| - 1] == '"'
  {
    "\"" + Escape(s) + "\""
  }

  /** Reads what follows `\u`: four hexadecimal digits, joined with a second
      `\uXXXX` when the first names a high surrogate and the second a low one.
      Python keeps an unpaired surrogate in its string; a `char` cannot hold
      one, so such input is refused here. */
  function ParseUnicodeEscape(s: string): (r: Result<Parsed<char>>)
    ensures r.Ok? ==> |r.value.rest| < |s|
  {
    if !IsHex4(s) then Fail
    else
      var hi := Hex4Value(s);
      if 0xD800 <= hi <= 0xDBFF then
        if |s| >= 6 && s[4] == '\\' && s[5] == 'u' && IsHex4(s[6..])
           && 0xDC00 <= Hex4Value(s[6..]) <= 0xDFFF
        then
          var lo := Hex4Value(s[6..]);
          Ok(Parsed((0x1_0000 + (hi - 0xD800) * 0x400 + (lo - 0xDC00)) as char, s[10..]))
        else Fail
      else if 0xDC00 <= hi <= 0xDFFF then Fail
      else Ok(Parsed(hi as char, s[4..]))
  }

  /** Reads the escape sequence that follows a backslash. */
  function ParseEscape(s: string): (r: Result<Parsed<char>>)
    ensures r.Ok? ==> |r.value.rest| < |s|
  {
    if s == [] then Fail
    else if s[0] == '"' then Ok(Parsed('"', s[1..]))
    else if s[0] == '\\' then Ok(Parsed('\\', s[1..]))
    else if s[0] == '/' then Ok(Parsed('/', s[1..]))
    else if s[0] == 'b' then Ok(Parsed(8 as char, s[1..]))
    else if s[0] == 'f' then Ok(Parsed(12 as char, s[1..]))
    else if s[0] == 'n' then Ok(Parsed('\n', s[1..]))
    else if s[0] == 'r' then Ok(Parsed('\r', s[1..]))
    else if s[0] == 't' then Ok(Parsed('\t', s[1..]))
    else if s[0] == 'u' then
      var r := ParseUnicodeEscape(s[1..]);
      if r.Ok? then r else Fail
    else Fail
  }

  /** Reads one character of a string literal's body: an escape sequence, or
      any character other than a control character (strict mode). */
  function ReadChar(s: string): (r: Result<Parsed<char>>)
    ensures r.Ok? ==> |r.value.rest| < |s|
  {
    if s == [] then Fail
    else if s[0] == '\\' then
      var r := ParseEscape(s[1..]);
      if r.Ok? then r else Fail
    else if s[0] as int < 0x20 then Fail
    else Ok(Parsed(s[0], s[1..]))
  }

  /** Reads the rest of a string literal's body, through the closing quote. */
  function ParseChars(s: string): (r: Result<Parsed<string>>)
    ensures r.Ok? ==> |r.value.rest| < |s|
    decreases |s|
  {
    if s == [] then Fail
    else if s[0] == '"' then Ok(Parsed([], s[1..]))
    else
      match ReadChar(s)
      case Fail => Fail
      case Ok(Parsed(c, rest)) =>
        match ParseChars(rest)
        case Fail => Fail
        case Ok(Parsed(t, rest')) => Ok(Parsed([c] + t, rest'))
  }

  /** Reads a JSON string literal at the front of `s`. */
  function ParseString(s: string): (r: Result<Parsed<string>>)
    ensures r.Ok? ==> |r.value.rest| < |s|
  {
    if s != [] && s[0] == '"' then
      var r := ParseChars(s[1..]);
      if r.Ok? then r else Fail
    else Fail
  }

  /** Reading a character only consumes the front of the input. */
  lemma ReadCharSuffix(s: string)
    requires ReadChar(s).Ok?
    ensures IsSuffix(ReadChar(s).value.rest, s)
  {
    var rest := ReadChar(s).value.rest;
    if s[0] == '\\' && s[1] == 'u' {
      assert rest == s[|s| - |rest|..];
    }
  }

  lemma {:induction false} ParseCharsSuffix(s: string)
    requires ParseChars(s).Ok?
    ensures IsSuffix(ParseChars(s).value.rest, s)
    decreases |s|
  {
    if s[0] != '"' {
      var rest := ReadChar(s).value.rest;
      ReadCharSuffix(s);
      ParseCharsSuffix(rest);
      SuffixTransitive(ParseChars(s).value.rest, rest, s);
    }
  }

  /** A string literal is read from the front: what is left is a suffix of the input. */
  lemma ParseStringSuffix(s: string)
    requires ParseString(s).Ok?
    ensures IsSuffix(ParseString(s).value.rest, s)
  {
    ParseCharsSuffix(s[1..]);
    SuffixTransitive(ParseString(s).value.rest, s[1..], s);
  }

  lemma Hex4Front(h: string, t: string)
    requires |h| == 4 && IsHex4(h)
    ensures IsHex4(h + t) && Hex4Value(h + t) == Hex4Value(h) && (h + t)[4..] == t
  {
  }

  lemma ReadShortEscape(c: char, t: string)
    requires c == '"' || c == '\\' || c == '\n' || c == '\r' || c == '\t' || c == 8 as char || c == 12 as char
    ensures (EscapeChar(c) + t)[0] != '"'
    ensures ReadChar(EscapeChar(c) + t) == Ok(Parsed(c, t))
  {
    var e := EscapeChar(c);
    var s := e + t;
    assert |e| == 2 && e[0] == '\\';
    assert s[0] == '\\' && s[1..][0] == e[1] && s[1..][1..] == t;
  }

  lemma ReadBmpEscape(c: char, t: string)
    requires !IsPrintableAscii(c) && c as int < 0x1_0000
    requires c != '\n' && c != '\r' && c != '\t' && c != 8 as char && c != 12 as char
    ensures (EscapeChar(c) + t)[0] != '"'
    ensures ReadChar(EscapeChar(c) + t) == Ok(Parsed(c, t))
  {
    var h := Hex4(c as int);
    assert EscapeChar(c) == "\\u" + h;
    ReadBmp(h, c, t);
  }

  /** One `\uXXXX` escape that names a character outside the surrogate range
      reads as that character. */
  lemma ReadBmp(h: string, c: char, t: string)
    requires Names(h, c as int)
    ensures ReadChar("\\u" + h + t) == Ok(Parsed(c, t))
  {
    var s := "\\u" + h + t;
    var u := s[1..][1..];
    assert s[0] == '\\' && s[1..][0] == 'u';
    assert u == h + t;
    Hex4Front(h, t);
  }

  /** Four hexadecimal digits that name the code unit `n`. */
  predicate Names(h: string, n: nat) {
    |h| == 4 && IsHex4(h) && Hex4Value(h) == n
  }

  /** A high and a low surrogate written as two `\uXXXX` escapes read back as the
      character they encode together. */
  lemma UnicodePair(h1: string, h2: string, hi: nat, lo: nat, t: string)
    requires Names(h1, hi) && Names(h2, lo)
    requires 0xD800 <= hi <= 0xDBFF && 0xDC00 <= lo <= 0xDFFF
    ensures ParseUnicodeEscape(h1 + "\\u" + h2 + t)
         == Ok(Parsed((0x1_0000 + (hi - 0xD800) * 0x400 + (lo - 0xDC00)) as char, t))
  {
    PairLayout(h1, h2, hi, lo, t);
  }

  /** Where the pieces of two escapes in a row lie. */
  lemma PairLayout(h1: string, h2: string, hi: nat, lo: nat, t: string)
    requires Names(h1, hi) && Names(h2, lo)
    ensures var u := h1 + "\\u" + h2 + t;
      && IsHex4(u) && Hex4Value(u) == hi && |u| >= 10 && u[4] == '\\' && u[5] == 'u'
      && IsHex4(u[6..]) && Hex4Value(u[6..]) == lo && u[10..] == t
  {
    var u := h1 + "\\u" + h2 + t;
    assert u == h1 + ("\\u" + h2 + t);
    Hex4Front(h1, "\\u" + h2 + t);
    assert u[6..] == h2 + t;
    Hex4Front(h2, t);
    assert u[10..] == (h2 + t)[4..];
  }

  /** A backslash-`u` escape is read by `ParseUnicodeEscape` on what follows it. */
  lemma ReadUnicodeStart(x: string)
    requires ParseUnicodeEscape(x).Ok?
    ensures ReadChar("\\u" + x) == ParseUnicodeEscape(x)
  {
    var s := "\\u" + x;
    assert s[0] == '\\' && s[1..][0] == 'u' && s[1..][1..] == x;
  }

  lemma SurrogateArithmetic(n: int) returns (hi: nat, lo: nat)
    requires 0x1_0000 <= n < 0x11_0000
    ensures hi == 0xD800 + (n - 0x1_0000) / 0x400 && lo == 0xDC00 + (n - 0x1_0000) % 0x400
    ensures 0xD800 <= hi <= 0xDBFF && 0xDC00 <= lo <= 0xDFFF
    ensures 0x1_0000 + (hi - 0xD800) * 0x400 + (lo - 0xDC00) == n
  {
    var v := n - 0x1_0000;
    hi := 0xD800 + v / 0x400;
    lo := 0xDC00 + v % 0x400;
  }

  /** Above U+FFFF, the escape is a pair of `\uXXXX` escapes. */
  lemma SurrogateHalves(c: char) returns (hi: nat, lo: nat, h1: string, h2: string)
    requires c as int >= 0x1_0000
    ensures EscapeChar(c) == "\\u" + h1 + "\\u" + h2
    ensures Names(h1, hi) && Names(h2, lo)
    ensures 0xD800 <= hi <= 0xDBFF && 0xDC00 <= lo <= 0xDFFF
    ensures 0x1_0000 + (hi - 0xD800) * 0x400 + (lo - 0xDC00) == c as int
  {
    hi, lo := SurrogateArithmetic(c as int);
    h1, h2 := Hex4(hi), Hex4(lo);
    EscapeAbove(c);
  }

  lemma EscapeAbove(c: char)
    requires c as int >= 0x1_0000
    ensures var v := c as int - 0x1_0000;
      EscapeChar(c) == "\\u" + Hex4(0xD800 + v / 0x400) + "\\u" + Hex4(0xDC00 + v % 0x400)
  {
  }

  /** A pair of escapes naming a high and a low surrogate reads as one character. */
  lemma ReadPair(h1: string, h2: string, hi: nat, lo: nat, t: string)
    requires Names(h1, hi) && Names(h2, lo)
    requires 0xD800 <= hi <= 0xDBFF && 0xDC00 <= lo <= 0xDFFF
    ensures ReadChar("\\u" + h1 + "\\u" + h2 + t)
         == Ok(Parsed((0x1_0000 + (hi - 0xD800) * 0x400 + (lo - 0xDC00)) as char, t))
  {
    var x := h1 + "\\u" + h2 + t;
    UnicodePair(h1, h2, hi, lo, t);
    ReadUnicodeStart(x);
    assert "\\u" + h1 + "\\u" + h2 + t == "\\u" + x;
  }

  lemma ReadPairEscape(c: char, t: string)
    requires c as int >= 0x1_0000
    ensures (EscapeChar(c) + t)[0] != '"'
    ensures ReadChar(EscapeChar(c) + t) == Ok(Parsed(c, t))
  {
    var hi, lo, h1, h2 := SurrogateHalves(c);
    ReadPair(h1, h2, hi, lo, t);
  }

  /** One escaped character reads back as that character, leaving what follows. */
  lemma ReadEscapedChar(c: char, t: string)
    ensures (EscapeChar(c) + t)[0] != '"'
    ensures ReadChar(EscapeChar(c) + t) == Ok(Parsed(c, t))
  {
    if c == '"' || c == '\\' || c == '\n' || c == '\r' || c == '\t' || c == 8 as char || c == 12 as char {
      ReadShortEscape(c, t);
    } else if IsPrintableAscii(c) {
      var s := EscapeChar(c) + t;
      assert s[0] == c && s[1..] == t;
    } else if c as int < 0x1_0000 {
      ReadBmpEscape(c, t);
    } else {
      ReadPairEscape(c, t);
    }
  }

  /** Round trip of a string body: the escaped text of `x`, then the closing
      quote, reads back as `x` with exactly the text that follows. */
  lemma {:induction false} ParseCharsEscape(x: string, rest: string)
    ensures ParseChars(Escape(x) + "\"" + rest) == Ok(Parsed(x, rest))
  {
    var s := Escape(x) + "\"" + rest;
    if x == [] {
      assert s == "\"" + rest && s[1..] == rest;
    } else {
      var t := Escape(x[1..]) + "\"" + rest;
      assert s == EscapeChar(x[0]) + t;
      ReadEscapedChar(x[0], t);
      ParseCharsEscape(x[1..], rest);
      assert [x[0]] + x[1..] == x;
    }
  }

  /** Round trip of a string literal: `json.loads` reads back what `json.dumps` wrote. */
  lemma ParseQuoted(x: string, rest: string)
    ensures ParseString(Quote(x) + rest) == Ok(Parsed(x, rest))
  {
    var s := Quote(x) + rest;
    assert s[0] == '"';
    assert s[1..] == Escape(x) + "\"" + rest;
    ParseCharsEscape(x, rest);
  }
}
