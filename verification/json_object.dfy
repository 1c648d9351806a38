/** Flat JSON objects from string keys to non-negative integers: the shape of
    every record of the letters file. `Encode` is `json.dumps` with its default
    separators `", "` and `": "`; `Decode` is `json.loads` restricted to this
    shape (see README for what Python accepts beyond it). */
module JsonObject {
  import opened Parsing
  import JsonString
  import JsonNumber

  /** One key and its count, in the position the object lists it. */
  type Entry = (string, nat)

  /** Digits are printable ASCII. */
  lemma DigitsPrintable(d: string)
    requires JsonNumber.AllDigits(d)
    ensures JsonString.AllPrintableAscii(d)
  {
  }

  function EncodeEntry(e: Entry): (s: string)
    ensures s != [] && s[0] == '"' && JsonString.AllPrintableAscii(s)
  {
    var key := JsonString.Quote(e.0);
    var digits := JsonNumber.NatText(e.1);
    DigitsPrintable(digits);
    JsonString.PrintableConcat(key, ": ");
    JsonString.PrintableConcat(key + ": ", digits);
    key + ": " + digits
  }

  function EncodeMembers(es: seq<Entry>): (s: string)
    requires es != []
    ensures s != [] && s[0] == '"' && JsonString.AllPrintableAscii(s)
  {
    if |es| == 1 then EncodeEntry(es[0])
    else
      var first := EncodeEntry(es[0]);
      var more := EncodeMembers(es[1..]);
      JsonString.PrintableConcat(first, ", ");
      JsonString.PrintableConcat(first + ", ", more);
      first + ", " + more
  }

  /** The text `json.dumps` writes for a dict holding the pairs `es` in that
      order. It is printable ASCII, so it never holds a line break. */
  function Encode(es: seq<Entry>): (s: string)
    ensures JsonString.AllPrintableAscii(s)
    ensures |s| >= 2 && s[0] == '{' && s[|s| - 1] == '}'
  {
    if es == [] then "{}"
    else
      var members := EncodeMembers(es);
      JsonString.PrintableConcat("{", members);
      JsonString.PrintableConcat("{" + members, "}");
      "{" + members + "}"
  }

  /** The dict `json.loads` builds from the pairs it read: every key that occurs,
      each with the value of its last occurrence. */
  function ToMap(es: seq<Entry>): (m: map<string, nat>)
    ensures forall k :: k in m <==> exists i | 0 <= i < |es| :: es[i].0 == k
    ensures forall i | 0 <= i < |es| ::
      m[es[i].0] == es[i].1 || exists j | i < j < |es| :: es[j].0 == es[i].0
  {
    if es == [] then map[]
    else
      var n := |es| - 1;
      var front := es[..n];
      assert forall i | 0 <= i < n :: front[i] == es[i];
      ToMap(front)[es[n].0 := es[n].1]
  }

  /** With no key repeated, each pair's value is the value of its key. */
  lemma ToMapDistinct(es: seq<Entry>)
    requires forall i, j | 0 <= i < j < |es| :: es[i].0 != es[j].0
    ensures forall i | 0 <= i < |es| :: es[i].0 in ToMap(es) && ToMap(es)[es[i].0] == es[i].1
  {
  }

  /** Reads one `"key": count` pair. */
  function ParseMember(s: string): (r: Result<Parsed<Entry>>)
    ensures r.Ok? ==> |r.value.rest| < |s|
  {
    var key := JsonString.ParseString(s);
    if key.Fail? then Fail
    else
      var r2 := SkipSpace(key.value.rest);
      if r2 == [] || r2[0] != ':' then Fail
      else
        var count := JsonNumber.ParseNat(SkipSpace(r2[1..]));
        if count.Fail? then Fail
        else Ok(Parsed((key.value.value, count.value.value), count.value.rest))
  }

  /** Reads the pairs of a non-empty object and its closing brace: pairs are
      separated by commas, and a comma must be followed by another pair. */
  function ParseMembers(s: string): (r: Result<Parsed<seq<Entry>>>)
    ensures r.Ok? ==> |r.value.rest| < |s|
    decreases |s|
  {
    var first := ParseMember(s);
    if first.Fail? then Fail
    else
      var r2 := SkipSpace(first.value.rest);
      if r2 == [] then Fail
      else if r2[0] == '}' then Ok(Parsed([first.value.value], r2[1..]))
      else if r2[0] == ',' then
        var more := ParseMembers(SkipSpace(r2[1..]));
        if more.Fail? then Fail
        else Ok(Parsed([first.value.value] + more.value.value, more.value.rest))
      else Fail
  }

  /** Reads an object: `{`, optional whitespace, then either `}` or its pairs. */
  function ParseObject(s: string): (r: Result<Parsed<seq<Entry>>>)
    ensures r.Ok? ==> |r.value.rest| < |s|
  {
    if s == [] || s[0] != '{' then Fail
    else
      var r1 := SkipSpace(s[1..]);
      if r1 != [] && r1[0] == '}' then Ok(Parsed([], r1[1..]))
      else ParseMembers(r1)
  }

  /** `json.loads(text)` for a letters record: optional whitespace, one object,
      optional whitespace, and nothing else. Whatever does not decode is a
      `Fail`; a decoded object always starts at the first non-space character. */
  function Decode(text: string): (r: Result<map<string, nat>>)
    ensures r.Ok? ==> SkipSpace(text) != [] && SkipSpace(text)[0] == '{'
  {
    var obj := ParseObject(SkipSpace(text));
    if obj.Fail? || SkipSpace(obj.value.rest) != [] then Fail
    else Ok(ToMap(obj.value.value))
  }

  /** A pair is read from the front: what is left is a suffix of the input. */
  lemma ParseMemberSuffix(s: string)
    requires ParseMember(s).Ok?
    ensures IsSuffix(ParseMember(s).value.rest, s)
  {
    var r1 := JsonString.ParseString(s).value.rest;
    var r2 := SkipSpace(r1);
    var t := SkipSpace(r2[1..]);
    var r3 := ParseMember(s).value.rest;
    JsonString.ParseStringSuffix(s);
    SkipSpaceSuffix(r1);
    SkipSpaceSuffix(r2[1..]);
    JsonNumber.ParseNatSuffix(t);
    SuffixTransitive(r3, t, r2[1..]);
    SuffixTransitive(r3, r2[1..], r2);
    SuffixTransitive(r3, r2, r1);
    SuffixTransitive(r3, r1, s);
  }

  /** The pairs of an object are only ever read up to a closing brace. */
  lemma {:induction false} MembersNeedBrace(s: string)
    requires ParseMembers(s).Ok?
    ensures '}' in s
    decreases |s|
  {
    var r1 := ParseMember(s).value.rest;
    var r2 := SkipSpace(r1);
    ParseMemberSuffix(s);
    SkipSpaceSuffix(r1);
    SuffixTransitive(r2, r1, s);
    if r2[0] == '}' {
      SuffixAt(r2, s, 0);
    } else {
      var r3 := SkipSpace(r2[1..]);
      SkipSpaceSuffix(r2[1..]);
      SuffixTransitive(r3, r2[1..], r2);
      SuffixTransitive(r3, r2, s);
      MembersNeedBrace(r3);
      var k :| 0 <= k < |r3| && r3[k] == '}';
      SuffixAt(r3, s, k);
    }
  }

  /** A decoded line always contains a closing brace. */
  lemma DecodeNeedsBrace(text: string)
    requires Decode(text).Ok?
    ensures '}' in text
  {
    var s := SkipSpace(text);
    var r1 := SkipSpace(s[1..]);
    SkipSpaceSuffix(text);
    SkipSpaceSuffix(s[1..]);
    SuffixTransitive(r1, s[1..], s);
    SuffixTransitive(r1, s, text);
    if r1 != [] && r1[0] == '}' {
      SuffixAt(r1, text, 0);
    } else {
      MembersNeedBrace(r1);
      var k :| 0 <= k < |r1| && r1[k] == '}';
      SuffixAt(r1, text, k);
    }
  }

  /** What follows an encoded key: the colon, a space, and the count's digits. */
  lemma ColonThenCount(n: nat, tail: string)
    requires tail != [] && (tail[0] == ',' || tail[0] == '}')
    ensures var x := ": " + JsonNumber.NatText(n) + tail;
      SkipSpace(x) == x && x[0] == ':'
      && JsonNumber.ParseNat(SkipSpace(x[1..])) == Ok(Parsed(n, tail))
  {
    var digits := JsonNumber.NatText(n);
    var x := ": " + digits + tail;
    assert x[1..] == " " + (digits + tail);
    SkipSpacePrefix(" ", digits + tail);
    JsonNumber.ParseNatText(n, tail);
  }

  /** `ParseMember` in one step: a key, a colon, and a count. */
  lemma ParseMemberOf(s: string, key: string, x: string, n: nat, tail: string)
    requires JsonString.ParseString(s) == Ok(Parsed(key, x))
    requires x != [] && x[0] == ':'
    requires JsonNumber.ParseNat(SkipSpace(x[1..])) == Ok(Parsed(n, tail))
    ensures ParseMember(s) == Ok(Parsed((key, n), tail))
  {
  }

  /** One encoded pair reads back as that pair, stopping at the comma or brace after it. */
  lemma EntryRoundTrip(e: Entry, tail: string)
    requires tail != [] && (tail[0] == ',' || tail[0] == '}')
    ensures ParseMember(EncodeEntry(e) + tail) == Ok(Parsed(e, tail))
  {
    var x := ": " + JsonNumber.NatText(e.1) + tail;
    var s := EncodeEntry(e) + tail;
    assert JsonString.ParseString(s) == Ok(Parsed(e.0, x)) by {
      assert s == JsonString.Quote(e.0) + x;
      JsonString.ParseQuoted(e.0, x);
    }
    assert x != [] && x[0] == ':' && JsonNumber.ParseNat(SkipSpace(x[1..])) == Ok(Parsed(e.1, tail)) by {
      ColonThenCount(e.1, tail);
    }
    ParseMemberOf(s, e.0, x, e.1, tail);
  }

  /** `ParseMembers` when the first pair is followed by the closing brace. */
  lemma MembersClose(s: string, e: Entry, tail: string)
    requires ParseMember(s) == Ok(Parsed(e, tail))
    requires tail != [] && tail[0] == '}'
    ensures ParseMembers(s) == Ok(Parsed([e], tail[1..]))
  {
  }

  /** `ParseMembers` when the first pair is followed by a comma and more pairs. */
  lemma MembersContinue(s: string, e: Entry, tail: string, es: seq<Entry>, rest: string)
    requires ParseMember(s) == Ok(Parsed(e, tail))
    requires tail != [] && tail[0] == ','
    requires ParseMembers(SkipSpace(tail[1..])) == Ok(Parsed(es, rest))
    ensures ParseMembers(s) == Ok(Parsed([e] + es, rest))
  {
  }

  /** The separator `json.dumps` writes between pairs, in front of a key. */
  lemma Separator(more: string)
    requires more != [] && more[0] == '"'
    ensures var tail := ", " + more; tail != [] && tail[0] == ',' && SkipSpace(tail[1..]) == more
  {
    var tail := ", " + more;
    assert tail[1..] == " " + more;
    SkipSpacePrefix(" ", more);
  }

  /** An encoded pair and its separator in front of pairs that read as `es`. */
  lemma NextMember(e: Entry, more: string, es: seq<Entry>, rest: string)
    requires more != [] && more[0] == '"'
    requires ParseMembers(more) == Ok(Parsed(es, rest))
    ensures ParseMembers(EncodeEntry(e) + (", " + more)) == Ok(Parsed([e] + es, rest))
  {
    var tail := ", " + more;
    Separator(more);
    EntryRoundTrip(e, tail);
    MembersContinue(EncodeEntry(e) + tail, e, tail, es, rest);
  }

  /** The first pair of an encoding with more than one pair, split off; the
      encoding of the remaining pairs starts with the quote of a key. */
  lemma EncodeMembersFront(es: seq<Entry>, tail: string)
    requires |es| > 1
    ensures var more := EncodeMembers(es[1..]) + tail;
      more != [] && more[0] == '"' && EncodeMembers(es) + tail == EncodeEntry(es[0]) + (", " + more)
  {
    var first := EncodeEntry(es[0]);
    var more := EncodeMembers(es[1..]);
    assert EncodeMembers(es) == first + ", " + more;
    SplitFront(first, more, tail);
  }

  lemma SplitFront(first: string, more: string, tail: string)
    requires more != [] && more[0] == '"'
    ensures (more + tail)[0] == '"'
    ensures first + ", " + more + tail == first + (", " + (more + tail))
  {
  }

  /** An encoded pair, its separator, and the encoding of the remaining pairs. */
  lemma NextMemberRoundTrip(es: seq<Entry>, rest: string)
    requires |es| > 1
    requires ParseMembers(EncodeMembers(es[1..]) + ("}" + rest)) == Ok(Parsed(es[1..], rest))
    ensures ParseMembers(EncodeMembers(es) + ("}" + rest)) == Ok(Parsed(es, rest))
  {
    EncodeMembersFront(es, "}" + rest);
    NextMember(es[0], EncodeMembers(es[1..]) + ("}" + rest), es[1..], rest);
    HeadTail(es);
  }

  lemma HeadTail(es: seq<Entry>)
    requires es != []
    ensures [es[0]] + es[1..] == es
  {
  }

  /** The last encoded pair, then the closing brace. */
  lemma LastMemberRoundTrip(e: Entry, rest: string)
    ensures ParseMembers(EncodeMembers([e]) + ("}" + rest)) == Ok(Parsed([e], rest))
  {
    var tail := "}" + rest;
    EntryRoundTrip(e, tail);
    assert tail[1..] == rest;
    MembersClose(EncodeEntry(e) + tail, e, tail);
  }

  /** Round trip for the pairs of a non-empty object: their encoding, the
      closing brace and anything after it read back as the same pairs, in
      order, with exactly what follows the brace left unread. */
  lemma {:induction false} MembersRoundTrip(es: seq<Entry>, rest: string)
    requires es != []
    ensures ParseMembers(EncodeMembers(es) + ("}" + rest)) == Ok(Parsed(es, rest))
  {
    if |es| == 1 {
      LastMemberRoundTrip(es[0], rest);
      assert [es[0]] == es;
    } else {
      MembersRoundTrip(es[1..], rest);
      NextMemberRoundTrip(es, rest);
    }
  }

  /** `ParseObject` on an opening brace followed by pairs. */
  lemma ObjectOfMembers(body: string, es: seq<Entry>, rest: string)
    requires body != [] && body[0] == '"'
    requires ParseMembers(body) == Ok(Parsed(es, rest))
    ensures ParseObject("{" + body) == Ok(Parsed(es, rest))
  {
    assert ("{" + body)[1..] == body;
  }

  /** `Decode` in one step: an object, then nothing but whitespace. */
  lemma DecodeOf(text: string, es: seq<Entry>, rest: string)
    requires ParseObject(SkipSpace(text)) == Ok(Parsed(es, rest))
    requires SkipSpace(rest) == []
    ensures Decode(text) == Ok(ToMap(es))
  {
  }

  /** The encoding of a non-empty object, split after its opening brace. */
  lemma EncodeFront(es: seq<Entry>, ws: string)
    requires es != []
    ensures var body := EncodeMembers(es) + ("}" + ws);
      body != [] && body[0] == '"' && Encode(es) + ws == "{" + body
  {
    var members := EncodeMembers(es);
    assert Encode(es) == "{" + members + "}";
    BraceFront(members, ws);
  }

  lemma BraceFront(members: string, ws: string)
    requires members != [] && members[0] == '"'
    ensures (members + ("}" + ws))[0] == '"'
    ensures "{" + members + "}" + ws == "{" + (members + ("}" + ws))
  {
  }

  /** Round trip: decoding the encoding of `es`, followed by any JSON whitespace
      (the record's line feed, say), gives the dict built from `es`. */
  lemma DecodeEncode(es: seq<Entry>, ws: string)
    requires forall i | 0 <= i < |ws| :: IsJsonSpace(ws[i])
    ensures Decode(Encode(es) + ws) == Ok(ToMap(es))
  {
    var text := Encode(es) + ws;
    assert text[0] == '{';
    assert SkipSpace(text) == text;
    SkipSpacePrefix(ws, []);
    assert ws + [] == ws;
    if es == [] {
      assert text[1..] == "}" + ws && text[1..][1..] == ws;
      DecodeOf(text, es, ws);
    } else {
      var body := EncodeMembers(es) + ("}" + ws);
      EncodeFront(es, ws);
      MembersRoundTrip(es, ws);
      ObjectOfMembers(body, es, ws);
      DecodeOf(text, es, ws);
    }
  }
}
