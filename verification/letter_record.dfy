/** One record of the letters file: `json.dumps(letter_counts) + "\n"`, and what
    `json.loads` gives back for it. */
module LetterRecord {
  import opened Parsing
  import opened Letters
  import JsonObject
  import JsonString
  import JsonNumber
  import Files

  /** The pairs of the table in the dict's order. The dict is built by a
      comprehension over `ascii_lowercase` and later only has values updated,
      so its keys stay in alphabetical order. Each key is a one-character string. */
  function TableEntries(t: Table): (es: seq<JsonObject.Entry>)
    requires IsTable(t)
    ensures |es| == 26
    ensures forall i | 0 <= i < 26 :: es[i] == ([Alphabet[i]], t[Alphabet[i]])
  {
    AlphabetLetters();
    seq(26, i requires 0 <= i < 26 => ([Alphabet[i]], t[Alphabet[i]]))
  }

  /** The dict `json.loads` gives for a table: each letter as a one-character
      string key, with its count. */
  function AsObject(t: Table): (m: map<string, nat>)
    ensures forall c | c in t :: [c] in m && m[[c]] == t[c]
    ensures forall k | k in m :: |k| == 1 && k[0] in t
  {
    map c | c in t :: [c] := t[c]
  }

  /** The record line the producer appends for table `t`. */
  function Record(t: Table): (line: string)
    requires IsTable(t)
    ensures Files.IsLine(line)
    ensures line[0] == '{'
  {
    var body := JsonObject.Encode(TableEntries(t));
    NoLineFeed(body);
    assert (body + "\n")[..|body|] == body;
    body + "\n"
  }

  /** Without its line feed a record still decodes to its table. */
  lemma BodyDecodes(t: Table)
    requires IsTable(t)
    ensures var line := Record(t); JsonObject.Decode(line[..|line| - 1]) == Ok(AsObject(t))
  {
    var body := JsonObject.Encode(TableEntries(t));
    assert Record(t)[..|Record(t)| - 1] == body;
    assert body + "" == body;
    JsonObject.DecodeEncode(TableEntries(t), "");
    EntriesToMap(t);
  }

  lemma NoLineFeed(s: string)
    requires JsonString.AllPrintableAscii(s)
    ensures '\n' !in s
  {
  }

  /** The table's pairs, turned into a dict, are the table itself. */
  lemma EntriesToMap(t: Table)
    requires IsTable(t)
    ensures JsonObject.ToMap(TableEntries(t)) == AsObject(t)
  {
    var m := JsonObject.ToMap(TableEntries(t));
    var o := AsObject(t);
    forall k | k in m
      ensures k in o && m[k] == o[k]
    {
      DecodedKey(t, k);
    }
    forall k | k in o
      ensures k in m
    {
      EncodedKey(t, k);
    }
    SameMap(m, o);
  }

  lemma SameMap(m: map<string, nat>, o: map<string, nat>)
    requires forall k | k in m :: k in o && m[k] == o[k]
    requires forall k | k in o :: k in m
    ensures m == o
  {
  }

  lemma DecodedKey(t: Table, k: string)
    requires IsTable(t)
    requires k in JsonObject.ToMap(TableEntries(t))
    ensures k in AsObject(t) && JsonObject.ToMap(TableEntries(t))[k] == AsObject(t)[k]
  {
    var es := TableEntries(t);
    EntryKeysDistinct(t);
    JsonObject.ToMapDistinct(es);
    var i :| 0 <= i < |es| && es[i].0 == k;
    var c := Alphabet[i];
    AlphabetLetters();
    assert c in t && es[i] == ([c], t[c]);
  }

  lemma EncodedKey(t: Table, k: string)
    requires IsTable(t)
    requires k in AsObject(t)
    ensures k in JsonObject.ToMap(TableEntries(t))
  {
    var es := TableEntries(t);
    AlphabetLetters();
    var i := k[0] as int - 'a' as int;
    assert es[i].0 == k;
  }

  lemma EntryKeysDistinct(t: Table)
    requires IsTable(t)
    ensures var es := TableEntries(t);
      forall i, j | 0 <= i < j < |es| :: es[i].0 != es[j].0
  {
    AlphabetLetters();
    var es := TableEntries(t);
    forall i, j | 0 <= i < j < |es|
      ensures es[i].0 != es[j].0
    {
      assert es[i].0[0] == Alphabet[i] && es[j].0[0] == Alphabet[j];
    }
  }

  /** Round trip between the two ends of the letters file: the consumer's
      `json.loads` of a record line gives exactly the producer's table, all 26
      letters, each with its count. */
  lemma RecordDecodes(t: Table)
    requires IsTable(t)
    ensures JsonObject.Decode(Record(t)) == Ok(AsObject(t))
  {
    JsonObject.DecodeEncode(TableEntries(t), "\n");
    EntriesToMap(t);
  }

  /** Different tables give different records. */
  lemma AsObjectInjective(s: Table, t: Table)
    requires IsTable(s) && IsTable(t)
    requires AsObject(s) == AsObject(t)
    ensures s == t
  {
    forall c | c in s
      ensures s[c] == t[c]
    {
      assert AsObject(s)[[c]] == AsObject(t)[[c]];
    }
  }

  /** Neither brace occurs in `s`. */
  predicate NoBrace(s: string) {
    '{' !in s && '}' !in s
  }

  lemma EntryNoBrace(e: JsonObject.Entry)
    requires |e.0| == 1 && IsLower(e.0[0])
    ensures NoBrace(JsonObject.EncodeEntry(e))
  {
    var c := e.0[0];
    assert e.0 == [c] && e.0[1..] == [];
    assert JsonString.Escape(e.0) == [c];
    var digits := JsonNumber.NatText(e.1);
    assert JsonObject.EncodeEntry(e) == ['"', c, '"'] + ": " + digits;
    assert forall i | 0 <= i < |digits| :: JsonNumber.IsDigit(digits[i]);
  }

  lemma {:induction false} MembersNoBrace(es: seq<JsonObject.Entry>)
    requires es != []
    requires forall i | 0 <= i < |es| :: |es[i].0| == 1 && IsLower(es[i].0[0])
    ensures NoBrace(JsonObject.EncodeMembers(es))
  {
    EntryNoBrace(es[0]);
    if |es| > 1 {
      MembersNoBrace(es[1..]);
    }
  }

  /** A record is one object on one line: its only `{` opens it, its only `}`
      closes it, and the line feed follows. */
  lemma RecordShape(t: Table)
    requires IsTable(t)
    ensures var line := Record(t);
      |line| >= 3 && line[|line| - 2] == '}'
      && '{' !in line[1..] && '}' !in line[..|line| - 2]
  {
    var es := TableEntries(t);
    AlphabetLetters();
    MembersNoBrace(es);
    ObjectLineShape(JsonObject.EncodeMembers(es));
  }

  lemma ObjectLineShape(members: string)
    requires NoBrace(members)
    ensures var line := "{" + members + "}" + "\n";
      |line| >= 3 && line[|line| - 2] == '}'
      && '{' !in line[1..] && '}' !in line[..|line| - 2]
  {
    var line := "{" + members + "}" + "\n";
    assert line[1..] == members + "}" + "\n";
    assert line[..|line| - 2] == "{" + members;
  }
}
