/** The producer's running letter table: 26 counters, one per ASCII lowercase
    letter, and the step that folds one message into it (normalise the text,
    then bump the counter of every remaining character). */
module Letters {

  /** Python's `string.ascii_lowercase`, `"abcdefghijklmnopqrstuvwxyz"`. */
  const Alphabet: string := LettersFrom(0)

  /** The lowercase ASCII letters from the `n`-th one on. */
  function LettersFrom(n: nat): (s: string)
    requires n <= 26
    ensures |s| == 26 - n
    ensures forall i | 0 <= i < |s| :: IsLower(s[i])
    decreases 26 - n
  {
    if n == 26 then [] else [('a' as int + n) as char] + LettersFrom(n + 1)
  }

  lemma {:induction false} LettersFromAt(n: nat)
    requires n <= 26
    ensures forall i | 0 <= i < 26 - n :: LettersFrom(n)[i] as int == 'a' as int + n + i
    decreases 26 - n
  {
    if n < 26 {
      LettersFromAt(n + 1);
    }
  }

  predicate IsLower(c: char) {
    'a' <= c <= 'z'
  }

  predicate IsUpper(c: char) {
    'A' <= c <= 'Z'
  }

  /** The characters the pattern `[a-zA-Z]` matches. */
  predicate IsAsciiLetter(c: char) {
    IsLower(c) || IsUpper(c)
  }

  /** `str.lower` on an ASCII letter. */
  function Lower(c: char): (l: char)
    requires IsAsciiLetter(c)
    ensures IsLower(l)
    ensures IsLower(c) ==> l == c
    ensures IsUpper(c) ==> l as int - c as int == 'a' as int - 'A' as int
  {
    if IsUpper(c) then (c as int + ('a' as int - 'A' as int)) as char else c
  }

  /** The capital of a lowercase ASCII letter: the other character `Lower` maps to it. */
  function Upper(c: char): (u: char)
    requires IsLower(c)
    ensures IsUpper(u) && Lower(u) == c
  {
    (c as int - ('a' as int - 'A' as int)) as char
  }

  /** Exactly the ASCII letters that lower to `c` are `c` and its capital. */
  lemma LowerInverse(x: char, c: char)
    requires IsAsciiLetter(x) && IsLower(c)
    ensures Lower(x) == c <==> x == c || x == Upper(c)
  {
  }

  /** `string.ascii_lowercase` holds exactly the lowercase ASCII letters, in
      ascending order (so each once). */
  lemma AlphabetLetters()
    ensures |Alphabet| == 26
    ensures forall i | 0 <= i < |Alphabet| :: Alphabet[i] as int == 'a' as int + i
    ensures forall c :: c in Alphabet <==> IsLower(c)
    ensures Distinct(Alphabet)
  {
    LettersFromAt(0);
    forall c | IsLower(c)
      ensures c in Alphabet
    {
      assert Alphabet[c as int - 'a' as int] == c;
    }
  }

  /** A letter table: a map from each character it counts to its count. */
  type Table = map<char, nat>

  /** The table counts exactly the 26 lowercase letters. */
  predicate IsTable(t: Table) {
    forall c :: c in t <==> IsLower(c)
  }

  /** The initial `letter_counts`: a dict comprehension over `ascii_lowercase`,
      every count zero. */
  function InitialTable(): (t: Table)
    ensures IsTable(t)
    ensures forall c | c in t :: t[c] == 0
  {
    AlphabetLetters();
    map c | c in Alphabet :: 0
  }

  /** The text `re.sub(r'[^a-zA-Z]', '', msg).lower()`: the ASCII letters of
      `msg`, in order, lowered; everything else dropped. */
  function Normalise(msg: string): (r: string)
    ensures |r| <= |msg|
    ensures forall i | 0 <= i < |r| :: IsLower(r[i])
  {
    if msg == [] then []
    else
      var head := if IsAsciiLetter(msg[0]) then [Lower(msg[0])] else [];
      head + Normalise(msg[1..])
  }

  /** Normalising works character by character and keeps the order:
      normalising a concatenation concatenates the normalised parts. */
  lemma {:induction false} NormaliseAppend(a: string, b: string)
    ensures Normalise(a + b) == Normalise(a) + Normalise(b)
  {
    if a != [] {
      assert (a + b)[0] == a[0] && (a + b)[1..] == a[1..] + b;
      NormaliseAppend(a[1..], b);
    } else {
      assert a + b == b;
    }
  }

  /** One character normalises to its lowered self if it is an ASCII letter,
      and to nothing otherwise. */
  lemma NormaliseChar(c: char)
    ensures Normalise([c]) == if IsAsciiLetter(c) then [Lower(c)] else []
  {
    assert [c][1..] == [];
  }

  /** Exact counts: a lowercase letter occurs in the normalised text once for
      each case-insensitive occurrence in the message; nothing else occurs. */
  lemma {:induction false} NormaliseCounts(msg: string, c: char)
    ensures multiset(Normalise(msg))[c] ==
      if IsLower(c) then multiset(msg)[c] + multiset(msg)[Upper(c)] else 0
  {
    if msg != [] {
      var x := msg[0];
      var head := if IsAsciiLetter(x) then [Lower(x)] else [];
      NormaliseCounts(msg[1..], c);
      SplitHead(msg);
      assert Normalise(msg) == head + Normalise(msg[1..]);
      HeadCount(x, c);
    }
  }

  lemma SplitHead(msg: string)
    requires msg != []
    ensures multiset(msg) == multiset([msg[0]]) + multiset(msg[1..])
  {
    assert msg == [msg[0]] + msg[1..];
  }

  /** The count for `c` in what one character normalises to. */
  lemma HeadCount(x: char, c: char)
    ensures multiset(if IsAsciiLetter(x) then [Lower(x)] else [])[c] ==
      if IsLower(c) then multiset([x])[c] + multiset([x])[Upper(c)] else 0
  {
    if IsAsciiLetter(x) && IsLower(c) {
      LowerInverse(x, c);
    }
  }

  /** One pass of the counting loop: bump `c` if the table counts it. */
  function Bump(t: Table, c: char): (r: Table)
    ensures r.Keys == t.Keys
    ensures forall d | d in t :: r[d] == if d == c then t[d] + 1 else t[d]
  {
    if c in t then t[c := t[c] + 1] else t
  }

  /** The counting loop over `text`, in order, with its `if char in letter_counts`
      guard: every counted character's count grows by its number of occurrences,
      and no key is added or removed. */
  function CountAll(t: Table, text: string): (r: Table)
    ensures r.Keys == t.Keys
    ensures forall c | c in t :: r[c] == t[c] + multiset(text)[c]
  {
    if text == [] then t
    else
      assert text == [text[0]] + text[1..];
      CountAll(Bump(t, text[0]), text[1..])
  }

  /** What one message does to the table: normalise, then count. The keys stay
      as they were; on the 26-letter table every letter's count grows by exactly
      its number of case-insensitive occurrences in the message. */
  function Update(t: Table, msg: string): (r: Table)
    ensures r.Keys == t.Keys
    ensures IsTable(t) ==> IsTable(r)
    ensures IsTable(t) ==> forall c | IsLower(c) ::
      r[c] == t[c] + multiset(msg)[c] + multiset(msg)[Upper(c)]
  {
    var r := CountAll(t, Normalise(msg));
    if IsTable(t) then
      CountNormalised(t, msg);
      r
    else r
  }

  lemma CountNormalised(t: Table, msg: string)
    requires IsTable(t)
    ensures forall c | IsLower(c) ::
      CountAll(t, Normalise(msg))[c] == t[c] + multiset(msg)[c] + multiset(msg)[Upper(c)]
  {
    forall c | IsLower(c)
      ensures CountAll(t, Normalise(msg))[c] == t[c] + multiset(msg)[c] + multiset(msg)[Upper(c)]
    {
      NormaliseCounts(msg, c);
    }
  }

  /** `a` is at most `b` on every key of `a`, and `b` has the same keys. */
  predicate Le(a: Table, b: Table) {
    a.Keys == b.Keys && forall c | c in a :: a[c] <= b[c]
  }

  lemma LeTransitive(a: Table, b: Table, c: Table)
    requires Le(a, b) && Le(b, c)
    ensures Le(a, c)
  {
  }

  /** Counts never decrease. */
  lemma UpdateMonotone(t: Table, msg: string)
    ensures Le(t, Update(t, msg))
  {
  }

  /** The sum of the counts of the characters `keys`. */
  function SumOver(keys: string, t: Table): nat
    requires forall i | 0 <= i < |keys| :: keys[i] in t
  {
    if keys == [] then 0 else t[keys[0]] + SumOver(keys[1..], t)
  }

  /** The sum of a table's 26 counts. */
  function Total(t: Table): nat
    requires IsTable(t)
  {
    AlphabetLetters();
    SumOver(Alphabet, t)
  }

  /** No character occurs twice in `keys`. */
  predicate Distinct(keys: string) {
    forall i, j | 0 <= i < j < |keys| :: keys[i] != keys[j]
  }

  lemma {:induction false} SumBump(keys: string, t: Table, c: char)
    requires forall i | 0 <= i < |keys| :: keys[i] in t
    requires Distinct(keys) && c in t
    ensures SumOver(keys, Bump(t, c)) == SumOver(keys, t) + if c in keys then 1 else 0
  {
    if keys != [] {
      SumBump(keys[1..], t, c);
      assert keys[0] == c ==> c !in keys[1..];
      assert c in keys <==> keys[0] == c || c in keys[1..];
    }
  }

  lemma {:induction false} CountAllTotal(t: Table, text: string)
    requires IsTable(t)
    requires forall i | 0 <= i < |text| :: IsLower(text[i])
    ensures Total(CountAll(t, text)) == Total(t) + |text|
  {
    AlphabetLetters();
    if text != [] {
      SumBump(Alphabet, t, text[0]);
      CountAllTotal(Bump(t, text[0]), text[1..]);
    }
  }

  /** The sum of the counts grows by exactly the length of the normalised text. */
  lemma UpdateTotal(t: Table, msg: string)
    requires IsTable(t)
    ensures Total(Update(t, msg)) == Total(t) + |Normalise(msg)|
  {
    CountAllTotal(t, Normalise(msg));
  }

  lemma {:induction false} SumZero(keys: string, t: Table)
    requires forall i | 0 <= i < |keys| :: keys[i] in t && t[keys[i]] == 0
    ensures SumOver(keys, t) == 0
  {
    if keys != [] {
      SumZero(keys[1..], t);
    }
  }

  /** The start-up table counts nothing. */
  lemma InitialTotal()
    ensures Total(InitialTable()) == 0
  {
    AlphabetLetters();
    SumZero(Alphabet, InitialTable());
  }
}
