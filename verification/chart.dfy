/** The data behind the consumer's bar chart: `sorted(letter_counts.keys())`
    and the counts in that order. Drawing is not modelled. */
module Chart {
  import Letters
  import LetterRecord

  /** Python's `<` on `str`: code point by code point, a proper prefix first. */
  predicate Below(a: string, b: string)
    decreases |a|
  {
    if a == [] then b != []
    else b != [] && (a[0] < b[0] || (a[0] == b[0] && Below(a[1..], b[1..])))
  }

  lemma {:induction false} BelowIrreflexive(a: string)
    ensures !Below(a, a)
    decreases |a|
  {
    if a != [] {
      BelowIrreflexive(a[1..]);
    }
  }

  lemma {:induction false} BelowTransitive(a: string, b: string, c: string)
    requires Below(a, b) && Below(b, c)
    ensures Below(a, c)
    decreases |a|
  {
    if a != [] && a[0] == b[0] && b[0] == c[0] {
      BelowTransitive(a[1..], b[1..], c[1..]);
    }
  }

  /** Any two different strings are ordered one way or the other. */
  lemma {:induction false} BelowTotal(a: string, b: string)
    ensures a == b || Below(a, b) || Below(b, a)
    decreases |a|
  {
    if a != [] && b != [] && a[0] == b[0] {
      BelowTotal(a[1..], b[1..]);
      if a[1..] == b[1..] {
        assert a == [a[0]] + a[1..] && b == [b[0]] + b[1..];
      }
    }
  }

  /** Strictly ascending, so also free of repeats. */
  predicate Sorted(xs: seq<string>) {
    forall i, j | 0 <= i < j < |xs| :: Below(xs[i], xs[j])
  }

  /** Puts `k` into its place in an ascending sequence. */
  function Insert(xs: seq<string>, k: string): (r: seq<string>)
    requires Sorted(xs) && k !in xs
    ensures Sorted(r) && |r| == |xs| + 1
    ensures forall x :: x in r <==> x in xs || x == k
  {
    if xs == [] then [k]
    else
      BelowTotal(k, xs[0]);
      if Below(k, xs[0]) then
        forall j | 0 <= j < |xs| ensures Below(k, xs[j]) {
          if j > 0 {
            BelowTransitive(k, xs[0], xs[j]);
          }
        }
        [k] + xs
      else
        var r := [xs[0]] + Insert(xs[1..], k);
        assert forall x | x in r[1..] :: x in xs[1..] || x == k;
        forall j | 1 <= j < |r| ensures Below(r[0], r[j]) {
          assert r[j] in r[1..];
        }
        r
  }

  /** `update_chart`'s data: the snapshot's keys in ascending order, each once,
      and `counts[i]` the snapshot's value for `letters[i]`. */
  method ChartView(snapshot: map<string, nat>) returns (letters: seq<string>, counts: seq<nat>)
    ensures Sorted(letters)
    ensures forall k :: k in letters <==> k in snapshot
    ensures |counts| == |letters|
    ensures forall i | 0 <= i < |letters| :: letters[i] in snapshot && counts[i] == snapshot[letters[i]]
  {
    letters := [];
    var rest := snapshot.Keys;
    while rest != {}
      invariant Sorted(letters)
      invariant forall k :: k in letters <==> k in snapshot && k !in rest
      invariant rest <= snapshot.Keys
      decreases |rest|
    {
      var k :| k in rest;
      letters := Insert(letters, k);
      rest := rest - {k};
    }
    counts := seq(|letters|, i requires 0 <= i < |letters| => snapshot[letters[i]]);
  }

  /** Two ascending sequences of the same strings start alike. */
  lemma SameHead(xs: seq<string>, ys: seq<string>)
    requires Sorted(xs) && Sorted(ys) && xs != [] && ys != []
    requires forall x :: x in xs <==> x in ys
    ensures xs[0] == ys[0]
  {
    assert xs[0] in ys && ys[0] in xs;
    var i :| 0 <= i < |ys| && ys[i] == xs[0];
    var j :| 0 <= j < |xs| && xs[j] == ys[0];
    if i > 0 && j > 0 {
      BelowTransitive(xs[0], ys[0], xs[0]);
      BelowIrreflexive(xs[0]);
    }
  }

  /** Past its first element, an ascending sequence no longer holds that element. */
  lemma TailWithout(xs: seq<string>, x: string)
    requires Sorted(xs) && xs != []
    ensures x in xs[1..] <==> x in xs && x != xs[0]
  {
    BelowIrreflexive(xs[0]);
  }

  lemma BothEmpty(xs: seq<string>, ys: seq<string>)
    requires forall x :: x in xs <==> x in ys
    ensures xs == [] <==> ys == []
  {
    if xs != [] {
      assert xs[0] in ys;
    }
    if ys != [] {
      assert ys[0] in xs;
    }
  }

  /** There is only one ascending arrangement of a set of strings. */
  lemma {:induction false} SortedUnique(xs: seq<string>, ys: seq<string>)
    requires Sorted(xs) && Sorted(ys)
    requires forall x :: x in xs <==> x in ys
    ensures xs == ys
    decreases |xs|
  {
    BothEmpty(xs, ys);
    if xs != [] {
      SameHead(xs, ys);
      forall x ensures x in xs[1..] <==> x in ys[1..] {
        TailWithout(xs, x);
        TailWithout(ys, x);
      }
      SortedUnique(xs[1..], ys[1..]);
      assert xs == [xs[0]] + xs[1..] && ys == [ys[0]] + ys[1..];
    }
  }

  /** The keys of a letters record, one-character strings `"a"` to `"z"`. */
  function LetterKeys(): (ks: seq<string>)
    ensures |ks| == 26
    ensures forall i | 0 <= i < 26 :: ks[i] == [Letters.Alphabet[i]]
  {
    Letters.AlphabetLetters();
    seq(26, i requires 0 <= i < 26 => [Letters.Alphabet[i]])
  }

  lemma LetterKeysSorted()
    ensures Sorted(LetterKeys())
  {
    Letters.AlphabetLetters();
  }

  /** For any decoded letters record the chart shows the letters `a` to `z` in
      alphabetical order, each bar the count the producer wrote for it. */
  lemma TableView(t: Letters.Table, letters: seq<string>, counts: seq<nat>)
    requires Letters.IsTable(t)
    requires Sorted(letters)
    requires forall k :: k in letters <==> k in LetterRecord.AsObject(t)
    requires |counts| == |letters|
    requires forall i | 0 <= i < |letters| :: counts[i] == LetterRecord.AsObject(t)[letters[i]]
    ensures letters == LetterKeys()
    ensures forall i | 0 <= i < 26 :: counts[i] == t[Letters.Alphabet[i]]
  {
    TableKeys(t, letters);
    TableCounts(t, letters, counts);
  }

  lemma TableKeys(t: Letters.Table, letters: seq<string>)
    requires Letters.IsTable(t)
    requires Sorted(letters)
    requires forall k :: k in letters <==> k in LetterRecord.AsObject(t)
    ensures letters == LetterKeys()
  {
    forall k ensures k in letters <==> k in LetterKeys() {
      RecordKey(t, k);
    }
    LetterKeysSorted();
    SortedUnique(letters, LetterKeys());
  }

  lemma TableCounts(t: Letters.Table, letters: seq<string>, counts: seq<nat>)
    requires Letters.IsTable(t)
    requires letters == LetterKeys()
    requires |counts| == |letters|
    requires forall i | 0 <= i < |letters| :: counts[i] == LetterRecord.AsObject(t)[letters[i]]
    ensures forall i | 0 <= i < 26 :: counts[i] == t[Letters.Alphabet[i]]
  {
    Letters.AlphabetLetters();
    forall i | 0 <= i < 26
      ensures counts[i] == t[Letters.Alphabet[i]]
    {
      var c := Letters.Alphabet[i];
      assert letters[i] == [c] && c in t;
    }
  }

  lemma RecordKey(t: Letters.Table, k: string)
    requires Letters.IsTable(t)
    ensures k in LetterRecord.AsObject(t) <==> k in LetterKeys()
  {
    if k in LetterRecord.AsObject(t) {
      DecodedLetterKey(t, k);
    }
    if k in LetterKeys() {
      var ks := LetterKeys();
      var i :| 0 <= i < 26 && ks[i] == k;
      Letters.AlphabetLetters();
      assert Letters.Alphabet[i] in t;
    }
  }

  lemma DecodedLetterKey(t: Letters.Table, k: string)
    requires Letters.IsTable(t) && k in LetterRecord.AsObject(t)
    ensures k in LetterKeys()
  {
    var c := k[0];
    assert k == [c];
    Letters.AlphabetLetters();
    var i := c as int - 'a' as int;
    assert LetterKeys()[i] == [Letters.Alphabet[i]] == k;
  }
}
