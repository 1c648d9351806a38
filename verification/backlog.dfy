/** The consumer when it falls behind. Drawing the chart (`plt.pause` in
    `update_chart`) delays the next poll, so several records may be waiting in
    the letters file by then, and each `readline` reads the oldest of them.
    Here the producer's writes are whole records and the consumer's polls come
    at any time. The run is compared with a queue of records: those read so
    far and those still waiting. */
module Backlog {
  import opened Letters
  import opened Consumer
  import opened Channel
  import opened Parsing
  import LetterRecord
  import JsonObject
  import Files

  /** A poll at the start of a complete record line reads that whole line and
      installs the table it holds, whatever follows it in the file. */
  lemma PollAtRecord(text: string, c: nat, s: Snapshot, t: Table, line: string)
    requires IsTable(t) && line == LetterRecord.Record(t)
    requires c + |line| <= |text| && text[c..c + |line|] == line
    ensures Poll(Reader(c, s), text) == Reader(c + |line|, LetterRecord.AsObject(t))
  {
    LetterRecord.RecordDecodes(t);
    PollLine(text, c, s, line, LetterRecord.AsObject(t));
  }

  /** A table the producer wrote, with the line it wrote for it. */
  datatype Written = Written(table: Table, line: string)

  predicate IsRecord(e: Written) {
    IsTable(e.table) && e.line == LetterRecord.Record(e.table)
  }

  /** What the queue needs of a record: one line, starting with `{`, that
      decodes to its table. */
  predicate Delivers(e: Written) {
    Files.IsLine(e.line) && e.line[0] == '{'
    && JsonObject.Decode(e.line) == Ok(LetterRecord.AsObject(e.table))
  }

  predicate AllDeliver(es: seq<Written>) {
    forall i | 0 <= i < |es| :: Delivers(es[i])
  }

  /** One turn of the two processes: the producer appends a record, or the
      consumer polls. */
  datatype Turn = Produce(entry: Written) | Take

  /** Every write is the record of a table. */
  predicate ValidTurns(turns: seq<Turn>) {
    forall i | 0 <= i < |turns| :: turns[i].Produce? ==> IsRecord(turns[i].entry)
  }

  predicate DeliveringTurns(turns: seq<Turn>) {
    forall i | 0 <= i < |turns| :: turns[i].Produce? ==> Delivers(turns[i].entry)
  }

  lemma RecordDelivers(e: Written)
    requires IsRecord(e)
    ensures Delivers(e)
  {
    LetterRecord.RecordDecodes(e.table);
  }

  lemma RecordsDeliver(turns: seq<Turn>)
    requires ValidTurns(turns)
    ensures DeliveringTurns(turns)
  {
    forall i | 0 <= i < |turns| && turns[i].Produce?
      ensures Delivers(turns[i].entry)
    {
      RecordDelivers(turns[i].entry);
    }
  }

  /** The channel event of a turn. */
  function EventOf(u: Turn): Event {
    match u
    case Produce(e) => Write(e.line)
    case Take => Read
  }

  function Events(turns: seq<Turn>): seq<Event>
    decreases |turns|
  {
    if turns == [] then [] else [EventOf(turns[0])] + Events(turns[1..])
  }

  lemma EventsFront(turns: seq<Turn>)
    requires turns != []
    ensures Events(turns)[0] == EventOf(turns[0])
    ensures Events(turns)[1..] == Events(turns[1..])
  {
  }

  /** A run over turns is the first turn's step followed by the rest. */
  lemma RunFront(t: Tail, turns: seq<Turn>)
    requires turns != []
    ensures Run(t, Events(turns)) == Run(Step(t, EventOf(turns[0])), Events(turns[1..]))
  {
    EventsFront(turns);
  }

  /** The records the producer writes, in order. */
  function Produced(turns: seq<Turn>): seq<Written>
    decreases |turns|
  {
    if turns == [] then []
    else if turns[0].Produce? then [turns[0].entry] + Produced(turns[1..])
    else Produced(turns[1..])
  }

  /** The lines of the records, one after another. */
  function Lines(es: seq<Written>): string
    decreases |es|
  {
    if es == [] then [] else es[0].line + Lines(es[1..])
  }

  /** The lines of the records as separate chunks, the way `readline` hands
      them to `process_message`. */
  function Chunks(es: seq<Written>): seq<string>
    decreases |es|
  {
    if es == [] then [] else [es[0].line] + Chunks(es[1..])
  }

  lemma {:induction false} ChunksAppend(a: seq<Written>, b: seq<Written>)
    ensures Chunks(a + b) == Chunks(a) + Chunks(b)
    decreases |a|
  {
    if a == [] {
      assert a + b == b;
    } else {
      assert (a + b)[0] == a[0] && (a + b)[1..] == a[1..] + b;
      ChunksAppend(a[1..], b);
    }
  }

  /** Record lines are never empty: no text left means no record left. */
  lemma LinesEmpty(es: seq<Written>)
    requires AllDeliver(es) && Lines(es) == []
    ensures es == []
  {
  }

  lemma {:induction false} LinesAppend(es: seq<Written>, e: Written)
    ensures Lines(es + [e]) == Lines(es) + e.line
    decreases |es|
  {
    if es == [] {
      SnocEmpty(es, e);
    } else {
      SnocFront(es, e);
      LinesAppend(es[1..], e);
    }
  }

  lemma SnocEmpty<T>(xs: seq<T>, x: T)
    requires xs == []
    ensures xs + [x] == [x] && [x][1..] == []
  {
  }

  lemma SnocFront<T>(xs: seq<T>, x: T)
    requires xs != []
    ensures (xs + [x])[0] == xs[0] && (xs + [x])[1..] == xs[1..] + [x]
  {
  }

  /** The reference: the records the consumer has read, and those waiting. */
  datatype Queue = Queue(taken: seq<Written>, waiting: seq<Written>)

  /** A write joins the back of the queue; a poll takes the record at the
      front, if there is one. */
  function QueueStep(q: Queue, u: Turn): Queue {
    match u
    case Produce(e) => Queue(q.taken, q.waiting + [e])
    case Take => if q.waiting == [] then q else Queue(q.taken + [q.waiting[0]], q.waiting[1..])
  }

  /** No record is lost, repeated or reordered by a turn. */
  lemma QueueStepOrder(q: Queue, u: Turn)
    ensures var r := QueueStep(q, u);
      r.taken + r.waiting == q.taken + q.waiting + (if u.Produce? then [u.entry] else [])
  {
    if u.Take? && q.waiting != [] {
      assert q.waiting == [q.waiting[0]] + q.waiting[1..];
    }
  }

  /** A turn only ever adds to the records read: at most the oldest waiting one. */
  lemma QueueStepTaken(q: Queue, u: Turn)
    ensures var r := QueueStep(q, u);
      && |q.taken| <= |r.taken| && r.taken[..|q.taken|] == q.taken
      && Chunks(r.taken[|q.taken|..]) == if u.Take? && q.waiting != [] then [q.waiting[0].line] else []
  {
    var r := QueueStep(q, u);
    if u.Take? && q.waiting != [] {
      assert r.taken[|q.taken|..] == [q.waiting[0]];
    } else {
      assert r.taken[|q.taken|..] == [];
    }
  }

  /** Two stretches of reading, one after the other, deliver what was read
      over both. */
  lemma TakenChain(a: seq<Written>, b: seq<Written>, c: seq<Written>, d: seq<string>, d1: seq<string>, dn: seq<string>)
    requires |a| <= |b| <= |c| && b[..|a|] == a && c[..|b|] == b
    requires d1 == d + Chunks(b[|a|..]) && dn == d1 + Chunks(c[|b|..])
    ensures dn == d + Chunks(c[|a|..])
  {
    SplitAfter(a, b, c);
    ChunksAppend(b[|a|..], c[|b|..]);
  }

  lemma JoinMiddle<T>(a: seq<T>, b: seq<T>, c: seq<T>)
    ensures a + (b + c) == (a + b) + c
    ensures (a + (b + c))[|a|..|a| + |b|] == b
  {
    assert (a + (b + c))[|a|..|a| + |b|] == (a + b)[|a|..];
  }

  lemma SplitAfter<T>(a: seq<T>, b: seq<T>, c: seq<T>)
    requires |a| <= |b| <= |c| && c[..|b|] == b
    ensures c[|a|..] == b[|a|..] + c[|b|..]
  {
    assert c[|a|..] == c[|a|..|b|] + c[|b|..];
    assert c[|a|..|b|] == c[..|b|][|a|..];
  }

  lemma PrefixChain<T>(a: seq<T>, b: seq<T>, c: seq<T>)
    requires |a| <= |b| <= |c| && b[..|a|] == a && c[..|b|] == b
    ensures c[..|a|] == a
  {
    assert c[..|a|] == c[..|b|][..|a|];
  }

  /** The queue after a sequence of turns. */
  function QueueRun(q: Queue, turns: seq<Turn>): Queue
    decreases |turns|
  {
    if turns == [] then q else QueueRun(QueueStep(q, turns[0]), turns[1..])
  }

  lemma QueueRunFront(q: Queue, turns: seq<Turn>)
    requires turns != []
    ensures QueueRun(q, turns) == QueueRun(QueueStep(q, turns[0]), turns[1..])
  {
  }

  lemma ProducedFront(turns: seq<Turn>)
    requires turns != []
    ensures Produced(turns) == (if turns[0].Produce? then [turns[0].entry] else []) + Produced(turns[1..])
  {
  }

  /** Over any turns, the records read so far stay read: reading only adds to
      them. */
  lemma {:induction false} QueueRunTaken(q: Queue, turns: seq<Turn>)
    ensures var r := QueueRun(q, turns);
      |q.taken| <= |r.taken| && r.taken[..|q.taken|] == q.taken
    decreases |turns|
  {
    if turns != [] {
      var q1 := QueueStep(q, turns[0]);
      QueueRunFront(q, turns);
      QueueStepTaken(q, turns[0]);
      QueueRunTaken(q1, turns[1..]);
      PrefixChain(q.taken, q1.taken, QueueRun(q1, turns[1..]).taken);
    }
  }

  /** Over any turns, the records read and then those waiting are exactly the
      records waiting at the start followed by the ones written. */
  lemma {:induction false} QueueRunOrder(q: Queue, turns: seq<Turn>)
    ensures var r := QueueRun(q, turns);
      r.taken + r.waiting == q.taken + q.waiting + Produced(turns)
    decreases |turns|
  {
    if turns == [] {
      assert Produced(turns) == [];
    } else {
      var q1 := QueueStep(q, turns[0]);
      QueueStepOrder(q, turns[0]);
      QueueRunFront(q, turns);
      ProducedFront(turns);
      QueueRunOrder(q1, turns[1..]);
    }
  }

  /** What the consumer shows for a queue: the table it read last, or the
      snapshot it started with if it has read none. */
  function Shown(s: Snapshot, q: Queue): Snapshot {
    if q.taken == [] then s else LetterRecord.AsObject(q.taken[|q.taken| - 1].table)
  }

  /** One turn against the queue, with the unread part of the file being the
      waiting records' lines. A write appends to it. A poll with a record
      waiting reads exactly the oldest one, and the snapshot becomes its table.
      A poll with none waiting changes nothing. Only a poll that reads a record
      hands a chunk to `process_message`, and that chunk is the record's line. */
  lemma StepQueue(pre: string, q: Queue, s: Snapshot, d: seq<string>, u: Turn)
    requires q.waiting != [] ==> Delivers(q.waiting[0])
    ensures var q1 := QueueStep(q, u);
      var pre1 := if u.Take? && q.waiting != [] then pre + q.waiting[0].line else pre;
      var r := Step(Tail(pre + Lines(q.waiting), Reader(|pre|, Shown(s, q)), d), EventOf(u));
      && r.text == pre1 + Lines(q1.waiting)
      && r.reader == Reader(|pre1|, Shown(s, q1))
      && r.delivered == d + if u.Take? && q.waiting != [] then [q.waiting[0].line] else []
  {
    match u
    case Produce(e) =>
      ProduceTurn(pre, q, s, d, e);
    case Take =>
      if q.waiting == [] {
        IdleTurn(pre, q, s, d);
      } else {
        TakeTurn(pre, q, s, d);
      }
  }

  lemma ProduceTurn(pre: string, q: Queue, s: Snapshot, d: seq<string>, e: Written)
    ensures var q1 := QueueStep(q, Produce(e));
      var r := Step(Tail(pre + Lines(q.waiting), Reader(|pre|, Shown(s, q)), d), EventOf(Produce(e)));
      r.text == pre + Lines(q1.waiting) && r.reader == Reader(|pre|, Shown(s, q1)) && r.delivered == d
  {
    WriteQueue(pre, q.waiting, Reader(|pre|, Shown(s, q)), d, e);
  }

  lemma IdleTurn(pre: string, q: Queue, s: Snapshot, d: seq<string>)
    requires q.waiting == []
    ensures var q1 := QueueStep(q, Take);
      var r := Step(Tail(pre + Lines(q.waiting), Reader(|pre|, Shown(s, q)), d), EventOf(Take));
      r.text == pre + Lines(q1.waiting) && r.reader == Reader(|pre|, Shown(s, q1)) && r.delivered == d
  {
    IdleQueue(pre, Reader(|pre|, Shown(s, q)), d);
  }

  lemma TakeTurn(pre: string, q: Queue, s: Snapshot, d: seq<string>)
    requires q.waiting != [] && Delivers(q.waiting[0])
    ensures var q1 := QueueStep(q, Take);
      var pre1 := pre + q.waiting[0].line;
      var r := Step(Tail(pre + Lines(q.waiting), Reader(|pre|, Shown(s, q)), d), EventOf(Take));
      && r.text == pre1 + Lines(q1.waiting) && r.reader == Reader(|pre1|, Shown(s, q1))
      && r.delivered == d + [q.waiting[0].line]
  {
    TakeQueue(pre, q.waiting, Shown(s, q), d);
  }

  lemma QueueStepDelivers(q: Queue, u: Turn)
    requires AllDeliver(q.waiting) && (u.Produce? ==> Delivers(u.entry))
    ensures AllDeliver(QueueStep(q, u).waiting)
  {
  }

  lemma WriteQueue(pre: string, w: seq<Written>, rd: Reader, d: seq<string>, e: Written)
    ensures Step(Tail(pre + Lines(w), rd, d), Write(e.line)).text == pre + Lines(w + [e])
    ensures Step(Tail(pre + Lines(w), rd, d), Write(e.line)).reader == rd
    ensures Step(Tail(pre + Lines(w), rd, d), Write(e.line)).delivered == d
  {
    LinesAppend(w, e);
  }

  lemma IdleQueue(pre: string, rd: Reader, d: seq<string>)
    requires rd.cursor == |pre|
    ensures Step(Tail(pre + Lines([]), rd, d), Read).text == pre
    ensures Step(Tail(pre + Lines([]), rd, d), Read).reader == rd
    ensures Step(Tail(pre + Lines([]), rd, d), Read).delivered == d
  {
    assert pre + Lines([]) == pre;
    PollAtEnd(rd, pre);
  }

  lemma TakeQueue(pre: string, w: seq<Written>, s: Snapshot, d: seq<string>)
    requires w != [] && Delivers(w[0])
    ensures var r := Step(Tail(pre + Lines(w), Reader(|pre|, s), d), Read);
      && r.text == (pre + w[0].line) + Lines(w[1..])
      && r.reader == Reader(|pre| + |w[0].line|, LetterRecord.AsObject(w[0].table))
      && r.delivered == d + [w[0].line]
  {
    var line, rest := w[0].line, Lines(w[1..]);
    var text := pre + Lines(w);
    assert text == (pre + line) + rest && text[|pre|..|pre| + |line|] == line by {
      assert Lines(w) == line + rest;
      JoinMiddle(pre, line, rest);
    }
    PollLine(text, |pre|, s, line, LetterRecord.AsObject(w[0].table));
    TakeDelivered(text, |pre|, s, d, line);
  }

  /** A poll at the start of a complete record line hands that line, and
      nothing else, to `process_message`. */
  lemma TakeDelivered(text: string, c: nat, s: Snapshot, d: seq<string>, line: string)
    requires c + |line| <= |text| && text[c..c + |line|] == line
    requires Files.IsLine(line) && line[0] == '{'
    ensures Step(Tail(text, Reader(c, s), d), Read).delivered == d + [line]
  {
    ReadWholeLine(text, c, line);
    assert !IsPyWhitespace(line[0]);
    StepRead(Tail(text, Reader(c, s), d), line);
  }

  /** A whole run against the queue: the unread rest of the file is the lines
      of the waiting records, in order, and the snapshot is the table read
      last. */
  lemma {:induction false} RunQueue(pre: string, q: Queue, s: Snapshot, d: seq<string>, turns: seq<Turn>)
    requires AllDeliver(q.waiting) && DeliveringTurns(turns)
    ensures var r := Run(Tail(pre + Lines(q.waiting), Reader(|pre|, Shown(s, q)), d), Events(turns));
      var q1 := QueueRun(q, turns);
      && AllDeliver(q1.waiting)
      && r.reader.cursor <= |r.text|
      && r.text[r.reader.cursor..] == Lines(q1.waiting)
      && r.reader.snapshot == Shown(s, q1)
      && |q.taken| <= |q1.taken|
      && r.delivered == d + Chunks(q1.taken[|q.taken|..])
    decreases |turns|
  {
    var t := Tail(pre + Lines(q.waiting), Reader(|pre|, Shown(s, q)), d);
    if turns == [] {
      assert t.text[|pre|..] == Lines(q.waiting);
      assert q.taken[|q.taken|..] == [];
    } else {
      var u := turns[0];
      var q1 := QueueStep(q, u);
      var pre1 := if u.Take? && q.waiting != [] then pre + q.waiting[0].line else pre;
      var extra := if u.Take? && q.waiting != [] then [q.waiting[0].line] else [];
      var t1 := Step(t, EventOf(u));
      assert t1 == Tail(pre1 + Lines(q1.waiting), Reader(|pre1|, Shown(s, q1)), d + extra) by {
        StepQueue(pre, q, s, d, u);
      }
      assert AllDeliver(q1.waiting) by {
        QueueStepDelivers(q, u);
      }
      assert Run(t, Events(turns)) == Run(t1, Events(turns[1..])) by {
        RunFront(t, turns);
      }
      assert QueueRun(q, turns) == QueueRun(q1, turns[1..]) by {
        QueueRunFront(q, turns);
      }
      RunQueue(pre1, q1, s, d + extra, turns[1..]);
      var qn := QueueRun(q1, turns[1..]);
      var rn := Run(t1, Events(turns[1..]));
      assert |q.taken| <= |qn.taken| && rn.delivered == d + Chunks(qn.taken[|q.taken|..]) by {
        QueueStepTaken(q, u);
        QueueRunTaken(q1, turns[1..]);
        TakenChain(q.taken, q1.taken, qn.taken, d, d + extra, rn.delivered);
      }
    }
  }

  /** However far the consumer falls behind, nothing is skipped: once it has
      caught up with the file it shows the table of the last record written. */
  lemma CaughtUpShowsLast(h: string, s: Snapshot, turns: seq<Turn>)
    requires ValidTurns(turns)
    ensures var r := Run(Tail(h, Reader(|h|, s), []), Events(turns));
      var es := Produced(turns);
      r.reader.cursor == |r.text| && es != [] ==>
        r.reader.snapshot == LetterRecord.AsObject(es[|es| - 1].table)
  {
    RecordsDeliver(turns);
    CaughtUpQueue(h, s, turns);
  }

  lemma CaughtUpQueue(h: string, s: Snapshot, turns: seq<Turn>)
    requires DeliveringTurns(turns)
    ensures var r := Run(Tail(h, Reader(|h|, s), []), Events(turns));
      var es := Produced(turns);
      r.reader.cursor == |r.text| && es != [] ==>
        r.reader.snapshot == LetterRecord.AsObject(es[|es| - 1].table)
  {
    var q := Queue([], []);
    assert h + Lines(q.waiting) == h;
    RunQueue(h, q, s, [], turns);
    var q1 := QueueRun(q, turns);
    QueueRunOrder(q, turns);
    var r := Run(Tail(h, Reader(|h|, s), []), Events(turns));
    if r.reader.cursor == |r.text| {
      LinesEmpty(q1.waiting);
      assert q1.taken == q1.taken + q1.waiting == Produced(turns);
    }
  }

  /** Every record line is handed to `process_message` once, in the order it
      was written, and none is skipped: the chunks handed over so far are the
      first of the lines written, and all of them once the consumer has caught
      up with the file. */
  lemma HandedInOrder(h: string, s: Snapshot, turns: seq<Turn>)
    requires ValidTurns(turns)
    ensures var r := Run(Tail(h, Reader(|h|, s), []), Events(turns));
      var lines := Chunks(Produced(turns));
      && |r.delivered| <= |lines| && r.delivered == lines[..|r.delivered|]
      && (r.reader.cursor == |r.text| ==> r.delivered == lines)
  {
    RecordsDeliver(turns);
    HandedQueue(h, s, turns);
  }

  lemma HandedQueue(h: string, s: Snapshot, turns: seq<Turn>)
    requires DeliveringTurns(turns)
    ensures var r := Run(Tail(h, Reader(|h|, s), []), Events(turns));
      var lines := Chunks(Produced(turns));
      && |r.delivered| <= |lines| && r.delivered == lines[..|r.delivered|]
      && (r.reader.cursor == |r.text| ==> r.delivered == lines)
  {
    var q := Queue([], []);
    assert h + Lines(q.waiting) == h;
    RunQueue(h, q, s, [], turns);
    var q1 := QueueRun(q, turns);
    QueueRunOrder(q, turns);
    assert q1.taken + q1.waiting == Produced(turns);
    assert q1.taken[|q.taken|..] == q1.taken;
    ChunksAppend(q1.taken, q1.waiting);
    var r := Run(Tail(h, Reader(|h|, s), []), Events(turns));
    if r.reader.cursor == |r.text| {
      LinesEmpty(q1.waiting);
    }
  }
}
