/** Both processes over the shared data directory, taking turns: the consumer
    starts first (its import empties the files and `main` attaches to the
    letters file), then the producer runs message after message while the
    consumer polls once after each record. */
module System {
  import opened Parsing
  import opened Letters
  import opened Files
  import opened Consumer
  import opened Producer
  import LetterRecord
  import JsonObject

  /** The data directory, the producer, and the consumer's open letters file. */
  datatype World = World(disk: Disk, producer: Producer, reader: Reader)

  /** The consumer is caught up: the producer is between messages and the read
      position is at the end of an existing letters file. */
  predicate CaughtUp(w: World) {
    IsTable(w.producer.table) && w.producer.phase.Ready?
    && w.disk.letters.Present? && w.reader.cursor == |w.disk.letters.text|
  }

  /** Start-up: the consumer's import empties both files, its `main` finds the
      letters file and attaches at its end, and the producer starts with a
      table of zeros. The consumer never exits here. */
  function Boot(d: Disk): (r: Result<World>)
    ensures r.Ok?
    ensures CaughtUp(r.value) && r.value.reader.snapshot == EmptySnapshot
    ensures r.value.disk.letters.text == [] && Contents(r.value.disk.live) == []
  {
    var d1 := Startup(d);
    match Attach(d1.letters, EmptySnapshot)
    case Exited(_) => Fail
    case Tailing(reader) => Ok(World(d1, Start(), reader))
  }

  /** The text of an appended file. */
  lemma AppendText(f: File, s: string)
    ensures Append(f, s).text == Contents(f) + s
  {
    var t := Append(f, s).text;
    assert t == t[..|Contents(f)|] + t[|Contents(f)|..];
  }

  /** Across the two processes: a consumer caught up with the letters file that
      polls once after the producer's next record ends up holding exactly the
      producer's new table, and at the end of the file again. */
  lemma Deliver(p: Producer, d: Disk, msg: Message, r: Reader)
    requires IsTable(p.table) && p.phase.Ready?
    requires r.cursor == |Contents(d.letters)|
    ensures var (p1, d1) := Generate(p, d, msg);
      Poll(r, d1.letters.text) == Reader(|d1.letters.text|, LetterRecord.AsObject(p1.table))
  {
    var (p1, d1) := Generate(p, d, msg);
    var line := LetterRecord.Record(p1.table);
    AppendText(d.letters, line);
    LetterRecord.RecordDecodes(p1.table);
    PollAppended(Contents(d.letters), r.snapshot, line, LetterRecord.AsObject(p1.table));
  }

  /** One message in lock step: the producer generates (letters record), the
      consumer polls, then `main` archives the message (live record). */
  function Cycle(w: World, msg: Message): (r: World)
    requires CaughtUp(w)
    ensures CaughtUp(r)
    ensures r.reader.snapshot == LetterRecord.AsObject(r.producer.table)
    ensures Le(w.producer.table, r.producer.table)
    ensures r.producer.table == Update(w.producer.table, msg.message)
    ensures r.disk.letters == Append(w.disk.letters, LetterRecord.Record(r.producer.table))
    ensures r.disk.live == Append(w.disk.live, LiveRecord(msg))
  {
    var (p1, d1) := Generate(w.producer, w.disk, msg);
    Deliver(w.producer, w.disk, msg, w.reader);
    var reader := Poll(w.reader, d1.letters.text);
    var (p2, d2) := Archive(p1, d1);
    World(d2, p2, reader)
  }

  /** Messages one after another, each in one cycle. */
  function Session(w: World, msgs: seq<Message>): (r: World)
    requires CaughtUp(w)
    ensures CaughtUp(r)
    decreases |msgs|
  {
    if msgs == [] then w else Session(Cycle(w, msgs[0]), msgs[1..])
  }

  /** After at least one message the consumer's snapshot is the producer's
      current table, every letter with its count. */
  lemma {:induction false} SessionInSync(w: World, msgs: seq<Message>)
    requires CaughtUp(w) && msgs != []
    ensures var r := Session(w, msgs);
      r.reader.snapshot == LetterRecord.AsObject(r.producer.table)
    decreases |msgs|
  {
    var w1 := Cycle(w, msgs[0]);
    assert Session(w, msgs) == Session(w1, msgs[1..]);
    if |msgs| > 1 {
      SessionInSync(w1, msgs[1..]);
    }
  }

  /** The number of letters in a list of messages. */
  function LetterCount(msgs: seq<Message>): nat
    decreases |msgs|
  {
    if msgs == [] then 0 else |Normalise(msgs[0].message)| + LetterCount(msgs[1..])
  }

  /** The counts the consumer shows add up to the letters in all the messages
      of the session. */
  lemma {:induction false} SessionTotal(w: World, msgs: seq<Message>)
    requires CaughtUp(w)
    ensures Total(Session(w, msgs).producer.table) == Total(w.producer.table) + LetterCount(msgs)
    decreases |msgs|
  {
    if msgs != [] {
      var w1 := Cycle(w, msgs[0]);
      UpdateTotal(w.producer.table, msgs[0].message);
      SessionTotal(w1, msgs[1..]);
    }
  }

  /** The letters file only grows over a session: what it held stays in front. */
  lemma {:induction false} SessionKeepsFile(w: World, msgs: seq<Message>)
    requires CaughtUp(w)
    ensures var t := Session(w, msgs).disk.letters.text;
      |t| >= |w.disk.letters.text| && t[..|w.disk.letters.text|] == w.disk.letters.text
    decreases |msgs|
  {
    if msgs != [] {
      var w1 := Cycle(w, msgs[0]);
      SessionKeepsFile(w1, msgs[1..]);
      assert Session(w, msgs) == Session(w1, msgs[1..]);
      PrefixOfPrefix(w.disk.letters.text, w1.disk.letters.text, Session(w1, msgs[1..]).disk.letters.text);
    }
  }

  lemma PrefixOfPrefix(a: string, b: string, c: string)
    requires |a| <= |b| <= |c| && c[..|b|] == b && b[..|a|] == a
    ensures c[..|a|] == a
  {
    assert c[..|a|] == c[..|b|][..|a|];
  }

  /** From start-up, a run of messages leaves the consumer with the producer's
      table, whose counts total the letters of those messages. */
  lemma FromBoot(d: Disk, msgs: seq<Message>)
    requires msgs != []
    ensures var r := Session(Boot(d).value, msgs);
      && r.reader.snapshot == LetterRecord.AsObject(r.producer.table)
      && Total(r.producer.table) == LetterCount(msgs)
  {
    var w := Boot(d).value;
    SessionInSync(w, msgs);
    SessionTotal(w, msgs);
    InitialTotal();
  }
}
