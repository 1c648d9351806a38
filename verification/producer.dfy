/** The producer: `generate_messages` folds each message into the running
    letter table and appends the whole table as one line to the letters file
    before it yields the message; `main` then appends the message as one line
    to the live file. The message text itself comes from a random choice and
    is a parameter here. */
module Producer {
  import opened Letters
  import opened Files
  import LetterRecord
  import JsonObject
  import opened Parsing
  import JsonString

  /** The dict `{"message": ..., "author": ...}` that is yielded. */
  datatype Message = Message(message: string, author: string)

  /** `json.dumps(message) + "\n"`, the line `main` appends to the live file. */
  function LiveRecord(m: Message): (line: string)
    ensures IsLine(line)
  {
    var body := "{\"message\": " + JsonString.Quote(m.message) + ", \"author\": "
      + JsonString.Quote(m.author) + "}";
    PrintableBody(JsonString.Quote(m.message), JsonString.Quote(m.author));
    LetterRecord.NoLineFeed(body);
    assert (body + "\n")[..|body|] == body;
    body + "\n"
  }

  lemma PrintableBody(a: string, b: string)
    requires JsonString.AllPrintableAscii(a) && JsonString.AllPrintableAscii(b)
    ensures JsonString.AllPrintableAscii("{\"message\": " + a + ", \"author\": " + b + "}")
  {
  }

  /** Where the generator stands: ready to make the next message, or suspended
      at its `yield` with the message `main` has not written yet. */
  datatype Phase = Ready | Yielded(pending: Message)

  /** The producer process: its global `letter_counts` and its generator. */
  datatype Producer = Producer(table: Table, phase: Phase)

  /** The producer at start-up: every count zero, no message made yet. */
  function Start(): (p: Producer)
    ensures IsTable(p.table) && p.phase.Ready?
    ensures forall c | IsLower(c) :: p.table[c] == 0
  {
    Producer(InitialTable(), Ready)
  }

  /** One pass of `generate_messages` up to its `yield`: update the table, append
      its record to the letters file, and hand the message over. The live file
      is not touched yet. */
  function Generate(p: Producer, d: Disk, msg: Message): (r: (Producer, Disk))
    requires IsTable(p.table) && p.phase.Ready?
    ensures IsTable(r.0.table) && Le(p.table, r.0.table)
    ensures r.0.phase == Yielded(msg)
    ensures r.1.letters == Append(d.letters, LetterRecord.Record(r.0.table))
    ensures r.1.live == d.live
  {
    var t := Update(p.table, msg.message);
    (Producer(t, Yielded(msg)), Disk(Append(d.letters, LetterRecord.Record(t)), d.live))
  }

  /** The body of `main`'s loop: append the yielded message to the live file and
      resume the generator. */
  function Archive(p: Producer, d: Disk): (r: (Producer, Disk))
    requires p.phase.Yielded?
    ensures r.0 == Producer(p.table, Ready)
    ensures r.1.live == Append(d.live, LiveRecord(p.phase.pending))
    ensures r.1.letters == d.letters
  {
    (Producer(p.table, Ready), Disk(d.letters, Append(d.live, LiveRecord(p.phase.pending))))
  }

  /** One message end to end: the letters file gains exactly one line, the
      record of the updated table, which decodes to that table; then the live
      file gains exactly one line, the message. Earlier contents of both files
      stay in place, and the new table counts every letter of the message. */
  lemma ProduceOne(p: Producer, d: Disk, msg: Message)
    requires IsTable(p.table) && p.phase.Ready?
    ensures var (p1, d1) := Generate(p, d, msg);
      var (p2, d2) := Archive(p1, d1);
      var line := d2.letters.text[|Contents(d.letters)|..];
      && p2.phase.Ready?
      && d2.letters.text[..|Contents(d.letters)|] == Contents(d.letters)
      && d2.live.text[..|Contents(d.live)|] == Contents(d.live)
      && IsLine(line) && multiset(line)['\n'] == 1
      && IsLine(d2.live.text[|Contents(d.live)|..])
      && JsonObject.Decode(line) == Ok(LetterRecord.AsObject(p2.table))
      && forall c | IsLower(c) ::
           p2.table[c] == p.table[c] + multiset(msg.message)[c] + multiset(msg.message)[Upper(c)]
  {
    var (p1, d1) := Generate(p, d, msg);
    var line := LetterRecord.Record(p1.table);
    LineFeeds(line);
    LetterRecord.RecordDecodes(p1.table);
  }
}
