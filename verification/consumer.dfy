/** The consumer: at import it empties both data files; `main` checks that the
    letters file exists, opens it, moves to its end and then polls it with
    `readline`, handing every non-blank chunk to `process_message`, which
    replaces the global snapshot with the decoded dict or, on a decode error,
    logs and keeps the old one. */
module Consumer {
  import opened Parsing
  import opened Files
  import JsonObject
  import Letters
  import LetterRecord

  /** The global `letter_counts` of the consumer: the last decoded dict. */
  type Snapshot = map<string, nat>

  /** Module import: `write_text("")` on both files, creating them if missing. */
  function Startup(d: Disk): (r: Disk)
    ensures r.letters.Present? && r.live.Present?
    ensures Contents(r.letters) == [] && Contents(r.live) == []
  {
    Disk(Present([]), Present([]))
  }

  /** The consumer's global before any message: `letter_counts = {}`. */
  const EmptySnapshot: Snapshot := map[]

  /** The open letters file in `main`: the read position and the snapshot. */
  datatype Reader = Reader(cursor: nat, snapshot: Snapshot)

  /** What `main` does before its loop: exit with status 1, or start tailing. */
  datatype Attached = Exited(status: int) | Tailing(reader: Reader)

  /** `main` up to its loop: the existence check, then `open` and a seek to the end. */
  function Attach(letters: File, snapshot: Snapshot): (r: Attached)
    ensures r.Exited? <==> letters.Missing?
    ensures r.Exited? ==> r.status == 1
    ensures r.Tailing? ==> r.reader.cursor == |Contents(letters)| && r.reader.snapshot == snapshot
  {
    if letters.Missing? then Exited(1)
    else Tailing(Reader(|letters.text|, snapshot))
  }

  /** `readline()` from position `cursor`: everything up to and including the
      next line feed; at the end of the file, whatever is left without one
      (possibly nothing). There is no guard against a half-written last line. */
  function ReadLine(text: string, cursor: nat): (line: string)
    ensures cursor >= |text| ==> line == []
    ensures cursor + |line| <= |text| || line == []
    decreases |text| - cursor
  {
    if cursor >= |text| then []
    else if text[cursor] == '\n' then ['\n']
    else [text[cursor]] + ReadLine(text, cursor + 1)
  }

  /** What `readline` returns: a non-empty piece of the file from the cursor on,
      with no line feed before its end, that ends with a line feed or at the
      end of the file. */
  lemma ReadLineSpec(text: string, cursor: nat)
    ensures var line := ReadLine(text, cursor);
      && (cursor < |text| ==>
        line != [] && cursor + |line| <= |text| && line == text[cursor..cursor + |line|])
      && (line != [] ==> '\n' !in line[..|line| - 1])
      && (line != [] ==> line[|line| - 1] == '\n' || cursor + |line| == |text|)
  {
    ReadLineSlice(text, cursor);
    ReadLineOneFeed(text, cursor);
    ReadLineEnds(text, cursor);
  }

  lemma {:induction false} ReadLineSlice(text: string, cursor: nat)
    ensures var line := ReadLine(text, cursor);
      cursor < |text| ==>
        line != [] && cursor + |line| <= |text| && line == text[cursor..cursor + |line|]
    decreases |text| - cursor
  {
    if cursor < |text| && text[cursor] != '\n' {
      ReadLineSlice(text, cursor + 1);
      ConsSlice(text, cursor, ReadLine(text, cursor + 1));
    }
  }

  lemma ConsSlice(text: string, i: nat, more: string)
    requires i < |text| && i + 1 + |more| <= |text| && more == text[i + 1..i + 1 + |more|]
    ensures [text[i]] + more == text[i..i + 1 + |more|]
  {
  }

  lemma {:induction false} ReadLineOneFeed(text: string, cursor: nat)
    ensures var line := ReadLine(text, cursor);
      line != [] ==> '\n' !in line[..|line| - 1]
    decreases |text| - cursor
  {
    if cursor < |text| && text[cursor] != '\n' {
      var more := ReadLine(text, cursor + 1);
      ReadLineOneFeed(text, cursor + 1);
      var line := [text[cursor]] + more;
      if more != [] {
        assert line[..|line| - 1] == [text[cursor]] + more[..|more| - 1];
      }
    }
  }

  lemma {:induction false} ReadLineEnds(text: string, cursor: nat)
    ensures var line := ReadLine(text, cursor);
      line != [] ==> line[|line| - 1] == '\n' || cursor + |line| == |text|
    decreases |text| - cursor
  {
    if cursor < |text| && text[cursor] != '\n' {
      ReadLineEnds(text, cursor + 1);
    }
  }

  /** The characters Python's `str.strip()` removes (`str.isspace`). */
  predicate IsPyWhitespace(c: char) {
    var n := c as int;
    (0x09 <= n <= 0x0D) || (0x1C <= n <= 0x20) || n == 0x85 || n == 0xA0
    || n == 0x1680 || (0x2000 <= n <= 0x200A) || n == 0x2028 || n == 0x2029
    || n == 0x202F || n == 0x205F || n == 0x3000
  }

  /** `not line.strip()`: the chunk is empty or only whitespace. */
  predicate IsBlank(line: string) {
    forall i | 0 <= i < |line| :: IsPyWhitespace(line[i])
  }

  /** `process_message`: a chunk that decodes replaces the snapshot; one that does
      not is logged and leaves the snapshot as it was. No error escapes. */
  function ProcessMessage(snapshot: Snapshot, line: string): (r: Snapshot)
    ensures JsonObject.Decode(line).Ok? ==> r == JsonObject.Decode(line).value
    ensures JsonObject.Decode(line).Fail? ==> r == snapshot
  {
    match JsonObject.Decode(line)
    case Ok(m) => m
    case Fail => snapshot
  }

  /** A line the producer wrote always decodes, so `process_message` never
      takes its error path for it: the snapshot becomes exactly the producer's
      table, whatever it was before. */
  lemma ProcessRecord(snapshot: Snapshot, t: Letters.Table)
    requires Letters.IsTable(t)
    ensures ProcessMessage(snapshot, LetterRecord.Record(t)) == LetterRecord.AsObject(t)
  {
    LetterRecord.RecordDecodes(t);
  }

  /** Replace, not merge: on a line that decodes, the old snapshot leaves no trace. */
  lemma ProcessReplaces(s1: Snapshot, s2: Snapshot, line: string)
    requires JsonObject.Decode(line).Ok?
    ensures ProcessMessage(s1, line) == ProcessMessage(s2, line)
  {
  }

  /** Processing the same line twice is processing it once. */
  lemma ProcessIdempotent(s: Snapshot, line: string)
    ensures ProcessMessage(ProcessMessage(s, line), line) == ProcessMessage(s, line)
  {
  }

  /** What the loop does with a chunk it read: sleep on a blank one, otherwise
      `process_message`. */
  function Handle(snapshot: Snapshot, line: string): (r: Snapshot)
    ensures IsBlank(line) ==> r == snapshot && JsonObject.Decode(line).Fail?
    ensures r == ProcessMessage(snapshot, line)
  {
    if IsBlank(line) then
      BlankNoDecode(line);
      snapshot
    else ProcessMessage(snapshot, line)
  }

  /** `json.loads` rejects a blank chunk: JSON needs a value, and whitespace is
      not one. */
  lemma BlankNoDecode(line: string)
    requires IsBlank(line)
    ensures JsonObject.Decode(line).Fail?
  {
    if JsonObject.Decode(line).Ok? {
      var s := SkipSpace(line);
      SkipSpaceSuffix(line);
      SuffixAt(s, line, 0);
    }
  }

  /** One turn of `main`'s loop: `readline`, then `process_message` if the chunk
      is not blank, or a sleep if it is. Either way the position moves past the
      chunk read, and never backwards. */
  function Poll(r: Reader, text: string): (next: Reader)
    ensures next.cursor >= r.cursor
    ensures r.cursor < |text| ==> r.cursor < next.cursor <= |text|
    ensures next.cursor == r.cursor ==> next == r
  {
    var line := ReadLine(text, r.cursor);
    ReadLineSpec(text, r.cursor);
    Reader(r.cursor + |line|, Handle(r.snapshot, line))
  }

  /** At or past the end of the file a poll reads nothing and only sleeps. */
  lemma PollAtEnd(r: Reader, text: string)
    requires r.cursor >= |text|
    ensures Poll(r, text) == r
  {
  }

  /** A poll at the start of a complete line reads exactly that line. */
  lemma {:induction false} ReadWholeLine(text: string, cursor: nat, line: string)
    requires cursor + |line| <= |text| && text[cursor..cursor + |line|] == line
    requires IsLine(line)
    ensures ReadLine(text, cursor) == line
    decreases |line|
  {
    assert text[cursor] == line[0];
    if |line| > 1 {
      assert line[0] in line[..|line| - 1];
      var tail := line[1..];
      assert tail[..|tail| - 1] == line[1..|line| - 1];
      assert text[cursor + 1..cursor + 1 + |tail|] == tail;
      ReadWholeLine(text, cursor + 1, tail);
      assert line == [line[0]] + tail;
    }
  }

  /** A poll at the start of a complete line that starts with `{` and decodes
      reads that whole line and installs the decoded dict, whatever follows it
      in the file. */
  lemma PollLine(text: string, c: nat, s: Snapshot, line: string, m: Snapshot)
    requires c + |line| <= |text| && text[c..c + |line|] == line
    requires IsLine(line) && line[0] == '{' && JsonObject.Decode(line) == Ok(m)
    ensures Poll(Reader(c, s), text) == Reader(c + |line|, m)
  {
    ReadWholeLine(text, c, line);
    assert !IsPyWhitespace(line[0]);
  }

  /** The same for a reader caught up with a file that has just had the line
      appended. */
  lemma PollAppended(h: string, s: Snapshot, line: string, m: Snapshot)
    requires IsLine(line) && line[0] == '{' && JsonObject.Decode(line) == Ok(m)
    ensures Poll(Reader(|h|, s), h + line) == Reader(|h| + |line|, m)
  {
    assert (h + line)[|h|..|h| + |line|] == line;
    PollLine(h + line, |h|, s, line, m);
  }

  /** Reading is unaffected by text in front of the position: only what lies
      after the cursor matters. */
  lemma {:induction false} ReadLineShift(h: string, w: string, k: nat)
    ensures ReadLine(h + w, |h| + k) == ReadLine(w, k)
    decreases |w| - k
  {
    if k < |w| {
      assert (h + w)[|h| + k] == w[k];
      ReadLineShift(h, w, k + 1);
    }
  }
}
