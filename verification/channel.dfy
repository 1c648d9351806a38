/** The letters file as a channel: writes by the producer and polls by the
    consumer, interleaved one at a time. A write adds text at the end of the
    file; a poll is one turn of the consumer's loop. The run also records every
    chunk that was handed to `process_message`. */
module Channel {
  import opened Parsing
  import opened Consumer
  import opened Letters
  import LetterRecord
  import JsonObject

  datatype Event = Write(chunk: string) | Read

  /** The letters file, the consumer's reader, and the chunks delivered so far. */
  datatype Tail = Tail(text: string, reader: Reader, delivered: seq<string>)

  function Step(t: Tail, e: Event): (r: Tail)
    ensures r.reader.cursor >= t.reader.cursor
    ensures |r.text| >= |t.text| && r.text[..|t.text|] == t.text
  {
    match e
    case Write(chunk) =>
      assert (t.text + chunk)[..|t.text|] == t.text;
      Tail(t.text + chunk, t.reader, t.delivered)
    case Read =>
      var line := ReadLine(t.text, t.reader.cursor);
      Tail(t.text, Poll(t.reader, t.text), t.delivered + Handed(line))
  }

  /** What of a chunk read reaches `process_message`: nothing if it is blank. */
  function Handed(line: string): (r: seq<string>)
    ensures IsBlank(line) <==> r == []
    ensures |r| <= 1
    ensures forall k | 0 <= k < |r| :: r[k] == line
  {
    if IsBlank(line) then [] else [line]
  }

  /** Runs the events in order. The file only grows and the read position never
      moves backwards. */
  function Run(t: Tail, events: seq<Event>): (r: Tail)
    ensures r.reader.cursor >= t.reader.cursor
    ensures |r.text| >= |t.text| && r.text[..|t.text|] == t.text
    decreases |events|
  {
    if events == [] then t
    else
      var s := Step(t, events[0]);
      var r := Run(s, events[1..]);
      assert r.text[..|t.text|] == r.text[..|s.text|][..|t.text|];
      r
  }

  /** Live tail only: whatever the file held when the consumer attached (`h`)
      makes no difference to the run. The chunks delivered and the snapshot are
      those of a consumer that attached to an empty file, and the position is
      shifted by exactly `|h|`. So nothing written before the attach is ever
      passed to `process_message`. */
  lemma LiveTailOnly(h: string, s: Snapshot, events: seq<Event>)
    ensures var a := Attach(Files.Present(h), s);
      a.Tailing? &&
      var r1 := Run(Tail(h, a.reader, []), events);
      var r2 := Run(Tail([], Reader(0, s), []), events);
      && r1.text == h + r2.text
      && r1.reader.cursor == |h| + r2.reader.cursor
      && r1.reader.snapshot == r2.reader.snapshot
      && r1.delivered == r2.delivered
  {
    AppendEmpty(h);
    RunShift(h, Tail([], Reader(0, s), []), events);
  }

  lemma AppendEmpty(h: string)
    ensures h + [] == h
  {
  }

  /** `t1` is `t2` with `h` in front of the file and the position shifted to match. */
  predicate Shifted(h: string, t1: Tail, t2: Tail) {
    t1.text == h + t2.text && t1.reader.cursor == |h| + t2.reader.cursor
    && t1.reader.snapshot == t2.reader.snapshot && t1.delivered == t2.delivered
  }

  lemma StepShift(h: string, t: Tail, e: Event)
    ensures Shifted(h, Step(Tail(h + t.text, Reader(|h| + t.reader.cursor, t.reader.snapshot), t.delivered), e), Step(t, e))
  {
    if e.Write? {
      WriteShift(h, t, e.chunk);
    } else {
      ReadShift(h, t);
    }
  }

  lemma WriteShift(h: string, t: Tail, chunk: string)
    ensures Shifted(h, Step(Tail(h + t.text, Reader(|h| + t.reader.cursor, t.reader.snapshot), t.delivered), Write(chunk)), Step(t, Write(chunk)))
  {
    assert h + t.text + chunk == h + (t.text + chunk);
  }

  lemma ReadShift(h: string, t: Tail)
    ensures Shifted(h, Step(Tail(h + t.text, Reader(|h| + t.reader.cursor, t.reader.snapshot), t.delivered), Read), Step(t, Read))
  {
    var t1 := Tail(h + t.text, Reader(|h| + t.reader.cursor, t.reader.snapshot), t.delivered);
    var line := ReadLine(t.text, t.reader.cursor);
    ReadLineShift(h, t.text, t.reader.cursor);
    StepRead(t, line);
    StepRead(t1, line);
  }

  /** A poll in terms of the chunk it reads. */
  lemma StepRead(t: Tail, line: string)
    requires ReadLine(t.text, t.reader.cursor) == line
    ensures Step(t, Read) == Tail(t.text, Reader(t.reader.cursor + |line|, Handle(t.reader.snapshot, line)), t.delivered + Handed(line))
  {
  }

  lemma {:induction false} RunShift(h: string, t: Tail, events: seq<Event>)
    ensures Shifted(h, Run(Tail(h + t.text, Reader(|h| + t.reader.cursor, t.reader.snapshot), t.delivered), events), Run(t, events))
    decreases |events|
  {
    if events != [] {
      var t1 := Tail(h + t.text, Reader(|h| + t.reader.cursor, t.reader.snapshot), t.delivered);
      StepShift(h, t, events[0]);
      var s2 := Step(t, events[0]);
      RunShift(h, s2, events[1..]);
      assert Step(t1, events[0]) == Tail(h + s2.text, Reader(|h| + s2.reader.cursor, s2.reader.snapshot), s2.delivered);
    }
  }

  /** A chunk with no `}` never decodes. */
  lemma NoCloseNoDecode(text: string)
    requires '}' !in text
    ensures JsonObject.Decode(text).Fail?
  {
    if JsonObject.Decode(text).Ok? {
      JsonObject.DecodeNeedsBrace(text);
    }
  }

  /** A chunk with no `{` never decodes. */
  lemma NoOpenNoDecode(text: string)
    requires '{' !in text
    ensures JsonObject.Decode(text).Fail?
  {
    if JsonObject.Decode(text).Ok? {
      var s := SkipSpace(text);
      SkipSpaceSuffix(text);
      SuffixAt(s, text, 0);
    }
  }

  /** With no partial-line guard, a record the consumer meets half-written is
      lost. When the producer's record line reaches the file in two pieces and
      the consumer, already caught up, polls between them, each piece is read
      as a chunk of its own; neither decodes, so the snapshot is unchanged,
      and the position ends past the whole record. A cut right before the line
      feed is not one of these: see `CutBeforeFeed`. */
  lemma TornRecordLost(h: string, s: Snapshot, table: Table, i: nat)
    requires IsTable(table)
    requires 0 < i < |LetterRecord.Record(table)| - 1
    ensures var line := LetterRecord.Record(table);
      var r := Run(Tail(h, Reader(|h|, s), []),
        [Write(line[..i]), Read, Write(line[i..]), Read]);
      && r.reader.snapshot == s
      && r.reader.cursor == |h| + |line|
      && forall k | 0 <= k < |r.delivered| :: JsonObject.Decode(r.delivered[k]).Fail?
  {
    LetterRecord.RecordShape(table);
    TornLine(h, s, LetterRecord.Record(table), i);
  }

  /** The one cut that does not lose the record: right before its line feed.
      The first piece is then the whole object, which decodes and is applied
      at once; the line feed that follows is read as a blank chunk and
      skipped. */
  lemma CutBeforeFeed(h: string, s: Snapshot, table: Table)
    requires IsTable(table)
    ensures var line := LetterRecord.Record(table);
      var r := Run(Tail(h, Reader(|h|, s), []),
        [Write(line[..|line| - 1]), Read, Write("\n"), Read]);
      && r.reader.snapshot == LetterRecord.AsObject(table)
      && r.reader.cursor == |h| + |line|
      && r.delivered == [line[..|line| - 1]]
  {
    var line := LetterRecord.Record(table);
    LetterRecord.BodyDecodes(table);
    assert line[|line| - 1] == '\n' && '\n' !in line[..|line| - 1];
    FeedLast(h, s, line[..|line| - 1], LetterRecord.AsObject(table));
  }

  /** An object written without its line feed, then the line feed, with a
      poll after each: the object is applied when it is read at the end of
      the file, and the line feed alone is skipped as blank. */
  lemma FeedLast(h: string, s: Snapshot, body: string, m: Snapshot)
    requires body != [] && '\n' !in body && JsonObject.Decode(body) == Ok(m)
    ensures var r := Run(Tail(h, Reader(|h|, s), []), [Write(body), Read, Write("\n"), Read]);
      && r.reader.snapshot == m
      && r.reader.cursor == |h| + |body| + 1
      && r.delivered == [body]
  {
    var t0 := Tail(h, Reader(|h|, s), []);
    var t1 := Step(t0, Write(body));
    ReadPartial(h, body);
    StepRead(t1, body);
    var t2 := Tail(h + body, Reader(|h| + |body|, m), [body]);
    assert Step(t1, Read) == t2;
    assert JsonObject.Decode("\n").Fail? by {
      BlankNoDecode("\n");
    }
    SecondPiece(t2, "\n");
    RunFour(t0, Write(body), Read, Write("\n"), Read);
  }

  /** The same for any object line whose only braces are its outer ones. */
  lemma TornLine(h: string, s: Snapshot, line: string, i: nat)
    requires Files.IsLine(line) && |line| >= 3 && line[|line| - 2] == '}'
    requires '{' !in line[1..] && '}' !in line[..|line| - 2]
    requires 0 < i < |line| - 1
    ensures var r := Run(Tail(h, Reader(|h|, s), []),
        [Write(line[..i]), Read, Write(line[i..]), Read]);
      && r.reader.snapshot == s
      && r.reader.cursor == |h| + |line|
      && forall k | 0 <= k < |r.delivered| :: JsonObject.Decode(r.delivered[k]).Fail?
  {
    TornPieces(line, i);
    TwoPieces(h, s, line[..i], line[i..]);
    var r := Handed(line[..i]) + Handed(line[i..]);
    assert forall k | 0 <= k < |r| :: r[k] == line[..i] || r[k] == line[i..];
  }

  /** The two pieces of an object line cut inside its body: the front has no
      line feed and no `}`, so it does not decode; the back is the rest of the
      line and has no `{`, so it does not decode either. */
  lemma TornPieces(line: string, i: nat)
    requires Files.IsLine(line) && |line| >= 3 && line[|line| - 2] == '}'
    requires '{' !in line[1..] && '}' !in line[..|line| - 2]
    requires 0 < i < |line| - 1
    ensures var a, b := line[..i], line[i..];
      && a != [] && '\n' !in a && Files.IsLine(b) && |a| + |b| == |line|
      && JsonObject.Decode(a).Fail? && JsonObject.Decode(b).Fail?
  {
    var a, b := line[..i], line[i..];
    assert '}' !in a by {
      assert a == line[..|line| - 2][..i];
    }
    assert '{' !in b by {
      assert b == line[1..][i - 1..];
    }
    assert '\n' !in a by {
      assert a == line[..|line| - 1][..i];
    }
    assert b[..|b| - 1] == line[..|line| - 1][i..];
    NoCloseNoDecode(a);
    NoOpenNoDecode(b);
  }

  /** At the end of the file, `readline` returns a partial last line as it is. */
  lemma ReadPartial(h: string, a: string)
    requires a != [] && '\n' !in a
    ensures ReadLine(h + a, |h|) == a
  {
    var got := ReadLine(h + a, |h|);
    ReadLineSpec(h + a, |h|);
    assert got == (h + a)[|h|..|h| + |got|] == a[..|got|];
    assert got[|got| - 1] in a;
  }

  /** A poll that reads a chunk that does not decode moves past it and keeps
      the snapshot. */
  lemma ReadRejected(t: Tail, line: string)
    requires ReadLine(t.text, t.reader.cursor) == line
    requires JsonObject.Decode(line).Fail?
    ensures Step(t, Read).text == t.text
    ensures Step(t, Read).reader == Reader(t.reader.cursor + |line|, t.reader.snapshot)
    ensures Step(t, Read).delivered == t.delivered + Handed(line)
  {
  }

  /** A caught-up consumer that polls once after each of two writes `a` and `b`,
      where `a` is an unterminated piece and `b` a line, reads each piece as a
      chunk of its own; if neither decodes, the snapshot stays as it was. */
  lemma TwoPieces(h: string, s: Snapshot, a: string, b: string)
    requires a != [] && '\n' !in a && Files.IsLine(b)
    requires JsonObject.Decode(a).Fail? && JsonObject.Decode(b).Fail?
    ensures var r := Run(Tail(h, Reader(|h|, s), []), [Write(a), Read, Write(b), Read]);
      && r.reader.cursor == |h| + |a| + |b|
      && r.reader.snapshot == s
      && r.delivered == Handed(a) + Handed(b)
  {
    var t0 := Tail(h, Reader(|h|, s), []);
    FirstPiece(h, s, a);
    var t2 := Tail(h + a, Reader(|h| + |a|, s), Handed(a));
    SecondPiece(t2, b);
    RunFour(t0, Write(a), Read, Write(b), Read);
  }

  /** Write a piece with no line feed, then poll: the piece is read as it is. */
  lemma FirstPiece(h: string, s: Snapshot, a: string)
    requires a != [] && '\n' !in a
    requires JsonObject.Decode(a).Fail?
    ensures Step(Step(Tail(h, Reader(|h|, s), []), Write(a)), Read)
      == Tail(h + a, Reader(|h| + |a|, s), Handed(a))
  {
    var t1 := Step(Tail(h, Reader(|h|, s), []), Write(a));
    ReadPartial(h, a);
    ReadRejected(t1, a);
  }

  /** Write a whole line at the end of the file, then poll: the line is read. */
  lemma SecondPiece(t: Tail, b: string)
    requires t.reader.cursor == |t.text| && Files.IsLine(b)
    requires JsonObject.Decode(b).Fail?
    ensures Step(Step(t, Write(b)), Read)
      == Tail(t.text + b, Reader(|t.text| + |b|, t.reader.snapshot), t.delivered + Handed(b))
  {
    var t3 := Step(t, Write(b));
    assert (t.text + b)[|t.text|..|t.text| + |b|] == b;
    ReadWholeLine(t3.text, |t.text|, b);
    ReadRejected(t3, b);
  }

  /** Running four events is stepping through them in order. */
  lemma RunFour(t: Tail, e0: Event, e1: Event, e2: Event, e3: Event)
    ensures Run(t, [e0, e1, e2, e3]) == Step(Step(Step(Step(t, e0), e1), e2), e3)
  {
    var evs := [e0, e1, e2, e3];
    assert evs[1..] == [e1, e2, e3] && evs[2..] == [e2, e3] && evs[3..] == [e3];
    assert Run(t, evs) == Run(Step(t, e0), evs[1..]);
    RunThree(Step(t, e0), e1, e2, e3);
  }

  lemma RunThree(t: Tail, e1: Event, e2: Event, e3: Event)
    ensures Run(t, [e1, e2, e3]) == Step(Step(Step(t, e1), e2), e3)
  {
    var evs := [e1, e2, e3];
    assert evs[1..] == [e2, e3] && evs[2..] == [e3];
    assert Run(t, evs) == Run(Step(t, e1), evs[1..]);
    RunTwo(Step(t, e1), e2, e3);
  }

  lemma RunTwo(t: Tail, e2: Event, e3: Event)
    ensures Run(t, [e2, e3]) == Step(Step(t, e2), e3)
  {
    var evs := [e2, e3];
    assert evs[1..] == [e3];
    assert Run(t, evs) == Run(Step(t, e2), evs[1..]);
    assert Run(Step(t, e2), [e3]) == Run(Step(Step(t, e2), e3), []);
  }
}
