# Letter-frequency channel: a Dafny model

This project models the file-backed channel between the "buzz" letter-frequency
producer and its consumer.

**The producer** (`producers/project_producer_gjrich.py`):
- It keeps a running table of 26 counters, one for each of `a` to `z`.
- For every message it normalises the text: it drops everything but ASCII letters and lowercases the rest.
- It bumps the counter of every remaining character.
- It appends the whole table, as one `json.dumps` line, to the letters file `buzz_letters.json`.
- It hands the message to `main`, which appends it as one JSON line to the live file `buzz_live.json`.

**The consumer** (`consumers/project_consumer_gjrich.py`):
- At import it empties both files.
- `main` exits with status 1 if the letters file is missing.
- Otherwise it opens the letters file and seeks to its end.
- It then polls with `readline()`. Every chunk that is not blank goes to `process_message`.
- `process_message` replaces the global snapshot with the decoded dict. A chunk that does not decode is logged and the snapshot is kept.
- `update_chart` shows the snapshot's keys in sorted order with their counts.

**How it is modelled.** Everything is immutable data and pure functions.
- Files are strings. A table is a `map<char, nat>`.
- `json.dumps`/`json.loads` are a restricted codec for flat objects of string keys and non-negative integer values. It uses Python's `", "` and `": "` separators and `ensure_ascii` escaping.
- The consumer is a state machine over (file text, read position, snapshot).
- The two processes are interleaved as a sequence of atomic steps: appends by the producer and polls by the consumer.

**Modules**, one file each:

| module | file | covers |
|---|---|---|
| `Parsing` | `parsing.dfy` | read results and JSON whitespace |
| `JsonNumber` | `json_number.dfy` | numbers |
| `JsonString` | `json_string.dfy` | string literals |
| `JsonObject` | `json_object.dfy` | objects |
| `Letters` | `letters.dfy` | the table and its update |
| `Files` | `files.dfy` | the two data files |
| `LetterRecord` | `letter_record.dfy` | one line of the letters file |
| `Producer` | `producer.dfy` | `generate_messages` and `main` |
| `Consumer` | `consumer.dfy` | import, `main`, `process_message` |
| `Chart` | `chart.dfy` | `update_chart`'s data |
| `Channel` | `channel.dfy` | interleaved appends and polls |
| `System` | `system.dfy` | both processes together |
| `Backlog` | `backlog.dfy` | a consumer that falls behind the producer |

**Two points about the code that the model keeps.**
- **No partial-line guard.** `readline()` at the end of the file returns the unterminated tail.
  - The tail is not blank, so it reaches `process_message`, and the position moves past it.
  - `Channel.TornRecordLost` shows the effect: a record cut anywhere inside its body, before the closing `}`, whose two pieces are polled separately, is never applied.
  - A record cut right before its line feed is applied once: the first piece is the whole object (`Channel.CutBeforeFeed`).
- **Who resets the files.** The consumer, not the producer, empties both files when its module is imported. The producer only appends.

## Model

| member | source | states |
|---|---|---|
| Letters.AlphabetLetters | producers/project_producer_gjrich.py:79 | `ascii_lowercase` has 26 characters. The i-th is `'a'+i`. They are exactly the lowercase ASCII letters, with none repeated. |
| Letters.InitialTable | producers/project_producer_gjrich.py:79 | The initial table's keys are exactly `'a'`..`'z'`, and every count is 0. |
| Letters.InitialTotal | producers/project_producer_gjrich.py:79 | The initial counts add up to 0. |
| Letters.Lower | producers/project_producer_gjrich.py:114 | `.lower()` on an ASCII letter gives a lowercase letter. It leaves lowercase letters alone and shifts capitals by `'a'-'A'`. |
| Letters.Upper | producers/project_producer_gjrich.py:114 | Every lowercase letter has a capital that lowers to it. |
| Letters.LowerInverse | producers/project_producer_gjrich.py:114 | The ASCII letters that lower to `c` are exactly `c` and its capital. |
| Letters.Normalise | producers/project_producer_gjrich.py:114 | The normalised text holds only lowercase ASCII letters and is no longer than the message. |
| Letters.NormaliseChar | producers/project_producer_gjrich.py:114 | A single character normalises to its lowered self if it matches `[a-zA-Z]`, and to nothing otherwise. |
| Letters.NormaliseAppend | producers/project_producer_gjrich.py:114 | Normalising a concatenation concatenates the normalised parts. So the text keeps the message's order and works character by character. |
| Letters.NormaliseCounts | producers/project_producer_gjrich.py:114 | A lowercase letter occurs in the normalised text as often as it and its capital occur in the message. No other character occurs. |
| Letters.Bump | producers/project_producer_gjrich.py:117-118 | One loop step adds one to the counter of a counted character. The keys and the other counters stay the same. |
| Letters.CountAll | producers/project_producer_gjrich.py:116-118 | The counting loop with its `if char in letter_counts` guard never adds or removes a key. Each counted character's count grows by its number of occurrences. |
| Letters.Update | producers/project_producer_gjrich.py:114-118 | A message never adds or removes a key, so a table stays exactly `'a'`..`'z'`. Each count grows by exactly the occurrences of its letter in the message, lowercase and capital together. |
| Letters.UpdateMonotone | producers/project_producer_gjrich.py:116-118 | No count ever decreases. |
| Letters.UpdateTotal | producers/project_producer_gjrich.py:116-118 | The sum of the counts grows by exactly the length of the normalised text. |
| JsonNumber.NatText | producers/project_producer_gjrich.py:123 | `json.dumps` writes a count as a non-empty run of digits. The digits denote the count and have a leading `0` only for 0. |
| JsonNumber.ParseNat | consumers/project_consumer_gjrich.py:113 | An integer is read exactly when the text starts with a digit. It reads at least one character. The characters read are all digits, and the value is the number they denote. A leading `0` is read alone, as the value 0. Otherwise every following digit belongs to the number. |
| JsonNumber.ParseNatText | consumers/project_consumer_gjrich.py:113 | Round trip: a count's digits, followed by a non-digit, read back as that count with exactly the rest left over. |
| JsonString.Hex4 | producers/project_producer_gjrich.py:123 | The `\uXXXX` digits are four lowercase hex digits whose value is the code unit. |
| JsonString.Quote | producers/project_producer_gjrich.py:150 | A JSON string literal is printable ASCII, so it has no line break. It is enclosed in double quotes. |
| JsonString.ParseQuoted | consumers/project_consumer_gjrich.py:113 | Round trip: the literal for any string reads back as that string. This covers escapes, `\uXXXX` and surrogate pairs. Exactly what follows the literal is left unread. |
| JsonString.ParseStringSuffix | consumers/project_consumer_gjrich.py:113 | A string literal is read from the front: what is left unread is a suffix of the input. |
| JsonObject.Encode | producers/project_producer_gjrich.py:123 | The dumped object is printable ASCII, so it has no embedded line break. It starts with `{` and ends with `}`. |
| JsonObject.ToMap | consumers/project_consumer_gjrich.py:113 | The decoded dict has exactly the keys that occur. For a repeated key, the value of its last occurrence wins. |
| JsonObject.ToMapDistinct | consumers/project_consumer_gjrich.py:113 | With no repeated key, every pair's value is its key's value in the dict. |
| JsonObject.Decode | consumers/project_consumer_gjrich.py:113 | A decoded text starts with `{` once leading whitespace is skipped. |
| JsonObject.DecodeNeedsBrace | consumers/project_consumer_gjrich.py:113 | Text with no `}` never decodes. |
| JsonObject.MembersRoundTrip | consumers/project_consumer_gjrich.py:113 | The encoded pairs of a non-empty object, then `}`, read back as the same pairs in order. Exactly what follows the brace is left unread. |
| JsonObject.DecodeEncode | consumers/project_consumer_gjrich.py:113 | Round trip: decoding what `json.dumps` wrote, plus any trailing JSON whitespace, gives the dict of its pairs. |
| Files.Append | producers/project_producer_gjrich.py:122-123 | Appending creates a missing file. The earlier contents stay in front and the new text follows them. |
| Files.LineFeeds | producers/project_producer_gjrich.py:123 | A line holds exactly one line feed. |
| LetterRecord.TableEntries | producers/project_producer_gjrich.py:79 | The dict lists its 26 one-letter keys in alphabetical order, each with its count. |
| LetterRecord.AsObject | consumers/project_consumer_gjrich.py:113 | The dict the consumer gets for a table has one one-character key per letter, with that letter's count, and nothing else. |
| LetterRecord.Record | producers/project_producer_gjrich.py:123 | A record is exactly one line, ending in its only line feed, and starts with `{`. |
| LetterRecord.RecordDecodes | producers/project_producer_gjrich.py:120-123 | The consumer's `json.loads` of a record gives exactly the producer's full table: all 26 letters with their counts, not a delta. |
| LetterRecord.AsObjectInjective | producers/project_producer_gjrich.py:123 | Different tables give different decoded dicts. |
| LetterRecord.RecordShape | producers/project_producer_gjrich.py:123 | A record's only `{` opens it and its only `}` closes it, right before the line feed. |
| Producer.LiveRecord | producers/project_producer_gjrich.py:149-150 | The message is written as exactly one line. |
| Producer.Start | producers/project_producer_gjrich.py:79 | The producer starts with every count zero and no message pending. |
| Producer.Generate | producers/project_producer_gjrich.py:113-126 | Before the yield: the table is updated and stays a table, and no count decreases. The letters file gets the new table's record appended. The live file is untouched. The message is pending. |
| Producer.Archive | producers/project_producer_gjrich.py:147-150 | After the yield, `main` appends the pending message to the live file. The letters file and the table are untouched. |
| Producer.ProduceOne | producers/project_producer_gjrich.py:113-150 | Each message adds exactly one line to each file and keeps their earlier contents. The new letters line decodes to the whole updated table, whose counts are exact. |
| Consumer.Startup | consumers/project_consumer_gjrich.py:51-53 | After the consumer's import both files exist and are empty. |
| Consumer.Attach | consumers/project_consumer_gjrich.py:144-151 | The consumer exits exactly when the letters file is missing, with status 1. Otherwise it reads from the end of the file, keeping the snapshot. |
| Consumer.ReadLine | consumers/project_consumer_gjrich.py:155 | At or past the end of the file, `readline` returns nothing. Otherwise what it returns lies within the file. |
| Consumer.ReadLineSpec | consumers/project_consumer_gjrich.py:155 | Before the end of the file, `readline` returns a non-empty piece from the position on. It has no line feed before its last character, and it ends with a line feed or at the end of the file. |
| Consumer.ReadWholeLine | consumers/project_consumer_gjrich.py:155 | At the start of a complete line, `readline` returns exactly that line. |
| Consumer.ReadLineShift | consumers/project_consumer_gjrich.py:155 | Text before the position has no effect on what `readline` returns. |
| Consumer.ProcessRecord | consumers/project_consumer_gjrich.py:111-127 | A line the producer wrote never takes the error path: `process_message` makes the snapshot exactly the producer's table, whatever the snapshot was before. |
| Consumer.Handle | consumers/project_consumer_gjrich.py:156-161 | A blank chunk never decodes. So the `strip()` check changes nothing: handling a chunk is the same as passing it to `process_message`. |
| Consumer.ProcessReplaces | consumers/project_consumer_gjrich.py:117-118 | Replace, not merge: on a line that decodes, the result does not depend on the old snapshot. |
| Consumer.ProcessIdempotent | consumers/project_consumer_gjrich.py:117-118 | Processing the same line twice leaves the same snapshot as processing it once. |
| Consumer.Poll | consumers/project_consumer_gjrich.py:154-161 | A poll never moves the position backwards. Before the end of the file it always advances, and stays within the file. A poll that does not move changes nothing. |
| Consumer.PollLine | consumers/project_consumer_gjrich.py:154-157 | A poll at the start of a complete line that starts with `{` and decodes reads that whole line. It installs the decoded dict, whatever follows the line in the file. |
| Consumer.PollAtEnd | consumers/project_consumer_gjrich.py:154-161 | At the end of the file a poll changes nothing, which is the sleep-and-retry case. |
| Chart.BelowTransitive | consumers/project_consumer_gjrich.py:81 | Python's string order is transitive. |
| Chart.BelowTotal | consumers/project_consumer_gjrich.py:81 | Python's string order puts any two different strings one way or the other. |
| Chart.BelowIrreflexive | consumers/project_consumer_gjrich.py:81 | No string sorts before itself. |
| Chart.Insert | consumers/project_consumer_gjrich.py:81 | Inserting into an ascending list keeps it ascending. It adds exactly the new key. |
| Chart.ChartView | consumers/project_consumer_gjrich.py:81-82 | The chart's letters are the snapshot's keys, each once, in ascending order. `counts[i]` is the snapshot's value for `letters[i]`. |
| Chart.SortedUnique | consumers/project_consumer_gjrich.py:81 | There is only one ascending arrangement of a set of keys, so `sorted` is determined by the keys. |
| Chart.LetterKeysSorted | consumers/project_consumer_gjrich.py:81 | The keys `"a"` to `"z"` in alphabetical order are ascending. |
| Chart.TableView | consumers/project_consumer_gjrich.py:81-82 | For a decoded record the chart shows `"a"` to `"z"` in order. Each bar is the producer's count for that letter. |
| Channel.Handed | consumers/project_consumer_gjrich.py:156-157 | A chunk is passed to `process_message` exactly when it is not blank. It is passed at most once and unchanged. |
| Channel.Step | consumers/project_consumer_gjrich.py:154-161 | Appends and polls never shrink the file or move the read position back. |
| Channel.Run | consumers/project_consumer_gjrich.py:154-161 | Over a whole run the file only grows and the read position never moves back. |
| Channel.LiveTailOnly | consumers/project_consumer_gjrich.py:149-151 | Live tail only: whatever the file held at attach changes nothing. Chunks delivered and snapshots are those of a reader attached to an empty file, so nothing written before the attach is ever processed. |
| Channel.RunShift | consumers/project_consumer_gjrich.py:154-161 | Text in front of the read position changes nothing in a run except the positions, which shift by its length. |
| Channel.NoCloseNoDecode | consumers/project_consumer_gjrich.py:113 | A chunk with no `}` is a decode error. |
| Channel.NoOpenNoDecode | consumers/project_consumer_gjrich.py:113 | A chunk with no `{` is a decode error. |
| Channel.ReadPartial | consumers/project_consumer_gjrich.py:155 | At the end of the file `readline` returns an unterminated tail as it is. There is no partial-line guard. |
| Channel.ReadRejected | consumers/project_consumer_gjrich.py:124-127 | A chunk that does not decode is skipped: the position moves past it and the snapshot is kept. |
| Channel.TornPieces | consumers/project_consumer_gjrich.py:155-157 | Both halves of a record cut inside its body fail to decode. |
| Channel.TwoPieces | consumers/project_consumer_gjrich.py:155-157 | A caught-up reader polling after each of two writes reads each as a chunk of its own. If neither decodes, the snapshot stays. |
| Channel.TornRecordLost | consumers/project_consumer_gjrich.py:155-157 | A record that reaches the file in two pieces, cut anywhere inside its body before the closing `}`, with a poll between them, is never applied. The snapshot stays, the position ends past the whole record, and neither delivered chunk decodes. |
| Channel.CutBeforeFeed | consumers/project_consumer_gjrich.py:155-157 | A record cut right before its line feed, with a poll between the pieces, is applied once. The first piece is the whole object, which decodes and becomes the snapshot; the lone line feed is skipped as blank. The position ends past the whole record. |
| System.Boot | consumers/project_consumer_gjrich.py:144-151 | After the consumer's import, `main` never exits. It attaches at the end of the emptied letters file with an empty snapshot. |
| System.Deliver | consumers/project_consumer_gjrich.py:113-118 | A caught-up consumer that polls after the producer's next record holds exactly the producer's new table. It is then at the end of the file again. |
| System.Cycle | producers/project_producer_gjrich.py:113-150 | One message with a poll in between ends with the consumer caught up. Its snapshot equals the producer's updated table. The letters file gained that table's record and the live file the message's line. |
| System.Session | producers/project_producer_gjrich.py:147-150 | Any number of messages keeps the consumer caught up. |
| System.SessionInSync | consumers/project_consumer_gjrich.py:113-118 | After at least one message, the consumer's snapshot is the producer's current table. |
| System.SessionTotal | producers/project_producer_gjrich.py:116-118 | Over a session the counts grow by exactly the number of letters in its messages. |
| System.SessionKeepsFile | producers/project_producer_gjrich.py:122-123 | Over a session the letters file keeps everything it held in front. |
| Backlog.PollAtRecord | consumers/project_consumer_gjrich.py:154-157 | A poll at the start of a complete record line reads that line. The snapshot becomes that record's table, whatever follows in the file. |
| Backlog.QueueStepOrder | consumers/project_consumer_gjrich.py:155 | One append or poll never loses, repeats or reorders a record. The records read, then those waiting, are the earlier ones plus any record written. |
| Backlog.QueueRunOrder | consumers/project_consumer_gjrich.py:155 | The same over any run: the records read and then those waiting are the records written, in order. |
| Backlog.LinesAppend | producers/project_producer_gjrich.py:122-123 | Appending a record adds its line after the lines already there. |
| Backlog.QueueRunTaken | consumers/project_consumer_gjrich.py:155 | Records once read stay read: a run only adds to the records read. |
| Backlog.TakeDelivered | consumers/project_consumer_gjrich.py:155-157 | A poll at the start of a complete record line hands exactly that line, once, to `process_message`. |
| Backlog.TakeTurn | consumers/project_consumer_gjrich.py:154-157 | When records are waiting, a poll reads exactly the oldest one and hands its line to `process_message`. The snapshot becomes its table, and the rest stay waiting. |
| Backlog.StepQueue | consumers/project_consumer_gjrich.py:154-161 | For any turn, the unread part of the file stays the waiting records' lines, and the snapshot stays the table read last. A chunk reaches `process_message` only when a record is read, and it is that record's line. |
| Backlog.RunQueue | consumers/project_consumer_gjrich.py:154-161 | Over any interleaving of whole-record writes and polls, the unread part of the file is the waiting records' lines in order. The snapshot is the table of the record read last. The chunks handed to `process_message` are the lines of the records read, in order. |
| Backlog.CaughtUpShowsLast | consumers/project_consumer_gjrich.py:113-118 | However far the consumer falls behind, nothing is skipped. Once its position reaches the end of the file, its snapshot is the table of the last record written. |
| Backlog.HandedInOrder | consumers/project_consumer_gjrich.py:154-161 | Every record line is handed to `process_message` at most once, in the order written, with none skipped. The chunks handed so far are the first lines written. Once the consumer has caught up, they are all of the lines written, each exactly once. |
| System.FromBoot | consumers/project_consumer_gjrich.py:144-157 | From start-up, after at least one message, the consumer holds the producer's table. Its counts total the letters of all the messages. |

## Left out

- Message generation is not modelled. `random.choice` over the word lists and the author names is replaced by an arbitrary `Message` parameter.
- `get_message_interval`, `.env` loading, logging, `time.sleep` and the matplotlib figure are not modelled. They are configuration, I/O and drawing, with no bearing on the data. The chart keeps only the sorted keys and counts.
- Real concurrency is not modelled. The processes are interleaved atomic steps: a whole append, or one `readline` plus its processing.
  - A write that the operating system splits is modelled as two appends, as in `Channel.TornRecordLost`.
- `KeyboardInterrupt` and the generic exception handlers in both `main`s are not modelled, and neither is the `data` directory being missing.
- Offsets count characters, not bytes. The files are read and written as text. Python's universal-newline translation of `\r` and `\r\n` is not modelled. The producer never writes either.
- JsonObject.Decode: accepts only a flat object of string keys and non-negative integer values. Python decodes any other JSON document too. Examples are a list, a top-level string or number, and an object with a `true`, `false`, `null`, string, float, negative or nested value. So is a string holding a lone surrogate escape.
  - For those, `process_message` replaces the snapshot with the decoded value. `update_chart` may then raise, and the exception is caught.
  - The model treats them as decode errors that keep the old snapshot.
  - The producer writes only the accepted shape.
- JsonObject.Decode: has no limit on the length of an integer. Since Python 3.11, `json.loads` raises `ValueError` on an integer of more than 4300 digits.
  - `process_message` catches it in its generic handler (consumers/project_consumer_gjrich.py:126-127), before the assignment, so the old snapshot stays.
  - The model decodes such a number and replaces the snapshot.
- JsonNumber.NatText: has no limit on the length of a count either. In Python, `json.dumps` raises `ValueError` on a count of more than 4300 digits (producers/project_producer_gjrich.py:123). A count that large needs at least 10^4300 letters.
- JsonNumber.ParseNat: does not read a leading `-`, a fraction or an exponent, which Python's scanner accepts.
- JsonString.ParseUnicodeEscape: refuses an unpaired surrogate escape, which Python keeps in its string. A Dafny `char` cannot hold one.
- Truncation while a consumer is attached is not modelled: `Channel` has no truncate event.
  - Importing a second consumer empties both files again (consumers/project_consumer_gjrich.py:51-53).
  - The first consumer's position is then past the end of the file, so its polls only sleep, as in `Consumer.PollAtEnd`.
  - Once the file grows past that position, `readline` starts in the middle of a record.
  - Every result about runs assumes the file only grows.
- The live file is only written, never read back. Its record is shown to be one line, but its decoding is not modelled. Nothing in the core reads it.
