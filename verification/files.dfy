/** The two data files the producer writes and the consumer reads, as text.
    A file is either missing or present with its contents; both files live in
    the project's `data` directory. */
module Files {

  datatype File = Missing | Present(text: string)

  /** What reading the whole file gives; a missing file reads as nothing here. */
  function Contents(f: File): string {
    if f.Missing? then [] else f.text
  }

  /** `open(path, "a").write(s)`: append mode creates a missing file, and the
      earlier contents stay in place in front of `s`. */
  function Append(f: File, s: string): (r: File)
    ensures r.Present?
    ensures |r.text| == |Contents(f)| + |s|
    ensures r.text[..|Contents(f)|] == Contents(f) && r.text[|Contents(f)|..] == s
  {
    Present(Contents(f) + s)
  }

  /** One complete line: text ending in a line feed, with no line feed before it. */
  predicate IsLine(s: string) {
    s != [] && s[|s| - 1] == '\n' && '\n' !in s[..|s| - 1]
  }

  /** A line holds exactly one line feed. */
  lemma LineFeeds(s: string)
    requires IsLine(s)
    ensures multiset(s)['\n'] == 1
  {
    assert s == s[..|s| - 1] + [s[|s| - 1]];
  }

  /** The data directory: the letters file `buzz_letters.json` and the live
      file `buzz_live.json`. */
  datatype Disk = Disk(letters: File, live: File)
}
