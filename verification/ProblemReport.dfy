/**
 The problem report: how its metadata and logs are collected and written, and how the metadata is
 read back from the text as it is sent. Reading and writing files is left to the caller, and the line
 separator of the platform is a parameter.
 */
module ProblemReport {
  import opened Redaction
  import opened Text
  import opened Wrappers

  const SYSTEM_INFORMATION := "System information:"
  const PATTERN := ": "
  const LOG_DELIMITER := "===================="
  const LOG_LABEL := "Log: "

  /** Of a longer report, only so many bytes from the end are sent. */
  const REPORT_MAX_SIZE := 5 * 128 * 1024 + 32 * 1024
  const REPLACEMENT_CHARACTER := '\U{FFFD}'

  type Separator = s: string | s == "\n" || s == "\r\n" witness "\n"

  datatype Entry = Entry(key: string, value: string)

  datatype Log = Log(name: string, content: string)

  // ----- The written report -----

  function WrittenEntries(sep: Separator, entries: seq<Entry>): string {
    if entries == [] then ""
    else entries[0].key + ": " + entries[0].value + sep + WrittenEntries(sep, entries[1..])
  }

  function WrittenLog(sep: Separator, log: Log): string {
    (LOG_DELIMITER + sep + LOG_LABEL) + log.name + (sep + LOG_DELIMITER + sep) + log.content + sep
  }

  function WrittenLogs(sep: Separator, logs: seq<Log>): string {
    if logs == [] then "" else WrittenLog(sep, logs[0]) + WrittenLogs(sep, logs[1..])
  }

  function Written(sep: Separator, entries: seq<Entry>, logs: seq<Log>): string {
    "System information:" + sep + WrittenEntries(sep, entries) + sep + WrittenLogs(sep, logs)
  }

  // ----- The metadata read back -----

  /** The leftmost occurrence of the pattern, if there is one. */
  function FindPattern(line: string): (r: Option<nat>)
    ensures r.Some? ==> OccursAt(line, PATTERN, r.value) && !Contains(line[..r.value + 1], PATTERN)
    ensures r.None? ==> !Contains(line, PATTERN)
  {
    if |line| < 2 then None
    else if line[..2] == PATTERN then Some(0)
    else
      var r := FindPattern(line[1..]);
      NoEarlierPattern(line, r);
      match r case Some(i) => Some(i + 1) case None => None
  }

  lemma NoEarlierPattern(line: string, r: Option<nat>)
    requires |line| >= 2 && line[..2] != PATTERN
    requires r.Some? ==> OccursAt(line[1..], PATTERN, r.value) && !Contains(line[1..][..r.value + 1], PATTERN)
    requires r.None? ==> !Contains(line[1..], PATTERN)
    ensures r.Some? ==> OccursAt(line, PATTERN, r.value + 1) && !Contains(line[..r.value + 2], PATTERN)
    ensures r.None? ==> !Contains(line, PATTERN)
  {
    if r.Some? {
      SliceOfTail(line, r.value, r.value + 2);
      SliceOfTail(line, 0, r.value + 1);
    }
    var upTo := if r.Some? then line[..r.value + 2] else line;
    assert upTo[1..] == if r.Some? then line[1..][..r.value + 1] else line[1..];
    forall i ensures !OccursAt(upTo, PATTERN, i) {
      if i > 0 {
        assert !OccursAt(upTo[1..], PATTERN, i - 1);
      }
    }
  }

  /** A pattern after a key without one is found right there. */
  lemma {:induction false} PatternAfterKey(key: string, value: string)
    requires !Contains(key, PATTERN)
    ensures FindPattern(key + PATTERN + value) == Some(|key|)
    decreases key
  {
    var line := key + PATTERN + value;
    if key == "" {
      assert line[..2] == PATTERN;
    } else {
      NotAtStart(key, value);
      assert line[1..] == key[1..] + PATTERN + value;
      NotInSuffix(key, PATTERN, 1);
      PatternAfterKey(key[1..], value);
    }
  }

  lemma NotAtStart(key: string, value: string)
    requires key != "" && !Contains(key, PATTERN)
    ensures (key + PATTERN + value)[..2] != PATTERN
  {
    var start := (key + PATTERN + value)[..2];
    assert !OccursAt(key, PATTERN, 0);
    if |key| == 1 {
      assert start[1] == ':';
    } else {
      assert start == key[0..2];
    }
  }

  function ParseEntries(soFar: map<string, string>, lines: seq<string>): Option<map<string, string>>
    decreases |lines|
  {
    if lines == [] || lines[0] == "" then Some(soFar)
    else
      match FindPattern(lines[0])
      case None => None
      case Some(i) => ParseEntries(soFar[lines[0][..i] := lines[0][i + |PATTERN|..]], lines[1..])
  }

  function ParsedMetadata(report: string): Option<map<string, string>> {
    var lines := Lines(report);
    if lines == [] || lines[0] != SYSTEM_INFORMATION then None else ParseEntries(map[], lines[1..])
  }

  /** The loop of the program: lines up to the first empty one, each cut at its first pattern. */
  method ParseMetadata(report: string) returns (r: Option<map<string, string>>)
    ensures r == ParsedMetadata(report)
  {
    var lines := Lines(report);
    if lines == [] || lines[0] != SYSTEM_INFORMATION {
      return None;
    }
    var metadata := map[];
    var i := 1;
    while i < |lines|
      invariant 1 <= i <= |lines|
      invariant ParsedMetadata(report) == ParseEntries(metadata, lines[i..])
    {
      var line := lines[i];
      assert lines[i..][0] == line && lines[i..][1..] == lines[i + 1..];
      if line == "" {
        break;
      }
      var split := FindPattern(line);
      if split.None? {
        return None;
      }
      metadata := metadata[line[..split.value] := line[split.value + |PATTERN|..]];
      i := i + 1;
    }
    r := Some(metadata);
  }

  // ----- When what is read back is what was written -----

  /** A report has one entry a key. */
  predicate AreDistinct(entries: seq<Entry>) {
    forall i, j | 0 <= i < j < |entries| :: entries[i].key != entries[j].key
  }

  function ToMap(soFar: map<string, string>, entries: seq<Entry>): map<string, string>
    decreases |entries|
  {
    if entries == [] then soFar else ToMap(soFar[entries[0].key := entries[0].value], entries[1..])
  }

  lemma {:induction false} MapHoldsEntries(soFar: map<string, string>, entries: seq<Entry>)
    requires AreDistinct(entries)
    ensures var m := ToMap(soFar, entries);
            && (forall e <- entries :: e.key in m && m[e.key] == e.value)
            && (forall k <- soFar | (forall e <- entries :: e.key != k) :: k in m && m[k] == soFar[k])
    decreases |entries|
  {
    if entries != [] {
      var e, tail := entries[0], entries[1..];
      MapHoldsEntries(soFar[e.key := e.value], tail);
      assert entries == [e] + tail;
      assert forall d <- tail :: d.key != e.key;
    }
  }

  /** An entry without line feeds, and without the pattern in its key. */
  ghost predicate IsPlain(key: string, value: string) {
    !Contains(key, PATTERN) && '\n' !in key && '\n' !in value
  }

  predicate EndsInReturn(s: string) {
    s != "" && s[|s| - 1] == '\r'
  }

  ghost predicate AllPlain(m: map<string, string>) {
    forall k <- m :: IsPlain(k, m[k])
  }

  lemma CutIsPlain(line: string, i: nat)
    requires '\n' !in line && FindPattern(line) == Some(i)
    ensures IsPlain(line[..i], line[i + |PATTERN|..])
  {
    var key := line[..i];
    forall k ensures !OccursAt(key, PATTERN, k) {
      assert !OccursAt(line[..i + 1], PATTERN, k);
      if 0 <= k <= i - 2 {
        assert key[k..k + 2] == line[..i + 1][k..k + 2];
      }
    }
  }

  /** All that is ever read is plain. */
  lemma {:induction false} OnlyPlainIsRead(soFar: map<string, string>, lines: seq<string>)
    requires (forall line <- lines :: '\n' !in line) && AllPlain(soFar)
    ensures ParseEntries(soFar, lines).Some? ==> AllPlain(ParseEntries(soFar, lines).value)
    decreases |lines|
  {
    if lines != [] && lines[0] != "" && FindPattern(lines[0]).Some? {
      var line, i := lines[0], FindPattern(lines[0]).value;
      CutIsPlain(line, i);
      OnlyPlainIsRead(soFar[line[..i] := line[i + |PATTERN|..]], lines[1..]);
    }
  }

  /** The line of an entry, as it is read. */
  function EntryLine(sep: Separator, e: Entry): string {
    StripReturn(e.key + PATTERN + e.value + sep[..|sep| - 1])
  }

  function ReadValue(sep: Separator, value: string): string {
    if sep == "\n" then StripReturn(value) else value
  }

  lemma EntryLineParts(sep: Separator, e: Entry)
    ensures EntryLine(sep, e) == e.key + PATTERN + ReadValue(sep, e.value)
  {
    var start := e.key + PATTERN;
    if sep == "\r\n" {
      assert sep[..1] == "\r";
      assert (start + e.value + "\r")[..|start| + |e.value|] == start + e.value;
    } else {
      assert sep[..0] == "" && start + e.value + "" == start + e.value;
      if e.value == "" {
        assert start + "" == start && start[|start| - 1] == ' ';
      } else {
        assert (start + e.value)[..|start| + |e.value| - 1] == start + e.value[..|e.value| - 1];
      }
    }
  }

  function EntryLines(sep: Separator, entries: seq<Entry>): seq<string> {
    if entries == [] then [] else [EntryLine(sep, entries[0])] + EntryLines(sep, entries[1..])
  }

  function ReadEntries(sep: Separator, entries: seq<Entry>): (r: seq<Entry>)
    ensures |r| == |entries|
    ensures forall i | 0 <= i < |r| :: r[i] == Entry(entries[i].key, ReadValue(sep, entries[i].value))
  {
    seq(|entries|, i requires 0 <= i < |entries| => Entry(entries[i].key, ReadValue(sep, entries[i].value)))
  }

  lemma SeparatedLine(sep: Separator, line: string, rest: string)
    requires '\n' !in line
    ensures Lines(line + sep + rest) == [StripReturn(line + sep[..|sep| - 1])] + Lines(rest)
  {
    var ended := line + sep[..|sep| - 1];
    assert sep == sep[..|sep| - 1] + "\n";
    assert line + sep + rest == ended + "\n" + rest;
    FirstLine(ended, rest);
  }

  lemma Regroup(line: string, sep: string, more: string, rest: string)
    ensures line + sep + more + sep + rest == line + sep + (more + sep + rest)
  {}

  lemma RegroupLines(line: string, lines: seq<string>, rest: seq<string>)
    ensures [line] + (lines + [""] + rest) == [line] + lines + [""] + rest
    ensures ([line] + lines + [""] + rest)[1..] == lines + [""] + rest
  {}

  lemma PrependLine(sep: Separator, line: string, more: string, rest: string)
    requires '\n' !in line
    ensures Lines(line + sep + more + sep + rest) == [StripReturn(line + sep[..|sep| - 1])] + Lines(more + sep + rest)
  {
    SeparatedLine(sep, line, more + sep + rest);
    Regroup(line, sep, more, rest);
  }

  /** The same before lines that are known, with an empty one after them. */
  lemma PrependToLines(sep: Separator, line: string, more: string, rest: string, lines: seq<string>)
    requires '\n' !in line && Lines(more + sep + rest) == lines + [""] + Lines(rest)
    ensures Lines(line + sep + more + sep + rest) ==
            [StripReturn(line + sep[..|sep| - 1])] + lines + [""] + Lines(rest)
  {
    PrependLine(sep, line, more, rest);
    RegroupLines(StripReturn(line + sep[..|sep| - 1]), lines, Lines(rest));
  }

  lemma EmptyLine(sep: Separator, rest: string)
    ensures Lines("" + sep + rest) == [] + [""] + Lines(rest)
  {
    SeparatedLine(sep, "", rest);
    assert "" + sep[..|sep| - 1] == sep[..|sep| - 1];
    assert [] + [""] == [""];
  }

  /** The lines of written entries and of the empty line after them. */
  lemma {:induction false} LinesOfEntries(sep: Separator, entries: seq<Entry>, rest: string)
    requires forall e <- entries :: '\n' !in e.key && '\n' !in e.value
    ensures Lines(WrittenEntries(sep, entries) + sep + rest) == EntryLines(sep, entries) + [""] + Lines(rest)
    decreases |entries|
  {
    if entries == [] {
      EmptyLine(sep, rest);
    } else {
      var e, tail := entries[0], entries[1..];
      LinesOfEntries(sep, tail, rest);
      NoLineFeed(e);
      PrependToLines(sep, e.key + PATTERN + e.value, WrittenEntries(sep, tail), rest, EntryLines(sep, tail));
    }
  }

  lemma NoLineFeed(e: Entry)
    requires '\n' !in e.key && '\n' !in e.value
    ensures '\n' !in e.key + PATTERN + e.value
  {}

  lemma SplitLine(key: string, value: string)
    ensures var line := key + PATTERN + value; line != "" && line[..|key|] == key && line[|key| + |PATTERN|..] == value
  {}

  /** What is read from the lines of plain entries. */
  lemma {:induction false} ParseEntryLines(
    soFar: map<string, string>, sep: Separator, entries: seq<Entry>, more: seq<string>)
    requires forall e <- entries :: !Contains(e.key, PATTERN)
    ensures ParseEntries(soFar, EntryLines(sep, entries) + [""] + more) == Some(ToMap(soFar, ReadEntries(sep, entries)))
    decreases |entries|
  {
    var lines := EntryLines(sep, entries) + [""] + more;
    if entries == [] {
      assert lines[0] == "";
    } else {
      var e, tail := entries[0], entries[1..];
      var value := ReadValue(sep, e.value);
      EntryLineParts(sep, e);
      PatternAfterKey(e.key, value);
      var line := e.key + PATTERN + value;
      RegroupLines(line, EntryLines(sep, tail), more);
      SplitLine(e.key, value);
      ParseEntryLines(soFar[e.key := value], sep, tail, more);
      assert ReadEntries(sep, entries)[1..] == ReadEntries(sep, tail);
    }
  }

  /** What is read from a report whose entries are plain, whatever follows them. */
  lemma ParsePlainReport(sep: Separator, entries: seq<Entry>, rest: string)
    requires forall e <- entries :: IsPlain(e.key, e.value)
    ensures ParsedMetadata(SYSTEM_INFORMATION + sep + WrittenEntries(sep, entries) + sep + rest) ==
            Some(ToMap(map[], ReadEntries(sep, entries)))
  {
    PrependLine(sep, SYSTEM_INFORMATION, WrittenEntries(sep, entries), rest);
    HeaderLine(sep);
    LinesOfEntries(sep, entries, rest);
    ParseEntryLines(map[], sep, entries, Lines(rest));
  }

  lemma HeaderLine(sep: Separator)
    ensures StripReturn(SYSTEM_INFORMATION + sep[..|sep| - 1]) == SYSTEM_INFORMATION
  {
    assert sep[..|sep| - 1] == "" || sep[..|sep| - 1] == "\r";
    assert SYSTEM_INFORMATION + "" == SYSTEM_INFORMATION;
    assert (SYSTEM_INFORMATION + "\r")[..|SYSTEM_INFORMATION|] == SYSTEM_INFORMATION;
  }

  /** A report that reads back as its entries has only plain ones. */
  lemma ReadBackIsPlain(text: string, entries: seq<Entry>)
    requires AreDistinct(entries) && ParsedMetadata(text) == Some(ToMap(map[], entries))
    ensures forall e <- entries :: IsPlain(e.key, e.value)
  {
    LinesHaveNoLineFeed(text);
    OnlyPlainIsRead(map[], Lines(text)[1..]);
    MapHoldsEntries(map[], entries);
  }

  /** Reading entries changes the map exactly if it changes an entry. */
  lemma ReadEntriesIff(sep: Separator, entries: seq<Entry>)
    requires AreDistinct(entries)
    ensures ToMap(map[], ReadEntries(sep, entries)) == ToMap(map[], entries) <==>
            forall e <- entries :: ReadValue(sep, e.value) == e.value
  {
    var read := ReadEntries(sep, entries);
    assert AreDistinct(read);
    if ToMap(map[], read) == ToMap(map[], entries) {
      MapHoldsEntries(map[], entries);
      MapHoldsEntries(map[], read);
      forall e | e in entries ensures ReadValue(sep, e.value) == e.value {
        var i :| 0 <= i < |entries| && entries[i] == e;
        assert read[i] in read;
      }
    } else if forall e <- entries :: ReadValue(sep, e.value) == e.value {
      assert read == entries;
    }
  }

  /**
   Exactly when the metadata that is read back is the metadata that was written, whatever comes after
   it: if no key holds the pattern, no key or value a line feed, and, unless lines end in a carriage
   return and a line feed, no value ends in a carriage return.
   */
  lemma ReadsBackIff(sep: Separator, entries: seq<Entry>, rest: string)
    requires AreDistinct(entries)
    ensures ParsedMetadata(SYSTEM_INFORMATION + sep + WrittenEntries(sep, entries) + sep + rest) ==
            Some(ToMap(map[], entries)) <==>
            forall e <- entries :: IsPlain(e.key, e.value) && (sep == "\n" ==> !EndsInReturn(e.value))
  {
    var report := SYSTEM_INFORMATION + sep + WrittenEntries(sep, entries) + sep + rest;
    if ParsedMetadata(report) == Some(ToMap(map[], entries)) {
      ReadBackIsPlain(report, entries);
    }
    if forall e <- entries :: IsPlain(e.key, e.value) {
      ParsePlainReport(sep, entries, rest);
      ReadEntriesIff(sep, entries);
    }
  }

  /** The metadata of a whole report, for any logs. */
  lemma MetadataReadsBackIff(sep: Separator, entries: seq<Entry>, logs: seq<Log>)
    requires AreDistinct(entries)
    ensures ParsedMetadata(Written(sep, entries, logs)) == Some(ToMap(map[], entries)) <==>
            forall e <- entries :: IsPlain(e.key, e.value) && (sep == "\n" ==> !EndsInReturn(e.value))
  {
    ReadsBackIff(sep, entries, WrittenLogs(sep, logs));
  }

  // ----- The report as it is sent -----

  /** Before the metadata is read from a report that is to be sent, its line ends become line feeds. */
  function NormalizeNewlines(sep: Separator, text: string): string {
    if sep == "\r\n" then Replace(text, "\r\n", "\n") else text
  }

  lemma {:induction false} NormalizeLine(line: string, rest: string)
    requires '\n' !in line
    ensures Replace(line + "\r\n" + rest, "\r\n", "\n") == line + "\n" + Replace(rest, "\r\n", "\n")
  {
    if line == "" {
      NormalizeEmptyLine(rest);
    } else {
      var c, tail, normalized := line[0], line[1..], Replace(rest, "\r\n", "\n");
      assert line == [c] + tail;
      NormalizeLine(tail, rest);
      NoLineEndYet(line, rest);
      PrependCharacter(c, tail, "\r\n", rest);
      PrependCharacter(c, tail, "\n", normalized);
    }
  }

  lemma NormalizeEmptyLine(rest: string)
    ensures Replace("" + "\r\n" + rest, "\r\n", "\n") == "" + "\n" + Replace(rest, "\r\n", "\n")
  {
    var text := "" + "\r\n" + rest;
    assert text[2..] == rest && text[..2] == "\r\n";
    assert "\n" + Replace(rest, "\r\n", "\n") == "" + "\n" + Replace(rest, "\r\n", "\n");
  }

  lemma NoLineEndYet(line: string, rest: string)
    requires line != "" && '\n' !in line
    ensures !("\r\n" <= line + "\r\n" + rest) && line + "\r\n" + rest != ""
    ensures (line + "\r\n" + rest)[0] == line[0]
  {
    var text := line + "\r\n" + rest;
    assert text[1] == if |line| == 1 then '\r' else line[1];
    assert "\r\n"[1] == '\n';
  }

  lemma PrependNormalized(line: string, more: string, rest: string, normalized: string)
    requires '\n' !in line
    requires Replace(more + "\r\n" + rest, "\r\n", "\n") == normalized + "\n" + Replace(rest, "\r\n", "\n")
    ensures Replace(line + "\r\n" + more + "\r\n" + rest, "\r\n", "\n") ==
            line + "\n" + normalized + "\n" + Replace(rest, "\r\n", "\n")
  {
    NormalizeLine(line, more + "\r\n" + rest);
    Regroup(line, "\r\n", more, rest);
    Regroup(line, "\n", normalized, Replace(rest, "\r\n", "\n"));
  }

  lemma {:induction false} NormalizeEntries(entries: seq<Entry>, rest: string)
    requires forall e <- entries :: '\n' !in e.key && '\n' !in e.value
    ensures Replace(WrittenEntries("\r\n", entries) + "\r\n" + rest, "\r\n", "\n") ==
            WrittenEntries("\n", entries) + "\n" + Replace(rest, "\r\n", "\n")
    decreases |entries|
  {
    if entries == [] {
      NormalizeLine("", rest);
    } else {
      var e, tail := entries[0], entries[1..];
      var line := e.key + PATTERN + e.value;
      NormalizeEntries(tail, rest);
      PrependNormalized(line, WrittenEntries("\r\n", tail), rest, WrittenEntries("\n", tail));
    }
  }

  lemma NormalizeReport(sep: Separator, entries: seq<Entry>, rest: string) returns (normalized: string)
    requires forall e <- entries :: IsPlain(e.key, e.value)
    ensures NormalizeNewlines(sep, SYSTEM_INFORMATION + sep + WrittenEntries(sep, entries) + sep + rest) ==
            SYSTEM_INFORMATION + "\n" + WrittenEntries("\n", entries) + "\n" + normalized
  {
    normalized := rest;
    if sep == "\r\n" {
      normalized := Replace(rest, "\r\n", "\n");
      NormalizeEntries(entries, rest);
      PrependNormalized(SYSTEM_INFORMATION, WrittenEntries(sep, entries), rest, WrittenEntries("\n", entries));
    }
  }

  /** How many bytes a character takes in a file. */
  function Utf8Size(c: char): (n: nat)
    ensures 1 <= n <= 4
  {
    if c as int < 0x80 then 1 else if c as int < 0x800 then 2 else if c as int < 0x1_0000 then 3 else 4
  }

  /** The ranges of section 3 of RFC 3629. */
  lemma Utf8SizeIff(c: char)
    ensures Utf8Size(c) == 1 <==> '\U{0000}' <= c <= '\U{007F}'
    ensures Utf8Size(c) == 2 <==> '\U{0080}' <= c <= '\U{07FF}'
    ensures Utf8Size(c) == 3 <==> '\U{0800}' <= c <= '\U{FFFF}'
    ensures Utf8Size(c) == 4 <==> '\U{10000}' <= c <= '\U{10FFFF}'
  {}

  function Size(text: string): (n: nat)
    ensures n == 0 <==> text == ""
  {
    if text == "" then 0 else Utf8Size(text[0]) + Size(text[1..])
  }

  /**
   The last bytes of a file that holds the text, decoded. If they begin within a character, each of
   the bytes that are left of it becomes a replacement character.
   */
  function Tail(text: string, maxBytes: nat): string {
    if Size(text) <= maxBytes then text
    else if Size(text[1..]) < maxBytes then Replacements(maxBytes - Size(text[1..])) + text[1..]
    else Tail(text[1..], maxBytes)
  }

  function Replacements(n: nat): (r: string)
    ensures |r| == n && forall c <- r :: c == REPLACEMENT_CHARACTER
  {
    seq(n, _ => REPLACEMENT_CHARACTER)
  }

  /** What is sent of a report. */
  function Sent(sep: Separator, report: string): string {
    NormalizeNewlines(sep, Tail(report, REPORT_MAX_SIZE))
  }

  /** A text that is cut begins with a replacement character, unless a character begins at the cut. */
  lemma {:induction false} CutBegins(text: string, maxBytes: nat) returns (i: nat)
    requires Size(text) > maxBytes && (Tail(text, maxBytes) == "" || Tail(text, maxBytes)[0] != REPLACEMENT_CHARACTER)
    ensures 0 < i <= |text| && Size(text[i..]) == maxBytes && Tail(text, maxBytes) == text[i..]
  {
    i := 1;
    if Size(text[1..]) > maxBytes {
      i := CutBegins(text[1..], maxBytes);
      assert text[1..][i..] == text[i + 1..];
      i := i + 1;
    }
  }

  /**
   What is left of a text that is too long takes just as many bytes: its last characters, and before them
   a replacement character for each byte of the character that is cut, of which at least one byte is gone.
   */
  lemma {:induction false} TailIsLastBytes(text: string, maxBytes: nat) returns (i: nat, cut: nat)
    requires Size(text) > maxBytes
    ensures 0 < i <= |text| && cut < Utf8Size(text[i - 1]) && cut + Size(text[i..]) == maxBytes
    ensures Tail(text, maxBytes) == Replacements(cut) + text[i..]
  {
    var rest := text[1..];
    if Size(rest) > maxBytes {
      i, cut := TailIsLastBytes(rest, maxBytes);
      assert rest[i..] == text[i + 1..];
      i := i + 1;
    } else {
      i, cut := 1, maxBytes - Size(rest);
      assert Replacements(0) + rest == rest;
    }
  }

  lemma {:induction false} CutAt(text: string, maxBytes: nat, i: nat)
    requires 0 < i <= |text| && Size(text[i..]) == maxBytes
    ensures Size(text) > maxBytes && Tail(text, maxBytes) == text[i..]
    decreases i
  {
    if i > 1 {
      assert text[1..][i - 1..] == text[i..];
      CutAt(text[1..], maxBytes, i - 1);
    }
  }

  /** Normalizing line ends makes up nothing within a line. */
  lemma {:induction false} NormalizedBegins(text: string, p: string)
    requires '\n' !in p && p <= Replace(text, "\r\n", "\n")
    ensures p <= text
  {
    if p != "" {
      assert p[0] != '\n' && !("\r\n" <= text);
      NormalizedBegins(text[1..], p[1..]);
    }
  }

  lemma ReportBegins(text: string)
    requires ParsedMetadata(text).Some?
    ensures SYSTEM_INFORMATION <= text
  {
    var n := LineLength(text);
    assert Lines(text)[0] == StripReturn(text[..n]);
  }

  /** Position `i` of the report is where what is sent of it begins, and no character is cut in two. */
  predicate BeginsAt(report: string, i: nat) {
    i <= |report| && if i == 0 then Size(report) <= 688128 else Size(report[i..]) == 688128
  }

  /**
   Exactly which metadata is read from any text that is sent: what is read if the text is taken to begin
   where it is cut. From a text that does not have the first line of a report there, none is read.
   */
  lemma SentMetadataIff(sep: Separator, report: string, metadata: map<string, string>)
    ensures ParsedMetadata(Sent(sep, report)) == Some(metadata) <==>
            exists i: nat :: BeginsAt(report, i) && SYSTEM_INFORMATION <= report[i..] &&
                             ParsedMetadata(NormalizeNewlines(sep, report[i..])) == Some(metadata)
  {
    if ParsedMetadata(Sent(sep, report)) == Some(metadata) {
      var i := SentBegins(sep, report);
      assert BeginsAt(report, i);
    }
    forall i: nat | BeginsAt(report, i) ensures Tail(report, REPORT_MAX_SIZE) == report[i..] {
      if i == 0 {
        assert report[0..] == report;
      } else {
        CutAt(report, REPORT_MAX_SIZE, i);
      }
    }
  }

  lemma SentBegins(sep: Separator, report: string) returns (i: nat)
    requires ParsedMetadata(Sent(sep, report)).Some?
    ensures BeginsAt(report, i) && SYSTEM_INFORMATION <= report[i..] && Tail(report, REPORT_MAX_SIZE) == report[i..]
  {
    ReportBegins(Sent(sep, report));
    if sep == "\r\n" {
      NormalizedBegins(Tail(report, REPORT_MAX_SIZE), SYSTEM_INFORMATION);
    }
    i := 0;
    assert report[0..] == report;
    if Size(report) > REPORT_MAX_SIZE {
      i := CutBegins(report, REPORT_MAX_SIZE);
    }
  }

  lemma NormalizedReadsBackIff(sep: Separator, entries: seq<Entry>, rest: string)
    requires AreDistinct(entries)
    ensures var report := SYSTEM_INFORMATION + sep + WrittenEntries(sep, entries) + sep + rest;
            ParsedMetadata(NormalizeNewlines(sep, report)) == Some(ToMap(map[], entries)) <==>
            forall e <- entries :: IsPlain(e.key, e.value) && !EndsInReturn(e.value)
  {
    var sent := NormalizeNewlines(sep, SYSTEM_INFORMATION + sep + WrittenEntries(sep, entries) + sep + rest);
    if ParsedMetadata(sent) == Some(ToMap(map[], entries)) {
      ReadBackIsPlain(sent, entries);
    }
    if forall e <- entries :: IsPlain(e.key, e.value) {
      var normalized := NormalizeReport(sep, entries, rest);
      ReadsBackIff("\n", entries, normalized);
    }
  }

  /** The line a report begins with is found nowhere else in it. */
  ghost predicate BeginsOnce(report: string) {
    report != "" && !Contains(report[1..], SYSTEM_INFORMATION)
  }

  /**
   Exactly when a report that is sent carries the metadata it was written with: it must not be too
   long, and on every platform, no value may end in a carriage return. Of the reports that are too long,
   this leaves out those in which the first line is found again.
   */
  lemma SentMetadataReadsBackIff(sep: Separator, entries: seq<Entry>, logs: seq<Log>)
    requires AreDistinct(entries)
    ensures var report := Written(sep, entries, logs);
            Size(report) <= 688128 || BeginsOnce(report) ==>
              (ParsedMetadata(Sent(sep, report)) == Some(ToMap(map[], entries)) <==>
               && Size(report) <= 688128
               && forall e <- entries :: IsPlain(e.key, e.value) && !EndsInReturn(e.value))
  {
    var report := Written(sep, entries, logs);
    if Size(report) <= REPORT_MAX_SIZE {
      NormalizedReadsBackIff(sep, entries, WrittenLogs(sep, logs));
    } else if BeginsOnce(report) {
      LongReportLosesMetadata(sep, report);
    }
  }

  lemma LongReportLosesMetadata(sep: Separator, report: string)
    requires Size(report) > REPORT_MAX_SIZE && BeginsOnce(report)
    ensures ParsedMetadata(Sent(sep, report)).None?
  {
    if ParsedMetadata(Sent(sep, report)).Some? {
      var i := SentBegins(sep, report);
      assert report[1..][i - 1..] == report[i..];
      assert OccursAt(report[1..], SYSTEM_INFORMATION, i - 1);
    }
  }

  // ----- Where the logs stand in a report -----

  /** How long some logs are once written: each name and content, with 45 characters and four line ends around them. */
  function LogsLength(sep: Separator, logs: seq<Log>): nat {
    if logs == [] then 0 else LogsLength(sep, logs[..|logs| - 1]) + LogLength(sep, logs[|logs| - 1])
  }

  function LogLength(sep: Separator, log: Log): nat {
    45 + 4 * |sep| + |log.name| + |log.content|
  }

  /** The text of a log: its name as a heading between two delimiters, and below it its content. */
  function LogText(sep: Separator, name: string, content: string): string {
    "====================" + sep + "Log: " + name + sep + "====================" + sep + content + sep
  }

  lemma WrittenLogIsText(sep: Separator, log: Log)
    ensures WrittenLog(sep, log) == LogText(sep, log.name, log.content)
    ensures |LogText(sep, log.name, log.content)| == LogLength(sep, log)
  {
    var title := LOG_DELIMITER + sep + LOG_LABEL + log.name;
    assert title + (sep + LOG_DELIMITER + sep) == title + sep + LOG_DELIMITER + sep;
  }

  lemma {:induction false} WrittenLogsConcat(sep: Separator, a: seq<Log>, b: seq<Log>)
    ensures WrittenLogs(sep, a + b) == WrittenLogs(sep, a) + WrittenLogs(sep, b)
    decreases |a|
  {
    if a == [] {
      assert a + b == b;
    } else {
      assert (a + b)[1..] == a[1..] + b;
      WrittenLogsConcat(sep, a[1..], b);
      Associates(WrittenLog(sep, a[0]), WrittenLogs(sep, a[1..]), WrittenLogs(sep, b));
    }
  }

  lemma {:induction false} WrittenLogsLength(sep: Separator, logs: seq<Log>)
    ensures |WrittenLogs(sep, logs)| == LogsLength(sep, logs)
  {
    if logs != [] {
      var init, last := logs[..|logs| - 1], logs[|logs| - 1];
      assert logs == init + [last];
      WrittenLogsLength(sep, init);
      WrittenLogsConcat(sep, init, [last]);
      OneLog(sep, last);
      WrittenLogIsText(sep, last);
    }
  }

  lemma OneLog(sep: Separator, log: Log)
    ensures WrittenLogs(sep, [log]) == WrittenLog(sep, log)
  {
    assert [log][1..] == [];
    assert WrittenLog(sep, log) + "" == WrittenLog(sep, log);
  }

  lemma HeadAndLogs(sep: Separator, entries: seq<Entry>, logs: seq<Log>)
    ensures Written(sep, entries, logs) == Written(sep, entries, []) + WrittenLogs(sep, logs)
    ensures |Written(sep, entries, logs)| == |Written(sep, entries, [])| + LogsLength(sep, logs)
  {
    WrittenLogsLength(sep, logs);
    var head := SYSTEM_INFORMATION + sep + WrittenEntries(sep, entries) + sep;
    assert head + "" == head;
  }

  lemma LogsAround(sep: Separator, logs: seq<Log>, i: nat)
    requires i < |logs|
    ensures WrittenLogs(sep, logs) ==
            WrittenLogs(sep, logs[..i]) + (WrittenLog(sep, logs[i]) + WrittenLogs(sep, logs[i + 1..]))
  {
    assert logs[i..] == [logs[i]] + logs[i + 1..];
    assert logs == logs[..i] + logs[i..];
    WrittenLogsConcat(sep, logs[..i], logs[i..]);
    WrittenLogsConcat(sep, [logs[i]], logs[i + 1..]);
    OneLog(sep, logs[i]);
  }

  lemma LogStandsAt(sep: Separator, logs: seq<Log>, i: nat)
    requires i < |logs|
    ensures OccursAt(WrittenLogs(sep, logs), LogText(sep, logs[i].name, logs[i].content), LogsLength(sep, logs[..i]))
    ensures LogsLength(sep, logs[..i + 1]) ==
            LogsLength(sep, logs[..i]) + |LogText(sep, logs[i].name, logs[i].content)|
  {
    WrittenLogIsText(sep, logs[i]);
    assert logs[..i + 1][..i] == logs[..i];
    LogsAround(sep, logs, i);
    WrittenLogsLength(sep, logs[..i]);
    OccursBetween(WrittenLogs(sep, logs[..i]), LogText(sep, logs[i].name, logs[i].content),
                  WrittenLogs(sep, logs[i + 1..]));
  }

  lemma OccursBetween(before: string, text: string, after: string)
    ensures OccursAt(before + (text + after), text, |before|)
  {
    assert before + (text + after) == before + text + after;
  }

  lemma OccursLater(all: string, before: string, s: string, text: string, i: nat)
    requires all == before + s && OccursAt(s, text, i)
    ensures before <= all && OccursAt(all, text, |before| + i)
  {
    assert all[|before| + i..|before| + i + |text|] == s[i..i + |text|];
  }

  /**
   All logs are in the report, with name and content, in order and one right after the other: the first
   comes after the metadata, each other one where the one before it ends, and the last ends the report.
   */
  lemma LogsStandInOrder(sep: Separator, entries: seq<Entry>, logs: seq<Log>, i: nat)
    requires i < |logs|
    ensures var report, start := Written(sep, entries, logs), |Written(sep, entries, [])|;
            && Written(sep, entries, []) <= report && |report| == start + LogsLength(sep, logs)
            && OccursAt(report, LogText(sep, logs[i].name, logs[i].content), start + LogsLength(sep, logs[..i]))
            && LogsLength(sep, logs[..i + 1]) ==
               LogsLength(sep, logs[..i]) + |LogText(sep, logs[i].name, logs[i].content)|
  {
    HeadAndLogs(sep, entries, logs);
    LogStandsAt(sep, logs, i);
    OccursLater(Written(sep, entries, logs), Written(sep, entries, []), WrittenLogs(sep, logs),
                LogText(sep, logs[i].name, logs[i].content), LogsLength(sep, logs[..i]));
  }

  // ----- What the logs in a report do not hold -----

  /** No character of the texts around logs is a digit. */
  ghost predicate IsReportDigitClass(digits: set<char>) {
    IsDigitClass(digits) && forall c <- LOG_DELIMITER + LOG_LABEL + "\r\n" :: c !in digits
  }

  lemma {:induction false} NoRunJoined(digits: set<char>, before: nat, s: string, text: string, rest: string)
    requires NoRun(digits, before, s) && NoRun(digits, 0, rest)
    requires text != "" && forall c <- text :: c !in digits
    ensures NoRun(digits, before, s + text + rest)
    decreases s
  {
    var whole := s + text + rest;
    if s == "" {
      assert whole == text + rest;
      NoRunAfterText(digits, before, text, rest);
    } else {
      assert whole[1..] == s[1..] + text + rest;
      NoRunJoined(digits, if s[0] in digits then before + 1 else 0, s[1..], text, rest);
    }
  }

  lemma RegroupLog(start: string, a: string, middle: string, b: string, end: string, rest: string)
    ensures start + a + middle + b + end + rest == start + (a + middle + (b + end + rest))
  {}

  lemma Sandwich(digits: set<char>, start: string, a: string, middle: string, b: string, end: string, rest: string)
    requires start != "" && middle != "" && end != "" && forall c <- start + middle + end :: c !in digits
    requires NoRun(digits, 0, a) && NoRun(digits, 0, b) && NoRun(digits, 0, rest)
    ensures NoRun(digits, 0, start + a + middle + b + end + rest)
  {
    NoRunJoined(digits, 0, b, end, rest);
    NoRunJoined(digits, 0, a, middle, b + end + rest);
    NoRunAfterText(digits, 0, start, a + middle + (b + end + rest));
    RegroupLog(start, a, middle, b, end, rest);
  }

  lemma RedactedHasNoRun(digits: set<char>, s: string)
    requires HasNoAccountNumber(digits, s)
    ensures NoRun(digits, 0, s)
  {
    NoRunIff(digits, 0, s);
    WindowIff(digits, s);
  }

  /** If no log does, the logs as written have no 16 consecutive digits either. */
  lemma {:induction false} WrittenLogsHaveNoRun(digits: set<char>, sep: Separator, logs: seq<Log>)
    requires IsReportDigitClass(digits)
    requires forall log <- logs :: HasNoAccountNumber(digits, log.name) && HasNoAccountNumber(digits, log.content)
    ensures NoRun(digits, 0, WrittenLogs(sep, logs))
  {
    if logs != [] {
      WrittenLogsHaveNoRun(digits, sep, logs[1..]);
      var log := logs[0];
      RedactedHasNoRun(digits, log.name);
      RedactedHasNoRun(digits, log.content);
      var start, middle := LOG_DELIMITER + sep + LOG_LABEL, sep + LOG_DELIMITER + sep;
      Sandwich(digits, start, log.name, middle, log.content, sep, WrittenLogs(sep, logs[1..]));
    }
  }

  // ----- The report -----

  class ProblemReport {
    // The environment: what counts as a digit, the home directory, what looks like a network address.
    const digits: set<char>
    const home: Option<string>
    const matcher: Matcher

    var metadata: seq<Entry>
    var logs: seq<Log>
    var logPaths: set<string>
    var redactCustomStrings: seq<string>

    /** The messages errors were added with. */
    ghost var messages: set<string>

    /** Texts from outside are redacted before they become part of the report. */
    ghost predicate Valid()
      reads this
    {
      && IsReportDigitClass(digits) && IsMatcher(matcher)
      && AreDistinct(metadata)
      && "" !in redactCustomStrings
      && (forall log <- logs :: IsRedacted(log.content) && (IsRedacted(log.name) || log.name in messages))
    }

    /** Nothing in the text looks like an account number, and no custom string or home that can be removed is left. */
    ghost predicate IsRedacted(text: string)
      reads this
    {
      && HasNoAccountNumber(digits, text)
      && (forall p <- redactCustomStrings | !Overlaps(p, REDACTED) :: !Contains(text, p))
      && (home.Some? && CanBeRemoved(digits, home.value) ==> !Contains(text, home.value))
    }

    /** What the report makes of a text. */
    ghost function Redacted(text: string): string
      reads this
    {
      Redaction.Redact(digits, home, matcher, redactCustomStrings, text)
    }

    constructor (
      collected: seq<Entry>, customStrings: seq<string>, digits: set<char>, home: Option<string>, matcher: Matcher)
      requires AreDistinct(collected) && IsReportDigitClass(digits) && IsMatcher(matcher)
      ensures Valid() && metadata == collected && logs == [] && logPaths == {} && messages == {}
      ensures this.digits == digits && this.home == home && this.matcher == matcher
      ensures forall p :: p in redactCustomStrings <==> p in customStrings && p != ""
    {
      this.digits, this.home, this.matcher := digits, home, matcher;
      metadata, logs, logPaths, messages := collected, [], {}, {};
      redactCustomStrings := [];
      new;
      for i := 0 to |customStrings|
        invariant metadata == collected && logs == [] && logPaths == {} && messages == {}
        invariant forall p :: p in redactCustomStrings <==> p in customStrings[..i] && p != ""
      {
        assert customStrings[..i + 1] == customStrings[..i] + [customStrings[i]];
        if customStrings[i] != "" {
          redactCustomStrings := redactCustomStrings + [customStrings[i]];
        }
      }
      assert customStrings[..|customStrings|] == customStrings;
    }

    method RedactCustomStrings(input: string) returns (out: string)
      ensures out == ReplaceAll(input, redactCustomStrings)
    {
      out := input;
      for i := 0 to |redactCustomStrings|
        invariant out == ReplaceAll(input, redactCustomStrings[..i])
      {
        ghost var done := redactCustomStrings[..i + 1];
        assert done[..i] == redactCustomStrings[..i];
        out := Replace(out, redactCustomStrings[i], REDACTED);
      }
      assert redactCustomStrings[..|redactCustomStrings|] == redactCustomStrings;
    }

    method Redact(input: string) returns (out: string)
      requires Valid()
      ensures out == Redacted(input)
      ensures IsRedacted(out)
    {
      var out1 := RedactAccountNumber(digits, input);
      var out2 := RedactHomeDir(home, out1);
      var out3 := RedactNetworkInfo(matcher, out2);
      out := RedactCustomStrings(out3);
      NoAccountNumberIsLeft(digits, home, matcher, redactCustomStrings, input);
      forall p | p in redactCustomStrings && !Overlaps(p, REDACTED) ensures !Contains(out, p) {
        CustomStringIsGone(out3, redactCustomStrings, p);
      }
      if home.Some? && CanBeRemoved(digits, home.value) {
        HomeIsGone(digits, home.value, matcher, redactCustomStrings, input);
      }
    }

    /** Adds a log file once; if it cannot be read, the error takes the place of its content. */
    method AddLog(expandedPath: string, file: Result<string, string>)
      requires Valid()
      modifies this
      ensures Valid()
      ensures metadata == old(metadata) && redactCustomStrings == old(redactCustomStrings) && messages == old(messages)
      ensures logPaths == old(logPaths) + {expandedPath}
      ensures expandedPath in old(logPaths) ==> logs == old(logs)
      ensures expandedPath !in old(logPaths) ==>
                logs == old(logs) + [Log(Redacted(expandedPath), Redacted(if file.Ok? then file.value else file.error))]
    {
      if expandedPath !in logPaths {
        logPaths := logPaths + {expandedPath};
        var redactedPath := Redact(expandedPath);
        var content := Redact(if file.Ok? then file.value else file.error);
        logs := logs + [Log(redactedPath, content)];
      }
    }

    /** Only the error is redacted; the message is a fixed text of the program. */
    method AddError(message: string, error: string)
      requires Valid()
      modifies this
      ensures Valid()
      ensures metadata == old(metadata) && redactCustomStrings == old(redactCustomStrings) && logPaths == old(logPaths)
      ensures messages == old(messages) + {message}
      ensures logs == old(logs) + [Log(message, Redacted(error))]
    {
      var redactedError := Redact(error);
      logs := logs + [Log(message, redactedError)];
      messages := messages + {message};
    }

    method WriteTo(sep: Separator) returns (output: string)
      requires Valid()
      ensures output == Written(sep, metadata, logs)
      ensures (forall message <- messages :: HasNoAccountNumber(digits, message)) ==>
              NoRun(digits, 0, WrittenLogs(sep, logs))
    {
      output := WriteMetadata(sep, "System information:" + sep);
      output := output + sep;
      output := WriteLogs(sep, output);
      if forall message <- messages :: HasNoAccountNumber(digits, message) {
        WrittenLogsHaveNoRun(digits, sep, logs);
      }
    }

    method WriteMetadata(sep: Separator, start: string) returns (output: string)
      ensures output == start + WrittenEntries(sep, metadata)
    {
      output := start;
      for i := 0 to |metadata|
        invariant output + WrittenEntries(sep, metadata[i..]) == start + WrittenEntries(sep, metadata)
      {
        var line := metadata[i].key + ": " + metadata[i].value + sep;
        assert metadata[i..][1..] == metadata[i + 1..];
        Associates(output, line, WrittenEntries(sep, metadata[i + 1..]));
        output := output + line;
      }
    }

    method WriteLogs(sep: Separator, start: string) returns (output: string)
      ensures output == start + WrittenLogs(sep, logs)
    {
      output := start;
      for i := 0 to |logs|
        invariant output + WrittenLogs(sep, logs[i..]) == start + WrittenLogs(sep, logs)
      {
        assert logs[i..][1..] == logs[i + 1..];
        Associates(output, WrittenLog(sep, logs[i]), WrittenLogs(sep, logs[i + 1..]));
        output := output + WrittenLog(sep, logs[i]);
      }
    }
  }

  lemma Associates(a: string, b: string, c: string)
    ensures a + (b + c) == a + b + c
  {}
}
