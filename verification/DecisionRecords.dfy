/**
 The printed form of a decision: one record per line, and the reading of it back.
 */
module DecisionRecords {
  import opened Wrappers

  datatype Record = Record(key: string, value: string)

  /** The characters that end a line. */
  predicate IsBreak(c: char)
  {
    '\n' <= c <= '\r' || '\U{1C}' <= c <= '\U{1E}' || c == '\U{85}' || c == '\U{2028}' || c == '\U{2029}'
  }

  lemma {:induction false} BreaksAreListed(c: char)
    ensures IsBreak(c) <==>
            c in {'\n', '\U{0B}', '\U{0C}', '\r', '\U{1C}', '\U{1D}', '\U{1E}', '\U{85}', '\U{2028}', '\U{2029}'}
  {
  }

  predicate IsLine(s: string)
  {
    forall k :: 0 <= k < |s| ==> !IsBreak(s[k])
  }

  /** A text that stays on one line. */
  type Line = s: string | IsLine(s)

  function LineOf(record: Record): string
  {
    record.key + "=" + record.value
  }

  /** One line per record, without a break after the last. */
  function Printed(records: seq<Record>): string
  {
    if records == [] then ""
    else if |records| == 1 then LineOf(records[0])
    else LineOf(records[0]) + "\n" + Printed(records[1..])
  }

  function SplitLines(text: string, line: string := ""): seq<string>
  {
    if text == "" then (if line == "" then [] else [line])
    else if !IsBreak(text[0]) then SplitLines(text[1..], line + [text[0]])
    else [line] + SplitLines(if |text| > 1 && text[..2] == "\r\n" then text[2..] else text[1..])
  }

  /** A line up to its first equals sign, and what follows it. */
  function Partition(line: string, key: string := ""): Option<Record>
  {
    if line == "" then None
    else if line[0] == '=' then Some(Record(key, line[1..]))
    else Partition(line[1..], key + [line[0]])
  }

  /** The records of a text, or none if some line is not a record. */
  function Read(lines: seq<string>): Option<seq<Record>>
  {
    if lines == [] then Some([])
    else
      var first, rest := Partition(lines[0]), Read(lines[1..]);
      if first.None? || rest.None? then None else Some([first.value] + rest.value)
  }

  predicate IsKey(s: string)
  {
    forall k :: 0 <= k < |s| ==> 'a' <= s[k] <= 'z' || s[k] == '_'
  }

  ghost predicate Readable(record: Record)
  {
    IsKey(record.key) && IsLine(record.value)
  }

  lemma {:induction false} PartitionRecord(key: string, value: string, before: string)
    requires IsKey(key)
    ensures Partition(key + "=" + value, before) == Some(Record(before + key, value))
  {
    var line := key + "=" + value;
    if key == "" {
      assert before + key == before && line[1..] == value;
    } else {
      PartitionRecord(key[1..], value, before + [key[0]]);
      assert line[1..] == key[1..] + "=" + value;
      assert before + [key[0]] + key[1..] == before + key;
    }
  }

  /** A line without a break inside is split off whole. */
  lemma {:induction false} SplitLine(line: string, rest: string, before: string)
    requires IsLine(line)
    ensures SplitLines(line + rest, before) == SplitLines(rest, before + line)
  {
    if line == "" {
      assert line + rest == rest && before + line == before;
    } else {
      var text := line + rest;
      assert text[0] == line[0] && !IsBreak(line[0]);
      SplitLine(line[1..], rest, before + [line[0]]);
      assert text[1..] == line[1..] + rest;
      assert before + [line[0]] + line[1..] == before + line;
    }
  }

  /** A line ends at one break, or at a carriage return and the line feed behind it. */
  lemma {:induction false} SplitsAtBreaks(line: string, c: char, rest: string)
    requires IsLine(line) && IsBreak(c)
    ensures SplitLines(line) == if line == "" then [] else [line]
    ensures SplitLines(line + "\r\n" + rest) == [line] + SplitLines(rest)
    ensures !(c == '\r' && rest != "" && rest[0] == '\n') ==> SplitLines(line + [c] + rest) == [line] + SplitLines(rest)
  {
    assert "" + line == line && line + "" == line;
    SplitLine(line, "", "");
    var both, one := "\r\n" + rest, [c] + rest;
    SplitLine(line, both, "");
    SplitLine(line, one, "");
    assert line + "\r\n" + rest == line + both && line + [c] + rest == line + one;
    assert both[..2] == "\r\n" && both[2..] == rest && both[0] == '\r';
    assert one[0] == c && one[1..] == rest && (|one| > 1 ==> one[..2] == [c, rest[0]]);
  }

  lemma {:induction false} ReadFirst(record: Record, lines: seq<string>)
    requires IsKey(record.key) && Read(lines).Some?
    ensures Read([LineOf(record)] + lines) == Some([record] + Read(lines).value)
  {
    PartitionRecord(record.key, record.value, "");
    assert "" + record.key == record.key;
    assert ([LineOf(record)] + lines)[1..] == lines;
  }

  lemma {:induction false} PrintedSplits(record: Record, rest: seq<Record>)
    requires Readable(record)
    ensures SplitLines(Printed([record] + rest))
         == [LineOf(record)] + (if rest == [] then [] else SplitLines(Printed(rest)))
  {
    var line := LineOf(record);
    assert IsLine(line) && line != "" && "" + line == line;
    assert ([record] + rest)[1..] == rest;
    if rest == [] {
      SplitLine(line, "", "");
      assert line + "" == line;
    } else {
      var tail := "\n" + Printed(rest);
      SplitLine(line, tail, "");
      assert line + tail == line + "\n" + Printed(rest);
      assert tail[1..] == Printed(rest) && tail[0] == '\n';
      assert |tail| > 1 ==> tail[..2] != "\r\n" by {
        assert |tail| > 1 ==> tail[..2][0] == '\n';
      }
    }
  }

  /** Reading a printed list of records gives the list. */
  lemma {:induction false} PrintedReadsBack(records: seq<Record>)
    requires forall i :: 0 <= i < |records| ==> Readable(records[i])
    ensures Read(SplitLines(Printed(records))) == Some(records)
  {
    if records != [] {
      hide Printed, SplitLines, Partition;
      var first, rest := records[0], records[1..];
      assert records == [first] + rest;
      PrintedReadsBack(rest);
      PrintedSplits(first, rest);
      ReadFirst(first, if rest == [] then [] else SplitLines(Printed(rest)));
    } else {
      assert SplitLines(Printed([])) == [];
    }
  }
}
