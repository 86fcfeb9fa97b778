/** The file that remembers finished downloads between runs. */
module DownloadsFile {
  import opened Text

  datatype Progress = Starting | Running | Finished | Failed | Cancelled

  /** A download as the model keeps it; `download` is the live object it holds, 0 for none. */
  datatype Record = Record(
    id: int, progress: Progress, download: nat,
    url: string, fileName: string, path: string, mimeType: string, error: string,
    received: int, total: int, completedAt: nat)

  const HEADER := "harmony-downloads 1"
  const HISTORY_LIMIT := 200

  predicate IsTerminal(record: Record) {
    record.progress.Finished? || record.progress.Failed? || record.progress.Cancelled?
  }

  function CodeOf(progress: Progress): int {
    match progress
    case Starting => 0
    case Running => 1
    case Finished => 2
    case Failed => 3
    case Cancelled => 4
  }

  // --- What is written --------------------------------------------------------------------

  /** What the file keeps of a record. */
  function Kept(record: Record): Record {
    record.(id := 0, download := 0)
  }

  function TerminalOf(records: seq<Record>): seq<Record> {
    if records == [] then []
    else (if IsTerminal(records[0]) then [Kept(records[0])] else []) + TerminalOf(records[1..])
  }

  function First(records: seq<Record>, room: nat): (first: seq<Record>)
    ensures |first| <= room && first <= records
  {
    if |records| > room then records[..room] else records
  }

  /** The list is newest first. */
  function Newest(records: seq<Record>): seq<Record> {
    First(records, HISTORY_LIMIT)
  }

  function Fields(record: Record): seq<string> {
    [ToString(CodeOf(record.progress)), ToString(record.received), ToString(record.total), Decimal(record.completedAt),
     Escaped(record.url), Escaped(record.fileName), Escaped(record.path), Escaped(record.mimeType),
     Escaped(record.error)]
  }

  function Line(record: Record): string {
    Joined(Fields(record), '\t')
  }

  function Dump(records: seq<Record>): string {
    if records == [] then [] else Line(records[0]) + "\n" + Dump(records[1..])
  }

  function Encoded(records: seq<Record>): string {
    HEADER + "\n" + Dump(Newest(TerminalOf(records)))
  }

  // --- What is read -----------------------------------------------------------------------

  datatype LineRead = Skipped | GotRecord(record: Record)

  function ProgressOf(code: int): Progress
    requires 2 <= code <= 4
  {
    if code == 2 then Finished else if code == 3 then Failed else Cancelled
  }

  function FromFields(fields: seq<string>): LineRead {
    if |fields| < 9 then Skipped
    else
      var code := ParsedSigned(fields[0]);
      if code < 2 || code > 4 then Skipped
      else
        GotRecord(Record(0, ProgressOf(code), 0, Unescaped(fields[4]), Unescaped(fields[5]), Unescaped(fields[6]),
                         Unescaped(fields[7]), Unescaped(fields[8]),
                         ParsedSigned(fields[1]), ParsedSigned(fields[2]), ParsedUnsigned(fields[3])))
  }

  function ParsedUnsigned(value: string): (n: nat) {
    ParsedDigitsGrow(value, 0);
    ParsedDigits(value, 0)
  }

  lemma {:induction false} ParsedDigitsGrow(value: string, parsed: nat)
    ensures ParsedDigits(value, parsed) >= parsed
  {
    if value != [] && IsDigit(value[0]) {
      ParsedDigitsGrow(value[1..], parsed * 10 + (value[0] as int - '0' as int));
    }
  }

  function ReadLine(line: string): LineRead {
    if line == [] then Skipped else FromFields(Cut(line, '\t', []))
  }

  function ReadLines(lines: seq<string>, room: nat): seq<Record> {
    if lines == [] || room == 0 then []
    else
      var read := ReadLine(lines[0]);
      if read.Skipped? then ReadLines(lines[1..], room) else [read.record] + ReadLines(lines[1..], room - 1)
  }

  /** Lines, without what follows the last line feed when that is nothing. */
  function CutLines(contents: string): seq<string> {
    var lines := Cut(contents, '\n', []);
    if lines != [] && lines[|lines| - 1] == [] then lines[..|lines| - 1] else lines
  }

  function Decoded(contents: string): seq<Record> {
    var lines := CutLines(contents);
    if contents == [] || lines == [] || lines[0] != HEADER then [] else ReadLines(lines[1..], HISTORY_LIMIT)
  }

  // --- Reading what was written -------------------------------------------------------------

  lemma NumbersAreFields(record: Record)
    ensures IsField(ToString(CodeOf(record.progress))) && ToString(CodeOf(record.progress)) != []
    ensures IsField(ToString(record.received)) && IsField(ToString(record.total))
    ensures IsField(Decimal(record.completedAt))
  {
    ParseUndoesToString(CodeOf(record.progress));
    ParseUndoesToString(record.received);
    ParseUndoesToString(record.total);
    DigitsSpell(record.completedAt, []);
  }

  lemma FieldsAreFields(record: Record)
    ensures forall f <- Fields(record) :: IsField(f)
    ensures Fields(record)[0] != []
  {
    NumbersAreFields(record);
    EscapedIsField(record.url);
    EscapedIsField(record.fileName);
    EscapedIsField(record.path);
    EscapedIsField(record.mimeType);
    EscapedIsField(record.error);
  }

  lemma FieldsReadBack(record: Record)
    requires IsTerminal(record)
    ensures FromFields(Fields(record)) == GotRecord(Kept(record))
  {
    ParseUndoesToString(CodeOf(record.progress));
    ParseUndoesToString(record.received);
    ParseUndoesToString(record.total);
    DigitsSpell(record.completedAt, []);
    assert Decimal(record.completedAt) + [] == Decimal(record.completedAt);
    UnescapeUndoesEscape(record.url);
    UnescapeUndoesEscape(record.fileName);
    UnescapeUndoesEscape(record.path);
    UnescapeUndoesEscape(record.mimeType);
    UnescapeUndoesEscape(record.error);
  }

  lemma LineReadsBack(record: Record)
    requires IsTerminal(record)
    ensures ReadLine(Line(record)) == GotRecord(Kept(record))
    ensures Uncut(Line(record), '\n')
  {
    FieldsAreFields(record);
    JoinedIsUncut(Fields(record));
    forall f <- Fields(record)
      ensures Uncut(f, '\t')
    {
      assert IsField(f);
    }
    CutUndoesJoin(Fields(record), '\t');
    FieldsReadBack(record);
    assert Line(record) != [] by {
      assert Joined(Fields(record), '\t') == Fields(record)[0] + ['\t'] + Joined(Fields(record)[1..], '\t');
    }
  }

  ghost predicate ReadBackAs(lines: seq<string>, records: seq<Record>) {
    |lines| == |records| && forall i :: 0 <= i < |lines| ==> ReadLine(lines[i]) == GotRecord(records[i])
  }

  lemma {:induction false} LinesReadBack(records: seq<Record>, lines: seq<string>, room: nat)
    requires |records| <= room && ReadBackAs(lines, records)
    ensures ReadLines(lines, room) == records
  {
    if records != [] {
      LinesReadBack(records[1..], lines[1..], room - 1);
    }
  }

  lemma {:induction false} DumpIsLines(records: seq<Record>) returns (lines: seq<string>)
    requires forall r <- records :: IsTerminal(r) && Kept(r) == r
    ensures Dump(records) == Ended(lines) && ReadBackAs(lines, records) && AllUncut(lines)
  {
    lines := [];
    if records != [] {
      assert records[0] in records;
      var rest := DumpIsLines(records[1..]);
      LineReadsBack(records[0]);
      lines := OneMoreLine(Line(records[0]), rest);
    }
  }

  lemma {:induction false} TerminalAreKept(records: seq<Record>)
    ensures forall r <- TerminalOf(records) :: IsTerminal(r) && Kept(r) == r
  {
    if records != [] {
      TerminalAreKept(records[1..]);
    }
  }

  /** The newest finished downloads written are read back as they were, but for the ids
      they are given anew. */
  lemma DecodeUndoesEncode(records: seq<Record>)
    ensures Decoded(Encoded(records)) == Newest(TerminalOf(records))
  {
    var saved := Newest(TerminalOf(records));
    TerminalAreKept(records);
    var lines := DumpIsLines(saved);
    HeadedDecodes(saved, lines);
  }

  lemma HeadedDecodes(records: seq<Record>, lines: seq<string>)
    requires |records| <= HISTORY_LIMIT && ReadBackAs(lines, records) && AllUncut(lines)
    ensures Decoded(HEADER + "\n" + Ended(lines)) == records
  {
    HeadedCuts(HEADER, lines);
    HeadedReads(HEADER + "\n" + Ended(lines), lines);
    LinesReadBack(records, lines, HISTORY_LIMIT);
  }

  lemma HeadedReads(contents: string, lines: seq<string>)
    requires contents != [] && Cut(contents, '\n', []) == [HEADER] + (lines + [[]])
    ensures Decoded(contents) == ReadLines(lines, HISTORY_LIMIT)
  {
    var all := [HEADER] + lines;
    assert [HEADER] + (lines + [[]]) == all + [[]];
    assert (all + [[]])[..|all|] == all && all[1..] == lines;
  }

  // --- The loops ----------------------------------------------------------------------------

  method JoinFields(fields: seq<string>) returns (line: string)
    requires fields != []
    ensures line == Joined(fields, '\t')
  {
    line := fields[|fields| - 1];
    var i := |fields| - 1;
    assert fields[i..] == [fields[i]];
    while i > 0
      invariant 0 <= i < |fields|
      invariant line == Joined(fields[i..], '\t')
    {
      i := i - 1;
      assert fields[i..][1..] == fields[i + 1..];
      line := fields[i] + "\t" + line;
    }
    assert fields[0..] == fields;
  }

  method WriteRecord(record: Record) returns (line: string)
    ensures line == Line(record) + "\n"
  {
    var url := EscapeField(record.url);
    var fileName := EscapeField(record.fileName);
    var path := EscapeField(record.path);
    var mimeType := EscapeField(record.mimeType);
    var error := EscapeField(record.error);
    line := JoinFields([ToString(CodeOf(record.progress)), ToString(record.received), ToString(record.total),
                        Decimal(record.completedAt), url, fileName, path, mimeType, error]);
    line := line + "\n";
  }

  method WriteHistory(records: seq<Record>) returns (contents: string)
    ensures contents == Encoded(records)
  {
    var body := WriteRecords(records);
    contents := HEADER + "\n" + body;
  }

  /** What the file would hold once so many lines are written and these records are left. */
  ghost function Ahead(records: seq<Record>, written: nat): string
    requires written <= HISTORY_LIMIT
  {
    Dump(First(TerminalOf(records), HISTORY_LIMIT - written))
  }

  method WriteRecords(records: seq<Record>) returns (contents: string)
    ensures contents == Dump(Newest(TerminalOf(records)))
  {
    ghost var rest, written;
    contents, rest, written := WriteWhileRoom(records, Ahead(records, 0));
    NothingAhead(rest, written);
    assert contents + [] == contents;
  }

  method WriteWhileRoom(records: seq<Record>, ghost all: string)
    returns (contents: string, ghost rest: seq<Record>, ghost count: nat)
    requires all == Ahead(records, 0)
    ensures count <= HISTORY_LIMIT && contents + Ahead(rest, count) == all
    ensures rest == [] || count == HISTORY_LIMIT
  {
    contents, rest := [], records;
    var written: nat := 0;
    for i := 0 to |records|
      invariant rest == records[i..] && written <= HISTORY_LIMIT
      invariant contents + Ahead(rest, written) == all
    {
      if written == HISTORY_LIMIT && IsTerminal(records[i]) {
        return contents, rest, written;
      }
      assert rest == [records[i]] + rest[1..];
      contents, written := WriteOne(contents, written, records[i], rest[1..]);
      rest := rest[1..];
    }
    count := written;
  }

  lemma NothingAhead(records: seq<Record>, written: nat)
    requires records == [] || written == HISTORY_LIMIT
    ensures written <= HISTORY_LIMIT ==> Ahead(records, written) == []
  {
  }

  method WriteOne(contents: string, written: nat, record: Record, ghost later: seq<Record>)
    returns (more: string, count: nat)
    requires written <= HISTORY_LIMIT && (written < HISTORY_LIMIT || !IsTerminal(record))
    ensures count <= HISTORY_LIMIT
    ensures more + Ahead(later, count) == contents + Ahead([record] + later, written)
  {
    assert ([record] + later)[1..] == later;
    if !IsTerminal(record) {
      assert [] + TerminalOf(later) == TerminalOf(later);
      return contents, written;
    }
    more := AppendRecord(contents, record, TerminalOf(later), HISTORY_LIMIT - written - 1);
    count := written + 1;
  }

  method AppendRecord(contents: string, record: Record, ghost later: seq<Record>, ghost room: nat)
    returns (more: string)
    ensures more + Dump(First(later, room)) == contents + Dump(First([Kept(record)] + later, room + 1))
  {
    var line := WriteRecord(record);
    DumpHead(Kept(record), later, room);
    more := contents + line;
  }

  lemma DumpHead(record: Record, later: seq<Record>, room: nat)
    ensures Dump(First([record] + later, room + 1)) == Line(record) + "\n" + Dump(First(later, room))
  {
    assert First([record] + later, room + 1) == [record] + First(later, room);
  }

  method ReadRecord(line: string) returns (read: LineRead)
    ensures read == ReadLine(line)
  {
    if line == [] {
      return Skipped;
    }
    var fields := SplitOn(line, '\t');
    if |fields| < 9 {
      return Skipped;
    }
    var code := ParseSigned(fields[0]);
    if code < 2 || code > 4 {
      return Skipped;
    }
    var received := ParseSigned(fields[1]);
    var total := ParseSigned(fields[2]);
    var url := UnescapeField(fields[4]);
    var fileName := UnescapeField(fields[5]);
    var path := UnescapeField(fields[6]);
    var mimeType := UnescapeField(fields[7]);
    var error := UnescapeField(fields[8]);
    return GotRecord(Record(0, ProgressOf(code), 0, url, fileName, path, mimeType, error,
                            received, total, ParsedUnsigned(fields[3])));
  }

  method ReadHistory(contents: string) returns (records: seq<Record>)
    ensures records == Decoded(contents)
  {
    records := [];
    if contents == [] {
      return;
    }
    var lines := SplitOn(contents, '\n');
    if lines != [] && lines[|lines| - 1] == [] {
      lines := lines[..|lines| - 1];
    }
    if lines == [] || lines[0] != HEADER {
      return;
    }
    records := ReadAll(lines[1..]);
  }

  method ReadAll(lines: seq<string>) returns (records: seq<Record>)
    ensures records == ReadLines(lines, HISTORY_LIMIT)
  {
    records := [];
    ghost var rest := lines;
    for index := 0 to |lines|
      invariant |records| < HISTORY_LIMIT && rest == lines[index..]
      invariant records + ReadLines(rest, HISTORY_LIMIT - |records|) == ReadLines(lines, HISTORY_LIMIT)
    {
      assert rest == [lines[index]] + rest[1..];
      rest := rest[1..];
      records := AppendRead(records, lines[index], rest);
      if |records| >= HISTORY_LIMIT {
        break;
      }
    }
    assert records + [] == records;
  }

  method AppendRead(records: seq<Record>, line: string, ghost later: seq<string>) returns (more: seq<Record>)
    requires |records| < HISTORY_LIMIT
    ensures |more| <= HISTORY_LIMIT
    ensures more + ReadLines(later, HISTORY_LIMIT - |more|)
         == records + ReadLines([line] + later, HISTORY_LIMIT - |records|)
  {
    assert ([line] + later)[1..] == later;
    var read := ReadRecord(line);
    more := if read.GotRecord? then records + [read.record] else records;
  }
}
