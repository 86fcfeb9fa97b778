/** The history file: an address, a title and the whole seconds of its visits on each
    line. */
module HistoryFile {
  import opened Address
  import opened Text
  import opened History
  import opened HistoryRuns

  const HEADER := "harmony-history 1"

  // --- Writing ------------------------------------------------------------------------------

  function Stamps(visits: seq<real>): (stamps: seq<string>)
    ensures |stamps| == |visits|
  {
    if visits == [] then [] else [ToString(visits[0].Floor)] + Stamps(visits[1..])
  }

  function Line(entry: Entry): string {
    Joined([Escaped(entry.url), Escaped(entry.title), Joined(Stamps(entry.visits), ',')], '\t')
  }

  function Dump(entries: seq<Entry>): string {
    if entries == [] then []
    else (if entries[0].visits == [] then [] else Line(entries[0]) + "\n") + Dump(entries[1..])
  }

  function Encoded(entries: seq<Entry>): string {
    HEADER + "\n" + Dump(entries)
  }

  // --- Reading ------------------------------------------------------------------------------

  function Moments(stamps: seq<string>): seq<real> {
    if stamps == [] then []
    else
      var at := ParsedSigned(stamps[0]);
      (if stamps[0] == [] || at <= 0 then [] else [at as real]) + Moments(stamps[1..])
  }

  function Inserted(at: real, visits: seq<real>): seq<real> {
    if visits == [] || at <= visits[0] then [at] + visits else [visits[0]] + Inserted(at, visits[1..])
  }

  function Sorted(visits: seq<real>): seq<real> {
    if visits == [] then [] else Inserted(visits[0], Sorted(visits[1..]))
  }

  datatype LineRead = Skipped | GotEntry(entry: Entry)

  function FromFields(fields: seq<string>): LineRead {
    if |fields| < 3 || !IsRecordable(Unescaped(fields[0])) then Skipped
    else
      var visits := Moments(Cut(fields[2], ',', []));
      if visits == [] then Skipped
      else GotEntry(Entry(Unescaped(fields[0]), Unescaped(fields[1]), Newest(Sorted(visits))))
  }

  function ReadLine(line: string): LineRead {
    if line == [] then Skipped else FromFields(Cut(line, '\t', []))
  }

  /** What is read of lines, each by itself, while there is room. */
  function EachRead(reader: string -> LineRead, lines: seq<string>, room: nat): seq<Entry> {
    if lines == [] || room == 0 then []
    else
      match reader(lines[0])
      case Skipped => EachRead(reader, lines[1..], room)
      case GotEntry(entry) => [entry] + EachRead(reader, lines[1..], room - 1)
  }

  function ReadLines(lines: seq<string>, room: nat): seq<Entry> {
    EachRead(ReadLine, lines, room)
  }

  /** A file with another header leaves the entries there are. */
  datatype Outcome = Untouched | Read(entries: seq<Entry>)

  function Decoded(contents: string): Outcome {
    var lines := Cut(contents, '\n', []);
    if lines == [] || lines[0] != HEADER then Untouched else Read(ReadLines(lines[1..], MAX_ENTRIES))
  }

  // --- Sorting --------------------------------------------------------------------------------

  lemma AscendsWith(first: real, rest: seq<real>)
    requires Ascends(rest) && forall v <- rest :: first <= v
    ensures Ascends([first] + rest)
  {
    var all := [first] + rest;
    forall i, j | 0 <= i < j < |all|
      ensures all[i] <= all[j]
    {
      assert all[j] == rest[j - 1] && rest[j - 1] in rest;
      assert i > 0 ==> all[i] == rest[i - 1];
    }
  }

  lemma {:induction false} InsertedHolds(at: real, visits: seq<real>)
    ensures multiset(Inserted(at, visits)) == multiset(visits) + multiset{at}
    ensures |Inserted(at, visits)| == |visits| + 1
  {
    if visits == [] || at <= visits[0] {
      assert multiset([at] + visits) == multiset{at} + multiset(visits);
    } else {
      InsertedHolds(at, visits[1..]);
      assert visits == [visits[0]] + visits[1..];
    }
  }

  lemma {:induction false} InsertedAscends(at: real, visits: seq<real>)
    requires Ascends(visits)
    ensures Ascends(Inserted(at, visits))
  {
    if visits != [] && at > visits[0] {
      InsertedAscends(at, visits[1..]);
      forall v <- Inserted(at, visits[1..])
        ensures visits[0] <= v
      {
        InsertedHolds(at, visits[1..]);
        assert v in multiset(Inserted(at, visits[1..]));
        assert v == at || v in visits[1..];
      }
      AscendsWith(visits[0], Inserted(at, visits[1..]));
    }
  }

  /** Sorting puts the visits in order and changes nothing else. */
  lemma {:induction false} SortedIs(visits: seq<real>)
    ensures Ascends(Sorted(visits)) && |Sorted(visits)| == |visits|
    ensures multiset(Sorted(visits)) == multiset(visits)
  {
    if visits != [] {
      SortedIs(visits[1..]);
      InsertedAscends(visits[0], Sorted(visits[1..]));
      InsertedHolds(visits[0], Sorted(visits[1..]));
      assert visits == [visits[0]] + visits[1..];
    }
  }

  lemma SortedKeepsPositive(visits: seq<real>)
    requires AllPositive(visits)
    ensures AllPositive(Sorted(visits))
  {
    SortedIs(visits);
    forall v <- Sorted(visits)
      ensures v in visits
    {
      assert v in multiset(Sorted(visits));
    }
  }

  lemma {:induction false} SortedIsSame(visits: seq<real>)
    requires Ascends(visits)
    ensures Sorted(visits) == visits
  {
    if visits != [] {
      SortedIsSame(visits[1..]);
      assert |visits| > 1 ==> visits[0] <= visits[1..][0];
    }
  }

  // --- Whole seconds --------------------------------------------------------------------------

  /** A visit is kept to the second; one in the first second of all is not kept. */
  function Whole(visits: seq<real>): seq<real> {
    if visits == [] then []
    else (if visits[0].Floor <= 0 then [] else [visits[0].Floor as real]) + Whole(visits[1..])
  }

  /** What a file gives back of one entry: its visits to the second, in order. */
  function Saved(entry: Entry): Entry {
    entry.(visits := Sorted(Whole(entry.visits)))
  }

  /** What it gives back of all of them: an entry without a whole second is lost. */
  function SavedEntries(entries: seq<Entry>): seq<Entry> {
    if entries == [] then []
    else (if Whole(entries[0].visits) == [] then [] else [Saved(entries[0])]) + SavedEntries(entries[1..])
  }

  lemma {:induction false} WholeIs(visits: seq<real>)
    ensures |Whole(visits)| <= |visits|
    ensures forall w <- Whole(visits) :: w > 0.0 && exists v <- visits :: w == v.Floor as real
  {
    if visits != [] {
      WholeIs(visits[1..]);
      assert visits == [visits[0]] + visits[1..];
      assert visits[0] in visits;
    }
  }

  predicate AllBelow(visits: seq<real>, bound: real) {
    forall i :: 0 <= i < |visits| ==> visits[i] < bound
  }

  lemma BelowRest(visits: seq<real>, bound: real)
    requires visits != []
    ensures AllBelow(visits, bound) <==> visits[0] < bound && AllBelow(visits[1..], bound)
  {
    var rest := visits[1..];
    assert forall i :: 0 < i < |visits| ==> visits[i] == rest[i - 1];
  }

  /** An entry is lost to a file exactly when it was only visited in the first second. */
  lemma {:induction false} WholeIsNothing(visits: seq<real>)
    ensures Whole(visits) == [] <==> AllBelow(visits, 1.0)
  {
    if visits != [] {
      WholeIsNothing(visits[1..]);
      BelowRest(visits, 1.0);
    }
  }

  /** Visits two seconds apart stay two seconds apart. */
  lemma {:induction false} WholeKeepsSpaced(visits: seq<real>)
    requires Spaced(visits)
    ensures Spaced(Whole(visits))
    ensures Whole(visits) != [] ==> Whole(visits)[0] <= Whole(visits)[|Whole(visits)| - 1]
    ensures visits != [] && visits[0].Floor > 0 ==> Whole(visits) != [] && Whole(visits)[0] == visits[0].Floor as real
    ensures visits != [] && visits[0] >= 0.0 && visits[0].Floor <= 0 && |visits| > 1 ==>
              Whole(visits) != [] && Whole(visits)[0] == visits[1].Floor as real
  {
    if |visits| > 1 {
      var later := visits[1..];
      assert forall i :: 0 < i < |later| ==> later[i - 1] == visits[i] && later[i] == visits[i + 1];
      WholeKeepsSpaced(later);
      assert visits[0] + SAME_VISIT_SECONDS <= visits[1];
      assert visits[1].Floor >= visits[0].Floor + 2;
      if visits[0].Floor > 0 {
        assert Whole(visits) == [visits[0].Floor as real] + Whole(later);
      } else {
        assert Whole(visits) == Whole(later);
      }
    } else if |visits| == 1 {
      assert Whole(visits[1..]) == [];
    }
  }

  // --- Reading what was written -----------------------------------------------------------------

  lemma {:induction false} StampsAre(visits: seq<real>)
    ensures forall s <- Stamps(visits) :: IsField(s) && Uncut(s, ',') && s != []
    ensures Moments(Stamps(visits)) == Whole(visits)
  {
    if visits != [] {
      StampsAre(visits[1..]);
      StampIs(visits[0].Floor);
    }
  }

  lemma StampIs(at: int)
    ensures IsField(ToString(at)) && Uncut(ToString(at), ',') && ToString(at) != [] && ParsedSigned(ToString(at)) == at
  {
    ParseUndoesToString(at);
    DigitsSpell(if at < 0 then -at else at, []);
  }

  lemma {:induction false} JoinedStampsAreField(stamps: seq<string>)
    requires forall s <- stamps :: IsField(s)
    ensures IsField(Joined(stamps, ','))
  {
    if |stamps| > 0 {
      assert stamps[0] in stamps;
      if |stamps| > 1 {
        JoinedStampsAreField(stamps[1..]);
      }
    }
  }

  predicate IsSaveable(entry: Entry) {
    IsRecordable(entry.url) && 0 < |entry.visits| <= MAX_VISITS
  }

  lemma FieldsReadBack(entry: Entry)
    requires IsSaveable(entry)
    ensures var fields := [Escaped(entry.url), Escaped(entry.title), Joined(Stamps(entry.visits), ',')];
            FromFields(fields) == if Whole(entry.visits) == [] then Skipped else GotEntry(Saved(entry))
  {
    UnescapeUndoesEscape(entry.url);
    UnescapeUndoesEscape(entry.title);
    StampsAre(entry.visits);
    CutUndoesJoin(Stamps(entry.visits), ',');
    WholeIs(entry.visits);
    SortedIs(Whole(entry.visits));
  }

  /** The line of any entry is read back as the entry, its visits to the second and in
      order; nothing is read when no visit has a whole second. */
  lemma LineReadsBack(entry: Entry)
    requires IsSaveable(entry)
    ensures ReadLine(Line(entry)) == if Whole(entry.visits) == [] then Skipped else GotEntry(Saved(entry))
    ensures Uncut(Line(entry), '\n') && Line(entry) != []
  {
    var fields := [Escaped(entry.url), Escaped(entry.title), Joined(Stamps(entry.visits), ',')];
    EscapedIsField(entry.url);
    EscapedIsField(entry.title);
    StampsAre(entry.visits);
    JoinedStampsAreField(Stamps(entry.visits));
    JoinedIsUncut(fields);
    forall f <- fields
      ensures Uncut(f, '\t')
    {
      assert IsField(f);
    }
    CutUndoesJoin(fields, '\t');
    FieldsReadBack(entry);
    assert Joined(fields, '\t') == fields[0] + ['\t'] + Joined(fields[1..], '\t');
  }

  lemma SavedWith(entry: Entry, rest: seq<Entry>)
    ensures SavedEntries([entry] + rest)
         == (if Whole(entry.visits) == [] then [] else [Saved(entry)]) + SavedEntries(rest)
  {
    assert ([entry] + rest)[1..] == rest;
  }

  lemma NextLineRead(reader: string -> LineRead, line: string, rest: seq<string>, room: nat)
    requires room > 0
    ensures EachRead(reader, [line] + rest, room) ==
              match reader(line)
              case Skipped => EachRead(reader, rest, room)
              case GotEntry(entry) => [entry] + EachRead(reader, rest, room - 1)
  {
    assert ([line] + rest)[1..] == rest;
  }

  lemma OneMoreIsRead(reader: string -> LineRead, line: string, first: Entry, later: seq<Entry>, rest: seq<string>,
                      room: nat)
    requires room > 0 && reader(line) == if Whole(first.visits) == [] then Skipped else GotEntry(Saved(first))
    requires EachRead(reader, rest, if Whole(first.visits) == [] then room else room - 1) == SavedEntries(later)
    ensures EachRead(reader, [line] + rest, room) == SavedEntries([first] + later)
  {
    NextLineRead(reader, line, rest, room);
    SavedWith(first, later);
  }

  lemma OneMoreIsDumped(first: Entry, later: seq<Entry>)
    requires first.visits != []
    ensures Dump([first] + later) == Line(first) + "\n" + Dump(later)
  {
    assert ([first] + later)[1..] == later;
  }

  /** One entry more in front of a dump is one line more, and what is read of it. */
  lemma OneMoreEntry(first: Entry, later: seq<Entry>, rest: seq<string>, room: nat) returns (lines: seq<string>)
    requires IsSaveable(first) && room > 0 && Dump(later) == Ended(rest) && AllUncut(rest)
    requires EachRead(ReadLine, rest + [[]], if Whole(first.visits) == [] then room else room - 1) ==
             SavedEntries(later)
    ensures Dump([first] + later) == Ended(lines) && AllUncut(lines)
    ensures EachRead(ReadLine, lines + [[]], room) == SavedEntries([first] + later)
  {
    LineReadsBack(first);
    OneMoreIsRead(ReadLine, Line(first), first, later, rest + [[]], room);
    OneMoreIsDumped(first, later);
    lines := OneMoreLine(Line(first), rest);
    assert lines + [[]] == [Line(first)] + (rest + [[]]);
  }

  /** The dump is ended lines; read with the empty line after them, they give back what
      was saved. */
  lemma {:induction false} DumpIsLines(entries: seq<Entry>, room: nat) returns (lines: seq<string>)
    requires |entries| <= room && forall e <- entries :: IsSaveable(e)
    ensures Dump(entries) == Ended(lines) && AllUncut(lines)
    ensures EachRead(ReadLine, lines + [[]], room) == SavedEntries(entries)
  {
    if entries == [] {
      lines := [];
      BlankIsSkipped(room);
    } else {
      var (first, later) := (entries[0], entries[1..]);
      assert first in entries && entries == [first] + later;
      var rest := DumpIsLines(later, if Whole(first.visits) == [] then room else room - 1);
      lines := OneMoreEntry(first, later, rest, room);
    }
  }

  lemma BlankIsSkipped(room: nat)
    ensures EachRead(ReadLine, [] + [[]], room) == []
  {
    var none: seq<string> := [];
    assert none + [[]] == [[]] + none;
    if room > 0 {
      NextLineRead(ReadLine, [], [], room);
    }
  }

  /** The history read back is the history written, to the second and in order. */
  lemma DecodeUndoesEncode(entries: seq<Entry>)
    requires |entries| <= MAX_ENTRIES && forall e <- entries :: IsSaveable(e)
    ensures Decoded(Encoded(entries)) == Read(SavedEntries(entries))
  {
    var lines := DumpIsLines(entries, MAX_ENTRIES);
    HeaderIsUncut();
    HeadedCuts(HEADER, lines);
    HeadedReads(Encoded(entries), lines);
  }

  lemma HeaderIsUncut()
    ensures Uncut(HEADER, '\n')
  {
  }

  lemma HeadedReads(contents: string, lines: seq<string>)
    requires Cut(contents, '\n', []) == [HEADER] + (lines + [[]])
    ensures Decoded(contents) == Read(ReadLines(lines + [[]], MAX_ENTRIES))
  {
    assert ([HEADER] + (lines + [[]]))[1..] == lines + [[]];
  }

  // --- Runs across restarts ---------------------------------------------------------------------

  ghost predicate AllRecordable(entries: seq<Entry>) {
    forall e <- entries :: IsRecordable(e.url)
  }

  lemma NextKeepsRecordable(entries: seq<Entry>, step: Step)
    requires Sound(entries) && AllRecordable(entries)
    ensures AllRecordable(Next(entries, step))
  {
    match step
    case Record(url, title, at, kept) =>
      if IsRecordable(url) && at > 0.0 && IsTrimmed(kept, Noted(entries, url, title, at)) {
        NotedKeeps(entries, url, title, at, 0.0);
        TrimmedKeeps(kept, Noted(entries, url, title, at));
        NotedAreRecordable(entries, url, title, at);
      }
    case Retitle(url, title) =>
    case ForgetUrl(url) => WithoutIs(entries, HasUrl(url));
    case ForgetHost(host) => WithoutIs(entries, HasHost(FoldCase(host)));
    case ForgetSince(since, left) =>
      if IsForgotten(left, entries, since) {
        ForgottenIs(left, entries, since);
      }
  }

  lemma NotedAreRecordable(entries: seq<Entry>, url: string, title: string, at: real)
    requires IsRecordable(url) && AllRecordable(entries)
    ensures AllRecordable(Noted(entries, url, title, at))
  {
    var noted := Noted(entries, url, title, at);
    forall e <- noted
      ensures e.url == url || exists was <- entries :: was.url == e.url
    {
      var i :| 0 <= i < |noted| && noted[i] == e;
      assert i < |entries| ==> entries[i] in entries;
    }
  }

  lemma SavedIsSound(entry: Entry)
    requires IsSound(entry) && Whole(entry.visits) != []
    ensures IsSound(Saved(entry)) && Ascends(Saved(entry).visits)
  {
    WholeIs(entry.visits);
    SortedIs(Whole(entry.visits));
    SortedKeepsPositive(Whole(entry.visits));
  }

  lemma {:induction false} SavedAre(entries: seq<Entry>)
    requires Unique(entries) && forall e <- entries :: IsSound(e)
    ensures Unique(SavedEntries(entries)) && |SavedEntries(entries)| <= |entries|
    ensures forall e <- SavedEntries(entries) ::
              IsSound(e) && Ascends(e.visits) && exists was <- entries :: was.url == e.url
  {
    if entries != [] {
      UniqueTail(entries);
      SavedAre(entries[1..]);
      assert entries == [entries[0]] + entries[1..] && entries[0] in entries;
      if Whole(entries[0].visits) != [] {
        SavedIsSound(entries[0]);
        UniqueWith(Saved(entries[0]), SavedEntries(entries[1..]));
      }
    }
  }

  datatype Event = Did(step: Step) | Restarted

  /** The history after steps and restarts; a restart reads back what was saved. */
  ghost function Lived(events: seq<Event>): seq<Entry> {
    if events == [] then []
    else
      var before := Lived(events[..|events| - 1]);
      match events[|events| - 1]
      case Did(step) => Next(before, step)
      case Restarted => (match Decoded(Encoded(before)) case Untouched => before case Read(entries) => entries)
  }

  lemma SoundIsSaved(entries: seq<Entry>)
    requires Sound(entries) && AllRecordable(entries)
    ensures Decoded(Encoded(entries)) == Read(SavedEntries(entries))
    ensures Sound(SavedEntries(entries)) && AllRecordable(SavedEntries(entries))
  {
    forall e <- entries
      ensures IsSaveable(e)
    {
      assert IsSound(e);
    }
    DecodeUndoesEncode(entries);
    SavedAre(entries);
  }

  /** What every run keeps is kept across restarts, whatever the clock does. */
  lemma {:induction false} EveryLifeIsSound(events: seq<Event>)
    ensures Sound(Lived(events)) && AllRecordable(Lived(events))
  {
    if events != [] {
      var (before, event) := (Lived(events[..|events| - 1]), events[|events| - 1]);
      EveryLifeIsSound(events[..|events| - 1]);
      if event.Did? {
        NextKeepsSound(before, event.step);
        NextKeepsRecordable(before, event.step);
      } else {
        SoundIsSaved(before);
      }
    }
  }

  /** Whatever was done and whatever the clock did, the history comes back from its
      file: every address, to the second, with its visits in order. */
  lemma EveryLifeIsRemembered(events: seq<Event>)
    ensures Decoded(Encoded(Lived(events))) == Read(SavedEntries(Lived(events)))
    ensures forall e <- SavedEntries(Lived(events)) :: Ascends(e.visits)
  {
    EveryLifeIsSound(events);
    SoundIsSaved(Lived(events));
    SavedAre(Lived(events));
  }

  /** The latest moment a visit was recorded at, and whether it never went back. */
  function LifeClock(events: seq<Event>): real {
    if events == [] then 0.0
    else
      var last := events[|events| - 1];
      if last.Did? && last.step.Record? then last.step.at else LifeClock(events[..|events| - 1])
  }

  predicate NeverGoesBack(events: seq<Event>) {
    events != [] ==>
      var (before, last) := (events[..|events| - 1], events[|events| - 1]);
      NeverGoesBack(before) && (last.Did? && last.step.Record? ==> last.step.at >= LifeClock(before))
  }

  /** Visits two seconds apart come back two seconds apart, without being sorted. */
  lemma SavedIsTimely(entry: Entry, clock: real)
    requires IsTimely(entry, clock)
    ensures Saved(entry).visits == Whole(entry.visits) && IsTimely(Saved(entry), clock)
  {
    WholeKeepsSpaced(entry.visits);
    SpacedAscends(Whole(entry.visits));
    SortedIsSame(Whole(entry.visits));
    WholeIs(entry.visits);
    forall w <- Whole(entry.visits)
      ensures w <= clock
    {
      var v :| v in entry.visits && w == v.Floor as real;
    }
  }

  lemma {:induction false} SavedAreTimely(entries: seq<Entry>, clock: real)
    requires Timely(entries, clock)
    ensures Timely(SavedEntries(entries), clock)
    ensures forall e <- SavedEntries(entries) :: exists was <- entries :: e == was.(visits := Whole(was.visits))
  {
    if entries != [] {
      assert entries == [entries[0]] + entries[1..] && IsTimely(entries[0], clock);
      SavedAreTimely(entries[1..], clock);
      SavedIsTimely(entries[0], clock);
    }
  }

  /** While the clock never goes back, visits stay ascending and two seconds apart
      across restarts, and a restart only cuts them to whole seconds. */
  lemma {:induction false} EveryLifeIsTimely(events: seq<Event>)
    requires NeverGoesBack(events)
    ensures Timely(Lived(events), LifeClock(events))
    ensures forall e <- SavedEntries(Lived(events)) ::
              exists was <- Lived(events) :: e == was.(visits := Whole(was.visits))
  {
    if events != [] {
      var (before, event) := (events[..|events| - 1], events[|events| - 1]);
      EveryLifeIsTimely(before);
      EveryLifeIsSound(before);
      if event.Did? {
        NextKeepsTimely(Lived(before), event.step, LifeClock(before));
      } else {
        SoundIsSaved(Lived(before));
        SavedAreTimely(Lived(before), LifeClock(before));
      }
    }
    SavedAreTimely(Lived(events), LifeClock(events));
  }

  // --- Any file at all ------------------------------------------------------------------------

  lemma {:induction false} MomentsArePositive(stamps: seq<string>)
    ensures AllPositive(Moments(stamps))
  {
    if stamps != [] {
      MomentsArePositive(stamps[1..]);
    }
  }

  predicate IsInOrder(entry: Entry) {
    IsSound(entry) && Ascends(entry.visits) && IsRecordable(entry.url)
  }

  lemma ReadIsInOrder(line: string)
    ensures ReadLine(line).GotEntry? ==> IsInOrder(ReadLine(line).entry)
  {
    if ReadLine(line).GotEntry? {
      var visits := Moments(Cut(Cut(line, '\t', [])[2], ',', []));
      MomentsArePositive(Cut(Cut(line, '\t', [])[2], ',', []));
      SortedIs(visits);
      SortedKeepsPositive(visits);
      NewestInOrder(Sorted(visits));
    }
  }

  lemma NewestInOrder(visits: seq<real>)
    requires Ascends(visits) && visits != [] && AllPositive(visits)
    ensures Ascends(Newest(visits)) && 0 < |Newest(visits)| <= MAX_VISITS && AllPositive(Newest(visits))
  {
    assert forall v <- Newest(visits) :: v in visits;
  }

  lemma {:induction false} EachIsInOrder(reader: string -> LineRead, lines: seq<string>, room: nat)
    requires forall line :: reader(line).GotEntry? ==> IsInOrder(reader(line).entry)
    ensures |EachRead(reader, lines, room)| <= room
    ensures forall e <- EachRead(reader, lines, room) :: IsInOrder(e)
  {
    if lines != [] && room > 0 {
      match reader(lines[0])
      case Skipped => EachIsInOrder(reader, lines[1..], room);
      case GotEntry(_) => EachIsInOrder(reader, lines[1..], room - 1);
    }
  }

  /** Whatever a file holds, what is read from it has every address's visits in order,
      and within the caps. */
  lemma AnyFileIsInOrder(contents: string)
    requires Decoded(contents).Read?
    ensures |Decoded(contents).entries| <= MAX_ENTRIES
    ensures forall e <- Decoded(contents).entries :: IsInOrder(e)
  {
    forall line: string
      ensures ReadLine(line).GotEntry? ==> IsInOrder(ReadLine(line).entry)
    {
      ReadIsInOrder(line);
    }
    EachIsInOrder(ReadLine, Cut(contents, '\n', [])[1..], MAX_ENTRIES);
  }

  /** Whether no line that is read names an address a line before it named; lines that
      cannot be read are passed over, and so are those past the cap. */
  predicate NamesOnce(reader: string -> LineRead, lines: seq<string>, named: set<string>, room: nat) {
    lines == [] || room == 0 ||
    match reader(lines[0])
    case Skipped => NamesOnce(reader, lines[1..], named, room)
    case GotEntry(entry) => entry.url !in named && NamesOnce(reader, lines[1..], named + {entry.url}, room - 1)
  }

  ghost predicate UniqueBeside(entries: seq<Entry>, named: set<string>) {
    Unique(entries) && forall e <- entries :: e.url !in named
  }

  lemma UniqueBesideMore(entry: Entry, rest: seq<Entry>, named: set<string>)
    ensures UniqueBeside([entry] + rest, named) <==> entry.url !in named && UniqueBeside(rest, named + {entry.url})
  {
    var all := [entry] + rest;
    assert all[0] == entry && forall i :: 0 <= i < |rest| ==> all[i + 1] == rest[i];
    if UniqueBeside(all, named) {
      assert entry in all && forall e <- rest :: e in all;
      UniqueTail(all);
    }
    if entry.url !in named && UniqueBeside(rest, named + {entry.url}) {
      assert entry.url in named + {entry.url};
      UniqueWith(entry, rest);
    }
  }

  lemma {:induction false} LinesNameOnce(reader: string -> LineRead, lines: seq<string>, named: set<string>, room: nat)
    ensures NamesOnce(reader, lines, named, room) <==> UniqueBeside(EachRead(reader, lines, room), named)
  {
    if lines != [] && room > 0 {
      match reader(lines[0])
      case Skipped =>
        LinesNameOnce(reader, lines[1..], named, room);
      case GotEntry(entry) =>
        LinesNameOnce(reader, lines[1..], named + {entry.url}, room - 1);
        UniqueBesideMore(entry, EachRead(reader, lines[1..], room - 1), named);
    }
  }

  /** What is read from a file is what every run keeps exactly when no two of its lines
      name one address: the reader does not look. */
  lemma AnyFileIsSoundExactly(contents: string)
    requires Decoded(contents).Read?
    ensures Sound(Decoded(contents).entries) <==>
            NamesOnce(ReadLine, Cut(contents, '\n', [])[1..], {}, MAX_ENTRIES)
  {
    var lines := Cut(contents, '\n', [])[1..];
    AnyFileIsInOrder(contents);
    LinesNameOnce(ReadLine, lines, {}, MAX_ENTRIES);
    forall e <- Decoded(contents).entries
      ensures IsSound(e)
    {
      assert IsInOrder(e);
    }
  }

  /** An address can be in a file twice, and both entries are kept. */
  lemma RepeatedAddressIsKept(entry: Entry)
    requires IsSaveable(entry) && Whole(entry.visits) != []
    ensures Decoded(Encoded([entry, entry])) == Read([Saved(entry), Saved(entry)])
    ensures !Sound([Saved(entry), Saved(entry)])
  {
    DecodeUndoesEncode([entry, entry]);
    SavedWith(entry, [entry]);
    SavedWith(entry, []);
    assert [entry] + [entry] == [entry, entry] && [entry] + [] == [entry];
    var twice := [Saved(entry), Saved(entry)];
    assert twice[0].url == twice[1].url;
  }

  // --- The loops ----------------------------------------------------------------------------

  method EncodeHistory(entries: seq<Entry>) returns (contents: string)
    ensures contents == Encoded(entries)
  {
    var body := [];
    ghost var rest := entries;
    for i := 0 to |entries|
      invariant rest == entries[i..] && body + Dump(rest) == Dump(entries)
    {
      assert rest == [entries[i]] + rest[1..];
      rest := rest[1..];
      body := AppendEntry(body, entries[i], rest);
    }
    assert body + [] == body;
    contents := HEADER + "\n" + body;
  }

  method AppendEntry(body: string, entry: Entry, ghost later: seq<Entry>) returns (more: string)
    ensures more + Dump(later) == body + Dump([entry] + later)
  {
    if entry.visits == [] {
      assert ([entry] + later)[1..] == later;
      return body;
    }
    var line := EncodeEntry(entry);
    OneMoreIsDumped(entry, later);
    more := body + (line + "\n");
  }

  method EncodeEntry(entry: Entry) returns (line: string)
    ensures line == Line(entry)
  {
    var url := EscapeField(entry.url);
    var title := EscapeField(entry.title);
    var stamps := JoinStamps(entry.visits);
    ThreeFields(url, title, stamps);
    line := url + "\t" + title + "\t" + stamps;
  }

  lemma ThreeFields(a: string, b: string, c: string)
    ensures Joined([a, b, c], '\t') == a + "\t" + b + "\t" + c
  {
    assert [a, b, c][1..] == [b, c] && [b, c][1..] == [c];
    assert Joined([b, c], '\t') == b + "\t" + c;
    assert a + "\t" + (b + "\t" + c) == a + "\t" + b + "\t" + c;
  }

  method JoinStamps(visits: seq<real>) returns (text: string)
    ensures text == Joined(Stamps(visits), ',')
  {
    text := [];
    assert visits[..0] == [];
    for i := 0 to |visits|
      invariant text == Joined(Stamps(visits[..i]), ',')
    {
      var stamp := ToString(visits[i].Floor);
      StampsPlus(visits[..i], visits[i]);
      assert visits[..i + 1] == visits[..i] + [visits[i]];
      JoinedPlus(Stamps(visits[..i]), stamp);
      text := if i > 0 then text + "," + stamp else stamp;
    }
    assert visits[..|visits|] == visits;
  }

  lemma {:induction false} StampsPlus(visits: seq<real>, at: real)
    ensures Stamps(visits + [at]) == Stamps(visits) + [ToString(at.Floor)]
  {
    if visits == [] {
      assert (visits + [at])[1..] == [];
    } else {
      StampsPlus(visits[1..], at);
      assert (visits + [at])[1..] == visits[1..] + [at];
    }
  }

  lemma {:induction false} JoinedPlus(fields: seq<string>, field: string)
    ensures Joined(fields + [field], ',') == if fields == [] then field else Joined(fields, ',') + "," + field
  {
    if |fields| > 1 {
      JoinedPlus(fields[1..], field);
      assert (fields + [field])[1..] == fields[1..] + [field];
    } else if |fields| == 1 {
      assert (fields + [field])[1..] == [field];
    }
  }

  method DecodeMoments(stamps: seq<string>) returns (visits: seq<real>)
    ensures visits == Moments(stamps)
  {
    visits := [];
    ghost var rest := stamps;
    for i := 0 to |stamps|
      invariant rest == stamps[i..] && visits + Moments(rest) == Moments(stamps)
    {
      assert rest == [stamps[i]] + rest[1..];
      rest := rest[1..];
      visits := AppendMoment(visits, stamps[i], rest);
    }
    assert visits + [] == visits;
  }

  method AppendMoment(visits: seq<real>, stamp: string, ghost later: seq<string>) returns (more: seq<real>)
    ensures more + Moments(later) == visits + Moments([stamp] + later)
  {
    assert ([stamp] + later)[1..] == later;
    if stamp == [] {
      return visits;
    }
    var at := ParseSigned(stamp);
    more := if at > 0 then visits + [at as real] else visits;
  }

  method DecodeLine(line: string) returns (read: LineRead)
    ensures read == ReadLine(line)
  {
    if line == [] {
      return Skipped;
    }
    var fields := SplitOn(line, '\t');
    if |fields| < 3 {
      return Skipped;
    }
    var url := UnescapeField(fields[0]);
    if !IsRecordable(url) {
      return Skipped;
    }
    var title := UnescapeField(fields[1]);
    var stamps := SplitOn(fields[2], ',');
    var visits := DecodeMoments(stamps);
    if visits == [] {
      return Skipped;
    }
    visits := Sorted(visits);
    if |visits| > MAX_VISITS {
      visits := visits[|visits| - MAX_VISITS..];
    }
    return GotEntry(Entry(url, title, visits));
  }

  method DecodeHistory(contents: string, before: seq<Entry>) returns (entries: seq<Entry>)
    ensures entries == match Decoded(contents) case Untouched => before case Read(read) => read
  {
    var lines := SplitOn(contents, '\n');
    if lines == [] || lines[0] != HEADER {
      return before;
    }
    entries := DecodeLines(lines[1..]);
  }

  method DecodeLines(lines: seq<string>) returns (entries: seq<Entry>)
    ensures entries == ReadLines(lines, MAX_ENTRIES)
  {
    entries := [];
    ghost var rest := lines;
    for i := 0 to |lines|
      invariant |entries| < MAX_ENTRIES && rest == lines[i..]
      invariant entries + ReadLines(rest, MAX_ENTRIES - |entries|) == ReadLines(lines, MAX_ENTRIES)
    {
      assert rest == [lines[i]] + rest[1..];
      rest := rest[1..];
      entries := AppendRead(entries, lines[i], rest);
      if |entries| >= MAX_ENTRIES {
        break;
      }
    }
    assert entries + [] == entries;
  }

  method AppendRead(entries: seq<Entry>, line: string, ghost later: seq<string>) returns (more: seq<Entry>)
    requires |entries| < MAX_ENTRIES
    ensures |more| <= MAX_ENTRIES
    ensures more + ReadLines(later, MAX_ENTRIES - |more|) ==
        entries + ReadLines([line] + later, MAX_ENTRIES - |entries|)
  {
    var read := DecodeLine(line);
    more := if read.GotEntry? then entries + [read.entry] else entries;
    AppendsRead(ReadLine, entries, line, later);
  }

  lemma AppendsRead(reader: string -> LineRead, entries: seq<Entry>, line: string, later: seq<string>)
    requires |entries| < MAX_ENTRIES
    ensures var read := reader(line);
            var more := if read.GotEntry? then entries + [read.entry] else entries;
            more + EachRead(reader, later, MAX_ENTRIES - |more|) ==
            entries + EachRead(reader, [line] + later, MAX_ENTRIES - |entries|)
  {
    NextLineRead(reader, line, later, MAX_ENTRIES - |entries|);
    if reader(line).GotEntry? {
      var rest := EachRead(reader, later, MAX_ENTRIES - |entries| - 1);
      assert entries + ([reader(line).entry] + rest) == entries + [reader(line).entry] + rest;
    }
  }
}
