/** When the settings reach their file. An edit marks them as changed; a save writes them
    when they are marked, and clears the mark before it knows whether the file can be
    replaced; a start reads them back. */
module SettingsSaves {
  import opened Settings
  import opened SettingsFile

  datatype State = State(values: Values, dirty: bool, disk: string)

  datatype Event =
    | Did(edit: Edit)
    | Saves(written: bool)   // written: whether the file could be replaced
    | Restarts

  /** An engine that is refused marks nothing. */
  predicate Marks(edit: Edit) {
    match edit
    case AddEngine(name, query) => IsUsable(EngineOf(name, query))
    case UpdateEngine(_, name, query) => IsUsable(EngineOf(name, query))
    case _ => true
  }

  /** What a start makes of a file: the built-in settings, unless the file is this
      version's. */
  function Opened(disk: string): Values {
    match Load(disk)
    case Untouched => DEFAULTS
    case Read(values) => values
  }

  function Next(s: State, event: Event): State {
    match event
    case Did(edit) => s.(values := Edited(s.values, edit), dirty := s.dirty || Marks(edit))
    case Saves(written) =>
      if !s.dirty then s else s.(dirty := false, disk := if written then Saved(s.values) else s.disk)
    case Restarts => State(Opened(s.disk), false, s.disk)
  }

  ghost function Run(disk: string, events: seq<Event>): State {
    if events == [] then State(Opened(disk), false, disk)
    else Next(Run(disk, events[..|events| - 1]), events[|events| - 1])
  }

  // --- What a look at the events tells -----------------------------------------------------

  /** Whether an edit waits to be saved. */
  predicate Waits(events: seq<Event>) {
    events != [] &&
    match events[|events| - 1]
    case Did(edit) => Marks(edit) || Waits(events[..|events| - 1])
    case Saves(_) => false
    case Restarts => false
  }

  /** Whether the last save of this start that had something to write could not. */
  predicate Failed(events: seq<Event>) {
    events != [] &&
    var front := events[..|events| - 1];
    match events[|events| - 1]
    case Did(_) => Failed(front)
    case Saves(written) => if Waits(front) then !written else Failed(front)
    case Restarts => false
  }

  /** Whether a save ever wrote. */
  predicate Wrote(events: seq<Event>) {
    events != [] &&
    var front := events[..|events| - 1];
    Wrote(front) || (events[|events| - 1] == Saves(true) && Waits(front))
  }

  lemma {:induction false} MarkedIsWaiting(disk: string, events: seq<Event>)
    ensures Run(disk, events).dirty == Waits(events)
  {
    if events != [] {
      MarkedIsWaiting(disk, events[..|events| - 1]);
    }
  }

  // --- What the file holds ------------------------------------------------------------------

  /** Settings as they are after a restart: the choice is found again by its name. */
  function Reopened(values: Values): Values
    requires InRange(values, values.chosen)
  {
    values.(chosen := FirstNamed(values.engines, values.engines[values.chosen].name))
  }

  lemma ReopenedIsTidy(values: Values)
    requires IsTidy(values)
    ensures IsTidy(Reopened(values)) && Reopened(Reopened(values)) == Reopened(values)
  {
    LoadUndoesSave(values);
    FirstIsFirst(values.engines, values.engines[values.chosen].name, Reopened(values).chosen);
  }

  lemma FirstIsFirst(engines: seq<Engine>, name: string, at: nat)
    requires at == FirstNamed(engines, name) < |engines|
    ensures FirstNamed(engines, engines[at].name) == at
  {
  }

  /** The settings the file was last written from, or read into. */
  ghost function Known(disk: string, events: seq<Event>): Values {
    if events == [] then Opened(disk)
    else
      var (front, now) := (events[..|events| - 1], Run(disk, events).values);
      match events[|events| - 1]
      case Did(_) => Known(disk, front)
      case Saves(written) => if written && Waits(front) then now else Known(disk, front)
      case Restarts => now
  }

  ghost predicate IsKept(s: State, known: Values, failed: bool) {
    && IsTidy(s.values) && IsTidy(known) && Opened(s.disk) == Reopened(known)
    && (!s.dirty && !failed ==> s.values == known)
  }

  lemma EditKeeps(s: State, edit: Edit, known: Values, failed: bool)
    requires IsKept(s, known, failed)
    ensures IsKept(Next(s, Did(edit)), known, failed)
  {
    EditKeepsTidy(s.values, edit);
    if !Marks(edit) {
      assert Edited(s.values, edit) == s.values;
    }
  }

  lemma SaveKeeps(s: State, written: bool, known: Values, failed: bool)
    requires IsKept(s, known, failed)
    ensures IsKept(Next(s, Saves(written)), if written && s.dirty then s.values else known,
                   if s.dirty then !written else failed)
  {
    LoadUndoesSave(s.values);
  }

  lemma RestartKeeps(s: State, known: Values, failed: bool)
    requires IsKept(s, known, failed)
    ensures IsKept(Next(s, Restarts), Opened(s.disk), false)
  {
    ReopenedIsTidy(known);
  }

  lemma {:induction false} FoldKeepsChoice(step: (Reading, string) -> Reading, reading: Reading, lines: seq<string>)
    requires forall r, line :: step(r, line).values.chosen == r.values.chosen
    ensures Folded(step, reading, lines).values.chosen == reading.values.chosen
    decreases |lines|
  {
    if lines != [] {
      FoldKeepsChoice(step, step(reading, lines[0]), lines[1..]);
    }
  }

  lemma TakenKeepsChoice(reading: Reading, key: Key, value: string)
    ensures Taken(reading, key, value).values.chosen == reading.values.chosen
  {
  }

  lemma ChoiceIsFirst(values: Values, name: string)
    requires values.chosen == 0
    ensures var held := ChoiceHeld(values, name);
            InRange(held, held.chosen) ==> FirstNamed(held.engines, held.engines[held.chosen].name) == held.chosen
  {
    var first := FirstNamed(values.engines, name);
    if first < |values.engines| {
      FirstIsFirst(values.engines, name, first);
    }
  }

  /** A file's choice is the first of its name already. */
  lemma OpenedIsReopened(disk: string)
    requires IsTidy(Opened(disk))
    ensures Reopened(Opened(disk)) == Opened(disk)
  {
    if Load(disk).Read? {
      forall r: Reading, line: string
        ensures TakenLine(r, line).values.chosen == r.values.chosen
      {
        TakenKeepsChoice(r, Recognised(KeyOf(line)), ValueOf(line));
      }
      var lines := Lines(disk, [])[1..];
      FoldKeepsChoice(TakenLine, EMPTY, lines);
      SettledIsReopened(TakenLines(EMPTY, lines), DEFAULT_ENGINES, Opened(disk));
    }
  }

  lemma SettledIsReopened(reading: Reading, defaults: seq<Engine>, values: Values)
    requires reading.values.chosen == 0 && values == SettledOver(reading, defaults) && InRange(values, values.chosen)
    ensures Reopened(values) == values
  {
    ChoiceIsFirst(EnginesHeld(ZoomHeld(reading.values), defaults), reading.name);
  }

  lemma {:induction false} EveryRunIsKept(disk: string, events: seq<Event>)
    requires IsTidy(Opened(disk))
    ensures IsKept(Run(disk, events), Known(disk, events), Failed(events))
  {
    if events == [] {
      OpenedIsReopened(disk);
    } else {
      var (front, event) := (events[..|events| - 1], events[|events| - 1]);
      EveryRunIsKept(disk, front);
      MarkedIsWaiting(disk, front);
      match event
      case Did(edit) => EditKeeps(Run(disk, front), edit, Known(disk, front), Failed(front));
      case Saves(written) => SaveKeeps(Run(disk, front), written, Known(disk, front), Failed(front));
      case Restarts => RestartKeeps(Run(disk, front), Known(disk, front), Failed(front));
    }
  }

  /** With nothing waiting, the next start finds the settings as they are exactly when the
      last save that had something to write could - or what it could not write is what the
      file says anyway. */
  ghost predicate IsCurrentUnless(s: State, known: Values, failed: bool) {
    && InRange(s.values, s.values.chosen) && InRange(known, known.chosen)
    && Opened(s.disk) == Reopened(known)
    && (!s.dirty ==>
          (Opened(s.disk) == Reopened(s.values) <==> !failed || Reopened(known) == Reopened(s.values)))
  }

  lemma QuietFileIsCurrentExactly(disk: string, events: seq<Event>)
    requires IsTidy(Opened(disk))
    ensures IsCurrentUnless(Run(disk, events), Known(disk, events), Failed(events))
  {
    EveryRunIsKept(disk, events);
    KeptIsCurrent(Run(disk, events), Known(disk, events), Failed(events));
  }

  lemma KeptIsCurrent(s: State, known: Values, failed: bool)
    requires IsKept(s, known, failed)
    ensures IsCurrentUnless(s, known, failed)
  {
  }

  // --- A save that could not write ------------------------------------------------------------

  lemma OneEventOn(disk: string, before: seq<Event>, event: Event, now: State, all: seq<Event>)
    requires Next(Run(disk, before), event) == now && all == before + [event]
    ensures Run(disk, all) == now
  {
    assert all[..|all| - 1] == before;
  }

  /** It is not tried again: the mark is gone, and a later save that could write has
      nothing to. */
  lemma FailedIsNotTriedAgain(disk: string, events: seq<Event>)
    ensures Run(disk, events + [Saves(false), Saves(true)]).disk == Run(disk, events).disk
    ensures Run(disk, events + [Saves(false), Saves(true)]).values == Run(disk, events).values
  {
    var s := Run(disk, events);
    OneEventOn(disk, events, Saves(false), s.(dirty := false), events + [Saves(false)]);
    assert events + [Saves(false), Saves(true)] == events + [Saves(false)] + [Saves(true)];
    OneEventOn(disk, events + [Saves(false)], Saves(true), s.(dirty := false), events + [Saves(false), Saves(true)]);
  }

  // --- A file of another version --------------------------------------------------------------

  ghost predicate IsLeft(s: State, disk: string, wrote: bool) {
    (s.disk == disk <==> !wrote) && (wrote ==> Load(s.disk).Read?)
  }

  lemma NextLeaves(s: State, event: Event, disk: string, wrote: bool)
    requires IsLeft(s, disk, wrote) && Load(disk).Untouched? && IsTidy(s.values)
    ensures IsLeft(Next(s, event), disk, wrote || (event == Saves(true) && s.dirty))
  {
    if event == Saves(true) {
      LoadUndoesSave(s.values);
    }
  }

  /** A file this version cannot read is left as it is exactly until a save writes; from
      then on it is this version's. */
  lemma {:induction false} OtherVersionIsLeftExactly(disk: string, events: seq<Event>)
    requires Load(disk).Untouched?
    ensures IsLeft(Run(disk, events), disk, Wrote(events))
  {
    if events != [] {
      var (front, event) := (events[..|events| - 1], events[|events| - 1]);
      OtherVersionIsLeftExactly(disk, front);
      MarkedIsWaiting(disk, front);
      DefaultsAreTidy();
      EveryRunIsKept(disk, front);
      NextLeaves(Run(disk, front), event, disk, Wrote(front));
    }
  }
}
