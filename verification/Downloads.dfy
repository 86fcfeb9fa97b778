/** The download records: what each call does to them, to the live objects they hold
    and to the file that remembers them. */
module Downloads {
  import opened DownloadsFile

  datatype State = State(
    records: seq<Record>, nextId: int, revision: int, loaded: bool, cancels: seq<int>,
    disk: seq<Record>,            // what reading the file gives
    // Live objects handed to the records, and handed back to be released.
    adopted: seq<nat>, returned: seq<nat>)

  /** A run starts with whatever file the last one left. */
  function Start(disk: seq<Record>): State {
    State([], 1, 0, false, [], disk, [], [])
  }

  // --- Loading ----------------------------------------------------------------------------

  function Numbered(records: seq<Record>, id: int): (numbered: seq<Record>)
    ensures |numbered| == |records|
  {
    if records == [] then [] else [records[0].(id := id)] + Numbered(records[1..], id + 1)
  }

  function Loaded(s: State): State {
    if s.loaded then s
    else
      s.(loaded := true, records := s.records + Numbered(s.disk, s.nextId), nextId := s.nextId + |s.disk|,
         revision := s.revision + 1)
  }

  // --- Records ----------------------------------------------------------------------------

  function Find(records: seq<Record>, id: int): (at: int)
    ensures -1 <= at < |records|
    ensures at >= 0 ==> records[at].id == id
    ensures at < 0 ==> forall r <- records :: r.id != id
  {
    if records == [] then -1
    else if records[0].id == id then 0
    else var rest := Find(records[1..], id); if rest < 0 then -1 else rest + 1
  }

  function Held(record: Record): seq<nat> {
    if record.download == 0 then [] else [record.download]
  }

  /** The live objects, in the order of the records. */
  function LiveOf(records: seq<Record>): seq<nat> {
    if records == [] then [] else Held(records[0]) + LiveOf(records[1..])
  }

  function LetGo(records: seq<Record>): (after: seq<Record>)
    ensures |after| == |records|
  {
    if records == [] then [] else [records[0].(download := 0)] + LetGo(records[1..])
  }

  function Unfinished(records: seq<Record>): seq<Record> {
    if records == [] then []
    else (if IsTerminal(records[0]) then [] else [records[0]]) + Unfinished(records[1..])
  }

  function Saved(s: State): State {
    s.(disk := Newest(TerminalOf(s.records)))
  }

  // --- Steps ------------------------------------------------------------------------------

  datatype Step =
    | Look                                                 // any question the list asks
    | Add(url: string, download: nat, fileName: string)
    | SetUrl(id: int, url: string)
    | SetDestination(id: int, fileName: string, path: string, mimeType: string)
    | SetProgress(id: int, received: int, total: int)
    | Finish(id: int, progress: Progress, error: string, ticks: nat)
    | TakeLive
    | Remove(id: int)
    | ClearTerminal
    | QueueCancel(id: int)
    | NextCancel

  function Changed(s: State, at: nat, record: Record): State
    requires at < |s.records|
  {
    s.(records := s.records[at := record], revision := s.revision + 1)
  }

  function Added(s: State, url: string, download: nat, fileName: string): State {
    var record := Record(s.nextId, Starting, download, url, fileName, "", "", "", 0, -1, 0);
    s.(records := [record] + s.records, nextId := s.nextId + 1, revision := s.revision + 1,
       adopted := s.adopted + Held(record))
  }

  function Moving(progress: Progress): Progress {
    if progress.Starting? then Running else progress
  }

  function WithUrl(s: State, id: int, url: string): State {
    var at := Find(s.records, id);
    if url == [] || at < 0 || s.records[at].url == url then s else Changed(s, at, s.records[at].(url := url))
  }

  function WithDestination(s: State, id: int, fileName: string, path: string, mimeType: string): State {
    var at := Find(s.records, id);
    if at < 0 then s
    else
      Changed(s, at, s.records[at].(fileName := fileName, path := path, mimeType := mimeType,
                                    progress := Moving(s.records[at].progress)))
  }

  function WithProgress(s: State, id: int, received: int, total: int): State {
    var at := Find(s.records, id);
    if at < 0 || IsTerminal(s.records[at]) then s
    else
      Changed(s, at, s.records[at].(received := received, total := total, progress := Moving(s.records[at].progress)))
  }

  function Ended(record: Record, progress: Progress, error: string, ticks: nat): Record {
    record.(progress := progress, error := error, completedAt := ticks, download := 0,
            total := if record.total < 0 && progress.Finished? then record.received else record.total)
  }

  function FinishedWith(s: State, id: int, progress: Progress, error: string, ticks: nat): State {
    var at := Find(s.records, id);
    if at < 0 || IsTerminal(s.records[at]) then s
    else
      Saved(Changed(s, at, Ended(s.records[at], progress, error, ticks))
            .(returned := s.returned + Held(s.records[at])))
  }

  function LiveTaken(s: State): State {
    Saved(s.(records := LetGo(s.records), returned := s.returned + LiveOf(s.records), cancels := [],
             revision := s.revision + 1))
  }

  function Removed(s: State, id: int): State {
    var at := Find(s.records, id);
    if at < 0 || !IsTerminal(s.records[at]) then s
    else Saved(s.(records := s.records[..at] + s.records[at + 1..], revision := s.revision + 1))
  }

  function Cleared(s: State): State {
    if |Unfinished(s.records)| == |s.records| then s
    else Saved(s.(records := Unfinished(s.records), revision := s.revision + 1))
  }

  function CancelQueued(s: State, id: int): State {
    var at := Find(s.records, id);
    if at < 0 || IsTerminal(s.records[at]) || id in s.cancels then s else s.(cancels := s.cancels + [id])
  }

  /** A download ends finished, failed or cancelled: nothing else is ever reported. */
  function Next(s: State, step: Step): State {
    match step
    case Look => Loaded(s)
    case Add(url, download, fileName) => Added(Loaded(s), url, download, fileName)
    case SetUrl(id, url) => WithUrl(s, id, url)
    case SetDestination(id, fileName, path, mimeType) => WithDestination(s, id, fileName, path, mimeType)
    case SetProgress(id, received, total) => WithProgress(s, id, received, total)
    case Finish(id, progress, error, ticks) =>
      if progress.Starting? || progress.Running? then s else FinishedWith(Loaded(s), id, progress, error, ticks)
    case TakeLive => LiveTaken(s)
    case Remove(id) => Removed(Loaded(s), id)
    case ClearTerminal => Cleared(Loaded(s))
    case QueueCancel(id) => CancelQueued(Loaded(s), id)
    case NextCancel => if s.cancels == [] then s else s.(cancels := s.cancels[1..])
  }

  function Run(disk: seq<Record>, steps: seq<Step>): State {
    if steps == [] then Start(disk) else Next(Run(disk, steps[..|steps| - 1]), steps[|steps| - 1])
  }

  // --- Invariants ---------------------------------------------------------------------------

  function Times(objects: seq<nat>, live: nat): nat {
    if objects == [] then 0 else (if objects[0] == live then 1 else 0) + Times(objects[1..], live)
  }

  predicate HoldsNothing(record: Record) {
    record.download == 0
  }

  ghost predicate IdsAreOwn(s: State) {
    && 0 < s.nextId
    && (forall r <- s.records :: 0 < r.id < s.nextId)
    && (forall i, j :: 0 <= i < j < |s.records| ==> s.records[i].id != s.records[j].id)
    && (forall i, j :: 0 <= i < j < |s.cancels| ==> s.cancels[i] != s.cancels[j])
    && (!s.loaded ==> s.records == [])
  }

  /** A download that ended holds no live object. */
  ghost predicate EndedHoldNothing(s: State) {
    && (forall r <- s.records :: IsTerminal(r) ==> HoldsNothing(r))
    && (forall r <- s.disk :: HoldsNothing(r))
  }

  /** An object handed over is held by a record or was handed back, once for each time
      it was handed over. */
  predicate Balanced(s: State, live: nat) {
    Times(s.adopted, live) == Times(LiveOf(s.records), live) + Times(s.returned, live)
  }

  ghost predicate AllBalanced(s: State) {
    forall live: nat :: Balanced(s, live)
  }

  ghost predicate Inv(s: State) {
    IdsAreOwn(s) && EndedHoldNothing(s) && AllBalanced(s)
  }
}
