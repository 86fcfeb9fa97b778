/** What the list says of each download: what was last reported of it until it ended, and
    which downloads it lists. */
module DownloadReports {
  import opened Sequences
  import opened DownloadsFile
  import opened Downloads
  import opened DownloadRuns

  // --- What a step says of one download -------------------------------------------------------

  predicate Ends(step: Step) {
    step.Finish? && (step.progress.Finished? || step.progress.Failed? || step.progress.Cancelled?)
  }

  predicate Finishes(step: Step, was: Record) {
    Ends(step) && step.id == was.id && !IsTerminal(was)
  }

  predicate Reports(step: Step, was: Record) {
    step.SetProgress? && step.id == was.id && !IsTerminal(was)
  }

  predicate Starts(step: Step, was: Record) {
    (step.SetDestination? || step.SetProgress?) && step.id == was.id && was.progress.Starting?
  }

  /** A record as a step leaves it: only what the step says of it is new. */
  predicate Follows(step: Step, was: Record, now: Record) {
    && now.id == was.id
    && now.url == (if step.SetUrl? && step.id == was.id && step.url != [] then step.url else was.url)
    && (now.fileName, now.path, now.mimeType) ==
       (if step.SetDestination? && step.id == was.id then (step.fileName, step.path, step.mimeType)
        else (was.fileName, was.path, was.mimeType))
    && now.received == (if Reports(step, was) then step.received else was.received)
    && now.total == (if Reports(step, was) then step.total
                     else if Finishes(step, was) && was.total < 0 && step.progress.Finished? then was.received
                     else was.total)
    && now.progress == (if Finishes(step, was) then step.progress
                        else if Starts(step, was) then Running
                        else was.progress)
    && now.error == (if Finishes(step, was) then step.error else was.error)
    && now.completedAt == (if Finishes(step, was) then step.ticks else was.completedAt)
    && now.download == (if Finishes(step, was) || step.TakeLive? then 0 else was.download)
  }

  lemma ChangedFollows(s: State, at: nat, record: Record, step: Step, was: Record, now: Record)
    requires IdsAreOwn(s) && at < |s.records| && record.id == s.records[at].id && Follows(step, s.records[at], record)
    requires was in s.records && now in s.records[at := record] && now.id == was.id
    requires was.id != s.records[at].id ==> Follows(step, was, was)
    ensures Follows(step, was, now)
  {
    var i :| 0 <= i < |s.records| && s.records[at := record][i] == now;
    var j :| 0 <= j < |s.records| && s.records[j] == was;
    assert s.records[i].id == s.records[j].id;
  }

  lemma SameFollows(s: State, step: Step, was: Record, now: Record)
    requires IdsAreOwn(s) && was in s.records && now in s.records && now.id == was.id && Follows(step, was, was)
    ensures Follows(step, was, now)
  {
    var i :| 0 <= i < |s.records| && s.records[i] == now;
    var j :| 0 <= j < |s.records| && s.records[j] == was;
  }

  lemma EditFollows(s: State, step: Step, was: Record, now: Record)
    requires IdsAreOwn(s) && was in s.records && now in Next(s, step).records && now.id == was.id
    requires step.SetUrl? || step.SetDestination? || step.SetProgress?
    ensures Follows(step, was, now)
  {
    var at := Find(s.records, step.id);
    FindFinds(s, was);
    if at < 0 || Next(s, step) == s {
      SameFollows(s, step, was, now);
    } else {
      ChangedFollows(s, at, Next(s, step).records[at], step, was, now);
    }
  }

  lemma FinishFollows(s: State, step: Step, was: Record, now: Record)
    requires IdsAreOwn(s) && was in s.records && s.loaded && step.Finish? && Ends(step)
    requires now in Next(s, step).records && now.id == was.id
    ensures Follows(step, was, now)
  {
    var at := Find(s.records, step.id);
    FindFinds(s, was);
    if at < 0 || IsTerminal(s.records[at]) {
      SameFollows(s, step, was, now);
    } else {
      ChangedFollows(s, at, Ended(s.records[at], step.progress, step.error, step.ticks), step, was, now);
    }
  }

  lemma TakenFollows(s: State, was: Record, now: Record)
    requires IdsAreOwn(s) && was in s.records && now in LiveTaken(s).records && now.id == was.id
    ensures Follows(TakeLive, was, now)
  {
    LetGoAre(s.records);
    var i :| 0 <= i < |s.records| && LetGo(s.records)[i] == now;
    var j :| 0 <= j < |s.records| && s.records[j] == was;
    assert s.records[i].id == s.records[j].id;
    TakenOne(was, now);
  }

  lemma TakenOne(was: Record, now: Record)
    requires now == was.(download := 0)
    ensures Follows(TakeLive, was, now)
  {
  }

  predicate OnlyLists(step: Step) {
    step.Look? || step.Add? || step.Remove? || step.ClearTerminal? || step.QueueCancel? || step.NextCancel?
  }

  lemma QuietFollows(step: Step, was: Record)
    requires OnlyLists(step)
    ensures Follows(step, was, was)
  {
  }

  lemma WasListed(s: State, step: Step, now: Record)
    requires IdsAreOwn(s) && s.loaded && OnlyLists(step) && now in Next(s, step).records && now.id < s.nextId
    ensures now in s.records
  {
    match step
    case ClearTerminal => UnfinishedIs(s.records);
    case _ =>
  }

  lemma ListFollows(s: State, step: Step, was: Record, now: Record)
    requires IdsAreOwn(s) && was in s.records && s.loaded && OnlyLists(step)
    requires now in Next(s, step).records && now.id == was.id
    ensures Follows(step, was, now)
  {
    WasListed(s, step, now);
    QuietFollows(step, was);
    SameFollows(s, step, was, now);
  }

  /** Whatever is called, every record that is still listed says what it said, but for what
      the call says of it. */
  lemma EveryStepFollows(s: State, step: Step, was: Record, now: Record)
    requires IdsAreOwn(s) && was in s.records && now in Next(s, step).records && now.id == was.id
    ensures Follows(step, was, now)
  {
    match step
    case SetUrl(_, _) => EditFollows(s, step, was, now);
    case SetDestination(_, _, _, _) => EditFollows(s, step, was, now);
    case SetProgress(_, _, _) => EditFollows(s, step, was, now);
    case TakeLive => TakenFollows(s, was, now);
    case Finish(_, _, _, _) =>
      if Ends(step) {
        FinishFollows(s, step, was, now);
      } else {
        SameFollows(s, step, was, now);
      }
    case _ => ListFollows(s, step, was, now);
  }

  // --- What has been reported -----------------------------------------------------------------

  ghost predicate IsOpen(s: State, id: int) {
    exists r <- s.records :: r.id == id && !IsTerminal(r)
  }

  ghost predicate IsHeld(s: State, id: int) {
    exists r <- s.records :: r.id == id
  }

  /** The number a download added now is known by; looking at the list for the first time
      numbers what the file remembers before it. */
  function NextNumber(s: State): int {
    s.nextId + if s.loaded then 0 else |s.disk|
  }

  /** How a download was added in this run, as its step says. */
  datatype Start = NotAdded | Started(url: string, download: nat, fileName: string)

  function StartOf(disk: seq<Record>, steps: seq<Step>, id: int): Start {
    if steps == [] then NotAdded
    else
      var (front, step) := (steps[..|steps| - 1], steps[|steps| - 1]);
      if step.Add? && NextNumber(Run(disk, front)) == id then Started(step.url, step.download, step.fileName)
      else StartOf(disk, front, id)
  }

  /** The progress last reported while it was under way: what was received, and of how much. */
  ghost function LastProgress(disk: seq<Record>, steps: seq<Step>, id: int): (int, int) {
    if steps == [] then (0, -1)
    else
      var (front, step) := (steps[..|steps| - 1], steps[|steps| - 1]);
      if step.SetProgress? && step.id == id && IsOpen(Run(disk, front), id) then (step.received, step.total)
      else LastProgress(disk, front, id)
  }

  /** Where it was last said to go, and the address it was last said to come from. */
  ghost function LastPlace(disk: seq<Record>, steps: seq<Step>, id: int): (string, string, string) {
    if steps == [] then ("", "", "")
    else
      var (front, step) := (steps[..|steps| - 1], steps[|steps| - 1]);
      if step.SetDestination? && step.id == id && IsHeld(Run(disk, front), id)
      then (step.fileName, step.path, step.mimeType)
      else if step.Add? && NextNumber(Run(disk, front)) == id then (step.fileName, "", "")
      else LastPlace(disk, front, id)
  }

  ghost function LastUrl(disk: seq<Record>, steps: seq<Step>, id: int): string {
    if steps == [] then ""
    else
      var (front, step) := (steps[..|steps| - 1], steps[|steps| - 1]);
      if step.SetUrl? && step.id == id && step.url != [] && IsHeld(Run(disk, front), id) then step.url
      else if step.Add? && NextNumber(Run(disk, front)) == id then step.url
      else LastUrl(disk, front, id)
  }

  /** Whether it was said to go anywhere, or to have come to anything, while it was new. */
  ghost predicate HasMoved(disk: seq<Record>, steps: seq<Step>, id: int) {
    steps != [] &&
    var (front, step) := (steps[..|steps| - 1], steps[|steps| - 1]);
    || HasMoved(disk, front, id)
    || ((step.SetDestination? || step.SetProgress?) && step.id == id && IsHeld(Run(disk, front), id))
  }

  /** How it first ended. */
  datatype End = NotYet | EndedAs(progress: Progress, error: string, ticks: nat)

  ghost function EndOf(disk: seq<Record>, steps: seq<Step>, id: int): End {
    if steps == [] then NotYet
    else
      var (front, step) := (steps[..|steps| - 1], steps[|steps| - 1]);
      if Ends(step) && step.id == id && IsOpen(Run(disk, front), id)
      then EndedAs(step.progress, step.error, step.ticks)
      else EndOf(disk, front, id)
  }

  datatype Story = Story(url: string, place: (string, string, string), reported: (int, int), moved: bool, end: End)

  ghost function StoryOf(disk: seq<Record>, steps: seq<Step>, id: int): Story {
    Story(LastUrl(disk, steps, id), LastPlace(disk, steps, id), LastProgress(disk, steps, id),
          HasMoved(disk, steps, id), EndOf(disk, steps, id))
  }

  /** A record tells its story: an ended one how it ended, with what had come by then - and
      a finished one of unknown size is as large as what came; one under way what was last
      reported. */
  predicate Tells(r: Record, story: Story) {
    && r.url == story.url && (r.fileName, r.path, r.mimeType) == story.place
    && r.received == story.reported.0
    && match story.end
       case NotYet =>
         && r.progress == (if story.moved then Running else Starting) && r.error == "" && r.completedAt == 0
         && r.total == story.reported.1
       case EndedAs(progress, error, ticks) =>
         && r.progress == progress && (progress.Finished? || progress.Failed? || progress.Cancelled?)
         && r.error == error && r.completedAt == ticks && r.download == 0
         && r.total == if story.reported.1 < 0 && progress.Finished? then story.reported.0 else story.reported.1
  }

  /** What a step adds to the story of a download that is listed. */
  function Told(step: Step, was: Record, story: Story): Story {
    var own := (step.SetUrl? && step.id == was.id) || (step.SetDestination? && step.id == was.id)
               || (step.SetProgress? && step.id == was.id);
    story.(url := if step.SetUrl? && own && step.url != [] then step.url else story.url,
           place := if step.SetDestination? && own then (step.fileName, step.path, step.mimeType) else story.place,
           reported := if Reports(step, was) then (step.received, step.total) else story.reported,
           moved := story.moved || ((step.SetDestination? || step.SetProgress?) && own),
           end := if Finishes(step, was) then EndedAs(step.progress, step.error, step.ticks) else story.end)
  }

  lemma FollowingTells(step: Step, was: Record, now: Record, story: Story)
    requires Tells(was, story) && Follows(step, was, now)
    ensures Tells(now, Told(step, was, story))
  {
  }

  // --- Every run ------------------------------------------------------------------------------

  lemma {:induction false} RunKeepsIds(disk: seq<Record>, steps: seq<Step>)
    ensures IdsAreOwn(Run(disk, steps))
  {
    if steps != [] {
      RunKeepsIds(disk, steps[..|steps| - 1]);
      StepKeepsIds(Run(disk, steps[..|steps| - 1]), steps[|steps| - 1]);
    }
  }

  lemma NumbersGrow(s: State, step: Step)
    requires IdsAreOwn(s)
    ensures s.loaded ==> NextNumber(s) <= NextNumber(Next(s, step))
    ensures s.nextId <= Next(s, step).nextId
    ensures step.Add? ==> Next(s, step).loaded && Next(s, step).nextId == NextNumber(s) + 1
  {
  }

  /** A download added in this run has a number below the next one. */
  lemma {:induction false} StartedIsNumbered(disk: seq<Record>, steps: seq<Step>, id: int)
    requires StartOf(disk, steps, id).Started?
    ensures Run(disk, steps).loaded && id < Run(disk, steps).nextId
  {
    var (front, step) := (steps[..|steps| - 1], steps[|steps| - 1]);
    RunKeepsIds(disk, front);
    if !(step.Add? && NextNumber(Run(disk, front)) == id) {
      StartedIsNumbered(disk, front, id);
      NextNumbersOn(Run(disk, front), step);
    }
  }

  /** Nothing was said of a number that is still to come. */
  lemma {:induction false} NothingSaidYet(disk: seq<Record>, steps: seq<Step>, id: int)
    requires Run(disk, steps).nextId <= id
    ensures LastProgress(disk, steps, id) == (0, -1) && !HasMoved(disk, steps, id) && EndOf(disk, steps, id).NotYet?
  {
    if steps != [] {
      var (front, step) := (steps[..|steps| - 1], steps[|steps| - 1]);
      RunKeepsIds(disk, front);
      NumbersGrow(Run(disk, front), step);
      NothingSaidYet(disk, front, id);
      assert !IsHeld(Run(disk, front), id) && !IsOpen(Run(disk, front), id);
    }
  }

  lemma NewRecordIs(s: State, step: Step, r: Record)
    requires IdsAreOwn(s) && step.Add? && r in Next(s, step).records && r.id == NextNumber(s)
    ensures r == Record(r.id, Starting, step.download, step.url, step.fileName, "", "", "", 0, -1, 0)
  {
    LoadedKeepsIds(s);
    assert forall q <- Loaded(s).records :: q.id < Loaded(s).nextId;
  }

  lemma NewTells(disk: seq<Record>, front: seq<Step>, step: Step, r: Record)
    requires step.Add? && r in Run(disk, front + [step]).records && r.id == NextNumber(Run(disk, front))
    ensures Tells(r, StoryOf(disk, front + [step], r.id))
  {
    var steps := front + [step];
    assert steps[..|steps| - 1] == front && steps[|steps| - 1] == step;
    RunKeepsIds(disk, front);
    NewRecordIs(Run(disk, front), step, r);
    NothingSaidYet(disk, front, r.id);
  }

  lemma OpenIsUnended(s: State, was: Record)
    requires IdsAreOwn(s) && was in s.records
    ensures IsHeld(s, was.id) && (IsOpen(s, was.id) <==> !IsTerminal(was))
  {
    forall r <- s.records | r.id == was.id
      ensures r == was
    {
      FindFinds(s, r);
      FindFinds(s, was);
    }
  }

  lemma StoryGoesOn(disk: seq<Record>, front: seq<Step>, step: Step, was: Record)
    requires was in Run(disk, front).records
    ensures StoryOf(disk, front + [step], was.id) == Told(step, was, StoryOf(disk, front, was.id))
  {
    var steps := front + [step];
    assert steps[..|steps| - 1] == front && steps[|steps| - 1] == step;
    RunKeepsIds(disk, front);
    OpenIsUnended(Run(disk, front), was);
    assert was.id < NextNumber(Run(disk, front));
  }

  lemma OldWasListed(disk: seq<Record>, front: seq<Step>, step: Step, r: Record) returns (was: Record)
    requires r in Run(disk, front + [step]).records && StartOf(disk, front + [step], r.id).Started?
    requires !(step.Add? && NextNumber(Run(disk, front)) == r.id)
    ensures LivesOnAs(Run(disk, front), r, was) && r in Next(Run(disk, front), step).records
    ensures StartOf(disk, front, r.id).Started?
  {
    var steps := front + [step];
    assert steps[..|steps| - 1] == front && steps[|steps| - 1] == step;
    RunKeepsIds(disk, front);
    StartedIsNumbered(disk, front, r.id);
    OldIdsWereThere(Run(disk, front), step, r);
    was :| LivesOnAs(Run(disk, front), r, was);
  }

  lemma OldTells(disk: seq<Record>, front: seq<Step>, step: Step, was: Record, r: Record)
    requires LivesOnAs(Run(disk, front), r, was) && r in Next(Run(disk, front), step).records
    requires Tells(was, StoryOf(disk, front, was.id))
    ensures Tells(r, StoryOf(disk, front + [step], r.id))
  {
    RunKeepsIds(disk, front);
    EveryStepFollows(Run(disk, front), step, was, r);
    FollowingTells(step, was, r, StoryOf(disk, front, was.id));
    StoryGoesOn(disk, front, step, was);
  }

  /** Whatever is called, the list says of each download added in this run what was last
      said of it: where it comes from and goes to, what has come of how much, and how it
      ended. */
  lemma {:induction false} EveryRecordTells(disk: seq<Record>, steps: seq<Step>, r: Record)
    requires r in Run(disk, steps).records && StartOf(disk, steps, r.id).Started?
    ensures Tells(r, StoryOf(disk, steps, r.id))
    decreases |steps|, 1
  {
    assert steps != [];
    assert steps == steps[..|steps| - 1] + [steps[|steps| - 1]];
    RecordTellsAfter(disk, steps[..|steps| - 1], steps[|steps| - 1], r);
  }

  lemma {:induction false} RecordTellsAfter(disk: seq<Record>, front: seq<Step>, step: Step, r: Record)
    requires r in Run(disk, front + [step]).records && StartOf(disk, front + [step], r.id).Started?
    ensures Tells(r, StoryOf(disk, front + [step], r.id))
    decreases |front| + 1, 0
  {
    if step.Add? && NextNumber(Run(disk, front)) == r.id {
      NewTells(disk, front, step, r);
    } else {
      var was := OldWasListed(disk, front, step, r);
      EveryRecordTells(disk, front, was);
      OldTells(disk, front, step, was, r);
    }
  }

  // --- Which downloads are listed -------------------------------------------------------------

  function IdsOf(records: seq<Record>): seq<int> {
    seq(|records|, i requires 0 <= i < |records| => records[i].id)
  }

  function UnderWay(): Record -> bool {
    (r: Record) => !IsTerminal(r)
  }

  function Except(id: int): Record -> bool {
    (r: Record) => r.id != id
  }

  /** The first call that asks for the list reads the file, once: what it remembers comes
      behind what is there, numbered on. */
  lemma LookReadsOnce(s: State)
    ensures var s' := Next(s, Look);
            && s'.loaded && s'.disk == s.disk && s'.cancels == s.cancels
            && if s.loaded then s' == s
               else
                 && s.records <= s'.records && |s'.records| == |s.records| + |s.disk|
                 && s'.nextId == s.nextId + |s.disk| && s'.revision == s.revision + 1
                 && forall i :: 0 <= i < |s.disk| ==>
                      s'.records[|s.records| + i] == s.disk[i].(id := s.nextId + i)
  {
    NumberedAre(s.disk, s.nextId);
  }

  /** And every call that needs the list looks first. */
  lemma CallsLookFirst(s: State, step: Step)
    requires step.Add? || Ends(step) || step.Remove? || step.ClearTerminal? || step.QueueCancel?
    ensures Next(s, step) == Next(Next(s, Look), step)
  {
  }

  lemma {:induction false} UnfinishedIsFilter(records: seq<Record>)
    ensures Unfinished(records) == Filter(records, UnderWay())
  {
    if records != [] {
      UnfinishedIsFilter(records[1..]);
    }
  }

  lemma {:induction false} RemovedIsFilter(records: seq<Record>, at: nat)
    requires at < |records| && forall i, j :: 0 <= i < j < |records| ==> records[i].id != records[j].id
    ensures records[..at] + records[at + 1..] == Filter(records, Except(records[at].id))
  {
    var rest := records[1..];
    if at == 0 {
      NoneRemoved(rest, records[0].id);
      assert records[..0] + rest == rest && [] + rest == rest;
    } else {
      RemovedIsFilter(rest, at - 1);
      assert records[..at] + records[at + 1..] == [records[0]] + (rest[..at - 1] + rest[at..]);
    }
  }

  lemma {:induction false} NoneRemoved(records: seq<Record>, id: int)
    requires forall i :: 0 <= i < |records| ==> records[i].id != id
    ensures Filter(records, Except(id)) == records
  {
    if records != [] {
      NoneRemoved(records[1..], id);
      assert records == [records[0]] + records[1..];
    }
  }

  /** A new download is listed first; one that ended can be taken off, and all of them at
      once; nothing else comes, goes or changes its place. */
  lemma ListedAfter(s: State, step: Step)
    requires IdsAreOwn(s) && s.loaded
    ensures var s' := Next(s, step);
            match step
            case Add(_, _, _) => IdsOf(s'.records) == [s.nextId] + IdsOf(s.records)
            case Remove(id) =>
              s'.records == if exists r <- s.records :: r.id == id && IsTerminal(r) then Filter(s.records, Except(id))
                            else s.records
            case ClearTerminal => s'.records == Filter(s.records, UnderWay())
            case _ => IdsOf(s'.records) == IdsOf(s.records)
  {
    match step
    case Add(_, _, _) =>
    case Remove(id) => RemoveTakesOff(s, id);
    case ClearTerminal => ClearTakesOff(s);
    case TakeLive => LetGoAre(s.records);
    case _ =>
  }

  lemma RemoveTakesOff(s: State, id: int)
    requires IdsAreOwn(s)
    ensures Removed(s, id).records ==
            if exists r <- s.records :: r.id == id && IsTerminal(r) then Filter(s.records, Except(id)) else s.records
  {
    var at := Find(s.records, id);
    if exists r <- s.records :: r.id == id && IsTerminal(r) {
      var r :| r in s.records && r.id == id && IsTerminal(r);
      FindFinds(s, r);
      RemovedIsFilter(s.records, at);
    } else if at >= 0 {
      assert s.records[at] in s.records;
    }
  }

  lemma ClearTakesOff(s: State)
    ensures Cleared(s).records == Filter(s.records, UnderWay())
  {
    UnfinishedIsFilter(s.records);
    SameLength(s.records);
  }

  lemma {:induction false} SameLength(records: seq<Record>)
    ensures |Unfinished(records)| <= |records|
    ensures |Unfinished(records)| == |records| ==> Unfinished(records) == records
  {
    if records != [] {
      SameLength(records[1..]);
      assert records == [records[0]] + records[1..];
    }
  }

  // --- What the file remembers ----------------------------------------------------------------

  function Over(): Record -> bool {
    (r: Record) => IsTerminal(r)
  }

  /** Each as it is, but for its number and the object it held. */
  ghost predicate AreKept(kept: seq<Record>, records: seq<Record>) {
    |kept| == |records| && forall i :: 0 <= i < |records| ==> kept[i] == records[i].(id := 0, download := 0)
  }

  lemma {:induction false} EndedAreKept(records: seq<Record>)
    ensures AreKept(TerminalOf(records), Filter(records, Over()))
  {
    if records != [] {
      EndedAreKept(records[1..]);
      KeepOne(records[0], TerminalOf(records[1..]), Filter(records[1..], Over()));
    }
  }

  lemma KeepOne(first: Record, kept: seq<Record>, rest: seq<Record>)
    requires AreKept(kept, rest)
    ensures AreKept((if IsTerminal(first) then [Kept(first)] else []) + kept,
                    (if IsTerminal(first) then [first] else []) + rest)
  {
    if !IsTerminal(first) {
      assert [] + kept == kept && [] + rest == rest;
    }
  }

  /** What is saved is every download that ended, the newest 200 of them, as it ended. */
  lemma SavedAreTheEnded(s: State)
    ensures var ended := Filter(s.records, Over());
            AreKept(Saved(s).disk, if |ended| > 200 then ended[..200] else ended)
  {
    EndedAreKept(s.records);
  }

  // --- What is cancelled ----------------------------------------------------------------------

  /** A download under way waits to be cancelled at most once, behind those that wait already;
      they are handed out first come first served. */
  lemma CancelsWaitInLine(s: State, id: int)
    requires IdsAreOwn(s) && s.loaded
    ensures Next(s, QueueCancel(id)).cancels ==
            if IsOpen(s, id) && id !in s.cancels then s.cancels + [id] else s.cancels
    ensures Next(s, NextCancel).cancels == if s.cancels == [] then [] else s.cancels[1..]
  {
    var at := Find(s.records, id);
    if IsOpen(s, id) {
      var r :| r in s.records && r.id == id && !IsTerminal(r);
      FindFinds(s, r);
    } else if at >= 0 {
      assert s.records[at] in s.records;
    }
  }
}
