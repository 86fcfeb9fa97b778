/** What every run of the download records keeps, and what it promises about live
    objects and about what is remembered. */
module DownloadRuns {
  import opened DownloadsFile
  import opened Downloads

  // --- Counting objects -----------------------------------------------------------------

  lemma {:induction false} TimesConcat(front: seq<nat>, back: seq<nat>, live: nat)
    ensures Times(front + back, live) == Times(front, live) + Times(back, live)
  {
    if front == [] {
      assert front + back == back;
    } else {
      TimesConcat(front[1..], back, live);
      assert (front + back)[1..] == front[1..] + back;
    }
  }

  lemma {:induction false} LiveConcat(front: seq<Record>, back: seq<Record>)
    ensures LiveOf(front + back) == LiveOf(front) + LiveOf(back)
  {
    if front == [] {
      assert front + back == back;
    } else {
      LiveConcat(front[1..], back);
      assert (front + back)[1..] == front[1..] + back && (front + back)[0] == front[0];
      assert Held(front[0]) + (LiveOf(front[1..]) + LiveOf(back)) ==
          (Held(front[0]) + LiveOf(front[1..])) + LiveOf(back);
    }
  }

  lemma LiveOne(record: Record)
    ensures LiveOf([record]) == Held(record)
  {
    assert [record][1..] == [];
  }

  /** One record in the place of another changes what is held by what the two hold. */
  lemma LiveUpdated(records: seq<Record>, at: nat, record: Record, live: nat)
    requires at < |records|
    ensures Times(LiveOf(records[at := record]), live)
         == Times(LiveOf(records), live) - Times(Held(records[at]), live) + Times(Held(record), live)
  {
    LiveParts(records, at, records[at], live);
    LiveParts(records, at, record, live);
    assert records[at := records[at]] == records;
  }

  lemma LiveParts(records: seq<Record>, at: nat, record: Record, live: nat)
    requires at < |records|
    ensures Times(LiveOf(records[at := record]), live)
         == Times(LiveOf(records[..at]), live) + Times(Held(record), live) + Times(LiveOf(records[at + 1..]), live)
  {
    assert records[at := record] == records[..at] + ([record] + records[at + 1..]);
    LiveConcat(records[..at], [record] + records[at + 1..]);
    LiveConcat([record], records[at + 1..]);
    LiveOne(record);
    TimesConcat(LiveOf(records[..at]), LiveOf([record] + records[at + 1..]), live);
    TimesConcat(Held(record), LiveOf(records[at + 1..]), live);
  }

  lemma {:induction false} LiveWithout(records: seq<Record>, at: nat)
    requires at < |records| && HoldsNothing(records[at])
    ensures LiveOf(records[..at] + records[at + 1..]) == LiveOf(records)
  {
    var fewer := records[..at] + records[at + 1..];
    if at == 0 {
      assert fewer == records[1..];
    } else {
      LiveWithout(records[1..], at - 1);
      assert fewer[0] == records[0] && fewer[1..] == records[1..][..at - 1] + records[1..][at..];
    }
  }

  lemma {:induction false} NoneLive(records: seq<Record>)
    requires forall r <- records :: HoldsNothing(r)
    ensures LiveOf(records) == []
  {
    if records != [] {
      assert records[0] in records;
      NoneLive(records[1..]);
    }
  }

  lemma {:induction false} UnfinishedLive(records: seq<Record>)
    requires forall r <- records :: IsTerminal(r) ==> HoldsNothing(r)
    ensures LiveOf(Unfinished(records)) == LiveOf(records)
  {
    if records != [] {
      assert records[0] in records;
      UnfinishedLive(records[1..]);
      LiveConcat(if IsTerminal(records[0]) then [] else [records[0]], Unfinished(records[1..]));
      LiveOne(records[0]);
    }
  }

  lemma {:induction false} UnfinishedIs(records: seq<Record>)
    ensures forall r :: r in Unfinished(records) <==> r in records && !IsTerminal(r)
    ensures |Unfinished(records)| <= |records|
  {
    if records != [] {
      UnfinishedIs(records[1..]);
      assert records == [records[0]] + records[1..];
    }
  }

  lemma {:induction false} UnfinishedKeepsApart(records: seq<Record>)
    requires forall i, j :: 0 <= i < j < |records| ==> records[i].id != records[j].id
    ensures var left := Unfinished(records);
            forall i, j :: 0 <= i < j < |left| ==> left[i].id != left[j].id
  {
    if records != [] {
      UnfinishedKeepsApart(records[1..]);
      UnfinishedIs(records[1..]);
      assert forall r <- Unfinished(records[1..]) :: r in records[1..] && r.id != records[0].id;
    }
  }

  lemma {:induction false} NumberedAre(records: seq<Record>, id: int)
    ensures forall i :: 0 <= i < |records| ==> Numbered(records, id)[i] == records[i].(id := id + i)
  {
    if records != [] {
      NumberedAre(records[1..], id + 1);
    }
  }

  lemma {:induction false} LetGoAre(records: seq<Record>)
    ensures forall i :: 0 <= i < |records| ==> LetGo(records)[i] == records[i].(download := 0)
  {
    if records != [] {
      LetGoAre(records[1..]);
    }
  }

  // --- Every step keeps the ids ---------------------------------------------------------

  lemma LoadedKeepsIds(s: State)
    requires IdsAreOwn(s)
    ensures IdsAreOwn(Loaded(s)) && Loaded(s).loaded
  {
    var s' := Loaded(s);
    NumberedAre(s.disk, s.nextId);
    if !s.loaded {
      assert s'.records == Numbered(s.disk, s.nextId);
    }
  }

  lemma ChangedKeepsIds(s: State, at: nat, record: Record)
    requires IdsAreOwn(s) && at < |s.records| && record.id == s.records[at].id
    ensures IdsAreOwn(Changed(s, at, record))
  {
    assert s.records[at] in s.records;
  }

  lemma RemovedKeepsIds(s: State, id: int)
    requires IdsAreOwn(s)
    ensures IdsAreOwn(Removed(s, id))
  {
    var at := Find(s.records, id);
    if at >= 0 {
      OneLessKeepsIds(s, at);
      var fewer := s.(records := s.records[..at] + s.records[at + 1..], revision := s.revision + 1);
      assert IdsAreOwn(Saved(fewer));
    }
  }

  lemma OneLessKeepsIds(s: State, at: nat)
    requires IdsAreOwn(s) && at < |s.records|
    ensures IdsAreOwn(s.(records := s.records[..at] + s.records[at + 1..], revision := s.revision + 1))
  {
    var fewer := s.records[..at] + s.records[at + 1..];
    forall i | 0 <= i < |fewer|
      ensures fewer[i] == s.records[if i < at then i else i + 1] && fewer[i] in s.records
    {
    }
    forall i, j | 0 <= i < j < |fewer|
      ensures fewer[i].id != fewer[j].id
    {
      assert fewer[i] == s.records[if i < at then i else i + 1];
      assert fewer[j] == s.records[if j < at then j else j + 1];
    }
  }

  lemma ClearedKeepsIds(s: State)
    requires IdsAreOwn(s)
    ensures IdsAreOwn(Cleared(s))
  {
    UnfinishedIs(s.records);
    UnfinishedKeepsApart(s.records);
    assert s.records == [] ==> Unfinished(s.records) == [];
  }

  lemma AddedKeepsIds(s: State, url: string, download: nat, fileName: string)
    requires IdsAreOwn(s) && s.loaded
    ensures IdsAreOwn(Added(s, url, download, fileName))
  {
  }

  lemma EditKeepsIds(s: State, step: Step)
    requires IdsAreOwn(s) && (step.SetUrl? || step.SetDestination? || step.SetProgress?)
    ensures IdsAreOwn(Next(s, step))
  {
    match step
    case SetUrl(id, url) =>
      var at := Find(s.records, id);
      if at >= 0 { ChangedKeepsIds(s, at, s.records[at].(url := url)); }
    case SetDestination(id, fileName, path, mimeType) =>
      var at := Find(s.records, id);
      if at >= 0 {
        ChangedKeepsIds(s, at, s.records[at].(fileName := fileName, path := path, mimeType := mimeType,
                                              progress := Moving(s.records[at].progress)));
      }
    case SetProgress(id, received, total) =>
      var at := Find(s.records, id);
      if at >= 0 {
        ChangedKeepsIds(s, at, s.records[at].(received := received, total := total,
                                              progress := Moving(s.records[at].progress)));
      }
    case _ =>
  }

  lemma FinishKeepsIds(s: State, id: int, progress: Progress, error: string, ticks: nat)
    requires IdsAreOwn(s)
    ensures IdsAreOwn(FinishedWith(s, id, progress, error, ticks))
  {
    var at := Find(s.records, id);
    if at >= 0 {
      ChangedKeepsIds(s, at, Ended(s.records[at], progress, error, ticks));
    }
  }

  lemma TakenKeepsIds(s: State)
    requires IdsAreOwn(s)
    ensures IdsAreOwn(LiveTaken(s))
  {
    LetGoAre(s.records);
    forall i | 0 <= i < |s.records|
      ensures 0 < LetGo(s.records)[i].id < s.nextId
    {
      assert s.records[i] in s.records;
    }
  }

  lemma CancelsKeepIds(s: State, step: Step)
    requires IdsAreOwn(s) && (step.Look? || step.QueueCancel? || step.NextCancel?)
    ensures IdsAreOwn(Next(s, step))
  {
    LoadedKeepsIds(s);
  }

  lemma ListKeepsIds(s: State, step: Step)
    requires IdsAreOwn(s) && (step.Add? || step.Finish? || step.Remove? || step.ClearTerminal?)
    ensures IdsAreOwn(Next(s, step))
  {
    LoadedKeepsIds(s);
    match step
    case Add(url, download, fileName) => AddedKeepsIds(Loaded(s), url, download, fileName);
    case Finish(id, progress, error, ticks) => FinishKeepsIds(Loaded(s), id, progress, error, ticks);
    case Remove(id) => RemovedKeepsIds(Loaded(s), id);
    case ClearTerminal => ClearedKeepsIds(Loaded(s));
  }

  lemma StepKeepsIds(s: State, step: Step)
    requires IdsAreOwn(s)
    ensures IdsAreOwn(Next(s, step))
  {
    if step.TakeLive? {
      TakenKeepsIds(s);
    } else if step.Look? || step.QueueCancel? || step.NextCancel? {
      CancelsKeepIds(s, step);
    } else if step.SetUrl? || step.SetDestination? || step.SetProgress? {
      EditKeepsIds(s, step);
    } else {
      ListKeepsIds(s, step);
    }
  }

  // --- Every step keeps the balance -----------------------------------------------------

  lemma LoadedKeepsBalance(s: State, live: nat)
    requires IdsAreOwn(s) && EndedHoldNothing(s) && Balanced(s, live)
    ensures EndedHoldNothing(Loaded(s)) && Balanced(Loaded(s), live)
  {
    var numbered := Numbered(s.disk, s.nextId);
    NumberedAre(s.disk, s.nextId);
    forall r <- numbered
      ensures HoldsNothing(r)
    {
      var i :| 0 <= i < |numbered| && numbered[i] == r;
      assert s.disk[i] in s.disk;
    }
    NoneLive(numbered);
    LiveConcat(s.records, numbered);
  }

  lemma SavedHoldsNothing(s: State)
    requires EndedHoldNothing(s)
    ensures EndedHoldNothing(Saved(s))
  {
    TerminalAreKept(s.records);
    forall r <- Newest(TerminalOf(s.records))
      ensures HoldsNothing(r)
    {
      assert Kept(r) == r;
    }
  }

  lemma ChangedKeepsBalance(s: State, at: nat, record: Record, live: nat)
    requires at < |s.records| && EndedHoldNothing(s) && Balanced(s, live)
    requires record.download == s.records[at].download && (IsTerminal(record) ==> IsTerminal(s.records[at]))
    ensures EndedHoldNothing(Changed(s, at, record)) && Balanced(Changed(s, at, record), live)
  {
    LiveUpdated(s.records, at, record, live);
    assert s.records[at] in s.records;
  }

  lemma EditKeepsBalance(s: State, step: Step, live: nat)
    requires EndedHoldNothing(s) && Balanced(s, live) && (step.SetUrl? || step.SetDestination? || step.SetProgress?)
    ensures EndedHoldNothing(Next(s, step)) && Balanced(Next(s, step), live)
  {
    match step
    case SetUrl(id, url) =>
      var at := Find(s.records, id);
      if at >= 0 { ChangedKeepsBalance(s, at, s.records[at].(url := url), live); }
    case SetDestination(id, fileName, path, mimeType) =>
      var at := Find(s.records, id);
      if at >= 0 {
        ChangedKeepsBalance(s, at, s.records[at].(fileName := fileName, path := path, mimeType := mimeType,
                                                  progress := Moving(s.records[at].progress)), live);
      }
    case SetProgress(id, received, total) =>
      var at := Find(s.records, id);
      if at >= 0 {
        ChangedKeepsBalance(s, at, s.records[at].(received := received, total := total,
                                                  progress := Moving(s.records[at].progress)), live);
      }
    case _ =>
  }

  lemma AddedKeepsBalance(s: State, url: string, download: nat, fileName: string, live: nat)
    requires EndedHoldNothing(s) && Balanced(s, live)
    ensures EndedHoldNothing(Added(s, url, download, fileName)) && Balanced(Added(s, url, download, fileName), live)
  {
    var s' := Added(s, url, download, fileName);
    var record := s'.records[0];
    LiveConcat([record], s.records);
    LiveOne(record);
    TimesConcat(Held(record), LiveOf(s.records), live);
    TimesConcat(s.adopted, Held(record), live);
  }

  lemma FinishKeepsBalance(s: State, id: int, progress: Progress, error: string, ticks: nat, live: nat)
    requires EndedHoldNothing(s) && Balanced(s, live)
    ensures var s' := FinishedWith(s, id, progress, error, ticks); EndedHoldNothing(s') && Balanced(s', live)
  {
    var at := Find(s.records, id);
    if at >= 0 && !IsTerminal(s.records[at]) {
      var record := Ended(s.records[at], progress, error, ticks);
      LiveUpdated(s.records, at, record, live);
      TimesConcat(s.returned, Held(s.records[at]), live);
      var changed := Changed(s, at, record).(returned := s.returned + Held(s.records[at]));
      SavedHoldsNothing(changed);
    }
  }

  lemma TakenKeepsBalance(s: State, live: nat)
    requires EndedHoldNothing(s) && Balanced(s, live)
    ensures EndedHoldNothing(LiveTaken(s)) && Balanced(LiveTaken(s), live)
    ensures LiveOf(LiveTaken(s).records) == []
  {
    var after := LetGo(s.records);
    LetGoAre(s.records);
    assert forall r <- after :: HoldsNothing(r);
    NoneLive(after);
    TimesConcat(s.returned, LiveOf(s.records), live);
    SavedHoldsNothing(s.(records := after));
  }

  lemma RemovedKeepsBalance(s: State, id: int, live: nat)
    requires EndedHoldNothing(s) && Balanced(s, live)
    ensures EndedHoldNothing(Removed(s, id)) && Balanced(Removed(s, id), live)
  {
    var at := Find(s.records, id);
    if at >= 0 && IsTerminal(s.records[at]) {
      assert s.records[at] in s.records;
      LiveWithout(s.records, at);
      SavedHoldsNothing(s.(records := s.records[..at] + s.records[at + 1..]));
    }
  }

  lemma ClearedKeepsBalance(s: State, live: nat)
    requires EndedHoldNothing(s) && Balanced(s, live)
    ensures EndedHoldNothing(Cleared(s)) && Balanced(Cleared(s), live)
  {
    UnfinishedIs(s.records);
    UnfinishedLive(s.records);
    SavedHoldsNothing(s.(records := Unfinished(s.records)));
  }

  lemma StepKeepsBalance(s: State, step: Step, live: nat)
    requires IdsAreOwn(s) && EndedHoldNothing(s) && Balanced(s, live)
    ensures EndedHoldNothing(Next(s, step)) && Balanced(Next(s, step), live)
  {
    LoadedKeepsBalance(s, live);
    match step
    case Look =>
    case Add(url, download, fileName) => AddedKeepsBalance(Loaded(s), url, download, fileName, live);
    case Finish(id, progress, error, ticks) => FinishKeepsBalance(Loaded(s), id, progress, error, ticks, live);
    case TakeLive => TakenKeepsBalance(s, live);
    case Remove(id) => RemovedKeepsBalance(Loaded(s), id, live);
    case ClearTerminal => ClearedKeepsBalance(Loaded(s), live);
    case QueueCancel(id) =>
    case NextCancel =>
    case _ => EditKeepsBalance(s, step, live);
  }

  /** A file read gives records that hold nothing. */
  lemma {:induction false} EveryRunKeepsInv(disk: seq<Record>, steps: seq<Step>)
    requires forall r <- disk :: HoldsNothing(r)
    ensures Inv(Run(disk, steps))
  {
    if steps != [] {
      var (s, step) := (Run(disk, steps[..|steps| - 1]), steps[|steps| - 1]);
      EveryRunKeepsInv(disk, steps[..|steps| - 1]);
      StepKeepsIds(s, step);
      assert Balanced(s, 0);
      StepKeepsBalance(s, step, 0);
      forall live: nat
        ensures Balanced(Next(s, step), live)
      {
        assert Balanced(s, live);
        StepKeepsBalance(s, step, live);
      }
    }
  }

  // --- What that promises -----------------------------------------------------------------

  /** Once the live objects have been taken, each one ever handed over has been handed
      back, exactly as often. */
  lemma TakingReturnsAll(disk: seq<Record>, steps: seq<Step>, live: nat)
    requires forall r <- disk :: HoldsNothing(r)
    ensures Times(LiveTaken(Run(disk, steps)).returned, live) == Times(Run(disk, steps).adopted, live)
    ensures Times(Run(disk, steps).returned, live) <= Times(Run(disk, steps).adopted, live)
  {
    EveryRunKeepsInv(disk, steps);
    var s := Run(disk, steps);
    assert Balanced(s, live);
    TakenKeepsBalance(s, live);
  }

  /** Whether an earlier record is still there, and as what. */
  ghost predicate LivesOnAs(s: State, was: Record, now: Record) {
    now in s.records && now.id == was.id
  }

  lemma FindFinds(s: State, record: Record)
    requires IdsAreOwn(s) && record in s.records
    ensures Find(s.records, record.id) >= 0 && s.records[Find(s.records, record.id)] == record
  {
    var i :| 0 <= i < |s.records| && s.records[i] == record;
    assert Find(s.records, record.id) == i;
  }

  /** How an ended download ended. */
  predicate SameEnd(now: Record, was: Record) {
    && now.progress == was.progress && now.error == was.error && now.completedAt == was.completedAt
    && now.received == was.received && now.total == was.total
  }

  lemma SameIdIsSame(s: State, a: Record, b: Record)
    requires IdsAreOwn(s) && a in s.records && b in s.records && a.id == b.id
    ensures a == b
  {
    FindFinds(s, a);
    FindFinds(s, b);
  }

  lemma EditedEndsTheSame(s: State, step: Step, was: Record, now: Record)
    requires IdsAreOwn(s) && was in s.records && IsTerminal(was) && LivesOnAs(Next(s, step), was, now)
    requires step.SetUrl? || step.SetDestination? || step.SetProgress?
    ensures SameEnd(now, was)
  {
    if now in s.records {
      SameIdIsSame(s, now, was);
    } else {
      FindFinds(s, was);
    }
  }

  lemma FinishedEndsTheSame(s: State, id: int, progress: Progress, error: string, ticks: nat, was: Record, now: Record)
    requires IdsAreOwn(s) && was in s.records && IsTerminal(was)
    requires LivesOnAs(FinishedWith(s, id, progress, error, ticks), was, now)
    ensures SameEnd(now, was)
  {
    if now in s.records {
      SameIdIsSame(s, now, was);
    } else {
      FindFinds(s, was);
    }
  }

  lemma TakenEndsTheSame(s: State, was: Record, now: Record)
    requires IdsAreOwn(s) && was in s.records && IsTerminal(was) && LivesOnAs(LiveTaken(s), was, now)
    ensures SameEnd(now, was)
  {
    LetGoAre(s.records);
    var i :| 0 <= i < |s.records| && LetGo(s.records)[i] == now;
    SameIdIsSame(s, s.records[i], was);
  }

  lemma EndedStays(s: State, step: Step, was: Record, now: Record)
    requires IdsAreOwn(s) && was in s.records && IsTerminal(was) && LivesOnAs(Next(s, step), was, now)
    ensures SameEnd(now, was)
  {
    assert s.loaded && Loaded(s) == s;
    match step
    case SetUrl(_, _) => EditedEndsTheSame(s, step, was, now);
    case SetDestination(_, _, _, _) => EditedEndsTheSame(s, step, was, now);
    case SetProgress(_, _, _) => EditedEndsTheSame(s, step, was, now);
    case Finish(id, progress, error, ticks) =>
      if IsTerminal(Ended(was, progress, error, ticks)) {
        FinishedEndsTheSame(s, id, progress, error, ticks, was, now);
      } else {
        SameIdIsSame(s, now, was);
      }
    case TakeLive => TakenEndsTheSame(s, was, now);
    case ClearTerminal =>
      UnfinishedIs(s.records);
      SameIdIsSame(s, now, was);
    case _ => SameIdIsSame(s, now, was);
  }

  lemma ChangedWasThere(s: State, at: int, now: Record)
    requires 0 <= at < |s.records| && now.id == s.records[at].id
    ensures exists mid :: LivesOnAs(s, now, mid)
  {
    assert LivesOnAs(s, now, s.records[at]);
  }

  lemma EditedWasThere(s: State, step: Step, now: Record)
    requires s.loaded && now in Next(s, step).records
    requires step.SetUrl? || step.SetDestination? || step.SetProgress? || step.Finish?
    ensures exists mid :: LivesOnAs(s, now, mid)
  {
    if now in s.records {
      assert LivesOnAs(s, now, now);
    } else {
      ChangedWasThere(s, Find(s.records, step.id), now);
    }
  }

  lemma TakenWasThere(s: State, now: Record)
    requires now in LiveTaken(s).records
    ensures exists mid :: LivesOnAs(s, now, mid)
  {
    LetGoAre(s.records);
    var i :| 0 <= i < |s.records| && LetGo(s.records)[i] == now;
    ChangedWasThere(s, i, now);
  }

  lemma SameWasThere(s: State, now: Record)
    requires now in s.records
    ensures exists mid :: LivesOnAs(s, now, mid)
  {
    assert LivesOnAs(s, now, now);
  }

  /** No call brings an id back: a record under an id below the next one was there before. */
  lemma OldIdsWereThere(s: State, step: Step, now: Record)
    requires IdsAreOwn(s) && s.loaded && now in Next(s, step).records && now.id < s.nextId
    ensures exists mid :: LivesOnAs(s, now, mid)
  {
    match step
    case TakeLive => TakenWasThere(s, now);
    case ClearTerminal =>
      UnfinishedIs(s.records);
      SameWasThere(s, now);
    case Finish(_, _, _, _) => EditedWasThere(s, step, now);
    case SetUrl(_, _) => EditedWasThere(s, step, now);
    case SetDestination(_, _, _, _) => EditedWasThere(s, step, now);
    case SetProgress(_, _, _) => EditedWasThere(s, step, now);
    case _ => SameWasThere(s, now);
  }

  lemma NextNumbersOn(s: State, step: Step)
    requires s.loaded
    ensures Next(s, step).loaded && s.nextId <= Next(s, step).nextId
  {
  }

  lemma {:induction false} RunsNumberOn(disk: seq<Record>, steps: seq<Step>, more: seq<Step>)
    requires Run(disk, steps).loaded
    ensures Run(disk, steps + more).loaded && Run(disk, steps).nextId <= Run(disk, steps + more).nextId
  {
    if more == [] {
      assert steps + more == steps;
    } else {
      var front, step := LastApart(steps, more);
      RunsNumberOn(disk, steps, front);
      RunPlus(disk, steps + front, step);
      NextNumbersOn(Run(disk, steps + front), step);
    }
  }

  lemma RunPlus(disk: seq<Record>, before: seq<Step>, step: Step)
    ensures Run(disk, before + [step]) == Next(Run(disk, before), step)
  {
    assert (before + [step])[..|before|] == before;
  }

  lemma LastApart(steps: seq<Step>, more: seq<Step>) returns (front: seq<Step>, step: Step)
    requires more != []
    ensures front == more[..|more| - 1] && step == more[|more| - 1] && steps + more == (steps + front) + [step]
  {
    front, step := more[..|more| - 1], more[|more| - 1];
  }

  /** An ended download stays as it ended, whatever is called and reported afterwards: for
      as long as there is a record of it, what it received, when it ended and how are what
      they were. */
  lemma {:induction false} EndedStaysEnded(disk: seq<Record>, steps: seq<Step>, more: seq<Step>, was: Record,
                                           now: Record)
    requires forall r <- disk :: HoldsNothing(r)
    requires was in Run(disk, steps).records && IsTerminal(was)
    requires LivesOnAs(Run(disk, steps + more), was, now)
    ensures SameEnd(now, was)
    decreases |more|
  {
    EveryRunKeepsInv(disk, steps);
    if more == [] {
      assert steps + more == steps;
      SameIdIsSame(Run(disk, steps), now, was);
    } else {
      var front, step := LastApart(steps, more);
      var s := Run(disk, steps + front);
      EveryRunKeepsInv(disk, steps + front);
      RunPlus(disk, steps + front, step);
      RunsNumberOn(disk, steps, front);
      OldIdsWereThere(s, step, now);
      var mid :| LivesOnAs(s, now, mid);
      EndedStaysEnded(disk, steps, front, was, mid);
      EndedStays(s, step, mid, now);
    }
  }

  /** A record that holds a live object is never dropped: after any call it still holds
      it, or the object was handed back. */
  lemma HolderIsKept(disk: seq<Record>, steps: seq<Step>, step: Step, was: Record)
    requires forall r <- disk :: HoldsNothing(r)
    requires was in Run(disk, steps).records && !HoldsNothing(was)
    ensures var (s, s') := (Run(disk, steps), Next(Run(disk, steps), step));
            StillHolds(s', was) || HandedBack(s, s', was)
  {
    EveryRunKeepsInv(disk, steps);
    HolderStays(Run(disk, steps), step, was);
  }

  ghost predicate StillHolds(s: State, was: Record) {
    exists now <- s.records :: now.id == was.id && now.download == was.download
  }

  ghost predicate HandedBack(s: State, s': State, was: Record) {
    && |s.returned| <= |s'.returned| && was.download in s'.returned[|s.returned|..]
    && exists now <- s'.records :: now.id == was.id && HoldsNothing(now)
  }

  lemma HolderStays(s: State, step: Step, was: Record)
    requires IdsAreOwn(s) && EndedHoldNothing(s) && was in s.records && !HoldsNothing(was)
    ensures StillHolds(Next(s, step), was) || HandedBack(s, Next(s, step), was)
  {
    assert s.loaded && Loaded(s) == s && !IsTerminal(was);
    match step
    case Finish(id, progress, error, ticks) => HolderFinishes(s, id, progress, error, ticks, was);
    case TakeLive => HolderIsTaken(s, was);
    case Remove(id) => HolderSurvivesRemoval(s, id, was);
    case ClearTerminal => UnfinishedIs(s.records);
    case Add(url, download, fileName) =>
      assert Added(s, url, download, fileName).records == [Added(s, url, download, fileName).records[0]] + s.records;
    case SetUrl(_, _) => HolderIsEdited(s, step, was);
    case SetDestination(_, _, _, _) => HolderIsEdited(s, step, was);
    case SetProgress(_, _, _) => HolderIsEdited(s, step, was);
    case _ =>
  }

  lemma HolderIsEdited(s: State, step: Step, was: Record)
    requires was in s.records && (step.SetUrl? || step.SetDestination? || step.SetProgress?)
    ensures StillHolds(Next(s, step), was)
  {
    var i :| 0 <= i < |s.records| && s.records[i] == was;
    assert Next(s, step).records[i] in Next(s, step).records;
  }

  lemma HolderSurvivesRemoval(s: State, id: int, was: Record)
    requires was in s.records && !IsTerminal(was)
    ensures was in Removed(s, id).records
  {
    var at := Find(s.records, id);
    if at >= 0 && IsTerminal(s.records[at]) {
      var i :| 0 <= i < |s.records| && s.records[i] == was;
      assert Removed(s, id).records[if i < at then i else i - 1] == was;
    }
  }

  lemma HolderFinishes(s: State, id: int, progress: Progress, error: string, ticks: nat, was: Record)
    requires IdsAreOwn(s) && EndedHoldNothing(s) && was in s.records && !HoldsNothing(was)
    ensures var s' := FinishedWith(s, id, progress, error, ticks); StillHolds(s', was) || HandedBack(s, s', was)
  {
    var s' := FinishedWith(s, id, progress, error, ticks);
    FindFinds(s, was);
    var at := Find(s.records, was.id);
    assert s'.records[at] in s'.records;
    if id == was.id {
      assert s'.returned[|s.returned|..] == Held(was);
    }
  }

  lemma HolderIsTaken(s: State, was: Record)
    requires IdsAreOwn(s) && was in s.records && !HoldsNothing(was)
    ensures HandedBack(s, LiveTaken(s), was)
  {
    LetGoAre(s.records);
    var i :| 0 <= i < |s.records| && s.records[i] == was;
    assert LetGo(s.records)[i] in LetGo(s.records);
    LiveHolds(s.records, was);
    assert LiveTaken(s).returned[|s.returned|..] == LiveOf(s.records);
  }

  lemma {:induction false} LiveHolds(records: seq<Record>, record: Record)
    requires record in records && !HoldsNothing(record)
    ensures record.download in LiveOf(records)
  {
    if records[0] != record {
      LiveHolds(records[1..], record);
    }
  }

  // --- What is remembered ---------------------------------------------------------------------

  /** The finished downloads a run knows of. */
  function Remembered(s: State): seq<Record> {
    if s.loaded then Newest(TerminalOf(s.records)) else s.disk
  }

  lemma {:induction false} LetGoIsSame(records: seq<Record>)
    ensures TerminalOf(LetGo(records)) == TerminalOf(records)
  {
    if records != [] {
      LetGoIsSame(records[1..]);
    }
  }

  /** Taking the live objects, which is how a run ends, leaves the remembered downloads in
      the file exactly when the file had been loaded, or had nothing in it. */
  lemma TakingForgetsUnlessLoaded(disk: seq<Record>, steps: seq<Step>)
    requires forall r <- disk :: HoldsNothing(r)
    ensures var s := Run(disk, steps);
            LiveTaken(s).disk == Remembered(s) <==> s.loaded || s.disk == []
  {
    EveryRunKeepsInv(disk, steps);
    LetGoIsSame(Run(disk, steps).records);
  }

  /** A run that ends the moment it starts loses what the one before remembered. */
  lemma UnloadedRunForgets(record: Record)
    requires HoldsNothing(record)
    ensures LiveTaken(Start([record])).disk == []
  {
  }

  lemma {:induction false} NumberedAreSame(records: seq<Record>, id: int)
    requires forall r <- records :: IsTerminal(r) && Kept(r) == r
    ensures TerminalOf(Numbered(records, id)) == records
  {
    if records != [] {
      assert records[0] in records;
      NumberedAreSame(records[1..], id + 1);
      assert Kept(records[0].(id := id)) == records[0];
    }
  }

  /** What a loaded run leaves behind is what the next one loads, ids apart. */
  lemma NextRunRemembers(disk: seq<Record>, steps: seq<Step>)
    requires (forall r <- disk :: HoldsNothing(r)) && Run(disk, steps).loaded
    ensures var left := LiveTaken(Run(disk, steps)).disk;
            && left == Remembered(Run(disk, steps))
            && Remembered(Loaded(Start(left))) == left
            && Decoded(Encoded(LiveTaken(Run(disk, steps)).records)) == left
  {
    var s := Run(disk, steps);
    LetGoIsSame(s.records);
    var left := LiveTaken(s).disk;
    TerminalAreKept(LetGo(s.records));
    NumberedAreSame(left, 1);
    assert Loaded(Start(left)).records == Numbered(left, 1);
    DecodeUndoesEncode(LiveTaken(s).records);
  }
}
