/** Saving the downloads: the list is copied under the lock and the copy written after
    the lock was let go, so two threads' writes can pass one another. */
module DownloadSaves {
  import opened DownloadsFile
  import opened Downloads

  /** The list, whose disk is what the file holds now; every copy ever taken; which of
      them are still to be written, oldest first; and which was written last, if any. */
  datatype Saving = Saving(list: State, taken: seq<seq<Record>>, waiting: seq<nat>, last: int)

  /** Whether a call takes a copy of the list to be written. */
  predicate Saves(s: State, step: Step) {
    match step
    case Finish(id, progress, _, _) =>
      var at := Find(Loaded(s).records, id);
      !progress.Starting? && !progress.Running? && at >= 0 && !IsTerminal(Loaded(s).records[at])
    case TakeLive => true
    case Remove(id) =>
      var at := Find(Loaded(s).records, id);
      at >= 0 && IsTerminal(Loaded(s).records[at])
    case ClearTerminal => |Unfinished(Loaded(s).records)| != |Loaded(s).records|
    case _ => false
  }

  /** A call that does not save leaves the file alone; one that does, means it to hold
      the newest ended records. */
  lemma SavesIsSaving(s: State, step: Step)
    ensures Next(s, step).disk == if Saves(s, step) then Newest(TerminalOf(Next(s, step).records)) else s.disk
  {
  }

  datatype Event = Call(step: Step) | Write(at: nat)

  function Called(s: Saving, step: Step): Saving {
    var after := Next(s.list, step);
    if Saves(s.list, step) then
      s.(list := after.(disk := s.list.disk), taken := s.taken + [after.disk], waiting := s.waiting + [|s.taken|])
    else s.(list := after)
  }

  function Written(s: Saving, at: nat): Saving {
    if at < |s.waiting| && s.waiting[at] < |s.taken| then
      s.(list := s.list.(disk := s.taken[s.waiting[at]]), last := s.waiting[at],
         waiting := s.waiting[..at] + s.waiting[at + 1..])
    else s
  }

  function After(s: Saving, event: Event): Saving {
    match event
    case Call(step) => Called(s, step)
    case Write(at) => Written(s, at)
  }

  function Run(disk: seq<Record>, events: seq<Event>): Saving {
    if events == [] then Saving(Start(disk), [], [], -1)
    else After(Run(disk, events[..|events| - 1]), events[|events| - 1])
  }

  /** The file holds one whole copy, or what it held at the start. */
  predicate FileIsWhole(s: Saving, disk: seq<Record>) {
    -1 <= s.last < |s.taken| && s.list.disk == if s.last < 0 then disk else s.taken[s.last]
  }

  lemma {:induction false} FileIsAlwaysWhole(disk: seq<Record>, events: seq<Event>)
    ensures FileIsWhole(Run(disk, events), disk)
  {
    if events != [] {
      FileIsAlwaysWhole(disk, events[..|events| - 1]);
      var (s, event) := (Run(disk, events[..|events| - 1]), events[|events| - 1]);
      if event.Call? {
        SavesIsSaving(s.list, event.step);
      }
    }
  }

  // --- When the file holds the newest copy ------------------------------------------------

  /** Whether the newest copy was written while an older one was still waiting, so that
      the older one is written over it. */
  predicate Overtook(disk: seq<Record>, events: seq<Event>) {
    events != [] &&
    var (before, s) := (Overtook(disk, events[..|events| - 1]), Run(disk, events[..|events| - 1]));
    match events[|events| - 1]
    case Call(step) => before && !Saves(s.list, step)
    case Write(at) => if WritesNewest(s, at) then at > 0 else before
  }

  predicate WritesNewest(s: Saving, at: nat) {
    at < |s.waiting| && s.waiting[at] == |s.taken| - 1
  }

  /** Copies wait in the order they were taken, and none of them has been written. */
  predicate Waits(s: Saving) {
    && -1 <= s.last < |s.taken| && s.last !in s.waiting
    && (forall i :: 0 <= i < |s.waiting| ==> s.waiting[i] < |s.taken|)
    && (forall i, j :: 0 <= i < j < |s.waiting| ==> s.waiting[i] < s.waiting[j])
  }

  /** What having been overtaken means for the newest copy: while it waits, nothing;
      once written, that an older one has been written after it or is going to be. */
  predicate IsMarked(s: Saving, overtaken: bool) {
    if s.taken == [] then s.waiting == [] && s.last == -1 && !overtaken
    else if |s.taken| - 1 in s.waiting then !overtaken && s.last < |s.taken| - 1
    else s.last >= 0 && (overtaken <==> s.waiting != [] || s.last < |s.taken| - 1)
  }

  lemma CallKeepsMark(s: Saving, step: Step, overtaken: bool)
    requires Waits(s) && IsMarked(s, overtaken)
    ensures Waits(Called(s, step)) && IsMarked(Called(s, step), overtaken && !Saves(s.list, step))
  {
    if Saves(s.list, step) {
      assert Called(s, step).waiting[|s.waiting|] == |s.taken|;
    }
  }

  lemma WriteKeepsWaits(s: Saving, at: nat)
    requires Waits(s) && at < |s.waiting|
    ensures Waits(Written(s, at)) && Written(s, at).taken == s.taken && Written(s, at).last == s.waiting[at]
    ensures forall k :: k in Written(s, at).waiting <==> k in s.waiting && k != s.waiting[at]
  {
    var (was, left) := (s.waiting, Written(s, at).waiting);
    assert was == was[..at] + [was[at]] + was[at + 1..];
    forall i | 0 <= i < |left|
      ensures left[i] == was[if i < at then i else i + 1]
    {
    }
  }

  /** The newest copy is the last that waits: it is alone exactly when it is first. */
  lemma NewestIsLast(s: Saving, at: nat)
    requires Waits(s) && WritesNewest(s, at)
    ensures at == |s.waiting| - 1
  {
    var last := |s.waiting| - 1;
    assert s.waiting[last] < |s.taken|;
  }

  lemma WriteKeepsMark(s: Saving, at: nat, overtaken: bool)
    requires Waits(s) && IsMarked(s, overtaken)
    ensures Waits(Written(s, at))
    ensures IsMarked(Written(s, at), if WritesNewest(s, at) then at > 0 else overtaken)
  {
    if at < |s.waiting| {
      WriteKeepsWaits(s, at);
      if WritesNewest(s, at) {
        NewestIsLast(s, at);
      } else {
        assert s.waiting[at] in s.waiting && s.waiting[at] < |s.taken| - 1;
      }
    }
  }

  lemma {:induction false} EveryRunIsMarked(disk: seq<Record>, events: seq<Event>)
    ensures Waits(Run(disk, events)) && IsMarked(Run(disk, events), Overtook(disk, events))
  {
    if events != [] {
      var (s, before) := (Run(disk, events[..|events| - 1]), Overtook(disk, events[..|events| - 1]));
      EveryRunIsMarked(disk, events[..|events| - 1]);
      match events[|events| - 1]
      case Call(step) => CallKeepsMark(s, step, before);
      case Write(at) => WriteKeepsMark(s, at, before);
    }
  }

  /** Once nothing waits, the newest copy is the one written last exactly when it was not
      overtaken, and the file holds it exactly then - or when the copy written over it
      happens to say the same. */
  predicate NewestUnless(s: Saving, overtaken: bool) {
    s.waiting == [] && s.taken != [] ==>
      && 0 <= s.last < |s.taken|
      && (s.last == |s.taken| - 1 <==> !overtaken)
      && (s.list.disk == s.taken[|s.taken| - 1] <==> !overtaken || s.taken[s.last] == s.taken[|s.taken| - 1])
  }

  lemma MarkedIsNewestUnless(s: Saving, overtaken: bool, disk: seq<Record>)
    requires IsMarked(s, overtaken) && FileIsWhole(s, disk)
    ensures NewestUnless(s, overtaken)
  {
  }

  /** After every run, a file nobody is writing to holds the newest copy exactly when that
      copy was not written past an older one. */
  lemma QuietFileIsNewestExactly(disk: seq<Record>, events: seq<Event>)
    ensures NewestUnless(Run(disk, events), Overtook(disk, events))
  {
    EveryRunIsMarked(disk, events);
    FileIsAlwaysWhole(disk, events);
    MarkedIsNewestUnless(Run(disk, events), Overtook(disk, events), disk);
  }

  /** Only the oldest waiting copy is ever written. */
  predicate InOrder(events: seq<Event>) {
    forall i :: 0 <= i < |events| && events[i].Write? ==> events[i].at == 0
  }

  lemma {:induction false} OrderNeverOvertakes(disk: seq<Record>, events: seq<Event>)
    requires InOrder(events)
    ensures !Overtook(disk, events)
  {
    if events != [] {
      OrderNeverOvertakes(disk, events[..|events| - 1]);
    }
  }

  /** So it does while the copies are written in the order they were taken. */
  lemma QuietFileIsNewest(disk: seq<Record>, events: seq<Event>)
    requires InOrder(events)
    ensures NewestUnless(Run(disk, events), false) && FileIsWhole(Run(disk, events), disk)
  {
    OrderNeverOvertakes(disk, events);
    QuietFileIsNewestExactly(disk, events);
    FileIsAlwaysWhole(disk, events);
  }

  // --- Writes that pass one another -------------------------------------------------------

  function Begun(id: int, url: string): Record {
    Record(id, Starting, 0, url, url, "", "", "", 0, -1, 0)
  }

  function Over(id: int, url: string, ticks: nat): Record {
    Ended(Begun(id, url), Cancelled, "", ticks)
  }

  lemma TwoRunning(a: string, b: string)
    ensures var s := Next(Next(Next(Start([]), Look), Add(a, 0, a)), Add(b, 0, b));
            s.records == [Begun(2, b), Begun(1, a)] && s.loaded && s.disk == []
  {
  }

  lemma TerminalOfTwo(one: Record, other: Record)
    ensures TerminalOf([one, other])
         == (if IsTerminal(one) then [Kept(one)] else []) + (if IsTerminal(other) then [Kept(other)] else [])
  {
    assert [one, other][1..] == [other] && [other][1..] == [];
    assert TerminalOf([other]) == if IsTerminal(other) then [Kept(other)] else [];
  }

  lemma FirstOver(s: State, a: string, b: string, ticks: nat)
    requires s.records == [Begun(2, b), Begun(1, a)] && s.loaded
    ensures var step := Finish(1, Cancelled, "", ticks);
            && Saves(s, step) && Next(s, step).records == [Begun(2, b), Over(1, a, ticks)]
            && Next(s, step).loaded && Next(s, step).disk == [Kept(Over(1, a, ticks))]
  {
    assert Find(s.records[1..], 1) == 0 && Find(s.records, 1) == 1;
    TerminalOfTwo(Begun(2, b), Over(1, a, ticks));
  }

  lemma SecondOver(s: State, a: string, b: string, ticks: nat)
    requires s.records == [Begun(2, b), Over(1, a, ticks)] && s.loaded
    ensures var step := Finish(2, Cancelled, "", ticks);
            && Saves(s, step) && Next(s, step).loaded
            && Next(s, step).records == [Over(2, b, ticks), Over(1, a, ticks)]
            && Next(s, step).disk == [Kept(Over(2, b, ticks)), Kept(Over(1, a, ticks))]
  {
    TerminalOfTwo(Over(2, b, ticks), Over(1, a, ticks));
  }

  lemma CrossedFrom(s: Saving, a: string, b: string, ticks: nat)
    requires s.list.records == [Begun(2, b), Begun(1, a)] && s.list.loaded && s.taken == [] && s.waiting == []
    ensures var one := After(s, Call(Finish(1, Cancelled, "", ticks)));
            var two := After(one, Call(Finish(2, Cancelled, "", ticks)));
            var four := After(After(two, Write(1)), Write(0));
            && four.waiting == [] && four.list.records == [Over(2, b, ticks), Over(1, a, ticks)]
            && four.list.disk == [Kept(Over(1, a, ticks))]
  {
    FirstOver(s.list, a, b, ticks);
    var one := After(s, Call(Finish(1, Cancelled, "", ticks)));
    assert one.waiting == [0] && one.taken == [[Kept(Over(1, a, ticks))]];
    SecondOver(one.list, a, b, ticks);
    var two := After(one, Call(Finish(2, Cancelled, "", ticks)));
    assert two.waiting == [0, 1] && |two.taken| == 2 && two.taken[0] == [Kept(Over(1, a, ticks))];
    CrossedWrites(two);
  }

  lemma CrossedWrites(s: Saving)
    requires s.waiting == [0, 1] && |s.taken| == 2
    ensures var after := After(After(s, Write(1)), Write(0));
            after.waiting == [] && after.list == s.list.(disk := s.taken[0])
  {
    assert After(s, Write(1)).waiting == [0];
  }

  /** Two downloads end, one call after the other, and their writes pass one another:
      the list knows both, nothing is left to be written, and the file knows one. */
  lemma CrossedWritesForget(a: string, b: string, ticks: nat)
    ensures var begin := [Call(Look), Call(Add(a, 0, a)), Call(Add(b, 0, b))];
            var ends := [Call(Finish(1, Cancelled, "", ticks)), Call(Finish(2, Cancelled, "", ticks)),
                         Write(1), Write(0)];
            var s := Run([], begin + ends);
            && s.waiting == [] && s.list.records == [Over(2, b, ticks), Over(1, a, ticks)]
            && s.list.disk == [Kept(Over(1, a, ticks))]
  {
    TwoBegun(a, b);
    var begin := [Call(Look), Call(Add(a, 0, a)), Call(Add(b, 0, b))];
    CrossedFrom(Run([], begin), a, b, ticks);
    RunOfMore([], begin, Call(Finish(1, Cancelled, "", ticks)), Call(Finish(2, Cancelled, "", ticks)),
              Write(1), Write(0));
  }

  lemma TwoBegun(a: string, b: string)
    ensures var s := Run([], [Call(Look), Call(Add(a, 0, a)), Call(Add(b, 0, b))]);
            s.list.records == [Begun(2, b), Begun(1, a)] && s.list.loaded && s.taken == [] && s.waiting == []
  {
    TwoRunning(a, b);
    RunOfThree([], Call(Look), Call(Add(a, 0, a)), Call(Add(b, 0, b)));
  }

  lemma RunOfThree(disk: seq<Record>, a: Event, b: Event, c: Event)
    ensures Run(disk, [a, b, c]) == After(After(After(Run(disk, []), a), b), c)
  {
    assert [a, b, c][..2] == [a, b] && [a, b][..1] == [a] && [a][..0] == [];
    assert Run(disk, [a]) == After(Run(disk, []), a);
    assert Run(disk, [a, b]) == After(Run(disk, [a]), b);
  }

  lemma RunPlus(disk: seq<Record>, events: seq<Event>, event: Event)
    ensures Run(disk, events + [event]) == After(Run(disk, events), event)
  {
    assert (events + [event])[..|events|] == events;
  }

  lemma RunOfMore(disk: seq<Record>, begin: seq<Event>, a: Event, b: Event, c: Event, d: Event)
    ensures Run(disk, begin + [a, b, c, d]) == After(After(After(After(Run(disk, begin), a), b), c), d)
  {
    RunPlus(disk, begin, a);
    RunPlus(disk, begin + [a], b);
    RunPlus(disk, begin + [a] + [b], c);
    RunPlus(disk, begin + [a] + [b] + [c], d);
    assert begin + [a] + [b] + [c] + [d] == begin + [a, b, c, d];
  }
}
