/** Whole runs of registry commands. */
module TabRuns {
  import opened Tabs

  datatype Command =
    | OpenTab(id: int, index: int, foreground: bool, configured: bool, view: View, load: Load)
    | OpenedByPage(arrival: Arrival)
    | CloseTab(id: int, arrivals: seq<Arrival>)
    | CloseOtherTabs(id: int, batches: seq<seq<Arrival>>)
    | CloseAllTabs(batches: seq<seq<Arrival>>)
    | ReopenClosed(id: int, ready: bool, configured: bool, view: View, load: Load)
    | SelectTab(id: int)
    | SelectIndex(index: int)
    | SelectNext
    | SelectPrevious
    | MoveTab(id: int, toIndex: int)
    | PinTab(id: int, pinned: bool)
    | LoadTab(id: int, load: Load)

  function Applied(r: Registry, c: Command): Registry {
    match c
    case OpenTab(id, index, foreground, configured, view, load) =>
      Open(r, id, index, foreground, configured, view, load)
    case OpenedByPage(arrival) => Arrive(r, [arrival])
    case CloseTab(id, arrivals) => Close(r, id, arrivals)
    case CloseOtherTabs(id, batches) => CloseOthers(r, id, batches)
    case CloseAllTabs(batches) => CloseAll(r, batches)
    case ReopenClosed(id, ready, configured, view, load) => Reopen(r, id, ready, configured, view, load)
    case SelectTab(id) => Select(r, id)
    case SelectIndex(index) => SelectAtIndex(r, index)
    case SelectNext => SelectAdjacent(r, 1)
    case SelectPrevious => SelectAdjacent(r, -1)
    case MoveTab(id, toIndex) => Move(r, id, toIndex)
    case PinTab(id, pinned) => SetPinned(r, id, pinned)
    case LoadTab(id, load) => LoadIn(r, id, load)
  }

  lemma SelectAny(r: Registry, id: int)
    requires Inv(r)
    ensures Inv(Select(r, id))
  {
    if HasTab(r, id) {
      SelectKeepsInv(r, id);
    }
  }

  lemma {:induction false} CloseEachKeepsInv(r: Registry, ids: seq<int>, batches: seq<seq<Arrival>>)
    requires Inv(r)
    ensures Inv(CloseEach(r, ids, batches))
    decreases |ids|
  {
    if ids != [] {
      CloseKeepsInv(r, ids[0], During(batches, 0));
      CloseEachKeepsInv(Close(r, ids[0], During(batches, 0)), ids[1..], if batches == [] then [] else batches[1..]);
    }
  }

  lemma {:induction false} RememberAllKeeps(closed: seq<ClosedTab>, tabs: seq<Tab>, from: nat)
    requires Remembered(closed) && from <= |tabs|
    ensures Remembered(RememberAll(closed, tabs, from))
    decreases |tabs| - from
  {
    if from < |tabs| {
      RememberKeeps(closed, tabs[from], from);
      RememberAllKeeps(Remember(closed, tabs[from], from), tabs, from + 1);
    }
  }

  lemma {:induction false} DestroyAllEmpties(r: Registry, batches: seq<seq<Arrival>>)
    ensures DestroyAll(r, batches).tabs == [] && DestroyAll(r, batches).closed == r.closed
    decreases |batches|, |r.tabs|
  {
    if r.tabs != [] {
      var popped := r.(tabs := r.tabs[..|r.tabs| - 1]);
      if batches == [] {
        DestroyAllEmpties(popped, []);
      } else {
        DestroyAllEmpties(Arrive(popped, batches[0]), batches[1..]);
      }
    }
  }

  /** Closing everything leaves nothing open, whatever opens itself meanwhile. */
  lemma CloseAllKeepsInv(r: Registry, batches: seq<seq<Arrival>>)
    requires Inv(r)
    ensures Inv(CloseAll(r, batches)) && CloseAll(r, batches).tabs == []
  {
    if r.tabs != [] {
      RememberAllKeeps(r.closed, r.tabs, 0);
      DestroyAllEmpties(r.(active := 0, closed := RememberAll(r.closed, r.tabs, 0)), batches);
    }
  }

  lemma PopKeepsInv(r: Registry)
    requires Inv(r) && r.closed != []
    ensures Inv(r.(closed := r.closed[..|r.closed| - 1]))
  {
  }

  lemma ReopenKeepsInv(r: Registry, id: int, ready: bool, configured: bool, view: View, load: Load)
    requires Inv(r)
    ensures Inv(Reopen(r, id, ready, configured, view, load))
  {
    if r.closed != [] && ready {
      var last := r.closed[|r.closed| - 1];
      var popped := r.(closed := r.closed[..|r.closed| - 1]);
      PopKeepsInv(r);
      var made := Create(popped, id, last.index, last.pinned, true, view);
      CreateKeepsInv(popped, id, last.index, last.pinned, true, view);
      LoadKeepsInv(made, id, last.title, load);
      LoadKeepsInv(Entitle(made, id, last.title), id, last.title, load);
    }
  }

  lemma StillThere(tabs: seq<Tab>, from: int, at: int, tab: Tab, i: int) returns (k: int)
    requires 0 <= from < |tabs| && 0 <= at < |tabs| && tab.id == tabs[from].id && 0 <= i < |tabs|
    ensures var tabs' := Inserted(Removed(tabs, from), at, tab);
            0 <= k < |tabs'| && tabs'[k].id == tabs[i].id
  {
    var rest := Removed(tabs, from);
    InsertedHolds(rest, at, tab);
    if i == from {
      k := at;
    } else {
      var j := if i < from then i else i - 1;
      assert rest[j] == tabs[i];
      k := if j < at then j else j + 1;
    }
  }

  lemma ReinsertedHolds(tabs: seq<Tab>, from: int, at: int, tab: Tab, id: int)
    requires 0 <= from < |tabs| && 0 <= at < |tabs| && tab.id == tabs[from].id
    requires IndexOf(tabs, id) >= 0
    ensures IndexOf(Inserted(Removed(tabs, from), at, tab), id) >= 0
  {
    IndexOfFinds(tabs, id);
    IndexOfFinds(Inserted(Removed(tabs, from), at, tab), id);
    var k := StillThere(tabs, from, at, tab, IndexOf(tabs, id));
  }

  lemma ReinsertKeepsInv(r: Registry, from: int, at: int, tab: Tab)
    requires Inv(r) && 0 <= from < |r.tabs| && 0 <= at < |r.tabs| && tab.id == r.tabs[from].id
    requires var rest := Removed(r.tabs, from);
             if tab.pinned then at <= PinnedCount(rest) else at >= PinnedCount(rest)
    ensures Inv(Publish(r.(tabs := Inserted(Removed(r.tabs, from), at, tab))))
  {
    RemoveKeepsOrder(r.tabs, from);
    InsertKeepsOrder(Removed(r.tabs, from), at, tab);
    ReinsertedHolds(r.tabs, from, at, tab, r.active);
  }

  lemma MoveKeepsInv(r: Registry, id: int, toIndex: int)
    requires Inv(r)
    ensures Inv(Move(r, id, toIndex))
  {
    var from := IndexOf(r.tabs, id);
    if from >= 0 {
      IndexOfFinds(r.tabs, id);
      var rest := Removed(r.tabs, from);
      ClampIsInGroup(rest, toIndex, r.tabs[from].pinned);
      ReinsertKeepsInv(r, from, ClampInsertIndex(rest, toIndex, r.tabs[from].pinned), r.tabs[from]);
    }
  }

  lemma SetPinnedKeepsInv(r: Registry, id: int, pinned: bool)
    requires Inv(r)
    ensures Inv(SetPinned(r, id, pinned))
  {
    var from := IndexOf(r.tabs, id);
    if from >= 0 {
      IndexOfFinds(r.tabs, id);
      var rest := Removed(r.tabs, from);
      PinnedCountBound(rest);
      ReinsertKeepsInv(r, from, PinnedCount(rest), r.tabs[from].(pinned := pinned));
    }
  }

  lemma OpenKeepsInv(r: Registry, c: Command)
    requires Inv(r) && c.OpenTab?
    ensures Inv(Applied(r, c))
  {
    CreateKeepsInv(r, c.id, c.index, false, c.foreground, c.view);
    LoadKeepsInv(Create(r, c.id, c.index, false, c.foreground, c.view), c.id, [], c.load);
  }

  lemma SelectingKeepsInv(r: Registry, c: Command)
    requires Inv(r) && (c.SelectTab? || c.SelectIndex? || c.SelectNext? || c.SelectPrevious?)
    ensures Inv(Applied(r, c))
  {
    match c
    case SelectTab(id) => SelectAny(r, id);
    case SelectIndex(index) =>
      if 0 <= index < |r.tabs| {
        SelectAny(r, r.tabs[index].id);
      }
    case SelectNext =>
      if r.tabs != [] {
        SelectAny(r, r.tabs[(IndexOrZero(r) + 1) % |r.tabs|].id);
      }
    case SelectPrevious =>
      if r.tabs != [] {
        SelectAny(r, r.tabs[(IndexOrZero(r) - 1) % |r.tabs|].id);
      }
  }

  lemma CloseOthersKeepsInv(r: Registry, id: int, batches: seq<seq<Arrival>>)
    requires Inv(r)
    ensures Inv(CloseOthers(r, id, batches))
  {
    SelectAny(r, id);
    CloseEachKeepsInv(Select(r, id), Others(Select(r, id).tabs, id), batches);
  }

  lemma AppliedKeepsInv(r: Registry, c: Command)
    requires Inv(r)
    ensures Inv(Applied(r, c))
  {
    match c
    case OpenTab(_, _, _, _, _, _) => OpenKeepsInv(r, c);
    case OpenedByPage(arrival) => ArriveKeepsOrder(r, [arrival]);
    case CloseTab(id, arrivals) => CloseKeepsInv(r, id, arrivals);
    case CloseOtherTabs(id, batches) => CloseOthersKeepsInv(r, id, batches);
    case CloseAllTabs(batches) => CloseAllKeepsInv(r, batches);
    case ReopenClosed(id, ready, configured, view, load) => ReopenKeepsInv(r, id, ready, configured, view, load);
    case MoveTab(id, toIndex) => MoveKeepsInv(r, id, toIndex);
    case PinTab(id, pinned) => SetPinnedKeepsInv(r, id, pinned);
    case LoadTab(id, load) => LoadKeepsInv(r, id, [], load);
    case _ => SelectingKeepsInv(r, c);
  }

  function IndexOrZero(r: Registry): int {
    var at := IndexOf(r.tabs, r.active);
    if at < 0 then 0 else at
  }

  function Run(commands: seq<Command>): Registry {
    if commands == [] then EMPTY else Applied(Run(commands[..|commands| - 1]), commands[|commands| - 1])
  }

  /** After every command of every run: pinned tabs first, ids distinct, the active
      tab listed exactly when there is one, at most 24 tabs to reopen, and the
      host's copy of the list and of the selection up to date. */
  lemma {:induction false} EveryRunKeepsInv(commands: seq<Command>)
    ensures Inv(Run(commands))
  {
    if commands != [] {
      EveryRunKeepsInv(commands[..|commands| - 1]);
      AppliedKeepsInv(Run(commands[..|commands| - 1]), commands[|commands| - 1]);
    }
  }

  // --- The published depth of the reopen stack -----------------------------------------

  /** A reopening whose tab could not be made takes an entry without saying so. */
  predicate LosesCount(r: Registry, c: Command) {
    c.ReopenClosed? && r.closed != [] && c.ready && (!c.configured || !CanCreate(r, c.id, c.view))
  }

  ghost predicate Counts(r: Registry) {
    r.publishedClosed == |r.closed|
  }

  lemma CreateCounts(r: Registry, id: int, index: int, pinned: bool, foreground: bool, view: View)
    requires Inv(r)
    ensures CanCreate(r, id, view) || Counts(r) ==> Counts(Create(r, id, index, pinned, foreground, view))
  {
    if CanCreate(r, id, view) {
      var at := ClampInsertIndex(r.tabs, index, pinned);
      var tab := Tab(id, pinned, view.page.title, view.page.url);
      InsertedHolds(r.tabs, at, tab);
      HasTabIs(r.(tabs := Inserted(r.tabs, at, tab)), id);
    }
  }

  lemma CloseCounts(r: Registry, id: int, arrivals: seq<Arrival>)
    requires Inv(r) && Counts(r)
    ensures Counts(Close(r, id, arrivals))
  {
    var at := IndexOf(r.tabs, id);
    if at >= 0 && r.active == id {
      CloseKeepsInv(r, id, arrivals);
      IndexOfFinds(r.tabs, id);
      var held := Arrive(r.(closed := Remember(r.closed, r.tabs[at], at)), arrivals);
      var r' := held.(tabs := Removed(held.tabs, at), active := 0);
      if r'.tabs != [] {
        ArriveKeepsOrder(r.(closed := Remember(r.closed, r.tabs[at], at)), arrivals);
        var next := r'.tabs[if at >= |r'.tabs| then |r'.tabs| - 1 else at];
        HasTabIs(r', next.id);
      }
    }
  }

  lemma {:induction false} CloseEachCounts(r: Registry, ids: seq<int>, batches: seq<seq<Arrival>>)
    requires Inv(r) && Counts(r)
    ensures Counts(CloseEach(r, ids, batches))
    decreases |ids|
  {
    if ids != [] {
      CloseCounts(r, ids[0], During(batches, 0));
      CloseKeepsInv(r, ids[0], During(batches, 0));
      CloseEachCounts(Close(r, ids[0], During(batches, 0)), ids[1..], if batches == [] then [] else batches[1..]);
    }
  }

  lemma ReopenCounts(r: Registry, id: int, ready: bool, configured: bool, view: View, load: Load)
    requires Inv(r) && Counts(r)
    ensures Counts(Reopen(r, id, ready, configured, view, load)) <==>
            !LosesCount(r, ReopenClosed(id, ready, configured, view, load))
  {
    if r.closed != [] && ready && configured {
      var last := r.closed[|r.closed| - 1];
      var popped := r.(closed := r.closed[..|r.closed| - 1]);
      PopKeepsInv(r);
      CreateCounts(popped, id, last.index, last.pinned, true, view);
    }
  }

  /** The published depth stays right through a command exactly when the command is
      not such a reopening. */
  lemma CountIsPublished(r: Registry, c: Command)
    requires Inv(r) && Counts(r)
    ensures Counts(Applied(r, c)) <==> !LosesCount(r, c)
  {
    match c
    case OpenTab(id, index, foreground, configured, view, load) =>
      CreateCounts(r, id, index, false, foreground, view);
    case OpenedByPage(arrival) =>
      CreateCounts(r, arrival.id, -1, false, true, arrival.view);
      assert Arrive(r, [arrival]) == Create(r, arrival.id, -1, false, true, arrival.view);
    case CloseTab(id, arrivals) => CloseCounts(r, id, arrivals);
    case CloseOtherTabs(id, batches) =>
      SelectAny(r, id);
      CloseEachCounts(Select(r, id), Others(Select(r, id).tabs, id), batches);
    case ReopenClosed(id, ready, configured, view, load) => ReopenCounts(r, id, ready, configured, view, load);
    case _ =>
  }

  /** One tab closed, and its reopening given up for want of an engine: nothing is left
      to reopen, and the host is told there is one. */
  lemma CountIsLost(url: string)
    requires url != []
    ensures var opening := OpenTab(1, -1, true, true, Shown(Page("", url)), NotIssued);
            var r := Run([opening, CloseTab(1, []), ReopenClosed(2, true, false, NoView, NotIssued)]);
            r.closed == [] && r.publishedClosed == 1
  {
    var opening := OpenTab(1, -1, true, true, Shown(Page("", url)), NotIssued);
    var reopening := ReopenClosed(2, true, false, NoView, NotIssued);
    var tab := Tab(1, false, "", url);
    RunOfThree(opening, CloseTab(1, []), reopening);
    var one := Applied(EMPTY, opening);
    OneIsOpened(tab);
    assert one.tabs == [tab] && one.closed == [] && one.active == 1;
    var two := Applied(one, CloseTab(1, []));
    OneIsClosed(one, tab);
    assert Applied(two, reopening) == two.(closed := two.closed[..0]);
  }

  lemma RunOfThree(a: Command, b: Command, c: Command)
    ensures Run([a, b, c]) == Applied(Applied(Applied(EMPTY, a), b), c)
  {
    assert [a, b, c][..2] == [a, b] && [a, b][..1] == [a] && [a][..0] == [];
    assert Run([a]) == Applied(EMPTY, a);
    assert Run([a, b]) == Applied(Run([a]), b);
  }

  lemma OneIsOpened(tab: Tab)
    requires tab.id == 1 && !tab.pinned
    ensures var r := Create(EMPTY, 1, -1, false, true, Shown(Page(tab.title, tab.url)));
            r.tabs == [tab] && r.closed == [] && r.active == 1
  {
    var none: seq<Tab> := [];
    assert Inserted(none, 0, tab) == [tab];
  }

  lemma OneIsClosed(r: Registry, tab: Tab)
    requires r.tabs == [tab] && tab.url != [] && r.closed == [] && r.active == tab.id
    ensures Close(r, tab.id, []).closed == [ClosedTab(tab.url, tab.title, 0, tab.pinned)]
    ensures Close(r, tab.id, []).publishedClosed == 1
  {
    assert Removed([tab], 0) == [];
  }
}
