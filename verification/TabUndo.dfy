/** Closing tabs and opening them again. */
module TabUndo {
  import opened Sequences
  import opened Tabs
  import opened TabRuns
  import opened TabRedeal

  function SlotOf(tab: Tab): Slot {
    Slot(tab.url, tab.pinned)
  }

  function SlotsOf(tabs: seq<Tab>): seq<Slot> {
    seq(|tabs|, i requires 0 <= i < |tabs| => SlotOf(tabs[i]))
  }

  /** A reopening that succeeds: the id reserved for it, what the new page reports
      before and after the load. */
  datatype Reopening = Reopening(id: int, blank: Page, loaded: Page)

  function ReopenWith(r: Registry, e: Reopening): Registry {
    Reopen(r, e.id, true, true, Shown(e.blank), Issued(e.loaded))
  }

  /** The id is new and the page reports the address it was asked to load. */
  predicate Succeeds(r: Registry, e: Reopening) {
    r.closed != [] && e.id > 0 && !HasTab(r, e.id) && e.loaded.url == r.closed[|r.closed| - 1].url
  }

  function ReopenEach(r: Registry, es: seq<Reopening>): Registry {
    if es == [] then r else ReopenWith(ReopenEach(r, es[..|es| - 1]), es[|es| - 1])
  }

  predicate AllSucceed(r: Registry, es: seq<Reopening>) {
    es == [] || (AllSucceed(r, es[..|es| - 1]) && Succeeds(ReopenEach(r, es[..|es| - 1]), es[|es| - 1]))
  }

  /** Each tab is open, under an address, when its turn to be closed comes. */
  predicate AllClosable(r: Registry, ids: seq<int>)
    decreases |ids|
  {
    ids == [] ||
    (var at := IndexOf(r.tabs, ids[0]);
     IndexOfFinds(r.tabs, ids[0]);
     at >= 0 && r.tabs[at].url != [] && AllClosable(Close(r, ids[0], []), ids[1..]))
  }

  // --- One closing, one reopening -----------------------------------------------------

  lemma {:induction false} SameSlotsSameCount(tabs: seq<Tab>, tabs': seq<Tab>)
    requires SlotsOf(tabs) == SlotsOf(tabs')
    ensures PinnedCount(tabs) == PinnedCount(tabs')
  {
    assert |SlotsOf(tabs)| == |tabs| && |SlotsOf(tabs')| == |tabs'|;
    if tabs != [] {
      assert SlotsOf(tabs)[0] == SlotsOf(tabs')[0];
      assert SlotsOf(tabs[1..]) == SlotsOf(tabs)[1..];
      assert SlotsOf(tabs'[1..]) == SlotsOf(tabs')[1..];
      SameSlotsSameCount(tabs[1..], tabs'[1..]);
    }
  }

  lemma {:induction false} CountWithout(tabs: seq<Tab>, at: int)
    requires 0 <= at < |tabs|
    ensures PinnedCount(tabs) == PinnedCount(Removed(tabs, at)) + (if tabs[at].pinned then 1 else 0)
  {
    if at > 0 {
      CountWithout(tabs[1..], at - 1);
      assert Removed(tabs, at)[1..] == Removed(tabs[1..], at - 1);
    } else {
      assert Removed(tabs, at) == tabs[1..];
    }
  }

  /** Where a tab stood is where it may stand again once it is gone. */
  lemma OwnIndexIsKept(tabs: seq<Tab>, at: int)
    requires PinnedFirst(tabs) && 0 <= at < |tabs|
    ensures ClampInsertIndex(Removed(tabs, at), at, tabs[at].pinned) == at
  {
    PinnedArePrefix(tabs);
    CountWithout(tabs, at);
    PinnedCountBound(Removed(tabs, at));
  }

  lemma {:induction false} IndexOfInserted(tabs: seq<Tab>, at: int, tab: Tab)
    requires 0 <= at <= |tabs| && IndexOf(tabs, tab.id) < 0
    ensures IndexOf(Inserted(tabs, at, tab), tab.id) == at
  {
    if at > 0 {
      IndexOfInserted(tabs[1..], at - 1, tab);
      assert Inserted(tabs, at, tab)[1..] == Inserted(tabs[1..], at - 1, tab);
      assert tabs[0].id != tab.id;
    }
  }

  lemma CloseRemoves(r: Registry, id: int)
    requires Inv(r) && IndexOf(r.tabs, id) >= 0
    ensures var at := IndexOf(r.tabs, id);
            && at < |r.tabs| && r.tabs[at].id == id
            && Close(r, id, []).tabs == Removed(r.tabs, at)
            && Close(r, id, []).closed == Remember(r.closed, r.tabs[at], at)
  {
    IndexOfFinds(r.tabs, id);
  }

  lemma ReopenInserts(r: Registry, e: Reopening)
    requires Inv(r) && Succeeds(r, e)
    ensures var last := r.closed[|r.closed| - 1];
            var at := ClampInsertIndex(r.tabs, last.index, last.pinned);
            && ReopenWith(r, e).tabs == Inserted(r.tabs, at, Tab(e.id, last.pinned, e.loaded.title, e.loaded.url))
            && ReopenWith(r, e).closed == r.closed[..|r.closed| - 1]
  {
    var last := r.closed[|r.closed| - 1];
    var at := ClampInsertIndex(r.tabs, last.index, last.pinned);
    var popped := r.(closed := r.closed[..|r.closed| - 1]);
    var made := Create(popped, e.id, last.index, last.pinned, true, Shown(e.blank));
    CreateInserts(popped, e.id, last.index, last.pinned, e.blank);
    SettleAt(made, e.id, at, last.title, e.loaded);
    assert ReopenWith(r, e) == Settle(made, e.id, last.title, Issued(e.loaded));
  }

  lemma SettleAt(r: Registry, id: int, at: int, title: string, page: Page)
    requires 0 <= at < |r.tabs| && IndexOf(r.tabs, id) == at && id > 0
    ensures Settle(r, id, title, Issued(page)).tabs
         == r.tabs[at := r.tabs[at].(title := page.title, url := page.url)]
    ensures Settle(r, id, title, Issued(page)).closed == r.closed
  {
    RelabelAt(r, id, at, title, page);
    if title != [] {
      RelabelAt(Entitle(r, id, title), id, at, title, page);
    }
  }

  lemma CreateInserts(r: Registry, id: int, index: int, pinned: bool, page: Page)
    requires id > 0 && !HasTab(r, id)
    ensures var at := ClampInsertIndex(r.tabs, index, pinned);
            var made := Create(r, id, index, pinned, true, Shown(page));
            && made.tabs == Inserted(r.tabs, at, Tab(id, pinned, page.title, page.url))
            && made.closed == r.closed && IndexOf(made.tabs, id) == at
  {
    IndexOfFinds(r.tabs, id);
    IndexOfInserted(r.tabs, ClampInsertIndex(r.tabs, index, pinned), Tab(id, pinned, page.title, page.url));
  }

  lemma RelabelAt(r: Registry, id: int, at: int, title: string, page: Page)
    requires 0 <= at < |r.tabs| && IndexOf(r.tabs, id) == at && id > 0
    ensures Entitle(r, id, title).tabs == r.tabs[at := r.tabs[at].(title := title)]
    ensures Entitle(r, id, title).closed == r.closed && IndexOf(Entitle(r, id, title).tabs, id) == at
    ensures LoadIn(r, id, Issued(page)).tabs == r.tabs[at := r.tabs[at].(title := page.title, url := page.url)]
    ensures LoadIn(r, id, Issued(page)).closed == r.closed
  {
    SameIdsSameIndex(r.tabs, r.tabs[at := r.tabs[at].(title := title)], id);
  }

  lemma SlotsInserted(tabs: seq<Tab>, at: int, tab: Tab)
    requires 0 <= at <= |tabs|
    ensures SlotsOf(Inserted(tabs, at, tab)) == Inserted(SlotsOf(tabs), at, SlotOf(tab))
  {
  }

  lemma SlotsRemoved(tabs: seq<Tab>, at: int)
    requires 0 <= at < |tabs|
    ensures |SlotsOf(tabs)| == |tabs|
    ensures SlotsOf(Removed(tabs, at)) == Removed(SlotsOf(tabs), at)
    ensures Inserted(SlotsOf(Removed(tabs, at)), at, SlotOf(tabs[at])) == SlotsOf(tabs)
  {
  }

  // --- Any run of closings --------------------------------------------------------------

  /** The same slots, position by position, under the old id or a reserved one. */
  ghost predicate Restored(before: seq<Tab>, after: seq<Tab>, ids: seq<int>, es: seq<Reopening>) {
    && SlotsOf(before) == SlotsOf(after) && |before| == |after|
    && forall i :: 0 <= i < |before| ==>
         after[i].id == before[i].id || (before[i].id in ids && IsReserved(es, after[i].id))
  }

  /** How many entries a full stack has dropped once `more` were pushed on it. */
  function Dropped(closed: seq<ClosedTab>, more: nat): nat {
    if |closed| + more > CLOSED_TAB_HISTORY then |closed| + more - CLOSED_TAB_HISTORY else 0
  }

  lemma {:induction false} UndoRestores(r: Registry, ids: seq<int>, es: seq<Reopening>)
    requires Inv(r) && |ids| == |es| <= CLOSED_TAB_HISTORY
    requires AllClosable(r, ids) && AllSucceed(CloseEach(r, ids, []), es)
    ensures var f := ReopenEach(CloseEach(r, ids, []), es);
            && Inv(f) && Restored(r.tabs, f.tabs, ids, es)
            && (|ids| > 0 ==> Dropped(r.closed, |ids|) <= |r.closed|)
            && f.closed == r.closed[if |ids| > 0 then Dropped(r.closed, |ids|) else 0..]
    decreases |ids|
  {
    if ids != [] {
      var id, e := ids[0], es[|es| - 1];
      var at := IndexOf(r.tabs, id);
      CloseRemoves(r, id);
      CloseKeepsInv(r, id, []);
      var shut := Close(r, id, []);
      UndoRestores(shut, ids[1..], es[..|es| - 1]);
      var x := ReopenEach(CloseEach(shut, ids[1..], []), es[..|es| - 1]);
      assert x == ReopenEach(CloseEach(r, ids, []), es[..|es| - 1]);
      StackTop(r, shut, x, at, |ids| - 1);
      UndoOne(r, at, x, e);
      ReopenKeepsInv(x, e.id, true, true, Shown(e.blank), Issued(e.loaded));
      RestoredOneMore(r, shut, x, at, ids, es);
    } else {
      assert r.closed[0..] == r.closed;
    }
  }

  /** Below 24 closings the stack's top is never lost. */
  lemma StackTop(r: Registry, shut: Registry, x: Registry, at: int, more: nat)
    requires Inv(r) && 0 <= at < |r.tabs| && r.tabs[at].url != [] && more < CLOSED_TAB_HISTORY
    requires shut.closed == Remember(r.closed, r.tabs[at], at)
    requires more > 0 ==> Dropped(shut.closed, more) <= |shut.closed|
    requires x.closed == shut.closed[if more > 0 then Dropped(shut.closed, more) else 0..]
    ensures x.closed != [] && Dropped(r.closed, more + 1) <= |r.closed|
    ensures var tab := r.tabs[at]; x.closed[|x.closed| - 1] == ClosedTab(tab.url, tab.title, at, tab.pinned)
    ensures x.closed[..|x.closed| - 1] == r.closed[Dropped(r.closed, more + 1)..]
  {
  }

  lemma UndoOne(r: Registry, at: int, x: Registry, e: Reopening)
    requires Inv(r) && Inv(x) && 0 <= at < |r.tabs| && Succeeds(x, e)
    requires var tab := r.tabs[at]; x.closed[|x.closed| - 1] == ClosedTab(tab.url, tab.title, at, tab.pinned)
    requires SlotsOf(x.tabs) == SlotsOf(Removed(r.tabs, at))
    ensures |x.tabs| == |r.tabs| - 1
    ensures ReopenWith(x, e).tabs == Inserted(x.tabs, at, Tab(e.id, r.tabs[at].pinned, e.loaded.title, r.tabs[at].url))
    ensures SlotsOf(ReopenWith(x, e).tabs) == SlotsOf(r.tabs)
    ensures ReopenWith(x, e).closed == x.closed[..|x.closed| - 1]
  {
    assert |SlotsOf(x.tabs)| == |x.tabs|;
    SlotsRemoved(r.tabs, at);
    SameSlotsSameCount(x.tabs, Removed(r.tabs, at));
    OwnIndexIsKept(r.tabs, at);
    ReopenInserts(x, e);
    SlotsInserted(x.tabs, at, Tab(e.id, r.tabs[at].pinned, e.loaded.title, r.tabs[at].url));
  }

  lemma RestoredOneMore(r: Registry, shut: Registry, x: Registry, at: int, ids: seq<int>, es: seq<Reopening>)
    requires ids != [] && es != [] && 0 <= at < |r.tabs| && r.tabs[at].id == ids[0]
    requires shut.tabs == Removed(r.tabs, at)
    requires Restored(shut.tabs, x.tabs, ids[1..], es[..|es| - 1])
    requires var e := es[|es| - 1];
             && |x.tabs| == |r.tabs| - 1
             && ReopenWith(x, e).tabs ==
                 Inserted(x.tabs, at, Tab(e.id, r.tabs[at].pinned, e.loaded.title, r.tabs[at].url))
             && SlotsOf(ReopenWith(x, e).tabs) == SlotsOf(r.tabs)
    ensures Restored(r.tabs, ReopenWith(x, es[|es| - 1]).tabs, ids, es)
  {
    var after := ReopenWith(x, es[|es| - 1]).tabs;
    forall i | 0 <= i < |r.tabs|
      ensures after[i].id == r.tabs[i].id || (r.tabs[i].id in ids && IsReserved(es, after[i].id))
    {
      if i == at {
        assert es[|es| - 1] in es;
      } else {
        var j := if i < at then i else i - 1;
        assert shut.tabs[j] == r.tabs[i] && after[i] == x.tabs[j];
        StillReserved(ids, es, shut.tabs[j].id, x.tabs[j].id);
      }
    }
  }

  predicate IsReserved(es: seq<Reopening>, id: int) {
    exists e :: e in es && id == e.id
  }

  lemma StillReserved(ids: seq<int>, es: seq<Reopening>, was: int, id: int)
    requires ids != [] && es != [] && (id == was || (was in ids[1..] && IsReserved(es[..|es| - 1], id)))
    ensures id == was || (was in ids && IsReserved(es, id))
  {
  }

  /** An open tab with an address. */
  ghost predicate IsClosable(tabs: seq<Tab>, id: int) {
    exists i :: 0 <= i < |tabs| && tabs[i].id == id && tabs[i].url != []
  }

  lemma ClosableIsFound(r: Registry, id: int)
    requires Inv(r) && IsClosable(r.tabs, id)
    ensures var at := IndexOf(r.tabs, id); 0 <= at < |r.tabs| && r.tabs[at].id == id && r.tabs[at].url != []
  {
    IndexOfFinds(r.tabs, id);
  }

  lemma StillClosable(tabs: seq<Tab>, at: int, id: int)
    requires 0 <= at < |tabs| && tabs[at].id != id && IsClosable(tabs, id)
    ensures IsClosable(Removed(tabs, at), id)
  {
    var i :| 0 <= i < |tabs| && tabs[i].id == id && tabs[i].url != [];
    assert Removed(tabs, at)[if i < at then i else i - 1] == tabs[i];
  }

  ghost predicate Different(ids: seq<int>) {
    forall i, j :: 0 <= i < j < |ids| ==> ids[i] != ids[j]
  }

  /** Different tabs that are open and have an address can be closed in any order. */
  lemma {:induction false} ClosableEach(r: Registry, ids: seq<int>)
    requires Inv(r) && Different(ids) && forall id <- ids :: IsClosable(r.tabs, id)
    ensures AllClosable(r, ids)
    decreases |ids|
  {
    if ids != [] {
      var (first, rest) := (ids[0], ids[1..]);
      assert first in ids;
      ClosableIsFound(r, first);
      CloseRemoves(r, first);
      CloseKeepsInv(r, first, []);
      forall id <- rest
        ensures IsClosable(Close(r, first, []).tabs, id)
      {
        assert id in ids;
        StillClosable(r.tabs, IndexOf(r.tabs, first), id);
      }
      ClosableEach(Close(r, first, []), rest);
    }
  }

  lemma DifferentWith(first: int, rest: seq<int>)
    requires Different(rest) && first !in rest
    ensures Different([first] + rest)
  {
  }

  lemma {:induction false} OthersAre(tabs: seq<Tab>, id: int)
    requires DistinctIds(tabs)
    ensures Different(Others(tabs, id))
    ensures forall other <- Others(tabs, id) :: other != id && exists i :: 0 <= i < |tabs| && tabs[i].id == other
  {
    if tabs != [] {
      OthersAre(tabs[1..], id);
      forall other <- Others(tabs[1..], id)
        ensures other != tabs[0].id && exists i :: 0 <= i < |tabs| && tabs[i].id == other
      {
        var i :| 0 <= i < |tabs[1..]| && tabs[1..][i].id == other;
        assert tabs[i + 1].id == other;
      }
      if tabs[0].id == id {
        assert Others(tabs, id) == Others(tabs[1..], id);
      } else {
        assert Others(tabs, id) == [tabs[0].id] + Others(tabs[1..], id);
        DifferentWith(tabs[0].id, Others(tabs[1..], id));
      }
    }
  }

  lemma OthersAreClosable(r: Registry, id: int)
    requires Inv(r) && forall tab <- r.tabs :: tab.id != id ==> tab.url != []
    ensures AllClosable(Select(r, id), Others(r.tabs, id))
  {
    SelectAny(r, id);
    OthersAre(r.tabs, id);
    forall other <- Others(r.tabs, id)
      ensures IsClosable(Select(r, id).tabs, other)
    {
      var i :| 0 <= i < |r.tabs| && r.tabs[i].id == other;
      assert r.tabs[i] in r.tabs;
    }
    ClosableEach(Select(r, id), Others(r.tabs, id));
  }

  /** Closing every other tab is such a run, so where those have an address it is undone
      the same way. */
  lemma CloseOthersUndone(r: Registry, id: int, es: seq<Reopening>)
    requires Inv(r) && IndexOf(r.tabs, id) >= 0
    requires var ids := Others(r.tabs, id);
             |ids| == |es| <= CLOSED_TAB_HISTORY && AllSucceed(CloseOthers(r, id, []), es)
    requires forall tab <- r.tabs :: tab.id != id ==> tab.url != []
    ensures var f := ReopenEach(CloseOthers(r, id, []), es);
            Inv(f) && Restored(r.tabs, f.tabs, Others(r.tabs, id), es)
  {
    SelectAny(r, id);
    OthersAreClosable(r, id);
    UndoRestores(Select(r, id), Others(r.tabs, id), es);
  }

  // --- Closing everything ---------------------------------------------------------------

  lemma {:induction false} CountOfSlots(tabs: seq<Tab>)
    ensures PinnedSlots(SlotsOf(tabs)) == PinnedCount(tabs)
  {
    if tabs != [] {
      CountOfSlots(tabs[1..]);
      assert SlotsOf(tabs)[1..] == SlotsOf(tabs[1..]);
    }
  }

  function Entry(tab: Tab, index: int): ClosedTab {
    ClosedTab(tab.url, tab.title, index, tab.pinned)
  }

  function Entries(tabs: seq<Tab>, from: nat): seq<ClosedTab>
    requires from <= |tabs|
  {
    seq(|tabs| - from, i requires 0 <= i < |tabs| - from => Entry(tabs[from + i], from + i))
  }

  function Newest(closed: seq<ClosedTab>): seq<ClosedTab> {
    if |closed| > CLOSED_TAB_HISTORY then closed[|closed| - CLOSED_TAB_HISTORY..] else closed
  }

  lemma EntriesStep(tabs: seq<Tab>, from: nat)
    requires from < |tabs|
    ensures Entries(tabs, from) == [Entry(tabs[from], from)] + Entries(tabs, from + 1)
  {
  }

  /** Remembering one by one leaves the newest 24 of everything remembered. */
  lemma {:induction false} RememberAllIsNewest(closed: seq<ClosedTab>, tabs: seq<Tab>, from: nat)
    requires from <= |tabs| && |closed| <= CLOSED_TAB_HISTORY && forall tab <- tabs :: tab.url != []
    ensures RememberAll(closed, tabs, from) == Newest(closed + Entries(tabs, from))
    decreases |tabs| - from
  {
    if from == |tabs| {
      assert closed + Entries(tabs, from) == closed;
    } else {
      var tab := tabs[from];
      assert tab in tabs;
      var pushed := Remember(closed, tab, from);
      RememberAllIsNewest(pushed, tabs, from + 1);
      var rest := Entries(tabs, from + 1);
      EntriesStep(tabs, from);
      Shift(closed, Entry(tab, from), rest);
      NewestOfPushed(closed + [Entry(tab, from)], rest);
    }
  }

  lemma NewestOfPushed(front: seq<ClosedTab>, rest: seq<ClosedTab>)
    requires |front| <= CLOSED_TAB_HISTORY + 1
    ensures Newest((if |front| > CLOSED_TAB_HISTORY then front[1..] else front) + rest) == Newest(front + rest)
  {
    if |front| > CLOSED_TAB_HISTORY {
      assert front[1..] + rest == (front + rest)[1..];
    }
  }

  lemma ClosedAll(r: Registry)
    requires Inv(r) && |r.tabs| <= CLOSED_TAB_HISTORY && forall tab <- r.tabs :: tab.url != []
    ensures ClosedFrom(r, CloseAll(r, []))
  {
    CloseAllKeepsInv(r, []);
    if r.tabs != [] {
      RememberAllIsNewest(r.closed, r.tabs, 0);
      DestroyAllEmpties(r.(active := 0, closed := RememberAll(r.closed, r.tabs, 0)), []);
    }
  }

  lemma ClampOfSlots(tabs: seq<Tab>, index: nat, pinned: bool)
    ensures ClampInsertIndex(tabs, index, pinned) == ClampSlot(SlotsOf(tabs), index, pinned)
  {
    CountOfSlots(tabs);
  }

  /** The next reopening takes entry k and puts it where the slots say. */
  lemma ReopenStep(r: Registry, x: Registry, e: Reopening, k: nat)
    requires Inv(r) && Inv(x) && k < |r.tabs| && Succeeds(x, e)
    requires x.closed[|x.closed| - 1] == Entry(r.tabs[k], k)
    requires SlotsOf(x.tabs) == Rebuilt(SlotsOf(r.tabs), k + 1)
    ensures Inv(ReopenWith(x, e)) && ReopenWith(x, e).closed == x.closed[..|x.closed| - 1]
    ensures SlotsOf(ReopenWith(x, e).tabs) == Rebuilt(SlotsOf(r.tabs), k)
  {
    var last := x.closed[|x.closed| - 1];
    ReopenInserts(x, e);
    ReopenKeepsInv(x, e.id, true, true, Shown(e.blank), Issued(e.loaded));
    ClampOfSlots(x.tabs, k, last.pinned);
    SlotsInserted(x.tabs, ClampInsertIndex(x.tabs, k, last.pinned),
        Tab(e.id, last.pinned, e.loaded.title, e.loaded.url));
    assert SlotsOf(r.tabs)[k] == SlotOf(r.tabs[k]);
  }

  lemma TopEntry(all: seq<ClosedTab>, left: seq<ClosedTab>, newest: nat, taken: nat)
    requires taken < newest <= |all| && left == all[..|all| - taken]
    ensures left != [] && left[|left| - 1] == all[|all| - newest..][newest - 1 - taken]
  {
  }

  /** A registry whose last closed tabs are those of another, closed all at once. */
  ghost predicate ClosedFrom(r: Registry, all: Registry) {
    && Inv(all) && all.tabs == [] && |r.tabs| <= |all.closed|
    && all.closed[|all.closed| - |r.tabs|..] == Entries(r.tabs, 0)
  }

  /** So many of them are back. */
  ghost predicate BackFrom(r: Registry, all: Registry, f: Registry, count: nat) {
    && count <= |r.tabs| && count <= |all.closed|
    && Inv(f) && f.closed == all.closed[..|all.closed| - count]
    && SlotsOf(f.tabs) == Rebuilt(SlotsOf(r.tabs), |r.tabs| - count)
  }

  lemma OneMoreBack(r: Registry, all: Registry, x: Registry, e: Reopening, count: nat)
    requires Inv(r) && ClosedFrom(r, all) && BackFrom(r, all, x, count) && count < |r.tabs| && Succeeds(x, e)
    ensures BackFrom(r, all, ReopenWith(x, e), count + 1)
  {
    TopEntry(all.closed, x.closed, |r.tabs|, count);
    ReopenStep(r, x, e, |r.tabs| - count - 1);
  }

  lemma {:induction false} ReopenedAre(r: Registry, all: Registry, es: seq<Reopening>)
    requires Inv(r) && ClosedFrom(r, all) && |es| <= |r.tabs| && AllSucceed(all, es)
    ensures BackFrom(r, all, ReopenEach(all, es), |es|)
  {
    if es != [] {
      ReopenedAre(r, all, es[..|es| - 1]);
      OneMoreBack(r, all, ReopenEach(all, es[..|es| - 1]), es[|es| - 1], |es| - 1);
    }
  }

  lemma SlotsArePinnedFirst(tabs: seq<Tab>)
    requires PinnedFirst(tabs)
    ensures PinnedSlotsFirst(SlotsOf(tabs))
  {
    PinnedArePrefix(tabs);
    CountOfSlots(tabs);
  }

  /** What a person sees after closing everything and reopening it all. */
  lemma CloseAllRedeals(r: Registry, es: seq<Reopening>)
    requires Inv(r) && |es| == |r.tabs| <= CLOSED_TAB_HISTORY && forall tab <- r.tabs :: tab.url != []
    requires AllSucceed(CloseAll(r, []), es)
    ensures SlotsOf(ReopenEach(CloseAll(r, []), es).tabs) == Redealt(SlotsOf(r.tabs))
  {
    ClosedAll(r);
    ReopenedAre(r, CloseAll(r, []), es);
    SlotsArePinnedFirst(r.tabs);
    RebuiltIsRedealt(SlotsOf(r.tabs));
  }

  function Addressed(tabs: seq<Tab>): nat {
    if tabs == [] then 0 else (if tabs[0].url == [] then 0 else 1) + Addressed(tabs[1..])
  }

  lemma {:induction false} AddressedAll(tabs: seq<Tab>)
    ensures Addressed(tabs) <= |tabs|
    ensures Addressed(tabs) == |tabs| <==> forall tab <- tabs :: tab.url != []
  {
    if tabs != [] {
      AddressedAll(tabs[1..]);
      assert tabs == [tabs[0]] + tabs[1..];
    }
  }

  lemma {:induction false} ReopeningsAdd(r: Registry, es: seq<Reopening>)
    ensures |ReopenEach(r, es).tabs| <= |r.tabs| + |es|
  {
    if es != [] {
      ReopeningsAdd(r, es[..|es| - 1]);
      var x := ReopenEach(r, es[..|es| - 1]);
      if x.closed != [] {
        var (e, last) := (es[|es| - 1], x.closed[|x.closed| - 1]);
        var popped := x.(closed := x.closed[..|x.closed| - 1]);
        assert |Create(popped, e.id, last.index, last.pinned, true, Shown(e.blank)).tabs| <= |x.tabs| + 1;
      }
    }
  }

  /** A list of up to 24 tabs, closed whole, with as many reopened as had an address,
      comes back in its order exactly when every tab had one and dealing changes
      nothing. */
  lemma CloseAllUndoneExactly(r: Registry, es: seq<Reopening>)
    requires Inv(r) && |es| == Addressed(r.tabs) && |r.tabs| <= CLOSED_TAB_HISTORY
    requires AllSucceed(CloseAll(r, []), es)
    ensures SlotsOf(ReopenEach(CloseAll(r, []), es).tabs) == SlotsOf(r.tabs) <==>
            (forall tab <- r.tabs :: tab.url != []) && Redealt(SlotsOf(r.tabs)) == SlotsOf(r.tabs)
  {
    AddressedAll(r.tabs);
    if forall tab <- r.tabs :: tab.url != [] {
      CloseAllRedeals(r, es);
    } else {
      CloseAllKeepsInv(r, []);
      ReopeningsAdd(CloseAll(r, []), es);
      var f := ReopenEach(CloseAll(r, []), es);
      assert |SlotsOf(f.tabs)| == |f.tabs| && |SlotsOf(r.tabs)| == |r.tabs|;
    }
  }

  /** Three plain tabs are already too many: the last two change places. */
  lemma ThreeTabsAreSwapped(r: Registry, es: seq<Reopening>)
    requires Inv(r) && |es| == |r.tabs| == 3 && forall tab <- r.tabs :: tab.url != [] && !tab.pinned
    requires AllSucceed(CloseAll(r, []), es)
    ensures SlotsOf(ReopenEach(CloseAll(r, []), es).tabs)
         == [SlotOf(r.tabs[0]), SlotOf(r.tabs[2]), SlotOf(r.tabs[1])]
  {
    CloseAllRedeals(r, es);
    SlotsArePinnedFirst(r.tabs);
    ThreeRedealt(SlotsOf(r.tabs));
  }

  lemma ReopenSizes(r: Registry, e: Reopening)
    ensures |ReopenWith(r, e).tabs| + |ReopenWith(r, e).closed| <= |r.tabs| + |r.closed|
  {
    if r.closed != [] {
      var last := r.closed[|r.closed| - 1];
      var popped := r.(closed := r.closed[..|r.closed| - 1]);
      var made := Create(popped, e.id, last.index, last.pinned, true, Shown(e.blank));
      assert |made.tabs| <= |r.tabs| + 1 && made.closed == popped.closed;
    }
  }

  /** Past 24 tabs the list cannot come back: no more than 24 are remembered. */
  lemma {:induction false} ReopenIsBounded(r: Registry, es: seq<Reopening>)
    ensures |ReopenEach(r, es).tabs| + |ReopenEach(r, es).closed| <= |r.tabs| + |r.closed|
  {
    if es != [] {
      ReopenIsBounded(r, es[..|es| - 1]);
      ReopenSizes(ReopenEach(r, es[..|es| - 1]), es[|es| - 1]);
    }
  }

  lemma TooManyToComeBack(r: Registry, es: seq<Reopening>)
    requires Inv(r) && |r.tabs| > CLOSED_TAB_HISTORY
    ensures SlotsOf(ReopenEach(CloseAll(r, []), es).tabs) != SlotsOf(r.tabs)
  {
    CloseAllKeepsInv(r, []);
    ReopenIsBounded(CloseAll(r, []), es);
    assert |SlotsOf(r.tabs)| == |r.tabs|;
    var f := ReopenEach(CloseAll(r, []), es);
    assert |SlotsOf(f.tabs)| == |f.tabs|;
  }
}
