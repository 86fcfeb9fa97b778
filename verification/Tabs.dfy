/** The tab registry as a value: a list of tabs with a pinned front, the id selected,
    a bounded stack of closed tabs, and what was last published of all three. */
module Tabs {

  datatype Tab = Tab(id: int, pinned: bool, title: string, url: string)

  datatype ClosedTab = ClosedTab(url: string, title: string, index: int, pinned: bool)

  datatype Registry = Registry(tabs: seq<Tab>, closed: seq<ClosedTab>, active: int,
                               published: seq<Tab>, publishedActive: int, publishedClosed: int)

  const CLOSED_TAB_HISTORY := 24

  const EMPTY := Registry([], [], 0, [], 0, 0)

  // --- What the engine answers ------------------------------------------------------

  /** The label and address a page reports when a tab is refreshed from it. */
  datatype Page = Page(title: string, url: string)

  /** Whether a view could be made, and what its page reports. */
  datatype View = NoView | Shown(page: Page)

  /** Whether a load could be issued, and what the page reports once it was. */
  datatype Load = NotIssued | Issued(page: Page)

  /** A page that opens a window of its own while another is being destroyed. */
  datatype Arrival = Arrival(id: int, view: View)

  // --- Lookup -------------------------------------------------------------------------

  function Ids(tabs: seq<Tab>): seq<int> {
    seq(|tabs|, i requires 0 <= i < |tabs| => tabs[i].id)
  }

  /** The position of the tab with an id, or -1. */
  function IndexOf(tabs: seq<Tab>, id: int): int {
    if tabs == [] then -1
    else if tabs[0].id == id then 0
    else var rest := IndexOf(tabs[1..], id); if rest < 0 then -1 else rest + 1
  }

  predicate HasTab(r: Registry, id: int) {
    id > 0 && IndexOf(r.tabs, id) >= 0
  }

  function PinnedCount(tabs: seq<Tab>): nat {
    if tabs == [] then 0 else (if tabs[0].pinned then 1 else 0) + PinnedCount(tabs[1..])
  }

  // --- Publication and selection --------------------------------------------------------

  function Publish(r: Registry): Registry {
    r.(published := r.tabs, publishedActive := r.active, publishedClosed := |r.closed|)
  }

  function Select(r: Registry, id: int): Registry {
    if !HasTab(r, id) || r.active == id then r else Publish(r.(active := id))
  }

  function SelectAtIndex(r: Registry, index: int): Registry {
    if index < 0 || index >= |r.tabs| then r else Select(r, r.tabs[index].id)
  }

  /** Selection by steps wraps around both ends. */
  function SelectAdjacent(r: Registry, delta: int): Registry {
    if r.tabs == [] then r
    else
      var at := IndexOf(r.tabs, r.active);
      Select(r, r.tabs[((if at < 0 then 0 else at) + delta) % |r.tabs|].id)
  }

  // --- Creation -------------------------------------------------------------------------

  /** Where a tab may stand among its own kind; a negative index is the end of it. */
  function ClampInsertIndex(tabs: seq<Tab>, index: int, pinned: bool): (at: int)
    ensures 0 <= at <= |tabs|
  {
    PinnedCountBound(tabs);
    var low := if pinned then 0 else PinnedCount(tabs);
    var high := if pinned then PinnedCount(tabs) else |tabs|;
    if index < 0 then high else if index < low then low else if index > high then high else index
  }

  lemma {:induction false} PinnedCountBound(tabs: seq<Tab>)
    ensures PinnedCount(tabs) <= |tabs|
  {
    if tabs != [] {
      PinnedCountBound(tabs[1..]);
    }
  }

  function Inserted<T>(s: seq<T>, at: int, x: T): seq<T>
    requires 0 <= at <= |s|
  {
    s[..at] + [x] + s[at..]
  }

  function Removed<T>(s: seq<T>, at: int): seq<T>
    requires 0 <= at < |s|
  {
    s[..at] + s[at + 1..]
  }

  predicate CanCreate(r: Registry, id: int, view: View) {
    id > 0 && !HasTab(r, id) && view.Shown?
  }

  function Create(r: Registry, id: int, index: int, pinned: bool, foreground: bool, view: View): Registry {
    if !CanCreate(r, id, view) then r
    else
      var tab := Tab(id, pinned, view.page.title, view.page.url);
      var r' := r.(tabs := Inserted(r.tabs, ClampInsertIndex(r.tabs, index, pinned), tab));
      if foreground || r.active == 0 then Select(r', id) else Publish(r')
  }

  /** The tab shows what its page reports once the load was issued. */
  function LoadIn(r: Registry, id: int, load: Load): (r': Registry)
    ensures |r'.tabs| == |r.tabs| && r'.closed == r.closed
  {
    var at := IndexOf(r.tabs, id);
    if id <= 0 || at < 0 || load.NotIssued? then r
    else
      IndexOfFinds(r.tabs, id);
      Publish(r.(tabs := r.tabs[at := r.tabs[at].(title := load.page.title, url := load.page.url)]))
  }

  function Open(r: Registry, id: int, index: int, foreground: bool, configured: bool, view: View, load: Load)
    : Registry
  {
    if !configured || !CanCreate(r, id, view) then r
    else LoadIn(Create(r, id, index, false, foreground, view), id, load)
  }

  // --- Closing --------------------------------------------------------------------------

  function Remember(closed: seq<ClosedTab>, tab: Tab, index: int): seq<ClosedTab> {
    if tab.url == [] then closed
    else
      var more := closed + [ClosedTab(tab.url, tab.title, index, tab.pinned)];
      if |more| > CLOSED_TAB_HISTORY then more[1..] else more
  }

  /** Pages arriving during a destruction join the end of the list, in front. */
  function Arrive(r: Registry, arrivals: seq<Arrival>): (r': Registry)
    ensures r.tabs <= r'.tabs && r.closed == r'.closed
    decreases |arrivals|
  {
    if arrivals == [] then r
    else Arrive(Create(r, arrivals[0].id, -1, false, true, arrivals[0].view), arrivals[1..])
  }

  function SelectAfterRemoval(r: Registry, index: int): Registry
    requires 0 <= index
  {
    if r.tabs == [] then Publish(r.(active := 0))
    else Select(r.(active := 0), r.tabs[if index >= |r.tabs| then |r.tabs| - 1 else index].id)
  }

  function Close(r: Registry, id: int, arrivals: seq<Arrival>): Registry {
    var at := IndexOf(r.tabs, id);
    if at < 0 then r
    else
      IndexOfFinds(r.tabs, id);
      var held := Arrive(r.(closed := Remember(r.closed, r.tabs[at], at)), arrivals);
      var r' := held.(tabs := Removed(held.tabs, at));
      if r.active == id then SelectAfterRemoval(r', at) else Publish(r')
  }

  /** The pages that arrive during the k-th destruction. */
  function During(batches: seq<seq<Arrival>>, k: nat): seq<Arrival> {
    if k < |batches| then batches[k] else []
  }

  function CloseEach(r: Registry, ids: seq<int>, batches: seq<seq<Arrival>>): Registry
    decreases |ids|
  {
    if ids == [] then r
    else CloseEach(Close(r, ids[0], During(batches, 0)), ids[1..], if batches == [] then [] else batches[1..])
  }

  function Others(tabs: seq<Tab>, id: int): seq<int> {
    if tabs == [] then []
    else (if tabs[0].id == id then [] else [tabs[0].id]) + Others(tabs[1..], id)
  }

  function CloseOthers(r: Registry, id: int, batches: seq<seq<Arrival>>): Registry {
    if IndexOf(r.tabs, id) < 0 then r
    else CloseEach(Select(r, id), Others(Select(r, id).tabs, id), batches)
  }

  function RememberAll(closed: seq<ClosedTab>, tabs: seq<Tab>, from: nat): seq<ClosedTab>
    requires from <= |tabs|
    decreases |tabs| - from
  {
    if from == |tabs| then closed else RememberAll(Remember(closed, tabs[from], from), tabs, from + 1)
  }

  /** Takes tabs off the end until none is left, however many arrive meanwhile. */
  function DestroyAll(r: Registry, batches: seq<seq<Arrival>>): Registry
    decreases |batches|, |r.tabs|
  {
    if r.tabs == [] then r
    else
      var popped := r.(tabs := r.tabs[..|r.tabs| - 1]);
      if batches == [] then DestroyAll(popped, []) else DestroyAll(Arrive(popped, batches[0]), batches[1..])
  }

  function CloseAll(r: Registry, batches: seq<seq<Arrival>>): Registry {
    if r.tabs == [] then r
    else
      var r' := r.(active := 0, closed := RememberAll(r.closed, r.tabs, 0));
      Publish(DestroyAll(r', batches).(active := 0))
  }

  function Reopen(r: Registry, id: int, ready: bool, configured: bool, view: View, load: Load): Registry {
    if r.closed == [] || !ready then r
    else
      var last := r.closed[|r.closed| - 1];
      var popped := r.(closed := r.closed[..|r.closed| - 1]);
      if !configured || !CanCreate(popped, id, view) then popped
      else
        Settle(Create(popped, id, last.index, last.pinned, true, view), id, last.title, load)
  }

  /** The label the tab had, until its page is back. */
  function Settle(r: Registry, id: int, title: string, load: Load): Registry {
    LoadIn(if title == [] then r else Entitle(r, id, title), id, load)
  }

  function Entitle(r: Registry, id: int, title: string): (r': Registry)
    ensures |r'.tabs| == |r.tabs| && r'.closed == r.closed
  {
    var at := IndexOf(r.tabs, id);
    IndexOfFinds(r.tabs, id);
    if at < 0 then r else Publish(r.(tabs := r.tabs[at := r.tabs[at].(title := title)]))
  }

  // --- Ordering -------------------------------------------------------------------------

  function Move(r: Registry, id: int, toIndex: int): Registry {
    var from := IndexOf(r.tabs, id);
    if from < 0 then r
    else
      IndexOfFinds(r.tabs, id);
      var rest := Removed(r.tabs, from);
      Publish(r.(tabs := Inserted(rest, ClampInsertIndex(rest, toIndex, r.tabs[from].pinned), r.tabs[from])))
  }

  function SetPinned(r: Registry, id: int, pinned: bool): Registry {
    var from := IndexOf(r.tabs, id);
    if from < 0 then r
    else
      IndexOfFinds(r.tabs, id);
      if r.tabs[from].pinned == pinned then r
      else
        var rest := Removed(r.tabs, from);
        PinnedCountBound(rest);
        Publish(r.(tabs := Inserted(rest, PinnedCount(rest), r.tabs[from].(pinned := pinned))))
  }

  // --- Facts about lists ------------------------------------------------------------------

  lemma {:induction false} IndexOfFinds(tabs: seq<Tab>, id: int)
    ensures var at := IndexOf(tabs, id);
            if at < 0 then at == -1 && forall i :: 0 <= i < |tabs| ==> tabs[i].id != id
            else at < |tabs| && tabs[at].id == id
  {
    if tabs != [] {
      IndexOfFinds(tabs[1..], id);
    }
  }

  // --- The invariant ----------------------------------------------------------------------

  ghost predicate PinnedFirst(tabs: seq<Tab>) {
    forall i, j :: 0 <= i < j < |tabs| && tabs[j].pinned ==> tabs[i].pinned
  }

  ghost predicate DistinctIds(tabs: seq<Tab>) {
    && (forall i :: 0 <= i < |tabs| ==> tabs[i].id > 0)
    && (forall i, j :: 0 <= i < j < |tabs| ==> tabs[i].id != tabs[j].id)
  }

  ghost predicate Ordered(tabs: seq<Tab>) {
    PinnedFirst(tabs) && DistinctIds(tabs)
  }

  ghost predicate ActiveIsListed(r: Registry) {
    if r.tabs == [] then r.active == 0 else HasTab(r, r.active)
  }

  ghost predicate IsPublished(r: Registry) {
    r.published == r.tabs && r.publishedActive == r.active
  }

  ghost predicate Remembered(closed: seq<ClosedTab>) {
    |closed| <= CLOSED_TAB_HISTORY && forall c <- closed :: c.url != []
  }

  /** What every command leaves behind. */
  ghost predicate Inv(r: Registry) {
    Ordered(r.tabs) && ActiveIsListed(r) && IsPublished(r) && Remembered(r.closed)
  }

  // --- What keeps the order ---------------------------------------------------------------

  /** In an ordered list the pinned tabs are the first PinnedCount ones. */
  lemma {:induction false} PinnedArePrefix(tabs: seq<Tab>)
    requires PinnedFirst(tabs)
    ensures forall i :: 0 <= i < |tabs| ==> (tabs[i].pinned <==> i < PinnedCount(tabs))
  {
    PinnedCountBound(tabs);
    if tabs != [] {
      var rest := tabs[1..];
      PinnedArePrefix(rest);
      forall i | 0 <= i < |tabs|
        ensures tabs[i].pinned <==> i < PinnedCount(tabs)
      {
        if i > 0 {
          assert rest[i - 1] == tabs[i];
        } else if |rest| > 0 && !tabs[0].pinned {
          assert !rest[0].pinned;
        }
      }
    }
  }

  lemma HasTabIs(r: Registry, id: int)
    ensures HasTab(r, id) <==> id > 0 && exists i :: 0 <= i < |r.tabs| && r.tabs[i].id == id
  {
    IndexOfFinds(r.tabs, id);
  }

  /** Where each place of a longer list comes from. */
  lemma InsertedAt<T>(s: seq<T>, at: int, x: T, i: int)
    requires 0 <= at <= |s| && 0 <= i <= |s|
    ensures Inserted(s, at, x)[i] == if i < at then s[i] else if i == at then x else s[i - 1]
  {
  }

  lemma InsertKeepsDistinct(tabs: seq<Tab>, at: int, tab: Tab)
    requires DistinctIds(tabs) && 0 <= at <= |tabs| && tab.id > 0 && IndexOf(tabs, tab.id) < 0
    ensures DistinctIds(Inserted(tabs, at, tab))
  {
    IndexOfFinds(tabs, tab.id);
    var tabs' := Inserted(tabs, at, tab);
    forall i | 0 <= i < |tabs'|
      ensures tabs'[i].id > 0
    {
      InsertedAt(tabs, at, tab, i);
    }
    forall i, j | 0 <= i < j < |tabs'|
      ensures tabs'[i].id != tabs'[j].id
    {
      InsertedAt(tabs, at, tab, i);
      InsertedAt(tabs, at, tab, j);
    }
  }

  lemma InsertKeepsPinnedFirst(tabs: seq<Tab>, at: int, tab: Tab)
    requires PinnedFirst(tabs) && 0 <= at <= |tabs|
    requires if tab.pinned then at <= PinnedCount(tabs) else at >= PinnedCount(tabs)
    ensures PinnedFirst(Inserted(tabs, at, tab))
  {
    PinnedArePrefix(tabs);
    var tabs' := Inserted(tabs, at, tab);
    var count := PinnedCount(tabs) + (if tab.pinned then 1 else 0);
    forall i | 0 <= i < |tabs'|
      ensures tabs'[i].pinned <==> i < count
    {
      if i < at {
        assert tabs'[i] == tabs[i];
      } else if i > at {
        assert tabs'[i] == tabs[i - 1];
      }
    }
  }

  lemma InsertKeepsOrder(tabs: seq<Tab>, at: int, tab: Tab)
    requires Ordered(tabs) && 0 <= at <= |tabs| && tab.id > 0 && IndexOf(tabs, tab.id) < 0
    requires if tab.pinned then at <= PinnedCount(tabs) else at >= PinnedCount(tabs)
    ensures Ordered(Inserted(tabs, at, tab))
  {
    InsertKeepsDistinct(tabs, at, tab);
    InsertKeepsPinnedFirst(tabs, at, tab);
  }

  lemma RemoveKeepsOrder(tabs: seq<Tab>, at: int)
    requires Ordered(tabs) && 0 <= at < |tabs|
    ensures Ordered(Removed(tabs, at))
    ensures IndexOf(Removed(tabs, at), tabs[at].id) < 0
  {
    IndexOfFinds(Removed(tabs, at), tabs[at].id);
  }

  lemma ClampIsInGroup(tabs: seq<Tab>, index: int, pinned: bool)
    ensures var at := ClampInsertIndex(tabs, index, pinned);
            if pinned then at <= PinnedCount(tabs) else at >= PinnedCount(tabs)
  {
    PinnedCountBound(tabs);
  }

  lemma SelectKeepsInv(r: Registry, id: int)
    requires Ordered(r.tabs) && Remembered(r.closed) && (IsPublished(r) || r.active != id)
    requires ActiveIsListed(r) || HasTab(r, id)
    requires IsPublished(r) || HasTab(r, id)
    ensures Inv(Select(r, id))
    ensures Select(r, id).tabs == r.tabs && Select(r, id).closed == r.closed
    ensures HasTab(r, id) ==> Select(r, id).active == id
  {
    IndexOfFinds(r.tabs, id);
  }

  lemma CreateKeepsOrder(r: Registry, id: int, index: int, pinned: bool, foreground: bool, view: View)
    requires Ordered(r.tabs)
    ensures Ordered(Create(r, id, index, pinned, foreground, view).tabs)
  {
    if CanCreate(r, id, view) {
      ClampIsInGroup(r.tabs, index, pinned);
      InsertKeepsOrder(r.tabs, ClampInsertIndex(r.tabs, index, pinned),
                       Tab(id, pinned, view.page.title, view.page.url));
    }
  }

  lemma CreateKeepsInv(r: Registry, id: int, index: int, pinned: bool, foreground: bool, view: View)
    requires Inv(r)
    ensures Inv(Create(r, id, index, pinned, foreground, view))
  {
    if CanCreate(r, id, view) {
      CreateKeepsOrder(r, id, index, pinned, foreground, view);
      var at := ClampInsertIndex(r.tabs, index, pinned);
      var tabs := Inserted(r.tabs, at, Tab(id, pinned, view.page.title, view.page.url));
      HasTabIs(r, r.active);
      HasTabIs(r, id);
      InsertedHolds(r.tabs, at, Tab(id, pinned, view.page.title, view.page.url));
      HasTabIs(r.(tabs := tabs), r.active);
      HasTabIs(r.(tabs := tabs), id);
    }
  }

  lemma InsertedHolds(tabs: seq<Tab>, at: int, tab: Tab)
    requires 0 <= at <= |tabs|
    ensures Inserted(tabs, at, tab)[at] == tab
    ensures forall i :: 0 <= i < |tabs| ==> Inserted(tabs, at, tab)[if i < at then i else i + 1] == tabs[i]
  {
  }

  lemma {:induction false} ArriveKeepsOrder(r: Registry, arrivals: seq<Arrival>)
    requires Ordered(r.tabs)
    ensures Ordered(Arrive(r, arrivals).tabs)
    ensures Inv(r) ==> Inv(Arrive(r, arrivals))
    ensures forall i :: 0 <= i < |r.tabs| && r.tabs[i].id != r.active ==> r.tabs[i].id != Arrive(r, arrivals).active
    decreases |arrivals|
  {
    if arrivals != [] {
      var a := arrivals[0];
      var next := Create(r, a.id, -1, false, true, a.view);
      CreateKeepsOrder(r, a.id, -1, false, true, a.view);
      if Inv(r) {
        CreateKeepsInv(r, a.id, -1, false, true, a.view);
      }
      IndexOfFinds(r.tabs, a.id);
      ArriveKeepsOrder(next, arrivals[1..]);
      assert forall i :: 0 <= i < |r.tabs| ==> next.tabs[i] == r.tabs[i];
    }
  }

  lemma {:induction false} SameIdsSameIndex(tabs: seq<Tab>, tabs': seq<Tab>, id: int)
    requires |tabs| == |tabs'| && forall i :: 0 <= i < |tabs| ==> tabs[i].id == tabs'[i].id
    ensures IndexOf(tabs, id) == IndexOf(tabs', id)
  {
    if tabs != [] {
      SameIdsSameIndex(tabs[1..], tabs'[1..], id);
    }
  }

  lemma RelabelKeepsInv(r: Registry, at: int, tab: Tab)
    requires Inv(r) && 0 <= at < |r.tabs| && tab.id == r.tabs[at].id && tab.pinned == r.tabs[at].pinned
    ensures Inv(Publish(r.(tabs := r.tabs[at := tab])))
  {
    SameIdsSameIndex(r.tabs, r.tabs[at := tab], r.active);
  }

  lemma LoadKeepsInv(r: Registry, id: int, title: string, load: Load)
    requires Inv(r)
    ensures Inv(LoadIn(r, id, load)) && Inv(Entitle(r, id, title))
  {
    IndexOfFinds(r.tabs, id);
    var at := IndexOf(r.tabs, id);
    if at >= 0 {
      RelabelKeepsInv(r, at, r.tabs[at].(title := title));
      if load.Issued? {
        RelabelKeepsInv(r, at, r.tabs[at].(title := load.page.title, url := load.page.url));
      }
    }
  }

  lemma RememberKeeps(closed: seq<ClosedTab>, tab: Tab, index: int)
    requires Remembered(closed)
    ensures Remembered(Remember(closed, tab, index))
  {
  }

  lemma CloseKeepsInv(r: Registry, id: int, arrivals: seq<Arrival>)
    requires Inv(r)
    ensures Inv(Close(r, id, arrivals))
  {
    var at := IndexOf(r.tabs, id);
    if at >= 0 {
      IndexOfFinds(r.tabs, id);
      RememberKeeps(r.closed, r.tabs[at], at);
      var noted := r.(closed := Remember(r.closed, r.tabs[at], at));
      ArriveKeepsOrder(noted, arrivals);
      var held := Arrive(noted, arrivals);
      RemoveKeepsOrder(held.tabs, at);
      var r' := held.(tabs := Removed(held.tabs, at));
      if r.active == id {
        if r'.tabs != [] {
          var next := r'.tabs[if at >= |r'.tabs| then |r'.tabs| - 1 else at];
          HasTabIs(r', next.id);
          SelectKeepsInv(r'.(active := 0), next.id);
        }
      } else {
        StaysListed(r, held, at);
      }
    }
  }

  /** Removing a tab that is not the active one leaves the active one listed. */
  lemma StaysListed(r: Registry, held: Registry, at: int)
    requires Inv(r) && Inv(held) && r.tabs <= held.tabs && 0 <= at < |r.tabs| && r.active != r.tabs[at].id
    ensures held.active != r.tabs[at].id ==> ActiveIsListed(held.(tabs := Removed(held.tabs, at)))
  {
    HasTabIs(held, held.active);
    HasTabIs(held.(tabs := Removed(held.tabs, at)), held.active);
    if held.active != r.tabs[at].id {
      var i :| 0 <= i < |held.tabs| && held.tabs[i].id == held.active;
      assert Removed(held.tabs, at)[if i < at then i else i - 1] == held.tabs[i];
    }
  }
}
