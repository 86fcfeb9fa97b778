/** Where each command leaves the tabs and which one it leaves selected. */
module TabPlaces {
  import opened Sequences
  import opened Tabs
  import opened TabRuns

  function Except(id: int): Tab -> bool {
    (tab: Tab) => tab.id != id
  }

  function Pinned(): Tab -> bool {
    (tab: Tab) => tab.pinned
  }

  /** The other tabs, in their order. */
  function Besides(tabs: seq<Tab>, id: int): seq<Tab> {
    Filter(tabs, Except(id))
  }

  /** A place for a tab of a kind among others: the place asked for when that is among its
      own kind, else the nearer edge of it; a negative place is its end. */
  predicate IsPlace(others: seq<Tab>, wanted: int, pinned: bool, at: int) {
    var count := |Filter(others, Pinned())|;
    var (low, high) := if pinned then (0, count) else (count, |others|);
    && low <= at <= high
    && (low <= wanted <= high ==> at == wanted)
    && (0 <= wanted < low ==> at == low)
    && (wanted < 0 || wanted > high ==> at == high)
  }

  /** A tab stands at a place, and the others as they stood. */
  predicate StandsAt(tabs: seq<Tab>, tab: Tab, at: int, others: seq<Tab>) {
    0 <= at < |tabs| && tabs[at] == tab && Besides(tabs, tab.id) == others
  }

  // --- Lists ------------------------------------------------------------------------------------

  lemma {:induction false} PinnedCountIs(tabs: seq<Tab>)
    ensures PinnedCount(tabs) == |Filter(tabs, Pinned())|
  {
    if tabs != [] {
      PinnedCountIs(tabs[1..]);
    }
  }

  lemma {:induction false} BesidesNone(tabs: seq<Tab>, id: int)
    requires forall i :: 0 <= i < |tabs| ==> tabs[i].id != id
    ensures Besides(tabs, id) == tabs
  {
    if tabs != [] {
      BesidesNone(tabs[1..], id);
      assert tabs == [tabs[0]] + tabs[1..];
    }
  }

  lemma {:induction false} BesidesInserted(tabs: seq<Tab>, at: int, tab: Tab)
    requires 0 <= at <= |tabs| && forall i :: 0 <= i < |tabs| ==> tabs[i].id != tab.id
    ensures Besides(Inserted(tabs, at, tab), tab.id) == tabs
  {
    var more := Inserted(tabs, at, tab);
    if at == 0 {
      assert more[1..] == tabs && more[0] == tab;
      BesidesNone(tabs, tab.id);
      assert [] + tabs == tabs;
    } else {
      BesidesInserted(tabs[1..], at - 1, tab);
      assert more[1..] == Inserted(tabs[1..], at - 1, tab) && more[0] == tabs[0];
      assert tabs == [tabs[0]] + tabs[1..];
    }
  }

  lemma {:induction false} BesidesRemoved(tabs: seq<Tab>, at: int)
    requires DistinctIds(tabs) && 0 <= at < |tabs|
    ensures Besides(tabs, tabs[at].id) == Removed(tabs, at)
  {
    var rest := tabs[1..];
    if at == 0 {
      assert Removed(tabs, 0) == rest;
      BesidesNone(rest, tabs[0].id);
      assert [] + rest == rest;
    } else {
      BesidesRemoved(rest, at - 1);
      assert Removed(tabs, at) == [tabs[0]] + Removed(rest, at - 1);
      assert tabs[0].id != tabs[at].id;
    }
  }

  lemma ClampIsPlace(tabs: seq<Tab>, wanted: int, pinned: bool)
    ensures IsPlace(tabs, wanted, pinned, ClampInsertIndex(tabs, wanted, pinned))
  {
    PinnedCountIs(tabs);
    PinnedCountBound(tabs);
  }

  lemma InsertedStands(tabs: seq<Tab>, wanted: int, tab: Tab)
    requires forall i :: 0 <= i < |tabs| ==> tabs[i].id != tab.id
    ensures var at := ClampInsertIndex(tabs, wanted, tab.pinned);
            IsPlace(tabs, wanted, tab.pinned, at) && StandsAt(Inserted(tabs, at, tab), tab, at, tabs)
  {
    ClampIsPlace(tabs, wanted, tab.pinned);
    BesidesInserted(tabs, ClampInsertIndex(tabs, wanted, tab.pinned), tab);
  }

  /** A tab taken out is nowhere left, and the others stand as they stood. */
  lemma TakenOut(tabs: seq<Tab>, id: int)
    requires DistinctIds(tabs) && IndexOf(tabs, id) >= 0
    ensures var at := IndexOf(tabs, id);
            && 0 <= at < |tabs| && tabs[at].id == id && Removed(tabs, at) == Besides(tabs, id)
            && forall i :: 0 <= i < |Removed(tabs, at)| ==> Removed(tabs, at)[i].id != id
  {
    IndexOfFinds(tabs, id);
    BesidesRemoved(tabs, IndexOf(tabs, id));
  }

  // --- Moving and pinning -------------------------------------------------------------------------

  /** A tab that is moved stands where it was wanted, as nearly as its kind allows, and the
      others stand in their old order. */
  lemma MoveLands(r: Registry, id: int, wanted: int, from: int) returns (at: int)
    requires Inv(r) && 0 <= from < |r.tabs| && r.tabs[from].id == id
    ensures var (tab, others) := (r.tabs[from], Besides(r.tabs, id));
            IsPlace(others, wanted, tab.pinned, at) && StandsAt(Move(r, id, wanted).tabs, tab, at, others)
    ensures Move(r, id, wanted).active == r.active && Move(r, id, wanted).closed == r.closed
  {
    IndexOfFinds(r.tabs, id);
    TakenOut(r.tabs, id);
    assert IndexOf(r.tabs, id) == from;
    InsertedStands(Removed(r.tabs, from), wanted, r.tabs[from]);
    at := ClampInsertIndex(Removed(r.tabs, from), wanted, r.tabs[from].pinned);
  }

  /** A tab pinned or unpinned stands on the border, and the others in their old order; one
      that is pinned or not already stays. */
  lemma PinLands(r: Registry, id: int, pinned: bool, from: int)
    requires Inv(r) && 0 <= from < |r.tabs| && r.tabs[from].id == id
    ensures var (tab, others, r') := (r.tabs[from], Besides(r.tabs, id), SetPinned(r, id, pinned));
            if tab.pinned == pinned then r' == r
            else StandsAt(r'.tabs, tab.(pinned := pinned), |Filter(others, Pinned())|, others)
    ensures SetPinned(r, id, pinned).active == r.active && SetPinned(r, id, pinned).closed == r.closed
  {
    IndexOfFinds(r.tabs, id);
    TakenOut(r.tabs, id);
    assert IndexOf(r.tabs, id) == from;
    var rest := Removed(r.tabs, from);
    PinnedCountIs(rest);
    PinnedCountBound(rest);
    BesidesInserted(rest, PinnedCount(rest), r.tabs[from].(pinned := pinned));
  }

  /** No other id moves or pins anything. */
  lemma OthersDoNotMove(r: Registry, id: int, wanted: int, pinned: bool)
    requires forall i :: 0 <= i < |r.tabs| ==> r.tabs[i].id != id
    ensures Move(r, id, wanted) == r && SetPinned(r, id, pinned) == r
  {
    IndexOfFinds(r.tabs, id);
  }

  // --- Opening ------------------------------------------------------------------------------------

  predicate IsListed(tabs: seq<Tab>, id: int) {
    exists i :: 0 <= i < |tabs| && tabs[i].id == id
  }

  predicate CanBeMade(r: Registry, id: int, view: View) {
    id > 0 && !IsListed(r.tabs, id) && view.Shown?
  }

  /** A tab stands where it was wanted, as nearly as its kind allows, and is selected when it
      comes in front or is the first. */
  predicate IsMade(r: Registry, r': Registry, tab: Tab, wanted: int, foreground: bool, at: int) {
    && IsPlace(r.tabs, wanted, tab.pinned, at) && StandsAt(r'.tabs, tab, at, r.tabs)
    && r'.active == (if foreground || r.tabs == [] then tab.id else r.active) && r'.closed == r.closed
  }

  /** A tab is made unless its id is none or taken, or its view cannot be had; it shows what
      its page reports. */
  lemma CreateLands(r: Registry, id: int, wanted: int, pinned: bool, foreground: bool, view: View) returns (at: int)
    requires Inv(r)
    ensures var r' := Create(r, id, wanted, pinned, foreground, view);
            if !CanBeMade(r, id, view) then r' == r
            else IsMade(r, r', Tab(id, pinned, view.page.title, view.page.url), wanted, foreground, at)
  {
    at := 0;
    IndexOfFinds(r.tabs, id);
    if CanBeMade(r, id, view) {
      at := ClampInsertIndex(r.tabs, wanted, pinned);
      var tab := Tab(id, pinned, view.page.title, view.page.url);
      InsertedStands(r.tabs, wanted, tab);
      NewIsSelected(r, id, at, tab, foreground);
    }
  }

  lemma NewIsSelected(r: Registry, id: int, at: int, tab: Tab, foreground: bool)
    requires Inv(r) && id > 0 && tab.id == id && 0 <= at <= |r.tabs| && IndexOf(r.tabs, id) < 0
    ensures var r' := r.(tabs := Inserted(r.tabs, at, tab));
            && Select(r', id).active == id && Select(r', id).tabs == r'.tabs && Select(r', id).closed == r.closed
            && (r.tabs == [] <==> r.active == 0)
  {
    var r' := r.(tabs := Inserted(r.tabs, at, tab));
    assert r'.tabs[at] == tab;
    HasTabIs(r', id);
    HasTabIs(r, r.active);
  }

  /** A load shows in its own tab, once it could be issued, and in no other. */
  lemma LoadShows(r: Registry, id: int, load: Load, at: int)
    requires Inv(r) && 0 <= at < |r.tabs| && r.tabs[at].id == id
    ensures var r' := LoadIn(r, id, load);
            && |r'.tabs| == |r.tabs| && r'.active == r.active && r'.closed == r.closed
            && (forall i :: 0 <= i < |r.tabs| && i != at ==> r'.tabs[i] == r.tabs[i])
            && r'.tabs[at].id == id && r'.tabs[at].pinned == r.tabs[at].pinned
            && Page(r'.tabs[at].title, r'.tabs[at].url) ==
               if load.Issued? then load.page else Page(r.tabs[at].title, r.tabs[at].url)
  {
    IndexOfFinds(r.tabs, id);
  }

  // --- Selecting ----------------------------------------------------------------------------------

  /** Selecting makes a listed tab the active one, and does nothing else. */
  lemma SelectSelects(r: Registry, id: int)
    requires Inv(r)
    ensures var r' := Select(r, id);
            && r'.active == (if IsListed(r.tabs, id) then id else r.active)
            && r'.tabs == r.tabs && r'.closed == r.closed
  {
    HasTabIs(r, id);
  }

  lemma SelectByPlace(r: Registry, at: int)
    requires Inv(r)
    ensures var r' := SelectAtIndex(r, at);
            && r'.active == (if 0 <= at < |r.tabs| then r.tabs[at].id else r.active)
            && r'.tabs == r.tabs && r'.closed == r.closed
  {
    if 0 <= at < |r.tabs| {
      SelectSelects(r, r.tabs[at].id);
      assert IsListed(r.tabs, r.tabs[at].id);
    }
  }

  /** The next tab is the one to the right, after the last the first; the previous one is the
      one to the left, before the first the last. */
  lemma NeighbourIsSelected(r: Registry, at: int)
    requires Inv(r) && 0 <= at < |r.tabs| && r.tabs[at].id == r.active
    ensures SelectAdjacent(r, 1).active == r.tabs[if at + 1 < |r.tabs| then at + 1 else 0].id
    ensures SelectAdjacent(r, -1).active == r.tabs[if at > 0 then at - 1 else |r.tabs| - 1].id
    ensures forall delta :: SelectAdjacent(r, delta).tabs == r.tabs && SelectAdjacent(r, delta).closed == r.closed
  {
    var n := |r.tabs|;
    var (next, previous) := (if at + 1 < n then at + 1 else 0, if at > 0 then at - 1 else n - 1);
    IndexOfFinds(r.tabs, r.active);
    assert IndexOf(r.tabs, r.active) == at;
    OneOn(at, n);
    OneBack(at, n);
    assert r.tabs[next].id == r.active || SelectAdjacent(r, 1) == Select(r, r.tabs[next].id);
    SelectByPlace(r, next);
    SelectByPlace(r, previous);
  }

  lemma OneOn(at: int, n: int)
    requires 0 <= at < n
    ensures (at + 1) % n == if at + 1 < n then at + 1 else 0
  {
  }

  lemma OneBack(at: int, n: int)
    requires 0 <= at < n
    ensures (at - 1) % n == if at > 0 then at - 1 else n - 1
  {
  }

  // --- Closing ------------------------------------------------------------------------------------

  /** The newest entries, up to the cap. */
  function Latest(closed: seq<ClosedTab>): seq<ClosedTab> {
    if |closed| > 24 then closed[|closed| - 24..] else closed
  }

  /** Closing takes the tab off and leaves the others as they stood, before any page that
      opened meanwhile. A tab with an address is remembered last, as it stood and where. */
  lemma CloseTakes(r: Registry, id: int, at: int, arrivals: seq<Arrival>)
    requires Inv(r) && 0 <= at < |r.tabs| && r.tabs[at].id == id
    ensures var (tab, r') := (r.tabs[at], Close(r, id, arrivals));
            && Besides(r.tabs, id) <= r'.tabs && (arrivals == [] ==> r'.tabs == Besides(r.tabs, id))
            && r'.closed == if tab.url == [] then r.closed
                            else Latest(r.closed + [ClosedTab(tab.url, tab.title, at, tab.pinned)])
  {
    IndexOfFinds(r.tabs, id);
    TakenOut(r.tabs, id);
    assert IndexOf(r.tabs, id) == at;
    var held := Arrive(r.(closed := Remember(r.closed, r.tabs[at], at)), arrivals);
    TakenOutOfMore(r.tabs, held.tabs, at);
    SelectionKeeps(held.(tabs := Removed(held.tabs, at)), at);
  }

  lemma TakenOutOfMore(tabs: seq<Tab>, more: seq<Tab>, at: int)
    requires 0 <= at < |tabs| && tabs <= more
    ensures Removed(tabs, at) <= Removed(more, at)
  {
    assert more[..|tabs|] == tabs;
    assert Removed(more, at) == Removed(tabs, at) + more[|tabs|..];
  }

  lemma SelectionKeeps(left: Registry, at: nat)
    ensures SelectAfterRemoval(left, at).tabs == Publish(left).tabs == left.tabs
    ensures SelectAfterRemoval(left, at).closed == Publish(left).closed == left.closed
  {
  }

  /** Closing the active tab selects the one that comes to stand in its place, or the last;
      closing another leaves the selection alone. */
  lemma CloseSelects(r: Registry, id: int, at: int, arrivals: seq<Arrival>)
    requires Inv(r) && 0 <= at < |r.tabs| && r.tabs[at].id == id
    ensures var r' := Close(r, id, arrivals);
            && (r.active == id ==>
                  r'.active == if r'.tabs == [] then 0 else if at < |r'.tabs| then r'.tabs[at].id
                               else r'.tabs[|r'.tabs| - 1].id)
            && (r.active != id && arrivals == [] ==> r'.active == r.active)
  {
    IndexOfFinds(r.tabs, id);
    assert IndexOf(r.tabs, id) == at;
    var noted := r.(closed := Remember(r.closed, r.tabs[at], at));
    var held := Arrive(noted, arrivals);
    ArriveKeepsOrder(noted, arrivals);
    RemoveKeepsOrder(held.tabs, at);
    NeighbourTakesOver(held.(tabs := Removed(held.tabs, at)), at);
  }

  lemma NeighbourTakesOver(left: Registry, at: nat)
    requires Ordered(left.tabs)
    ensures SelectAfterRemoval(left, at).tabs == left.tabs
    ensures SelectAfterRemoval(left, at).active ==
            if left.tabs == [] then 0 else if at < |left.tabs| then left.tabs[at].id
            else left.tabs[|left.tabs| - 1].id
  {
    if left.tabs != [] {
      HasTabIs(left.(active := 0), left.tabs[if at >= |left.tabs| then |left.tabs| - 1 else at].id);
    }
  }

  function NotAmong(ids: seq<int>): Tab -> bool {
    (tab: Tab) => tab.id !in ids
  }

  lemma {:induction false} FilteredTwice(tabs: seq<Tab>, id: int, ids: seq<int>)
    ensures Filter(Besides(tabs, id), NotAmong(ids)) == Filter(tabs, NotAmong([id] + ids))
  {
    if tabs != [] {
      FilteredTwice(tabs[1..], id, ids);
      var rest := Besides(tabs[1..], id);
      assert tabs[0].id in [id] + ids <==> tabs[0].id == id || tabs[0].id in ids;
      if tabs[0].id == id {
        assert [] + rest == rest;
        assert [] + Filter(tabs[1..], NotAmong([id] + ids)) == Filter(tabs[1..], NotAmong([id] + ids));
      } else {
        assert ([tabs[0]] + rest)[1..] == rest;
      }
    }
  }

  lemma {:induction false} NoneAmong(tabs: seq<Tab>)
    ensures Filter(tabs, NotAmong([])) == tabs
  {
    if tabs != [] {
      NoneAmong(tabs[1..]);
      assert tabs == [tabs[0]] + tabs[1..];
    }
  }

  /** Closing several tabs, while none opens, leaves the others as they stood. */
  lemma {:induction false} CloseEachTakes(r: Registry, ids: seq<int>)
    requires Inv(r)
    ensures CloseEach(r, ids, []).tabs == Filter(r.tabs, NotAmong(ids))
    ensures r.active !in ids ==> CloseEach(r, ids, []).active == r.active
    decreases |ids|
  {
    if ids == [] {
      NoneAmong(r.tabs);
    } else {
      var one := Close(r, ids[0], []);
      CloseKeepsInv(r, ids[0], []);
      CloseOneTakes(r, ids[0]);
      CloseEachTakes(one, ids[1..]);
      FilteredTwice(r.tabs, ids[0], ids[1..]);
      assert ids == [ids[0]] + ids[1..];
    }
  }

  lemma CloseOneTakes(r: Registry, id: int)
    requires Inv(r)
    ensures Close(r, id, []).tabs == Besides(r.tabs, id)
    ensures r.active != id ==> Close(r, id, []).active == r.active
  {
    IndexOfFinds(r.tabs, id);
    if IndexOf(r.tabs, id) < 0 {
      BesidesNone(r.tabs, id);
    } else {
      CloseTakes(r, id, IndexOf(r.tabs, id), []);
      CloseSelects(r, id, IndexOf(r.tabs, id), []);
    }
  }

  lemma {:induction false} OthersAre(tabs: seq<Tab>, id: int)
    ensures forall x :: x in Others(tabs, id) <==> x != id && IsListed(tabs, x)
  {
    if tabs != [] {
      OthersAre(tabs[1..], id);
      forall x
        ensures IsListed(tabs, x) <==> tabs[0].id == x || IsListed(tabs[1..], x)
      {
        if IsListed(tabs[1..], x) {
          var i :| 0 <= i < |tabs[1..]| && tabs[1..][i].id == x;
          assert tabs[i + 1].id == x;
        }
      }
    }
  }

  lemma {:induction false} NothingLeft(tabs: seq<Tab>, ids: seq<int>)
    requires forall i :: 0 <= i < |tabs| ==> tabs[i].id in ids
    ensures Filter(tabs, NotAmong(ids)) == []
  {
    if tabs != [] {
      NothingLeft(tabs[1..], ids);
    }
  }

  lemma {:induction false} OneLeft(tabs: seq<Tab>, at: int, ids: seq<int>)
    requires 0 <= at < |tabs| && forall i :: 0 <= i < |tabs| ==> (tabs[i].id in ids <==> i != at)
    ensures Filter(tabs, NotAmong(ids)) == [tabs[at]]
  {
    if at == 0 {
      NothingLeft(tabs[1..], ids);
    } else {
      OneLeft(tabs[1..], at - 1, ids);
      assert tabs[0].id in ids;
    }
  }

  /** Closing the others leaves the one tab, selected. */
  lemma CloseOthersLeavesOne(r: Registry, id: int, at: int)
    requires Inv(r) && 0 <= at < |r.tabs| && r.tabs[at].id == id
    ensures CloseOthers(r, id, []).tabs == [r.tabs[at]] && CloseOthers(r, id, []).active == id
  {
    IndexOfFinds(r.tabs, id);
    SelectSelects(r, id);
    SelectAny(r, id);
    OthersAre(r.tabs, id);
    CloseEachTakes(Select(r, id), Others(r.tabs, id));
    forall i | 0 <= i < |r.tabs|
      ensures r.tabs[i].id in Others(r.tabs, id) <==> i != at
    {
      assert IsListed(r.tabs, r.tabs[i].id);
    }
    OneLeft(r.tabs, at, Others(r.tabs, id));
  }

  // --- Opening again ------------------------------------------------------------------------------

  lemma {:induction false} BesidesRelabelled(tabs: seq<Tab>, at: int, tab: Tab)
    requires 0 <= at < |tabs| && tab.id == tabs[at].id
    ensures Besides(tabs[at := tab], tab.id) == Besides(tabs, tab.id)
  {
    var other := tabs[at := tab];
    if at == 0 {
      assert other[1..] == tabs[1..];
    } else {
      BesidesRelabelled(tabs[1..], at - 1, tab);
      assert other[1..] == tabs[1..][at - 1 := tab] && other[0] == tabs[0];
    }
  }

  /** What a tab opened again shows: what it loaded, else the label it had, else what its
      new page reports. */
  function Shows(view: Page, title: string, load: Load): Page {
    match load
    case Issued(page) => page
    case NotIssued => if title == [] then view else Page(title, view.url)
  }

  lemma SettleStands(r: Registry, id: int, at: int, title: string, load: Load)
    requires 0 <= at < |r.tabs| && r.tabs[at].id == id && id > 0 && DistinctIds(r.tabs)
    ensures var (tab, r') := (r.tabs[at], Settle(r, id, title, load));
            var shown := Shows(Page(tab.title, tab.url), title, load);
            && r'.tabs == r.tabs[at := tab.(title := shown.title, url := shown.url)]
            && r'.active == r.active && r'.closed == r.closed
  {
    IndexOfFinds(r.tabs, id);
    assert IndexOf(r.tabs, id) == at;
    var entitled := Entitle(r, id, title);
    SameIdsSameIndex(r.tabs, r.tabs[at := r.tabs[at].(title := title)], id);
    assert IndexOf(entitled.tabs, id) == at;
  }

  /** Opening again takes the entry remembered last. If its tab can be made it stands as
      nearly where it stood as its kind allows, pinned or not as it was, and is selected. */
  lemma ReopenLands(r: Registry, id: int, configured: bool, view: View, load: Load) returns (at: int)
    requires Inv(r) && r.closed != []
    ensures var (last, left) := (r.closed[|r.closed| - 1], r.closed[..|r.closed| - 1]);
            var r' := Reopen(r, id, true, configured, view, load);
            if !configured || !CanBeMade(r, id, view) then r' == r.(closed := left)
            else
              var shown := Shows(view.page, last.title, load);
              && IsPlace(r.tabs, last.index, last.pinned, at)
              && StandsAt(r'.tabs, Tab(id, last.pinned, shown.title, shown.url), at, r.tabs)
              && r'.active == id && r'.closed == left
  {
    var last := r.closed[|r.closed| - 1];
    var popped := r.(closed := r.closed[..|r.closed| - 1]);
    PopKeepsInv(r);
    at := CreateLands(popped, id, last.index, last.pinned, true, view);
    IndexOfFinds(r.tabs, id);
    if configured && CanBeMade(popped, id, view) {
      var made := Create(popped, id, last.index, last.pinned, true, view);
      CreateKeepsInv(popped, id, last.index, last.pinned, true, view);
      SettleStands(made, id, at, last.title, load);
      var tab := Settle(made, id, last.title, load).tabs[at];
      BesidesRelabelled(made.tabs, at, tab);
    }
  }

  /** A tab opened by the host is never pinned, and shows what it loaded or, before that,
      what its new page reports. */
  lemma OpenLands(r: Registry, id: int, wanted: int, foreground: bool, configured: bool, view: View, load: Load)
    returns (at: int)
    requires Inv(r)
    ensures var r' := Open(r, id, wanted, foreground, configured, view, load);
            if !configured || !CanBeMade(r, id, view) then r' == r
            else
              var shown := Shows(view.page, "", load);
              IsMade(r, r', Tab(id, false, shown.title, shown.url), wanted, foreground, at)
  {
    at := CreateLands(r, id, wanted, false, foreground, view);
    IndexOfFinds(r.tabs, id);
    if configured && CanBeMade(r, id, view) {
      var made := Create(r, id, wanted, false, foreground, view);
      CreateKeepsInv(r, id, wanted, false, foreground, view);
      SettleStands(made, id, at, "", load);
      BesidesRelabelled(made.tabs, at, Settle(made, id, "", load).tabs[at]);
    }
  }

  /** A window a page opens comes last and in front. */
  lemma ArrivalLands(r: Registry, arrival: Arrival) returns (at: int)
    requires Inv(r)
    ensures var r' := Arrive(r, [arrival]);
            if !CanBeMade(r, arrival.id, arrival.view) then r' == r
            else
              var page := arrival.view.page;
              at == |r.tabs| && IsMade(r, r', Tab(arrival.id, false, page.title, page.url), -1, true, at)
  {
    at := CreateLands(r, arrival.id, -1, false, true, arrival.view);
    assert Arrive(r, [arrival]) == Create(r, arrival.id, -1, false, true, arrival.view);
  }
}
