/** The registry the engine thread edits in place, and the copy it publishes.
    Every method is proved against the command of the model. */
module TabRegistry {
  import opened Sequences
  import opened Tabs

  class Tabbar {
    var tabs: seq<Tab>
    var closed: seq<ClosedTab>
    var activeId: int
    var published: seq<Tab>
    var publishedActive: int
    var publishedClosed: int

    constructor ()
      ensures State() == EMPTY
    {
      tabs, closed, activeId := [], [], 0;
      published, publishedActive, publishedClosed := [], 0, 0;
    }

    ghost function State(): Registry
      reads this
    {
      Registry(tabs, closed, activeId, published, publishedActive, publishedClosed)
    }

    method IndexOfTab(id: int) returns (at: int)
      ensures at == IndexOf(tabs, id) && at < |tabs| && (at >= 0 ==> tabs[at].id == id)
    {
      IndexOfFinds(tabs, id);
      for i := 0 to |tabs|
        invariant IndexOf(tabs, id) == if IndexOf(tabs[i..], id) < 0 then -1 else IndexOf(tabs[i..], id) + i
      {
        assert tabs[i..][0] == tabs[i] && tabs[i..][1..] == tabs[i + 1..];
        if tabs[i].id == id {
          return i;
        }
      }
      return -1;
    }

    method FindTab(id: int) returns (at: int)
      ensures HasTab(State(), id) ==> at == IndexOf(tabs, id) && 0 <= at < |tabs| && tabs[at].id == id
      ensures !HasTab(State(), id) ==> at == -1
    {
      if id <= 0 {
        return -1;
      }
      at := IndexOfTab(id);
      if at < 0 {
        at := -1;
      }
    }

    method CountPinned() returns (count: nat)
      ensures count == PinnedCount(tabs) <= |tabs|
    {
      PinnedCountBound(tabs);
      count := 0;
      for i := 0 to |tabs|
        invariant count + PinnedCount(tabs[i..]) == PinnedCount(tabs)
      {
        assert tabs[i..][0] == tabs[i] && tabs[i..][1..] == tabs[i + 1..];
        if tabs[i].pinned {
          count := count + 1;
        }
      }
    }

    method ClampIndex(index: int, pinned: bool) returns (at: nat)
      ensures at == ClampInsertIndex(tabs, index, pinned) <= |tabs|
    {
      var count := CountPinned();
      var low := if pinned then 0 else count;
      var high := if pinned then count else |tabs|;
      if index < 0 {
        return high;
      }
      at := index;
      if at < low {
        at := low;
      }
      if at > high {
        at := high;
      }
    }

    method PublishTabs()
      modifies this`published, this`publishedActive, this`publishedClosed
      ensures State() == Publish(old(State()))
    {
      var snapshot := [];
      for i := 0 to |tabs|
        invariant snapshot == tabs[..i]
      {
        snapshot := snapshot + [tabs[i]];
      }
      published, publishedActive, publishedClosed := snapshot, activeId, |closed|;
    }

    method SelectTab(id: int)
      modifies this`activeId, this`published, this`publishedActive, this`publishedClosed
      ensures State() == Select(old(State()), id)
    {
      var target := FindTab(id);
      if target < 0 || activeId == id {
        return;
      }
      activeId := id;
      PublishTabs();
    }

    method CreateTab(id: int, index: int, pinned: bool, foreground: bool, view: View) returns (made: bool)
      modifies this
      ensures State() == Create(old(State()), id, index, pinned, foreground, view)
      ensures made == CanCreate(old(State()), id, view)
    {
      var existing := FindTab(id);
      if id <= 0 || existing >= 0 || view.NoView? {
        return false;
      }
      var at := ClampIndex(index, pinned);
      tabs := tabs[..at] + [Tab(id, pinned, view.page.title, view.page.url)] + tabs[at..];
      if foreground || activeId == 0 {
        SelectTab(id);
      } else {
        PublishTabs();
      }
      return true;
    }

    method LoadInTab(id: int, load: Load)
      modifies this`tabs, this`published, this`publishedActive, this`publishedClosed
      ensures State() == LoadIn(old(State()), id, load)
    {
      var at := FindTab(id);
      if at < 0 || load.NotIssued? {
        return;
      }
      tabs := tabs[at := tabs[at].(title := load.page.title, url := load.page.url)];
      PublishTabs();
    }

    method OpenTab(id: int, index: int, foreground: bool, configured: bool, view: View, load: Load)
      modifies this
      ensures State() == Open(old(State()), id, index, foreground, configured, view, load)
    {
      if !configured {
        return;
      }
      var made := CreateTab(id, index, false, foreground, view);
      if made {
        LoadInTab(id, load);
      }
    }

    method RememberClosedTab(tab: Tab, index: int)
      modifies this`closed
      ensures closed == Remember(old(closed), tab, index)
    {
      if tab.url == [] {
        return;
      }
      closed := closed + [ClosedTab(tab.url, tab.title, index, tab.pinned)];
      if |closed| > CLOSED_TAB_HISTORY {
        closed := closed[1..];
      }
    }

    /** Destroying a tab runs its observers, and a page may open others from there. */
    method DestroyTab(arrivals: seq<Arrival>)
      modifies this
      ensures State() == Arrive(old(State()), arrivals)
    {
      for i := 0 to |arrivals|
        invariant Arrive(State(), arrivals[i..]) == Arrive(old(State()), arrivals)
      {
        assert arrivals[i..][0] == arrivals[i] && arrivals[i..][1..] == arrivals[i + 1..];
        var made := CreateTab(arrivals[i].id, -1, false, true, arrivals[i].view);
      }
    }

    method CloseTab(id: int, arrivals: seq<Arrival>)
      modifies this
      ensures State() == Close(old(State()), id, arrivals)
    {
      var at := IndexOfTab(id);
      if at < 0 {
        return;
      }
      var wasActive := activeId == id;
      RememberClosedTab(tabs[at], at);
      DestroyTab(arrivals);
      tabs := tabs[..at] + tabs[at + 1..];
      if wasActive {
        SelectNeighbour(at);
        return;
      }
      PublishTabs();
    }

    method SelectNeighbour(index: nat)
      modifies this`activeId, this`published, this`publishedActive, this`publishedClosed
      ensures State() == SelectAfterRemoval(old(State()), index)
    {
      activeId := 0;
      if |tabs| == 0 {
        PublishTabs();
        return;
      }
      var next := index;
      if next >= |tabs| {
        next := |tabs| - 1;
      }
      SelectTab(tabs[next].id);
    }

    method CloseOtherTabs(id: int, batches: seq<seq<Arrival>>)
      modifies this
      ensures State() == CloseOthers(old(State()), id, batches)
    {
      var at := IndexOfTab(id);
      if at < 0 {
        return;
      }
      SelectTab(id);
      var doomed := OtherIds(id);
      CloseDoomed(doomed, batches);
    }

    /** The ids of every tab but one, as the list stands before any is closed. */
    method OtherIds(id: int) returns (doomed: seq<int>)
      ensures doomed == Others(tabs, id)
    {
      doomed := [];
      ghost var rest := tabs;
      for i := 0 to |tabs|
        invariant rest == tabs[i..] && doomed + Others(rest, id) == Others(tabs, id)
      {
        assert rest == [tabs[i]] + rest[1..];
        rest := rest[1..];
        doomed := WithOther(doomed, tabs[i], id, rest);
      }
      assert doomed + [] == doomed;
    }

    static method WithOther(doomed: seq<int>, tab: Tab, id: int, ghost later: seq<Tab>) returns (more: seq<int>)
      ensures more + Others(later, id) == doomed + Others([tab] + later, id)
    {
      assert ([tab] + later)[1..] == later;
      Shift(doomed, tab.id, Others(later, id));
      more := if tab.id != id then doomed + [tab.id] else doomed;
    }

    method CloseDoomed(doomed: seq<int>, batches: seq<seq<Arrival>>)
      modifies this
      ensures State() == CloseEach(old(State()), doomed, batches)
    {
      for k := 0 to |doomed|
        invariant CloseEach(State(), doomed[k..], if k < |batches| then batches[k..] else [])
               == CloseEach(old(State()), doomed, batches)
      {
        assert doomed[k..][0] == doomed[k] && doomed[k..][1..] == doomed[k + 1..];
        ghost var left := if k < |batches| then batches[k..] else [];
        assert During(left, 0) == During(batches, k);
        assert (if left == [] then [] else left[1..]) == if k + 1 < |batches| then batches[k + 1..] else [];
        CloseTab(doomed[k], if k < |batches| then batches[k] else []);
      }
    }

    method CloseAllTabs(batches: seq<seq<Arrival>>)
      modifies this
      ensures State() == CloseAll(old(State()), batches)
    {
      if |tabs| == 0 {
        return;
      }
      activeId := 0;
      RememberEveryTab();
      DestroyEveryTab(batches);
      activeId := 0;
      PublishTabs();
    }

    method RememberEveryTab()
      modifies this`closed
      ensures closed == RememberAll(old(closed), tabs, 0)
    {
      for at := 0 to |tabs|
        invariant RememberAll(closed, tabs, at) == RememberAll(old(closed), tabs, 0)
      {
        RememberClosedTab(tabs[at], at);
      }
    }

    /** Takes the tabs off from the back; tearing one down may bring new ones. */
    method DestroyEveryTab(batches: seq<seq<Arrival>>)
      modifies this
      ensures State() == DestroyAll(old(State()), batches)
    {
      var turn := 0;
      while |tabs| > 0
        invariant turn <= |batches|
        invariant DestroyAll(State(), batches[turn..]) == DestroyAll(old(State()), batches)
        decreases |batches| - turn, |tabs|
      {
        tabs := tabs[..|tabs| - 1];
        if turn < |batches| {
          assert batches[turn..][0] == batches[turn] && batches[turn..][1..] == batches[turn + 1..];
          DestroyTab(batches[turn]);
          turn := turn + 1;
        }
      }
    }

    method ReopenClosedTab(id: int, ready: bool, configured: bool, view: View, load: Load)
      modifies this
      ensures State() == Reopen(old(State()), id, ready, configured, view, load)
    {
      if |closed| == 0 || !ready {
        return;
      }
      var last := closed[|closed| - 1];
      closed := closed[..|closed| - 1];
      if !configured {
        return;
      }
      var made := CreateTab(id, last.index, last.pinned, true, view);
      if !made {
        return;
      }
      EntitleTab(id, last.title);
      LoadInTab(id, load);
    }

    method EntitleTab(id: int, title: string)
      modifies this
      ensures State() == if title == [] then old(State()) else Entitle(old(State()), id, title)
    {
      if title != [] {
        var at := IndexOfTab(id);
        if at >= 0 {
          tabs := tabs[at := tabs[at].(title := title)];
          PublishTabs();
        }
      }
    }

    method SelectTabAtIndex(index: int)
      modifies this
      ensures State() == SelectAtIndex(old(State()), index)
    {
      if index < 0 || index >= |tabs| {
        return;
      }
      SelectTab(tabs[index].id);
    }

    /** The remainder of a truncating division, which keeps the dividend's sign. */
    static function Remainder(a: int, b: int): int
      requires b > 0
    {
      if a >= 0 then a % b else -((-a) % b)
    }

    static lemma {:induction false} AtLeastOnce(n: nat, b: nat)
      requires n >= 1
      ensures n * b >= b
    {
      if n > 1 {
        AtLeastOnce(n - 1, b);
      }
    }

    static lemma OneQuotient(b: int, p: int, r: int, q: int, s: int)
      requires 0 <= r < b && 0 <= s < b && p * b + r == q * b + s && p <= q
      ensures r == s
    {
      if p < q {
        var n := q - p;
        assert q == p + n;
        assert (p + n) * b == p * b + n * b;
        AtLeastOnce(n, b);
        assert false;
      }
    }

    static lemma OneQuotientEither(b: int, p: int, r: int, q: int, s: int)
      requires 0 <= r < b && 0 <= s < b && p * b + r == q * b + s
      ensures r == s
    {
      if p <= q {
        OneQuotient(b, p, r, q, s);
      } else {
        OneQuotient(b, q, s, p, r);
      }
    }

    static lemma NegativeQuotient(a: int, b: int, q: int, m: int)
      requires b > 0 && a == -(q * b + m) && 0 <= m < b
      ensures a % b == if m == 0 then 0 else b - m
    {
      assert a == (a / b) * b + a % b;
      if m == 0 {
        assert (-q) * b == -(q * b);
        OneQuotientEither(b, a / b, a % b, -q, 0);
      } else {
        assert (-q - 1) * b == -(q * b) - b;
        OneQuotientEither(b, a / b, a % b, -q - 1, b - m);
      }
    }

    static lemma WrapsAround(a: int, b: int)
      requires b > 0
      ensures (if Remainder(a, b) < 0 then Remainder(a, b) + b else Remainder(a, b)) == a % b
    {
      if a < 0 {
        var q, m := (-a) / b, (-a) % b;
        assert -a == q * b + m;
        NegativeQuotient(a, b, q, m);
      }
    }

    method SelectAdjacentTab(delta: int)
      modifies this
      ensures State() == SelectAdjacent(old(State()), delta)
    {
      if |tabs| == 0 {
        return;
      }
      var count := |tabs|;
      var at := IndexOfTab(activeId);
      if at < 0 {
        at := 0;
      }
      var next := Wrapped(at + delta, count);
      SelectTab(tabs[next].id);
    }

    static method Wrapped(place: int, count: nat) returns (next: nat)
      requires count > 0
      ensures next == place % count && next < count
    {
      WrapsAround(place, count);
      var left := Remainder(place, count);
      next := if left < 0 then left + count else left;
    }

    method MoveTab(id: int, toIndex: int)
      modifies this
      ensures State() == Move(old(State()), id, toIndex)
    {
      var from := IndexOfTab(id);
      if from < 0 {
        return;
      }
      var moved := tabs[from];
      tabs := tabs[..from] + tabs[from + 1..];
      var at := ClampIndex(toIndex, moved.pinned);
      tabs := tabs[..at] + [moved] + tabs[at..];
      PublishTabs();
    }

    method SetTabPinned(id: int, pinned: bool)
      modifies this
      ensures State() == SetPinned(old(State()), id, pinned)
    {
      var from := IndexOfTab(id);
      if from < 0 || tabs[from].pinned == pinned {
        return;
      }
      var moved := tabs[from].(pinned := pinned);
      tabs := tabs[..from] + tabs[from + 1..];
      var at := CountPinned();
      tabs := tabs[..at] + [moved] + tabs[at..];
      PublishTabs();
    }
  }
}
