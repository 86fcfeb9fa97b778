/** What every run of the history keeps, and what forgetting a stretch of time does. */
module HistoryRuns {
  import opened History
  import opened Sequences

  // --- One address's visits -------------------------------------------------------------------

  lemma {:induction false} SpacedAscends(visits: seq<real>)
    requires Spaced(visits)
    ensures Ascends(visits)
  {
    if visits != [] {
      var n := |visits| - 1;
      SpacedAscends(visits[..n]);
      forall i, j | 0 <= i < j < |visits|
        ensures visits[i] <= visits[j]
      {
        if j == n {
          assert i < n - 1 ==> visits[..n][i] <= visits[..n][n - 1];
        } else {
          assert visits[..n][i] <= visits[..n][j];
        }
      }
    }
  }

  lemma NewestKeeps(visits: seq<real>)
    ensures Spaced(visits) ==> Spaced(Newest(visits))
    ensures forall v <- Newest(visits) :: v in visits
    ensures |Newest(visits)| <= MAX_VISITS
  {
  }

  /** Recording keeps visits apart exactly when the visit is not more than the window
      earlier than it should be: only one folded onto the last can come too close, to
      the one before that. */
  lemma SpacingKeptExactlyWhen(visits: seq<real>, at: real)
    requires Spaced(visits) && |visits| <= MAX_VISITS
    ensures Spaced(Visited(visits, at)) <==> |visits| < 2 || at >= visits[|visits| - 2] + SAME_VISIT_SECONDS
  {
    var n := |visits|;
    if n > 0 && at - visits[n - 1] < SAME_VISIT_SECONDS {
      var merged := visits[..n - 1] + [at];
      assert n >= 2 ==> merged[n - 2] == visits[n - 2] && merged[n - 1] == at;
      assert merged[..n - 1] == visits[..n - 1];
    } else {
      var longer := visits + [at];
      assert Spaced(longer);
      NewestKeeps(longer);
      assert n >= 2 ==> visits[n - 2] + SAME_VISIT_SECONDS <= visits[n - 1];
    }
  }

  lemma AscendsPlus(visits: seq<real>, at: real)
    requires Ascends(visits)
    ensures Ascends(visits + [at]) <==> visits == [] || at >= visits[|visits| - 1]
  {
    var n := |visits|;
    if n > 0 {
      assert (visits + [at])[n - 1] == visits[n - 1] && (visits + [at])[n] == at;
    }
  }

  lemma NewestAscends(visits: seq<real>)
    requires Ascends(visits)
    ensures Ascends(Newest(visits))
  {
  }

  /** Recording keeps visits in order exactly when the visit is not before the one
      before the last: a clock that goes back less far only moves the last visit. */
  lemma OrderKeptExactlyWhen(visits: seq<real>, at: real)
    requires Ascends(visits) && |visits| <= MAX_VISITS
    ensures Ascends(Visited(visits, at)) <==> |visits| < 2 || at >= visits[|visits| - 2]
  {
    var n := |visits|;
    if n > 0 && at - visits[n - 1] < SAME_VISIT_SECONDS {
      AscendsPlus(visits[..n - 1], at);
    } else {
      AscendsPlus(visits, at);
      NewestAscends(visits + [at]);
      assert n >= 2 ==> visits[n - 2] <= visits[n - 1];
    }
  }

  /** The search suits a list at every moment exactly when the list is in order. */
  lemma OrderIsWhatSearchingNeeds(visits: seq<real>)
    ensures Ascends(visits) <==> forall since :: Splits(visits, since)
  {
    if forall since :: Splits(visits, since) {
      forall i, j | 0 <= i < j < |visits|
        ensures visits[i] <= visits[j]
      {
        assert Splits(visits, visits[i]);
      }
    }
  }

  lemma VisitedAre(visits: seq<real>, at: real)
    ensures forall v <- Visited(visits, at) :: v in visits || v == at
    ensures 0 < |Visited(visits, at)| <= MAX_VISITS
  {
    var n := |visits|;
    if n > 0 {
      NewestKeeps(visits[..n - 1] + [at]);
      assert forall v <- visits[..n - 1] + [at] :: v in visits || v == at;
    }
    NewestKeeps(visits + [at]);
  }

  lemma VisitedKeeps(entry: Entry, at: real, clock: real)
    requires IsSound(entry) && at > 0.0
    ensures IsSound(entry.(visits := Visited(entry.visits, at)))
    ensures IsTimely(entry, clock) && at >= clock ==> IsTimely(entry.(visits := Visited(entry.visits, at)), at)
  {
    var visits := entry.visits;
    VisitedAre(visits, at);
    if IsTimely(entry, clock) && at >= clock {
      SpacingKeptExactlyWhen(visits, at);
      var n := |visits|;
      assert n >= 2 ==> visits[n - 2] + SAME_VISIT_SECONDS <= visits[n - 1];
      assert visits[n - 1] in visits;
    }
  }

  // --- Entries ----------------------------------------------------------------------------------

  lemma NotedKeeps(entries: seq<Entry>, url: string, title: string, at: real, clock: real)
    requires Unique(entries) && (forall e <- entries :: IsSound(e)) && at > 0.0
    ensures var noted := Noted(entries, url, title, at);
            && Unique(noted) && (forall e <- noted :: IsSound(e))
            && (Timely(entries, clock) && at >= clock ==> Timely(noted, at))
  {
    var place := Find(entries, url);
    var noted := Noted(entries, url, title, at);
    if place >= 0 {
      assert entries[place] in entries;
      VisitedKeeps(Named(entries[place], title), at, clock);
    } else {
      assert Visited([], at) == [at];
    }
    assert forall i :: 0 <= i < |entries| ==> entries[i] in entries && noted[i].url == entries[i].url;
  }

  lemma TrimmedKeeps(kept: seq<Entry>, entries: seq<Entry>)
    requires IsTrimmed(kept, entries) && Unique(entries)
    ensures Unique(kept) && |kept| <= MAX_ENTRIES
    ensures forall e <- kept :: e in entries
  {
    if |entries| > MAX_ENTRIES {
      var sorted :| IsByLastVisit(sorted, entries) && kept == sorted[..MAX_ENTRIES];
      SameMembersSameUnique(sorted, entries);
      assert forall e <- kept :: e in sorted;
      assert forall e <- sorted :: e in multiset(sorted);
    }
  }

  /** Nothing recently visited is dropped in favour of something older. */
  lemma TrimKeepsTheNewest(kept: seq<Entry>, entries: seq<Entry>, dropped: Entry)
    requires IsTrimmed(kept, entries) && dropped in entries && dropped !in kept
    ensures forall e <- kept :: LastVisit(e) >= LastVisit(dropped)
  {
    if |entries| > MAX_ENTRIES {
      var sorted :| IsByLastVisit(sorted, entries) && kept == sorted[..MAX_ENTRIES];
      assert dropped in multiset(entries);
      assert dropped in sorted;
      var at :| 0 <= at < |sorted| && sorted[at] == dropped;
      assert forall i :: 0 <= i < MAX_ENTRIES ==> kept[i] == sorted[i] && kept[i] in kept;
    }
  }

  lemma SameMembersSameUnique(a: seq<Entry>, b: seq<Entry>)
    requires multiset(a) == multiset(b) && Unique(b)
    ensures Unique(a)
  {
    forall i, j | 0 <= i < j < |a|
      ensures a[i].url != a[j].url
    {
      assert a[i] in multiset(a) && a[j] in multiset(a);
      assert a[i] in multiset(b) && a[j] in multiset(b);
      var k :| 0 <= k < |b| && b[k] == a[i];
      var l :| 0 <= l < |b| && b[l] == a[j];
      if k == l {
        TwiceInMultiset(a, i, j);
        OnceInMultiset(b, k);
        assert false;
      }
    }
  }

  lemma TwiceInMultiset(a: seq<Entry>, i: nat, j: nat)
    requires i < j < |a| && a[i] == a[j]
    ensures multiset(a)[a[i]] >= 2
  {
    assert a == a[..j] + ([a[j]] + a[j + 1..]);
    assert a[..j][i] == a[i];
    assert multiset(a) == multiset(a[..j]) + multiset([a[j]]) + multiset(a[j + 1..]);
    assert a[i] in multiset(a[..j]);
  }

  lemma OnceInMultiset(b: seq<Entry>, k: nat)
    requires Unique(b) && k < |b|
    ensures multiset(b)[b[k]] == 1
  {
    assert b == b[..k] + ([b[k]] + b[k + 1..]);
    assert multiset(b) == multiset(b[..k]) + multiset([b[k]]) + multiset(b[k + 1..]);
    assert b[k] !in b[..k] && b[k] !in b[k + 1..];
  }

  // --- What is dropped ------------------------------------------------------------------------

  /** Fewer entries, each one of them an earlier one, perhaps with fewer visits. */
  ghost predicate Thinned(fewer: seq<Entry>, entries: seq<Entry>) {
    forall e <- fewer :: exists was <- entries ::
      e.url == was.url && e.title == was.title && e.visits != [] && e.visits <= was.visits
  }

  lemma UniqueWith(entry: Entry, rest: seq<Entry>)
    requires Unique(rest) && forall e <- rest :: e.url != entry.url
    ensures Unique([entry] + rest)
  {
  }

  lemma UniqueTail(entries: seq<Entry>)
    requires Unique(entries) && entries != []
    ensures Unique(entries[1..]) && forall e <- entries[1..] :: e.url != entries[0].url
  {
  }

  lemma {:induction false} WithoutIs(entries: seq<Entry>, drop: Entry -> bool)
    ensures forall e :: e in Without(entries, drop) <==> e in entries && !drop(e)
    ensures |Without(entries, drop)| <= |entries|
  {
    if entries != [] {
      WithoutIs(entries[1..], drop);
      assert entries == [entries[0]] + entries[1..];
    }
  }

  lemma {:induction false} WithoutIsUnique(entries: seq<Entry>, drop: Entry -> bool)
    requires Unique(entries)
    ensures Unique(Without(entries, drop))
  {
    if entries != [] {
      UniqueTail(entries);
      WithoutIsUnique(entries[1..], drop);
      WithoutIs(entries[1..], drop);
      UniqueWith(entries[0], Without(entries[1..], drop));
    }
  }

  lemma CutIsUnique(cut: seq<Entry>, entries: seq<Entry>, since: real)
    requires AreCut(cut, entries, since) && Unique(entries)
    ensures Unique(cut)
  {
    assert forall i :: 0 <= i < |cut| ==> cut[i].url == entries[i].url;
  }

  lemma ForgottenIs(left: seq<Entry>, entries: seq<Entry>, since: real)
    requires IsForgotten(left, entries, since) && Unique(entries) && forall e <- entries :: e.visits != []
    ensures Thinned(left, entries) && |left| <= |entries| && Unique(left)
  {
    if since > 0.0 {
      var cut :| AreCut(cut, entries, since) && left == Kept(cut, entries);
      if cut == entries {
        return;
      }
      CutIsUnique(cut, entries, since);
      WithoutIs(cut, HasNoVisit());
      WithoutIsUnique(cut, HasNoVisit());
      forall e <- left
        ensures exists was <- entries ::
                  e.url == was.url && e.title == was.title && e.visits != [] && e.visits <= was.visits
      {
        var i :| 0 <= i < |cut| && cut[i] == e;
        assert entries[i] in entries;
      }
    }
  }

  lemma ThinnedKeeps(fewer: seq<Entry>, entries: seq<Entry>, clock: real)
    requires Thinned(fewer, entries) && forall e <- entries :: IsSound(e)
    ensures forall e <- fewer :: IsSound(e)
    ensures Timely(entries, clock) ==> Timely(fewer, clock)
  {
    forall e <- fewer
      ensures IsSound(e) && (Timely(entries, clock) ==> IsTimely(e, clock))
    {
      var was :| was in entries && e.url == was.url && e.title == was.title && e.visits != [] && e.visits <= was.visits;
      assert forall v <- e.visits :: v in was.visits;
      assert IsSound(was) && (Timely(entries, clock) ==> IsTimely(was, clock));
    }
  }

  // --- Every run --------------------------------------------------------------------------------

  lemma RetitledKeeps(entries: seq<Entry>, url: string, title: string, clock: real)
    requires Sound(entries)
    ensures Sound(Retitled(entries, url, title))
    ensures Timely(entries, clock) ==> Timely(Retitled(entries, url, title), clock)
  {
    var after := Retitled(entries, url, title);
    assert forall i :: 0 <= i < |entries| ==>
        entries[i] in entries && after[i].url == entries[i].url && after[i].visits == entries[i].visits;
  }

  lemma RecordKeeps(entries: seq<Entry>, url: string, title: string, at: real, kept: seq<Entry>, clock: real)
    requires Sound(entries) && at > 0.0 && IsTrimmed(kept, Noted(entries, url, title, at))
    ensures Sound(kept)
    ensures Timely(entries, clock) && at >= clock ==> Timely(kept, at)
  {
    NotedKeeps(entries, url, title, at, clock);
    TrimmedKeeps(kept, Noted(entries, url, title, at));
  }

  lemma ForgetKeeps(entries: seq<Entry>, step: Step, clock: real)
    requires Sound(entries) && (step.ForgetUrl? || step.ForgetHost? || step.ForgetSince?)
    ensures Sound(Next(entries, step))
    ensures Timely(entries, clock) ==> Timely(Next(entries, step), clock)
  {
    match step
    case ForgetUrl(url) =>
      WithoutIs(entries, HasUrl(url));
      WithoutIsUnique(entries, HasUrl(url));
    case ForgetHost(host) =>
      WithoutIs(entries, HasHost(Address.FoldCase(host)));
      WithoutIsUnique(entries, HasHost(Address.FoldCase(host)));
    case ForgetSince(since, left) =>
      if IsForgotten(left, entries, since) {
        ForgottenIs(left, entries, since);
        ThinnedKeeps(left, entries, clock);
      }
  }

  lemma NextKeepsSound(entries: seq<Entry>, step: Step)
    requires Sound(entries)
    ensures Sound(Next(entries, step))
  {
    match step
    case Record(url, title, at, kept) =>
      if at > 0.0 && IsTrimmed(kept, Noted(entries, url, title, at)) {
        RecordKeeps(entries, url, title, at, kept, 0.0);
      }
    case Retitle(url, title) => RetitledKeeps(entries, url, title, 0.0);
    case _ => ForgetKeeps(entries, step, 0.0);
  }

  lemma NextKeepsTimely(entries: seq<Entry>, step: Step, clock: real)
    requires Sound(entries) && Timely(entries, clock) && (step.Record? ==> step.at >= clock)
    ensures Timely(Next(entries, step), if step.Record? then step.at else clock)
  {
    match step
    case Record(url, title, at, kept) =>
      if at > 0.0 && IsTrimmed(kept, Noted(entries, url, title, at)) {
        RecordKeeps(entries, url, title, at, kept, clock);
      }
    case Retitle(url, title) => RetitledKeeps(entries, url, title, clock);
    case _ => ForgetKeeps(entries, step, clock);
  }

  /** Whatever the clock does, addresses are unique, the caps hold and no entry is
      without a visit. */
  lemma {:induction false} EveryRunIsSound(steps: seq<Step>)
    ensures Sound(Run(steps))
  {
    if steps != [] {
      EveryRunIsSound(steps[..|steps| - 1]);
      NextKeepsSound(Run(steps[..|steps| - 1]), steps[|steps| - 1]);
    }
  }

  /** While the clock never goes back, visits ascend and stay two seconds apart. */
  lemma {:induction false} EveryRunIsTimely(steps: seq<Step>)
    requires ClockNeverGoesBack(steps)
    ensures Timely(Run(steps), Clock(steps))
  {
    if steps != [] {
      var before := steps[..|steps| - 1];
      EveryRunIsTimely(before);
      EveryRunIsSound(before);
      NextKeepsTimely(Run(before), steps[|steps| - 1], Clock(before));
    }
  }

  /** With a clock that goes back, visits can end up less than two seconds apart. */
  lemma ClockBackComesTooClose()
    ensures Spaced([10.0, 20.0]) && !Spaced(Visited([10.0, 20.0], 11.0))
  {
    SpacingKeptExactlyWhen([10.0, 20.0], 11.0);
  }

  /** With one that goes back further, they can end up out of order. */
  lemma ClockBackDisorders()
    ensures Ascends([10.0, 20.0]) && Visited([10.0, 20.0], 5.0) == [10.0, 5.0] && !Ascends([10.0, 5.0])
  {
    OrderKeptExactlyWhen([10.0, 20.0], 5.0);
    assert [10.0, 20.0][..1] == [10.0];
  }

  // --- Forgetting a stretch of time -------------------------------------------------------------

  datatype Visit = Visit(url: string, title: string, at: real)

  function VisitsOf(entry: Entry): (all: seq<Visit>)
    ensures |all| == |entry.visits|
    ensures forall i :: 0 <= i < |all| ==> all[i] == Visit(entry.url, entry.title, entry.visits[i])
  {
    seq(|entry.visits|, i requires 0 <= i < |entry.visits| => Visit(entry.url, entry.title, entry.visits[i]))
  }

  /** Every visit in the history, address by address. */
  function AllVisits(entries: seq<Entry>): seq<Visit> {
    if entries == [] then [] else VisitsOf(entries[0]) + AllVisits(entries[1..])
  }

  function Before(visits: seq<Visit>, since: real): seq<Visit> {
    if visits == [] then []
    else (if visits[0].at < since then [visits[0]] else []) + Before(visits[1..], since)
  }

  lemma {:induction false} BeforeConcat(front: seq<Visit>, back: seq<Visit>, since: real)
    ensures Before(front + back, since) == Before(front, since) + Before(back, since)
  {
    if front == [] {
      assert front + back == back;
    } else {
      BeforeConcat(front[1..], back, since);
      assert (front + back)[1..] == front[1..] + back && (front + back)[0] == front[0];
      Associates(if front[0].at < since then [front[0]] else [], Before(front[1..], since), Before(back, since));
    }
  }

  lemma {:induction false} BeforeNone(visits: seq<Visit>, since: real)
    requires forall v <- visits :: v.at >= since
    ensures Before(visits, since) == []
  {
    if visits != [] {
      assert visits[0] in visits;
      BeforeNone(visits[1..], since);
    }
  }

  lemma {:induction false} BeforeAll(visits: seq<Visit>, since: real)
    requires forall v <- visits :: v.at < since
    ensures Before(visits, since) == visits
  {
    if visits != [] {
      assert visits[0] in visits;
      BeforeAll(visits[1..], since);
    }
  }

  lemma {:induction false} BeforeIs(visits: seq<Visit>, since: real)
    ensures forall v :: v in Before(visits, since) <==> v in visits && v.at < since
  {
    if visits != [] {
      BeforeIs(visits[1..], since);
      assert visits == [visits[0]] + visits[1..];
    }
  }

  lemma {:induction false} EarlierEnds(visits: seq<real>, since: real)
    requires Splits(visits, since)
    ensures var n := |Earlier(visits, since)|;
            && (forall i :: 0 <= i < n ==> visits[i] < since)
            && (forall i :: n <= i < |visits| ==> visits[i] >= since)
  {
    if visits != [] {
      assert forall i :: 0 <= i < |visits| - 1 ==> visits[1..][i] == visits[i + 1];
      if visits[0] < since {
        EarlierEnds(visits[1..], since);
      }
    }
  }

  lemma FrontOf(entry: Entry, left: seq<real>) returns (front: seq<Visit>, back: seq<Visit>)
    requires left <= entry.visits
    ensures front == VisitsOf(entry.(visits := left)) && VisitsOf(entry) == front + back && |front| == |left|
    ensures |back| == |entry.visits| - |left|
    ensures forall j :: |left| <= j < |entry.visits| ==> back[j - |left|].at == entry.visits[j]
  {
    front, back := VisitsOf(entry)[..|left|], VisitsOf(entry)[|left|..];
    assert front == VisitsOf(entry.(visits := left));
  }

  lemma FrontIsBefore(entry: Entry, left: seq<real>, since: real)
    requires left <= entry.visits && forall i :: 0 <= i < |left| ==> left[i] < since
    requires forall j :: |left| <= j < |entry.visits| ==> entry.visits[j] >= since
    ensures VisitsOf(entry.(visits := left)) == Before(VisitsOf(entry), since)
  {
    var front, back := FrontOf(entry, left);
    forall v <- front
      ensures v.at < since
    {
      var i :| 0 <= i < |front| && front[i] == v;
      assert left[i] < since;
    }
    forall v <- back
      ensures v.at >= since
    {
      var i :| 0 <= i < |back| && back[i] == v;
      assert entry.visits[i + |left|] >= since;
    }
    FrontBack(front, back, since);
  }

  lemma FrontBack(front: seq<Visit>, back: seq<Visit>, since: real)
    requires (forall v <- front :: v.at < since) && (forall v <- back :: v.at >= since)
    ensures Before(front + back, since) == front
  {
    BeforeConcat(front, back, since);
    BeforeAll(front, since);
    BeforeNone(back, since);
  }

  /** The visits of one address before the moment are what a search that suits them leaves. */
  lemma CutOfSplit(entry: Entry, left: seq<real>, since: real)
    requires IsCut(left, entry.visits, since) && Splits(entry.visits, since)
    ensures VisitsOf(entry.(visits := left)) == Before(VisitsOf(entry), since)
  {
    EarlierEnds(entry.visits, since);
    FrontIsBefore(entry, left, since);
  }

  lemma CutIsNoMore(entry: Entry, left: seq<real>, since: real)
    requires left <= entry.visits && forall i :: 0 <= i < |left| ==> left[i] < since
    ensures |left| <= |Before(VisitsOf(entry), since)|
    ensures |left| == |Before(VisitsOf(entry), since)| ==> Splits(entry.visits, since)
  {
    var front, back := FrontOf(entry, left);
    BeforeConcat(front, back, since);
    BeforeAll(front, since);
    BeforeIs(back, since);
    if Before(back, since) == [] {
      forall j | |left| <= j < |entry.visits|
        ensures entry.visits[j] >= since
      {
        assert back[j - |left|] in back;
      }
      SplitsAt(entry.visits, since, |left|);
    }
  }

  lemma SplitsAt(visits: seq<real>, since: real, at: nat)
    requires at <= |visits| && forall i :: 0 <= i < at ==> visits[i] < since
    requires forall j :: at <= j < |visits| ==> visits[j] >= since
    ensures Splits(visits, since)
  {
  }

  ghost predicate AllSplit(entries: seq<Entry>, since: real) {
    forall e <- entries :: Splits(e.visits, since)
  }

  lemma AreCutRest(cut: seq<Entry>, entries: seq<Entry>, since: real)
    requires AreCut(cut, entries, since) && entries != []
    ensures AreCut(cut[1..], entries[1..], since)
    ensures cut[0] == entries[0].(visits := cut[0].visits) && IsCut(cut[0].visits, entries[0].visits, since)
  {
  }

  lemma AllSplitRest(entries: seq<Entry>, since: real)
    requires entries != []
    ensures AllSplit(entries, since) <==> Splits(entries[0].visits, since) && AllSplit(entries[1..], since)
  {
    assert entries == [entries[0]] + entries[1..];
  }

  lemma {:induction false} CutsOfSplit(cut: seq<Entry>, entries: seq<Entry>, since: real)
    requires AreCut(cut, entries, since) && AllSplit(entries, since)
    ensures AllVisits(cut) == Before(AllVisits(entries), since)
  {
    if entries != [] {
      AreCutRest(cut, entries, since);
      AllSplitRest(entries, since);
      CutsOfSplit(cut[1..], entries[1..], since);
      CutOfSplit(entries[0], cut[0].visits, since);
      BeforeConcat(VisitsOf(entries[0]), AllVisits(entries[1..]), since);
    }
  }

  /** Where only visits before the moment are left, there are no more of them than
      there were, and as many only if the search suits every list. */
  lemma {:induction false} CutsAreNoMore(cut: seq<Entry>, entries: seq<Entry>, since: real)
    requires AreCut(cut, entries, since) && forall v <- AllVisits(cut) :: v.at < since
    ensures |AllVisits(cut)| <= |Before(AllVisits(entries), since)|
    ensures |AllVisits(cut)| == |Before(AllVisits(entries), since)| ==> AllSplit(entries, since)
  {
    if entries != [] {
      AreCutRest(cut, entries, since);
      AllSplitRest(entries, since);
      CutsAreNoMore(cut[1..], entries[1..], since);
      forall i | 0 <= i < |cut[0].visits|
        ensures cut[0].visits[i] < since
      {
        assert VisitsOf(cut[0])[i] in AllVisits(cut);
      }
      CutIsNoMore(entries[0], cut[0].visits, since);
      BeforeConcat(VisitsOf(entries[0]), AllVisits(entries[1..]), since);
    }
  }

  lemma {:induction false} NoVisitCountsForNothing(cut: seq<Entry>)
    ensures AllVisits(Without(cut, HasNoVisit())) == AllVisits(cut)
  {
    if cut != [] {
      NoVisitCountsForNothing(cut[1..]);
      var kept := Without(cut[1..], HasNoVisit());
      AllVisitsOf(cut[0], kept);
      assert AllVisits(cut) == VisitsOf(cut[0]) + AllVisits(cut[1..]);
      assert Without(cut, HasNoVisit()) == if cut[0].visits == [] then kept else [cut[0]] + kept;
    }
  }

  lemma AllVisitsOf(entry: Entry, rest: seq<Entry>)
    ensures AllVisits([entry] + rest) == VisitsOf(entry) + AllVisits(rest)
    ensures entry.visits == [] ==> VisitsOf(entry) == [] && AllVisits([entry] + rest) == AllVisits(rest)
  {
    assert ([entry] + rest)[1..] == rest;
  }

  /** Forgetting since a moment leaves exactly the visits before it, address by address
      and in order, if and only if the search suits every list of visits. */
  lemma ForgetIsFilterExactlyWhen(left: seq<Entry>, entries: seq<Entry>, since: real)
    requires since > 0.0 && IsForgotten(left, entries, since)
    ensures AllVisits(left) == Before(AllVisits(entries), since) <==> AllSplit(entries, since)
  {
    var cut :| AreCut(cut, entries, since) && left == Kept(cut, entries);
    NoVisitCountsForNothing(cut);
    if AllSplit(entries, since) {
      CutsOfSplit(cut, entries, since);
    } else if AllVisits(left) == Before(AllVisits(entries), since) {
      BeforeIs(AllVisits(entries), since);
      CutsAreNoMore(cut, entries, since);
    }
  }

  lemma TimelySplits(entries: seq<Entry>, clock: real, since: real)
    requires Timely(entries, clock)
    ensures AllSplit(entries, since)
  {
    forall e <- entries
      ensures Splits(e.visits, since)
    {
      assert IsTimely(e, clock);
      SpacedAscends(e.visits);
    }
  }

  lemma {:induction false} PositiveVisits(entries: seq<Entry>)
    requires forall e <- entries :: IsSound(e)
    ensures forall v <- AllVisits(entries) :: v.at > 0.0
  {
    if entries != [] {
      assert entries[0] in entries;
      PositiveVisits(entries[1..]);
      assert forall v <- VisitsOf(entries[0]) :: v.at in entries[0].visits;
    }
  }

  lemma ForgottenIsFilter(left: seq<Entry>, entries: seq<Entry>, since: real)
    requires IsForgotten(left, entries, since) && AllSplit(entries, since) && forall e <- entries :: IsSound(e)
    ensures AllVisits(left) == Before(AllVisits(entries), since)
  {
    if since <= 0.0 {
      PositiveVisits(entries);
      BeforeNone(AllVisits(entries), since);
    } else {
      ForgetIsFilterExactlyWhen(left, entries, since);
    }
  }

  /** So it does after every run over which the clock never went back. */
  lemma ForgetSinceIsFilter(steps: seq<Step>, since: real, left: seq<Entry>)
    requires ClockNeverGoesBack(steps) && IsForgotten(left, Run(steps), since)
    ensures AllVisits(Next(Run(steps), ForgetSince(since, left))) == Before(AllVisits(Run(steps)), since)
  {
    EveryRunIsTimely(steps);
    EveryRunIsSound(steps);
    TimelyForgets(Run(steps), Clock(steps), since, left);
  }

  lemma TimelyForgets(entries: seq<Entry>, clock: real, since: real, left: seq<Entry>)
    requires Sound(entries) && Timely(entries, clock) && IsForgotten(left, entries, since)
    ensures AllVisits(Next(entries, ForgetSince(since, left))) == Before(AllVisits(entries), since)
  {
    TimelySplits(entries, clock, since);
    ForgottenIsFilter(left, entries, since);
  }

  // --- A clock that goes back, and what is forgotten then ---------------------------------------

  /** One page visited at 10, at 20, and at 5 by a clock that was put back. */
  function PutBack(url: string): seq<Step> {
    [Record(url, "", 10.0, [Entry(url, "", [10.0])]), Record(url, "", 20.0, [Entry(url, "", [10.0, 20.0])]),
     Record(url, "", 5.0, [Entry(url, "", [10.0, 5.0])])]
  }

  lemma OneStepOn(before: seq<Step>, step: Step, now: seq<Entry>, all: seq<Step>)
    requires Next(Run(before), step) == now && all == before + [step]
    ensures Run(all) == now
  {
    assert all[..|all| - 1] == before;
  }

  lemma VisitFirst(url: string, at: real)
    requires Address.IsRecordable(url) && at > 0.0
    ensures Next([], Record(url, "", at, [Entry(url, "", [at])])) == [Entry(url, "", [at])]
  {
    assert Noted([], url, "", at) == [Entry(url, "", [at])];
  }

  lemma VisitAgain(url: string, visits: seq<real>, at: real, after: seq<real>)
    requires Address.IsRecordable(url) && at > 0.0 && Visited(visits, at) == after
    ensures Next([Entry(url, "", visits)], Record(url, "", at, [Entry(url, "", after)])) == [Entry(url, "", after)]
  {
    assert Noted([Entry(url, "", visits)], url, "", at) == [Entry(url, "", after)];
  }

  lemma PutBackDisorders(url: string)
    requires Address.IsRecordable(url)
    ensures Run(PutBack(url)) == [Entry(url, "", [10.0, 5.0])]
  {
    var (a, b, c) := (PutBack(url)[0], PutBack(url)[1], PutBack(url)[2]);
    VisitFirst(url, 10.0);
    OneStepOn([], a, [Entry(url, "", [10.0])], [a]);
    assert [10.0] + [20.0] == [10.0, 20.0];
    VisitAgain(url, [10.0], 20.0, [10.0, 20.0]);
    OneStepOn([a], b, [Entry(url, "", [10.0, 20.0])], [a, b]);
    ClockBackDisorders();
    VisitAgain(url, [10.0, 20.0], 5.0, [10.0, 5.0]);
    OneStepOn([a, b], c, [Entry(url, "", [10.0, 5.0])], [a, b, c]);
  }

  /** Forgetting since 7 then forgets wrongly, wherever the search stops: what should be
      left is the visit at 5, which stands behind the one at 10. */
  lemma ClockBackForgetsWrongly(url: string, left: seq<Entry>)
    requires Address.IsRecordable(url) && IsForgotten(left, Run(PutBack(url)), 7.0)
    ensures Before(AllVisits(Run(PutBack(url))), 7.0) == [Visit(url, "", 5.0)]
    ensures AllVisits(Next(Run(PutBack(url)), ForgetSince(7.0, left))) != [Visit(url, "", 5.0)]
  {
    PutBackDisorders(url);
    DisorderedForgets(Entry(url, "", [10.0, 5.0]), left);
  }

  lemma DisorderedForgets(entry: Entry, left: seq<Entry>)
    requires entry.visits == [10.0, 5.0] && IsForgotten(left, [entry], 7.0)
    ensures Before(AllVisits([entry]), 7.0) == [Visit(entry.url, entry.title, 5.0)]
    ensures AllVisits(Next([entry], ForgetSince(7.0, left))) != [Visit(entry.url, entry.title, 5.0)]
  {
    var all := [Visit(entry.url, entry.title, 10.0), Visit(entry.url, entry.title, 5.0)];
    AllVisitsOf(entry, []);
    assert [entry] + [] == [entry] && AllVisits([entry]) == all;
    BeforeOfTwo(all[0], all[1], 7.0);
    assert entry in [entry] && entry.visits[1] < 7.0 && !(entry.visits[0] < 7.0);
    ForgetIsFilterExactlyWhen(left, [entry], 7.0);
  }

  lemma BeforeOfTwo(one: Visit, other: Visit, since: real)
    requires one.at >= since && other.at < since
    ensures Before([one, other], since) == [other]
  {
    BeforeConcat([one], [other], since);
    assert [one] + [other] == [one, other] && [one][1..] == [] && [other][1..] == [];
  }
}
