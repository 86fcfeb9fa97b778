/** The history's own code: the entries and how each call edits them. */
module HistoryStore {
  import opened Address
  import opened History
  import opened HistoryQuery
  import Sequences

  class Store {
    var entries: seq<Entry>
    var dirty: bool
    var revision: int

    constructor ()
      ensures entries == [] && !dirty && revision == 0
    {
      entries, dirty, revision := [], false, 0;
    }

    method FindEntry(url: string) returns (at: int)
      ensures at == Find(entries, url)
    {
      for i := 0 to |entries|
        invariant Find(entries, url) == if Find(entries[i..], url) < 0 then -1 else i + Find(entries[i..], url)
      {
        assert entries[i..][0] == entries[i] && entries[i..][1..] == entries[i + 1..];
        if entries[i].url == url {
          return i;
        }
      }
      return -1;
    }

    method Changed()
      modifies this`dirty, this`revision
      ensures dirty && revision == old(revision) + 1
    {
      dirty := true;
      revision := revision + 1;
    }

    /** Keeps the entries visited last, up to the cap; how the sort orders equals is the
        caller's to say, and any way will do. */
    method Trim(order: seq<Entry>)
      requires |entries| > MAX_ENTRIES ==> IsByLastVisit(order, entries)
      modifies this`entries
      ensures IsTrimmed(entries, old(entries))
      ensures |old(entries)| <= MAX_ENTRIES ==> entries == old(entries)
    {
      if |entries| <= MAX_ENTRIES {
        return;
      }
      entries := order[..MAX_ENTRIES];
    }

    /** Adds the visit and folds or caps the list, as one entry at a time sees it. */
    method AddVisit(place: nat, at: real)
      requires place < |entries|
      modifies this`entries
      ensures entries == old(entries)[place := old(entries)[place].(visits := Visited(old(entries)[place].visits, at))]
    {
      var visits := entries[place].visits + [at];
      var size := |visits|;
      if size > 1 && at - visits[size - 2] < SAME_VISIT_SECONDS {
        visits := visits[..size - 1];
        visits := visits[|visits| - 1 := at];
        assert visits == entries[place].visits[..size - 2] + [at];
      }
      if |visits| > MAX_VISITS {
        visits := visits[|visits| - MAX_VISITS..];
      }
      entries := entries[place := entries[place].(visits := visits)];
    }

    /** A new address starts as an entry without a visit. */
    method Note(url: string, title: string, at: real)
      modifies this`entries
      ensures entries == Noted(old(entries), url, title, at)
    {
      assert Visited([], at) == [at];
      var place := FindEntry(url);
      if place < 0 {
        place := |entries|;
        entries := entries + [Entry(url, "", [])];
      }
      if title != [] && title != entries[place].title {
        entries := entries[place := entries[place].(title := title)];
      }
      assert entries[place].title == Named(entries[place], title).title;
      AddVisit(place, at);
    }

    method Record(url: string, title: string, moment: real, now: real, order: seq<Entry>)
      requires var noted := Noted(entries, url, title, MomentOf(moment, now));
               |noted| > MAX_ENTRIES ==> IsByLastVisit(order, noted)
      modifies this
      ensures !IsRecordable(url) ==> entries == old(entries) && dirty == old(dirty) && revision == old(revision)
      ensures IsRecordable(url) ==>
                && IsTrimmed(entries, Noted(old(entries), url, title, MomentOf(moment, now)))
                && dirty && revision == old(revision) + 1
    {
      if !IsRecordable(url) {
        return;
      }
      var at := if moment > 0.0 then moment else now;
      Note(url, title, at);
      Trim(order);
      Changed();
    }

    method Retitle(url: string, title: string)
      modifies this
      ensures entries == Retitled(old(entries), url, title)
      ensures entries == old(entries) ==> dirty == old(dirty) && revision == old(revision)
    {
      if title == [] {
        return;
      }
      var place := FindEntry(url);
      if place < 0 || entries[place].title == title {
        return;
      }
      entries := entries[place := entries[place].(title := title)];
      assert entries[place].title != old(entries)[place].title;
      Changed();
    }

    method RemoveIf(drop: Entry -> bool)
      modifies this`entries
      ensures entries == Without(old(entries), drop)
    {
      var kept := [];
      ghost var rest := entries;
      for i := 0 to |entries|
        invariant entries == old(entries) && rest == entries[i..]
        invariant kept + Without(rest, drop) == Without(entries, drop)
      {
        assert rest == [entries[i]] + rest[1..];
        rest := rest[1..];
        kept := AppendUnless(kept, entries[i], drop, rest);
      }
      assert kept + [] == kept;
      entries := kept;
    }

    method ForgetUrl(url: string)
      modifies this
      ensures entries == Without(old(entries), HasUrl(url))
      ensures |entries| == |old(entries)| ==> dirty == old(dirty) && revision == old(revision)
    {
      var before := |entries|;
      RemoveIf(HasUrl(url));
      if |entries| == before {
        return;
      }
      Changed();
    }

    method ForgetHost(host: string)
      modifies this
      ensures entries == Without(old(entries), HasHost(FoldCase(host)))
      ensures |entries| == |old(entries)| ==> dirty == old(dirty) && revision == old(revision)
    {
      var before := |entries|;
      RemoveIf(HasHost(FoldCase(host)));
      if |entries| == before {
        return;
      }
      Changed();
    }

    /** Cuts every list of visits where the search for the moment stops. */
    method CutVisits(since: real) returns (changed: bool)
      modifies this`entries
      ensures AreCut(entries, old(entries), since)
      ensures changed <==> entries != old(entries)
    {
      changed := false;
      ghost var was := entries;
      for i := 0 to |entries|
        invariant |entries| == |was|
        invariant forall j :: 0 <= j < i ==> IsEntryCut(entries[j], was[j], since)
        invariant forall j :: i <= j < |entries| ==> entries[j] == was[j]
        invariant changed <==> exists j :: 0 <= j < i && entries[j] != was[j]
      {
        var first := LowerBound(entries[i].visits, since);
        SearchedIsCut(entries[i].visits, since, first);
        if first != |entries[i].visits| {
          entries := entries[i := entries[i].(visits := entries[i].visits[..first])];
          changed := true;
          assert entries[i] != was[i];
        } else {
          assert entries[i].visits[..first] == entries[i].visits;
        }
      }
    }

    method ForgetSince(since: real)
      modifies this
      ensures IsForgotten(entries, old(entries), since)
      ensures entries == old(entries) ==> dirty == old(dirty) && revision == old(revision)
    {
      if since <= 0.0 {
        if entries == [] {
          return;
        }
        entries := [];
        Changed();
        return;
      }
      var changed := CutVisits(since);
      if !changed {
        assert entries == Kept(entries, old(entries));
        return;
      }
      ghost var cut := entries;
      RemoveIf(HasNoVisit());
      NotEmptyChanged(old(entries), cut);
      Changed();
    }

    method Query(text: string, inside: bool, score: Entry -> real, limit: int) returns (rows: seq<Row>)
      ensures var folded := FoldCase(text);
              rows == HistoryQuery.Query(entries, e => Matches(e, folded, inside), score, limit)
    {
      var folded := FoldCase(text);
      ghost var matches := e => Matches(e, folded, inside);
      rows := [];
      assert entries[..0] == [];
      for i := 0 to |entries|
        invariant rows == Rows(entries[..i], matches, score)
      {
        assert entries[..i + 1][..i] == entries[..i];
        if Matches(entries[i], folded, inside) {
          rows := rows + [Row(entries[i].url, entries[i].title, LastVisit(entries[i]), |entries[i].visits|,
              score(entries[i]))];
        }
      }
      assert entries[..|entries|] == entries;
      rows := Ranked(rows);
      if limit > 0 && |rows| > limit {
        rows := rows[..limit];
      }
    }
  }

  predicate IsEntryCut(left: Entry, entry: Entry, since: real) {
    left == entry.(visits := left.visits) && IsCut(left.visits, entry.visits, since)
  }

  /** Halves a list down to the first place that is not before a moment, when the
      list suits the search, and to some place of it otherwise. */
  method LowerBound(visits: seq<real>, since: real) returns (first: nat)
    ensures first <= |visits|
    ensures Splits(visits, since) ==> forall i :: 0 <= i < first ==> visits[i] < since
    ensures Splits(visits, since) ==> forall i :: first <= i < |visits| ==> visits[i] >= since
  {
    first := 0;
    var end := |visits|;
    while first < end
      invariant first <= end <= |visits|
      invariant Splits(visits, since) ==> forall i :: 0 <= i < first ==> visits[i] < since
      invariant Splits(visits, since) ==> forall i :: end <= i < |visits| ==> visits[i] >= since
    {
      var middle := first + (end - first) / 2;
      if visits[middle] < since {
        first := middle + 1;
      } else {
        end := middle;
      }
    }
  }

  lemma SearchedIsCut(visits: seq<real>, since: real, first: nat)
    requires first <= |visits|
    requires Splits(visits, since) ==> forall i :: 0 <= i < first ==> visits[i] < since
    requires Splits(visits, since) ==> forall i :: first <= i < |visits| ==> visits[i] >= since
    ensures IsCut(visits[..first], visits, since)
  {
    if Splits(visits, since) {
      EarlierIsTo(visits, since, first);
    }
  }

  lemma {:induction false} EarlierIsTo(visits: seq<real>, since: real, first: nat)
    requires first <= |visits|
    requires forall i :: 0 <= i < first ==> visits[i] < since
    requires forall i :: first <= i < |visits| ==> visits[i] >= since
    ensures Earlier(visits, since) == visits[..first]
  {
    if first > 0 {
      EarlierIsTo(visits[1..], since, first - 1);
      assert visits[..first] == [visits[0]] + visits[1..][..first - 1];
    }
  }

  method AppendUnless(kept: seq<Entry>, entry: Entry, drop: Entry -> bool, ghost later: seq<Entry>)
    returns (more: seq<Entry>)
    ensures more + Without(later, drop) == kept + Without([entry] + later, drop)
  {
    assert ([entry] + later)[1..] == later;
    if drop(entry) {
      return kept;
    }
    Sequences.Shift(kept, entry, Without(later, drop));
    more := kept + [entry];
  }

  lemma {:induction false} NotEmptyChanged(before: seq<Entry>, cut: seq<Entry>)
    requires |before| == |cut| && before != cut
    ensures Without(cut, HasNoVisit()) != before
    ensures |Without(cut, HasNoVisit())| <= |cut|
  {
    NotEmptyShorter(cut);
    if |Without(cut, HasNoVisit())| == |cut| {
      assert Without(cut, HasNoVisit()) == cut;
    }
  }

  lemma {:induction false} NotEmptyShorter(entries: seq<Entry>)
    ensures |Without(entries, HasNoVisit())| <= |entries|
    ensures |Without(entries, HasNoVisit())| == |entries| ==> Without(entries, HasNoVisit()) == entries
  {
    if entries != [] {
      NotEmptyShorter(entries[1..]);
    }
  }
}
