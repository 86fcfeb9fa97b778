/** What each call does to the history, entry by entry, and which entries answer a query. */
module HistoryVisits {
  import opened Sequences
  import opened Address
  import opened History
  import opened HistoryQuery

  // --- Recording a visit ------------------------------------------------------------------------

  function OtherThan(url: string): Entry -> bool {
    (e: Entry) => e.url != url
  }

  /** The entries of other addresses, in their order. */
  function Besides(entries: seq<Entry>, url: string): seq<Entry> {
    Filter(entries, OtherThan(url))
  }

  /** The visits a new one joins: without the last one when that was less than two seconds
      before it. */
  predicate AreJoined(before: seq<real>, joined: seq<real>, at: real) {
    if before != [] && at < before[|before| - 1] + 2.0 then
      |joined| == |before| - 1 && forall i :: 0 <= i < |joined| ==> joined[i] == before[i]
    else joined == before
  }

  /** A visit is listed last, behind the newest of those before it, 128 in all. */
  ghost predicate IsVisited(before: seq<real>, at: real, after: seq<real>) {
    exists joined :: AreJoined(before, joined, at) && IsBehind(joined, at, after)
  }

  predicate IsBehind(joined: seq<real>, at: real, after: seq<real>) {
    var n := |after| - 1;
    && n == (if |joined| < 128 then |joined| else 127) && after[n] == at
    && forall i :: 0 <= i < n ==> after[i] == joined[|joined| - n + i]
  }

  lemma VisitedIs(visits: seq<real>, at: real)
    ensures IsVisited(visits, at, Visited(visits, at))
  {
    var n := |visits|;
    var joined := if n > 0 && at - visits[n - 1] < SAME_VISIT_SECONDS then visits[..n - 1] else visits;
    assert AreJoined(visits, joined, at);
    assert Visited(visits, at) == Newest(joined + [at]);
    assert IsBehind(joined, at, Newest(joined + [at]));
  }

  lemma {:induction false} NoneOfIt(entries: seq<Entry>, url: string)
    requires forall i :: 0 <= i < |entries| ==> entries[i].url != url
    ensures Besides(entries, url) == entries
  {
    if entries != [] {
      NoneOfIt(entries[1..], url);
      assert entries == [entries[0]] + entries[1..];
    }
  }

  lemma {:induction false} BesidesPlus(entries: seq<Entry>, entry: Entry, url: string)
    ensures Besides(entries + [entry], url) == Besides(entries, url) + (if entry.url != url then [entry] else [])
  {
    if entries == [] {
      assert [] + [entry] == [entry] && [entry][1..] == [];
    } else {
      BesidesPlus(entries[1..], entry, url);
      assert (entries + [entry])[1..] == entries[1..] + [entry] && (entries + [entry])[0] == entries[0];
    }
  }

  lemma {:induction false} BesidesPut(entries: seq<Entry>, at: nat, entry: Entry)
    requires at < |entries| && entries[at].url == entry.url
    ensures Besides(entries[at := entry], entry.url) == Besides(entries, entry.url)
  {
    var other := entries[at := entry];
    if at == 0 {
      assert other[1..] == entries[1..];
    } else {
      BesidesPut(entries[1..], at - 1, entry);
      assert other[1..] == entries[1..][at - 1 := entry] && other[0] == entries[0];
    }
  }

  /** Recording leaves every other address as it was. The one visited stays where it stood,
      or comes last when it is new; it takes a title that is not empty, and the visit. */
  lemma RecordingTouchesOne(entries: seq<Entry>, url: string, title: string, at: real) returns (place: nat)
    requires Unique(entries)
    ensures var noted := Noted(entries, url, title, at);
            && Besides(noted, url) == Besides(entries, url)
            && place < |noted| && noted[place].url == url
            && (if place < |entries| && entries[place].url == url then
                  && |noted| == |entries|
                  && noted[place].title == (if title != [] then title else entries[place].title)
                  && IsVisited(entries[place].visits, at, noted[place].visits)
                else
                  && place == |entries| && |noted| == |entries| + 1 && Besides(entries, url) == entries
                  && noted[place] == Entry(url, title, [at]))
  {
    var found := Find(entries, url);
    if found < 0 {
      place := |entries|;
      forall i | 0 <= i < |entries|
        ensures entries[i].url != url
      {
        assert entries[i] in entries;
      }
      NoneOfIt(entries, url);
      BesidesPlus(entries, Named(Entry(url, "", [at]), title), url);
    } else {
      place := found;
      BesidesPut(entries, place, Noted(entries, url, title, at)[place]);
      VisitedIs(entries[place].visits, at);
    }
  }

  // --- Titles and forgetting --------------------------------------------------------------------

  /** A title changes of the address it is reported for, when it is not empty, and nothing
      else does. */
  lemma RetitlingTouchesOne(entries: seq<Entry>, url: string, title: string, i: nat)
    requires Unique(entries) && i < |entries|
    ensures var after := Retitled(entries, url, title);
            && |after| == |entries|
            && after[i] == if entries[i].url == url && title != [] then entries[i].(title := title) else entries[i]
  {
    if entries[i].url == url {
      var place := Find(entries, url);
      assert entries[i] in entries;
      assert place == i;
    }
  }

  lemma {:induction false} WithoutIsFilter(entries: seq<Entry>, drop: Entry -> bool, keep: Entry -> bool)
    requires forall e :: keep(e) <==> !drop(e)
    ensures Without(entries, drop) == Filter(entries, keep)
  {
    if entries != [] {
      WithoutIsFilter(entries[1..], drop, keep);
    }
  }

  function OffSite(host: string): Entry -> bool {
    (e: Entry) => HostOfUrl(e.url) != host
  }

  /** Forgetting an address, or a site however it is cased, leaves exactly the others. */
  lemma ForgettingLeavesTheOthers(entries: seq<Entry>, text: string)
    ensures Next(entries, ForgetUrl(text)) == Besides(entries, text)
    ensures Next(entries, ForgetHost(text)) == Filter(entries, OffSite(FoldCase(text)))
  {
    WithoutIsFilter(entries, HasUrl(text), OtherThan(text));
    WithoutIsFilter(entries, HasHost(FoldCase(text)), OffSite(FoldCase(text)));
  }

  // --- Which entries answer ---------------------------------------------------------------------

  /** Whether a text has another in it at a place. */
  predicate IsAt(text: string, part: string, at: nat) {
    at + |part| <= |text| && text[at..at + |part|] == part
  }

  /** What of an entry a query is held against: its site, its address and its title. */
  function Spellings(entry: Entry): set<string> {
    {HostOfUrl(entry.url), MatchableUrl(entry.url), FoldCase(entry.title)}
  }

  /** A query is answered by what starts with it or, looking inside, has it anywhere. */
  ghost predicate IsAnsweredBy(entry: Entry, folded: string, inside: bool) {
    folded == [] || exists text, at: nat :: text in Spellings(entry) && IsAt(text, folded, at) && (at == 0 || inside)
  }

  lemma StartsAt(text: string, part: string)
    ensures StartsWith(text, part) <==> IsAt(text, part, 0)
    ensures Contains(text, part) <==> exists at: nat :: IsAt(text, part, at)
  {
    if Contains(text, part) {
      var at :| 0 <= at <= |text| && StartsWith(text[at..], part);
      assert text[at..][..|part|] == text[at..at + |part|];
      assert IsAt(text, part, at);
    }
    forall at: nat | IsAt(text, part, at)
      ensures Contains(text, part)
    {
      assert text[at..][..|part|] == text[at..at + |part|];
      assert StartsWith(text[at..], part);
    }
  }

  lemma MatchesExactly(entry: Entry, folded: string, inside: bool)
    ensures Matches(entry, folded, inside) <==> IsAnsweredBy(entry, folded, inside)
  {
    StartsAt(HostOfUrl(entry.url), folded);
    StartsAt(MatchableUrl(entry.url), folded);
    StartsAt(FoldCase(entry.title), folded);
  }

  // --- In which order ---------------------------------------------------------------------------

  /** One text before another: they differ first where the one has the smaller character, or
      the one is the shorter start of the other. */
  predicate DifferFirst(a: string, b: string, at: nat) {
    at <= |a| && at < |b| && a[..at] == b[..at] && (at < |a| ==> a[at] < b[at])
  }

  ghost predicate IsBefore(a: string, b: string) {
    exists at: nat :: DifferFirst(a, b, at)
  }

  lemma {:induction false} BelowIsBefore(a: string, b: string)
    ensures Below(a, b) <==> IsBefore(a, b)
    decreases |a|
  {
    if a == [] {
      if b != [] {
        assert DifferFirst(a, b, 0);
      }
    } else if b != [] {
      BelowIsBefore(a[1..], b[1..]);
      if a[0] < b[0] {
        assert DifferFirst(a, b, 0);
      } else if a[0] == b[0] {
        TailsDiffer(a, b);
      } else {
        forall at: nat
          ensures !DifferFirst(a, b, at)
        {
          assert 0 < at <= |a| && at <= |b| ==> a[..at][0] == a[0] && b[..at][0] == b[0];
        }
      }
    }
  }

  lemma TailsDiffer(a: string, b: string)
    requires a != [] && b != [] && a[0] == b[0]
    ensures IsBefore(a, b) <==> IsBefore(a[1..], b[1..])
  {
    forall at: nat | DifferFirst(a, b, at)
      ensures IsBefore(a[1..], b[1..])
    {
      assert at > 0;
      assert a[1..][..at - 1] == a[..at][1..] && b[1..][..at - 1] == b[..at][1..];
      assert DifferFirst(a[1..], b[1..], at - 1);
    }
    forall at: nat | DifferFirst(a[1..], b[1..], at)
      ensures IsBefore(a, b)
    {
      assert a[..at + 1] == [a[0]] + a[1..][..at] && b[..at + 1] == [b[0]] + b[1..][..at];
      assert DifferFirst(a, b, at + 1);
    }
  }

  /** Better scored first; of equals the one visited later; of those the address that comes
      first. */
  ghost predicate ComesFirst(a: Row, b: Row) {
    || a.score > b.score
    || (a.score == b.score && a.lastVisit > b.lastVisit)
    || (a.score == b.score && a.lastVisit == b.lastVisit && IsBefore(a.url, b.url))
  }

  ghost predicate IsRowOf(r: Row, e: Entry, score: Entry -> real) {
    && r.url == e.url && r.title == e.title && r.visitCount == |e.visits| && r.score == score(e)
    && r.lastVisit == if e.visits == [] then 0.0 else e.visits[|e.visits| - 1]
  }

  /** The answer to what is typed, however it is cased: a row for every entry that answers
      and for no other, each before those it should come before. */
  lemma QueryAnswers(entries: seq<Entry>, text: string, inside: bool, matches: Entry -> bool, score: Entry -> real)
    requires Unique(entries) && forall e :: matches(e) == Matches(e, FoldCase(text), inside)
    ensures var rows := Query(entries, matches, score, 0);
            && (forall i, j :: 0 <= i < j < |rows| ==> ComesFirst(rows[i], rows[j]))
            && (forall r :: r in rows <==>
                  exists e <- entries :: IsAnsweredBy(e, FoldCase(text), inside) && IsRowOf(r, e, score))
  {
    var (folded, rows) := (FoldCase(text), Query(entries, matches, score, 0));
    QueryIs(entries, matches, score, 0);
    forall i, j | 0 <= i < j < |rows|
      ensures ComesFirst(rows[i], rows[j])
    {
      BelowIsBefore(rows[i].url, rows[j].url);
    }
    forall r
      ensures r in rows <==> exists e <- entries :: IsAnsweredBy(e, folded, inside) && IsRowOf(r, e, score)
    {
      AnswersMeans(entries, folded, inside, matches, score, r);
    }
  }

  lemma AnswersMeans(entries: seq<Entry>, folded: string, inside: bool, matches: Entry -> bool, score: Entry -> real,
                     r: Row)
    requires forall e :: matches(e) == Matches(e, folded, inside)
    ensures Answers(entries, matches, score, r) <==>
            exists e <- entries :: IsAnsweredBy(e, folded, inside) && IsRowOf(r, e, score)
  {
    forall e: Entry
      ensures matches(e) && r == RowOf(e, score) <==> IsAnsweredBy(e, folded, inside) && IsRowOf(r, e, score)
    {
      MatchesExactly(e, folded, inside);
    }
  }
}
