/** Searching the history: which entries answer, and in which order they are shown. */
module HistoryQuery {
  import opened Address
  import opened History

  datatype Row = Row(url: string, title: string, lastVisit: real, visitCount: nat, score: real)

  // --- Which entries answer -----------------------------------------------------------------

  /** An empty query is answered by everything; another by a host, an address or a title
      that starts with it, or contains it when that is asked for. */
  predicate Matches(entry: Entry, folded: string, inside: bool) {
    || folded == []
    || StartsWith(HostOfUrl(entry.url), folded)
    || StartsWith(MatchableUrl(entry.url), folded)
    || StartsWith(FoldCase(entry.title), folded)
    || (inside && (Contains(HostOfUrl(entry.url), folded) || Contains(MatchableUrl(entry.url), folded)
                   || Contains(FoldCase(entry.title), folded)))
  }

  lemma ContainsShorter(text: string, shorter: string, longer: string)
    requires shorter <= longer && Contains(text, longer)
    ensures Contains(text, shorter)
  {
    var at :| 0 <= at <= |text| && StartsWith(text[at..], longer);
    assert text[at..][..|shorter|] == text[at..][..|longer|][..|shorter|];
    assert StartsWith(text[at..], shorter);
  }

  lemma StartsShorter(text: string, shorter: string, longer: string)
    requires shorter <= longer && StartsWith(text, longer)
    ensures StartsWith(text, shorter)
  {
    assert text[..|shorter|] == text[..|longer|][..|shorter|];
  }

  /** Typing on only narrows the answer, and looking inside only widens it. */
  lemma TypingNarrows(entry: Entry, shorter: string, longer: string, inside: bool)
    requires shorter <= longer && Matches(entry, longer, inside)
    ensures Matches(entry, shorter, inside) && Matches(entry, longer, true)
  {
    var (host, url, title) := (HostOfUrl(entry.url), MatchableUrl(entry.url), FoldCase(entry.title));
    if longer == [] {
    } else if StartsWith(host, longer) {
      StartsShorter(host, shorter, longer);
    } else if StartsWith(url, longer) {
      StartsShorter(url, shorter, longer);
    } else if StartsWith(title, longer) {
      StartsShorter(title, shorter, longer);
    } else if Contains(host, longer) {
      ContainsShorter(host, shorter, longer);
    } else if Contains(url, longer) {
      ContainsShorter(url, shorter, longer);
    } else {
      ContainsShorter(title, shorter, longer);
    }
  }

  // --- In which order -------------------------------------------------------------------------

  predicate Below(a: string, b: string) {
    b != [] && (a == [] || a[0] < b[0] || (a[0] == b[0] && Below(a[1..], b[1..])))
  }

  /** The better score first, then the later visit, then the address. */
  predicate Precedes(left: Row, right: Row) {
    if left.score != right.score then left.score > right.score
    else if left.lastVisit != right.lastVisit then left.lastVisit > right.lastVisit
    else Below(left.url, right.url)
  }

  lemma {:induction false} BelowIsOrder(a: string, b: string, c: string)
    ensures !Below(a, a)
    ensures a != b ==> Below(a, b) != Below(b, a)
    ensures Below(a, b) && Below(b, c) ==> Below(a, c)
    decreases |a| + |b| + |c|
  {
    if a != [] {
      BelowIsOrder(a[1..], [], []);
    }
    if a != [] && b != [] {
      assert a == [a[0]] + a[1..] && b == [b[0]] + b[1..];
      BelowIsOrder(a[1..], b[1..], if c == [] then [] else c[1..]);
    }
  }

  lemma PrecedesIsOrder(a: Row, b: Row, c: Row)
    ensures !Precedes(a, a)
    ensures a.url != b.url ==> Precedes(a, b) != Precedes(b, a)
    ensures Precedes(a, b) && Precedes(b, c) ==> Precedes(a, c)
  {
    BelowIsOrder(a.url, b.url, c.url);
  }

  ghost predicate InOrder(rows: seq<Row>) {
    forall i, j :: 0 <= i < j < |rows| ==> Precedes(rows[i], rows[j])
  }

  function Placed(row: Row, ranked: seq<Row>): seq<Row> {
    if ranked == [] || Precedes(row, ranked[0]) then [row] + ranked else [ranked[0]] + Placed(row, ranked[1..])
  }

  function Ranked(rows: seq<Row>): seq<Row> {
    if rows == [] then [] else Placed(rows[0], Ranked(rows[1..]))
  }

  lemma {:induction false} PlacedHolds(row: Row, ranked: seq<Row>, r: Row)
    ensures r in Placed(row, ranked) <==> r == row || r in ranked
    ensures |Placed(row, ranked)| == |ranked| + 1
  {
    if ranked != [] && !Precedes(row, ranked[0]) {
      PlacedHolds(row, ranked[1..], r);
      assert ranked == [ranked[0]] + ranked[1..];
    }
  }

  lemma {:induction false} RankedHolds(rows: seq<Row>, r: Row)
    ensures r in Ranked(rows) <==> r in rows
    ensures |Ranked(rows)| == |rows|
  {
    if rows != [] {
      RankedHolds(rows[1..], r);
      PlacedHolds(rows[0], Ranked(rows[1..]), r);
      assert rows == [rows[0]] + rows[1..];
    }
  }

  lemma {:induction false} PlacedInOrder(row: Row, ranked: seq<Row>)
    requires InOrder(ranked) && forall r <- ranked :: r.url != row.url
    ensures InOrder(Placed(row, ranked))
  {
    if ranked == [] {
    } else if Precedes(row, ranked[0]) {
      forall r <- ranked[1..]
        ensures Precedes(row, r)
      {
        var j :| 0 < j < |ranked| && ranked[j] == r;
        PrecedesIsOrder(row, ranked[0], r);
      }
    } else {
      PlacedInOrder(row, ranked[1..]);
      assert ranked[0] in ranked;
      PrecedesIsOrder(row, ranked[0], row);
      forall r <- Placed(row, ranked[1..])
        ensures Precedes(ranked[0], r)
      {
        PlacedHolds(row, ranked[1..], r);
      }
    }
  }

  ghost predicate OneRowEach(rows: seq<Row>) {
    forall i, j :: 0 <= i < j < |rows| ==> rows[i].url != rows[j].url
  }

  lemma {:induction false} RankedInOrder(rows: seq<Row>)
    requires OneRowEach(rows)
    ensures InOrder(Ranked(rows))
  {
    if rows != [] {
      RankedInOrder(rows[1..]);
      forall r <- Ranked(rows[1..])
        ensures r.url != rows[0].url
      {
        RankedHolds(rows[1..], r);
      }
      PlacedInOrder(rows[0], Ranked(rows[1..]));
    }
  }

  /** Rows in order are determined by which rows they are. */
  lemma {:induction false} OrderIsUnique(a: seq<Row>, b: seq<Row>)
    requires InOrder(a) && InOrder(b) && forall r :: r in a <==> r in b
    ensures a == b
  {
    if a == [] {
      assert forall i :: 0 <= i < |b| ==> b[i] in b;
    } else {
      assert a[0] in a && a[0] in b;
      assert b[0] in b;
      HeadsAgree(a, b);
      TailsAgree(a, b);
      OrderIsUnique(a[1..], b[1..]);
      assert a == [a[0]] + a[1..] && b == [b[0]] + b[1..];
    }
  }

  lemma HeadsAgree(a: seq<Row>, b: seq<Row>)
    requires InOrder(a) && InOrder(b) && a != [] && b != [] && a[0] in b && b[0] in a
    ensures a[0] == b[0]
  {
    var i :| 0 <= i < |b| && b[i] == a[0];
    var j :| 0 <= j < |a| && a[j] == b[0];
    PrecedesIsOrder(a[0], b[0], a[0]);
  }

  lemma TailsAgree(a: seq<Row>, b: seq<Row>)
    requires InOrder(a) && InOrder(b) && a != [] && b != [] && a[0] == b[0] && forall r :: r in a <==> r in b
    ensures forall r :: r in a[1..] <==> r in b[1..]
  {
    HeadIsOnce(a);
    HeadIsOnce(b);
  }

  lemma HeadIsOnce(rows: seq<Row>)
    requires InOrder(rows) && rows != []
    ensures forall r :: r in rows[1..] <==> r in rows && r != rows[0]
  {
    forall i | 0 < i < |rows|
      ensures rows[i] != rows[0]
    {
      PrecedesIsOrder(rows[0], rows[0], rows[0]);
    }
    assert rows == [rows[0]] + rows[1..];
  }

  // --- The answer -----------------------------------------------------------------------------

  function RowOf(entry: Entry, score: Entry -> real): Row {
    Row(entry.url, entry.title, LastVisit(entry), |entry.visits|, score(entry))
  }

  function Rows(entries: seq<Entry>, matches: Entry -> bool, score: Entry -> real): seq<Row> {
    if entries == [] then []
    else Rows(entries[..|entries| - 1], matches, score)
         + (if matches(entries[|entries| - 1]) then [RowOf(entries[|entries| - 1], score)] else [])
  }

  function Limited(rows: seq<Row>, limit: int): seq<Row> {
    if limit > 0 && |rows| > limit then rows[..limit] else rows
  }

  function Query(entries: seq<Entry>, matches: Entry -> bool, score: Entry -> real, limit: int): seq<Row> {
    Limited(Ranked(Rows(entries, matches, score)), limit)
  }

  ghost predicate Answers(entries: seq<Entry>, matches: Entry -> bool, score: Entry -> real, r: Row) {
    exists e <- entries :: matches(e) && r == RowOf(e, score)
  }

  lemma {:induction false} RowsAre(entries: seq<Entry>, matches: Entry -> bool, score: Entry -> real)
    ensures forall r :: r in Rows(entries, matches, score) <==> Answers(entries, matches, score, r)
  {
    if entries != [] {
      var n := |entries| - 1;
      RowsAre(entries[..n], matches, score);
      var front := entries[..n];
      assert entries == front + [entries[n]];
      forall r
        ensures Answers(entries, matches, score, r) <==>
                Answers(front, matches, score, r) || (matches(entries[n]) && r == RowOf(entries[n], score))
      {
        assert entries[n] in entries;
      }
    } else {
      assert Rows(entries, matches, score) == [];
    }
  }

  lemma {:induction false} RowsAreOneEach(entries: seq<Entry>, matches: Entry -> bool, score: Entry -> real)
    requires Unique(entries)
    ensures OneRowEach(Rows(entries, matches, score))
  {
    if entries != [] {
      var n := |entries| - 1;
      RowsAreOneEach(entries[..n], matches, score);
      RowsAre(entries[..n], matches, score);
      var rows := Rows(entries[..n], matches, score);
      forall r <- rows
        ensures r.url != entries[n].url
      {
        assert Answers(entries[..n], matches, score, r);
      }
    }
  }

  /** The unlimited answer holds exactly the rows of the entries that match, in order; a
      limit keeps its start. */
  lemma QueryIs(entries: seq<Entry>, matches: Entry -> bool, score: Entry -> real, limit: int)
    requires Unique(entries)
    ensures var all := Query(entries, matches, score, 0);
            && InOrder(all)
            && (forall r :: r in all <==> Answers(entries, matches, score, r))
            && Query(entries, matches, score, limit) <= all
            && (limit > 0 ==> |Query(entries, matches, score, limit)| == if |all| < limit then |all| else limit)
  {
    var rows := Rows(entries, matches, score);
    RowsAre(entries, matches, score);
    RowsAreOneEach(entries, matches, score);
    RankedInOrder(rows);
    forall r
      ensures r in Ranked(rows) <==> r in rows
    {
      RankedHolds(rows, r);
    }
  }

  /** The answer depends on which entries there are, not on how they are stored. */
  lemma QueryIgnoresStorage(a: seq<Entry>, b: seq<Entry>, matches: Entry -> bool, score: Entry -> real, limit: int)
    requires Unique(a) && Unique(b) && forall e :: e in a <==> e in b
    ensures Query(a, matches, score, limit) == Query(b, matches, score, limit)
  {
    QueryIs(a, matches, score, 0);
    QueryIs(b, matches, score, 0);
    var all, other := Query(a, matches, score, 0), Query(b, matches, score, 0);
    forall r
      ensures r in all <==> r in other
    {
      SameAnswers(a, b, matches, score, r);
    }
    OrderIsUnique(all, other);
  }

  lemma SameAnswers(a: seq<Entry>, b: seq<Entry>, matches: Entry -> bool, score: Entry -> real, r: Row)
    requires forall e :: e in a <==> e in b
    ensures Answers(a, matches, score, r) <==> Answers(b, matches, score, r)
  {
  }
}
