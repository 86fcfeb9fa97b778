/** What pages hear of their requests: what closing a page takes off the queue, and what the
    answers that cross threads take. PermissionWords.dfy says what each request is told. */
module PermissionAnswers {
  import opened Sequences
  import opened Permissions
  import opened PermissionRuns

  // --- What leaves the queue ------------------------------------------------------------------

  /** A request refused, as WebKit hears it. */
  function Denials(dropped: seq<Pending>): seq<Answered> {
    seq(|dropped|, i requires 0 <= i < |dropped| => Answered(dropped[i].id, dropped[i].request, Deny))
  }

  function References(dropped: seq<Pending>): seq<nat> {
    seq(|dropped|, i requires 0 <= i < |dropped| => dropped[i].request)
  }

  lemma {:induction false} SettleAllIs(s: State, dropped: seq<Pending>)
    ensures SettleAll(s, dropped) == s.(answers := s.answers + Denials(dropped),
                                        released := s.released + References(dropped))
    decreases |dropped|
  {
    if dropped == [] {
      assert s.answers + Denials(dropped) == s.answers && s.released + References(dropped) == s.released;
    } else {
      var (first, rest) := (dropped[0], dropped[1..]);
      SettleAllIs(Settle(s, first, Deny), rest);
      assert Denials(dropped) == [Answered(first.id, first.request, Deny)] + Denials(rest);
      assert References(dropped) == [first.request] + References(rest);
      Shift(s.answers, Answered(first.id, first.request, Deny), Denials(rest));
      Shift(s.released, first.request, References(rest));
    }
  }

  function OnPage(page: int): Pending -> bool {
    (p: Pending) => p.page == page
  }

  function OffPage(page: int): Pending -> bool {
    (p: Pending) => p.page != page
  }

  lemma {:induction false} PageFilters(queue: seq<Pending>, page: int)
    ensures OfPage(queue, page) == Filter(queue, OnPage(page))
    ensures NotOfPage(queue, page) == Filter(queue, OffPage(page))
  {
    if queue != [] {
      PageFilters(queue[1..], page);
    }
  }

  /** A page that closes is refused everything it was waiting for, in the order it asked,
      and nothing else changes: every other request stays queued where it stood. */
  lemma PageCloseIsExact(s: State, page: int)
    requires s.routing.Idle?
    ensures var dropped := Filter(s.queue, OnPage(page));
            Next(s, PageCloses(page)) == s.(queue := Filter(s.queue, OffPage(page)),
                                            answers := s.answers + Denials(dropped),
                                            released := s.released + References(dropped))
  {
    PageFilters(s.queue, page);
    SettleAllIs(s.(queue := NotOfPage(s.queue, page)), OfPage(s.queue, page));
  }

  /** Every request of another page is still queued, in the old order and unanswered; every
      one of the page is gone and was refused. */
  ghost predicate RefusesOnly(s: State, s': State, page: int) {
    && (forall p <- s.queue :: if p.page != page then p in s'.queue else p !in s'.queue)
    && (forall p <- s'.queue :: p in s.queue)
    && (forall i, j :: 0 <= i < j < |s'.queue| ==> s'.queue[i].id < s'.queue[j].id)
    && s.answers <= s'.answers
    && (forall p <- s.queue | p.page == page :: Answered(p.id, p.request, Deny) in s'.answers[|s.answers|..])
    && (forall a <- s'.answers[|s.answers|..] ::
          exists p <- s.queue :: p.page == page && a == Answered(p.id, p.request, Deny))
  }

  /** So it is after every run. */
  lemma PageCloseRefusesItsOwn(steps: seq<Step>, page: int)
    requires Run(steps).routing.Idle?
    ensures RefusesOnly(Run(steps), Next(Run(steps), PageCloses(page)), page)
  {
    EveryRunKeepsInv(steps);
    PageCloseRefuses(Run(steps), page);
  }

  lemma PageCloseRefuses(s: State, page: int)
    requires s.routing.Idle? && IdsAscend(s) && SpokenIsResolved(s)
    ensures RefusesOnly(s, Next(s, PageCloses(page)), page)
  {
    PageCloseIsExact(s, page);
    PageKeepsOrder(s, page);
    SplitRefuses(s, Next(s, PageCloses(page)), page, Filter(s.queue, OnPage(page)));
  }

  lemma SplitRefuses(s: State, s': State, page: int, dropped: seq<Pending>)
    requires s'.queue == Filter(s.queue, OffPage(page)) && dropped == Filter(s.queue, OnPage(page))
    requires IdsAscend(s') && s'.answers == s.answers + Denials(dropped)
    ensures RefusesOnly(s, s', page)
  {
    PageParts(s.queue, page);
    AreDenied(s.queue, dropped, page);
    RefusesThose(s, s', page, Denials(dropped));
  }

  lemma PageParts(queue: seq<Pending>, page: int)
    ensures forall p :: p in Filter(queue, OffPage(page)) <==> p in queue && p.page != page
    ensures forall p :: p in Filter(queue, OnPage(page)) <==> p in queue && p.page == page
  {
    forall p: Pending
      ensures p in Filter(queue, OffPage(page)) <==> p in queue && p.page != page
      ensures p in Filter(queue, OnPage(page)) <==> p in queue && p.page == page
    {
      FilterHolds(queue, OffPage(page), p);
      FilterHolds(queue, OnPage(page), p);
    }
  }

  lemma RefusesThose(s: State, s': State, page: int, told: seq<Answered>)
    requires forall p :: p in s'.queue <==> p in s.queue && p.page != page
    requires IdsAscend(s') && s'.answers == s.answers + told
    requires forall p <- s.queue | p.page == page :: Answered(p.id, p.request, Deny) in told
    requires forall a <- told :: exists p <- s.queue :: p.page == page && a == Answered(p.id, p.request, Deny)
    ensures RefusesOnly(s, s', page)
  {
    assert s'.answers[|s.answers|..] == told;
  }

  lemma AreDenied(queue: seq<Pending>, dropped: seq<Pending>, page: int)
    requires forall p :: p in dropped <==> p in queue && p.page == page
    ensures forall p <- queue :: p.page == page ==> Answered(p.id, p.request, Deny) in Denials(dropped)
    ensures forall a <- Denials(dropped) :: exists p <- queue :: p.page == page && a == Answered(p.id, p.request, Deny)
  {
    forall p <- queue | p.page == page
      ensures Answered(p.id, p.request, Deny) in Denials(dropped)
    {
      assert p in dropped;
      var i :| 0 <= i < |dropped| && dropped[i] == p;
      assert Denials(dropped)[i] == Answered(p.id, p.request, Deny);
    }
    forall a <- Denials(dropped)
      ensures exists p <- queue :: p.page == page && a == Answered(p.id, p.request, Deny)
    {
      var i :| 0 <= i < |dropped| && Denials(dropped)[i] == a;
      assert dropped[i] in dropped;
    }
  }

  // --- One answer, or several -----------------------------------------------------------------

  function Replies(gone: seq<Pending>, answer: Answer): seq<Answered> {
    seq(|gone|, i requires 0 <= i < |gone| => Answered(gone[i].id, gone[i].request, answer))
  }

  /** Some requests leave the queue, each answered. */
  ghost predicate Settles(s: State, s': State, gone: seq<Pending>, answer: Answer) {
    && s' == s.(queue := s'.queue, answers := s.answers + Replies(gone, answer), released := s'.released)
    && (forall p <- gone :: p in s.queue)
    && (forall p :: p in s'.queue <==> p in s.queue && p !in gone)
  }

  lemma EveryoneIsDenied(s: State)
    ensures Settles(s, DenyEvery(s), s.queue, Deny)
  {
    SettleAllIs(s.(queue := []), s.queue);
    assert Denials(s.queue) == Replies(s.queue, Deny);
  }

  lemma PageIsDenied(s: State, page: int)
    ensures Settles(s, DenyPage(s, page), Filter(s.queue, OnPage(page)), Deny)
  {
    PageFilters(s.queue, page);
    SettleAllIs(s.(queue := NotOfPage(s.queue, page)), OfPage(s.queue, page));
    PageParts(s.queue, page);
    assert Denials(OfPage(s.queue, page)) == Replies(OfPage(s.queue, page), Deny);
  }

  /** An answer takes the request of its id, if there is one. */
  lemma OneIsAnswered(s: State, id: int, answer: Answer) returns (gone: seq<Pending>)
    requires IdsAscend(s)
    ensures Settles(s, AnswerOne(s, id, answer), gone, answer)
    ensures forall p <- s.queue :: p in gone <==> p.id == id
  {
    IndexOfFinds(s.queue, id);
    var at := IndexOf(s.queue, id);
    if at < 0 {
      gone := [];
      assert s.answers + Replies([], answer) == s.answers;
    } else {
      gone := [s.queue[at]];
      var fewer := s.queue[..at] + s.queue[at + 1..];
      assert Replies(gone, answer) == [Answered(s.queue[at].id, s.queue[at].request, answer)];
      WithoutOne(s.queue, at);
    }
  }

  lemma WithoutOne(queue: seq<Pending>, at: nat)
    requires at < |queue| && forall i, j :: 0 <= i < j < |queue| ==> queue[i].id < queue[j].id
    ensures forall p :: p in queue[..at] + queue[at + 1..] <==> p in queue && p != queue[at]
    ensures forall p <- queue :: p == queue[at] <==> p.id == queue[at].id
  {
    var fewer := queue[..at] + queue[at + 1..];
    forall p <- queue | p != queue[at]
      ensures p in fewer
    {
      var i :| 0 <= i < |queue| && queue[i] == p;
      assert fewer[if i < at then i else i - 1] == p;
    }
  }
}
