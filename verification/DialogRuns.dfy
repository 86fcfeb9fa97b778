/** What every interleaving of the dialog steps keeps, and what pages are promised. */
module DialogRuns {
  import opened Sequences
  import opened Dialogs

  // --- Counting -------------------------------------------------------------------------

  lemma {:induction false} CountConcat(front: seq<Request>, back: seq<Request>, id: int)
    ensures Count(front + back, id) == Count(front, id) + Count(back, id)
  {
    if front == [] {
      assert front + back == back;
    } else {
      CountConcat(front[1..], back, id);
      assert (front + back)[1..] == front[1..] + back;
    }
  }

  lemma CountOne(request: Request, id: int)
    ensures Count([request], id) == if request.id == id then 1 else 0
  {
    assert [request][1..] == [];
  }

  lemma CountAt(requests: seq<Request>, at: nat, id: int)
    requires at < |requests|
    ensures Count(requests, id)
         == Count(requests[..at] + requests[at + 1..], id) + if requests[at].id == id then 1 else 0
  {
    assert requests == requests[..at] + ([requests[at]] + requests[at + 1..]);
    CountConcat(requests[..at], [requests[at]] + requests[at + 1..], id);
    CountConcat([requests[at]], requests[at + 1..], id);
    CountConcat(requests[..at], requests[at + 1..], id);
    CountOne(requests[at], id);
  }

  lemma CountHas(requests: seq<Request>, request: Request)
    requires request in requests
    ensures Count(requests, request.id) >= 1
  {
    var at :| 0 <= at < |requests| && requests[at] == request;
    CountAt(requests, at, request.id);
  }

  lemma {:induction false} OutcomesHas(outcomes: seq<Outcome>, outcome: Outcome)
    requires outcome in outcomes
    ensures Outcomes(outcomes, outcome.id) >= 1
  {
    var n := |outcomes| - 1;
    if outcomes[n].id != outcome.id {
      OutcomesHas(outcomes[..n], outcome);
    }
  }

  lemma {:induction false} TakeSplits(queue: seq<Request>, id: int)
    ensures Count(Ready(queue), id) + Count(NotReady(queue), id) == Count(queue, id)
  {
    if queue != [] {
      var r := queue[0];
      TakeSplits(queue[1..], id);
      CountOne(r, id);
      CountConcat(if r.answered && !r.blocking then [r] else [], Ready(queue[1..]), id);
      CountConcat(if r.answered && !r.blocking then [] else [r], NotReady(queue[1..]), id);
    }
  }

  lemma {:induction false} RefusalSplits(queue: seq<Request>, scope: Scope, id: int)
    ensures Count(Orphaned(queue, scope), id) + Count(Left(queue, scope), id) == Count(queue, id)
  {
    if queue != [] {
      var r := queue[0];
      RefusalSplits(queue[1..], scope, id);
      CountOne(r, id);
      CountOne(Refusal(r), id);
      var out := r.(reply := r.reply.(accepted := false));
      CountOne(out, id);
      CountConcat(if Hits(scope, r) && !r.blocking then [out] else [], Orphaned(queue[1..], scope), id);
      var left := if !Hits(scope, r) then [r] else if r.blocking then [Refusal(r)] else [];
      CountConcat(left, Left(queue[1..], scope), id);
    }
  }

  lemma {:induction false} UpdateCounts(queue: seq<Request>, at: nat, request: Request, id: int)
    requires at < |queue| && request.id == queue[at].id
    ensures Count(queue[at := request], id) == Count(queue, id)
  {
    if at > 0 {
      UpdateCounts(queue[1..], at - 1, request, id);
      assert queue[at := request][1..] == queue[1..][at - 1 := request];
    }
  }

  lemma {:induction false} ReadyIs(queue: seq<Request>)
    ensures forall r <- Ready(queue) :: r in queue && r.answered && !r.blocking
    ensures forall r <- NotReady(queue) :: r in queue && (!r.answered || r.blocking)
    ensures forall r <- queue :: !r.answered || r.blocking ==> r in NotReady(queue)
  {
    if queue != [] {
      ReadyIs(queue[1..]);
      assert queue == [queue[0]] + queue[1..];
    }
  }

  lemma {:induction false} LeftIs(queue: seq<Request>, scope: Scope)
    ensures forall r <- queue :: !Hits(scope, r) ==> r in Left(queue, scope)
    ensures forall r <- queue :: Hits(scope, r) && r.blocking ==> Refusal(r) in Left(queue, scope)
    ensures forall l <- Left(queue, scope) ::
              (l in queue && !Hits(scope, l)) || (exists r <- queue :: Hits(scope, r) && r.blocking && l == Refusal(r))
  {
    if queue != [] {
      LeftIs(queue[1..], scope);
      assert queue == [queue[0]] + queue[1..];
      assert queue[0] in queue;
    }
  }

  lemma {:induction false} OrphanedIs(queue: seq<Request>, scope: Scope)
    ensures forall o <- Orphaned(queue, scope) :: !o.reply.accepted && !o.blocking &&
              exists r <- queue :: Hits(scope, r) && !r.blocking && o.id == r.id
  {
    if queue != [] {
      OrphanedIs(queue[1..], scope);
      assert queue == [queue[0]] + queue[1..];
      assert queue[0] in queue;
    }
  }

  // --- Every request in one place ----------------------------------------------------------

  lemma PolledKeepsPlace(s: State, id: int)
    requires OnePlace(s, id) && Awaited(s)
    ensures OnePlace(Polled(s), id)
  {
    if s.waiters != [] {
      var w := s.waiters[|s.waiters| - 1];
      assert HasBlocking(s.queue, w);
      var at := Find(s.queue, w);
      if s.queue[at].answered {
        ReturnedKeepsPlace(s, at, w, s.waiters[..|s.waiters| - 1], id);
      }
    }
  }

  /** An answered question leaves the queue as its callback returns. */
  lemma ReturnedKeepsPlace(s: State, at: nat, waiter: int, waiters: seq<int>, id: int)
    requires OnePlace(s, id) && at < |s.queue| && s.queue[at].id == waiter
    ensures OnePlace(s.(waiters := waiters, returned := s.returned + [Outcome(waiter, s.queue[at].reply)],
                        queue := s.queue[..at] + s.queue[at + 1..]), id)
  {
    CountAt(s.queue, at, id);
    var returned := s.returned + [Outcome(waiter, s.queue[at].reply)];
    assert returned[..|s.returned|] == s.returned;
  }

  lemma DeliveredKeepsPlace(s: State, at: nat, id: int)
    requires OnePlace(s, id)
    ensures OnePlace(Delivered(s, at), id)
  {
    if at < |s.outgoing| {
      CountAt(s.outgoing, at, id);
      assert Delivered(s, at).delivered[..|s.delivered|] == s.delivered;
    }
  }

  lemma RepliedKeepsPlace(s: State, replied: int, reply: Reply, id: int)
    requires OnePlace(s, id)
    ensures OnePlace(Replied(s, replied, reply), id)
  {
    var at := Find(s.queue, replied);
    if at >= 0 {
      UpdateCounts(s.queue, at, s.queue[at].(answered := true, reply := reply), id);
    }
  }

  lemma StepKeepsPlace(s: State, step: Step, id: int)
    requires OnePlace(s, id) && 0 < s.nextId && Awaited(s)
    ensures OnePlace(Next(s, step), id)
  {
    match step
    case Ask(kind, page, blocking) =>
      CountConcat(s.queue, [Request(s.nextId, kind, page, blocking, false, NOTHING)], id);
      CountOne(Request(s.nextId, kind, page, blocking, false, NOTHING), id);
    case Answer(replied, accepted, text, secret, remember) =>
      RepliedKeepsPlace(s, replied, Reply(accepted, text, secret, remember, []), id);
    case PickFiles(replied, paths) =>
      RepliedKeepsPlace(s, replied, NOTHING.(accepted := paths != [], paths := paths), id);
    case Take =>
      TakeSplits(s.queue, id);
      CountConcat(s.outgoing, Ready(s.queue), id);
    case Deliver(at) => DeliveredKeepsPlace(s, at, id);
    case Refuse(scope) =>
      RefusalSplits(s.queue, scope, id);
      CountConcat(s.outgoing, Orphaned(s.queue, scope), id);
    case Poll => PolledKeepsPlace(s, id);
  }

  lemma StepKeepsCounted(s: State, step: Step)
    requires Counted(s) && Awaited(s)
    ensures Counted(Next(s, step))
  {
    forall id: int
      ensures OnePlace(Next(s, step), id)
    {
      assert OnePlace(s, id);
      StepKeepsPlace(s, step, id);
    }
  }

  /** Two requests in the queue never share an id. */
  lemma QueueIsDistinct(s: State)
    requires Counted(s)
    ensures forall i, j :: 0 <= i < j < |s.queue| ==> s.queue[i].id != s.queue[j].id
  {
    forall i, j | 0 <= i < j < |s.queue|
      ensures s.queue[i].id != s.queue[j].id
    {
      var id := s.queue[j].id;
      assert OnePlace(s, id);
      CountAt(s.queue, j, id);
      var without := s.queue[..j] + s.queue[j + 1..];
      assert without[i] == s.queue[i];
      if s.queue[i].id == id {
        CountHas(without, s.queue[i]);
      }
    }
  }

  /** What is queued has not been told, nor returned, nor is it about to be. */
  lemma QueuedIsOpen(s: State, request: Request)
    requires Counted(s) && request in s.queue
    ensures forall r <- s.outgoing :: r.id != request.id
    ensures forall o <- s.delivered :: o.id != request.id
    ensures forall o <- s.returned :: o.id != request.id
  {
    CountHas(s.queue, request);
    assert OnePlace(s, request.id);
    forall r <- s.outgoing ensures r.id != request.id { CountHas(s.outgoing, r); }
    forall o <- s.delivered ensures o.id != request.id { OutcomesHas(s.delivered, o); }
    forall o <- s.returned ensures o.id != request.id { OutcomesHas(s.returned, o); }
  }

  lemma FindFinds(s: State, request: Request)
    requires Counted(s) && request in s.queue
    ensures Find(s.queue, request.id) >= 0 && s.queue[Find(s.queue, request.id)] == request
  {
    QueueIsDistinct(s);
    var i :| 0 <= i < |s.queue| && s.queue[i] == request;
    assert Find(s.queue, request.id) == i;
  }

  // --- Waiting callbacks and their questions -------------------------------------------------

  lemma RepliedKeepsAwaited(s: State, id: int, reply: Reply)
    requires Counted(s) && Awaited(s)
    ensures Awaited(Replied(s, id, reply))
  {
    var (at, s') := (Find(s.queue, id), Replied(s, id, reply));
    if at >= 0 && !s.queue[at].answered {
      forall w <- s'.waiters
        ensures HasBlocking(s'.queue, w)
      {
        assert HasBlocking(s.queue, w);
        var i :| 0 <= i < |s.queue| && s.queue[i].id == w && s.queue[i].blocking;
        assert s'.queue[i] in s'.queue;
      }
      forall r <- s'.queue | r.blocking
        ensures r.id in s'.waiters
      {
        var i :| 0 <= i < |s'.queue| && s'.queue[i] == r;
        assert s.queue[i] in s.queue;
      }
    }
  }

  lemma AskedKeepsAwaited(s: State, kind: Kind, page: int, blocking: bool)
    requires Awaited(s)
    ensures Awaited(AskedFor(s, kind, page, blocking))
  {
    var s' := AskedFor(s, kind, page, blocking);
    var new_ := s'.queue[|s.queue|];
    assert new_ in s'.queue;
    forall w <- s'.waiters
      ensures w < s'.nextId && HasBlocking(s'.queue, w)
    {
      assert w in s.waiters ==> HasBlocking(s.queue, w);
    }
    forall i | 0 <= i < |s.waiters|
      ensures s.waiters[i] < s.nextId
    {
      assert s.waiters[i] in s.waiters;
    }
  }

  lemma TakeKeepsAwaited(s: State)
    requires Awaited(s)
    ensures Awaited(Next(s, Take))
  {
    ReadyIs(s.queue);
    forall w <- s.waiters
      ensures HasBlocking(NotReady(s.queue), w)
    {
      assert HasBlocking(s.queue, w);
    }
  }

  lemma RefusedKeepsAwaited(s: State, scope: Scope)
    requires Awaited(s)
    ensures Awaited(Refused(s, scope))
  {
    LeftIs(s.queue, scope);
    forall w <- s.waiters
      ensures HasBlocking(Left(s.queue, scope), w)
    {
      assert HasBlocking(s.queue, w);
      var r :| r in s.queue && r.id == w && r.blocking;
      assert (if Hits(scope, r) then Refusal(r) else r) in Left(s.queue, scope);
    }
  }

  lemma PolledKeepsAwaited(s: State)
    requires Counted(s) && Awaited(s)
    ensures Awaited(Polled(s))
  {
    if s.waiters != [] {
      QueueIsDistinct(s);
      var n := |s.waiters| - 1;
      var w := s.waiters[n];
      assert HasBlocking(s.queue, w);
      var at := Find(s.queue, w);
      if s.queue[at].answered {
        var fewer := s.queue[..at] + s.queue[at + 1..];
        assert Polled(s).queue == fewer;
        OthersStayAwaited(s, at, fewer);
        OthersStillWaitedFor(s, at, fewer);
      }
    }
  }

  lemma OthersStayAwaited(s: State, at: nat, fewer: seq<Request>)
    requires Awaited(s) && s.waiters != [] && at < |s.queue| && s.queue[at].id == s.waiters[|s.waiters| - 1]
    requires fewer == s.queue[..at] + s.queue[at + 1..]
    ensures forall v <- s.waiters[..|s.waiters| - 1] :: HasBlocking(fewer, v)
  {
    var n := |s.waiters| - 1;
    forall v <- s.waiters[..n]
      ensures HasBlocking(fewer, v)
    {
      assert v in s.waiters && HasBlocking(s.queue, v);
      var i :| 0 <= i < |s.queue| && s.queue[i].id == v && s.queue[i].blocking;
      assert v != s.waiters[n];
      assert fewer[if i < at then i else i - 1] == s.queue[i];
    }
  }

  lemma OthersStillWaitedFor(s: State, at: nat, fewer: seq<Request>)
    requires Awaited(s) && s.waiters != [] && at < |s.queue| && s.queue[at].id == s.waiters[|s.waiters| - 1]
    requires forall i, j :: 0 <= i < j < |s.queue| ==> s.queue[i].id != s.queue[j].id
    requires fewer == s.queue[..at] + s.queue[at + 1..]
    ensures forall r <- fewer :: r.blocking ==> r.id in s.waiters[..|s.waiters| - 1]
  {
    var n := |s.waiters| - 1;
    forall k | 0 <= k < |fewer| && fewer[k].blocking
      ensures fewer[k].id in s.waiters[..n]
    {
      var r := s.queue[if k < at then k else k + 1];
      assert fewer[k] == r && r in s.queue && r.id != s.queue[at].id;
      var i :| 0 <= i < |s.waiters| && s.waiters[i] == r.id;
      assert s.waiters[..n][i] == r.id;
    }
  }

  lemma StepKeepsAwaited(s: State, step: Step)
    requires Counted(s) && Awaited(s)
    ensures Awaited(Next(s, step))
  {
    match step
    case Ask(kind, page, blocking) => AskedKeepsAwaited(s, kind, page, blocking);
    case Answer(id, accepted, text, secret, remember) =>
      RepliedKeepsAwaited(s, id, Reply(accepted, text, secret, remember, []));
    case PickFiles(id, paths) => RepliedKeepsAwaited(s, id, NOTHING.(accepted := paths != [], paths := paths));
    case Take => TakeKeepsAwaited(s);
    case Deliver(at) =>
    case Refuse(scope) => RefusedKeepsAwaited(s, scope);
    case Poll => PolledKeepsAwaited(s);
  }

  // --- Listeners and callbacks stay apart ----------------------------------------------------

  lemma RepliedKeepsSeparate(s: State, id: int, reply: Reply)
    requires Separate(s)
    ensures Separate(Replied(s, id, reply))
  {
    var (at, s') := (Find(s.queue, id), Replied(s, id, reply));
    forall r <- s'.queue
      ensures r.id < s.nextId && (r.blocking <==> r.id in s.parked)
    {
      var i :| 0 <= i < |s'.queue| && s'.queue[i] == r;
      assert s.queue[i] in s.queue;
    }
  }

  lemma StepKeepsSeparate(s: State, step: Step)
    requires Separate(s) && Awaited(s)
    ensures Separate(Next(s, step))
  {
    match step
    case Ask(kind, page, blocking) =>
    case Answer(id, accepted, text, secret, remember) =>
      RepliedKeepsSeparate(s, id, Reply(accepted, text, secret, remember, []));
    case PickFiles(id, paths) => RepliedKeepsSeparate(s, id, NOTHING.(accepted := paths != [], paths := paths));
    case Take => ReadyIs(s.queue);
    case Deliver(at) =>
    case Refuse(scope) =>
      LeftIs(s.queue, scope);
      OrphanedIs(s.queue, scope);
    case Poll => PolledKeepsSeparate(s);
  }

  lemma PolledKeepsSeparate(s: State)
    requires Separate(s) && Awaited(s)
    ensures Separate(Polled(s))
  {
    if s.waiters != [] {
      assert HasBlocking(s.queue, s.waiters[|s.waiters| - 1]);
    }
  }

  // --- The answer told is the first one given ------------------------------------------------

  lemma RepliedKeepsFaithful(s: State, id: int, reply: Reply)
    requires Counted(s) && Separate(s) && Faithful(s)
    ensures Faithful(Replied(s, id, reply))
  {
    var (at, s') := (Find(s.queue, id), Replied(s, id, reply));
    if at >= 0 && !s.queue[at].answered {
      QueueIsDistinct(s);
      assert s.queue[at] in s.queue;
      QueuedIsOpen(s, s.queue[at]);
      assert Holds(s, s.queue[at]);
      forall r <- s'.queue
        ensures Holds(s', r)
      {
        var i :| 0 <= i < |s'.queue| && s'.queue[i] == r;
        assert s.queue[i] in s.queue;
        assert Holds(s, s.queue[i]);
      }
    }
  }

  lemma TakeKeepsFaithful(s: State)
    requires Faithful(s)
    ensures Faithful(Next(s, Take))
  {
    ReadyIs(s.queue);
    forall r <- Ready(s.queue)
      ensures Final(s, r.id, r.reply)
    {
      assert Holds(s, r);
    }
  }

  lemma RefusedKeepsFaithful(s: State, scope: Scope)
    requires Counted(s) && Separate(s) && Faithful(s)
    ensures Faithful(Refused(s, scope))
  {
    LeftIs(s.queue, scope);
    OrphanedIs(s.queue, scope);
    var s' := Refused(s, scope);
    forall id <- RefusedIds(s.queue, scope)
      ensures id < s.nextId
      ensures forall r <- s.outgoing :: r.id != id
      ensures forall o <- s.delivered :: o.id != id
      ensures forall o <- s.returned :: o.id != id
    {
      var r :| r in s.queue && r.id == id;
      QueuedIsOpen(s, r);
    }
    RefusedKeepsHolding(s, scope);
  }

  lemma RefusedKeepsHolding(s: State, scope: Scope)
    requires Counted(s) && Faithful(s)
    ensures forall r <- Refused(s, scope).queue :: Holds(Refused(s, scope), r)
  {
    LeftIs(s.queue, scope);
    QueueIsDistinct(s);
    forall l <- Left(s.queue, scope)
      ensures Holds(Refused(s, scope), l)
    {
      if l in s.queue && !Hits(scope, l) {
        assert Holds(s, l);
        assert l.id !in RefusedIds(s.queue, scope);
      } else {
        var r :| r in s.queue && Hits(scope, r) && l == Refusal(r);
        assert l.id in RefusedIds(s.queue, scope);
      }
    }
  }

  lemma PolledKeepsFaithful(s: State)
    requires Awaited(s) && Faithful(s)
    ensures Faithful(Polled(s))
  {
    if s.waiters != [] {
      assert HasBlocking(s.queue, s.waiters[|s.waiters| - 1]);
      var at := Find(s.queue, s.waiters[|s.waiters| - 1]);
      assert s.queue[at] in s.queue;
      assert Holds(s, s.queue[at]);
      assert Polled(s).first == s.first && Polled(s).refused == s.refused;
      assert forall r <- Polled(s).queue :: r in s.queue && Holds(s, r);
    }
  }

  lemma StepKeepsFaithful(s: State, step: Step)
    requires Inv(s)
    ensures Faithful(Next(s, step))
  {
    match step
    case Ask(kind, page, blocking) =>
    case Answer(id, accepted, text, secret, remember) =>
      RepliedKeepsFaithful(s, id, Reply(accepted, text, secret, remember, []));
    case PickFiles(id, paths) => RepliedKeepsFaithful(s, id, NOTHING.(accepted := paths != [], paths := paths));
    case Take => TakeKeepsFaithful(s);
    case Deliver(at) =>
    case Refuse(scope) => RefusedKeepsFaithful(s, scope);
    case Poll => PolledKeepsFaithful(s);
  }

  // --- Every run ---------------------------------------------------------------------------

  lemma {:induction false} EveryRunKeepsInv(steps: seq<Step>)
    ensures Inv(Run(steps))
  {
    if steps == [] {
      assert forall id :: OnePlace(START, id);
    } else {
      var (s, step) := (Run(steps[..|steps| - 1]), steps[|steps| - 1]);
      EveryRunKeepsInv(steps[..|steps| - 1]);
      StepKeepsCounted(s, step);
      StepKeepsAwaited(s, step);
      StepKeepsSeparate(s, step);
      StepKeepsFaithful(s, step);
    }
  }

  /** Every question asked is answered at most once, and only one that is not queued
      nor about to be told has been: to its listener when no callback waits for it,
      to its callback when one does. */
  lemma AnsweredOnce(steps: seq<Step>, id: int)
    requires 0 < id < Run(steps).nextId
    ensures var s := Run(steps);
            && Count(s.queue, id) + Count(s.outgoing, id) + Outcomes(s.delivered, id) + Outcomes(s.returned, id) == 1
            && (id in s.parked ==> Count(s.outgoing, id) == Outcomes(s.delivered, id) == 0)
            && (id !in s.parked ==> Outcomes(s.returned, id) == 0)
  {
    EveryRunKeepsInv(steps);
    var s := Run(steps);
    assert OnePlace(s, id);
    NoneCounted(s.outgoing, id);
    NoneHappened(s.delivered, id);
    NoneHappened(s.returned, id);
  }

  lemma {:induction false} NoneCounted(requests: seq<Request>, id: int)
    ensures Count(requests, id) == 0 || exists r <- requests :: r.id == id
  {
    if requests != [] {
      NoneCounted(requests[1..], id);
      assert requests[0] in requests;
    }
  }

  lemma {:induction false} NoneHappened(outcomes: seq<Outcome>, id: int)
    ensures Outcomes(outcomes, id) == 0 || exists o <- outcomes :: o.id == id
  {
    if outcomes != [] {
      NoneHappened(outcomes[..|outcomes| - 1], id);
      assert outcomes[|outcomes| - 1] in outcomes;
    }
  }

  /** What a listener is told or a callback returns is the first answer given, unless
      the page closed or everything was refused while the question was queued. */
  lemma FirstAnswerCounts(steps: seq<Step>, outcome: Outcome)
    requires outcome in Run(steps).delivered + Run(steps).returned
    ensures var s := Run(steps);
            && (outcome.id !in s.refused ==> outcome.id in s.first && outcome.reply == s.first[outcome.id])
            && (outcome.id in s.refused ==> !outcome.reply.accepted)
  {
    EveryRunKeepsInv(steps);
  }

  /** A waiting callback always finds its question, and only its own return takes the
      question off the queue. */
  lemma OnlyTheWaiterTakesIt(steps: seq<Step>, step: Step, request: Request)
    requires request in Run(steps).queue && request.blocking
    ensures var s := Run(steps);
            || HasBlocking(Next(s, step).queue, request.id)
            || (step.Poll? && s.waiters != [] && s.waiters[|s.waiters| - 1] == request.id
                && Next(s, step).returned == s.returned + [Outcome(request.id, request.reply)])
  {
    EveryRunKeepsInv(steps);
    var s := Run(steps);
    StepKeepsAwaited(s, step);
    if step.Poll? {
      PollTakesOwn(s, request);
    } else {
      assert request.id in Next(s, step).waiters;
    }
  }

  lemma PollTakesOwn(s: State, request: Request)
    requires Counted(s) && Awaited(s) && request in s.queue && request.blocking
    ensures || HasBlocking(Polled(s).queue, request.id)
            || (s.waiters != [] && s.waiters[|s.waiters| - 1] == request.id
                && Polled(s).returned == s.returned + [Outcome(request.id, request.reply)])
  {
    PolledKeepsAwaited(s);
    if request.id !in Polled(s).waiters {
      var k :| 0 <= k < |s.waiters| && s.waiters[k] == request.id;
      var outer := Polled(s).waiters;
      assert forall j :: 0 <= j < |outer| ==> outer[j] == s.waiters[j] && outer[j] in outer;
      FindFinds(s, request);
    }
  }

  // --- What is shown, and how a shutdown ends ------------------------------------------------

  predicate CanShow(request: Request) {
    !request.kind.FilePicker? && !request.answered
  }

  /** The newest question that can be shown. */
  predicate IsNewest(queue: seq<Request>, at: int) {
    0 <= at < |queue| && CanShow(queue[at]) && forall i :: at < i < |queue| ==> !CanShow(queue[i])
  }

  ghost predicate IsShown(queue: seq<Request>, id: int) {
    if exists r :: r in queue && CanShow(r) then exists at :: IsNewest(queue, at) && queue[at].id == id
    else id == 0
  }

  /** What is shown is the newest question that is unanswered and no file picker, and
      nothing is shown only when there is none. */
  lemma {:induction false} PresentedIsNewest(queue: seq<Request>, id: int)
    ensures Presented(queue) == id <==> IsShown(queue, id)
  {
    if queue != [] {
      var n := |queue| - 1;
      var front, last := queue[..n], queue[n];
      assert queue == front + [last];
      if CanShow(last) {
        assert IsNewest(queue, n) && last in queue;
      } else {
        PresentedIsNewest(front, id);
        ShownInFront(front, last, id);
      }
    }
  }

  lemma ShownInFront(front: seq<Request>, last: Request, id: int)
    requires !CanShow(last)
    ensures IsShown(front + [last], id) <==> IsShown(front, id)
  {
    var queue := front + [last];
    assert queue[|front|] == last && forall i :: 0 <= i < |front| ==> queue[i] == front[i];
    forall at
      ensures IsNewest(queue, at) <==> IsNewest(front, at)
    {
      if IsNewest(queue, at) {
        assert forall i :: at < i < |front| ==> !CanShow(queue[i]);
      }
    }
    forall r
      ensures r in queue && CanShow(r) <==> r in front && CanShow(r)
    {
    }
  }

  function Polls(s: State, times: nat): State {
    if times == 0 then s else Polled(Polls(s, times - 1))
  }

  ghost predicate AllSettled(queue: seq<Request>) {
    forall r <- queue :: r.answered && r.blocking
  }

  lemma {:induction false} RefusedAreSettled(queue: seq<Request>)
    ensures AllSettled(Left(queue, Everything))
  {
    if queue != [] {
      RefusedAreSettled(queue[1..]);
    }
  }

  lemma PollReturnsOne(s: State)
    requires Counted(s) && Awaited(s) && AllSettled(s.queue) && s.waiters != []
    ensures var s' := Polled(s);
            && Counted(s') && Awaited(s') && AllSettled(s'.queue)
            && s'.waiters == s.waiters[..|s.waiters| - 1]
  {
    StepKeepsCounted(s, Poll);
    StepKeepsAwaited(s, Poll);
    assert HasBlocking(s.queue, s.waiters[|s.waiters| - 1]);
  }

  lemma {:induction false} PollsUnwind(s: State, times: nat)
    requires Counted(s) && Awaited(s) && AllSettled(s.queue) && times <= |s.waiters|
    ensures var s' := Polls(s, times);
            && Counted(s') && Awaited(s') && AllSettled(s'.queue)
            && s'.waiters == s.waiters[..|s.waiters| - times]
  {
    if times > 0 {
      PollsUnwind(s, times - 1);
      PollReturnsOne(Polls(s, times - 1));
    }
  }

  lemma NobodyWaits(s: State)
    requires Awaited(s) && AllSettled(s.queue) && s.waiters == []
    ensures s.queue == []
  {
    if s.queue != [] {
      HasMember(s.queue);
      assert false;
    }
  }

  lemma PollsEmpty(s: State)
    requires Counted(s) && Awaited(s) && AllSettled(s.queue)
    ensures var s' := Polls(s, |s.waiters|);
            s'.waiters == [] && s'.queue == []
  {
    PollsUnwind(s, |s.waiters|);
    NobodyWaits(Polls(s, |s.waiters|));
  }

  /** Refusing everything lets every waiting callback return, the innermost first,
      and leaves nothing queued. */
  lemma RefusalUnwinds(steps: seq<Step>)
    ensures var s := Refused(Run(steps), Everything);
            var s' := Polls(s, |s.waiters|);
            s'.waiters == [] && s'.queue == []
  {
    EveryRunKeepsInv(steps);
    StepKeepsCounted(Run(steps), Refuse(Everything));
    StepKeepsAwaited(Run(steps), Refuse(Everything));
    RefusedAreSettled(Run(steps).queue);
    PollsEmpty(Refused(Run(steps), Everything));
  }
}
