/** What every interleaving of the permission steps keeps, and what that promises
    to the page and to the person asked. */
module PermissionRuns {
  import opened Permissions

  // --- Counting -------------------------------------------------------------------------

  lemma {:induction false} QueuedConcat(front: seq<Pending>, back: seq<Pending>, request: nat)
    ensures Queued(front + back, request) == Queued(front, request) + Queued(back, request)
  {
    if front == [] {
      assert front + back == back;
    } else {
      QueuedConcat(front[1..], back, request);
      assert (front + back)[1..] == front[1..] + back;
    }
  }

  lemma QueuedOne(pending: Pending, request: nat)
    ensures Queued([pending], request) == if pending.request == request then 1 else 0
  {
    assert [pending][1..] == [];
  }

  lemma {:induction false} QueuedMarked(queue: seq<Pending>, id: int, request: nat)
    ensures Queued(Mark(queue, id), request) == Queued(queue, request)
  {
    if queue != [] {
      QueuedMarked(queue[1..], id, request);
      assert Mark(queue, id)[1..] == Mark(queue[1..], id);
    }
  }

  /** Taking a page's requests out splits the queue: none is lost, none is doubled. */
  lemma {:induction false} PageSplits(queue: seq<Pending>, page: int, request: nat)
    ensures Queued(OfPage(queue, page), request) + Queued(NotOfPage(queue, page), request) == Queued(queue, request)
  {
    if queue != [] {
      PageSplits(queue[1..], page, request);
      QueuedConcat(if queue[0].page == page then [queue[0]] else [], OfPage(queue[1..], page), request);
      QueuedConcat(if queue[0].page == page then [] else [queue[0]], NotOfPage(queue[1..], page), request);
      QueuedOne(queue[0], request);
    }
  }

  lemma SettledCounts(s: State, pending: Pending, answer: Answer, request: nat)
    ensures var one := if pending.request == request then 1 else 0;
            var s' := Settle(s, pending, answer);
            && TimesAnswered(s'.answers, request) == TimesAnswered(s.answers, request) + one
            && Times(s'.released, request) == Times(s.released, request) + one
  {
    assert Settle(s, pending, answer).answers[..|s.answers|] == s.answers;
    assert Settle(s, pending, answer).released[..|s.released|] == s.released;
  }

  lemma {:induction false} AllSettledCounts(s: State, dropped: seq<Pending>, request: nat)
    ensures var s' := SettleAll(s, dropped);
            && TimesAnswered(s'.answers, request) == TimesAnswered(s.answers, request) + Queued(dropped, request)
            && Times(s'.released, request) == Times(s.released, request) + Queued(dropped, request)
    decreases |dropped|
  {
    if dropped != [] {
      SettledCounts(s, dropped[0], Deny, request);
      AllSettledCounts(Settle(s, dropped[0], Deny), dropped[1..], request);
    }
  }

  // --- Every request in one place --------------------------------------------------------

  ghost predicate InPlace(s: State, request: nat) {
    OnePlace(s, request) && HeldWhileQueued(s, request)
  }

  lemma AnswerKeepsPlace(s: State, id: int, answer: Answer, request: nat)
    requires InPlace(s, request)
    ensures InPlace(AnswerOne(s, id, answer), request)
  {
    var at := IndexOf(s.queue, id);
    IndexOfFinds(s.queue, id);
    if at >= 0 {
      var (q, p) := (s.queue, s.queue[at]);
      SettledCounts(s.(queue := q[..at] + q[at + 1..]), p, answer, request);
      assert q == q[..at] + ([p] + q[at + 1..]);
      QueuedConcat(q[..at], [p] + q[at + 1..], request);
      QueuedConcat([p], q[at + 1..], request);
      QueuedConcat(q[..at], q[at + 1..], request);
      QueuedOne(p, request);
    }
  }

  lemma DenyEveryKeepsPlace(s: State, request: nat)
    requires InPlace(s, request)
    ensures InPlace(DenyEvery(s), request)
  {
    AllSettledCounts(s.(queue := []), s.queue, request);
  }

  lemma DenyPageKeepsPlace(s: State, page: int, request: nat)
    requires InPlace(s, request)
    ensures InPlace(DenyPage(s, page), request)
  {
    AllSettledCounts(s.(queue := NotOfPage(s.queue, page)), OfPage(s.queue, page), request);
    PageSplits(s.queue, page, request);
  }

  lemma RefusedCounts(s: State, refused: nat, request: nat)
    ensures TimesAnswered(Refuse(s, refused).answers, request)
         == TimesAnswered(s.answers, request) + if refused == request then 1 else 0
  {
    assert Refuse(s, refused).answers[..|s.answers|] == s.answers;
  }

  lemma AskedKeepsPlace(s: State, asked: nat, page: int, named: bool, decision: Decision, request: nat)
    requires InPlace(s, request)
    ensures InPlace(Asked(s, asked, page, named, decision), request)
  {
    var s' := Asked(s, asked, page, named, decision);
    assert s'.queue == s.queue && s'.retained == s.retained && s'.released == s.released;
    if s.routing.Idle? && asked !in s.arrived {
      if !named || decision == AlwaysDeny {
        RefusedCounts(s.(arrived := s.arrived + {asked}), asked, request);
      } else {
        assert s'.answers == s.answers;
      }
    }
  }

  lemma QueuedKeepsPlace(s: State, request: nat)
    requires InPlace(s, request) && s.routing.Cleared?
    ensures InPlace(Routed(s), request)
  {
    var pending := Pending(s.nextId, s.routing.request, s.routing.page, false);
    assert Routed(s).queue == s.queue + [pending];
    QueuedConcat(s.queue, [pending], request);
    QueuedOne(pending, request);
    assert Routed(s).retained[..|s.retained|] == s.retained;
  }

  lemma DecidedKeepsPlace(s: State, request: nat)
    requires InPlace(s, request) && s.routing.Decided?
    ensures InPlace(Routed(s), request)
  {
    if s.shutdown {
      RefusedCounts(s.(routing := Idle), s.routing.request, request);
    }
  }

  lemma RoutedKeepsPlace(s: State, request: nat)
    requires InPlace(s, request)
    ensures InPlace(Routed(s), request)
  {
    match s.routing
    case Idle =>
    case Decided(_, _, _) => DecidedKeepsPlace(s, request);
    case Cleared(asked, page, _) => QueuedKeepsPlace(s, request);
    case Granting(id) => AnswerKeepsPlace(s.(routing := Idle), id, Allow, request);
  }

  lemma AppliedKeepsPlace(s: State, request: nat)
    requires InPlace(s, request)
    ensures InPlace(Applied(s), request)
  {
    if s.draining != [] {
      var s' := s.(draining := s.draining[1..]);
      if s.draining[0].0 == 0 {
        DenyEveryKeepsPlace(s', request);
      } else {
        AnswerKeepsPlace(s', s.draining[0].0, s.draining[0].1, request);
      }
    }
  }

  lemma MarkKeepsPlace(s: State, id: int, request: nat)
    requires InPlace(s, request)
    ensures InPlace(HostMarks(s, id), request)
  {
    QueuedMarked(s.queue, id, request);
  }

  lemma PlaceUntouched(s: State, s': State, request: nat)
    requires InPlace(s, request)
    requires s'.routing == s.routing && s'.queue == s.queue && s'.answers == s.answers && s'.arrived == s.arrived
    requires s'.retained == s.retained && s'.released == s.released
    ensures InPlace(s', request)
  {
  }

  lemma HostKeepsPlace(s: State, request: nat)
    requires InPlace(s, request)
    ensures InPlace(HostWent(s), request)
  {
    if s.host.Flagged? {
      MarkKeepsPlace(s.(host := Silenced), 0, request);
    } else {
      PlaceUntouched(s, HostWent(s), request);
    }
  }

  lemma AnsweringKeepsPlace(s: State, id: int, answer: Answer, request: nat)
    requires InPlace(s, request)
    ensures InPlace(HostAnswered(s, id, answer), request)
  {
    var allowed := if answer.Allow? then s.allowedByHost + {id} else s.allowedByHost;
    MarkKeepsPlace(s.(host := Marked(id, answer), allowedByHost := allowed), id, request);
  }

  lemma StepKeepsPlace(s: State, step: Step, request: nat)
    requires InPlace(s, request)
    ensures InPlace(Next(s, step), request)
  {
    match step
    case PageAsks(asked, page, named, decision) => AskedKeepsPlace(s, asked, page, named, decision, request);
    case Route => RoutedKeepsPlace(s, request);
    case HostAnswers(id, answer) => AnsweringKeepsPlace(s, id, answer, request);
    case HostGoesOn => HostKeepsPlace(s, request);
    case HostShutsDown => PlaceUntouched(s, Next(s, step), request);
    case Swap => PlaceUntouched(s, Next(s, step), request);
    case Apply => AppliedKeepsPlace(s, request);
    case PageCloses(page) => DenyPageKeepsPlace(s, page, request);
    case RunShutdown =>
      DenyEveryKeepsPlace(s, request);
      PlaceUntouched(DenyEvery(s), DenyEvery(s).(taskRan := true), request);
  }

  lemma StepKeepsCounted(s: State, step: Step)
    requires Counted(s)
    ensures Counted(Next(s, step))
  {
    forall request: nat
      ensures OnePlace(Next(s, step), request) && HeldWhileQueued(Next(s, step), request)
    {
      assert OnePlace(s, request);
      StepKeepsPlace(s, step, request);
    }
  }

  // --- The queue keeps its order, and what was answered stays so -------------------------

  /** Both are kept when the queue only loses requests. */
  ghost predicate Thinned(fewer: seq<Pending>, queue: seq<Pending>) {
    && (forall p <- fewer :: p in queue)
    && (Ascends(queue) ==> Ascends(fewer))
  }

  ghost predicate Ascends(queue: seq<Pending>) {
    forall i, j :: 0 <= i < j < |queue| ==> queue[i].id < queue[j].id
  }

  lemma {:induction false} NotOfPageThins(queue: seq<Pending>, page: int)
    ensures Thinned(NotOfPage(queue, page), queue)
  {
    if queue != [] {
      NotOfPageThins(queue[1..], page);
      assert forall p <- queue[1..] :: p in queue;
      if Ascends(queue) {
        assert Ascends(queue[1..]);
        assert forall p <- queue[1..] :: queue[0].id < p.id;
      }
    }
  }

  lemma OneLessThins(queue: seq<Pending>, at: nat)
    requires at < |queue|
    ensures Thinned(queue[..at] + queue[at + 1..], queue)
  {
    var fewer := queue[..at] + queue[at + 1..];
    assert forall i :: 0 <= i < |fewer| ==> fewer[i] == queue[if i < at then i else i + 1];
  }

  lemma AnswerThins(s: State, id: int, answer: Answer)
    ensures Thinned(AnswerOne(s, id, answer).queue, s.queue)
  {
    IndexOfFinds(s.queue, id);
    if IndexOf(s.queue, id) >= 0 {
      OneLessThins(s.queue, IndexOf(s.queue, id));
    }
  }

  /** An answer touches the queue and what the page hears, nothing else. */
  lemma AnswerLeavesRest(s: State, id: int, answer: Answer)
    ensures AnswerOne(s, id, answer).(queue := s.queue, answers := s.answers, released := s.released) == s
  {
  }

  lemma ThinnedKeeps(s: State, s': State)
    requires IdsAscend(s) && SpokenIsResolved(s)
    requires Thinned(s'.queue, s.queue) && s'.spoken == s.spoken && s'.nextId == s.nextId
    ensures IdsAscend(s') && SpokenIsResolved(s')
  {
    assert Ascends(s.queue);
    forall i | 0 <= i < |s'.queue|
      ensures 0 < s'.queue[i].id < s'.nextId
    {
      assert s'.queue[i] in s.queue;
    }
  }

  lemma MarkKeepsOrder(s: State, id: int)
    requires IdsAscend(s) && SpokenIsResolved(s)
    ensures IdsAscend(HostMarks(s, id)) && SpokenIsResolved(HostMarks(s, id))
  {
    MarkChanges(s.queue, id);
  }

  lemma QueueUntouched(s: State, s': State)
    requires IdsAscend(s) && SpokenIsResolved(s)
    requires s'.queue == s.queue && s'.spoken == s.spoken && s'.nextId == s.nextId
    ensures IdsAscend(s') && SpokenIsResolved(s')
  {
  }

  lemma HostKeepsOrder(s: State)
    requires IdsAscend(s) && SpokenIsResolved(s)
    ensures IdsAscend(HostWent(s)) && SpokenIsResolved(HostWent(s))
  {
    if s.host.Flagged? {
      MarkKeepsOrder(s.(host := Silenced), 0);
    } else {
      QueueUntouched(s, HostWent(s));
    }
  }

  lemma AnsweringKeepsOrder(s: State, id: int, answer: Answer)
    requires IdsAscend(s) && SpokenIsResolved(s)
    ensures IdsAscend(HostAnswered(s, id, answer)) && SpokenIsResolved(HostAnswered(s, id, answer))
  {
    var allowed := if answer.Allow? then s.allowedByHost + {id} else s.allowedByHost;
    MarkKeepsOrder(s.(host := Marked(id, answer), allowedByHost := allowed), id);
  }

  /** A new request is last in the queue, and under an id nobody has spoken of. */
  lemma QueuedKeepsOrder(s: State)
    requires IdsAscend(s) && SpokenIsResolved(s) && s.routing.Cleared?
    ensures IdsAscend(Routed(s)) && SpokenIsResolved(Routed(s))
  {
  }

  lemma RoutedKeepsOrder(s: State)
    requires IdsAscend(s) && SpokenIsResolved(s)
    ensures IdsAscend(Routed(s)) && SpokenIsResolved(Routed(s))
  {
    if s.routing.Cleared? {
      QueuedKeepsOrder(s);
    } else if s.routing.Granting? {
      AnswerThins(s.(routing := Idle), s.routing.id, Allow);
      AnswerLeavesRest(s.(routing := Idle), s.routing.id, Allow);
      ThinnedKeeps(s, Routed(s));
    }
  }

  lemma AppliedKeepsOrder(s: State)
    requires IdsAscend(s) && SpokenIsResolved(s)
    ensures IdsAscend(Applied(s)) && SpokenIsResolved(Applied(s))
  {
    if s.draining != [] {
      AnswerThins(s.(draining := s.draining[1..]), s.draining[0].0, s.draining[0].1);
      AnswerLeavesRest(s.(draining := s.draining[1..]), s.draining[0].0, s.draining[0].1);
      ThinnedKeeps(s, Applied(s));
    }
  }

  lemma PageKeepsOrder(s: State, page: int)
    requires IdsAscend(s) && SpokenIsResolved(s)
    ensures IdsAscend(DenyPage(s, page)) && SpokenIsResolved(DenyPage(s, page))
  {
    NotOfPageThins(s.queue, page);
    ThinnedKeeps(s, DenyPage(s, page));
  }

  lemma ShutdownKeepsOrder(s: State)
    requires IdsAscend(s) && SpokenIsResolved(s)
    ensures IdsAscend(Next(s, RunShutdown)) && SpokenIsResolved(Next(s, RunShutdown))
  {
    if s.routing.Idle? && s.taskPosted {
      ThinnedKeeps(s, Next(s, RunShutdown));
    }
  }

  lemma QuietKeepsOrder(s: State, step: Step)
    requires IdsAscend(s) && SpokenIsResolved(s) && (step.PageAsks? || step.HostShutsDown? || step.Swap?)
    ensures IdsAscend(Next(s, step)) && SpokenIsResolved(Next(s, step))
  {
    QueueUntouched(s, Next(s, step));
  }

  lemma StepKeepsOrder(s: State, step: Step)
    requires IdsAscend(s) && SpokenIsResolved(s)
    ensures IdsAscend(Next(s, step)) && SpokenIsResolved(Next(s, step))
  {
    match step
    case Route => RoutedKeepsOrder(s);
    case HostAnswers(id, answer) => AnsweringKeepsOrder(s, id, answer);
    case HostGoesOn => HostKeepsOrder(s);
    case Apply => AppliedKeepsOrder(s);
    case PageCloses(page) => PageKeepsOrder(s, page);
    case RunShutdown => ShutdownKeepsOrder(s);
    case _ => QuietKeepsOrder(s, step);
  }

  // --- Nothing is allowed by accident ----------------------------------------------------

  /** The answers that are new are refusals. */
  ghost predicate OnlyRefuses(s: State, s': State) {
    forall a <- s'.answers :: a in s.answers || a.answer.Deny?
  }

  lemma {:induction false} AllSettledRefuses(s: State, dropped: seq<Pending>)
    ensures OnlyRefuses(s, SettleAll(s, dropped))
    decreases |dropped|
  {
    if dropped != [] {
      AllSettledRefuses(Settle(s, dropped[0], Deny), dropped[1..]);
    }
  }

  lemma AnswersWith(s: State, id: int, answer: Answer)
    ensures forall a <- AnswerOne(s, id, answer).answers :: a in s.answers || (a.answer == answer && a.id == id)
  {
    IndexOfFinds(s.queue, id);
  }

  lemma RoutedKeepsMeant(s: State)
    requires AllowsAreMeant(s)
    ensures AllowsAreMeant(Routed(s))
  {
    if s.routing.Granting? {
      AnswersWith(s.(routing := Idle), s.routing.id, Allow);
      AnswerLeavesRest(s.(routing := Idle), s.routing.id, Allow);
    }
  }

  lemma AppliedKeepsMeant(s: State)
    requires AllowsAreMeant(s)
    ensures AllowsAreMeant(Applied(s))
  {
    if s.draining != [] {
      var (id, answer) := s.draining[0];
      var s' := s.(draining := s.draining[1..]);
      assert s.draining[0] in s.draining;
      AllSettledRefuses(s'.(queue := []), s'.queue);
      AnswersWith(s', id, answer);
      AnswerLeavesRest(s', id, answer);
    }
  }

  lemma AskedKeepsMeant(s: State, asked: nat, page: int, named: bool, decision: Decision)
    requires AllowsAreMeant(s)
    ensures AllowsAreMeant(Asked(s, asked, page, named, decision))
  {
  }

  lemma AnsweringKeepsMeant(s: State, id: int, answer: Answer)
    requires AllowsAreMeant(s)
    ensures AllowsAreMeant(HostAnswered(s, id, answer))
  {
  }

  lemma HostKeepsMeant(s: State)
    requires AllowsAreMeant(s)
    ensures AllowsAreMeant(HostWent(s))
  {
  }

  /** Refusing what is dropped leaves every allow as it was. */
  lemma RefusingKeepsMeant(s: State, left: seq<Pending>, dropped: seq<Pending>)
    requires AllowsAreMeant(s)
    ensures AllowsAreMeant(SettleAll(s.(queue := left), dropped))
  {
    AllSettledRefuses(s.(queue := left), dropped);
  }

  lemma StepKeepsMeant(s: State, step: Step)
    requires AllowsAreMeant(s)
    ensures AllowsAreMeant(Next(s, step))
  {
    match step
    case PageAsks(asked, page, named, decision) => AskedKeepsMeant(s, asked, page, named, decision);
    case Route => RoutedKeepsMeant(s);
    case HostAnswers(id, answer) => AnsweringKeepsMeant(s, id, answer);
    case HostGoesOn => HostKeepsMeant(s);
    case HostShutsDown =>
    case Swap =>
    case Apply => AppliedKeepsMeant(s);
    case PageCloses(page) => RefusingKeepsMeant(s, NotOfPage(s.queue, page), OfPage(s.queue, page));
    case RunShutdown => RefusingKeepsMeant(s, [], s.queue);
  }

  lemma StepKeepsShut(s: State, step: Step)
    requires ShutIsEmpty(s)
    ensures ShutIsEmpty(Next(s, step))
  {
    match step
    case Route =>
      if s.routing.Granting? {
        AnswerThins(s.(routing := Idle), s.routing.id, Allow);
        AnswerLeavesRest(s.(routing := Idle), s.routing.id, Allow);
        assert forall p <- Next(s, step).queue :: p in s.queue;
      }
    case Apply =>
      if s.routing.Idle? && s.draining != [] {
        AnswerThins(s.(draining := s.draining[1..]), s.draining[0].0, s.draining[0].1);
        AnswerLeavesRest(s.(draining := s.draining[1..]), s.draining[0].0, s.draining[0].1);
        assert s.draining[0].0 != 0 ==> forall p <- Next(s, step).queue :: p in s.queue;
      }
    case PageCloses(page) => NotOfPageThins(s.queue, page);
    case _ =>
  }

  // --- Every run ---------------------------------------------------------------------------

  lemma {:induction false} EveryRunKeepsInv(steps: seq<Step>)
    ensures Inv(Run(steps))
  {
    if steps != [] {
      var (s, step) := (Run(steps[..|steps| - 1]), steps[|steps| - 1]);
      EveryRunKeepsInv(steps[..|steps| - 1]);
      StepKeepsCounted(s, step);
      StepKeepsOrder(s, step);
      StepKeepsMeant(s, step);
      StepKeepsShut(s, step);
    }
  }

  /** At every moment a request that arrived has had one answer, or none yet and is
      still on its way in or queued; and a request that was queued is let go
      exactly when it is no longer. */
  lemma AnsweredOnce(steps: seq<Step>, request: nat)
    requires request in Run(steps).arrived
    ensures var s := Run(steps);
            && TimesAnswered(s.answers, request) <= 1
            && (TimesAnswered(s.answers, request) == 0 <==> InRoute(s.routing, request) + Queued(s.queue, request) == 1)
            && Times(s.retained, request) <= 1
            && Times(s.released, request) == Times(s.retained, request) - Queued(s.queue, request)
  {
    EveryRunKeepsInv(steps);
    RetainedOnce(steps, request);
    assert OnePlace(Run(steps), request) && HeldWhileQueued(Run(steps), request);
  }

  /** A reference is taken at most once, and never for a request that did not arrive. */
  lemma {:induction false} RetainedOnce(steps: seq<Step>, request: nat)
    ensures TakenOnce(Run(steps), request)
  {
    if steps != [] {
      var (s, step) := (Run(steps[..|steps| - 1]), steps[|steps| - 1]);
      RetainedOnce(steps[..|steps| - 1], request);
      RetainedStep(s, step, request);
    }
  }

  predicate TakenOnce(s: State, request: nat) {
    Times(s.retained, request) + InRoute(s.routing, request) <= if request in s.arrived then 1 else 0
  }

  lemma RoutedTakesOnce(s: State, request: nat)
    requires TakenOnce(s, request)
    ensures TakenOnce(Routed(s), request)
  {
    if s.routing.Cleared? {
      assert Routed(s).retained[..|s.retained|] == s.retained;
    } else if s.routing.Granting? {
      AnswerLeavesRest(s.(routing := Idle), s.routing.id, Allow);
    }
  }

  lemma AppliedTakesNothing(s: State)
    ensures Applied(s).retained == s.retained && Applied(s).routing == s.routing && Applied(s).arrived == s.arrived
  {
    if s.draining != [] {
      AnswerLeavesRest(s.(draining := s.draining[1..]), s.draining[0].0, s.draining[0].1);
    }
  }

  lemma RetainedStep(s: State, step: Step, request: nat)
    requires TakenOnce(s, request)
    ensures TakenOnce(Next(s, step), request)
  {
    match step
    case Route => RoutedTakesOnce(s, request);
    case Apply => AppliedTakesNothing(s);
    case _ =>
  }

  /** The person is never asked again about a request they have answered. */
  lemma NeverOfferedAgain(steps: seq<Step>)
    ensures Front(Run(steps).queue) !in Run(steps).spoken || Front(Run(steps).queue) == 0
  {
    EveryRunKeepsInv(steps);
  }

  /** WebKit hears an allow only for a request the person allowed or a remembered
      decision allows. */
  lemma AllowsWereGiven(steps: seq<Step>, answered: Answered)
    requires answered in Run(steps).answers && answered.answer.Allow?
    ensures answered.id in Run(steps).allowedByHost + Run(steps).allowedByPolicy
  {
    EveryRunKeepsInv(steps);
  }

  /** Once the shutdown has run on the WebKit thread nothing is queued, and nothing
      will be: every request that arrived has been answered, but for one the
      WebKit thread is about to refuse. */
  lemma ShutdownAnswersAll(steps: seq<Step>, request: nat)
    requires Run(steps).taskRan && request in Run(steps).arrived
    ensures var s := Run(steps);
            && s.queue == []
            && TimesAnswered(s.answers, request) + InRoute(s.routing, request) == 1
            && (InRoute(s.routing, request) == 1 ==>
                  Next(s, Route).answers == s.answers + [Answered(0, request, Deny)])
            && Times(s.retained, request) == Times(s.released, request)
  {
    EveryRunKeepsInv(steps);
    assert OnePlace(Run(steps), request) && HeldWhileQueued(Run(steps), request);
  }
}
