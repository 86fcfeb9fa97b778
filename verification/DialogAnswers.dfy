/** What pages are told, read off the steps alone: the first reply a question was given,
    as it was given, and what a refusal and a delivery take off the queue. */
module DialogAnswers {
  import opened Sequences
  import opened Dialogs
  import opened DialogRuns

  // --- Questions are as they were asked -----------------------------------------------------

  datatype Question = Question(kind: Kind, page: int, blocking: bool)

  /** The questions of a run, in the order they were asked. */
  function Questions(steps: seq<Step>): seq<Question> {
    if steps == [] then []
    else
      Questions(steps[..|steps| - 1]) +
      match steps[|steps| - 1]
      case Ask(kind, page, blocking) => [Question(kind, page, blocking)]
      case _ => []
  }

  /** The k-th question is known by the number k, and stays as it was asked. */
  ghost predicate AsAsked(questions: seq<Question>, r: Request) {
    1 <= r.id <= |questions| && questions[r.id - 1] == Question(r.kind, r.page, r.blocking)
  }

  ghost predicate AllAsAsked(s: State, questions: seq<Question>) {
    && s.nextId == |questions| + 1
    && (forall r <- s.queue :: AsAsked(questions, r))
    && (forall r <- s.outgoing :: AsAsked(questions, r))
  }

  lemma OneMoreAsked(s: State, questions: seq<Question>, kind: Kind, page: int, blocking: bool)
    requires AllAsAsked(s, questions)
    ensures AllAsAsked(AskedFor(s, kind, page, blocking), questions + [Question(kind, page, blocking)])
  {
    var more := questions + [Question(kind, page, blocking)];
    assert forall i :: 0 <= i < |questions| ==> more[i] == questions[i];
  }

  lemma RepliedAsAsked(s: State, questions: seq<Question>, id: int, reply: Reply)
    requires AllAsAsked(s, questions)
    ensures AllAsAsked(Replied(s, id, reply), questions)
  {
    var s' := Replied(s, id, reply);
    forall r <- s'.queue
      ensures AsAsked(questions, r)
    {
      var i :| 0 <= i < |s'.queue| && s'.queue[i] == r;
      assert s.queue[i] in s.queue;
    }
  }

  lemma RefusedAsAsked(s: State, questions: seq<Question>, scope: Scope)
    requires AllAsAsked(s, questions)
    ensures AllAsAsked(Refused(s, scope), questions)
  {
    LeftIs(s.queue, scope);
    OrphanedAsAsked(s.queue, scope, questions);
  }

  lemma {:induction false} OrphanedAsAsked(queue: seq<Request>, scope: Scope, questions: seq<Question>)
    requires forall r <- queue :: AsAsked(questions, r)
    ensures forall r <- Orphaned(queue, scope) :: AsAsked(questions, r)
  {
    if queue != [] {
      assert queue[0] in queue;
      OrphanedAsAsked(queue[1..], scope, questions);
    }
  }

  lemma StepAsAsked(s: State, questions: seq<Question>, step: Step)
    requires AllAsAsked(s, questions) && !step.Ask?
    ensures AllAsAsked(Next(s, step), questions)
  {
    match step
    case Answer(id, accepted, text, secret, remember) =>
      RepliedAsAsked(s, questions, id, Reply(accepted, text, secret, remember, []));
    case PickFiles(id, paths) => RepliedAsAsked(s, questions, id, NOTHING.(accepted := paths != [], paths := paths));
    case Take => ReadyIs(s.queue);
    case Deliver(at) =>
    case Refuse(scope) => RefusedAsAsked(s, questions, scope);
    case Poll =>
  }

  /** However a run goes, what is queued or about to be told is of the kind and of the page
      it was asked with, and known by its place among the questions asked. */
  lemma {:induction false} EveryQuestionIsAsAsked(steps: seq<Step>)
    ensures AllAsAsked(Run(steps), Questions(steps))
  {
    if steps != [] {
      var (front, step) := (steps[..|steps| - 1], steps[|steps| - 1]);
      EveryQuestionIsAsAsked(front);
      if step.Ask? {
        OneMoreAsked(Run(front), Questions(front), step.kind, step.page, step.blocking);
      } else {
        StepAsAsked(Run(front), Questions(front), step);
        assert Questions(front) + [] == Questions(front);
      }
    }
  }

  // --- The first reply ------------------------------------------------------------------------

  datatype Heard = Nothing | Heard(reply: Reply)

  /** What a step says to a question. */
  function Says(step: Step, id: int): Heard {
    match step
    case Answer(answered, accepted, text, secret, remember) =>
      if answered == id then Heard(Reply(accepted, text, secret, remember, [])) else Nothing
    case PickFiles(answered, paths) =>
      if answered == id then Heard(Reply(paths != [], "", "", false, paths)) else Nothing
    case _ => Nothing
  }

  predicate IsOpen(queue: seq<Request>, id: int) {
    exists r <- queue :: r.id == id && !r.answered
  }

  /** What the first step that found the question queued and unanswered said to it. */
  function FirstReply(steps: seq<Step>, id: int): Heard {
    if steps == [] then Nothing
    else
      var front := steps[..|steps| - 1];
      var before := FirstReply(front, id);
      if before.Heard? || !IsOpen(Run(front).queue, id) then before else Says(steps[|steps| - 1], id)
  }

  /** Whether everything, or all its page asked, was refused while it was queued. */
  predicate WasRefused(steps: seq<Step>, id: int) {
    steps != [] &&
    var (front, step) := (steps[..|steps| - 1], steps[|steps| - 1]);
    || WasRefused(front, id)
    || (step.Refuse? && exists r <- Run(front).queue ::
          r.id == id && (step.scope.Everything? || r.page == step.scope.page))
  }

  ghost predicate Agrees(s: State, id: int, heard: Heard, refused: bool) {
    && (id in s.first <==> heard.Heard?) && (heard.Heard? ==> s.first[id] == heard.reply)
    && (id in s.refused <==> refused)
  }

  lemma RepliedAgrees(s: State, said: int, reply: Reply, id: int, heard: Heard, refused: bool)
    requires Inv(s) && Agrees(s, id, heard, refused)
    ensures Agrees(Replied(s, said, reply), id,
                   if heard.Heard? || !IsOpen(s.queue, id) || said != id then heard else Heard(reply), refused)
  {
    var at := Find(s.queue, said);
    if said == id && at >= 0 {
      assert s.queue[at] in s.queue && Holds(s, s.queue[at]);
    }
    if said == id && IsOpen(s.queue, id) {
      var r :| r in s.queue && r.id == id && !r.answered;
      FindFinds(s, r);
    }
  }

  lemma RefusedAgrees(s: State, scope: Scope, id: int, heard: Heard, refused: bool)
    requires Agrees(s, id, heard, refused)
    ensures Agrees(Refused(s, scope), id, heard, refused ||
              exists r <- s.queue :: r.id == id && (scope.Everything? || r.page == scope.page))
  {
    assert id in RefusedIds(s.queue, scope) <==>
        exists r <- s.queue :: r.id == id && (scope.Everything? || r.page == scope.page);
  }

  lemma {:induction false} EveryRunAgrees(steps: seq<Step>, id: int)
    ensures Agrees(Run(steps), id, FirstReply(steps, id), WasRefused(steps, id))
  {
    if steps != [] {
      var (front, step) := (steps[..|steps| - 1], steps[|steps| - 1]);
      EveryRunAgrees(front, id);
      EveryRunKeepsInv(front);
      var (heard, refused) := (FirstReply(front, id), WasRefused(front, id));
      StepAgrees(Run(front), step, id, heard, refused);
    }
  }

  lemma StepAgrees(s: State, step: Step, id: int, heard: Heard, refused: bool)
    requires Inv(s) && Agrees(s, id, heard, refused)
    ensures Agrees(Next(s, step), id, if heard.Heard? || !IsOpen(s.queue, id) then heard else Says(step, id),
                   refused || (step.Refuse? && exists r <- s.queue ::
                     r.id == id && (step.scope.Everything? || r.page == step.scope.page)))
  {
    match step
    case Answer(said, accepted, text, secret, remember) =>
      RepliedAgrees(s, said, Reply(accepted, text, secret, remember, []), id, heard, refused);
    case PickFiles(said, paths) =>
      RepliedAgrees(s, said, NOTHING.(accepted := paths != [], paths := paths), id, heard, refused);
    case Refuse(scope) => RefusedAgrees(s, scope, id, heard, refused);
    case Ask(_, _, _) =>
    case Take =>
    case Deliver(_) =>
    case Poll =>
  }

  /** Whatever a listener is told and whatever a callback returns is, field by field, what
      the first step that answered the question said - or a refusal, when it was refused
      while it was queued. */
  lemma OutcomeIsFirstReply(steps: seq<Step>, outcome: Outcome)
    requires outcome in Run(steps).delivered + Run(steps).returned
    ensures if WasRefused(steps, outcome.id) then !outcome.reply.accepted
            else FirstReply(steps, outcome.id) == Heard(outcome.reply)
  {
    FirstAnswerCounts(steps, outcome);
    EveryRunAgrees(steps, outcome.id);
  }

  // --- What leaves the queue ------------------------------------------------------------------

  function Told(): Request -> bool {
    (r: Request) => r.answered && !r.blocking
  }

  function NotTold(): Request -> bool {
    (r: Request) => !r.answered || r.blocking
  }

  lemma {:induction false} TakeIsExact(queue: seq<Request>)
    ensures Ready(queue) == Filter(queue, Told()) && NotReady(queue) == Filter(queue, NotTold())
  {
    if queue != [] {
      TakeIsExact(queue[1..]);
    }
  }

  /** Handing the answers over takes exactly the answered questions no callback waits for,
      and tells them in their order. */
  lemma TakeTellsAnswered(s: State)
    ensures var s' := Next(s, Take);
            && s' == s.(queue := s'.queue, outgoing := s'.outgoing)
            && s'.queue == Filter(s.queue, NotTold()) && s'.outgoing == s.outgoing + Filter(s.queue, Told())
  {
    TakeIsExact(s.queue);
  }

  predicate InScope(scope: Scope, r: Request) {
    scope.Everything? || r.page == scope.page
  }

  predicate Goes(scope: Scope, r: Request) {
    InScope(scope, r) && !r.blocking
  }

  function Dropped(scope: Scope): Request -> bool {
    (r: Request) => Goes(scope, r)
  }

  function Stays(scope: Scope): Request -> bool {
    (r: Request) => !Goes(scope, r)
  }

  /** Each as it was, but answered with a refusal when it is in the scope. */
  ghost predicate AreMarked(left: seq<Request>, kept: seq<Request>, scope: Scope) {
    |left| == |kept| && forall i :: 0 <= i < |kept| ==>
      left[i] == if !InScope(scope, kept[i]) then kept[i]
                 else kept[i].(answered := true, reply := kept[i].reply.(accepted := false))
  }

  ghost predicate AreRefused(told: seq<Request>, dropped: seq<Request>) {
    |told| == |dropped| && forall i :: 0 <= i < |dropped| ==>
      told[i] == dropped[i].(reply := dropped[i].reply.(accepted := false))
  }

  lemma OneMoreMarked(first: Request, now: Request, left: seq<Request>, kept: seq<Request>, scope: Scope)
    requires AreMarked(left, kept, scope)
    requires now == if !InScope(scope, first) then first
                    else first.(answered := true, reply := first.reply.(accepted := false))
    ensures AreMarked([now] + left, [first] + kept, scope)
  {
  }

  lemma OneMoreRefused(first: Request, told: seq<Request>, dropped: seq<Request>)
    requires AreRefused(told, dropped)
    ensures AreRefused([first.(reply := first.reply.(accepted := false))] + told, [first] + dropped)
  {
  }

  lemma {:induction false} RefusalIsExact(queue: seq<Request>, scope: Scope)
    ensures AreMarked(Left(queue, scope), Filter(queue, Stays(scope)), scope)
    ensures AreRefused(Orphaned(queue, scope), Filter(queue, Dropped(scope)))
  {
    if queue != [] {
      RefusalIsExact(queue[1..], scope);
      StayOne(queue[0], scope, Left(queue[1..], scope), Filter(queue[1..], Stays(scope)));
      DropOne(queue[0], scope, Orphaned(queue[1..], scope), Filter(queue[1..], Dropped(scope)));
    }
  }

  lemma StayOne(first: Request, scope: Scope, left: seq<Request>, kept: seq<Request>)
    requires AreMarked(left, kept, scope)
    ensures AreMarked((if !Hits(scope, first) then [first] else if first.blocking then [Refusal(first)] else []) + left,
                      (if !Goes(scope, first) then [first] else []) + kept, scope)
  {
    if !Goes(scope, first) {
      OneMoreMarked(first, if Hits(scope, first) then Refusal(first) else first, left, kept, scope);
    } else {
      assert [] + left == left && [] + kept == kept;
    }
  }

  lemma DropOne(first: Request, scope: Scope, told: seq<Request>, dropped: seq<Request>)
    requires AreRefused(told, dropped)
    ensures AreRefused((if !Hits(scope, first) || first.blocking then []
                        else [first.(reply := first.reply.(accepted := false))]) + told,
                       (if Goes(scope, first) then [first] else []) + dropped)
  {
    if Goes(scope, first) {
      OneMoreRefused(first, told, dropped);
    } else {
      assert [] + told == told && [] + dropped == dropped;
    }
  }

  /** Refusing takes exactly the questions of its scope that no callback waits for, to be
      told they were refused; it marks exactly those of its scope that one waits for; and
      it leaves the others as they are, all in their order. */
  lemma RefuseTellsItsScope(s: State, scope: Scope)
    ensures var s' := Next(s, Refuse(scope));
            && s' == s.(queue := s'.queue, outgoing := s'.outgoing, refused := s'.refused)
            && AreMarked(s'.queue, Filter(s.queue, Stays(scope)), scope)
            && s.outgoing <= s'.outgoing
            && AreRefused(s'.outgoing[|s.outgoing|..], Filter(s.queue, Dropped(scope)))
  {
    RefusalIsExact(s.queue, scope);
    var told := Orphaned(s.queue, scope);
    assert (s.outgoing + told)[|s.outgoing|..] == told;
  }
}
