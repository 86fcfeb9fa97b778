/** What was said of a request, read off the steps alone, and that it is what the page
    hears: a remembered allow, the first word of the person, or a refusal. */
module PermissionWords {
  import opened Sequences
  import opened Permissions
  import opened PermissionRuns
  import opened PermissionAnswers

  // --- What a page asked ----------------------------------------------------------------------

  datatype Asking = NotAsked | Asking(page: int, named: bool, decision: Decision)

  /** How a request came in: the first time its page asked while nothing else was on its
      way in. */
  function AskingOf(steps: seq<Step>, request: nat): Asking {
    if steps == [] then NotAsked
    else
      var (front, step) := (steps[..|steps| - 1], steps[|steps| - 1]);
      if AskingOf(front, request).Asking? || !step.PageAsks? || step.request != request || !Run(front).routing.Idle?
      then AskingOf(front, request)
      else Asking(step.page, step.named, step.decision)
  }

  predicate Waits(asking: Asking, page: int) {
    asking.Asking? && asking.page == page && asking.named && !asking.decision.AlwaysDeny?
  }

  /** What the state holds of a request is what its page asked. */
  ghost predicate AsAsked(s: State, request: nat, asking: Asking) {
    && (request in s.arrived <==> asking.Asking?)
    && (forall p <- s.queue :: p.request == request ==> Waits(asking, p.page))
    && ((s.routing.Decided? || s.routing.Cleared?) && s.routing.request == request ==>
          Waits(asking, s.routing.page) && s.routing.allowed == asking.decision.AlwaysAllow?)
    && (forall a <- s.answers :: a.request == request ==> asking.Asking? && a.id >= 0)
    && (forall a <- s.answers :: a.request == request && a.id == 0 ==>
          a.answer.Deny? && (!asking.named || asking.decision.AlwaysDeny? || s.shutdown))
    && (forall a <- s.answers :: a.request == request && a.id != 0 ==> asking.named && !asking.decision.AlwaysDeny?)
  }

  // --- What was said of a request -------------------------------------------------------------

  /** The person says one word at a time; word 0 is said of everything, and only to deny. */
  predicate IsSaid(s: State, step: Step) {
    step.HostAnswers? && s.host.Free? && !(step.id == 0 && step.answer.Allow?)
  }

  predicate IsCarriedOut(s: State, step: Step) {
    step.Apply? && s.routing.Idle? && s.draining != []
  }

  /** What the person said, in order. */
  function Said(steps: seq<Step>): seq<(int, Answer)> {
    if steps == [] then []
    else
      var (front, step) := (steps[..|steps| - 1], steps[|steps| - 1]);
      if IsSaid(Run(front), step) then Said(front) + [(step.id, step.answer)] else Said(front)
  }

  /** How many of those words the WebKit thread has carried out. */
  function CarriedOut(steps: seq<Step>): nat {
    if steps == [] then 0
    else
      var (front, step) := (steps[..|steps| - 1], steps[|steps| - 1]);
      CarriedOut(front) + if IsCarriedOut(Run(front), step) then 1 else 0
  }

  datatype Word = NoWord | Word(answer: Answer)

  /** The first word from a place on that is said of an id, or of everything. */
  function FirstWord(said: seq<(int, Answer)>, from: nat, id: int): Word
    decreases |said| - from
  {
    if from >= |said| then NoWord
    else if said[from].0 == id || said[from].0 == 0 then Word(said[from].1)
    else FirstWord(said, from + 1, id)
  }

  predicate IsQueuedNow(s: State, step: Step, id: int) {
    step.Route? && s.routing.Cleared? && s.nextId == id
  }

  predicate IsSweptNow(s: State, step: Step, id: int) {
    s.routing.Idle? &&
    match step
    case PageCloses(page) => exists p <- s.queue :: p.id == id && p.page == page
    case RunShutdown => s.taskPosted && IsQueued(s.queue, id)
    case _ => false
  }

  /** The request that was queued under an id, and how many words had been carried out
      by then. */
  datatype Holding = NotHeld | Held(request: nat, since: nat)

  function HoldingOf(steps: seq<Step>, id: int): Holding {
    if steps == [] then NotHeld
    else
      var (front, step) := (steps[..|steps| - 1], steps[|steps| - 1]);
      if IsQueuedNow(Run(front), step, id)
      then Held(Run(front).routing.request, CarriedOut(front)) else HoldingOf(front, id)
  }

  predicate IsQueued(queue: seq<Pending>, id: int) {
    exists p <- queue :: p.id == id
  }

  /** Whether the closing of its page or the shutdown found it queued. */
  predicate WasSwept(steps: seq<Step>, id: int) {
    steps != [] &&
    var (front, step) := (steps[..|steps| - 1], steps[|steps| - 1]);
    WasSwept(front, id) || IsSweptNow(Run(front), step, id)
  }

  // --- Every word is still to come or carried out ---------------------------------------------

  function ToCome(s: State): seq<(int, Answer)> {
    s.draining + s.resolutions + (if s.host.Marked? then [(s.host.id, s.host.answer)] else [])
  }

  ghost predicate AreToCome(s: State, said: seq<(int, Answer)>, done: nat) {
    done <= |said| && said[done..] == ToCome(s)
  }

  lemma {:induction false} WordsToCome(steps: seq<Step>)
    ensures AreToCome(Run(steps), Said(steps), CarriedOut(steps))
  {
    if steps != [] {
      var (front, step) := (steps[..|steps| - 1], steps[|steps| - 1]);
      WordsToCome(front);
      StepToCome(Run(front), step, Said(front), CarriedOut(front));
    }
  }

  lemma StepToCome(s: State, step: Step, said: seq<(int, Answer)>, done: nat)
    requires AreToCome(s, said, done)
    ensures AreToCome(Next(s, step), if IsSaid(s, step) then said + [(step.id, step.answer)] else said,
                      done + if IsCarriedOut(s, step) then 1 else 0)
  {
    StepWords(s, step);
    if IsSaid(s, step) {
      assert (said + [(step.id, step.answer)])[done..] == said[done..] + [(step.id, step.answer)];
    } else if IsCarriedOut(s, step) {
      assert said[done + 1..] == said[done..][1..];
    }
  }

  lemma RouteKeepsWords(s: State)
    ensures ToCome(Routed(s)) == ToCome(s)
  {
    if s.routing.Granting? {
      AnswerLeavesRest(s.(routing := Idle), s.routing.id, Allow);
    }
  }

  lemma HostKeepsWords(s: State)
    ensures ToCome(HostWent(s)) == ToCome(s)
  {
    if s.host.Marked? {
      var word := [(s.host.id, s.host.answer)];
      assert s.draining + (s.resolutions + word) + [] == s.draining + s.resolutions + word;
    }
  }

  lemma ApplyTakesWord(s: State)
    requires s.routing.Idle?
    ensures s.draining == [] ==> Applied(s) == s
    ensures s.draining != [] ==> ToCome(s) != [] && ToCome(Applied(s)) == ToCome(s)[1..]
  {
    if s.draining != [] {
      var s' := s.(draining := s.draining[1..]);
      SettleAllIs(s'.(queue := []), s'.queue);
      AnswerLeavesRest(s', s.draining[0].0, s.draining[0].1);
      assert ToCome(s) == [s.draining[0]] + ToCome(s');
    }
  }

  lemma PageCloseKeepsWords(s: State, page: int)
    ensures ToCome(Next(s, PageCloses(page))) == ToCome(s)
  {
    if s.routing.Idle? {
      PageCloseIsExact(s, page);
    }
  }

  lemma StepWords(s: State, step: Step)
    ensures var (words, now) := (ToCome(s), ToCome(Next(s, step)));
            if IsSaid(s, step) then now == words + [(step.id, step.answer)]
            else if IsCarriedOut(s, step) then words != [] && now == words[1..]
            else now == words
  {
    match step
    case PageAsks(_, _, _, _) =>
    case Route => RouteKeepsWords(s);
    case HostAnswers(_, _) =>
    case HostGoesOn => HostKeepsWords(s);
    case HostShutsDown =>
    case Swap =>
      assert [] + s.resolutions == s.resolutions;
    case Apply =>
      if s.routing.Idle? {
        ApplyTakesWord(s);
      }
    case PageCloses(page) => PageCloseKeepsWords(s, page);
    case RunShutdown => SettleAllIs(s.(queue := []), s.queue);
  }

  // --- Requests stay as they were asked -------------------------------------------------------

  lemma AskedAsAsked(s: State, r: nat, page: int, named: bool, decision: Decision, request: nat, asking: Asking)
    requires AsAsked(s, request, asking)
    ensures AsAsked(Asked(s, r, page, named, decision), request,
                    if asking.Asking? || r != request || !s.routing.Idle? then asking
                    else Asking(page, named, decision))
  {
    var s' := Asked(s, r, page, named, decision);
    assert s'.queue == s.queue;
    if s.routing.Idle? && r !in s.arrived && (!named || decision.AlwaysDeny?) {
      assert s'.answers == s.answers + [Answered(0, r, Deny)];
    }
  }

  /** Marks speak for requests, and leave them as they are otherwise. */
  lemma MarkedAsAsked(s: State, id: int, request: nat, asking: Asking)
    requires AsAsked(s, request, asking)
    ensures AsAsked(HostMarks(s, id), request, asking)
  {
    MarkChanges(s.queue, id);
    forall p <- Mark(s.queue, id)
      ensures p.request == request ==> Waits(asking, p.page)
    {
      var i :| 0 <= i < |s.queue| && Mark(s.queue, id)[i] == p;
      assert s.queue[i] in s.queue;
    }
  }

  lemma SettledAsAsked(s: State, s': State, gone: seq<Pending>, answer: Answer, request: nat, asking: Asking)
    requires AsAsked(s, request, asking) && Settles(s, s', gone, answer) && IdsAscend(s)
    ensures AsAsked(s', request, asking)
  {
    forall a <- Replies(gone, answer)
      ensures a.id > 0 && (a.request == request ==> asking.Asking? && asking.named && !asking.decision.AlwaysDeny?)
    {
      var i :| 0 <= i < |gone| && a == Answered(gone[i].id, gone[i].request, answer);
      assert gone[i] in s.queue;
    }
  }

  lemma RoutedAsAsked(s: State, request: nat, asking: Asking)
    requires AsAsked(s, request, asking) && IdsAscend(s)
    ensures AsAsked(Routed(s), request, asking)
  {
    match s.routing
    case Idle =>
    case Decided(r, _, _) =>
      if s.shutdown {
        assert Routed(s).answers == s.answers + [Answered(0, r, Deny)];
      }
    case Cleared(_, _, _) =>
    case Granting(id) =>
      var gone := OneIsAnswered(s.(routing := Idle), id, Allow);
      SettledAsAsked(s.(routing := Idle), Routed(s), gone, Allow, request, asking);
  }

  lemma AppliedAsAsked(s: State, request: nat, asking: Asking)
    requires AsAsked(s, request, asking) && IdsAscend(s)
    ensures AsAsked(Applied(s), request, asking)
  {
    if s.draining != [] {
      var s' := s.(draining := s.draining[1..]);
      if s.draining[0].0 == 0 {
        EveryoneIsDenied(s');
        SettledAsAsked(s', Applied(s), s'.queue, Deny, request, asking);
      } else {
        var gone := OneIsAnswered(s', s.draining[0].0, s.draining[0].1);
        SettledAsAsked(s', Applied(s), gone, s.draining[0].1, request, asking);
      }
    }
  }

  lemma SweptAsAsked(s: State, step: Step, request: nat, asking: Asking)
    requires AsAsked(s, request, asking) && IdsAscend(s) && (step.PageCloses? || step.RunShutdown?)
    ensures AsAsked(Next(s, step), request, asking)
  {
    match step
    case PageCloses(page) =>
      PageIsDenied(s, page);
      SettledAsAsked(s, DenyPage(s, page), Filter(s.queue, OnPage(page)), Deny, request, asking);
    case RunShutdown =>
      EveryoneIsDenied(s);
      SettledAsAsked(s, DenyEvery(s), s.queue, Deny, request, asking);
  }

  lemma HostAsAsked(s: State, step: Step, request: nat, asking: Asking)
    requires AsAsked(s, request, asking) && (step.HostAnswers? || step.HostGoesOn? || step.HostShutsDown?)
    ensures AsAsked(Next(s, step), request, asking)
  {
    match step
    case HostAnswers(id, answer) =>
      var allowed := if answer.Allow? then s.allowedByHost + {id} else s.allowedByHost;
      MarkedAsAsked(s.(host := Marked(id, answer), allowedByHost := allowed), id, request, asking);
    case HostGoesOn =>
      if s.host.Flagged? {
        MarkedAsAsked(s.(host := Silenced), 0, request, asking);
      }
    case HostShutsDown =>
  }

  /** What is queued, on its way in or answered was asked, on that page; what was turned
      away unqueued had no name, was always denied, or came after the shutdown began. */
  lemma {:induction false} EveryRequestIsAsAsked(steps: seq<Step>, request: nat)
    ensures AsAsked(Run(steps), request, AskingOf(steps, request))
  {
    if steps != [] {
      var (front, step) := (steps[..|steps| - 1], steps[|steps| - 1]);
      EveryRequestIsAsAsked(front, request);
      EveryRunKeepsInv(front);
      StepAsAsked(Run(front), step, request, AskingOf(front, request));
    }
  }

  lemma StepAsAsked(s: State, step: Step, request: nat, asking: Asking)
    requires AsAsked(s, request, asking) && IdsAscend(s)
    ensures AsAsked(Next(s, step), request,
                    if asking.Asking? || !step.PageAsks? || step.request != request || !s.routing.Idle? then asking
                    else Asking(step.page, step.named, step.decision))
  {
    match step
    case PageAsks(r, page, named, decision) => AskedAsAsked(s, r, page, named, decision, request, asking);
    case Route => RoutedAsAsked(s, request, asking);
    case Swap =>
    case Apply => AppliedAsAsked(s, request, asking);
    case PageCloses(_) => SweptAsAsked(s, step, request, asking);
    case RunShutdown => SweptAsAsked(s, step, request, asking);
    case _ => HostAsAsked(s, step, request, asking);
  }

  // --- What each is told ----------------------------------------------------------------------

  /** No word before a place is said of the id. */
  predicate NoneSaid(said: seq<(int, Answer)>, from: nat, before: nat, id: int) {
    forall k :: from <= k < before <= |said| ==> said[k].0 != id && said[k].0 != 0
  }

  predicate Fits(answer: Answer, granted: bool, swept: bool, word: Word) {
    if granted then answer == Allow else if swept then answer == Deny else word == Word(answer)
  }

  /** What is known of the request under an id: it waits for the first word said of it, or
      was told what it should be. */
  ghost predicate IsTold(s: State, id: int, h: Holding, granted: bool, swept: bool,
          said: seq<(int, Answer)>, done: nat)
  {
    && (forall p <- s.queue :: p.id == id ==>
          && h.Held? && h.request == p.request && h.since <= done && NoneSaid(said, h.since, done, id) && !swept
          && (granted ==> s.routing == Granting(id)) && forall a <- s.answers :: a.id != id)
    && (forall a <- s.answers :: a.id == id ==>
          h.Held? && h.request == a.request && Fits(a.answer, granted, swept, FirstWord(said, h.since, id)))
    && (s.routing == Granting(id) ==> granted)
    && (if h.Held? then id < s.nextId else s.nextId <= id && !swept && !granted)
  }

  lemma {:induction false} NoWordYet(said: seq<(int, Answer)>, from: nat, before: nat, id: int)
    requires from <= before <= |said| && NoneSaid(said, from, before, id)
    ensures FirstWord(said, from, id) == FirstWord(said, before, id)
    decreases before - from
  {
    if from < before {
      NoWordYet(said, from + 1, before, id);
    }
  }

  lemma {:induction false} WordStays(said: seq<(int, Answer)>, word: (int, Answer), from: nat, id: int)
    requires FirstWord(said, from, id).Word?
    ensures FirstWord(said + [word], from, id) == FirstWord(said, from, id)
    decreases |said| - from
  {
    if from < |said| && said[from].0 != id && said[from].0 != 0 {
      WordStays(said, word, from + 1, id);
    }
  }

  /** One word more changes nothing of what was told. */
  lemma MoreSaid(s: State, id: int, h: Holding, granted: bool, swept: bool, said: seq<(int, Answer)>, done: nat,
                 word: (int, Answer))
    requires IsTold(s, id, h, granted, swept, said, done) && done <= |said|
    ensures IsTold(s, id, h, granted, swept, said + [word], done)
  {
    forall a <- s.answers | a.id == id
      ensures Fits(a.answer, granted, swept, FirstWord(said + [word], h.since, id))
    {
      if !granted && !swept {
        WordStays(said, word, h.since, id);
      }
    }
  }

  /** What leaves the queue is told what it should be, and what stays still waits. */
  lemma TakenOff(s: State, s': State, gone: seq<Pending>, answer: Answer, id: int, h: Holding, granted: bool,
                 swept: bool, now: bool, said: seq<(int, Answer)>, done: nat, next: nat)
    requires IdsAscend(s) && id > 0 && IsTold(s, id, h, granted, swept, said, done) && Settles(s, s', gone, answer)
    requires done <= next && (swept ==> now) && (now && !swept ==> IsQueued(gone, id))
    requires forall p <- gone :: p.id == id ==> Fits(answer, granted, now, FirstWord(said, h.since, id))
    requires forall p <- s.queue :: p.id == id && p !in gone ==> NoneSaid(said, h.since, next, id) && !now
    requires forall p <- gone, q <- s.queue :: p.id == q.id ==> p == q
    ensures IsTold(s', id, h, granted, now, said, next)
  {
    forall a <- Replies(gone, answer) | a.id == id
      ensures h.Held? && h.request == a.request && Fits(a.answer, granted, now, FirstWord(said, h.since, id))
      ensures IsQueued(gone, id)
    {
      var i :| 0 <= i < |gone| && a == Answered(gone[i].id, gone[i].request, answer);
      assert gone[i] in gone;
    }
    assert IsQueued(gone, id) ==> IsQueued(s.queue, id);
    assert IsQueued(s.queue, id) ==> forall a <- s.answers :: a.id != id;
  }

  /** A step that leaves the requests queued and answers none of them. */
  lemma QuietTold(s: State, s': State, id: int, h: Holding, granted: bool, swept: bool, said: seq<(int, Answer)>,
                  done: nat)
    requires IsTold(s, id, h, granted, swept, said, done) && id > 0 && s'.nextId == s.nextId
    requires |s'.queue| == |s.queue|
    requires forall i :: 0 <= i < |s.queue| ==>
               s'.queue[i].id == s.queue[i].id && s'.queue[i].request == s.queue[i].request
    requires forall a <- s'.answers :: a in s.answers || a.id == 0
    requires s.routing.Granting? || s'.routing.Granting? ==> s'.routing == s.routing
    ensures IsTold(s', id, h, granted, swept, said, done)
  {
    forall p <- s'.queue | p.id == id
      ensures h.Held? && h.request == p.request && h.since <= done && NoneSaid(said, h.since, done, id) && !swept
      ensures granted ==> s'.routing == Granting(id)
      ensures forall a <- s.answers :: a.id != id
    {
      var i :| 0 <= i < |s'.queue| && s'.queue[i] == p;
      assert s.queue[i] in s.queue;
    }
  }

  lemma AskedTold(s: State, r: nat, page: int, named: bool, decision: Decision, id: int, h: Holding, granted: bool,
                  swept: bool, said: seq<(int, Answer)>, done: nat)
    requires IsTold(s, id, h, granted, swept, said, done) && id > 0
    ensures IsTold(Asked(s, r, page, named, decision), id, h, granted, swept, said, done)
  {
    QuietTold(s, Asked(s, r, page, named, decision), id, h, granted, swept, said, done);
  }

  lemma HostTold(s: State, step: Step, id: int, h: Holding, granted: bool, swept: bool, said: seq<(int, Answer)>,
                 done: nat)
    requires IsTold(s, id, h, granted, swept, said, done) && id > 0
    requires step.HostAnswers? || step.HostGoesOn? || step.HostShutsDown?
    ensures IsTold(Next(s, step), id, h, granted, swept, said, done)
  {
    MarkChanges(s.queue, if step.HostAnswers? then step.id else 0);
    QuietTold(s, Next(s, step), id, h, granted, swept, said, done);
  }

  /** A request is queued under the next id, and waits for the words still to come. */
  lemma QueuedTold(s: State, id: int, h: Holding, granted: bool, swept: bool, said: seq<(int, Answer)>, done: nat)
    requires IsTold(s, id, h, granted, swept, said, done) && id > 0 && IdsAscend(s) && s.routing.Cleared?
    ensures IsTold(Routed(s), id, if s.nextId == id then Held(s.routing.request, done) else h,
                   if s.nextId == id then s.routing.allowed else granted, swept, said, done)
  {
    assert Routed(s).queue == s.queue + [Pending(s.nextId, s.routing.request, s.routing.page, false)];
  }

  lemma RoutedTold(s: State, id: int, h: Holding, granted: bool, swept: bool, said: seq<(int, Answer)>, done: nat)
    requires IsTold(s, id, h, granted, swept, said, done) && id > 0 && IdsAscend(s) && !s.routing.Cleared?
    ensures IsTold(Routed(s), id, h, granted, swept, said, done)
  {
    match s.routing
    case Idle =>
    case Decided(r, _, _) =>
      QuietTold(s, Routed(s), id, h, granted, swept, said, done);
    case Granting(_) => GrantedTold(s, id, h, granted, swept, said, done);
  }

  lemma GrantedTold(s: State, id: int, h: Holding, granted: bool, swept: bool, said: seq<(int, Answer)>, done: nat)
    requires IsTold(s, id, h, granted, swept, said, done) && id > 0 && IdsAscend(s) && s.routing.Granting?
    ensures IsTold(Routed(s), id, h, granted, swept, said, done)
  {
    var gone := OneIsAnswered(s, s.routing.id, Allow);
    GrantSettlesTold(s, AnswerOne(s, s.routing.id, Allow), gone, id, h, granted, swept, said, done);
  }

  lemma GrantSettlesTold(s: State, s': State, gone: seq<Pending>, id: int, h: Holding, granted: bool, swept: bool,
                         said: seq<(int, Answer)>, done: nat)
    requires IsTold(s, id, h, granted, swept, said, done) && id > 0 && IdsAscend(s) && s.routing.Granting?
    requires Settles(s, s', gone, Allow) && forall p <- s.queue :: p in gone <==> p.id == s.routing.id
    ensures IsTold(s'.(routing := Idle), id, h, granted, swept, said, done)
  {
    GoneAreApart(s, gone);
    TakenOff(s, s', gone, Allow, id, h, granted, swept, swept, said, done, done);
    IdleTold(s', id, h, granted, swept, said, done);
  }

  /** A grant that is through no longer holds anything up. */
  lemma IdleTold(s: State, id: int, h: Holding, granted: bool, swept: bool, said: seq<(int, Answer)>, done: nat)
    requires IsTold(s, id, h, granted, swept, said, done)
    requires s.routing == Granting(id) ==> forall p <- s.queue :: p.id != id
    ensures IsTold(s.(routing := Idle), id, h, granted, swept, said, done)
  {
  }

  lemma GoneAreApart(s: State, gone: seq<Pending>)
    requires IdsAscend(s) && forall p <- gone :: p in s.queue
    ensures forall p <- gone, q <- s.queue :: p.id == q.id ==> p == q
  {
    forall p <- gone, q <- s.queue | p.id == q.id
      ensures p == q
    {
      var i :| 0 <= i < |s.queue| && s.queue[i] == p;
      var j :| 0 <= j < |s.queue| && s.queue[j] == q;
    }
  }

  /** The next word is carried out: on the request it is said of, or on all of them. */
  lemma AppliedTold(s: State, id: int, h: Holding, granted: bool, swept: bool, said: seq<(int, Answer)>, done: nat)
    requires IsTold(s, id, h, granted, swept, said, done) && id > 0 && IdsAscend(s) && s.routing.Idle?
    requires s.draining != [] && done < |said| && said[done] == s.draining[0]
    requires s.draining[0].0 == 0 ==> s.draining[0].1.Deny?
    ensures IsTold(Applied(s), id, h, granted, swept, said, done + 1)
  {
    var (word, rest) := (s.draining[0], s.(draining := s.draining[1..]));
    forall p <- s.queue | p.id == id && (word.0 == 0 || word.0 == id)
      ensures Fits(word.1, granted, swept, FirstWord(said, h.since, id))
    {
      NoWordYet(said, h.since, done, id);
    }
    if word.0 == 0 {
      EveryoneIsDenied(rest);
      GoneAreApart(rest, rest.queue);
      TakenOff(rest, DenyEvery(rest), rest.queue, Deny, id, h, granted, swept, swept, said, done, done + 1);
    } else {
      OneAppliedTold(rest, word, id, h, granted, swept, said, done);
    }
  }

  lemma OneAppliedTold(s: State, word: (int, Answer), id: int, h: Holding, granted: bool, swept: bool,
                       said: seq<(int, Answer)>, done: nat)
    requires IsTold(s, id, h, granted, swept, said, done) && id > 0 && IdsAscend(s) && word.0 != 0
    requires done < |said| && said[done] == word
    requires forall p <- s.queue | p.id == id && word.0 == id ::
               Fits(word.1, granted, swept, FirstWord(said, h.since, id))
    ensures IsTold(AnswerOne(s, word.0, word.1), id, h, granted, swept, said, done + 1)
  {
    var gone := OneIsAnswered(s, word.0, word.1);
    GoneAreApart(s, gone);
    TakenOff(s, AnswerOne(s, word.0, word.1), gone, word.1, id, h, granted, swept, swept, said, done, done + 1);
  }

  lemma SweptTold(s: State, s': State, gone: seq<Pending>, id: int, h: Holding, granted: bool, swept: bool,
                  said: seq<(int, Answer)>, done: nat)
    requires IsTold(s, id, h, granted, swept, said, done) && id > 0 && IdsAscend(s) && s.routing.Idle?
    requires Settles(s, s', gone, Deny)
    ensures IsTold(s', id, h, granted, swept || IsQueued(gone, id), said, done)
  {
    GoneAreApart(s, gone);
    assert forall p <- gone :: p.id == id ==> IsQueued(gone, id);
    TakenOff(s, s', gone, Deny, id, h, granted, swept, swept || IsQueued(gone, id), said, done, done);
  }

  lemma PageCloseTold(s: State, page: int, id: int, h: Holding, granted: bool, swept: bool,
                      said: seq<(int, Answer)>, done: nat)
    requires IsTold(s, id, h, granted, swept, said, done) && id > 0 && IdsAscend(s) && s.routing.Idle?
    ensures IsTold(DenyPage(s, page), id, h, granted, swept || exists p <- s.queue :: p.id == id && p.page == page,
                   said, done)
  {
    var gone := Filter(s.queue, OnPage(page));
    PageIsDenied(s, page);
    PageParts(s.queue, page);
    assert IsQueued(gone, id) <==> exists p <- s.queue :: p.id == id && p.page == page;
    SweptTold(s, DenyPage(s, page), gone, id, h, granted, swept, said, done);
  }

  // --- Every run ------------------------------------------------------------------------------

  /** Whether the request under an id had been allowed for good when it was queued. */
  predicate WasGranted(steps: seq<Step>, id: int) {
    HoldingOf(steps, id).Held? && AskingOf(steps, HoldingOf(steps, id).request).Asking? &&
    AskingOf(steps, HoldingOf(steps, id).request).decision.AlwaysAllow?
  }

  lemma SweepTold(s: State, step: Step, id: int, h: Holding, granted: bool, swept: bool, said: seq<(int, Answer)>,
                  done: nat)
    requires IsTold(s, id, h, granted, swept, said, done) && id > 0 && IdsAscend(s)
    requires step.PageCloses? || step.RunShutdown?
    ensures IsTold(Next(s, step), id, h, granted, swept || IsSweptNow(s, step, id), said, done)
  {
    match step
    case PageCloses(page) =>
      if s.routing.Idle? {
        PageCloseTold(s, page, id, h, granted, swept, said, done);
      }
    case RunShutdown =>
      if s.routing.Idle? && s.taskPosted {
        EveryoneIsDenied(s);
        SweptTold(s, DenyEvery(s), s.queue, id, h, granted, swept, said, done);
      }
  }

  lemma StepTold(s: State, step: Step, id: int, h: Holding, granted: bool, swept: bool, said: seq<(int, Answer)>,
                 done: nat)
    requires IsTold(s, id, h, granted, swept, said, done) && id > 0 && IdsAscend(s) && AreToCome(s, said, done)
    requires forall w <- said :: w.0 == 0 ==> w.1.Deny?
    ensures IsTold(Next(s, step), id, if IsQueuedNow(s, step, id) then Held(s.routing.request, done) else h,
                   if IsQueuedNow(s, step, id) then s.routing.allowed else granted,
                   swept || IsSweptNow(s, step, id),
                   if IsSaid(s, step) then said + [(step.id, step.answer)] else said,
                   done + if IsCarriedOut(s, step) then 1 else 0)
  {
    match step
    case PageAsks(r, page, named, decision) =>
      AskedTold(s, r, page, named, decision, id, h, granted, swept, said, done);
    case Route =>
      if s.routing.Cleared? {
        QueuedTold(s, id, h, granted, swept, said, done);
      } else {
        RoutedTold(s, id, h, granted, swept, said, done);
      }
    case Swap => QuietTold(s, Next(s, step), id, h, granted, swept, said, done);
    case Apply =>
      if IsCarriedOut(s, step) {
        assert said[done..][0] == said[done] && said[done] in said;
        AppliedTold(s, id, h, granted, swept, said, done);
      }
    case PageCloses(_) => SweepTold(s, step, id, h, granted, swept, said, done);
    case RunShutdown => SweepTold(s, step, id, h, granted, swept, said, done);
    case HostAnswers(word, answer) =>
      HostTold(s, step, id, h, granted, swept, said, done);
      MoreSaid(Next(s, step), id, h, granted, swept, said, done, (word, answer));
    case HostGoesOn => HostTold(s, step, id, h, granted, swept, said, done);
    case HostShutsDown => HostTold(s, step, id, h, granted, swept, said, done);
  }

  lemma {:induction false} HeldWereAsked(steps: seq<Step>, id: int)
    ensures HoldingOf(steps, id).Held? ==> AskingOf(steps, HoldingOf(steps, id).request).Asking?
  {
    if steps != [] {
      var (front, step) := (steps[..|steps| - 1], steps[|steps| - 1]);
      HeldWereAsked(front, id);
      if IsQueuedNow(Run(front), step, id) {
        EveryRequestIsAsAsked(front, Run(front).routing.request);
      }
    }
  }

  lemma {:induction false} OnlyDeniedAtOnce(steps: seq<Step>)
    ensures forall w <- Said(steps) :: w.0 == 0 ==> w.1.Deny?
  {
    if steps != [] {
      OnlyDeniedAtOnce(steps[..|steps| - 1]);
    }
  }

  lemma {:induction false} EveryRequestIsTold(steps: seq<Step>, id: int)
    requires id > 0
    ensures IsTold(Run(steps), id, HoldingOf(steps, id), WasGranted(steps, id), WasSwept(steps, id),
                   Said(steps), CarriedOut(steps))
  {
    if steps != [] {
      var (front, step) := (steps[..|steps| - 1], steps[|steps| - 1]);
      EveryRequestIsTold(front, id);
      EveryRunKeepsInv(front);
      WordsToCome(front);
      OnlyDeniedAtOnce(front);
      GrantStays(front, step, id);
      StepTold(Run(front), step, id, HoldingOf(front, id), WasGranted(front, id), WasSwept(front, id),
               Said(front), CarriedOut(front));
    }
  }

  lemma GrantStays(front: seq<Step>, step: Step, id: int)
    ensures WasGranted(front + [step], id) ==
            if IsQueuedNow(Run(front), step, id) then Run(front).routing.allowed else WasGranted(front, id)
  {
    var steps := front + [step];
    assert steps[..|steps| - 1] == front && steps[|steps| - 1] == step;
    HeldWereAsked(front, id);
    if IsQueuedNow(Run(front), step, id) {
      EveryRequestIsAsAsked(front, Run(front).routing.request);
    }
  }

  /** Whatever WebKit hears of a request was asked by its page. One it hears of unqueued
      had no name, was always denied or came after the shutdown began, and is refused. Of
      the others, one allowed for good is allowed; one whose page closed or that the
      shutdown found is refused; and any other hears the first word the person said of it,
      or of everything, that had not been carried out when it was queued. */
  ghost predicate IsAsSaid(steps: seq<Step>, a: Answered) {
    var asking := AskingOf(steps, a.request);
    && asking.Asking?
    && if a.id == 0 then
         a.answer == Deny && (!asking.named || asking.decision.AlwaysDeny? || Run(steps).shutdown)
       else
         && asking.named && !asking.decision.AlwaysDeny?
         && HoldingOf(steps, a.id).Held? && HoldingOf(steps, a.id).request == a.request
         && if asking.decision.AlwaysAllow? then a.answer == Allow
            else if WasSwept(steps, a.id) then a.answer == Deny
            else FirstWord(Said(steps), HoldingOf(steps, a.id).since, a.id) == Word(a.answer)
  }

  lemma AnswerIsAsSaid(steps: seq<Step>, a: Answered)
    requires a in Run(steps).answers
    ensures IsAsSaid(steps, a)
  {
    EveryRequestIsAsAsked(steps, a.request);
    if a.id != 0 {
      EveryRequestIsTold(steps, a.id);
      assert Fits(a.answer, WasGranted(steps, a.id), WasSwept(steps, a.id),
                  FirstWord(Said(steps), HoldingOf(steps, a.id).since, a.id));
    }
  }

  /** And every request a page asked is on its way in, queued, or was answered: one of them,
      once. */
  lemma AskedIsSomewhere(steps: seq<Step>, request: nat)
    ensures var s := Run(steps);
            InRoute(s.routing, request) + Queued(s.queue, request) + TimesAnswered(s.answers, request) ==
            if AskingOf(steps, request).Asking? then 1 else 0
  {
    EveryRunKeepsInv(steps);
    EveryRequestIsAsAsked(steps, request);
    assert OnePlace(Run(steps), request);
  }

  // --- What the person is asked ---------------------------------------------------------------

  predicate IsSpokenForNow(s: State, step: Step, id: int) {
    && IsQueued(s.queue, id)
    && ((IsSaid(s, step) && (step.id == 0 || step.id == id)) || (step.HostGoesOn? && s.host.Flagged?))
  }

  /** Whether the person, or the shutdown, found a request queued and spoke of it. */
  predicate WasSpokenFor(steps: seq<Step>, id: int) {
    steps != [] &&
    var (front, step) := (steps[..|steps| - 1], steps[|steps| - 1]);
    WasSpokenFor(front, id) || IsSpokenForNow(Run(front), step, id)
  }

  ghost predicate IsMarked(s: State, id: int, spoken: bool) {
    (forall p <- s.queue :: p.id == id ==> p.resolved == spoken) && (spoken ==> id < s.nextId)
  }

  lemma MarkMarks(s: State, word: int, id: int, spoken: bool)
    requires IsMarked(s, id, spoken) && IdsAscend(s)
    ensures IsMarked(HostMarks(s, word), id, spoken || (IsQueued(s.queue, id) && (word == 0 || word == id)))
  {
    MarkChanges(s.queue, word);
    forall p <- Mark(s.queue, word) | p.id == id
      ensures p.resolved == (spoken || (IsQueued(s.queue, id) && (word == 0 || word == id)))
    {
      var i :| 0 <= i < |s.queue| && Mark(s.queue, word)[i] == p;
      assert s.queue[i] in s.queue;
    }
  }

  lemma SettledMarked(s: State, s': State, gone: seq<Pending>, answer: Answer, id: int, spoken: bool)
    requires IsMarked(s, id, spoken) && Settles(s, s', gone, answer)
    ensures IsMarked(s', id, spoken)
  {
  }

  lemma WorkMarked(s: State, step: Step, id: int, spoken: bool)
    requires IsMarked(s, id, spoken) && IdsAscend(s)
    requires step.Apply? || step.PageCloses? || step.RunShutdown?
    ensures IsMarked(Next(s, step), id, spoken)
  {
    match step
    case Apply =>
      if s.draining != [] {
        var rest := s.(draining := s.draining[1..]);
        EveryoneIsDenied(rest);
        var gone := OneIsAnswered(rest, s.draining[0].0, s.draining[0].1);
      }
    case PageCloses(page) => PageIsDenied(s, page);
    case RunShutdown => EveryoneIsDenied(s);
  }

  lemma RouteMarked(s: State, id: int, spoken: bool)
    requires IsMarked(s, id, spoken) && IdsAscend(s)
    ensures IsMarked(Routed(s), id, spoken)
  {
    if s.routing.Granting? {
      var idle := s.(routing := Idle);
      var gone := OneIsAnswered(idle, s.routing.id, Allow);
      SettledMarked(idle, Routed(s), gone, Allow, id, spoken);
    }
  }

  lemma HostMarked(s: State, step: Step, id: int, spoken: bool)
    requires IsMarked(s, id, spoken) && IdsAscend(s) && (step.HostAnswers? || step.HostGoesOn? || step.HostShutsDown?)
    ensures IsMarked(Next(s, step), id, spoken || IsSpokenForNow(s, step, id))
  {
    match step
    case HostAnswers(word, _) => MarkMarks(s, word, id, spoken);
    case HostGoesOn => MarkMarks(s, 0, id, spoken);
    case HostShutsDown =>
  }

  lemma StepMarked(s: State, step: Step, id: int, spoken: bool)
    requires IsMarked(s, id, spoken) && IdsAscend(s)
    ensures IsMarked(Next(s, step), id, spoken || IsSpokenForNow(s, step, id))
  {
    match step
    case PageAsks(_, _, _, _) =>
    case Route => RouteMarked(s, id, spoken);
    case Swap =>
    case Apply => WorkMarked(s, step, id, spoken);
    case PageCloses(_) => WorkMarked(s, step, id, spoken);
    case RunShutdown => WorkMarked(s, step, id, spoken);
    case _ => HostMarked(s, step, id, spoken);
  }

  lemma {:induction false} EveryRunMarks(steps: seq<Step>, id: int)
    ensures IsMarked(Run(steps), id, WasSpokenFor(steps, id))
  {
    if steps != [] {
      var (front, step) := (steps[..|steps| - 1], steps[|steps| - 1]);
      EveryRunMarks(front, id);
      EveryRunKeepsInv(front);
      StepMarked(Run(front), step, id, WasSpokenFor(front, id));
    }
  }

  /** The oldest request nobody has answered. */
  predicate IsOldest(queue: seq<Pending>, at: int) {
    0 <= at < |queue| && !queue[at].resolved && forall i :: 0 <= i < at ==> queue[i].resolved
  }

  lemma {:induction false} FrontIsOldest(queue: seq<Pending>)
    ensures (exists at :: IsOldest(queue, at) && queue[at].id == Front(queue))
            || (Front(queue) == 0 && forall p <- queue :: p.resolved)
  {
    if queue != [] {
      if queue[0].resolved {
        FrontIsOldest(queue[1..]);
        if exists at :: IsOldest(queue[1..], at) && queue[1..][at].id == Front(queue[1..]) {
          var at :| IsOldest(queue[1..], at) && queue[1..][at].id == Front(queue[1..]);
          assert IsOldest(queue, at + 1);
        } else {
          assert queue == [queue[0]] + queue[1..];
        }
      } else {
        assert IsOldest(queue, 0);
      }
    }
  }

  /** The person is shown the request queued longest of those nobody spoke of yet, and
      nothing only when there is none. */
  lemma OldestIsOffered(steps: seq<Step>)
    ensures var (queue, id) := (Run(steps).queue, Front(Run(steps).queue));
            if id == 0 then forall p <- queue :: WasSpokenFor(steps, p.id)
            else exists at :: 0 <= at < |queue| && queue[at].id == id && !WasSpokenFor(steps, id)
                              && forall i :: 0 <= i < at ==> WasSpokenFor(steps, queue[i].id)
  {
    var queue := Run(steps).queue;
    EveryRunKeepsInv(steps);
    FrontIsOldest(queue);
    forall p <- queue
      ensures p.resolved == WasSpokenFor(steps, p.id) && p.id > 0
    {
      EveryRunMarks(steps, p.id);
    }
  }
}
