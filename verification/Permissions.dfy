/** Permission requests between the page that asks, the person who answers on the
    host's thread, and the WebKit thread that carries the answers out. Every
    action under one lock is a step of its own; a run is any interleaving. */
module Permissions {

  datatype Answer = Allow | Deny

  /** A request WebKit is waiting on, held by one reference. */
  datatype Pending = Pending(id: int, request: nat, page: int, resolved: bool)

  /** The remembered decision for a kind and an origin. */
  datatype Decision = AlwaysAllow | AlwaysDeny | Ask

  /** Where the WebKit thread is in routing one request. */
  datatype Routing =
    | Idle
    | Decided(request: nat, page: int, allowed: bool)   // not refused; about to look at the shutdown flag
    | Cleared(request: nat, page: int, allowed: bool)   // saw it clear; about to queue
    | Granting(id: int)                                 // queued; about to carry out a remembered allow

  /** Where the host's thread is: in a resolution, or in the shutdown. */
  datatype Host = Free | Marked(id: int, answer: Answer) | Flagged | Silenced

  datatype Answered = Answered(id: int, request: nat, answer: Answer)

  datatype State = State(
    queue: seq<Pending>, nextId: int, resolutions: seq<(int, Answer)>, shutdown: bool,
    routing: Routing, draining: seq<(int, Answer)>, host: Host, taskPosted: bool, taskRan: bool,
    // What happened, seen from outside: requests that arrived, references taken
    // and given back, answers WebKit got, ids the person answered or allowed.
    arrived: set<nat>, retained: seq<nat>, released: seq<nat>, answers: seq<Answered>,
    spoken: set<int>, allowedByHost: set<int>, allowedByPolicy: set<int>)

  const START := State([], 1, [], false, Idle, [], Free, false, false, {}, [], [], [], {}, {}, {})

  // --- The queue ------------------------------------------------------------------------

  /** Marks a request, or with id 0 all of them, as spoken for. */
  function Mark(queue: seq<Pending>, id: int): (marked: seq<Pending>)
    ensures |marked| == |queue|
  {
    if queue == [] then []
    else
      [if id == 0 || queue[0].id == id then queue[0].(resolved := true) else queue[0]] + Mark(queue[1..], id)
  }

  lemma {:induction false} MarkChanges(queue: seq<Pending>, id: int)
    ensures forall i :: 0 <= i < |queue| ==>
              Mark(queue, id)[i] == queue[i].(resolved := queue[i].resolved || id == 0 || queue[i].id == id)
  {
    if queue != [] {
      MarkChanges(queue[1..], id);
    }
  }

  /** The oldest request nobody has answered, or 0. */
  function Front(queue: seq<Pending>): (id: int)
    ensures id != 0 ==> exists p <- queue :: p.id == id && !p.resolved
  {
    if queue == [] then 0 else if !queue[0].resolved then queue[0].id else Front(queue[1..])
  }

  function IndexOf(queue: seq<Pending>, id: int): int {
    if queue == [] then -1
    else if queue[0].id == id then 0
    else var rest := IndexOf(queue[1..], id); if rest < 0 then -1 else rest + 1
  }

  lemma {:induction false} IndexOfFinds(queue: seq<Pending>, id: int)
    ensures var at := IndexOf(queue, id);
            if at < 0 then at == -1 && forall p <- queue :: p.id != id
            else at < |queue| && queue[at].id == id
  {
    if queue != [] {
      IndexOfFinds(queue[1..], id);
      assert queue == [queue[0]] + queue[1..];
    }
  }

  function OfPage(queue: seq<Pending>, page: int): seq<Pending> {
    if queue == [] then []
    else (if queue[0].page == page then [queue[0]] else []) + OfPage(queue[1..], page)
  }

  function NotOfPage(queue: seq<Pending>, page: int): seq<Pending> {
    if queue == [] then []
    else (if queue[0].page == page then [] else [queue[0]]) + NotOfPage(queue[1..], page)
  }

  // --- Answering ------------------------------------------------------------------------

  /** Tells WebKit and gives the reference back. */
  function Settle(s: State, pending: Pending, answer: Answer): State {
    s.(answers := s.answers + [Answered(pending.id, pending.request, answer)],
        released := s.released + [pending.request])
  }

  function SettleAll(s: State, dropped: seq<Pending>): (s': State)
    ensures s'.(answers := s.answers, released := s.released) == s
    decreases |dropped|
  {
    if dropped == [] then s else SettleAll(Settle(s, dropped[0], Deny), dropped[1..])
  }

  function AnswerOne(s: State, id: int, answer: Answer): State {
    IndexOfFinds(s.queue, id);
    var at := IndexOf(s.queue, id);
    if at < 0 then s
    else Settle(s.(queue := s.queue[..at] + s.queue[at + 1..]), s.queue[at], answer)
  }

  function DenyEvery(s: State): State {
    SettleAll(s.(queue := []), s.queue)
  }

  function DenyPage(s: State, page: int): State {
    SettleAll(s.(queue := NotOfPage(s.queue, page)), OfPage(s.queue, page))
  }

  /** A request that is turned away before it was ever held. */
  function Refuse(s: State, request: nat): State {
    s.(answers := s.answers + [Answered(0, request, Deny)])
  }

  // --- Steps ----------------------------------------------------------------------------

  datatype Step =
    | PageAsks(request: nat, page: int, named: bool, decision: Decision)
    | Route
    | HostAnswers(id: int, answer: Answer)
    | HostGoesOn
    | HostShutsDown
    | Swap
    | Apply
    | PageCloses(page: int)
    | RunShutdown

  function Asked(s: State, request: nat, page: int, named: bool, decision: Decision): State {
    if !s.routing.Idle? || request in s.arrived then s
    else
      var s' := s.(arrived := s.arrived + {request});
      if !named || decision == AlwaysDeny then Refuse(s', request)
      else s'.(routing := Decided(request, page, decision == AlwaysAllow))
  }

  function Routed(s: State): State {
    match s.routing
    case Idle => s
    case Decided(request, page, allowed) =>
      if s.shutdown then Refuse(s.(routing := Idle), request) else s.(routing := Cleared(request, page, allowed))
    case Cleared(request, page, allowed) =>
      var id := s.nextId;
      s.(nextId := id + 1, retained := s.retained + [request], queue := s.queue + [Pending(id, request, page, false)],
         routing := if allowed then Granting(id) else Idle,
         allowedByPolicy := if allowed then s.allowedByPolicy + {id} else s.allowedByPolicy)
    case Granting(id) => AnswerOne(s.(routing := Idle), id, Allow)
  }

  /** The ids a mark speaks for: those queued when the person answered. */
  function SpokenFor(queue: seq<Pending>, id: int): set<int> {
    set p <- queue | id == 0 || p.id == id :: p.id
  }

  function HostMarks(s: State, id: int): State {
    s.(queue := Mark(s.queue, id), spoken := s.spoken + SpokenFor(s.queue, id))
  }

  /** The host's first action. Denying all is the answer to id 0, which nobody can allow. */
  function HostAnswered(s: State, id: int, answer: Answer): State {
    if !s.host.Free? || (id == 0 && answer.Allow?) then s
    else
      HostMarks(s.(host := Marked(id, answer),
                   allowedByHost := if answer.Allow? then s.allowedByHost + {id} else s.allowedByHost), id)
  }

  /** The host's second action: the answer crosses over, or the shutdown goes on. */
  function HostWent(s: State): State {
    match s.host
    case Free => s
    case Marked(id, answer) => s.(host := Free, resolutions := s.resolutions + [(id, answer)])
    case Flagged => HostMarks(s.(host := Silenced), 0)
    case Silenced => s.(host := Free, taskPosted := true)
  }

  function Applied(s: State): State {
    if s.draining == [] then s
    else
      var (id, answer) := s.draining[0];
      var s' := s.(draining := s.draining[1..]);
      if id == 0 then DenyEvery(s') else AnswerOne(s', id, answer)
  }

  function Next(s: State, step: Step): State {
    match step
    case PageAsks(request, page, named, decision) => Asked(s, request, page, named, decision)
    case Route => Routed(s)
    case HostAnswers(id, answer) => HostAnswered(s, id, answer)
    case HostGoesOn => HostWent(s)
    case HostShutsDown => if s.host.Free? then s.(shutdown := true, host := Flagged) else s
    case Swap =>
      if s.routing.Idle? && s.draining == [] then s.(draining := s.resolutions, resolutions := []) else s
    case Apply => if s.routing.Idle? then Applied(s) else s
    case PageCloses(page) => if s.routing.Idle? then DenyPage(s, page) else s
    case RunShutdown => if s.routing.Idle? && s.taskPosted then DenyEvery(s).(taskRan := true) else s
  }

  function Run(steps: seq<Step>): State {
    if steps == [] then START else Next(Run(steps[..|steps| - 1]), steps[|steps| - 1])
  }

  // --- Counting ---------------------------------------------------------------------------

  function Times(requests: seq<nat>, request: nat): nat {
    if requests == [] then 0
    else Times(requests[..|requests| - 1], request) + (if requests[|requests| - 1] == request then 1 else 0)
  }

  function Queued(queue: seq<Pending>, request: nat): nat {
    if queue == [] then 0 else (if queue[0].request == request then 1 else 0) + Queued(queue[1..], request)
  }

  function TimesAnswered(answers: seq<Answered>, request: nat): nat {
    if answers == [] then 0
    else TimesAnswered(answers[..|answers| - 1], request) + (if answers[|answers| - 1].request == request then 1 else 0)
  }

  function InRoute(routing: Routing, request: nat): nat {
    if (routing.Decided? || routing.Cleared?) && routing.request == request then 1 else 0
  }

  // --- Invariants ---------------------------------------------------------------------------

  /** A request that arrived is on its way in, queued, or answered: one of them, once. */
  predicate OnePlace(s: State, request: nat) {
    InRoute(s.routing, request) + Queued(s.queue, request) + TimesAnswered(s.answers, request)
      == if request in s.arrived then 1 else 0
  }

  /** The references held are those of the queued requests. */
  predicate HeldWhileQueued(s: State, request: nat) {
    Times(s.retained, request) == Times(s.released, request) + Queued(s.queue, request)
  }

  ghost predicate Counted(s: State) {
    forall request {:trigger OnePlace(s, request)} {:trigger HeldWhileQueued(s, request)} ::
      OnePlace(s, request) && HeldWhileQueued(s, request)
  }

  ghost predicate IdsAscend(s: State) {
    && (forall i :: 0 <= i < |s.queue| ==> 0 < s.queue[i].id < s.nextId)
    && (forall i, j :: 0 <= i < j < |s.queue| ==> s.queue[i].id < s.queue[j].id)
    && 0 < s.nextId
  }

  /** What the person has answered is no longer asked. */
  ghost predicate SpokenIsResolved(s: State) {
    && (forall p <- s.queue :: p.id in s.spoken ==> p.resolved)
    && (forall id <- s.spoken :: id < s.nextId)
  }

  ghost predicate AllowsAreMeant(s: State) {
    && (forall r <- s.resolutions :: r.1.Allow? ==> r.0 in s.allowedByHost)
    && (forall r <- s.draining :: r.1.Allow? ==> r.0 in s.allowedByHost)
    && (s.host.Marked? && s.host.answer.Allow? ==> s.host.id in s.allowedByHost)
    && (s.routing.Granting? ==> s.routing.id in s.allowedByPolicy)
    && (forall a <- s.answers :: a.answer.Allow? ==> a.id in s.allowedByHost + s.allowedByPolicy)
  }

  ghost predicate ShutIsEmpty(s: State) {
    && (s.taskPosted || s.host.Flagged? || s.host.Silenced? ==> s.shutdown)
    && (s.taskRan ==> s.taskPosted && s.queue == [] && !s.routing.Cleared?)
  }

  ghost predicate Inv(s: State) {
    Counted(s) && IdsAscend(s) && SpokenIsResolved(s) && AllowsAreMeant(s) && ShutIsEmpty(s)
  }
}
