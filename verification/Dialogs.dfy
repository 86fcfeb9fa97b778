/** The questions pages ask, parked until somebody answers. The person answers on the
    frame thread; WebKit's thread hands the answers over. Some questions are asked
    from inside a callback that waits for its answer, one callback inside another. */
module Dialogs {

  datatype Kind = Alert | Confirm | Prompt | BeforeUnload | Authenticate | Certificate | FilePicker

  datatype Reply = Reply(accepted: bool, text: string, secret: string, remember: bool, paths: seq<string>)

  const NOTHING := Reply(false, "", "", false, [])

  datatype Request = Request(id: int, kind: Kind, page: int, blocking: bool, answered: bool, reply: Reply)

  /** What is being refused: everything, or what one closing page asked. */
  datatype Scope = Everything | Asked(page: int)

  datatype Outcome = Outcome(id: int, reply: Reply)

  datatype State = State(
    queue: seq<Request>, nextId: int,
    waiters: seq<int>,            // the callbacks waiting, the innermost last
    outgoing: seq<Request>,       // taken off the queue, about to be told
    // Seen from outside: what listeners were told, what callbacks returned, the
    // first answer each request was given, the requests refused while queued, and
    // those asked by a callback that waits.
    delivered: seq<Outcome>, returned: seq<Outcome>, first: map<int, Reply>, refused: set<int>, parked: set<int>)

  const START := State([], 1, [], [], [], [], map[], {}, {})

  // --- The queue ------------------------------------------------------------------------

  predicate Hits(scope: Scope, request: Request) {
    scope.Everything? || request.page == scope.page
  }

  function Find(queue: seq<Request>, id: int): (at: int)
    ensures -1 <= at < |queue|
    ensures at >= 0 ==> queue[at].id == id
    ensures at < 0 ==> forall r <- queue :: r.id != id
  {
    if queue == [] then -1
    else if queue[0].id == id then 0
    else var rest := Find(queue[1..], id); if rest < 0 then -1 else rest + 1
  }

  function Ready(queue: seq<Request>): seq<Request> {
    if queue == [] then []
    else (if queue[0].answered && !queue[0].blocking then [queue[0]] else []) + Ready(queue[1..])
  }

  function NotReady(queue: seq<Request>): seq<Request> {
    if queue == [] then []
    else (if queue[0].answered && !queue[0].blocking then [] else [queue[0]]) + NotReady(queue[1..])
  }

  /** Refusing marks a question whose callback is waiting and leaves it there. */
  function Refusal(request: Request): Request {
    request.(answered := true, reply := request.reply.(accepted := false))
  }

  function Orphaned(queue: seq<Request>, scope: Scope): seq<Request> {
    if queue == [] then []
    else
      (if !Hits(scope, queue[0]) || queue[0].blocking then []
       else [queue[0].(reply := queue[0].reply.(accepted := false))])
      + Orphaned(queue[1..], scope)
  }

  function Left(queue: seq<Request>, scope: Scope): seq<Request> {
    if queue == [] then []
    else
      (if !Hits(scope, queue[0]) then [queue[0]] else if queue[0].blocking then [Refusal(queue[0])] else [])
      + Left(queue[1..], scope)
  }

  /** The newest question nobody has answered, or 0; the file picker shows itself. */
  function Presented(queue: seq<Request>): int {
    if queue == [] then 0
    else
      var last := queue[|queue| - 1];
      if last.kind.FilePicker? || last.answered then Presented(queue[..|queue| - 1]) else last.id
  }

  // --- Steps ----------------------------------------------------------------------------

  datatype Step =
    | Ask(kind: Kind, page: int, blocking: bool)
    | Answer(id: int, accepted: bool, text: string, secret: string, remember: bool)
    | PickFiles(id: int, paths: seq<string>)
    | Take
    | Deliver(at: nat)
    | Refuse(scope: Scope)
    | Poll

  function AskedFor(s: State, kind: Kind, page: int, blocking: bool): State {
    s.(queue := s.queue + [Request(s.nextId, kind, page, blocking, false, NOTHING)], nextId := s.nextId + 1,
       waiters := if blocking then s.waiters + [s.nextId] else s.waiters,
       parked := if blocking then s.parked + {s.nextId} else s.parked)
  }

  /** Only the first answer counts. */
  function Replied(s: State, id: int, reply: Reply): State {
    var at := Find(s.queue, id);
    if at < 0 || s.queue[at].answered then s
    else s.(queue := s.queue[at := s.queue[at].(answered := true, reply := reply)], first := s.first[id := reply])
  }

  function Delivered(s: State, at: nat): State {
    if at >= |s.outgoing| then s
    else
      s.(outgoing := s.outgoing[..at] + s.outgoing[at + 1..],
         delivered := s.delivered + [Outcome(s.outgoing[at].id, s.outgoing[at].reply)])
  }

  function RefusedIds(queue: seq<Request>, scope: Scope): set<int> {
    set r <- queue | Hits(scope, r) :: r.id
  }

  function Refused(s: State, scope: Scope): State {
    s.(queue := Left(s.queue, scope), outgoing := s.outgoing + Orphaned(s.queue, scope),
       refused := s.refused + RefusedIds(s.queue, scope))
  }

  /** The innermost callback looks for its answer; the others are below it on the
      same stack. A request that is gone would count as refused. */
  function Polled(s: State): State {
    if s.waiters == [] then s
    else
      var n := |s.waiters| - 1;
      var at := Find(s.queue, s.waiters[n]);
      if at < 0 then s.(waiters := s.waiters[..n], returned := s.returned + [Outcome(s.waiters[n], NOTHING)])
      else if !s.queue[at].answered then s
      else
        s.(waiters := s.waiters[..n], returned := s.returned + [Outcome(s.waiters[n], s.queue[at].reply)],
           queue := s.queue[..at] + s.queue[at + 1..])
  }

  function Next(s: State, step: Step): State {
    match step
    case Ask(kind, page, blocking) => AskedFor(s, kind, page, blocking)
    case Answer(id, accepted, text, secret, remember) => Replied(s, id, Reply(accepted, text, secret, remember, []))
    case PickFiles(id, paths) => Replied(s, id, NOTHING.(accepted := paths != [], paths := paths))
    case Take => s.(queue := NotReady(s.queue), outgoing := s.outgoing + Ready(s.queue))
    case Deliver(at) => Delivered(s, at)
    case Refuse(scope) => Refused(s, scope)
    case Poll => Polled(s)
  }

  function Run(steps: seq<Step>): State {
    if steps == [] then START else Next(Run(steps[..|steps| - 1]), steps[|steps| - 1])
  }

  // --- Invariants -------------------------------------------------------------------------

  function Count(requests: seq<Request>, id: int): nat {
    if requests == [] then 0 else (if requests[0].id == id then 1 else 0) + Count(requests[1..], id)
  }

  function Outcomes(outcomes: seq<Outcome>, id: int): nat {
    if outcomes == [] then 0
    else Outcomes(outcomes[..|outcomes| - 1], id) + (if outcomes[|outcomes| - 1].id == id then 1 else 0)
  }

  /** A request is queued, about to be told, told, or returned: one of them, once. */
  predicate OnePlace(s: State, id: int) {
    Count(s.queue, id) + Count(s.outgoing, id) + Outcomes(s.delivered, id) + Outcomes(s.returned, id)
      == if 0 < id < s.nextId then 1 else 0
  }

  ghost predicate Counted(s: State) {
    0 < s.nextId && forall id {:trigger OnePlace(s, id)} :: OnePlace(s, id)
  }

  ghost predicate HasBlocking(queue: seq<Request>, id: int) {
    exists r <- queue :: r.id == id && r.blocking
  }

  /** The questions with a waiting callback are those the stack waits for. */
  ghost predicate Awaited(s: State) {
    && (forall w <- s.waiters :: w < s.nextId && HasBlocking(s.queue, w))
    && (forall r <- s.queue :: r.blocking ==> r.id in s.waiters)
    && (forall i, j :: 0 <= i < j < |s.waiters| ==> s.waiters[i] < s.waiters[j])
  }

  /** Which way a request goes was settled when it was asked. */
  ghost predicate Separate(s: State) {
    && (forall id <- s.parked :: id < s.nextId)
    && (forall r <- s.queue :: r.id < s.nextId && (r.blocking <==> r.id in s.parked))
    && (forall r <- s.outgoing :: r.id < s.nextId && r.id !in s.parked)
    && (forall o <- s.delivered :: o.id < s.nextId && o.id !in s.parked)
    && (forall o <- s.returned :: o.id in s.parked)
  }

  /** What a queued request holds is the first answer it was given, unless it was refused. */
  ghost predicate Holds(s: State, r: Request) {
    if r.id in s.refused then r.answered && !r.reply.accepted
    else if r.id in s.first then r.answered && r.reply == s.first[r.id]
    else !r.answered && r.reply == NOTHING
  }

  ghost predicate Final(s: State, id: int, reply: Reply) {
    if id in s.refused then !reply.accepted else id in s.first && reply == s.first[id]
  }

  ghost predicate Faithful(s: State) {
    && (forall r <- s.queue :: Holds(s, r))
    && (forall r <- s.outgoing :: Final(s, r.id, r.reply))
    && (forall o <- s.delivered :: Final(s, o.id, o.reply))
    && (forall o <- s.returned :: Final(s, o.id, o.reply))
    && (forall id <- s.first :: id < s.nextId)
    && (forall id <- s.refused :: id < s.nextId)
  }

  ghost predicate Inv(s: State) {
    Counted(s) && Awaited(s) && Separate(s) && Faithful(s)
  }
}
