/** Clearing what the profile holds: one request at a time, each a sequence of steps
    that hand over to the next through a pump. What is asked of the engine answers
    when it likes, late or never. */
module Removal {

  // --- What a request asks of the engine --------------------------------------------------

  datatype DataType = Cookies | Cache | LocalStorage | IndexedDb | ServiceWorkers | DomCache | MediaKeys | Tracking

  datatype Range = LastHour | LastDay | LastWeek | LastFourWeeks | AllTime

  /** A clear of some types over a range, or everything one origin keeps. */
  datatype Request =
    | Clear(types: set<DataType>, range: Range)
    | OfOrigin(origin: string)

  datatype Ask =
    | SyncLocalStorage | FlushIpc
    | RemoveOriginCache | RemoveOriginTracking
    | DeleteCookies | ClearStatistics | ClearStatisticsSince(hours: nat) | ClearClickMeasurements
    | RemoveNetworkCache | RemoveMemoryCaches | RemoveLocalStorage | RemoveIndexedDatabases
    | RemoveServiceWorkers | RemoveFetchCaches

  /** The asks this build of the engine can take. */
  type Api = set<AskKind>

  datatype AskKind =
    | CanSync | CanFlush | CanRemoveOriginCache | CanRemoveOriginTracking
    | CanDeleteCookies | CanClearStatistics | CanClearStatisticsSince | CanClearClicks
    | CanRemoveNetworkCache | CanRemoveMemoryCaches | CanRemoveLocalStorage | CanRemoveIndexedDatabases
    | CanRemoveServiceWorkers | CanRemoveFetchCaches

  function RangeHours(range: Range): nat {
    match range
    case LastHour => 1
    case LastDay => 24
    case LastWeek => 24 * 7
    case LastFourWeeks => 24 * 28
    case AllTime => 0
  }

  function RangeSeconds(range: Range): real {
    match range
    case LastHour => 3600.0
    case LastDay => 24.0 * 3600.0
    case LastWeek => 7.0 * 24.0 * 3600.0
    case LastFourWeeks => 28.0 * 24.0 * 3600.0
    case AllTime => 0.0
  }

  /** The moment a request reaches back to; 0 is all time. */
  function CutoffFor(request: Request, now: real): real {
    if request.OfOrigin? || request.range.AllTime? then 0.0
    else var cutoff := now - RangeSeconds(request.range); if cutoff > 0.0 then cutoff else 0.0
  }

  function If(wanted: bool, ask: Ask): seq<Ask> {
    if wanted then [ask] else []
  }

  function FlushAsks(api: Api): seq<Ask> {
    If(CanSync in api, SyncLocalStorage) + If(CanFlush in api, FlushIpc)
  }

  function TrackingAsks(types: set<DataType>, range: Range, api: Api): seq<Ask> {
    if Tracking !in types then []
    else
      (if range.AllTime? then If(CanClearStatistics in api, ClearStatistics)
       else If(CanClearStatisticsSince in api, ClearStatisticsSince(RangeHours(range))))
      + If(CanClearClicks in api, ClearClickMeasurements)
  }

  function CacheAsks(types: set<DataType>, api: Api): seq<Ask> {
    If(Cache in types && CanRemoveNetworkCache in api, RemoveNetworkCache)
    + If(Cache in types && CanRemoveMemoryCaches in api, RemoveMemoryCaches)
  }

  function WorkerAsks(types: set<DataType>, api: Api): seq<Ask> {
    If(ServiceWorkers in types && CanRemoveServiceWorkers in api, RemoveServiceWorkers)
    + If(DomCache in types && CanRemoveFetchCaches in api, RemoveFetchCaches)
  }

  function StorageAsks(types: set<DataType>, api: Api): seq<Ask> {
    If(LocalStorage in types && CanRemoveLocalStorage in api, RemoveLocalStorage)
    + (If(IndexedDb in types && CanRemoveIndexedDatabases in api, RemoveIndexedDatabases) + WorkerAsks(types, api))
  }

  /** What the engine can only remove altogether. */
  function AllTimeAsks(types: set<DataType>, range: Range, api: Api): seq<Ask> {
    if !range.AllTime? then [] else CacheAsks(types, api) + StorageAsks(types, api)
  }

  function ClearAsks(types: set<DataType>, range: Range, api: Api): seq<Ask> {
    If(Cookies in types && CanDeleteCookies in api, DeleteCookies)
    + (TrackingAsks(types, range, api) + AllTimeAsks(types, range, api))
  }

  function EngineAsks(request: Request, api: Api): seq<Ask> {
    match request
    case OfOrigin(_) =>
      If(CanRemoveOriginCache in api, RemoveOriginCache) + If(CanRemoveOriginTracking in api, RemoveOriginTracking)
    case Clear(types, range) => ClearAsks(types, range, api)
  }

  // --- The pump -----------------------------------------------------------------------------

  datatype Phase = Idle | Measuring | Flushing | Engine | Sweeping

  /** Something asked of the engine in the step of a token. */
  datatype Flight = Flight(ask: Ask, token: nat)

  /** A request as it was worked on: when it started and how far back it reached. */
  datatype Job = Job(request: Request, started: real, cutoff: real)

  datatype State = State(
    phase: Phase, current: seq<Job>, queue: seq<Request>, outstanding: int, token: nat, deadline: real,
    flying: seq<Flight>,          // asked and not answered yet
    working: bool,                // the worker has a job
    workFinished: bool, generation: int, api: Api,
    // Seen from outside: requests in the order they were made, asks in the order they
    // went out, sweeps started and requests finished.
    enqueued: seq<Request>, asked: seq<Flight>, swept: seq<Job>, finished: seq<Job>)

  function Start(api: Api): State {
    State(Idle, [], [], 0, 0, 0.0, [], false, false, 0, api, [], [], [], [])
  }

  const STEP_SECONDS := 20.0

  datatype Step =
    | Enqueue(request: Request)
    | Pump(now: real, prompt: set<Ask>)   // prompt: answered before the call that asks returns
    | Answer(at: nat)
    | JobEnds

  /** An answer counts against its own step only. */
  function StepFinished(s: State, token: nat): State {
    if token != s.token then s else if s.outstanding > 0 then s.(outstanding := s.outstanding - 1) else s
  }

  function AskedOne(s: State, ask: Ask, prompt: bool): State {
    var flight := Flight(ask, s.token);
    var s' := s.(outstanding := s.outstanding + 1, asked := s.asked + [flight]);
    if prompt then StepFinished(s', s.token) else s'.(flying := s.flying + [flight])
  }

  function AskedAll(s: State, asks: seq<Ask>, prompt: set<Ask>): State
    decreases |asks|
  {
    if asks == [] then s else AskedAll(AskedOne(s, asks[0], asks[0] in prompt), asks[1..], prompt)
  }

  function Opened(s: State, phase: Phase, now: real): State {
    s.(phase := phase, outstanding := 0, token := s.token + 1, deadline := now + STEP_SECONDS)
  }

  function FlushStarted(s: State, now: real, prompt: set<Ask>): State {
    AskedAll(Opened(s, Flushing, now), FlushAsks(s.api), prompt)
  }

  function EngineStarted(s: State, now: real, prompt: set<Ask>): State
    requires |s.current| == 1
  {
    AskedAll(Opened(s, Engine, now), EngineAsks(s.current[0].request, s.api), prompt)
  }

  function Begun(s: State, now: real): State {
    if s.queue == [] then s
    else
      s.(phase := Measuring, current := [Job(s.queue[0], now, CutoffFor(s.queue[0], now))], queue := s.queue[1..],
         workFinished := false, working := true)
  }

  function Measured(s: State, now: real, prompt: set<Ask>): State {
    if !s.workFinished then s
    else
      var s' := FlushStarted(s.(workFinished := false), now, prompt);
      if s'.outstanding == 0 && |s'.current| == 1 then EngineStarted(s', now, prompt) else s'
  }

  predicate StillWaits(s: State, now: real) {
    s.outstanding > 0 && now < s.deadline
  }

  function Finished(s: State): State {
    if !s.workFinished then s
    else
      s.(workFinished := false, phase := Idle, current := [], generation := s.generation + 1,
         finished := s.finished + s.current)
  }

  function Pumped(s: State, now: real, prompt: set<Ask>): State {
    match s.phase
    case Idle => Begun(s, now)
    case Measuring => Measured(s, now, prompt)
    case Flushing => if StillWaits(s, now) || |s.current| != 1 then s else EngineStarted(s, now, prompt)
    case Engine =>
      if StillWaits(s, now) then s
      else s.(phase := Sweeping, workFinished := false, working := true, swept := s.swept + s.current)
    case Sweeping => Finished(s)
  }

  function Answered(s: State, at: nat): State {
    if at >= |s.flying| then s
    else StepFinished(s.(flying := s.flying[..at] + s.flying[at + 1..]), s.flying[at].token)
  }

  function Next(s: State, step: Step): State {
    match step
    case Enqueue(request) => s.(queue := s.queue + [request], enqueued := s.enqueued + [request])
    case Pump(now, prompt) => Pumped(s, now, prompt)
    case Answer(at) => Answered(s, at)
    case JobEnds => if s.working then s.(working := false, workFinished := true) else s
  }

  function Run(api: Api, steps: seq<Step>): State {
    if steps == [] then Start(api) else Next(Run(api, steps[..|steps| - 1]), steps[|steps| - 1])
  }

  // --- Invariants -----------------------------------------------------------------------------

  /** How many asks of a step are unanswered. */
  function Unanswered(flying: seq<Flight>, token: nat): nat {
    if flying == [] then 0 else (if flying[0].token == token then 1 else 0) + Unanswered(flying[1..], token)
  }

  function AskedUnder(asked: seq<Flight>, token: nat): seq<Ask> {
    if asked == [] then []
    else
      var last := asked[|asked| - 1];
      AskedUnder(asked[..|asked| - 1], token) + (if last.token == token then [last.ask] else [])
  }

  function Requests(jobs: seq<Job>): seq<Request> {
    if jobs == [] then [] else Requests(jobs[..|jobs| - 1]) + [jobs[|jobs| - 1].request]
  }

  ghost predicate Tokened(s: State) {
    && s.outstanding == Unanswered(s.flying, s.token)
    && (forall f <- s.flying :: f.token <= s.token)
    && (forall f <- s.asked :: f.token <= s.token)
  }

  ghost predicate OneJob(s: State) {
    && |s.current| == (if s.phase.Idle? then 0 else 1)
    && (s.working || s.workFinished <==> s.phase.Measuring? || s.phase.Sweeping?)
    && !(s.working && s.workFinished)
  }

  /** Requests are worked on in the order they were made, one generation each, and
      reach back from the moment each was started. */
  ghost predicate InOrder(s: State) {
    && s.enqueued == Requests(s.finished) + Requests(s.current) + s.queue
    && s.generation == |s.finished|
    && s.swept == s.finished + (if s.phase.Sweeping? then s.current else [])
    && (forall j <- s.finished + s.current :: j.cutoff == CutoffFor(j.request, j.started))
  }

  /** The asks of the step at hand are those its request calls for. */
  ghost predicate AsksFit(s: State) {
    && (s.phase.Flushing? ==> AskedUnder(s.asked, s.token) == FlushAsks(s.api))
    && ((s.phase.Engine? || s.phase.Sweeping?) && |s.current| == 1 ==>
          AskedUnder(s.asked, s.token) == EngineAsks(s.current[0].request, s.api))
  }

  ghost predicate Inv(s: State) {
    Tokened(s) && OneJob(s) && InOrder(s) && AsksFit(s)
  }
}
