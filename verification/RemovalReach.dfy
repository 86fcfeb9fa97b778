/** How far back each removal reaches, what it asks of the engine and what it waits for,
    read off the steps of a run. */
module RemovalReach {
  import opened Removal
  import opened RemovalRuns

  // --- How far back a request reaches ---------------------------------------------------------

  /** The requests made in a run, in order. */
  function Made(steps: seq<Step>): seq<Request> {
    if steps == [] then []
    else
      Made(steps[..|steps| - 1]) +
      match steps[|steps| - 1]
      case Enqueue(request) => [request]
      case _ => []
  }

  predicate Takes(s: State, step: Step) {
    step.Pump? && s.phase.Idle? && s.queue != []
  }

  /** The moments at which the pump took up a request. */
  function Beginnings(api: Api, steps: seq<Step>): seq<real> {
    if steps == [] then []
    else
      var (front, step) := (steps[..|steps| - 1], steps[|steps| - 1]);
      Beginnings(api, front) + if Takes(Run(api, front), step) then [step.now] else []
  }

  /** So many hours before a moment, or nothing when that is before all time. */
  predicate IsHoursBefore(cutoff: real, hours: nat, at: real) {
    var back := at - hours as real * 3600.0;
    cutoff == if back > 0.0 then back else 0.0
  }

  predicate ReachesBack(job: Job) {
    match job.request
    case OfOrigin(_) => job.cutoff == 0.0
    case Clear(_, LastHour) => IsHoursBefore(job.cutoff, 1, job.started)
    case Clear(_, LastDay) => IsHoursBefore(job.cutoff, 24, job.started)
    case Clear(_, LastWeek) => IsHoursBefore(job.cutoff, 168, job.started)
    case Clear(_, LastFourWeeks) => IsHoursBefore(job.cutoff, 672, job.started)
    case Clear(_, AllTime) => job.cutoff == 0.0
  }

  /** The i-th request made was taken up at the i-th beginning, and reaches back from there. */
  ghost predicate AreTakenUp(jobs: seq<Job>, made: seq<Request>, beginnings: seq<real>) {
    && |jobs| == |beginnings| <= |made|
    && forall i :: 0 <= i < |jobs| ==>
         jobs[i].request == made[i] && jobs[i].started == beginnings[i] && ReachesBack(jobs[i])
  }

  ghost predicate IsInLine(s: State, made: seq<Request>, beginnings: seq<real>) {
    AreTakenUp(s.finished + s.current, made, beginnings) && s.queue == made[|beginnings|..]
  }

  lemma OneMoreMade(s: State, request: Request, made: seq<Request>, beginnings: seq<real>)
    requires IsInLine(s, made, beginnings)
    ensures IsInLine(Next(s, Enqueue(request)), made + [request], beginnings)
  {
    assert (made + [request])[|beginnings|..] == made[|beginnings|..] + [request];
  }

  lemma OneMoreTaken(s: State, now: real, made: seq<Request>, beginnings: seq<real>)
    requires IsInLine(s, made, beginnings) && s.queue != [] && s.current == []
    ensures IsInLine(Begun(s, now), made, beginnings + [now])
  {
    var job := Job(s.queue[0], now, CutoffFor(s.queue[0], now));
    assert s.finished + s.current == s.finished && Begun(s, now).current == [job];
    assert made[|beginnings|] == s.queue[0] && ReachesBack(job);
    assert made[|beginnings| + 1..] == made[|beginnings|..][1..];
  }

  lemma SameLine(s: State, s': State, made: seq<Request>, beginnings: seq<real>)
    requires IsInLine(s, made, beginnings) && s'.queue == s.queue && s'.finished + s'.current == s.finished + s.current
    ensures IsInLine(s', made, beginnings)
  {
  }

  lemma PumpedKeepsLine(s: State, now: real, prompt: set<Ask>, made: seq<Request>, beginnings: seq<real>)
    requires Inv(s) && IsInLine(s, made, beginnings)
    ensures IsInLine(Pumped(s, now, prompt), made,
                     beginnings + if Takes(s, Pump(now, prompt)) then [now] else [])
  {
    assert beginnings + [] == beginnings;
    match s.phase
    case Idle =>
      if s.queue != [] {
        OneMoreTaken(s, now, made, beginnings);
      }
    case Measuring => MeasuredKeepsJobs(s, now, prompt);
    case Flushing => EngineStartedKeeps(s, now, prompt);
    case Engine =>
    case Sweeping =>
      assert s.finished + s.current + [] == s.finished + s.current;
  }

  lemma MeasuredKeepsJobs(s: State, now: real, prompt: set<Ask>)
    requires Inv(s) && s.phase.Measuring?
    ensures var s' := Measured(s, now, prompt);
            s'.queue == s.queue && s'.finished == s.finished && s'.current == s.current
  {
    if s.workFinished {
      FlushStartedKeeps(s.(workFinished := false), now, prompt);
      EngineStartedKeeps(FlushStarted(s.(workFinished := false), now, prompt), now, prompt);
    }
  }

  /** Requests are taken up in the order they were made, one at a time; each reaches back,
      from the moment it was taken up, so many hours as its range says, all the way for
      all time and for an origin, and never before all time. */
  lemma {:induction false} EveryRequestReachesBack(api: Api, steps: seq<Step>)
    ensures IsInLine(Run(api, steps), Made(steps), Beginnings(api, steps))
  {
    if steps != [] {
      var (front, step) := (steps[..|steps| - 1], steps[|steps| - 1]);
      EveryRequestReachesBack(api, front);
      EveryRunKeepsInv(api, front);
      StepKeepsLine(Run(api, front), step, Made(front), Beginnings(api, front));
    }
  }

  lemma StepKeepsLine(s: State, step: Step, made: seq<Request>, beginnings: seq<real>)
    requires Inv(s) && IsInLine(s, made, beginnings)
    ensures IsInLine(Next(s, step), made + (match step case Enqueue(request) => [request] case _ => []),
                     beginnings + if Takes(s, step) then [step.now] else [])
  {
    assert made + [] == made && beginnings + [] == beginnings;
    match step
    case Enqueue(request) => OneMoreMade(s, request, made, beginnings);
    case Pump(now, prompt) => PumpedKeepsLine(s, now, prompt, made, beginnings);
    case Answer(at) =>
      AnsweredKeeps(s, at);
      SameLine(s, Next(s, step), made, beginnings);
    case JobEnds =>
  }

  /** So a request that is through has reached back as far as it should, and no other has
      been passed over. */
  lemma FinishedReachBack(api: Api, steps: seq<Step>, i: nat)
    requires i < |Run(api, steps).finished|
    ensures i < |Made(steps)| && i < |Beginnings(api, steps)|
    ensures var job := Run(api, steps).finished[i];
            job.request == Made(steps)[i] && job.started == Beginnings(api, steps)[i] && ReachesBack(job)
  {
    EveryRequestReachesBack(api, steps);
    assert (Run(api, steps).finished + Run(api, steps).current)[i] == Run(api, steps).finished[i];
  }

  // --- What is asked of the engine ------------------------------------------------------------

  function Kind(ask: Ask): AskKind {
    match ask
    case SyncLocalStorage => CanSync
    case FlushIpc => CanFlush
    case RemoveOriginCache => CanRemoveOriginCache
    case RemoveOriginTracking => CanRemoveOriginTracking
    case DeleteCookies => CanDeleteCookies
    case ClearStatistics => CanClearStatistics
    case ClearStatisticsSince(_) => CanClearStatisticsSince
    case ClearClickMeasurements => CanClearClicks
    case RemoveNetworkCache => CanRemoveNetworkCache
    case RemoveMemoryCaches => CanRemoveMemoryCaches
    case RemoveLocalStorage => CanRemoveLocalStorage
    case RemoveIndexedDatabases => CanRemoveIndexedDatabases
    case RemoveServiceWorkers => CanRemoveServiceWorkers
    case RemoveFetchCaches => CanRemoveFetchCaches
  }

  predicate Clears(request: Request, type_: DataType) {
    request.Clear? && type_ in request.types
  }

  predicate ClearsAll(request: Request, type_: DataType) {
    Clears(request, type_) && request.range.AllTime?
  }

  predicate IsLastHours(range: Range, hours: nat) {
    match range
    case LastHour => hours == 1
    case LastDay => hours == 24
    case LastWeek => hours == 168
    case LastFourWeeks => hours == 672
    case AllTime => false
  }

  /** What each ask is for. */
  predicate IsFor(request: Request, ask: Ask) {
    match ask
    case SyncLocalStorage => false
    case FlushIpc => false
    case RemoveOriginCache => request.OfOrigin?
    case RemoveOriginTracking => request.OfOrigin?
    case DeleteCookies => Clears(request, Cookies)
    case ClearStatistics => ClearsAll(request, Tracking)
    case ClearStatisticsSince(hours) => Clears(request, Tracking) && IsLastHours(request.range, hours)
    case ClearClickMeasurements => Clears(request, Tracking)
    case RemoveNetworkCache => ClearsAll(request, Cache)
    case RemoveMemoryCaches => ClearsAll(request, Cache)
    case RemoveLocalStorage => ClearsAll(request, LocalStorage)
    case RemoveIndexedDatabases => ClearsAll(request, IndexedDb)
    case RemoveServiceWorkers => ClearsAll(request, ServiceWorkers)
    case RemoveFetchCaches => ClearsAll(request, DomCache)
  }

  /** The engine is asked for what the request is for and it can do, and for nothing else. */
  lemma AsksAreExactly(request: Request, api: Api, ask: Ask)
    ensures ask in EngineAsks(request, api) <==> IsFor(request, ask) && Kind(ask) in api
  {
    if request.Clear? {
      TrackingAsksAre(request, api, ask);
      AllTimeAsksAre(request, api, ask);
    }
  }

  lemma TrackingAsksAre(request: Request, api: Api, ask: Ask)
    requires request.Clear?
    ensures ask in TrackingAsks(request.types, request.range, api) <==>
            IsFor(request, ask) && Kind(ask) in api &&
            (ask.ClearStatistics? || ask.ClearStatisticsSince? || ask.ClearClickMeasurements?)
  {
  }

  lemma AllTimeAsksAre(request: Request, api: Api, ask: Ask)
    requires request.Clear?
    ensures ask in AllTimeAsks(request.types, request.range, api) <==>
            IsFor(request, ask) && Kind(ask) in api &&
            !(ask.DeleteCookies? || ask.ClearStatistics? || ask.ClearStatisticsSince? || ask.ClearClickMeasurements?)
  {
    if request.range.AllTime? {
      CacheAsksAre(request, api, ask);
      StorageAsksAre(request, api, ask);
    }
  }

  lemma CacheAsksAre(request: Request, api: Api, ask: Ask)
    requires request.Clear? && request.range.AllTime?
    ensures ask in CacheAsks(request.types, api) <==>
            IsFor(request, ask) && Kind(ask) in api && (ask.RemoveNetworkCache? || ask.RemoveMemoryCaches?)
  {
  }

  lemma StorageAsksAre(request: Request, api: Api, ask: Ask)
    requires request.Clear? && request.range.AllTime?
    ensures ask in StorageAsks(request.types, api) <==>
            IsFor(request, ask) && Kind(ask) in api &&
            (ask.RemoveLocalStorage? || ask.RemoveIndexedDatabases? || ask.RemoveServiceWorkers?
             || ask.RemoveFetchCaches?)
  {
  }

  lemma FlushAsksAreExactly(api: Api, ask: Ask)
    ensures ask in FlushAsks(api) <==> (ask.SyncLocalStorage? || ask.FlushIpc?) && Kind(ask) in api
  {
  }

  // --- Every ask is in flight or was answered -------------------------------------------------

  /** Which of some asks are answered before the calls that ask return. */
  function AtOnce(asked: seq<Flight>, prompt: set<Ask>): multiset<Flight> {
    if asked == [] then multiset{}
    else (if asked[0].ask in prompt then multiset{asked[0]} else multiset{}) + AtOnce(asked[1..], prompt)
  }

  lemma {:induction false} AtOnceConcat(front: seq<Flight>, back: seq<Flight>, prompt: set<Ask>)
    ensures AtOnce(front + back, prompt) == AtOnce(front, prompt) + AtOnce(back, prompt)
  {
    if front == [] {
      assert front + back == back;
    } else {
      var first := if front[0].ask in prompt then multiset{front[0]} else multiset{};
      AtOnceConcat(front[1..], back, prompt);
      assert (front + back)[1..] == front[1..] + back;
      AssociatesAll(first, AtOnce(front[1..], prompt), AtOnce(back, prompt));
    }
  }

  lemma AssociatesAll(a: multiset<Flight>, b: multiset<Flight>, c: multiset<Flight>)
    ensures a + (b + c) == a + b + c
  {
  }

  function NewlyAsked(before: seq<Flight>, now: seq<Flight>): seq<Flight> {
    if before <= now then now[|before|..] else now
  }

  /** What the engine has answered, at once or later. */
  function HeardFrom(api: Api, steps: seq<Step>): multiset<Flight> {
    if steps == [] then multiset{}
    else
      var (front, step) := (steps[..|steps| - 1], steps[|steps| - 1]);
      HeardFrom(api, front) +
      match step
      case Answer(at) => if at < |Run(api, front).flying| then multiset{Run(api, front).flying[at]} else multiset{}
      case Pump(_, prompt) => AtOnce(NewlyAsked(Run(api, front).asked, Run(api, steps).asked), prompt)
      case _ => multiset{}
  }

  /** What is asked and was in flight is in flight now, or answered at once. */
  ghost predicate AddsUp(flying: seq<Flight>, asked: seq<Flight>, now: seq<Flight>, prompt: set<Ask>) {
    multiset(flying) + multiset(asked) == multiset(now) + AtOnce(asked, prompt)
  }

  ghost predicate Accounts(s: State, s': State, asked: seq<Flight>, prompt: set<Ask>) {
    s'.asked == s.asked + asked && AddsUp(s.flying, asked, s'.flying, prompt)
  }

  lemma AskedOneAccounts(s: State, ask: Ask, prompt: set<Ask>)
    ensures Accounts(s, AskedOne(s, ask, ask in prompt), [Flight(ask, s.token)], prompt)
  {
    var flight := Flight(ask, s.token);
    assert [flight][1..] == [];
    assert AtOnce([flight], prompt) == if ask in prompt then multiset{flight} else multiset{};
  }

  lemma AccountsBoth(s: State, s': State, s'': State, one: seq<Flight>, two: seq<Flight>, prompt: set<Ask>)
    requires Accounts(s, s', one, prompt) && Accounts(s', s'', two, prompt)
    ensures Accounts(s, s'', one + two, prompt)
  {
    AddsUpBoth(s.flying, one, s'.flying, two, s''.flying, prompt);
    assert s.asked + one + two == s.asked + (one + two);
  }

  lemma AddsUpBoth(flying: seq<Flight>, one: seq<Flight>, between: seq<Flight>, two: seq<Flight>, now: seq<Flight>,
                   prompt: set<Ask>)
    requires AddsUp(flying, one, between, prompt) && AddsUp(between, two, now, prompt)
    ensures AddsUp(flying, one + two, now, prompt)
  {
    AtOnceConcat(one, two, prompt);
    CarriesTwice(multiset(flying), multiset(one), multiset(between), AtOnce(one, prompt), multiset(two),
                 multiset(now), AtOnce(two, prompt));
    assert multiset(one + two) == multiset(one) + multiset(two);
  }

  lemma CarriesTwice(a: multiset<Flight>, b: multiset<Flight>, c: multiset<Flight>, d: multiset<Flight>,
                     e: multiset<Flight>, f: multiset<Flight>, g: multiset<Flight>)
    requires a + b == c + d && c + e == f + g
    ensures a + (b + e) == f + (d + g)
  {
    Carries(a, b, c, d, e);
    assert f + g + d == f + (d + g);
  }

  lemma Carries(a: multiset<Flight>, b: multiset<Flight>, c: multiset<Flight>, d: multiset<Flight>, e: multiset<Flight>)
    requires a + b == c + d
    ensures a + (b + e) == c + e + d
  {
    assert a + (b + e) == a + b + e;
  }

  lemma {:induction false} AskedAllAccounts(s: State, asks: seq<Ask>, prompt: set<Ask>) returns (asked: seq<Flight>)
    ensures Accounts(s, AskedAll(s, asks, prompt), asked, prompt)
    decreases |asks|
  {
    if asks == [] {
      asked := [];
      assert s.asked + [] == s.asked;
    } else {
      var one := AskedOne(s, asks[0], asks[0] in prompt);
      AskedOneAccounts(s, asks[0], prompt);
      asked := AskedAllAccounts(one, asks[1..], prompt);
      AccountsBoth(s, one, AskedAll(one, asks[1..], prompt), [Flight(asks[0], s.token)], asked, prompt);
      asked := [Flight(asks[0], s.token)] + asked;
    }
  }

  lemma NothingAccounts(s: State, s': State, prompt: set<Ask>)
    requires s'.asked == s.asked && s'.flying == s.flying
    ensures Accounts(s, s', [], prompt)
  {
    assert s.asked + [] == s.asked;
  }

  lemma PumpedAccounts(s: State, now: real, prompt: set<Ask>) returns (asked: seq<Flight>)
    requires Inv(s)
    ensures Accounts(s, Pumped(s, now, prompt), asked, prompt)
  {
    if s.phase.Measuring? && s.workFinished {
      asked := MeasuredAccounts(s, now, prompt);
    } else if s.phase.Flushing? && !StillWaits(s, now) {
      asked := AskedAllAccounts(Opened(s, Engine, now), EngineAsks(s.current[0].request, s.api), prompt);
    } else {
      asked := [];
      NothingAccounts(s, Pumped(s, now, prompt), prompt);
    }
  }

  lemma MeasuredAccounts(s: State, now: real, prompt: set<Ask>) returns (asked: seq<Flight>)
    requires Inv(s) && s.phase.Measuring? && s.workFinished
    ensures Accounts(s, Measured(s, now, prompt), asked, prompt)
  {
    var open := Opened(s.(workFinished := false), Flushing, now);
    asked := AskedAllAccounts(open, FlushAsks(s.api), prompt);
    var flushed := FlushStarted(s.(workFinished := false), now, prompt);
    assert Accounts(s, flushed, asked, prompt);
    if flushed.outstanding == 0 && |flushed.current| == 1 {
      var more := AskedAllAccounts(Opened(flushed, Engine, now), EngineAsks(flushed.current[0].request, flushed.api),
                                   prompt);
      AccountsBoth(s, flushed, EngineStarted(flushed, now, prompt), asked, more, prompt);
      asked := asked + more;
    }
  }

  ghost predicate AllAccounted(s: State, heard: multiset<Flight>) {
    multiset(s.asked) == multiset(s.flying) + heard
  }

  lemma PumpAccounted(s: State, now: real, prompt: set<Ask>, heard: multiset<Flight>)
    requires Inv(s) && AllAccounted(s, heard)
    ensures var s' := Pumped(s, now, prompt);
            AllAccounted(s', heard + AtOnce(NewlyAsked(s.asked, s'.asked), prompt))
  {
    var asked := PumpedAccounts(s, now, prompt);
    assert (s.asked + asked)[|s.asked|..] == asked;
    assert multiset(s.asked + asked) == multiset(s.asked) + multiset(asked);
    Carries(multiset(s.flying), multiset(asked), multiset(Pumped(s, now, prompt).flying), AtOnce(asked, prompt), heard);
    assert multiset(s.flying) + (multiset(asked) + heard) == multiset(s.flying) + heard + multiset(asked);
  }

  lemma AnswerAccounted(s: State, at: nat, heard: multiset<Flight>)
    requires AllAccounted(s, heard) && at < |s.flying|
    ensures AllAccounted(Answered(s, at), heard + multiset{s.flying[at]})
  {
    assert s.flying == s.flying[..at] + [s.flying[at]] + s.flying[at + 1..];
  }

  /** Nothing asked of the engine is lost sight of: it is in flight, or was answered. */
  lemma {:induction false} EveryAskIsAccountedFor(api: Api, steps: seq<Step>)
    ensures AllAccounted(Run(api, steps), HeardFrom(api, steps))
  {
    if steps != [] {
      var (front, step) := (steps[..|steps| - 1], steps[|steps| - 1]);
      EveryAskIsAccountedFor(api, front);
      EveryRunKeepsInv(api, front);
      match step
      case Enqueue(_) =>
      case JobEnds =>
      case Pump(now, prompt) => PumpAccounted(Run(api, front), now, prompt, HeardFrom(api, front));
      case Answer(at) =>
        if at < |Run(api, front).flying| {
          AnswerAccounted(Run(api, front), at, HeardFrom(api, front));
        }
    }
  }

  // --- What a sweep waits for -----------------------------------------------------------------

  /** The moment the step under way was opened. */
  function OpenedAt(api: Api, steps: seq<Step>): real {
    if steps == [] then 0.0
    else
      var (front, step) := (steps[..|steps| - 1], steps[|steps| - 1]);
      if step.Pump? && Run(api, steps).token != Run(api, front).token then step.now else OpenedAt(api, front)
  }

  ghost predicate IsDue(s: State, openedAt: real) {
    s.token > 0 ==> s.deadline == openedAt + 20.0
  }

  lemma PumpedIsDue(s: State, now: real, prompt: set<Ask>, openedAt: real)
    requires Inv(s) && IsDue(s, openedAt)
    ensures IsDue(Pumped(s, now, prompt), if Pumped(s, now, prompt).token != s.token then now else openedAt)
  {
    if s.phase.Measuring? && s.workFinished {
      FlushStartedKeeps(s.(workFinished := false), now, prompt);
      EngineStartedKeeps(FlushStarted(s.(workFinished := false), now, prompt), now, prompt);
    } else if s.phase.Flushing? {
      EngineStartedKeeps(s, now, prompt);
    }
  }

  lemma {:induction false} EveryStepIsDue(api: Api, steps: seq<Step>)
    ensures IsDue(Run(api, steps), OpenedAt(api, steps))
  {
    if steps != [] {
      var (front, step) := (steps[..|steps| - 1], steps[|steps| - 1]);
      EveryStepIsDue(api, front);
      EveryRunKeepsInv(api, front);
      match step
      case Enqueue(_) =>
      case JobEnds =>
      case Pump(now, prompt) => PumpedIsDue(Run(api, front), now, prompt, OpenedAt(api, front));
      case Answer(at) => AnsweredKeeps(Run(api, front), at);
    }
  }

  /** The engine was asked for all the request is for that it can do, and for nothing else;
      and it has answered every one of those asks, or the step is 20 seconds old. */
  ghost predicate MaySweep(s: State, now: real, openedAt: real, heard: multiset<Flight>) {
    && |s.current| == 1
    && (forall ask :: Flight(ask, s.token) in s.asked <==>
          IsFor(s.current[0].request, ask) && Kind(ask) in s.api)
    && ((forall f <- s.asked :: f.token == s.token ==> multiset(s.asked)[f] == heard[f]) || now >= openedAt + 20.0)
  }

  lemma {:induction false} UnderIs(asked: seq<Flight>, token: nat, ask: Ask)
    ensures ask in AskedUnder(asked, token) <==> Flight(ask, token) in asked
  {
    if asked != [] {
      var n := |asked| - 1;
      UnderIs(asked[..n], token, ask);
      assert asked == asked[..n] + [asked[n]];
    }
  }

  /** No step is under way before the first is opened. */
  ghost predicate IsOpened(s: State) {
    s.token == 0 ==> s.phase.Idle? || s.phase.Measuring?
  }

  lemma PumpedIsOpened(s: State, now: real, prompt: set<Ask>)
    requires Inv(s) && IsOpened(s)
    ensures IsOpened(Pumped(s, now, prompt))
  {
    if s.phase.Measuring? && s.workFinished {
      FlushStartedKeeps(s.(workFinished := false), now, prompt);
      EngineStartedKeeps(FlushStarted(s.(workFinished := false), now, prompt), now, prompt);
    } else if s.phase.Flushing? {
      EngineStartedKeeps(s, now, prompt);
    }
  }

  lemma {:induction false} OpenedOnce(api: Api, steps: seq<Step>)
    ensures IsOpened(Run(api, steps))
  {
    if steps != [] {
      var (front, step) := (steps[..|steps| - 1], steps[|steps| - 1]);
      OpenedOnce(api, front);
      EveryRunKeepsInv(api, front);
      match step
      case Enqueue(_) =>
      case JobEnds =>
      case Pump(now, prompt) => PumpedIsOpened(Run(api, front), now, prompt);
      case Answer(at) => AnsweredKeeps(Run(api, front), at);
    }
  }

  lemma SweepingMay(s: State, now: real, openedAt: real, heard: multiset<Flight>)
    requires Inv(s) && s.phase.Engine? && AllAccounted(s, heard) && s.deadline == openedAt + 20.0
    requires (forall f <- s.flying :: f.token != s.token) || now >= s.deadline
    ensures MaySweep(s, now, openedAt, heard)
  {
    forall ask: Ask
      ensures Flight(ask, s.token) in s.asked <==> IsFor(s.current[0].request, ask) && Kind(ask) in s.api
    {
      UnderIs(s.asked, s.token, ask);
      AsksAreExactly(s.current[0].request, s.api, ask);
    }
    forall f <- s.asked | f.token == s.token && forall g <- s.flying :: g.token != s.token
      ensures multiset(s.asked)[f] == heard[f]
    {
      assert f !in s.flying;
    }
  }

  /** A sweep starts under no other circumstances. */
  lemma SweepsAfterAnswers(api: Api, steps: seq<Step>, step: Step)
    requires !Run(api, steps).phase.Sweeping? && Next(Run(api, steps), step).phase.Sweeping?
    ensures step.Pump? && MaySweep(Run(api, steps), step.now, OpenedAt(api, steps), HeardFrom(api, steps))
  {
    SweepWaitsForEngine(api, steps, step);
    EveryRunKeepsInv(api, steps);
    EveryAskIsAccountedFor(api, steps);
    EveryStepIsDue(api, steps);
    OpenedOnce(api, steps);
    SweepingMay(Run(api, steps), step.now, OpenedAt(api, steps), HeardFrom(api, steps));
  }
}
