/** What every run of the pump keeps, whenever the engine answers, and how requests
    get through it. */
module RemovalRuns {
  import opened Removal
  import opened Sequences

  // --- Counting -------------------------------------------------------------------------

  lemma {:induction false} UnansweredPlus(flying: seq<Flight>, flight: Flight, token: nat)
    ensures Unanswered(flying + [flight], token) == Unanswered(flying, token) + if flight.token == token then 1 else 0
  {
    if flying == [] {
      assert (flying + [flight])[1..] == [];
    } else {
      UnansweredPlus(flying[1..], flight, token);
      assert (flying + [flight])[1..] == flying[1..] + [flight];
    }
  }

  lemma {:induction false} UnansweredMinus(flying: seq<Flight>, at: nat, token: nat)
    requires at < |flying|
    ensures Unanswered(flying, token)
         == Unanswered(flying[..at] + flying[at + 1..], token) + if flying[at].token == token then 1 else 0
  {
    var fewer := flying[..at] + flying[at + 1..];
    if at == 0 {
      assert fewer == flying[1..];
    } else {
      UnansweredMinus(flying[1..], at - 1, token);
      assert fewer[1..] == flying[1..][..at - 1] + flying[1..][at..];
      assert fewer[0] == flying[0];
    }
  }

  lemma {:induction false} UnansweredNone(flying: seq<Flight>, token: nat)
    ensures Unanswered(flying, token) == 0 <==> forall f <- flying :: f.token != token
  {
    if flying != [] {
      UnansweredNone(flying[1..], token);
      assert flying == [flying[0]] + flying[1..];
    }
  }

  lemma {:induction false} AskedUnderNone(asked: seq<Flight>, token: nat)
    requires forall f <- asked :: f.token != token
    ensures AskedUnder(asked, token) == []
  {
    if asked != [] {
      AskedUnderNone(asked[..|asked| - 1], token);
    }
  }

  // --- One ask, and all asks of a step ------------------------------------------------------

  /** Whether it is answered at once or not, an ask leaves the count right. */
  lemma AskedOneKeeps(s: State, ask: Ask, prompt: bool)
    requires Tokened(s)
    ensures Tokened(AskedOne(s, ask, prompt))
    ensures AskedUnder(AskedOne(s, ask, prompt).asked, s.token) == AskedUnder(s.asked, s.token) + [ask]
  {
    var flight := Flight(ask, s.token);
    UnansweredPlus(s.flying, flight, s.token);
    assert (s.asked + [flight])[..|s.asked|] == s.asked;
  }

  predicate SameButAsks(s: State, s': State) {
    s' == s.(outstanding := s'.outstanding, flying := s'.flying, asked := s'.asked)
  }

  lemma {:induction false} AskedAllKeeps(s: State, asks: seq<Ask>, prompt: set<Ask>)
    requires Tokened(s)
    ensures var s' := AskedAll(s, asks, prompt);
            && Tokened(s') && SameButAsks(s, s')
            && AskedUnder(s'.asked, s.token) == AskedUnder(s.asked, s.token) + asks
    decreases |asks|
  {
    if asks != [] {
      AskedOneKeeps(s, asks[0], asks[0] in prompt);
      AskedAllKeeps(AskedOne(s, asks[0], asks[0] in prompt), asks[1..], prompt);
      assert asks == [asks[0]] + asks[1..];
      Shift(AskedUnder(s.asked, s.token), asks[0], asks[1..]);
    }
  }

  /** A new step starts with nothing asked and nothing outstanding. */
  lemma OpenedIsFresh(s: State, phase: Phase, now: real)
    requires Tokened(s)
    ensures var s' := Opened(s, phase, now);
            Tokened(s') && AskedUnder(s'.asked, s'.token) == []
  {
    UnansweredNone(s.flying, s.token + 1);
    AskedUnderNone(s.asked, s.token + 1);
  }

  lemma FlushStartedKeeps(s: State, now: real, prompt: set<Ask>)
    requires Tokened(s)
    ensures var s' := FlushStarted(s, now, prompt);
            && Tokened(s') && SameButAsks(Opened(s, Flushing, now), s')
            && AskedUnder(s'.asked, s'.token) == FlushAsks(s.api)
  {
    OpenedIsFresh(s, Flushing, now);
    AskedAllKeeps(Opened(s, Flushing, now), FlushAsks(s.api), prompt);
  }

  lemma EngineStartedKeeps(s: State, now: real, prompt: set<Ask>)
    requires Tokened(s) && |s.current| == 1
    ensures var s' := EngineStarted(s, now, prompt);
            && Tokened(s') && SameButAsks(Opened(s, Engine, now), s')
            && AskedUnder(s'.asked, s'.token) == EngineAsks(s.current[0].request, s.api)
  {
    OpenedIsFresh(s, Engine, now);
    AskedAllKeeps(Opened(s, Engine, now), EngineAsks(s.current[0].request, s.api), prompt);
  }

  // --- Every step ---------------------------------------------------------------------------

  lemma AnsweredKeeps(s: State, at: nat)
    requires Tokened(s)
    ensures Tokened(Answered(s, at)) && SameButAsks(s, Answered(s, at)) && Answered(s, at).asked == s.asked
  {
    if at < |s.flying| {
      UnansweredMinus(s.flying, at, s.token);
    }
  }

  lemma EngineKeepsInv(s: State, now: real, prompt: set<Ask>)
    requires Inv(s) && s.phase.Flushing?
    ensures Inv(EngineStarted(s, now, prompt))
  {
    EngineStartedKeeps(s, now, prompt);
  }

  lemma FlushKeepsInv(s: State, now: real, prompt: set<Ask>)
    requires Inv(s) && s.phase.Measuring? && s.workFinished
    ensures var s' := FlushStarted(s.(workFinished := false), now, prompt);
            Inv(s') && s'.phase.Flushing?
  {
    FlushStartedKeeps(s.(workFinished := false), now, prompt);
  }

  lemma BegunKeepsInv(s: State, now: real)
    requires Inv(s) && s.phase.Idle?
    ensures Inv(Begun(s, now))
  {
    if s.queue != [] {
      var s' := Begun(s, now);
      assert s'.current[..0] == [];
      assert Requests(s'.current) == [s.queue[0]];
      assert s.queue == [s.queue[0]] + s.queue[1..];
    }
  }

  lemma FinishedKeepsInv(s: State)
    requires Inv(s) && s.phase.Sweeping?
    ensures Inv(Finished(s))
  {
    if s.workFinished {
      var job := s.current[0];
      assert s.current == [job] && s.current[..0] == [];
      assert Requests(s.current) == [job.request];
      assert (s.finished + [job])[..|s.finished|] == s.finished;
    }
  }

  lemma PumpedKeepsInv(s: State, now: real, prompt: set<Ask>)
    requires Inv(s)
    ensures Inv(Pumped(s, now, prompt))
  {
    match s.phase
    case Idle => BegunKeepsInv(s, now);
    case Measuring =>
      if s.workFinished {
        FlushKeepsInv(s, now, prompt);
        var s' := FlushStarted(s.(workFinished := false), now, prompt);
        EngineKeepsInv(s', now, prompt);
      }
    case Flushing => EngineKeepsInv(s, now, prompt);
    case Engine =>
    case Sweeping => FinishedKeepsInv(s);
  }

  lemma StepKeepsInv(s: State, step: Step)
    requires Inv(s)
    ensures Inv(Next(s, step))
  {
    match step
    case Enqueue(request) =>
    case Pump(now, prompt) => PumpedKeepsInv(s, now, prompt);
    case Answer(at) => AnsweredKeeps(s, at);
    case JobEnds =>
  }

  lemma {:induction false} EveryRunKeepsInv(api: Api, steps: seq<Step>)
    ensures Inv(Run(api, steps))
  {
    if steps != [] {
      EveryRunKeepsInv(api, steps[..|steps| - 1]);
      StepKeepsInv(Run(api, steps[..|steps| - 1]), steps[|steps| - 1]);
    }
  }

  // --- What that promises ---------------------------------------------------------------------

  /** A sweep starts only once everything its engine step asked has been answered, or
      past the deadline of that step; answers that came late to earlier steps
      brought it no closer. */
  lemma SweepWaitsForEngine(api: Api, steps: seq<Step>, step: Step)
    requires !Run(api, steps).phase.Sweeping? && Next(Run(api, steps), step).phase.Sweeping?
    ensures var s := Run(api, steps);
            && step.Pump? && s.phase.Engine? && |s.current| == 1
            && AskedUnder(s.asked, s.token) == EngineAsks(s.current[0].request, api)
            && ((forall f <- s.flying :: f.token != s.token) || step.now >= s.deadline)
  {
    EveryRunKeepsInv(api, steps);
    ApiStays(api, steps);
    var s := Run(api, steps);
    UnansweredNone(s.flying, s.token);
    OnlyEngineSweeps(s, step);
  }

  lemma OnlyEngineSweeps(s: State, step: Step)
    requires Tokened(s) && !s.phase.Sweeping? && Next(s, step).phase.Sweeping?
    ensures step.Pump? && s.phase.Engine? && !StillWaits(s, step.now)
  {
    match step
    case Enqueue(_) =>
    case Answer(at) => AnsweredKeeps(s, at);
    case JobEnds =>
    case Pump(now, prompt) =>
      if s.phase.Measuring? && s.workFinished {
        var s' := s.(workFinished := false);
        FlushStartedKeeps(s', now, prompt);
        if |s.current| == 1 {
          EngineStartedKeeps(FlushStarted(s', now, prompt), now, prompt);
        }
      } else if s.phase.Flushing? && |s.current| == 1 {
        EngineStartedKeeps(s, now, prompt);
      }
  }

  lemma {:induction false} ApiStays(api: Api, steps: seq<Step>)
    ensures Run(api, steps).api == api
  {
    if steps != [] {
      ApiStays(api, steps[..|steps| - 1]);
      var (s, step) := (Run(api, steps[..|steps| - 1]), steps[|steps| - 1]);
      EveryRunKeepsInv(api, steps[..|steps| - 1]);
      ApiKept(s, step);
    }
  }

  lemma ApiKept(s: State, step: Step)
    requires Inv(s)
    ensures Next(s, step).api == s.api
  {
    match step
    case Enqueue(_) =>
    case Answer(at) => AnsweredKeeps(s, at);
    case JobEnds =>
    case Pump(now, prompt) =>
      if s.phase.Measuring? && s.workFinished {
        FlushKeepsInv(s, now, prompt);
        FlushStartedKeeps(s.(workFinished := false), now, prompt);
        EngineStartedKeeps(FlushStarted(s.(workFinished := false), now, prompt), now, prompt);
      } else if s.phase.Flushing? {
        EngineStartedKeeps(s, now, prompt);
      }
  }

  /** Requests finish in the order they were made, one generation each, none skipped
      and none twice, and each is swept once, with the cutoff it started with. */
  lemma FinishedInOrder(api: Api, steps: seq<Step>)
    ensures var s := Run(api, steps);
            && Requests(s.finished) <= s.enqueued
            && s.generation == |s.finished| && s.finished <= s.swept && |s.swept| <= |s.finished| + 1
            && (forall j <- s.finished :: j.cutoff == CutoffFor(j.request, j.started))
  {
    EveryRunKeepsInv(api, steps);
    InOrderMeans(Run(api, steps));
  }

  lemma InOrderMeans(s: State)
    requires OneJob(s) && InOrder(s)
    ensures Requests(s.finished) <= s.enqueued
    ensures s.generation == |s.finished| && s.finished <= s.swept && |s.swept| <= |s.finished| + 1
    ensures forall j <- s.finished :: j.cutoff == CutoffFor(j.request, j.started)
  {
    assert s.enqueued == Requests(s.finished) + (Requests(s.current) + s.queue);
  }

  /** A late answer to a step given up on changes nothing the pump looks at. */
  lemma LateAnswersChangeNothing(s: State, at: nat)
    requires at < |s.flying| && s.flying[at].token != s.token
    ensures Answered(s, at) == s.(flying := s.flying[..at] + s.flying[at + 1..])
  {
  }

  // --- Nothing holds a request up ---------------------------------------------------------

  /** What happens when the engine never answers: the worker ends its jobs and the
      pump is run with the clock past the deadline. */
  function Unhelped(s: State): State {
    if s.working then Next(s, JobEnds) else Next(s, Pump(s.deadline, {}))
  }

  function UnhelpedFor(s: State, times: nat): State
    decreases times
  {
    if times == 0 then s else UnhelpedFor(Unhelped(s), times - 1)
  }

  /** How many such steps a request is from its end. */
  function Distance(s: State): nat {
    match s.phase
    case Idle => 0
    case Measuring => if s.working then 6 else 5
    case Flushing => 4
    case Engine => 3
    case Sweeping => if s.working then 2 else 1
  }

  lemma UnhelpedGetsCloser(s: State)
    requires Inv(s) && !s.phase.Idle?
    ensures var s' := Unhelped(s);
            && Inv(s') && Distance(s') < Distance(s)
            && (if s'.phase.Idle? then s'.finished == s.finished + s.current
                else s'.finished == s.finished && s'.current == s.current)
  {
    if s.working {
      StepKeepsInv(s, JobEnds);
    } else {
      var step := Pump(s.deadline, {});
      StepKeepsInv(s, step);
      if s.phase.Measuring? {
        FlushStartedKeeps(s.(workFinished := false), s.deadline, {});
        EngineStartedKeeps(FlushStarted(s.(workFinished := false), s.deadline, {}), s.deadline, {});
      } else if s.phase.Flushing? {
        EngineStartedKeeps(s, s.deadline, {});
      }
    }
  }

  /** A request under way is finished without a single answer from the engine. */
  lemma {:induction false} NothingHoldsItUp(s: State) returns (times: nat)
    requires Inv(s) && !s.phase.Idle?
    ensures var s' := UnhelpedFor(s, times);
            s'.phase.Idle? && s'.finished == s.finished + s.current
    ensures times <= 6
    ensures times <= Distance(s)
    decreases Distance(s)
  {
    UnhelpedGetsCloser(s);
    if Unhelped(s).phase.Idle? {
      times := 1;
      assert UnhelpedFor(s, 1) == UnhelpedFor(Unhelped(s), 0);
    } else {
      var rest := NothingHoldsItUp(Unhelped(s));
      times := rest + 1;
    }
  }

  // --- What is asked for a range ----------------------------------------------------------

  /** A range never reaches further than it should: unless it covers all time, the
      engine is asked only for what it can limit to those hours, and for the cookie
      jar and the click measurements, which it cannot. */
  lemma RangesStayInRange(types: set<DataType>, range: Range, api: Api, ask: Ask)
    requires ask in ClearAsks(types, range, api) && !range.AllTime?
    ensures ask in {DeleteCookies, ClearStatisticsSince(RangeHours(range)), ClearClickMeasurements}
    ensures ask == DeleteCookies ==> Cookies in types
    ensures ask != DeleteCookies ==> Tracking in types
    ensures RangeHours(range) as real * 3600.0 == RangeSeconds(range)
  {
  }
}
