/** The pump's own code, one call at a time. Removal.dfy says how calls, answers and
    the worker's jobs interleave. */
module RemovalPump {
  import opened Removal

  class Pump {
    const api: Api
    var phase: Phase
    var current: seq<Job>
    var queue: seq<Request>
    var outstanding: int
    var token: nat
    var deadline: real
    var flying: seq<Flight>
    var working: bool
    var workFinished: bool
    var generation: int
    // What was made, asked, swept and finished so far.
    var enqueued: seq<Request>
    var asked: seq<Flight>
    var swept: seq<Job>
    var finished: seq<Job>

    ghost function Contents(): State
      reads this
    {
      State(phase, current, queue, outstanding, token, deadline, flying, working, workFinished, generation, api,
            enqueued, asked, swept, finished)
    }

    constructor (api: Api)
      ensures Contents() == Start(api)
    {
      this.api := api;
      phase, current, queue, outstanding, token, deadline := Idle, [], [], 0, 0, 0.0;
      flying, working, workFinished, generation := [], false, false, 0;
      enqueued, asked, swept, finished := [], [], [], [];
    }

    method Enqueue(request: Request)
      modifies this`queue, this`enqueued
      ensures Contents() == Next(old(Contents()), Step.Enqueue(request))
    {
      queue := queue + [request];
      enqueued := enqueued + [request];
    }

    method FinishStep(context: nat)
      modifies this`outstanding
      ensures Contents() == StepFinished(old(Contents()), context)
    {
      if context != token {
        return;
      }
      if outstanding > 0 {
        outstanding := outstanding - 1;
      }
    }

    /** The engine answers one of the asks it still has. */
    method Answer(at: nat)
      requires at < |flying|
      modifies this`flying, this`outstanding
      ensures Contents() == Answered(old(Contents()), at)
    {
      var context := flying[at].token;
      flying := flying[..at] + flying[at + 1..];
      FinishStep(context);
    }

    method BeginStep(next: Phase, now: real)
      modifies this`phase, this`outstanding, this`token, this`deadline
      ensures Contents() == Opened(old(Contents()), next, now)
    {
      phase := next;
      outstanding := 0;
      token := token + 1;
      deadline := now + STEP_SECONDS;
    }

    method AskEngine(ask: Ask, prompt: bool)
      modifies this`outstanding, this`flying, this`asked
      ensures Contents() == AskedOne(old(Contents()), ask, prompt)
    {
      outstanding := outstanding + 1;
      asked := asked + [Flight(ask, token)];
      if prompt {
        FinishStep(token);
      } else {
        flying := flying + [Flight(ask, token)];
      }
    }

    method AskEngineIf(wanted: bool, ask: Ask, prompt: set<Ask>, ghost rest: seq<Ask>)
      modifies this`outstanding, this`flying, this`asked
      ensures AskedAll(Contents(), rest, prompt) == AskedAll(old(Contents()), If(wanted, ask) + rest, prompt)
    {
      if wanted {
        assert ([ask] + rest)[1..] == rest;
        AskEngine(ask, ask in prompt);
      } else {
        assert [] + rest == rest;
      }
    }

    method StartFlushing(now: real, prompt: set<Ask>)
      modifies this`phase, this`outstanding, this`token, this`deadline, this`flying, this`asked
      ensures Contents() == FlushStarted(old(Contents()), now, prompt)
    {
      BeginStep(Flushing, now);
      AskEngineIf(CanSync in api, SyncLocalStorage, prompt, If(CanFlush in api, FlushIpc));
      assert If(CanFlush in api, FlushIpc) + [] == If(CanFlush in api, FlushIpc);
      AskEngineIf(CanFlush in api, FlushIpc, prompt, []);
    }

    method AskForOrigin(prompt: set<Ask>)
      modifies this`outstanding, this`flying, this`asked
      ensures Contents() == AskedAll(old(Contents()), EngineAsks(OfOrigin(""), api), prompt)
    {
      var tracking := If(CanRemoveOriginTracking in api, RemoveOriginTracking);
      AskEngineIf(CanRemoveOriginCache in api, RemoveOriginCache, prompt, tracking);
      assert tracking + [] == tracking;
      AskEngineIf(CanRemoveOriginTracking in api, RemoveOriginTracking, prompt, []);
    }

    method AskForTracking(types: set<DataType>, range: Range, prompt: set<Ask>, ghost rest: seq<Ask>)
      modifies this`outstanding, this`flying, this`asked
      ensures AskedAll(Contents(), rest, prompt)
           == AskedAll(old(Contents()), TrackingAsks(types, range, api) + rest, prompt)
    {
      if Tracking !in types {
        assert [] + rest == rest;
        return;
      }
      ghost var clicks := If(CanClearClicks in api, ClearClickMeasurements);
      ghost var all := TrackingAsks(types, range, api) + rest;
      if range.AllTime? {
        assert all == If(CanClearStatistics in api, ClearStatistics) + (clicks + rest);
        AskEngineIf(CanClearStatistics in api, ClearStatistics, prompt, clicks + rest);
      } else {
        var since := ClearStatisticsSince(RangeHours(range));
        assert all == If(CanClearStatisticsSince in api, since) + (clicks + rest);
        AskEngineIf(CanClearStatisticsSince in api, since, prompt, clicks + rest);
      }
      AskEngineIf(CanClearClicks in api, ClearClickMeasurements, prompt, rest);
    }

    method AskForCaches(types: set<DataType>, prompt: set<Ask>, ghost rest: seq<Ask>)
      modifies this`outstanding, this`flying, this`asked
      ensures AskedAll(Contents(), rest, prompt) == AskedAll(old(Contents()), CacheAsks(types, api) + rest, prompt)
    {
      ghost var memory := If(Cache in types && CanRemoveMemoryCaches in api, RemoveMemoryCaches) + rest;
      assert CacheAsks(types, api) + rest ==
          If(Cache in types && CanRemoveNetworkCache in api, RemoveNetworkCache) + memory;
      AskEngineIf(Cache in types && CanRemoveNetworkCache in api, RemoveNetworkCache, prompt, memory);
      AskEngineIf(Cache in types && CanRemoveMemoryCaches in api, RemoveMemoryCaches, prompt, rest);
    }

    method AskForStorage(types: set<DataType>, prompt: set<Ask>)
      modifies this`outstanding, this`flying, this`asked
      ensures Contents() == AskedAll(old(Contents()), StorageAsks(types, api), prompt)
    {
      ghost var databases := If(IndexedDb in types && CanRemoveIndexedDatabases in api, RemoveIndexedDatabases);
      ghost var workers := WorkerAsks(types, api);
      AskEngineIf(LocalStorage in types && CanRemoveLocalStorage in api, RemoveLocalStorage, prompt,
                  databases + workers);
      AskEngineIf(IndexedDb in types && CanRemoveIndexedDatabases in api, RemoveIndexedDatabases, prompt, workers);
      AskForWorkers(types, prompt);
    }

    method AskForWorkers(types: set<DataType>, prompt: set<Ask>)
      modifies this`outstanding, this`flying, this`asked
      ensures Contents() == AskedAll(old(Contents()), WorkerAsks(types, api), prompt)
    {
      ghost var last := If(DomCache in types && CanRemoveFetchCaches in api, RemoveFetchCaches);
      AskEngineIf(ServiceWorkers in types && CanRemoveServiceWorkers in api, RemoveServiceWorkers, prompt, last);
      assert last + [] == last;
      AskEngineIf(DomCache in types && CanRemoveFetchCaches in api, RemoveFetchCaches, prompt, []);
    }

    method AskForClear(types: set<DataType>, range: Range, prompt: set<Ask>)
      modifies this`outstanding, this`flying, this`asked
      ensures Contents() == AskedAll(old(Contents()), ClearAsks(types, range, api), prompt)
    {
      ghost var all := AllTimeAsks(types, range, api);
      AskEngineIf(Cookies in types && CanDeleteCookies in api, DeleteCookies, prompt,
                  TrackingAsks(types, range, api) + all);
      AskForTracking(types, range, prompt, all);
      if !range.AllTime? {
        return;
      }
      AskForCaches(types, prompt, StorageAsks(types, api));
      AskForStorage(types, prompt);
    }

    /** Opens the engine step and asks whatever the request under way is for. */
    method StartEngineRemovals(now: real, prompt: set<Ask>)
      requires |current| == 1
      modifies this`phase, this`outstanding, this`token, this`deadline, this`flying, this`asked
      ensures Contents() == EngineStarted(old(Contents()), now, prompt)
    {
      BeginStep(Engine, now);
      match current[0].request
      case OfOrigin(_) => AskForOrigin(prompt);
      case Clear(types, range) => AskForClear(types, range, prompt);
    }

    method StartSweeping()
      modifies this`phase, this`workFinished, this`working, this`swept
      ensures Contents() == old(Contents()).(phase := Sweeping, workFinished := false, working := true,
                                             swept := old(swept) + old(current))
    {
      phase := Sweeping;
      workFinished := false;
      working := true;
      swept := swept + current;
    }

    method TakeNextRequest(now: real)
      modifies this`phase, this`current, this`queue, this`workFinished, this`working
      ensures Contents() == Begun(old(Contents()), now)
    {
      if queue == [] {
        return;
      }
      var request := queue[0];
      queue := queue[1..];
      phase := Measuring;
      workFinished := false;
      current := [Job(request, now, CutoffFor(request, now))];
      working := true;
    }

    method FinishRequest()
      modifies this`phase, this`current, this`generation, this`finished
      ensures Contents() == old(Contents()).(phase := Idle, current := [], generation := old(generation) + 1,
                                             finished := old(finished) + old(current))
    {
      finished := finished + current;
      phase := Idle;
      current := [];
      generation := generation + 1;
    }

    method RunMeasuring(now: real, prompt: set<Ask>)
      requires |current| == 1
      modifies this
      ensures Contents() == Measured(old(Contents()), now, prompt)
    {
      if !workFinished {
        return;
      }
      workFinished := false;
      ghost var s := Contents();
      StartFlushing(now, prompt);
      AskedAllLeaves(Opened(s, Flushing, now), FlushAsks(api), prompt);
      if outstanding == 0 {
        StartEngineRemovals(now, prompt);
      }
    }

    method RunPump(now: real, prompt: set<Ask>)
      requires |current| == (if phase.Idle? then 0 else 1)
      modifies this
      ensures Contents() == Pumped(old(Contents()), now, prompt)
    {
      match phase
      case Idle => TakeNextRequest(now);
      case Measuring => RunMeasuring(now, prompt);
      case Flushing =>
        if outstanding > 0 && now < deadline {
          return;
        }
        StartEngineRemovals(now, prompt);
      case Engine =>
        if outstanding > 0 && now < deadline {
          return;
        }
        StartSweeping();
      case Sweeping =>
        if !workFinished {
          return;
        }
        workFinished := false;
        FinishRequest();
    }
  }

  lemma {:induction false} AskedAllLeaves(s: State, asks: seq<Ask>, prompt: set<Ask>)
    ensures AskedAll(s, asks, prompt).current == s.current
    decreases |asks|
  {
    if asks != [] {
      AskedAllLeaves(AskedOne(s, asks[0], asks[0] in prompt), asks[1..], prompt);
    }
  }
}
