/** The permission queue's own code: what each call does to the queue, the answers
    waiting to cross threads and the remembered decisions (PermissionPolicy.dfy). Permissions.dfy says how
    the calls interleave. */
module PermissionBroker {
  import opened Permissions
  import opened PermissionPolicy

  // --- The broker -------------------------------------------------------------------------

  class Broker {
    var queue: seq<Pending>
    var nextId: int
    var resolutions: seq<(int, Answer)>
    var shutdown: bool
    var policy: seq<Entry>
    // What WebKit heard, and the references taken and given back.
    var answers: seq<Answered>
    var retained: seq<nat>
    var released: seq<nat>

    /** The part of the shared state these calls work on. */
    ghost function Seen(): State
      reads this
    {
      START.(queue := queue, answers := answers, retained := retained, released := released)
    }

    method PolicyDecision(subject: Subject) returns (decision: Decision)
      ensures decision == Remembered(policy, subject)
    {
      for i := 0 to |policy|
        invariant Remembered(policy[i..], subject) == Remembered(policy, subject)
      {
        assert policy[i..][0] == policy[i] && policy[i..][1..] == policy[i + 1..];
        if policy[i].subject == subject {
          return policy[i].decision;
        }
      }
      return Ask;
    }

    method PolicySet(subject: Subject, decision: Decision)
      requires OneEach(policy)
      modifies this`policy
      ensures OneEach(policy)
      ensures forall other :: Remembered(policy, other)
                == if other == subject then decision else Remembered(old(policy), other)
    {
      var at := 0;
      while at < |policy| && policy[at].subject != subject
        invariant 0 <= at <= |policy| && Absent(policy[..at], subject) && policy == old(policy)
      {
        at := at + 1;
      }
      WithDecisionAt(policy, subject, decision, at);
      if decision.Ask? {
        if at < |policy| {
          policy := policy[..at] + policy[at + 1..];
        }
      } else if at < |policy| {
        policy := policy[at := policy[at].(decision := decision)];
      } else {
        policy := policy + [Entry(subject, decision)];
      }
      assert policy == WithDecision(old(policy), subject, decision);
      SetKeepsOneEach(old(policy), subject, decision);
      forall other
        ensures Remembered(policy, other) == if other == subject then decision else Remembered(old(policy), other)
      {
        RememberedAfterSet(old(policy), subject, decision, other);
      }
    }

    method MarkResolved(id: int)
      modifies this`queue
      ensures queue == Mark(old(queue), id)
    {
      for i := 0 to |queue|
        invariant |queue| == |old(queue)|
        invariant forall j :: 0 <= j < |queue| ==>
                    queue[j] == if j < i && (id == 0 || old(queue)[j].id == id) then old(queue)[j].(resolved := true)
                                else old(queue)[j]
      {
        if id == 0 || queue[i].id == id {
          queue := queue[i := queue[i].(resolved := true)];
        }
      }
      MarkChanges(old(queue), id);
      assert queue == Mark(old(queue), id);
    }

    method PostResolution(id: int, answer: Answer)
      modifies this`queue, this`resolutions
      ensures queue == Mark(old(queue), id) && resolutions == old(resolutions) + [(id, answer)]
    {
      MarkResolved(id);
      resolutions := resolutions + [(id, answer)];
    }

    method EnqueueRequest(request: nat, page: int) returns (id: int)
      modifies this`queue, this`nextId, this`retained
      ensures old(shutdown) ==> id == 0 && queue == old(queue) && nextId == old(nextId) && retained == old(retained)
      ensures !old(shutdown) ==>
                id == old(nextId) && nextId == id + 1 &&
                    Seen() == Holding(old(Seen()), Pending(id, request, page, false))
    {
      if shutdown {
        return 0;
      }
      id := nextId;
      nextId := nextId + 1;
      retained := retained + [request];
      queue := queue + [Pending(id, request, page, false)];
    }

    method SettleRequest(pending: Pending, answer: Answer)
      modifies this`answers, this`released
      ensures Seen() == Settle(old(Seen()), pending, answer)
    {
      answers := answers + [Answered(pending.id, pending.request, answer)];
      released := released + [pending.request];
    }

    method AnswerRequest(id: int, answer: Answer)
      modifies this`queue, this`answers, this`released
      ensures Seen() == AnswerOne(old(Seen()), id, answer)
    {
      var at := 0;
      while at < |queue| && queue[at].id != id
        invariant 0 <= at <= |queue|
        invariant IndexOf(queue, id) == if IndexOf(queue[at..], id) < 0 then -1 else at + IndexOf(queue[at..], id)
      {
        assert queue[at..][0] == queue[at] && queue[at..][1..] == queue[at + 1..];
        at := at + 1;
      }
      assert at < |queue| ==> queue[at..][0] == queue[at];
      if at == |queue| {
        return;
      }
      var pending := queue[at];
      queue := queue[..at] + queue[at + 1..];
      SettleRequest(pending, answer);
    }

    method DenyRequests(dropped: seq<Pending>)
      modifies this`answers, this`released
      ensures Seen() == SettleAll(old(Seen()), dropped)
    {
      for i := 0 to |dropped|
        invariant SettleAll(Seen(), dropped[i..]) == SettleAll(old(Seen()), dropped)
        invariant queue == old(queue)
      {
        assert dropped[i..][0] == dropped[i] && dropped[i..][1..] == dropped[i + 1..];
        SettleRequest(dropped[i], Deny);
      }
    }

    method DenyEveryRequest()
      modifies this`queue, this`answers, this`released
      ensures Seen() == DenyEvery(old(Seen()))
    {
      var queued := queue;
      queue := [];
      assert Seen() == old(Seen()).(queue := []);
      DenyRequests(queued);
    }

    method TakePage(page: int) returns (dropped: seq<Pending>)
      modifies this`queue
      ensures queue == NotOfPage(old(queue), page) && dropped == OfPage(old(queue), page)
    {
      dropped := [];
      var i := 0;
      ghost var kept, rest := [], queue;
      while i < |queue|
        invariant queue == kept + rest && i == |kept|
        invariant kept + NotOfPage(rest, page) == NotOfPage(old(queue), page)
        invariant dropped + OfPage(rest, page) == OfPage(old(queue), page)
        decreases |rest|
      {
        var pending := queue[i];
        assert rest[0] == pending;
        if pending.page == page {
          dropped := dropped + [pending];
          queue := queue[..i] + queue[i + 1..];
        } else {
          kept := kept + [pending];
          i := i + 1;
        }
        rest := rest[1..];
      }
    }

    method DenyRequestsForPage(page: int)
      modifies this`queue, this`answers, this`released
      ensures Seen() == DenyPage(old(Seen()), page)
    {
      var dropped := TakePage(page);
      assert Seen() == old(Seen()).(queue := NotOfPage(old(queue), page));
      DenyRequests(dropped);
    }

    /** Carries out every answer that has crossed over. */
    method DrainResolutions()
      modifies this`queue, this`resolutions, this`answers, this`released
      ensures resolutions == []
      ensures Seen() == AllApplied(old(Seen()), old(resolutions))
    {
      var crossed := resolutions;
      resolutions := [];
      for i := 0 to |crossed|
        invariant resolutions == []
        invariant AllApplied(Seen(), crossed[i..]) == AllApplied(old(Seen()), crossed)
      {
        assert crossed[i..][0] == crossed[i] && crossed[i..][1..] == crossed[i + 1..];
        if crossed[i].0 == 0 {
          DenyEveryRequest();
        } else {
          AnswerRequest(crossed[i].0, crossed[i].1);
        }
      }
    }

    method FrontUnresolved() returns (id: int)
      ensures id == Front(queue)
    {
      for i := 0 to |queue|
        invariant Front(queue[i..]) == Front(queue)
      {
        assert queue[i..][0] == queue[i] && queue[i..][1..] == queue[i + 1..];
        if !queue[i].resolved {
          return queue[i].id;
        }
      }
      return 0;
    }

    /** Routes one request that arrives with a named origin or without one. */
    method Route(kind: Kind, origin: string, named: bool, request: nat, page: int)
      modifies this`queue, this`nextId, this`answers, this`retained, this`released
      ensures var decision := DecisionFor(old(policy), kind, origin);
              var held := Pending(old(nextId), request, page, false);
              if !named || decision.AlwaysDeny? || old(shutdown) then
                Seen() == Refuse(old(Seen()), request)
              else if decision.AlwaysAllow? then
                Seen() == AnswerOne(Holding(old(Seen()), held), old(nextId), Allow)
              else Seen() == Holding(old(Seen()), held)
    {
      if !named {
        answers := answers + [Answered(0, request, Deny)];
        return;
      }
      var decision;
      if kind.CameraAndMicrophone? {
        var camera := PolicyDecision(Subject(Camera, origin));
        var microphone := PolicyDecision(Subject(Microphone, origin));
        decision := if camera.AlwaysDeny? || microphone.AlwaysDeny? then AlwaysDeny
                    else if camera.AlwaysAllow? && microphone.AlwaysAllow? then AlwaysAllow else Ask;
      } else {
        decision := PolicyDecision(Subject(kind, origin));
      }
      if decision.AlwaysDeny? || shutdown {
        answers := answers + [Answered(0, request, Deny)];
        return;
      }
      var id := EnqueueRequest(request, page);
      if decision.AlwaysAllow? {
        AnswerRequest(id, Allow);
      }
    }
  }

  /** A request queued, with a reference taken on it. */
  function Holding(s: State, pending: Pending): State {
    s.(queue := s.queue + [pending], retained := s.retained + [pending.request])
  }

  /** What a drain does, as the steps that carry out one answer each. */
  function AllApplied(s: State, crossed: seq<(int, Answer)>): State
    decreases |crossed|
  {
    if crossed == [] then s
    else
      var (id, answer) := crossed[0];
      AllApplied(if id == 0 then DenyEvery(s) else AnswerOne(s, id, answer), crossed[1..])
  }

  lemma AppliedHead(s: State, crossed: seq<(int, Answer)>)
    requires crossed != []
    ensures Applied(s.(draining := crossed))
         == (if crossed[0].0 == 0 then DenyEvery(s)
             else AnswerOne(s, crossed[0].0, crossed[0].1)).(draining := crossed[1..])
  {
    SettleIgnoresDraining(s.(queue := []), s.queue, crossed[1..]);
  }

  lemma AllAppliedStep(s: State, crossed: seq<(int, Answer)>)
    requires crossed != []
    ensures AllApplied(s, crossed)
         == AllApplied(if crossed[0].0 == 0 then DenyEvery(s)
             else AnswerOne(s, crossed[0].0, crossed[0].1), crossed[1..])
    ensures (if crossed[0].0 == 0 then DenyEvery(s) else AnswerOne(s, crossed[0].0, crossed[0].1)).routing == s.routing
  {
  }

  /** A drain is the step Apply once for each answer that crossed. */
  lemma {:induction false} DrainIsSteps(s: State, crossed: seq<(int, Answer)>)
    requires s.routing.Idle?
    ensures Applying(s.(draining := crossed), |crossed|) == AllApplied(s, crossed).(draining := [])
    decreases |crossed|
  {
    if crossed != [] {
      AppliedHead(s, crossed);
      AllAppliedStep(s, crossed);
      var one := if crossed[0].0 == 0 then DenyEvery(s) else AnswerOne(s, crossed[0].0, crossed[0].1);
      DrainIsSteps(one, crossed[1..]);
    }
  }

  function Applying(s: State, times: nat): State
    decreases times
  {
    if times == 0 then s else Applying(Next(s, Step.Apply), times - 1)
  }

  lemma {:induction false} SettleIgnoresDraining(s: State, dropped: seq<Pending>, draining: seq<(int, Answer)>)
    ensures SettleAll(s.(draining := draining), dropped) == SettleAll(s, dropped).(draining := draining)
    decreases |dropped|
  {
    if dropped != [] {
      SettleIgnoresDraining(Settle(s, dropped[0], Deny), dropped[1..], draining);
    }
  }
}
