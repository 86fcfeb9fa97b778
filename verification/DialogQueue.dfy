/** The dialog queue's own code: what each call does to the parked requests while it
    holds the lock. Dialogs.dfy says how the calls interleave. */
module DialogQueue {
  import opened Sequences
  import opened Dialogs

  class Queue {
    var requests: seq<Request>
    var nextId: int

    constructor ()
      ensures requests == [] && nextId == 1
    {
      requests, nextId := [], 1;
    }

    method FindRequest(id: int) returns (at: int)
      ensures at == Find(requests, id)
    {
      for i := 0 to |requests|
        invariant Find(requests, id) == if Find(requests[i..], id) < 0 then -1 else i + Find(requests[i..], id)
      {
        assert requests[i..][0] == requests[i] && requests[i..][1..] == requests[i + 1..];
        if requests[i].id == id {
          return i;
        }
      }
      return -1;
    }

    method EnqueueRequest(kind: Kind, page: int, blocking: bool) returns (id: int)
      modifies this
      ensures id == old(nextId) && nextId == id + 1
      ensures requests == old(requests) + [Request(id, kind, page, blocking, false, NOTHING)]
    {
      id := nextId;
      nextId := nextId + 1;
      requests := requests + [Request(id, kind, page, blocking, false, NOTHING)];
    }

    /** The search passes over requests that have an answer, which is the same as
        stopping at them when no two requests share an id, as they never do. */
    method Answer(id: int, accepted: bool, text: string, secret: string, remember: bool)
      modifies this`requests
      ensures requests == AnsweredOpen(old(requests), id, Reply(accepted, text, secret, remember, []))
      ensures AllDistinct(old(requests)) ==>
                requests == Replied(START.(queue := old(requests)), id,
                    Reply(accepted, text, secret, remember, [])).queue
    {
      var at := 0;
      ghost var reply := Reply(accepted, text, secret, remember, []);
      assert requests[0..] == requests;
      while at < |requests| && (requests[at].id != id || requests[at].answered)
        invariant 0 <= at <= |requests| && requests == old(requests)
        invariant requests[..at] + AnsweredOpen(requests[at..], id, reply) == AnsweredOpen(requests, id, reply)
      {
        assert requests[at..][0] == requests[at] && requests[at..][1..] == requests[at + 1..];
        assert requests[..at + 1] == requests[..at] + [requests[at]];
        Shift(requests[..at], requests[at], AnsweredOpen(requests[at + 1..], id, reply));
        at := at + 1;
      }
      OpenIsFirst(requests, id, reply);
      if at == |requests| {
        return;
      }
      assert requests[at..][0] == requests[at] && requests[at..][1..] == requests[at + 1..];
      // Nothing has set the paths of an unanswered request.
      requests := requests[at := requests[at].(answered := true, reply := Reply(accepted, text, secret, remember, []))];
    }

    method FilePickerCompleted(id: int, paths: seq<string>)
      modifies this`requests
      ensures requests == Replied(START.(queue := old(requests)), id,
          NOTHING.(accepted := paths != [], paths := paths)).queue
    {
      var at := FindRequest(id);
      if at < 0 || requests[at].answered {
        return;
      }
      requests := requests[at := requests[at].(answered := true,
                                               reply := NOTHING.(accepted := paths != [], paths := paths))];
    }

    method TakeAnswered() returns (ready: seq<Request>)
      modifies this`requests
      ensures ready == Ready(old(requests)) && requests == NotReady(old(requests))
    {
      ready := [];
      var position := 0;
      ghost var kept, rest := [], requests;
      while position < |requests|
        invariant requests == kept + rest && position == |kept|
        invariant kept + NotReady(rest) == NotReady(old(requests))
        invariant ready + Ready(rest) == Ready(old(requests))
        decreases |rest|
      {
        var request := requests[position];
        assert rest[0] == request;
        ghost var later := rest[1..];
        if !request.answered || request.blocking {
          Shift(kept, request, NotReady(later));
          kept := kept + [request];
          position := position + 1;
        } else {
          Shift(ready, request, Ready(later));
          ready := ready + [request];
          requests := requests[..position] + requests[position + 1..];
        }
        rest := later;
      }
    }

    /** Refuses what a scope covers: a question with a callback waiting is marked, the
        others are taken off to be told. */
    method RefuseParked(scope: Scope) returns (orphaned: seq<Request>)
      modifies this`requests
      ensures orphaned == Orphaned(old(requests), scope) && requests == Left(old(requests), scope)
    {
      orphaned := [];
      var position := 0;
      ghost var kept, rest := [], requests;
      while position < |requests|
        invariant requests == kept + rest && position == |kept|
        invariant kept + Left(rest, scope) == Left(old(requests), scope)
        invariant orphaned + Orphaned(rest, scope) == Orphaned(old(requests), scope)
        decreases |rest|
      {
        var request := requests[position];
        LeftOne(kept, request, rest, scope);
        ToldOne(orphaned, request, rest, scope);
        assert kept + [] == kept && orphaned + [] == orphaned;
        if scope.Asked? && request.page != scope.page {
          Shift(kept, request, rest[1..]);
          kept := kept + [request];
          position := position + 1;
        } else if request.blocking {
          Replace(kept, Refusal(request), rest);
          requests := requests[position := Refusal(request)];
          kept := kept + [Refusal(request)];
          position := position + 1;
        } else {
          orphaned := orphaned + [request.(reply := request.reply.(accepted := false))];
          requests := requests[..position] + requests[position + 1..];
        }
        rest := rest[1..];
      }
      assert kept + [] == kept && orphaned + [] == orphaned;
    }

    /** One look of a waiting callback at its question. */
    method LookForAnswer(id: int) returns (done: bool, reply: Reply)
      modifies this`requests
      ensures var s := START.(queue := old(requests), waiters := [id]);
              var s' := Polled(s);
              requests == s'.queue && (done <==> s'.waiters == []) && (done ==> s'.returned == [Outcome(id, reply)])
    {
      var at := FindRequest(id);
      if at < 0 {
        return true, NOTHING;
      }
      if !requests[at].answered {
        return false, NOTHING;
      }
      done, reply := true, requests[at].reply;
      requests := requests[..at] + requests[at + 1..];
    }

    /** Which question the frame shows, looking from the newest back. */
    method Present() returns (id: int)
      ensures id == Presented(requests)
    {
      var position := |requests|;
      assert requests[..position] == requests;
      while position > 0
        invariant 0 <= position <= |requests|
        invariant Presented(requests[..position]) == Presented(requests)
      {
        position := position - 1;
        assert requests[..position + 1][..position] == requests[..position];
        if !(requests[position].kind.FilePicker? || requests[position].answered) {
          return requests[position].id;
        }
      }
      return 0;
    }
  }

  /** What a refusal leaves of one request in the queue: itself, its refusal, or nothing. */
  function LeftOf(request: Request, scope: Scope): seq<Request> {
    if !Hits(scope, request) then [request] else if request.blocking then [Refusal(request)] else []
  }

  function ToldOf(request: Request, scope: Scope): seq<Request> {
    if !Hits(scope, request) || request.blocking then []
    else [request.(reply := request.reply.(accepted := false))]
  }

  lemma LeftOne(kept: seq<Request>, request: Request, rest: seq<Request>, scope: Scope)
    requires rest != [] && request == rest[0]
    ensures (kept + LeftOf(request, scope)) + Left(rest[1..], scope) == kept + Left(rest, scope)
  {
    assert Left(rest, scope) == LeftOf(request, scope) + Left(rest[1..], scope);
    Associates(kept, LeftOf(request, scope), Left(rest[1..], scope));
  }

  lemma ToldOne(orphaned: seq<Request>, request: Request, rest: seq<Request>, scope: Scope)
    requires rest != [] && request == rest[0]
    ensures (orphaned + ToldOf(request, scope)) + Orphaned(rest[1..], scope) == orphaned + Orphaned(rest, scope)
  {
    assert Orphaned(rest, scope) == ToldOf(request, scope) + Orphaned(rest[1..], scope);
    Associates(orphaned, ToldOf(request, scope), Orphaned(rest[1..], scope));
  }

  /** The queue with the first unanswered request of an id answered. */
  function AnsweredOpen(queue: seq<Request>, id: int, reply: Reply): seq<Request> {
    if queue == [] then []
    else if queue[0].id == id && !queue[0].answered then [queue[0].(answered := true, reply := reply)] + queue[1..]
    else [queue[0]] + AnsweredOpen(queue[1..], id, reply)
  }

  ghost predicate AllDistinct(queue: seq<Request>) {
    forall i, j :: 0 <= i < j < |queue| ==> queue[i].id != queue[j].id
  }

  lemma {:induction false} NoneOpen(queue: seq<Request>, id: int, reply: Reply)
    requires forall r <- queue :: r.id != id
    ensures AnsweredOpen(queue, id, reply) == queue
  {
    if queue != [] {
      assert queue[0] in queue;
      NoneOpen(queue[1..], id, reply);
    }
  }

  lemma {:induction false} OpenIsFirst(queue: seq<Request>, id: int, reply: Reply)
    ensures AllDistinct(queue) ==> AnsweredOpen(queue, id, reply) == Replied(START.(queue := queue), id, reply).queue
  {
    if queue != [] && AllDistinct(queue) {
      if queue[0].id == id {
        NoneOpen(queue[1..], id, reply);
      } else {
        OpenIsFirst(queue[1..], id, reply);
      }
    }
  }
}
