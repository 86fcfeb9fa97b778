/** The WebKit thread's command queue, step by step: any number of threads
    posting, one worker draining, one thread stopping it. Every atomic action of
    the source is a step of its own, so a run is any interleaving of them. */
module Commands {
  import opened Sequences

  /** What is posted: an invoke with a context, owned by the queue or not, some
      other command, and the one that ends the worker. */
  datatype Command = Invoke(context: nat, owned: bool) | Plain(tag: int) | Shutdown

  /** Where a call of postCommand is. The lock is held from Locked to the end. */
  datatype Post =
    | Entered(command: Command)    // before the first look at the stopping flag
    | Waiting(command: Command)    // saw it clear, wants the lock
    | Locked(command: Command)     // holds the lock, before the second look
    | Approved(command: Command)   // saw it clear again, about to push
    | Denied(command: Command)     // saw it set under the lock, about to clean up
    | Refused(command: Command)    // saw it set without the lock, about to clean up
    | Finished

  datatype Worker =
    | Starting
    | LoopTop
    | Draining                     // wants the lock
    | Taking                       // holds the lock
    | Running(command: Command)
    | Drained
    | Exited

  datatype Stopper =
    | NotYet
    | Wanting                      // the flag is set; wants the lock
    | Pushing                      // holds the lock
    | Joining                      // waits for the worker
    | Joined                       // wants the lock
    | Reclaiming                   // holds the lock
    | Returned

  datatype Holder = Nobody | ByPost(slot: nat) | ByWorker | ByStopper

  /** The shared state, and what has been observed of it from outside: the commands
      in the order they were pushed, taken off, finished and cleaned up, and the
      contexts handed in. */
  datatype State = State(
    queue: seq<Command>, stopping: bool, shutdownRequested: bool, lock: Holder,
    posts: seq<Post>, worker: Worker, stopper: Stopper,
    pushed: seq<Command>, taken: seq<Command>, done: seq<Command>, cleaned: seq<Command>, posted: set<nat>)

  const START := State([], false, false, Nobody, [], Starting, NotYet, [], [], [], [], {})

  /** Whether a command makes the queue answer for a context. */
  predicate Owns(command: Command, context: nat) {
    command == Invoke(context, true)
  }

  /** The commands of a list whose cleanup is called when the list is given up. */
  function Owning(commands: seq<Command>): seq<Command> {
    if commands == [] then []
    else (if commands[0].Invoke? && commands[0].owned then [commands[0]] else []) + Owning(commands[1..])
  }

  // --- Steps --------------------------------------------------------------------------

  datatype Step =
    | Begin(command: Command)      // some thread calls postCommand
    | Advance(slot: nat)           // one action of one such call
    | Work                         // one action of the worker
    | Fail                         // the worker could not start its engine
    | Stop                         // one action of the stopping thread

  function Begun(s: State, command: Command): State {
    if command.Shutdown? || (command.Invoke? && command.context in s.posted) then s
    else
      s.(posts := s.posts + [Entered(command)],
         posted := if command.Invoke? && command.owned then s.posted + {command.context} else s.posted)
  }

  function Advanced(s: State, slot: nat): State
    requires slot < |s.posts|
  {
    var post := s.posts[slot];
    match post
    case Entered(c) => s.(posts := s.posts[slot := if s.stopping then Refused(c) else Waiting(c)])
    case Waiting(c) =>
      if s.lock.Nobody? then s.(posts := s.posts[slot := Locked(c)], lock := ByPost(slot)) else s
    case Locked(c) => s.(posts := s.posts[slot := if s.stopping then Denied(c) else Approved(c)])
    case Approved(c) =>
      s.(posts := s.posts[slot := Finished], lock := Nobody, queue := s.queue + [c], pushed := s.pushed + [c])
    case Denied(c) => s.(posts := s.posts[slot := Finished], lock := Nobody, cleaned := s.cleaned + Owning([c]))
    case Refused(c) => s.(posts := s.posts[slot := Finished], cleaned := s.cleaned + Owning([c]))
    case Finished => s
  }

  function Worked(s: State): State {
    match s.worker
    case Starting => s.(worker := LoopTop)
    case LoopTop => s.(worker := if s.shutdownRequested then Exited else Draining)
    case Draining => if s.lock.Nobody? then s.(worker := Taking, lock := ByWorker) else s
    case Taking =>
      if s.queue == [] then s.(worker := Drained, lock := Nobody)
      else s.(worker := Running(s.queue[0]), lock := Nobody, queue := s.queue[1..], taken := s.taken + [s.queue[0]])
    case Running(c) =>
      s.(worker := Draining, done := s.done + [c],
         shutdownRequested := s.shutdownRequested || c.Shutdown?)
    case Drained => s.(worker := if s.shutdownRequested then Exited else LoopTop)
    case Exited => s
  }

  function Stopped(s: State): State {
    match s.stopper
    case NotYet => s.(stopper := Wanting, stopping := true)
    case Wanting => if s.lock.Nobody? then s.(stopper := Pushing, lock := ByStopper) else s
    case Pushing =>
      s.(stopper := Joining, lock := Nobody, queue := s.queue + [Shutdown], pushed := s.pushed + [Shutdown])
    case Joining => if s.worker.Exited? then s.(stopper := Joined) else s
    case Joined => if s.lock.Nobody? then s.(stopper := Reclaiming, lock := ByStopper) else s
    case Reclaiming => s.(stopper := Returned, lock := Nobody, queue := [], cleaned := s.cleaned + Owning(s.queue))
    case Returned => s
  }

  function Next(s: State, step: Step): State {
    match step
    case Begin(command) => Begun(s, command)
    case Advance(slot) => if slot < |s.posts| then Advanced(s, slot) else s
    case Work => Worked(s)
    case Fail => if s.worker.Starting? then s.(worker := Exited) else s
    case Stop => Stopped(s)
  }

  function Run(steps: seq<Step>): State {
    if steps == [] then START else Next(Run(steps[..|steps| - 1]), steps[|steps| - 1])
  }

  // --- Invariants ---------------------------------------------------------------------

  predicate HoldsLock(post: Post) {
    post.Locked? || post.Approved? || post.Denied?
  }

  function Count(commands: seq<Command>, context: nat): nat {
    if commands == [] then 0 else (if Owns(commands[0], context) then 1 else 0) + Count(commands[1..], context)
  }

  function Hand(post: Post, context: nat): nat {
    if !post.Finished? && Owns(post.command, context) then 1 else 0
  }

  /** How many calls still have a context in their hands. */
  function Hands(posts: seq<Post>, context: nat): nat {
    if posts == [] then 0 else Hands(posts[..|posts| - 1], context) + Hand(posts[|posts| - 1], context)
  }

  function Current(s: State): seq<Command> {
    if s.worker.Running? then [s.worker.command] else []
  }

  /** Whoever acts under the lock is the one that holds it. */
  ghost predicate Exclusive(s: State) {
    && (forall i {:trigger s.posts[i]} :: 0 <= i < |s.posts| ==> (HoldsLock(s.posts[i]) <==> s.lock == ByPost(i)))
    && (s.lock.ByPost? ==> s.lock.slot < |s.posts|)
    && (s.worker.Taking? <==> s.lock == ByWorker)
    && (s.stopper.Pushing? || s.stopper.Reclaiming? <==> s.lock == ByStopper)
  }

  /** Once the stopper has had the lock, no call can push any more. */
  ghost predicate Sealed(s: State) {
    && (!s.stopper.NotYet? <==> s.stopping)
    && (!s.stopper.NotYet? && !s.stopper.Wanting? ==>
          forall i {:trigger s.posts[i]} :: 0 <= i < |s.posts| ==> !s.posts[i].Approved?)
    && (forall i {:trigger s.posts[i]} :: 0 <= i < |s.posts| ==> s.posts[i].Finished? || !s.posts[i].command.Shutdown?)
  }

  predicate HasShutdown(stopper: Stopper) {
    !stopper.NotYet? && !stopper.Wanting? && !stopper.Pushing?
  }

  /** Nothing lies behind Shutdown. */
  ghost predicate ShutdownIsLast(commands: seq<Command>) {
    forall i :: 0 <= i < |commands| - 1 ==> !commands[i].Shutdown?
  }

  /** Commands are taken and finished in the order they were pushed. */
  ghost predicate Fifo(s: State) {
    && (if s.stopper.Returned? then s.queue == [] && s.taken <= s.pushed else s.pushed == s.taken + s.queue)
    && s.taken == s.done + Current(s)
  }

  ghost predicate EndsInShutdown(commands: seq<Command>) {
    commands != [] && commands[|commands| - 1].Shutdown?
  }

  ghost predicate Ending(s: State) {
    && ShutdownIsLast(s.pushed)
    && (HasShutdown(s.stopper) <==> EndsInShutdown(s.pushed))
    && (s.shutdownRequested <==> EndsInShutdown(s.done))
    && (s.stopper.Joined? || s.stopper.Reclaiming? || s.stopper.Returned? ==> s.worker.Exited?)
  }

  /** How often a context turns up: in a caller's hands, in the queue, with the
      worker, among those run and among those cleaned up. */
  function Tally(s: State, context: nat): nat {
    Hands(s.posts, context) + Count(s.queue, context) + Count(Current(s), context)
    + Count(s.done, context) + Count(s.cleaned, context)
  }

  /** Every context handed in is in exactly one place. */
  ghost predicate Conserved(s: State) {
    forall context :: Tally(s, context) == if context in s.posted then 1 else 0
  }

  ghost predicate Inv(s: State) {
    Exclusive(s) && Sealed(s) && Fifo(s) && Ending(s) && Conserved(s)
  }

  // --- Counting -------------------------------------------------------------------------

  lemma {:induction false} CountConcat(front: seq<Command>, back: seq<Command>, context: nat)
    ensures Count(front + back, context) == Count(front, context) + Count(back, context)
  {
    if front == [] {
      assert front + back == back;
    } else {
      CountConcat(front[1..], back, context);
      assert (front + back)[1..] == front[1..] + back;
    }
  }

  lemma CountPlus(commands: seq<Command>, command: Command, context: nat)
    ensures Count(commands + [command], context) == Count(commands, context) + Count([command], context)
    ensures Count([command], context) == if Owns(command, context) then 1 else 0
  {
    CountConcat(commands, [command], context);
    assert Count([command][1..], context) == 0;
  }

  lemma {:induction false} CountOwning(commands: seq<Command>, context: nat)
    ensures Count(Owning(commands), context) == Count(commands, context)
  {
    if commands != [] {
      CountOwning(commands[1..], context);
      var head := if commands[0].Invoke? && commands[0].owned then [commands[0]] else [];
      CountConcat(head, Owning(commands[1..]), context);
      CountPlus([], commands[0], context);
    }
  }

  lemma {:induction false} HandChanges(posts: seq<Post>, slot: nat, post: Post, context: nat)
    requires slot < |posts|
    ensures Hands(posts[slot := post], context) ==
        Hands(posts, context) - Hand(posts[slot], context) + Hand(post, context)
  {
    var n := |posts| - 1;
    if slot < n {
      HandChanges(posts[..n], slot, post, context);
      assert posts[slot := post][..n] == posts[..n][slot := post];
    } else {
      assert posts[slot := post][..n] == posts[..n];
    }
  }

  lemma HandGrows(posts: seq<Post>, post: Post, context: nat)
    ensures Hands(posts + [post], context) == Hands(posts, context) + Hand(post, context)
  {
    assert (posts + [post])[..|posts|] == posts;
  }

  // --- Every step keeps them ------------------------------------------------------------

  lemma ExclusiveKeptByPost(s: State, slot: nat)
    requires Exclusive(s) && slot < |s.posts|
    ensures Exclusive(Advanced(s, slot))
  {
    assert HoldsLock(s.posts[slot]) <==> s.lock == ByPost(slot);
  }

  lemma ExclusiveKeptByBegin(s: State, command: Command)
    requires Exclusive(s)
    ensures Exclusive(Begun(s, command))
  {
  }

  lemma ExclusiveKeptByWorker(s: State)
    requires Exclusive(s)
    ensures Exclusive(Worked(s))
  {
    assert Worked(s).posts == s.posts;
  }

  lemma ExclusiveKeptByStopper(s: State)
    requires Exclusive(s)
    ensures Exclusive(Stopped(s))
  {
    assert Stopped(s).posts == s.posts;
  }

  lemma SealedKeptByPost(s: State, slot: nat)
    requires Exclusive(s) && Sealed(s) && slot < |s.posts|
    ensures Sealed(Advanced(s, slot))
  {
    assert s.posts[slot].Finished? || !s.posts[slot].command.Shutdown?;
  }

  lemma SealedKeptByBegin(s: State, command: Command)
    requires Sealed(s)
    ensures Sealed(Begun(s, command))
  {
  }

  lemma SealedKeptByWorker(s: State)
    requires Sealed(s)
    ensures Sealed(Worked(s))
  {
    assert Worked(s).posts == s.posts && Worked(s).stopper == s.stopper;
  }

  /** The stopper gets the lock only while no call holds it, and so none is approved. */
  lemma SealedKeptByStopper(s: State)
    requires Exclusive(s) && Sealed(s)
    ensures Sealed(Stopped(s))
  {
    assert Stopped(s).posts == s.posts;
  }

  lemma FifoKeptByPost(s: State, slot: nat)
    requires Exclusive(s) && Sealed(s) && Fifo(s) && slot < |s.posts|
    ensures Fifo(Advanced(s, slot))
  {
    if s.posts[slot].Approved? {
      assert !s.stopper.Returned?;
      assert s.pushed + [s.posts[slot].command] == s.taken + (s.queue + [s.posts[slot].command]);
    }
  }

  lemma FifoKeptByWorker(s: State)
    requires Fifo(s) && Ending(s)
    ensures Fifo(Worked(s))
  {
    if s.worker.Taking? && s.queue != [] {
      FifoKeptByTaking(s);
    } else if s.worker.Running? {
      assert s.taken == (s.done + [s.worker.command]) + [];
    }
  }

  lemma FifoKeptByTaking(s: State)
    requires Fifo(s) && s.worker.Taking? && s.queue != []
    ensures Fifo(Worked(s))
  {
    assert s.done + [] == s.done;
    assert s.queue == [s.queue[0]] + s.queue[1..];
    Associates(s.taken, [s.queue[0]], s.queue[1..]);
  }

  lemma FifoKeptByStopper(s: State)
    requires Fifo(s)
    ensures Fifo(Stopped(s))
  {
    if s.stopper.Pushing? {
      assert s.pushed + [Shutdown] == s.taken + (s.queue + [Shutdown]);
    }
  }

  lemma EndingKeptByPost(s: State, slot: nat)
    requires Exclusive(s) && Sealed(s) && Ending(s) && slot < |s.posts|
    ensures Ending(Advanced(s, slot))
  {
    if s.posts[slot].Approved? {
      assert !HasShutdown(s.stopper) && !s.posts[slot].command.Shutdown?;
    }
  }

  /** Nothing is run after Shutdown: nothing was pushed behind it. */
  lemma NothingRunsAfterShutdown(s: State)
    requires Fifo(s) && Ending(s) && s.worker.Running?
    ensures !s.shutdownRequested
  {
    var n := |s.done|;
    assert n > 0 ==> s.taken[n - 1] == s.done[n - 1] && s.pushed[n - 1] == s.taken[n - 1];
  }

  lemma EndingKeptByWorker(s: State)
    requires Fifo(s) && Ending(s)
    ensures Ending(Worked(s))
  {
    assert Worked(s).pushed == s.pushed && Worked(s).stopper == s.stopper;
    if s.worker.Running? {
      NothingRunsAfterShutdown(s);
      assert EndsInShutdown(s.done + [s.worker.command]) <==> s.worker.command.Shutdown?;
    }
  }

  lemma EndingKeptByStopper(s: State)
    requires Fifo(s) && Ending(s)
    ensures Ending(Stopped(s))
  {
    if s.stopper.Pushing? {
      assert ShutdownIsLast(s.pushed + [Shutdown]);
    }
  }

  lemma TallyKeptByPost(s: State, slot: nat, context: nat)
    requires slot < |s.posts|
    ensures Tally(Advanced(s, slot), context) == Tally(s, context)
  {
    var s' := Advanced(s, slot);
    HandChanges(s.posts, slot, s'.posts[slot], context);
    assert s'.posts == s.posts[slot := s'.posts[slot]];
    if !s.posts[slot].Finished? {
      var c := s.posts[slot].command;
      CountPlus(s.queue, c, context);
      CountConcat(s.cleaned, Owning([c]), context);
      CountOwning([c], context);
    }
  }

  lemma TallyKeptByWorker(s: State, context: nat)
    ensures Tally(Worked(s), context) == Tally(s, context)
  {
    if s.worker.Taking? && s.queue != [] {
      CountPlus([], s.queue[0], context);
    } else if s.worker.Running? {
      CountPlus(s.done, s.worker.command, context);
    }
  }

  lemma TallyKeptByStopper(s: State, context: nat)
    ensures Tally(Stopped(s), context) == Tally(s, context)
  {
    if s.stopper.Pushing? {
      CountPlus(s.queue, Shutdown, context);
    } else if s.stopper.Reclaiming? {
      CountConcat(s.cleaned, Owning(s.queue), context);
      CountOwning(s.queue, context);
    }
  }

  lemma TallyKeptByBegin(s: State, command: Command, context: nat)
    ensures var s' := Begun(s, command);
            && Tally(s', context) == Tally(s, context) + (if context in s'.posted && context !in s.posted then 1 else 0)
            && (context in s.posted ==> context in s'.posted)
  {
    var s' := Begun(s, command);
    assert s'.queue == s.queue && s'.worker == s.worker && s'.done == s.done && s'.cleaned == s.cleaned;
    HandGrows(s.posts, Entered(command), context);
  }

  lemma TallyKept(s: State, step: Step, context: nat)
    ensures Tally(Next(s, step), context)
         == Tally(s, context) + (if context in Next(s, step).posted && context !in s.posted then 1 else 0)
    ensures context in s.posted ==> context in Next(s, step).posted
  {
    var s' := Next(s, step);
    match step
    case Begin(command) => TallyKeptByBegin(s, command, context);
    case Advance(slot) =>
      assert s'.posted == s.posted;
      if slot < |s.posts| {
        TallyKeptByPost(s, slot, context);
      }
    case Work =>
      assert s'.posted == s.posted;
      TallyKeptByWorker(s, context);
    case Fail => assert s'.posted == s.posted;
    case Stop =>
      assert s'.posted == s.posted;
      TallyKeptByStopper(s, context);
  }

  lemma ConservedKept(s: State, step: Step)
    requires Conserved(s)
    ensures Conserved(Next(s, step))
  {
    forall context: nat
      ensures Tally(Next(s, step), context) == if context in Next(s, step).posted then 1 else 0
    {
      assert Tally(s, context) == if context in s.posted then 1 else 0;
      TallyKept(s, step, context);
    }
  }

  lemma StepKeepsInv(s: State, step: Step)
    requires Inv(s)
    ensures Inv(Next(s, step))
  {
    ConservedKept(s, step);
    match step
    case Begin(command) =>
      ExclusiveKeptByBegin(s, command);
      SealedKeptByBegin(s, command);
    case Advance(slot) =>
      if slot < |s.posts| {
        ExclusiveKeptByPost(s, slot);
        SealedKeptByPost(s, slot);
        FifoKeptByPost(s, slot);
        EndingKeptByPost(s, slot);
      }
    case Work =>
      ExclusiveKeptByWorker(s);
      SealedKeptByWorker(s);
      FifoKeptByWorker(s);
      EndingKeptByWorker(s);
    case Fail =>
    case Stop =>
      ExclusiveKeptByStopper(s);
      SealedKeptByStopper(s);
      FifoKeptByStopper(s);
      EndingKeptByStopper(s);
  }

  lemma {:induction false} EveryRunKeepsInv(steps: seq<Step>)
    ensures Inv(Run(steps))
  {
    if steps != [] {
      EveryRunKeepsInv(steps[..|steps| - 1]);
      StepKeepsInv(Run(steps[..|steps| - 1]), steps[|steps| - 1]);
    }
  }

  // --- What a run promises --------------------------------------------------------------

  /** How often a context was consumed: its callback ran or its cleanup did. */
  function Consumed(s: State, context: nat): nat {
    Count(s.done, context) + Count(s.cleaned, context)
  }

  lemma {:induction false} CountOfAll(posts: seq<Post>, context: nat)
    requires forall i {:trigger posts[i]} :: 0 <= i < |posts| ==> Hand(posts[i], context) == 0
    ensures Hands(posts, context) == 0
  {
    if posts != [] {
      CountOfAll(posts[..|posts| - 1], context);
    }
  }

  /** At every moment of every run: commands ran in the order they were pushed,
      nothing was pushed behind Shutdown, and no context was consumed twice or
      both ways. */
  lemma EveryRunIsOrderly(steps: seq<Step>)
    ensures var s := Run(steps);
            && s.done <= s.pushed && ShutdownIsLast(s.pushed)
            && forall context :: Consumed(s, context) <= 1
  {
    EveryRunKeepsInv(steps);
    var s := Run(steps);
    forall context: nat
      ensures Consumed(s, context) <= 1
    {
      assert Tally(s, context) <= 1;
    }
  }

  /** Once stopping has returned, every context handed in was consumed exactly once,
      unless its caller still holds it, and then it was not consumed at all. */
  lemma StoppedConsumesAll(steps: seq<Step>, context: nat)
    requires Run(steps).stopper.Returned? && context in Run(steps).posted
    ensures Run(steps).queue == [] && Run(steps).worker.Exited?
    ensures Consumed(Run(steps), context) + Hands(Run(steps).posts, context) == 1
    ensures (forall i {:trigger Run(steps).posts[i]} ::
               0 <= i < |Run(steps).posts| ==> Run(steps).posts[i].Finished?) ==>
              Consumed(Run(steps), context) == 1
  {
    EveryRunKeepsInv(steps);
    var s := Run(steps);
    assert Tally(s, context) == 1;
    if forall i {:trigger s.posts[i]} :: 0 <= i < |s.posts| ==> s.posts[i].Finished? {
      CountOfAll(s.posts, context);
    }
  }

  /** The contexts any call of a run handed over to the queue. */
  function HandedIn(steps: seq<Step>): set<nat> {
    if steps == [] then {}
    else
      HandedIn(steps[..|steps| - 1]) +
      match steps[|steps| - 1]
      case Begin(Invoke(context, true)) => {context}
      case _ => {}
  }

  lemma {:induction false} PostedWereHandedIn(steps: seq<Step>)
    ensures Run(steps).posted == HandedIn(steps)
  {
    if steps != [] {
      PostedWereHandedIn(steps[..|steps| - 1]);
      assert Next(Run(steps[..|steps| - 1]), steps[|steps| - 1]).posted == HandedIn(steps);
    }
  }

  /** So no context a call handed over is lost, whatever the threads do: at every moment it
      is with its caller, queued, with the worker, run, or cleaned up, and only one of them;
      and once stopping has returned it is run or cleaned up, or still with its caller. */
  lemma NothingHandedInIsLost(steps: seq<Step>, context: nat)
    requires context in HandedIn(steps)
    ensures var s := Run(steps);
            Hands(s.posts, context) + Count(s.queue, context) + Count(Current(s), context) + Consumed(s, context) == 1
    ensures Run(steps).stopper.Returned? ==> Hands(Run(steps).posts, context) + Consumed(Run(steps), context) == 1
  {
    PostedWereHandedIn(steps);
    EveryRunKeepsInv(steps);
    assert Tally(Run(steps), context) == 1;
    if Run(steps).stopper.Returned? {
      StoppedConsumesAll(steps, context);
    }
  }

  /** A call that outlives the stop cannot push any more: it can only clean up. */
  lemma LateCallsCleanUp(steps: seq<Step>, slot: nat)
    requires Run(steps).stopper.Returned? && slot < |Run(steps).posts|
    ensures Advanced(Run(steps), slot).pushed == Run(steps).pushed
    ensures !Run(steps).posts[slot].Approved?
  {
    EveryRunKeepsInv(steps);
  }

  /** A worker that left of its own accord left nothing behind for the stopper to
      clean up. */
  lemma NormalExitLeavesNothing(steps: seq<Step>)
    requires Run(steps).shutdownRequested
    ensures Run(steps).queue == [] && Run(steps).done == Run(steps).pushed
  {
    EveryRunKeepsInv(steps);
    var s := Run(steps);
    var n := |s.done|;
    assert s.pushed[n - 1] == s.done[n - 1];
  }

  /** What the worker does while nobody else acts. */
  function WorkAlone(s: State, actions: nat): State
    decreases actions
  {
    if actions == 0 then s else WorkAlone(Worked(s), actions - 1)
  }

  /** Left alone, a drain ends, and has run the whole queue in order by then. */
  lemma {:induction false} DrainEnds(s: State)
    requires s.worker.Draining? && s.lock.Nobody?
    ensures var s' := WorkAlone(s, 3 * |s.queue| + 2);
            && s'.worker.Drained? && s'.lock.Nobody? && s'.queue == [] && s'.done == s.done + s.queue
            && s'.cleaned == s.cleaned && s'.stopping == s.stopping && s'.posts == s.posts
            && (s'.shutdownRequested <==> s.shutdownRequested || Shutdown in s.queue)
    decreases |s.queue|
  {
    var one := Worked(s);
    var two := Worked(one);
    if s.queue == [] {
      assert WorkAlone(s, 2) == WorkAlone(one, 1) == WorkAlone(two, 0);
    } else {
      var three := Worked(two);
      var n := 3 * |s.queue[1..]| + 2;
      assert WorkAlone(s, n + 3) == WorkAlone(one, n + 2) == WorkAlone(two, n + 1) == WorkAlone(three, n);
      DrainEnds(three);
      assert s.queue == [s.queue[0]] + s.queue[1..];
    }
  }
}
