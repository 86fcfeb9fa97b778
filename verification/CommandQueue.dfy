/** The queue's own code as each thread runs it: what one call does between its
    locks, in the state it finds. Commands.dfy says how the calls interleave. */
module CommandQueue {
  import opened Commands

  class Queue {
    var commands: seq<Command>
    var stopping: bool
    var shutdownRequested: bool
    // What the callbacks saw: the commands run, and those whose cleanup was called.
    var ran: seq<Command>
    var cleaned: seq<Command>

    constructor ()
      ensures commands == ran == cleaned == [] && !stopping && !shutdownRequested
    {
      commands, ran, cleaned := [], [], [];
      stopping, shutdownRequested := false, false;
    }

    method PostCommand(command: Command)
      modifies this`commands, this`cleaned
      ensures old(stopping) ==> commands == old(commands) && cleaned == old(cleaned) + Owning([command])
      ensures !old(stopping) ==> commands == old(commands) + [command] && cleaned == old(cleaned)
    {
      assert Owning([command][1..]) == [];
      if stopping {
        if command.Invoke? && command.owned {
          cleaned := cleaned + [command];
        }
        return;
      }
      commands := commands + [command];
    }

    method RunCommand(command: Command)
      modifies this`shutdownRequested, this`ran
      ensures ran == old(ran) + [command]
      ensures shutdownRequested == (old(shutdownRequested) || command.Shutdown?)
    {
      match command
      case Invoke(_, _) => ran := ran + [command];
      case Plain(_) => ran := ran + [command];
      case Shutdown =>
        ran := ran + [command];
        shutdownRequested := true;
    }

    /** Runs everything queued, first in first out. */
    method DrainCommands()
      modifies this`commands, this`shutdownRequested, this`ran
      ensures commands == [] && ran == old(ran) + old(commands)
      ensures shutdownRequested == (old(shutdownRequested) || Shutdown in old(commands))
    {
      ghost var taken := [];
      while |commands| > 0
        invariant taken + commands == old(commands) && ran == old(ran) + taken
        invariant shutdownRequested == (old(shutdownRequested) || Shutdown in taken)
        decreases |commands|
      {
        var command := commands[0];
        commands := commands[1..];
        taken := taken + [command];
        RunCommand(command);
      }
    }

    /** The stopper's last act: every owned context still queued is cleaned up. */
    method Reclaim()
      modifies this`commands, this`cleaned
      ensures commands == [] && cleaned == old(cleaned) + Owning(old(commands))
    {
      for i := 0 to |commands|
        invariant commands == old(commands)
        invariant cleaned + Owning(commands[i..]) == old(cleaned) + Owning(commands)
      {
        assert commands[i..][0] == commands[i] && commands[i..][1..] == commands[i + 1..];
        if commands[i].Invoke? && commands[i].owned {
          cleaned := cleaned + [commands[i]];
        }
      }
      commands := [];
    }

    /** Stopping, once the worker has left: Shutdown goes in behind everything and
        whatever the worker did not take is cleaned up. */
    method StopAfterWorker()
      modifies this
      ensures stopping && commands == [] && cleaned == old(cleaned) + Owning(old(commands))
      ensures ran == old(ran)
    {
      stopping := true;
      commands := commands + [Shutdown];
      OwningIgnoresShutdown(old(commands));
      Reclaim();
    }
  }

  lemma {:induction false} OwningIgnoresShutdown(commands: seq<Command>)
    ensures Owning(commands + [Shutdown]) == Owning(commands)
  {
    if commands == [] {
      assert ([] + [Shutdown])[1..] == [];
    } else {
      OwningIgnoresShutdown(commands[1..]);
      assert (commands + [Shutdown])[1..] == commands[1..] + [Shutdown];
    }
  }

  // --- The calls and the steps --------------------------------------------------------

  function AdvancedAlone(s: State, slot: nat, actions: nat): State
    decreases actions
  {
    if actions == 0 then s else AdvancedAlone(Next(s, Advance(slot)), slot, actions - 1)
  }

  /** What a call nobody interrupts does to the queue is what its steps do, one after
      the other: it cleans up when stopping and queues otherwise, and lets the lock go. */
  lemma PostIsSteps(s: State, slot: nat, command: Command)
    requires slot < |s.posts| && s.posts[slot] == Entered(command) && s.lock.Nobody?
    ensures var s' := AdvancedAlone(s, slot, if s.stopping then 2 else 4);
            && s'.posts == s.posts[slot := Finished] && s'.lock.Nobody?
            && (if s.stopping then s'.queue == s.queue && s'.cleaned == s.cleaned + Owning([command])
                else s'.queue == s.queue + [command] && s'.cleaned == s.cleaned)
  {
    var one := Next(s, Advance(slot));
    var two := Next(one, Advance(slot));
    if s.stopping {
      assert AdvancedAlone(s, slot, 2) == AdvancedAlone(one, slot, 1) == AdvancedAlone(two, slot, 0);
    } else {
      var three := Next(two, Advance(slot));
      var four := Next(three, Advance(slot));
      assert AdvancedAlone(s, slot, 4) == AdvancedAlone(one, slot, 3) == AdvancedAlone(two, slot, 2);
      assert AdvancedAlone(two, slot, 2) == AdvancedAlone(three, slot, 1) == AdvancedAlone(four, slot, 0);
    }
  }

  function StoppedAlone(s: State, actions: nat): State
    decreases actions
  {
    if actions == 0 then s else StoppedAlone(Next(s, Stop), actions - 1)
  }

  /** What stopping behind a worker that has left does is what the stopper's six steps
      do, the last of them being what Reclaim does. */
  lemma StopIsSteps(s: State)
    requires s.stopper.NotYet? && s.worker.Exited? && s.lock.Nobody?
    ensures var s' := StoppedAlone(s, 6);
            && s'.stopper.Returned? && s'.lock.Nobody? && s'.stopping
            && s'.queue == [] && s'.cleaned == s.cleaned + Owning(s.queue) && s'.done == s.done
  {
    var wanting := Next(s, Stop);
    var pushing := Next(wanting, Stop);
    var joining := Next(pushing, Stop);
    var joined := Next(joining, Stop);
    var reclaiming := Next(joined, Stop);
    var returned := Next(reclaiming, Stop);
    assert StoppedAlone(s, 6) == StoppedAlone(wanting, 5) == StoppedAlone(pushing, 4) == StoppedAlone(joining, 3);
    assert StoppedAlone(joining, 3) == StoppedAlone(joined, 2) == StoppedAlone(reclaiming, 1) ==
        StoppedAlone(returned, 0);
    OwningIgnoresShutdown(s.queue);
    assert reclaiming.queue == s.queue + [Shutdown];
  }
}
