// The default backend as the object it is: a state shared with its worker, a thread
// handle, and the registry that adopts workers which missed their deadline.

module ExecutionBackend {
  import opened Backend

  class SharedState<T> {
    var started: bool
    var stopRequested: bool
    var tasks: seq<T>
    var worker: Worker<T>
    ghost var accepted: seq<T>
    ghost var executed: seq<T>

    ghost function View(): State<T>
      reads this
    {
      State(started, stopRequested, tasks, worker, accepted, executed)
    }

    constructor ()
      ensures View() == Fresh()
    {
      started, stopRequested, tasks, worker, accepted, executed := false, false, [], NoThread, [], [];
    }

    method HasExited() returns (r: bool)
      ensures r == WorkerExited(View())
    {
      r := worker.NoThread? || worker.Exited?;
    }

    /** One turn of the worker's loop, cut at the points where it holds no lock. */
    method Turn()
      modifies this
      ensures View() == Advance(old(View()))
    {
      match worker
      case NoThread =>
      case Looping =>
        if tasks == [] && stopRequested {
          worker := Leaving;
        } else if tasks != [] {
          worker := Running(tasks[0]);
          tasks := tasks[1..];
        }
      case Running(task) =>
        executed := executed + [task];
        worker := Looping;
      case Leaving =>
        worker := Exited;
      case Exited =>
    }
  }

  class AbandonedThreadRegistry<T> {
    var entries: seq<SharedState<T>>

    constructor ()
      ensures entries == []
    {
      entries := [];
    }

    method Adopt(state: SharedState<T>)
      modifies this
      ensures entries == old(entries) + [state]
    {
      entries := entries + [state];
    }

    /** Joins the workers that have left their loop, and no others. */
    method ReapFinished() returns (left: nat, ghost joined: seq<SharedState<T>>)
      modifies this
      ensures entries == Where(old(entries), false) && joined == Where(old(entries), true)
      ensures left == |entries|
    {
      var kept: seq<SharedState<T>> := [];
      joined := [];
      for i := 0 to |entries|
        invariant entries == old(entries)
        invariant kept == Where(entries[..i], false) && joined == Where(entries[..i], true)
      {
        assert entries[..i + 1][..i] == entries[..i];
        var exited := entries[i].HasExited();
        if exited {
          joined := joined + [entries[i]];
        } else {
          kept := kept + [entries[i]];
        }
      }
      assert entries[..|entries|] == entries;
      entries := kept;
      left := |entries|;
    }
  }

  /** The entries whose worker has, or has not, left its loop, in order. */
  ghost function Where<T>(entries: seq<SharedState<T>>, exited: bool): seq<SharedState<T>>
    reads entries
  {
    if entries == [] then []
    else
      var last := entries[|entries| - 1];
      Where(entries[..|entries| - 1], exited) + (if WorkerExited(last.View()) == exited then [last] else [])
  }

  /** Reaping splits the registry: no entry is lost, none is in both parts. */
  lemma {:induction false} ReapPartitions<T>(entries: seq<SharedState<T>>)
    ensures multiset(Where(entries, false)) + multiset(Where(entries, true)) == multiset(entries)
  {
    if entries != [] {
      var front, last := entries[..|entries| - 1], entries[|entries| - 1];
      ReapPartitions(front);
      assert entries == front + [last];
    }
  }

  lemma {:induction false} ReapJoinsExited<T>(entries: seq<SharedState<T>>, exited: bool)
    ensures forall e :: e in Where(entries, exited) ==> WorkerExited(e.View()) == exited
  {
    if entries != [] {
      ReapJoinsExited(entries[..|entries| - 1], exited);
    }
  }

  class DefaultInstanceExecutionBackend<T> {
    var state: SharedState<T>
    var joinable: bool
    const registry: AbandonedThreadRegistry<T>

    /** Between calls of the controller: a thread exactly while started, and no stop pending. */
    ghost predicate Valid()
      reads this, state, registry
    {
      && Sound(state.View())
      && joinable == state.started && !state.stopRequested
      && state !in registry.entries
    }

    constructor (registry: AbandonedThreadRegistry<T>)
      ensures Valid() && this.registry == registry && fresh(state)
      ensures state.View() == Fresh() && !joinable
    {
      state := new SharedState();
      joinable := false;
      this.registry := registry;
    }

    /** `created` is whether the system could create the thread. */
    method Start(created: bool) returns (ok: bool)
      requires Valid()
      modifies this, state
      ensures Valid() && state == old(state)
      ensures ok == (!old(joinable) && created)
      ensures ok ==> Accepts(state.View())
      ensures state.accepted == old(state.accepted) && state.executed == old(state.executed)
      ensures Unit(state.View(), joinable, false, 0, [], [])
           == AfterStart(Unit(old(state.View()), old(joinable), false, 0, [], []), created)
    {
      if joinable {
        return false;
      }
      if state.started {
        return true;
      }
      state.stopRequested := false;
      if !created {
        state.worker := Exited;
        return false;
      }
      state.worker := Looping;
      joinable := true;
      state.started := true;
      return true;
    }

    /** Accepts exactly while started and not stopping; never drops or reorders. */
    method Execute(task: T) returns (ok: bool)
      requires Valid()
      modifies state
      ensures Valid() && ok == Accepts(old(state.View()))
      ensures state.View() == Enqueue(old(state.View()), task)
    {
      EnqueueSound(state.View(), task);
      if !state.started {
        return false;
      }
      if state.stopRequested {
        return false;
      }
      state.tasks := state.tasks + [task];
      state.accepted := state.accepted + [task];
      ok := true;
    }

    /**
     * The wait lasts as long as the worker takes `turns` steps. It succeeds exactly
     * when they are enough, and then everything accepted has run once, in order;
     * otherwise worker and state go to the registry together and the backend starts
     * over with new ones.
     */
    method Stop(turns: nat) returns (ok: bool)
      requires Valid()
      modifies this, state, registry
      ensures Valid() && !joinable && !state.started
      ensures var s := old(state.View()).(stopRequested := true);
              && ok == (old(!state.started) || Remaining(s) <= turns)
              && (ok ==> state == old(state) && state.tasks == []
                         && state.executed == state.accepted == old(state.accepted)
                         && registry.entries == old(registry.entries))
              && (!ok ==> fresh(state) && state.View() == Fresh()
                          && registry.entries == old(registry.entries) + [old(state)]
                          && old(state).View() == Iterate(s, turns))
    {
      var shared := state;
      if !shared.started && !joinable {
        ExitedDrained(shared.View());
        return true;
      }
      shared.stopRequested := true;
      ghost var s := shared.View();
      var thread := joinable;
      joinable := false;
      if !thread {
        // A started backend has its thread: one controller starts and stops it.
        assert false;
      }
      var exited := shared.HasExited();
      var i := 0;
      while i < turns && !exited
        invariant i <= turns && exited == WorkerExited(shared.View())
        invariant Iterate(shared.View(), turns - i) == Iterate(s, turns)
        invariant Sound(shared.View()) && shared.stopRequested && shared.started
        invariant shared.accepted == old(shared.accepted)
        invariant Remaining(s) == i + Remaining(shared.View())
        invariant state == shared && !joinable && registry.entries == old(registry.entries)
      {
        AdvanceSound(shared.View());
        AdvanceRemaining(shared.View());
        shared.Turn();
        exited := shared.HasExited();
        i := i + 1;
      }
      if !exited {
        registry.Adopt(shared);
        state := new SharedState();
        return false;
      }
      ExitedDrained(shared.View());
      shared.started := false;
      shared.stopRequested := false;
      shared.tasks := [];
      return true;
    }
  }
}
