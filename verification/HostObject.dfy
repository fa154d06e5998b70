// The host as an object: the instance map, the deferred results and the dispatcher.

module HostObject {
  import opened Bytes
  import opened Frame
  import opened Outbox
  import opened Dispatcher
  import B = Backend
  import opened ExecutionBackend
  import H = Host

  // A result an adapter submitted: the id of its command and the printed reply.
  datatype DeferredResult = DeferredResult(id: nat, reply: bytes)

  function AsResponse(r: DeferredResult): OutboundFrame {
    OutboundFrame(Response, false, r.id, r.reply)
  }

  /** What draining submits: one response per result with an id, in order. */
  function Submissions(results: seq<DeferredResult>, started: bool): seq<Action> {
    if results == [] then []
    else
      var front, last := results[..|results| - 1], results[|results| - 1];
      Submissions(front, started) + (if last.id == 0 then [] else [Submit(AsResponse(last), started)])
  }

  predicate AllIdsFit(results: seq<DeferredResult>) {
    forall k :: 0 <= k < |results| ==> results[k].id < Bound(8)
  }

  /** The reply of every drained result is in the send queue, in order, behind what was there. */
  lemma {:induction false} DrainedInOrder(b: Box, results: seq<DeferredResult>)
    requires Inv(b) && AllIdsFit(results)
    requires forall k :: 0 <= k < |results| ==> results[k].id != 0 && Acceptable(AsResponse(results[k]))
    ensures Inv(Run(b, Submissions(results, true)))
    ensures Responses(Run(b, Submissions(results, true)).queue)
         == Responses(b.queue) + seq(|results|, k requires 0 <= k < |results| => AsResponse(results[k]))
  {
    hide Inv, Responses, Acceptable;
    if results == [] {
    } else {
      var front, last := results[..|results| - 1], results[|results| - 1];
      DrainedInOrder(b, front);
      var d := Run(b, Submissions(front, true));
      RunMore(b, Submissions(front, true), Submit(AsResponse(last), true));
      BuiltResponse(last);
      StepKeeps(d, Submit(AsResponse(last), true));
      RefinesFifo(d, Submit(AsResponse(last), true));
      assert seq(|results|, k requires 0 <= k < |results| => AsResponse(results[k]))
          == seq(|front|, k requires 0 <= k < |front| => AsResponse(front[k])) + [AsResponse(last)];
    }
  }

  /** Draining submits the results that have an id, each as its response, and drops the others. */
  lemma {:induction false} OnlyWithId(results: seq<DeferredResult>, started: bool)
    ensures forall k :: 0 <= k < |Submissions(results, started)| ==>
              var a := Submissions(results, started)[k];
              a.Submit? && a.f.correlationId != 0 && a.f.kind.Response? && a.sawStarted == started
    ensures (forall k :: 0 <= k < |results| ==> results[k].id == 0) ==> Submissions(results, started) == []
    decreases |results|
  {
    if results != [] {
      OnlyWithId(results[..|results| - 1], started);
    }
  }

  lemma BuiltResponse(r: DeferredResult)
    requires r.id < Bound(8)
    ensures Built(AsResponse(r))
  {
  }

  lemma SubmissionsStep(b: Box, results: seq<DeferredResult>, i: nat, started: bool)
    requires i < |results| && AllIdsFit(results)
    ensures results[i].id < Bound(8)
    ensures Run(b, Submissions(results[..i + 1], started))
         == (var d := Run(b, Submissions(results[..i], started));
             if results[i].id == 0 then d else Step(d, Submit(AsResponse(results[i]), started)))
  {
    assert results[..i + 1][..i] == results[..i];
    hide Run, Step;
    if results[i].id != 0 {
      RunMore(b, Submissions(results[..i], started), Submit(AsResponse(results[i]), started));
    } else {
      assert Submissions(results[..i], started) + [] == Submissions(results[..i], started);
    }
  }

  lemma NothingSubmitted(b: Box, started: bool)
    ensures forall results: seq<DeferredResult> :: Run(b, Submissions(results[..0], started)) == b
  {
  }

  class InstanceRuntime {
    const execution: DefaultInstanceExecutionBackend<H.Task>

    constructor (execution: DefaultInstanceExecutionBackend<H.Task>)
      ensures this.execution == execution
    {
      this.execution := execution;
    }
  }

  class SidecarHost {
    var instances: map<H.ExternalId, InstanceRuntime>
    var resultQueue: seq<DeferredResult>
    const dispatcher: SidecarDispatcher
    const registry: AbandonedThreadRegistry<H.Task>

    /** Registered instances run. */
    ghost predicate AllLive()
      reads this, registry
      reads set id | id in instances :: instances[id].execution
      reads set id | id in instances :: instances[id].execution.state
    {
      forall id <- instances :: instances[id].execution.registry == registry && Live(instances[id])
    }

    /** Each instance has a backend and a state of its own. */
    ghost predicate Separate()
      reads this
      reads set id | id in instances :: instances[id].execution
    {
      forall a <- instances, b <- instances :: a != b ==>
        instances[a].execution != instances[b].execution
        && instances[a].execution.state != instances[b].execution.state
    }

    ghost predicate Valid()
      reads this, dispatcher, dispatcher.runtime, registry
      reads set id | id in instances :: instances[id].execution
      reads set id | id in instances :: instances[id].execution.state
    {
      dispatcher.Valid() && AllIdsFit(resultQueue) && AllLive() && Separate()
    }

    constructor (dispatcher: SidecarDispatcher, registry: AbandonedThreadRegistry<H.Task>)
      requires dispatcher.Valid()
      ensures Valid() && this.dispatcher == dispatcher && this.registry == registry
      ensures instances == map[] && resultQueue == []
    {
      this.dispatcher := dispatcher;
      this.registry := registry;
      instances, resultQueue := map[], [];
    }

    method QueueDeferredResult(result: DeferredResult)
      requires Valid() && result.id < Bound(8)
      modifies this`resultQueue
      ensures Valid() && resultQueue == old(resultQueue) + [result]
    {
      hide B.Sound, B.Accepts, Inv, AllQueueable;
      resultQueue := resultQueue + [result];
    }

    /** Hands every queued result to the dispatcher, in order; results without an id are dropped. */
    method DrainDeferredResults()
      requires Valid()
      modifies this`resultQueue, dispatcher`sendQueue, dispatcher`droppedOutboundFrames, dispatcher`box
      ensures Valid() && resultQueue == []
      ensures dispatcher.box == Run(old(dispatcher.box), Submissions(old(resultQueue), dispatcher.started))
    {
      hide Submissions, Run, Step, Built, Inv, Acceptable, Admit;
      var local := resultQueue;
      resultQueue := [];
      ghost var before := dispatcher.box;
      NothingSubmitted(before, dispatcher.started);
      for i := 0 to |local|
        invariant Valid() && resultQueue == [] && AllIdsFit(local)
        invariant dispatcher.box == Run(before, Submissions(local[..i], dispatcher.started))
      {
        SubmissionsStep(before, local, i, dispatcher.started);
        SendDeferredResult(local[i]);
      }
      assert local[..|local|] == local;
    }

    method SendDeferredResult(result: DeferredResult)
      requires Valid() && result.id < Bound(8)
      modifies dispatcher`sendQueue, dispatcher`droppedOutboundFrames, dispatcher`box
      ensures Valid()
      ensures dispatcher.box == (if result.id == 0 then old(dispatcher.box)
                                 else Step(old(dispatcher.box), Submit(AsResponse(result), dispatcher.started)))
    {
      hide Built, Inv, Step, Acceptable, Admit;
      if result.id == 0 {
        return;
      }
      BuiltResponse(result);
      var sent := dispatcher.QueueOutboundFrame(AsResponse(result));
    }

    /** The backend of a registered instance runs. */
    ghost predicate Live(runtime: InstanceRuntime)
      reads runtime.execution, runtime.execution.state, runtime.execution.registry
    {
      runtime.execution.Valid() && B.Accepts(runtime.execution.state.View())
    }

    /** As many instances as the descriptor allows; zero means any number. */
    predicate AtLimit(maxInstances: int)
      reads this
    {
      maxInstances > 0 && |instances| >= maxInstances
    }

    /**
     * Registers a new instance whose start() came back true in time. One that was made
     * and not registered is handed to destroyInstance, also when its worker has not left
     * within `stopTurns` and the registry takes that over.
     */
    method CreateInstance(id: H.ExternalId, maxInstances: int, made: bool, backed: bool, created: bool,
                          startTurns: nat, startOk: bool, stopTurns: nat)
      returns (ok: bool, destroyed: bool)
      requires Valid()
      modifies this`instances, registry
      ensures Valid() && resultQueue == old(resultQueue)
      ensures ok == (id != [] && (id in old(instances)
                                  || ((maxInstances <= 0 || |old(instances)| < maxInstances) && made && backed
                                      && created && startOk && startTurns >= 2)))
      ensures destroyed == (id != [] && id !in old(instances)
                            && (maxInstances <= 0 || |old(instances)| < maxInstances) && made && !ok)
      ensures !ok || id in old(instances) ==> instances == old(instances)
      ensures ok && id !in old(instances) ==>
                && id in instances && instances == old(instances)[id := instances[id]]
                && fresh(instances[id].execution.state)
                && instances[id].execution.state.executed == instances[id].execution.state.accepted == [H.StartHook]
      ensures old(registry.entries) <= registry.entries
      ensures |registry.entries|
           == |old(registry.entries)|
              + if destroyed && backed && created && StepsLeft(startTurns) > stopTurns then 1 else 0
    {
      hide B.Sound, B.Accepts, Inv, AllQueueable, StepsLeft;
      if id == [] {
        return false, false;
      }
      if id in instances {
        return true, false;
      }
      if AtLimit(maxInstances) || !made {
        return false, false;
      }
      if !backed {
        return false, true;
      }
      var execution := new DefaultInstanceExecutionBackend(registry);
      ok := StartExecution(execution, created, startTurns, startOk, stopTurns);
      destroyed := !ok;
      if ok {
        Register(id, execution);
      }
    }

    /** Steps of a worker given only the start hook, and told to leave after `turns` of them. */
    static function StepsLeft(turns: nat): nat {
      if turns >= 2 then 2 else 4 - turns
    }

    /** Adds a running backend of its own under a new id. */
    method Register(id: H.ExternalId, execution: DefaultInstanceExecutionBackend<H.Task>)
      requires Valid() && id !in instances
      requires execution.registry == registry && execution.Valid() && B.Accepts(execution.state.View())
      requires forall a <- instances ::
                 instances[a].execution != execution && instances[a].execution.state != execution.state
      modifies this`instances
      ensures id in instances && instances == old(instances)[id := instances[id]]
      ensures instances[id].execution == execution && Valid()
    {
      hide B.Sound, B.Accepts, Inv, AllQueueable;
      var runtime := new InstanceRuntime(execution);
      instances := instances[id := runtime];
    }

    /** Starts a new backend and has it run start(); undone if that fails or is late. */
    static method StartExecution(execution: DefaultInstanceExecutionBackend<H.Task>, created: bool, startTurns: nat,
                                 startOk: bool, stopTurns: nat)
      returns (ok: bool)
      requires execution.Valid() && execution.state.View() == B.Fresh()
      modifies execution, execution.state, execution.registry
      ensures ok == (created && startOk && startTurns >= 2)
      ensures ok ==> execution.state == old(execution.state) && execution.Valid() && B.Accepts(execution.state.View())
                     && execution.state.executed == execution.state.accepted == [H.StartHook]
                     && execution.registry.entries == old(execution.registry.entries)
      ensures !ok ==> execution.registry.entries
                      == old(execution.registry.entries)
                         + (if created && StepsLeft(startTurns) > stopTurns then [old(execution.state)] else [])
    {
      hide B.Sound;
      ok := execution.Start(created);
      if !ok {
        return false;
      }
      var shared := execution.state;
      var scheduled := execution.Execute(H.StartHook);
      FirstTask(shared.View());
      var waited := AwaitIdle(shared, startTurns);
      IdleLeaves(shared.View());
      ok := startOk && shared.worker.Looping? && shared.tasks == [];
      if !ok {
        var stopped := execution.Stop(stopTurns);
      }
    }

    /** A task goes to the instance named, and nowhere else; false if there is none. */
    method ExecuteOnRuntime(id: H.ExternalId, task: H.Task) returns (ok: bool)
      requires Valid()
      modifies if id in instances then {instances[id].execution.state} else {}
      ensures Valid() && ok == (id in instances)
      ensures ok ==> instances[id].execution.state.View() == B.Enqueue(old(instances[id].execution.state.View()), task)
    {
      hide B.Sound;
      if id !in instances {
        return false;
      }
      ok := instances[id].execution.Execute(task);
    }

    /** One turn of an instance's worker; a command hook that finishes has submitted its result. */
    method RunTurn(id: H.ExternalId, result: DeferredResult)
      requires id in instances && result.id < Bound(8)
      requires Valid()
      modifies this`resultQueue, instances[id].execution.state
      ensures instances[id].execution.state.View() == B.Advance(old(instances[id].execution.state.View()))
      ensures resultQueue == old(resultQueue)
                             + (if H.Emitted(old(instances[id].execution.state.View())) == [] then [] else [result])
      ensures Valid()
    {
      hide B.Sound;
      var shared := instances[id].execution.state;
      B.AdvanceSound(shared.View());
      AdvanceLive(shared.View());
      var submits := shared.worker.Running? && shared.worker.task.Invoke?;
      shared.Turn();
      if submits {
        QueueDeferredResult(result);
      }
    }

    /**
     * Removes an instance and tears it down. It is handed to destroyInstance exactly
     * when its worker left in time, having run all it was given and the stop hook
     * last; otherwise backend and instance leak and the registry has the worker.
     */
    method StopAndDestroyInstance(id: H.ExternalId, stopTurns: nat, joinTurns: nat)
      returns (destroyed: bool, waited: nat)
      requires Valid()
      modifies this`instances
      modifies if id in instances
               then {instances[id].execution, instances[id].execution.state, registry} else {}
      ensures Valid() && instances == old(instances) - {id} && waited <= stopTurns
      ensures id !in old(instances) ==> !destroyed
      ensures id in old(instances) ==>
                var shared := old(instances[id].execution.state);
                var given := old(instances[id].execution.state.accepted) + [H.StopHook];
                && (destroyed <==>
                      B.Remaining(H.StopRequested(B.Enqueue(old(instances[id].execution.state.View()), H.StopHook)))
                      <= waited + joinTurns)
                && shared.accepted == given
                && (destroyed ==> shared.executed == given && registry.entries == old(registry.entries))
                && (!destroyed ==> registry.entries == old(registry.entries) + [shared]
                                   && shared.stopRequested && B.Sound(shared.View()))
    {
      hide B.Sound, B.Remaining, B.Enqueue, B.Accepts, H.StopRequested, Inv, AllQueueable;
      if id !in instances {
        return false, 0;
      }
      var runtime := instances[id];
      instances := instances - {id};
      destroyed, waited := TearDown(runtime.execution, stopTurns, joinTurns);
    }

    /** The stop hook, a wait for it, and the stop of the backend. */
    static method TearDown(execution: DefaultInstanceExecutionBackend<H.Task>, stopTurns: nat, joinTurns: nat)
      returns (destroyed: bool, waited: nat)
      requires execution.Valid() && B.Accepts(execution.state.View())
      modifies execution, execution.state, execution.registry
      ensures waited <= stopTurns
      ensures var shared, registry := old(execution.state), execution.registry;
              var given := old(execution.state.accepted) + [H.StopHook];
              && (destroyed <==>
                    B.Remaining(H.StopRequested(B.Enqueue(old(execution.state.View()), H.StopHook)))
                    <= waited + joinTurns)
              && shared.accepted == given
              && (destroyed ==> shared.executed == given && registry.entries == old(execution.registry.entries))
              && (!destroyed ==> registry.entries == old(execution.registry.entries) + [shared]
                                 && shared.stopRequested && B.Sound(shared.View()))
    {
      hide B.Sound;
      waited := 0;
      var shared := execution.state;
      var scheduled := execution.Execute(H.StopHook);
      if scheduled {
        waited := AwaitIdle(shared, stopTurns);
      }
      ghost var stopping := H.StopRequested(shared.View());
      SoundStopping(shared.View());
      B.DrainsExactly(stopping, joinTurns);
      destroyed := execution.Stop(joinTurns);
    }

    /** Waits until the worker has run all it was given, or for `turns` of its steps. */
    static method AwaitIdle(shared: SharedState<H.Task>, turns: nat) returns (waited: nat)
      requires B.Sound(shared.View()) && B.Accepts(shared.View())
      modifies shared
      ensures waited <= turns && B.Sound(shared.View()) && B.Accepts(shared.View())
      ensures shared.accepted == old(shared.accepted)
      ensures shared.worker.Looping? && shared.tasks == [] ==> shared.executed == shared.accepted
      ensures waited < turns ==> shared.worker.Looping? && shared.tasks == []
      ensures B.Remaining(H.StopRequested(shared.View())) + waited == B.Remaining(H.StopRequested(old(shared.View())))
    {
      waited := 0;
      while waited < turns && !(shared.worker.Looping? && shared.tasks == [])
        invariant waited <= turns && B.Sound(shared.View()) && B.Accepts(shared.View())
        invariant shared.accepted == old(shared.accepted)
        invariant B.Remaining(H.StopRequested(shared.View())) + waited
               == B.Remaining(H.StopRequested(old(shared.View())))
      {
        B.AdvanceSound(shared.View());
        AdvanceBusy(shared.View());
        shared.Turn();
        waited := waited + 1;
      }
      assert shared.executed + [] + [] == shared.executed;
    }
  }

  lemma FirstTask(s: B.State<H.Task>)
    requires s == B.Enqueue(H.Launched(), H.StartHook)
    ensures B.Remaining(H.StopRequested(s)) == 4
  {
  }

  /** Told to stop, a worker with nothing to do leaves in two steps; others take longer. */
  lemma IdleLeaves(s: B.State<H.Task>)
    requires B.Sound(s) && B.Accepts(s)
    ensures B.Remaining(H.StopRequested(s)) >= 2
    ensures B.Remaining(H.StopRequested(s)) == 2 <==> s.worker.Looping? && s.tasks == []
  {
  }

  lemma SoundStopping(s: B.State<H.Task>)
    requires B.Sound(s)
    ensures B.Sound(H.StopRequested(s))
  {
  }

  lemma AdvanceLive(s: B.State<H.Task>)
    ensures var d := B.Advance(s);
            d.started == s.started && d.stopRequested == s.stopRequested && (B.Accepts(d) <==> B.Accepts(s))
  {
  }

  /** A worker with something to do does it. */
  lemma AdvanceBusy(s: B.State<H.Task>)
    requires B.Sound(s) && B.Accepts(s) && !(s.worker.Looping? && s.tasks == [])
    ensures var d := B.Advance(s);
            && B.Accepts(d) && d.accepted == s.accepted
            && B.Remaining(H.StopRequested(d)) + 1 == B.Remaining(H.StopRequested(s))
  {
  }
}
