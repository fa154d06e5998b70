// The host's runs: results leave in the order they came, and the steps of one whole
// life of an instance lead where they should.

module HostRuns {
  import opened Wrappers
  import B = Backend
  import opened Host

  // ---- Results in order -----------------------------------------------------------------

  /** The results that still wait to be sent, oldest first. */
  function Waiting(h: Host): seq<nat> {
    h.draining + h.results
  }

  /** The result a worker's next step submits: that of the command hook it runs. */
  function Submitted(s: B.State<Task>): seq<nat> {
    match s.worker
    case Running(Invoke(n)) => [n]
    case _ => []
  }

  /** What a step adds at the end of the results. */
  function Added(h: Host, a: Action): seq<nat> {
    match a
    case Work(i) => if i < |h.instances| then Submitted(h.instances[i].backend) else []
    case WorkFactory => if h.factory.Some? then Submitted(h.factory.value) else []
    case Receive(req, _) => if Enabled(h, a) && RouteOf(h, req).Inline? then [|h.requests|] else []
    case _ => []
  }

  /**
   * Results are a FIFO: workers add theirs at the end, sending takes the oldest and
   * answers it, and until the host stops nothing else touches them.
   */
  lemma ResultsAreFifo(h: Host, a: Action)
    requires !a.FactoryJoinEnd?
    ensures var d := Step(h, a);
            if a.DrainSend? && h.draining != [] then
              && Waiting(h) == [h.draining[0]] + Waiting(d)
              && (if a.fits then d.responses == h.responses + [h.draining[0]] && d.unsent == h.unsent
                  else d.unsent == h.unsent + [h.draining[0]] && d.responses == h.responses)
            else Waiting(d) == Waiting(h) + Added(h, a)
  {
    hide B.Enqueue, B.Advance, B.Accepts, B.WorkerExited;
    var w := Waiting(h);
    assert w + [] == w;
    if a.DrainSend? && h.draining != [] {
      assert h.draining == [h.draining[0]] + h.draining[1..];
    } else if a.Work? && a.i < |h.instances| {
      assert h.draining + (h.results + Emitted(h.instances[a.i].backend)) == w + Emitted(h.instances[a.i].backend);
    } else if a.WorkFactory? && h.factory.Some? {
      assert h.draining + (h.results + Emitted(h.factory.value)) == w + Emitted(h.factory.value);
    } else if a.Receive? {
      assert h.draining + (h.results + [|h.requests|]) == w + [|h.requests|];
    }
  }

  // ---- Where the waits lead -----------------------------------------------------------------

  /**
   * The start wait ends in registration if start() returned true and its hook finished;
   * otherwise the backend is told to stop and the instance is not registered.
   */
  lemma StartOutcome(h: Host, ok: bool)
    requires h.phase.Starting? && h.phase.i < |h.instances|
    ensures var i := h.phase.i;
            var d, x := Step(h, StartEnd(ok)), h.instances[i];
            if ok && x.backend.executed == [StartHook] then
              && d.phase.Idle? && d.instances[i] == x.(life := Live) && d.registry == h.registry[x.id := i]
            else
              && d.phase == RollingBack(i) && d.registry == h.registry
              && d.instances[i].backend == x.backend.(stopRequested := true) && d.instances[i].life == x.life
  {
  }

  /** A rollback never registers; it gives the instance up whether or not its worker left. */
  lemma RollbackOutcome(h: Host)
    requires h.phase.RollingBack? && h.phase.i < |h.instances|
    ensures var d := Step(h, RollbackEnd);
            d.phase.Idle? && d.registry == h.registry && d.instances[h.phase.i].life.RolledBack?
  {
  }

  /** A teardown destroys the instance if and only if its worker has left, and leaks it otherwise. */
  lemma JoinOutcome(h: Host)
    requires h.phase.Joining? && h.phase.i < |h.instances|
    ensures var i := h.phase.i;
            var d, x := Step(h, JoinEnd), h.instances[i];
            && d.phase.Idle? && d.registry == h.registry
            && (d.instances[i].life.Destroyed? <==> x.backend.worker.NoThread? || x.backend.worker.Exited?)
            && (!d.instances[i].life.Destroyed? ==> d.instances[i] == x.(life := Leaked))
  {
  }

  /** A callback reaches the instance it is for, last in its queue, and no other. */
  lemma NotifyReaches(h: Host, id: ExternalId, n: nat)
    requires h.phase.Idle? && h.draining == [] && !h.stopping && Registered(h, id)
    ensures var i := h.registry[id];
            var d, s := Step(h, Notify(id, n)), h.instances[i].backend;
            && |d.instances| == |h.instances|
            && (forall j :: 0 <= j < |h.instances| && j != i ==> d.instances[j] == h.instances[j])
            && d.instances[i].backend.tasks == s.tasks + (if s.started && !s.stopRequested then [Hook(n)] else [])
  {
  }

  /** A host that stops takes no request, callback or new instance and drains nothing more. */
  lemma StoppingTakesNothing(h: Host, a: Action)
    requires h.stopping && (a.Receive? || a.Notify? || a.Create? || a.DrainBegin?)
    ensures Step(h, a) == h
  {
  }

  /** The host thread does one thing at a time: while it waits it starts nothing else. */
  lemma BusyHostWaits(h: Host, a: Action)
    requires !h.phase.Idle?
    requires a.Receive? || a.Notify? || a.Create? || a.Remove? || a.Shutdown? || a.StopFactory? || a.DrainBegin?
    ensures Step(h, a) == h
  {
  }

  /** Results still queued when the factory has stopped are lost, and counted as lost. */
  lemma StopLosesResults(h: Host)
    requires h.phase.JoiningFactory?
    ensures var d := Step(h, FactoryJoinEnd);
            d.results == [] && d.lost == h.lost + h.results && d.phase.Stopped? && d.responses == h.responses
  {
  }

  // ---- One life ------------------------------------------------------------------------------

  /** A host with one instance and no factory backend. */
  function OneHost(x: Instance, registered: bool, phase: Phase, requests: seq<Req>, results: seq<nat>,
                   draining: seq<nat>, responses: seq<nat>): Host {
    Host([x], if registered then map[x.id := 0] else map[], None, requests, [], [],
         results, draining, responses, [], [], phase, false)
  }

  function Loop(tasks: seq<Task>, accepted: seq<Task>, executed: seq<Task>, stopping: bool): B.State<Task> {
    B.State(true, stopping, tasks, B.Looping, accepted, executed)
  }

  lemma RunThen(h: Host, run: seq<Action>, a: Action)
    ensures Run(h, run + [a]) == Step(Run(h, run), a)
    decreases |run|
  {
    hide Step;
    if run == [] {
      assert ([] + [a])[1..] == [];
    } else {
      assert (run + [a])[1..] == run[1..] + [a];
      RunThen(Step(h, run[0]), run[1..], a);
    }
  }

  /** The instance's worker takes the first task, or finishes the one it runs. */
  lemma WorkOne(h: Host, x: Instance, run: seq<Action>) returns (more: seq<Action>)
    requires Run(h, run).instances == [x]
    ensures more == run + [Work(0)]
    ensures var d := Run(h, run);
            Run(h, more) == d.(instances := [x.(backend := B.Advance(x.backend))],
                               results := d.results + Submitted(x.backend))
  {
    var d := Run(h, run);
    more := run + [Work(0)];
    RunThen(h, run, Work(0));
    assert d.instances[0 := x.(backend := B.Advance(x.backend))] == [x.(backend := B.Advance(x.backend))];
    hide B.Advance;
  }

  lemma TakesTask(task: Task, rest: seq<Task>, s: B.State<Task>)
    requires s.worker.Looping? && s.tasks == [task] + rest
    ensures B.Advance(s) == s.(worker := B.Running(task), tasks := rest) && Submitted(s) == []
  {
    assert s.tasks[1..] == rest;
  }

  lemma FinishesTask(s: B.State<Task>)
    requires s.worker.Running?
    ensures B.Advance(s) == s.(worker := B.Looping, executed := s.executed + [s.worker.task])
  {
  }

  /** Two steps of the worker run the one task that waits. */
  lemma WorkTwice(h: Host, x: Instance, task: Task, run: seq<Action>) returns (more: seq<Action>)
    requires Run(h, run).instances == [x]
    requires x.backend.worker.Looping? && x.backend.tasks == [task]
    ensures var d, done := Run(h, run), x.backend.executed + [task];
            Run(h, more) == d.(instances := [x.(backend := x.backend.(tasks := [], executed := done))],
                               results := d.results + (match task case Invoke(n) => [n] case _ => []))
  {
    hide Run, Step, B.Advance;
    var d := Run(h, run);
    TakesTask(task, [], x.backend);
    assert d.results + [] == d.results;
    more := WorkOne(h, x, run);
    var y := x.(backend := B.Advance(x.backend));
    FinishesTask(y.backend);
    more := WorkOne(h, y, more);
  }

  /** Creating an instance whose start() comes back true in time registers it. */
  lemma Creates(id: ExternalId) returns (run: seq<Action>)
    requires id != []
    ensures Run(Initial(false), run)
         == OneHost(Instance(id, Live, Loop([], [StartHook], [StartHook], false)), true, Idle, [], [], [], [])
  {
    var h := Initial(false);
    var x := Instance(id, Creating, Loop([StartHook], [StartHook], [], false));
    run := [Create(id)];
    assert [] + [Create(id)] == run && Run(h, []) == h;
    RunThen(h, [], Create(id));
    hide Run;
    assert [] + [StartHook] == [StartHook] && [] + [x] == [x];
    assert Step(h, Create(id)).instances == [x];
    assert Run(h, run) == OneHost(x, false, Starting(0), [], [], [], []);
    run := WorkTwice(h, x, StartHook, run);
    var d := Run(h, run);
    assert [] + [StartHook] == [StartHook] && d.results == [];
    assert d == OneHost(x.(backend := Loop([], [StartHook], [StartHook], false)), false, Starting(0), [], [], [], []);
    RunThen(h, run, StartEnd(true));
    run := run + [StartEnd(true)];
    assert d.instances[0 := d.instances[0].(life := Live)] == [d.instances[0].(life := Live)];
  }

  /** A request to a registered instance runs there and is answered once. */
  lemma Serves(id: ExternalId, req: Req, before: seq<Action>) returns (run: seq<Action>)
    requires req.target == id != [] && !req.kind.Unknown? && 0 < req.cmdId < CMD_ID_BOUND
    requires Run(Initial(false), before)
          == OneHost(Instance(id, Live, Loop([], [StartHook], [StartHook], false)), true, Idle, [], [], [], [])
    ensures var tasks := [StartHook, Invoke(0)];
            Run(Initial(false), run)
            == OneHost(Instance(id, Live, Loop([], tasks, tasks, false)), true, Idle, [req], [], [], [0])
  {
    hide Run, Step;
    var h := Initial(false);
    var tasks := [StartHook, Invoke(0)];
    var x := Instance(id, Live, Loop([Invoke(0)], tasks, [StartHook], false));
    run := before + [Receive(req, true)];
    RunThen(h, before, Receive(req, true));
    GivesTask(Run(h, before), req, x);
    assert Run(h, run) == OneHost(x, true, Idle, [req], [], [], []);
    run := WorkTwice(h, x, Invoke(0), run);
    var y := x.(backend := Loop([], tasks, tasks, false));
    assert [StartHook] + [Invoke(0)] == tasks && [] + [0] == [0];
    assert Run(h, run) == OneHost(y, true, Idle, [req], [0], [], []);
    run := Drains(h, y, req, run);
  }

  lemma Drains(h: Host, x: Instance, req: Req, before: seq<Action>) returns (run: seq<Action>)
    requires Run(h, before) == OneHost(x, true, Idle, [req], [0], [], [])
    ensures Run(h, run) == OneHost(x, true, Idle, [req], [], [], [0])
  {
    RunThen(h, before, DrainBegin);
    run := before + [DrainBegin];
    assert Run(h, run) == OneHost(x, true, Idle, [req], [], [0], []);
    RunThen(h, run, DrainSend(true));
    run := run + [DrainSend(true)];
    assert [0][1..] == [] && [] + [0] == [0];
  }

  lemma GivesTask(h: Host, req: Req, x: Instance)
    requires !req.kind.Unknown? && 0 < req.cmdId < CMD_ID_BOUND && req.target == x.id != []
    requires x == Instance(x.id, Live, Loop([Invoke(0)], [StartHook, Invoke(0)], [StartHook], false))
    requires h == OneHost(Instance(x.id, Live, Loop([], [StartHook], [StartHook], false)), true, Idle, [], [], [], [])
    ensures Step(h, Receive(req, true)) == OneHost(x, true, Idle, [req], [], [], [])
  {
    assert [StartHook] + [Invoke(0)] == [StartHook, Invoke(0)];
    assert [] + [Invoke(0)] == [Invoke(0)] && [] + [req] == [req];
    assert h.instances[0 := x] == [x];
  }

  /** Removing an instance runs its stop hook, lets its worker leave and destroys it. */
  lemma Removes(id: ExternalId, req: Req, given: seq<Task>, before: seq<Action>) returns (run: seq<Action>)
    requires Run(Initial(false), before)
          == OneHost(Instance(id, Live, Loop([], given, given, false)), true, Idle, [req], [], [], [0])
    ensures var tasks := given + [StopHook];
            Run(Initial(false), run)
            == OneHost(Instance(id, Destroyed, B.State(false, false, [], B.Exited, tasks, tasks)), false, Idle,
                       [req], [], [], [0])
  {
    var h := Initial(false);
    var tasks := given + [StopHook];
    var x := Instance(id, TearingDown, Loop([StopHook], tasks, given, false));
    run := before + [Remove(id)];
    RunThen(h, before, Remove(id));
    TakesOut(Run(h, before), x, given);
    assert Run(h, run) == OneHost(x, false, AwaitingStop(0), [req], [], [], [0]);
    run := WorkTwice(h, x, StopHook, run);
    var y := x.(backend := Loop([], tasks, tasks, false));
    assert Run(h, run).results == [];
    assert Run(h, run) == OneHost(y, false, AwaitingStop(0), [req], [], [], [0]);
    RunThen(h, run, StopWaitEnd);
    run := run + [StopWaitEnd];
    var z := x.(backend := Loop([], tasks, tasks, true));
    assert [y][0 := z] == [z];
    assert Run(h, run) == OneHost(z, false, Joining(0), [req], [], [], [0]);
    run := WorkOne(h, z, run);
    run := WorkOne(h, z.(backend := B.Advance(z.backend)), run);
    Leaves(z.backend);
    var w := z.(backend := B.State(true, true, [], B.Exited, tasks, tasks));
    assert Run(h, run) == OneHost(w, false, Joining(0), [req], [], [], [0]);
    RunThen(h, run, JoinEnd);
    run := run + [JoinEnd];
    Joins(OneHost(w, false, Joining(0), [req], [], [], [0]), w);
  }

  lemma TakesOut(h: Host, x: Instance, given: seq<Task>)
    requires x == Instance(x.id, TearingDown, Loop([StopHook], given + [StopHook], given, false))
    requires h.instances == [Instance(x.id, Live, Loop([], given, given, false))]
    requires h.registry == map[x.id := 0] && h.phase.Idle? && h.draining == []
    ensures Step(h, Remove(x.id)) == h.(instances := [x], registry := map[], phase := AwaitingStop(0))
  {
    assert [] + [StopHook] == [StopHook];
    assert map[x.id := 0] - {x.id} == map[];
    var s := h.instances[0].backend;
    assert h.instances[0 := h.instances[0].(backend := B.Enqueue(s, StopHook))][0 := x] == [x];
  }

  lemma Leaves(s: B.State<Task>)
    requires s.worker.Looping? && s.tasks == [] && s.stopRequested
    ensures B.Advance(B.Advance(s)) == s.(worker := B.Exited)
    ensures Submitted(s) == [] && Submitted(B.Advance(s)) == []
  {
  }

  lemma Joins(h: Host, x: Instance)
    requires h.instances == [x] && h.phase == Joining(0) && x.backend.worker.Exited?
    ensures Step(h, JoinEnd)
         == h.(phase := Idle, instances := [Instance(x.id, Destroyed, Joined(x.backend))])
  {
    var y := x.(backend := Joined(x.backend));
    assert h.instances[0 := y][0 := y.(life := Destroyed)] == [y.(life := Destroyed)];
  }

  /**
   * There is a run that creates an instance, serves it a request and removes it again:
   * its worker ran start, the request and stop, and the request was answered once.
   */
  lemma WholeLife(id: ExternalId, req: Req) returns (run: seq<Action>)
    requires req.target == id != [] && !req.kind.Unknown? && 0 < req.cmdId < CMD_ID_BOUND
    ensures var h := Run(Initial(false), run);
            && h.registry == map[] && h.phase.Idle? && h.requests == [req] && h.responses == [0]
            && |h.instances| == 1 && h.instances[0].life.Destroyed? && h.instances[0].backend.worker.Exited?
            && h.instances[0].backend.executed == [StartHook, Invoke(0), StopHook]
  {
    hide Run;
    run := Creates(id);
    run := Serves(id, req, run);
    run := Removes(id, req, [StartHook, Invoke(0)], run);
  }
}
