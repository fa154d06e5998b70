// Exactly one result for every command request, over every interleaving.

module Results {
  import opened Wrappers
  import B = Backend
  import opened Host
  import opened Lifetime

  // ---- Counting a serial ----------------------------------------------------------------------

  /** How often serial `n` is among the hooks a backend still has to run, or was ever given. */
  function Of(s: B.State<Task>, n: nat, pending: bool): nat {
    Times(Invokes(if pending then B.InHand(s) + s.tasks else s.accepted), n)
  }

  function Times(serials: seq<nat>, n: nat): nat {
    multiset(serials)[n]
  }

  lemma TimesAppend(a: seq<nat>, b: seq<nat>, n: nat)
    ensures Times(a + b, n) == Times(a, n) + Times(b, n)
  {
  }

  lemma TimesOne(k: nat, n: nat)
    ensures Times([k], n) == (if k == n then 1 else 0) && Times([], n) == 0
  {
  }

  function Sum(xs: seq<Instance>, n: nat, pending: bool): nat {
    if xs == [] then 0 else Sum(xs[..|xs| - 1], n, pending) + Of(xs[|xs| - 1].backend, n, pending)
  }

  function OfFactory(f: Option<B.State<Task>>, n: nat, pending: bool): nat {
    if f.Some? then Of(f.value, n, pending) else 0
  }

  lemma {:induction false} InvokesAppend(a: seq<Task>, b: seq<Task>)
    ensures Invokes(a + b) == Invokes(a) + Invokes(b)
  {
    hide SerialOf;
    if a == [] {
      assert a + b == b;
    } else {
      assert (a + b)[0] == a[0] && (a + b)[1..] == a[1..] + b;
      InvokesAppend(a[1..], b);
    }
  }

  lemma InvokesOne(t: Task)
    ensures Invokes([t]) == SerialOf(t)
  {
    assert [t][1..] == [];
  }

  lemma {:induction false} SumUpdate(xs: seq<Instance>, i: nat, x: Instance, n: nat, pending: bool)
    requires i < |xs|
    ensures Sum(xs[i := x], n, pending)
         == Sum(xs, n, pending) - Of(xs[i].backend, n, pending) + Of(x.backend, n, pending)
  {
    hide Of;
    var ys := xs[i := x];
    if i == |xs| - 1 {
      assert ys[..|ys| - 1] == xs[..|xs| - 1];
    } else {
      assert ys[..|ys| - 1] == xs[..|xs| - 1][i := x];
      SumUpdate(xs[..|xs| - 1], i, x, n, pending);
    }
  }

  // ---- What one backend does to the counts ---------------------------------------------------------

  lemma EnqueueCounts(s: B.State<Task>, t: Task, n: nat, pending: bool)
    ensures Of(B.Enqueue(s, t), n, pending)
         == Of(s, n, pending) + (if B.Accepts(s) && t == Invoke(n) then 1 else 0)
  {
    InvokesOne(t);
    hide Invokes, Times;
    TimesOne(if t.Invoke? then t.serial else 0, n);
    if B.Accepts(s) {
      var all := if pending then B.InHand(s) + s.tasks else s.accepted;
      InvokesAppend(all, [t]);
      TimesAppend(Invokes(all), Invokes([t]), n);
      assert B.InHand(s) + s.tasks + [t] == B.InHand(s) + (s.tasks + [t]);
    }
  }

  lemma AdvanceCounts(s: B.State<Task>, n: nat)
    ensures Of(B.Advance(s), n, false) == Of(s, n, false)
    ensures Of(B.Advance(s), n, true) + Times(Emitted(s), n) == Of(s, n, true)
  {
    hide Invokes, Times;
    TimesOne(0, n);
    match s.worker
    case Running(t) =>
      InvokesOne(t);
      InvokesAppend([t], s.tasks);
      TimesAppend(Invokes([t]), Invokes(s.tasks), n);
      assert [] + s.tasks == s.tasks;
    case Looping =>
      if s.tasks != [] {
        assert [s.tasks[0]] + s.tasks[1..] == [] + s.tasks;
      }
    case _ =>
  }

  lemma QuietCounts(s: B.State<Task>, n: nat, pending: bool)
    ensures Of(StopRequested(s), n, pending) == Of(s, n, pending)
    ensures s.tasks == [] ==> Of(Joined(s), n, pending) == Of(s, n, pending)
  {
  }

  // ---- The accounts -------------------------------------------------------------------------------

  function Received(h: Host, n: nat): nat {
    if n < |h.requests| then 1 else 0
  }

  /** Request `n` took exactly one route. */
  predicate Routed(h: Host, n: nat) {
    Received(h, n)
    == Times(h.immediate, n) + Times(h.inlined, n) + Sum(h.instances, n, false) + OfFactory(h.factory, n, false)
  }

  /** The result of request `n` is in exactly one place. */
  predicate Placed(h: Host, n: nat) {
    Received(h, n)
    == Sum(h.instances, n, true) + OfFactory(h.factory, n, true) + Times(h.results, n) + Times(h.draining, n)
       + Times(h.responses, n) + Times(h.unsent, n) + Times(h.lost, n)
  }

  predicate Accounted(h: Host, n: nat) {
    Routed(h, n) && Placed(h, n)
  }

  /** A change of one instance's backend that moves no serial. */
  lemma UpdateAccounts(h: Host, i: nat, x: Instance, n: nat)
    requires Accounted(h, n) && i < |h.instances|
    requires Of(x.backend, n, false) == Of(h.instances[i].backend, n, false)
    requires Of(x.backend, n, true) == Of(h.instances[i].backend, n, true)
    ensures Accounted(h.(instances := h.instances[i := x]), n)
  {
    hide Of, Sum, Times;
    SumUpdate(h.instances, i, x, n, false);
    SumUpdate(h.instances, i, x, n, true);
  }

  lemma SameAccounts(h: Host, g: Host, n: nat)
    requires Accounted(g, n) && h.instances == g.instances && h.factory == g.factory && h.requests == g.requests
    requires h.immediate == g.immediate && h.inlined == g.inlined && h.results == g.results
    requires h.draining == g.draining && h.responses == g.responses && h.unsent == g.unsent && h.lost == g.lost
    ensures Accounted(h, n)
  {
    hide Of, Sum, Times;
  }

  lemma WorkAccounts(h: Host, i: nat, n: nat)
    requires Accounted(h, n) && i < |h.instances|
    ensures Accounted(AfterWork(h, i), n)
  {
    hide Of, Sum, Times, B.Advance, Emitted;
    var x := h.instances[i];
    var y := x.(backend := B.Advance(x.backend));
    AdvanceCounts(x.backend, n);
    TimesAppend(h.results, Emitted(x.backend), n);
    SumUpdate(h.instances, i, y, n, false);
    SumUpdate(h.instances, i, y, n, true);
  }

  lemma WorkFactoryAccounts(h: Host, n: nat)
    requires Accounted(h, n) && h.factory.Some?
    ensures Accounted(AfterWorkFactory(h), n)
  {
    hide Of, Sum, Times, B.Advance, Emitted;
    AdvanceCounts(h.factory.value, n);
    TimesAppend(h.results, Emitted(h.factory.value), n);
  }

  lemma ReceiveAccounts(h: Host, req: Req, fits: bool, n: nat)
    requires Accounted(h, n)
    ensures Accounted(AfterReceive(h, req, fits), n)
  {
    var serial := |h.requests|;
    RouteAccepts(h, req);
    hide Of, Sum, Times, B.Enqueue, B.Accepts, RouteOf;
    TimesOne(serial, n);
    match RouteOf(h, req)
    case Immediate =>
      TimesAppend(h.immediate, [serial], n);
      TimesAppend(h.responses, [serial], n);
      TimesAppend(h.unsent, [serial], n);
    case Inline =>
      TimesAppend(h.inlined, [serial], n);
      TimesAppend(h.results, [serial], n);
    case ToInstance(i) =>
      var x := h.instances[i];
      var y := x.(backend := B.Enqueue(x.backend, Invoke(serial)));
      EnqueueCounts(x.backend, Invoke(serial), n, false);
      EnqueueCounts(x.backend, Invoke(serial), n, true);
      SumUpdate(h.instances, i, y, n, false);
      SumUpdate(h.instances, i, y, n, true);
    case ToFactory =>
      EnqueueCounts(h.factory.value, Invoke(serial), n, false);
      EnqueueCounts(h.factory.value, Invoke(serial), n, true);
  }

  lemma RouteAccepts(h: Host, req: Req)
    ensures var r := RouteOf(h, req);
            && (r.ToInstance? ==> B.Accepts(h.instances[r.i].backend))
            && (r.ToFactory? ==> B.Accepts(h.factory.value))
  {
  }

  lemma EnqueueAccounts(h: Host, i: nat, t: Task, n: nat)
    requires Accounted(h, n) && i < |h.instances| && !t.Invoke?
    ensures Accounted(WithBackend(h, i, B.Enqueue(h.instances[i].backend, t)), n)
  {
    hide Of, Accounted, B.Enqueue;
    var x := h.instances[i];
    EnqueueCounts(x.backend, t, n, false);
    EnqueueCounts(x.backend, t, n, true);
    UpdateAccounts(h, i, x.(backend := B.Enqueue(x.backend, t)), n);
  }

  lemma FactoryEnqueueAccounts(h: Host, t: Task, n: nat)
    requires Accounted(h, n) && h.factory.Some? && !t.Invoke?
    ensures Accounted(h.(factory := Some(B.Enqueue(h.factory.value, t))), n)
    ensures Accounted(h.(factory := Some(StopRequested(B.Enqueue(h.factory.value, t)))), n)
  {
    hide Of, Sum, Times, B.Enqueue, StopRequested;
    var s := B.Enqueue(h.factory.value, t);
    EnqueueCounts(h.factory.value, t, n, false);
    EnqueueCounts(h.factory.value, t, n, true);
    QuietCounts(s, n, false);
    QuietCounts(s, n, true);
  }

  /** Changes of life, of the stop flag and of a drained backend move no serial. */
  lemma PhaseAccounts(h: Host, i: nat, life: Life, n: nat)
    requires Inv(h) && Accounted(h, n) && i < |h.instances|
    ensures var s := h.instances[i].backend;
            && Accounted(WithLife(h, i, life), n) && Accounted(WithBackend(h, i, StopRequested(s)), n)
            && (B.WorkerExited(s) ==> Accounted(WithLife(WithBackend(h, i, Joined(s)), i, life), n))
  {
    ExitedEmpty(h, i);
    hide Of, Accounted, Inv, Joined, StopRequested, B.WorkerExited;
    var x := h.instances[i];
    UpdateAccounts(h, i, x.(life := life), n);
    StopAccounts(h, i, n);
    if B.WorkerExited(x.backend) {
      JoinedAccounts(h, i, n);
      var d := WithBackend(h, i, Joined(x.backend));
      UpdateAccounts(d, i, d.instances[i].(life := life), n);
    }
  }

  lemma StopAccounts(h: Host, i: nat, n: nat)
    requires Accounted(h, n) && i < |h.instances|
    ensures Accounted(WithBackend(h, i, StopRequested(h.instances[i].backend)), n)
  {
    hide Of, Accounted, StopRequested;
    var x := h.instances[i];
    QuietCounts(x.backend, n, false);
    QuietCounts(x.backend, n, true);
    UpdateAccounts(h, i, x.(backend := StopRequested(x.backend)), n);
  }

  lemma JoinedAccounts(h: Host, i: nat, n: nat)
    requires Accounted(h, n) && i < |h.instances| && h.instances[i].backend.tasks == []
    ensures Accounted(WithBackend(h, i, Joined(h.instances[i].backend)), n)
  {
    hide Of, Accounted, Joined;
    var x := h.instances[i];
    QuietCounts(x.backend, n, false);
    QuietCounts(x.backend, n, true);
    UpdateAccounts(h, i, x.(backend := Joined(x.backend)), n);
  }

  lemma ExitedEmpty(h: Host, i: nat)
    requires Inv(h) && i < |h.instances|
    ensures B.WorkerExited(h.instances[i].backend) ==> h.instances[i].backend.tasks == []
  {
    assert Good(h.instances[i]);
  }

  lemma CreateAccounts(h: Host, id: ExternalId, n: nat)
    requires Accounted(h, n)
    ensures Accounted(AfterCreate(h, id), n)
  {
    hide Of, Sum, Times, B.Enqueue, Launched;
    EnqueueCounts(Launched(), StartHook, n, false);
    EnqueueCounts(Launched(), StartHook, n, true);
    LaunchedEmpty(n);
    var x := Instance(id, Creating, B.Enqueue(Launched(), StartHook));
    SumSnoc(h.instances, x, n, false);
    SumSnoc(h.instances, x, n, true);
  }

  lemma SumSnoc(xs: seq<Instance>, x: Instance, n: nat, pending: bool)
    ensures Sum(xs + [x], n, pending) == Sum(xs, n, pending) + Of(x.backend, n, pending)
  {
    assert (xs + [x])[..|xs|] == xs;
  }

  lemma LaunchedEmpty(n: nat)
    ensures Of(Launched(), n, false) == Of(Launched(), n, true) == 0
  {
    var none: seq<Task> := [];
    assert none + none == none;
  }

  lemma RemoveAccounts(h: Host, id: ExternalId, n: nat)
    requires Accounted(h, n) && Registered(h, id)
    ensures Accounted(AfterRemove(h, id), n)
  {
    hide Of, Accounted, B.Enqueue;
    var i := h.registry[id];
    var x := h.instances[i];
    EnqueueCounts(x.backend, StopHook, n, false);
    EnqueueCounts(x.backend, StopHook, n, true);
    var y := x.(life := TearingDown, backend := B.Enqueue(x.backend, StopHook));
    UpdateAccounts(h, i, y, n);
    assert AfterRemove(h, id).instances == h.instances[i := y];
    SameAccounts(AfterRemove(h, id), h.(instances := h.instances[i := y]), n);
  }

  lemma StartEndAccounts(h: Host, ok: bool, n: nat)
    requires Inv(h) && Accounted(h, n) && h.phase.Starting?
    ensures Accounted(AfterStartEnd(h, h.phase.i, ok), n)
  {
    PhaseBound(h);
    hide Inv, Accounted;
    var i := h.phase.i;
    PhaseAccounts(h, i, Live, n);
    var g := if ok && h.instances[i].backend.executed == [StartHook] then WithLife(h, i, Live)
             else WithBackend(h, i, StopRequested(h.instances[i].backend));
    SameAccounts(AfterStartEnd(h, i, ok), g, n);
  }

  lemma PhaseBound(h: Host)
    requires Inv(h)
    ensures h.phase.Starting? || h.phase.RollingBack? || h.phase.AwaitingStop? || h.phase.Joining? ==>
              h.phase.i < |h.instances|
  {
  }

  lemma RollbackAccounts(h: Host, n: nat)
    requires Inv(h) && Accounted(h, n) && h.phase.RollingBack? && h.phase.i < |h.instances|
    ensures Accounted(AfterRollback(h, h.phase.i), n)
  {
    hide Inv, Accounted;
    var i := h.phase.i;
    var s := h.instances[i].backend;
    PhaseAccounts(h, i, RolledBack, n);
    var g := WithLife(if B.WorkerExited(s) then WithBackend(h, i, Joined(s)) else h, i, RolledBack);
    assert WithBackend(h, i, s).instances == h.instances;
    SameAccounts(AfterRollback(h, i), g, n);
  }

  lemma JoinAccounts(h: Host, n: nat)
    requires Inv(h) && Accounted(h, n) && h.phase.Joining? && h.phase.i < |h.instances|
    ensures Accounted(AfterJoin(h, h.phase.i), n)
  {
    hide Inv, Accounted;
    var i := h.phase.i;
    var s := h.instances[i].backend;
    PhaseAccounts(h, i, Destroyed, n);
    PhaseAccounts(h, i, Leaked, n);
    var g := if B.WorkerExited(s) then WithLife(WithBackend(h, i, Joined(s)), i, Destroyed) else WithLife(h, i, Leaked);
    SameAccounts(AfterJoin(h, i), g, n);
  }

  lemma FactoryJoinAccounts(h: Host, n: nat)
    requires Inv(h) && Accounted(h, n)
    ensures Accounted(AfterFactoryJoin(h), n)
  {
    FactoryJoinCounts(h, n);
    hide OfFactory, Of, Sum, Times, Inv, Joined, B.WorkerExited;
    TimesAppend(h.lost, h.results, n);
    TimesOne(0, n);
  }

  lemma FactoryJoinCounts(h: Host, n: nat)
    requires Inv(h)
    ensures OfFactory(AfterFactoryJoin(h).factory, n, false) == OfFactory(h.factory, n, false)
    ensures OfFactory(AfterFactoryJoin(h).factory, n, true) == OfFactory(h.factory, n, true)
  {
    if h.factory.Some? && B.WorkerExited(h.factory.value) {
      SoundJoined(h.factory.value);
      hide Of, Joined;
      QuietCounts(h.factory.value, n, false);
      QuietCounts(h.factory.value, n, true);
    }
  }

  lemma DrainAccounts(h: Host, fits: bool, n: nat)
    requires Accounted(h, n)
    ensures h.draining == [] ==> Accounted(h.(draining := h.results, results := []), n)
    ensures h.draining != [] ==> Accounted(Answered(h.(draining := h.draining[1..]), h.draining[0], fits), n)
  {
    hide Sum, Of, OfFactory, Times;
    TimesOne(0, n);
    if h.draining != [] {
      var head := h.draining[0];
      assert h.draining == [head] + h.draining[1..];
      TimesAppend([head], h.draining[1..], n);
      TimesAppend(h.responses, [head], n);
      TimesAppend(h.unsent, [head], n);
    }
  }

  lemma StepAccounts(h: Host, a: Action, n: nat)
    requires Inv(h) && Accounted(h, n)
    ensures Accounted(Step(h, a), n)
  {
    if Enabled(h, a) {
      PhaseBound(h);
      if a.Receive? || a.Notify? || a.NotifyFactory? || a.Work? || a.WorkFactory? || a.DrainBegin? || a.DrainSend? {
        FlowAccounts(h, a, n);
      } else {
        hide Inv, Accounted, B.Enqueue;
        hide AfterCreate, AfterStartEnd, AfterRollback, AfterRemove, AfterJoin, AfterFactoryJoin;
        match a
        case Create(id) => CreateAccounts(h, id, n);
        case StartEnd(ok) => StartEndAccounts(h, ok, n);
        case RollbackEnd => RollbackAccounts(h, n);
        case Remove(id) => RemoveAccounts(h, id, n);
        case StopWaitEnd =>
          PhaseAccounts(h, h.phase.i, TearingDown, n);
          SameAccounts(Step(h, a), WithBackend(h, h.phase.i, StopRequested(h.instances[h.phase.i].backend)), n);
        case JoinEnd => JoinAccounts(h, n);
        case Shutdown => SameAccounts(Step(h, a), h, n);
        case StopFactory => StopFactoryAccounts(h, n);
        case FactoryJoinEnd => FactoryJoinAccounts(h, n);
      }
    }
  }

  /** Steps by which requests come in and results go out. */
  lemma FlowAccounts(h: Host, a: Action, n: nat)
    requires Accounted(h, n) && Enabled(h, a)
    requires a.Receive? || a.Notify? || a.NotifyFactory? || a.Work? || a.WorkFactory? || a.DrainBegin? || a.DrainSend?
    ensures Accounted(Step(h, a), n)
  {
    hide Accounted, B.Enqueue, B.Advance, AfterReceive, AfterWork, AfterWorkFactory;
    match a
    case Receive(req, fits) => ReceiveAccounts(h, req, fits, n);
    case Notify(id, k) => EnqueueAccounts(h, h.registry[id], Hook(k), n);
    case NotifyFactory(k) => FactoryEnqueueAccounts(h, Hook(k), n);
    case Work(i) => WorkAccounts(h, i, n);
    case WorkFactory => WorkFactoryAccounts(h, n);
    case DrainBegin => DrainAccounts(h, true, n);
    case DrainSend(fits) => DrainAccounts(h, fits, n);
  }

  lemma StopFactoryAccounts(h: Host, n: nat)
    requires Accounted(h, n)
    ensures Accounted(Step(h, StopFactory), n)
  {
    hide Accounted, B.Enqueue;
    if Enabled(h, StopFactory) {
      if h.factory.Some? {
        FactoryEnqueueAccounts(h, Hook(0), n);
        SameAccounts(Step(h, StopFactory), h.(factory := Some(StopRequested(B.Enqueue(h.factory.value, Hook(0))))), n);
      } else {
        SameAccounts(Step(h, StopFactory), h, n);
      }
    }
  }

  lemma {:induction false} RunAccounts(h: Host, run: seq<Action>, n: nat)
    requires Inv(h) && Accounted(h, n)
    ensures Inv(Run(h, run)) && Accounted(Run(h, run), n)
    decreases |run|
  {
    if run != [] {
      hide Inv, Step, Accounted;
      StepKeeps(h, run[0]);
      StepAccounts(h, run[0], n);
      RunAccounts(Step(h, run[0]), run[1..], n);
    }
  }

  lemma InitialAccounts(backed: bool, n: nat)
    ensures Accounted(Initial(backed), n)
  {
  }

  // ---- Targets ----------------------------------------------------------------------------------

  /** Every hook an instance was given belongs to a request that names it. */
  predicate Addressed(tasks: seq<Task>, requests: seq<Req>, id: ExternalId) {
    forall k :: 0 <= k < |tasks| ==> tasks[k].Invoke? ==>
      tasks[k].serial < |requests| && requests[tasks[k].serial].target == id
      && (id == [] ==> requests[tasks[k].serial].kind.AdapterActionInvoke?)
  }

  predicate AllAddressed(h: Host) {
    && (forall i :: 0 <= i < |h.instances| ==>
          Addressed(h.instances[i].backend.accepted, h.requests, h.instances[i].id))
    && (h.factory.Some? ==> Addressed(h.factory.value.accepted, h.requests, []))
  }

  lemma AddressedMore(tasks: seq<Task>, requests: seq<Req>, id: ExternalId, req: Req)
    requires Addressed(tasks, requests, id)
    ensures Addressed(tasks, requests + [req], id)
    ensures req.target == id && (id == [] ==> req.kind.AdapterActionInvoke?) ==>
              Addressed(tasks + [Invoke(|requests|)], requests + [req], id)
  {
  }

  lemma ReceiveAddressed(h: Host, req: Req, fits: bool)
    requires Inv(h) && AllAddressed(h)
    ensures AllAddressed(AfterReceive(h, req, fits))
  {
    var d := AfterReceive(h, req, fits);
    RouteTarget(h, req);
    hide RouteOf, Addressed, Good;
    forall i | 0 <= i < |d.instances|
      ensures Addressed(d.instances[i].backend.accepted, d.requests, d.instances[i].id)
    {
      assert Addressed(h.instances[i].backend.accepted, h.requests, h.instances[i].id);
      AddressedMore(h.instances[i].backend.accepted, h.requests, h.instances[i].id, req);
    }
    if h.factory.Some? {
      AddressedMore(h.factory.value.accepted, h.requests, [], req);
    }
  }

  lemma RouteTarget(h: Host, req: Req)
    requires Inv(h)
    ensures var r := RouteOf(h, req);
            && (r.ToInstance? ==> h.instances[r.i].id == req.target != [])
            && (r.ToFactory? ==> req.target == [] && req.kind.AdapterActionInvoke?)
  {
    hide Good;
  }

  /** What a step other than a request can add to a backend: no command hook. */
  predicate NoneAdded(s: B.State<Task>, t: B.State<Task>) {
    t.accepted == s.accepted
    || (s.accepted < t.accepted && |t.accepted| == |s.accepted| + 1 && !t.accepted[|s.accepted|].Invoke?)
  }

  lemma NoneAddedAddressed(s: B.State<Task>, t: B.State<Task>, requests: seq<Req>, id: ExternalId)
    requires NoneAdded(s, t) && Addressed(s.accepted, requests, id)
    ensures Addressed(t.accepted, requests, id)
  {
  }

  lemma EnqueueAdds(s: B.State<Task>, t: Task)
    requires !t.Invoke?
    ensures NoneAdded(s, B.Enqueue(s, t))
  {
  }

  lemma AddsNone(h: Host, a: Action, i: nat)
    requires Inv(h) && Enabled(h, a) && !a.Receive? && i < |h.instances| && i == Touched(h, a)
    ensures i < |Step(h, a).instances| && Step(h, a).instances[i].id == h.instances[i].id
    ensures NoneAdded(h.instances[i].backend, Step(h, a).instances[i].backend)
  {
    var s := h.instances[i].backend;
    AdvanceAccepts(s);
    EnqueueAdds(s, StopHook);
    if a.Notify? {
      EnqueueAdds(s, Hook(a.n));
    }
    hide B.Advance, B.Enqueue, Invokes, Inv;
  }

  lemma FactoryAddsNone(h: Host, a: Action)
    requires Enabled(h, a) && !a.Receive? && h.factory.Some?
    ensures Step(h, a).factory.Some? && NoneAdded(h.factory.value, Step(h, a).factory.value)
  {
    var s := h.factory.value;
    AdvanceAccepts(s);
    EnqueueAdds(s, Hook(0));
    if a.NotifyFactory? {
      EnqueueAdds(s, Hook(a.n));
    }
    hide B.Advance, B.Enqueue, Invokes;
  }

  lemma StepAddressed(h: Host, a: Action)
    requires Inv(h) && AllAddressed(h)
    ensures AllAddressed(Step(h, a))
  {
    if Enabled(h, a) && a.Receive? {
      ReceiveAddressed(h, a.req, a.fits);
    } else if Enabled(h, a) {
      var d := Step(h, a);
      SameRequests(h, a);
      hide Inv, Step, Addressed, NoneAdded, Enabled, Touched;
      forall i | 0 <= i < |d.instances|
        ensures Addressed(d.instances[i].backend.accepted, d.requests, d.instances[i].id)
      {
        if i >= |h.instances| {
          CreatedAddressed(h, a, i);
        } else if i == Touched(h, a) {
          AddsNone(h, a, i);
          NoneAddedAddressed(h.instances[i].backend, d.instances[i].backend, h.requests, h.instances[i].id);
        } else {
          Elsewhere(h, a, i);
        }
      }
      if h.factory.Some? {
        FactoryAddsNone(h, a);
        NoneAddedAddressed(h.factory.value, d.factory.value, h.requests, []);
      } else {
        StaysInline(h, a);
      }
    }
  }

  lemma SameRequests(h: Host, a: Action)
    requires Enabled(h, a) && !a.Receive?
    ensures Step(h, a).requests == h.requests
  {
    hide B.Advance, B.Enqueue, B.WorkerExited, Invokes;
  }

  lemma StaysInline(h: Host, a: Action)
    requires Enabled(h, a) && !a.Receive? && h.factory.None?
    ensures Step(h, a).factory.None?
  {
    hide B.Advance, B.Enqueue, B.WorkerExited, Invokes;
  }

  lemma CreatedAddressed(h: Host, a: Action, i: nat)
    requires Enabled(h, a) && |h.instances| <= i < |Step(h, a).instances|
    ensures Addressed(Step(h, a).instances[i].backend.accepted, h.requests, Step(h, a).instances[i].id)
  {
    CreatedStays(h, a, i);
    hide Step, Enabled;
  }

  lemma {:induction false} RunAddressed(h: Host, run: seq<Action>)
    requires Inv(h) && AllAddressed(h)
    ensures AllAddressed(Run(h, run))
    decreases |run|
  {
    if run != [] {
      hide Inv, Step, AllAddressed;
      StepKeeps(h, run[0]);
      StepAddressed(h, run[0]);
      RunAddressed(Step(h, run[0]), run[1..]);
    }
  }

  // ---- What every run promises --------------------------------------------------------------------

  lemma RunHolds(backed: bool, run: seq<Action>, n: nat)
    ensures Inv(Run(Initial(backed), run)) && Accounted(Run(Initial(backed), run), n)
    ensures AllAddressed(Run(Initial(backed), run))
  {
    InitialInv(backed);
    InitialAccounts(backed, n);
    InitialAddressed(backed);
    RunAccounts(Initial(backed), run, n);
    RunAddressed(Initial(backed), run);
  }

  lemma InitialAddressed(backed: bool)
    ensures AllAddressed(Initial(backed))
  {
  }

  /**
   * Each request took exactly one of four routes, whatever the interleaving: an
   * immediate answer, an inline hook, one hook of the factory backend, or one hook
   * of one instance. Never two, never none, and only an instance the request names.
   */
  lemma ExactlyOneRoute(backed: bool, run: seq<Action>, n: nat)
    ensures var h := Run(Initial(backed), run);
            && n < |h.requests| ==>
                 Times(h.immediate, n) + Times(h.inlined, n) + Sum(h.instances, n, false)
                 + OfFactory(h.factory, n, false) == 1
    ensures AllAddressed(Run(Initial(backed), run))
  {
    RunHolds(backed, run, n);
    hide Run, Sum, OfFactory, Times;
  }

  /** The step that takes a request in: answered on the spot if and only if nobody it names can take it. */
  lemma RoutedWhereAddressed(h: Host, req: Req)
    requires Inv(h)
    ensures RouteOf(h, req).Immediate? <==>
              req.kind.Unknown?
              || (if req.target == [] then
                    !req.kind.AdapterActionInvoke? || (h.factory.Some? && !B.Accepts(h.factory.value))
                  else req.target !in h.registry)
    ensures req.target in h.registry && !req.kind.Unknown? ==> RouteOf(h, req) == ToInstance(h.registry[req.target])
    ensures RouteOf(h, req).Inline? ==> req.target == [] && req.kind.AdapterActionInvoke? && h.factory.None?
  {
    if req.target in h.registry {
      assert Good(h.instances[h.registry[req.target]]);
    }
  }

  /** No request is ever answered twice. */
  lemma AtMostOneResponse(backed: bool, run: seq<Action>, n: nat)
    ensures Times(Run(Initial(backed), run).responses, n) <= 1
  {
    RunHolds(backed, run, n);
    hide Run, Sum, OfFactory, Times;
  }

  /** Nothing is under way, nothing was refused by the dispatcher or thrown away by a stop. */
  predicate Settled(h: Host) {
    && h.results == [] && h.draining == [] && h.unsent == [] && h.lost == []
    && (forall i :: 0 <= i < |h.instances| ==> NoneWaiting(h.instances[i].backend))
    && (h.factory.Some? ==> NoneWaiting(h.factory.value))
  }

  predicate NoneWaiting(s: B.State<Task>) {
    Invokes(B.InHand(s) + s.tasks) == []
  }

  lemma {:induction false} NoneSum(xs: seq<Instance>, n: nat)
    requires forall i :: 0 <= i < |xs| ==> NoneWaiting(xs[i].backend)
    ensures Sum(xs, n, true) == 0
  {
    hide NoneWaiting;
    if xs != [] {
      NoneSum(xs[..|xs| - 1], n);
      NoneOf(xs[|xs| - 1].backend, n);
    }
  }

  lemma NoneOf(s: B.State<Task>, n: nat)
    requires NoneWaiting(s)
    ensures Of(s, n, true) == 0
  {
    TimesOne(0, n);
  }

  lemma SettledCounts(h: Host, n: nat)
    requires Accounted(h, n) && Settled(h)
    ensures Times(h.responses, n) == Received(h, n)
  {
    NoneSum(h.instances, n);
    if h.factory.Some? {
      NoneOf(h.factory.value, n);
    }
    TimesOne(0, n);
    hide Sum, Of, Times, NoneWaiting;
  }

  function AllSerials(n: nat): (r: seq<nat>)
    ensures |r| == n && forall k :: 0 <= k < n ==> r[k] == k
  {
    seq(n, k => k)
  }

  lemma {:induction false} AllSerialsTimes(k: nat, n: nat)
    ensures Times(AllSerials(k), n) == if n < k then 1 else 0
  {
    if k > 0 {
      AllSerialsTimes(k - 1, n);
      assert AllSerials(k) == AllSerials(k - 1) + [k - 1];
      TimesAppend(AllSerials(k - 1), [k - 1], n);
      TimesOne(k - 1, n);
    }
  }

  /** The correlation ids of the responses, in the order they went to the dispatcher. */
  function CorrelationIds(requests: seq<Req>, serials: seq<nat>): (r: seq<nat>)
    requires forall k :: 0 <= k < |serials| ==> serials[k] < |requests|
    ensures |r| == |serials|
  {
    if serials == [] then []
    else CorrelationIds(requests, serials[..|serials| - 1]) + [requests[serials[|serials| - 1]].cmdId]
  }

  lemma CorrelationIdsSnoc(requests: seq<Req>, serials: seq<nat>, n: nat)
    requires n < |requests| && forall k :: 0 <= k < |serials| ==> serials[k] < |requests|
    ensures CorrelationIds(requests, serials + [n]) == CorrelationIds(requests, serials) + [requests[n].cmdId]
  {
    assert (serials + [n])[..|serials|] == serials;
  }

  /** Reordering serials reorders correlation ids. */
  lemma {:induction false} PermutedIds(requests: seq<Req>, a: seq<nat>, b: seq<nat>)
    requires multiset(a) == multiset(b)
    requires forall k :: 0 <= k < |a| ==> a[k] < |requests|
    requires forall k :: 0 <= k < |b| ==> b[k] < |requests|
    ensures multiset(CorrelationIds(requests, a)) == multiset(CorrelationIds(requests, b))
    decreases |a|
  {
    if a == [] {
      assert |multiset(b)| == 0;
    } else {
      var front, last := a[..|a| - 1], a[|a| - 1];
      assert a == front + [last];
      var i := FindIn(b, a);
      Split(b, i);
      var rest := b[..i] + b[i + 1..];
      Cancel(multiset(front), multiset(rest), last);
      PermutedIds(requests, front, rest);
      TakenOut(requests, b, i);
    }
  }

  lemma FindIn(b: seq<nat>, a: seq<nat>) returns (i: nat)
    requires a != [] && multiset(a) == multiset(b)
    ensures i < |b| && b[i] == a[|a| - 1]
  {
    assert a[|a| - 1] in multiset(b);
    i :| 0 <= i < |b| && b[i] == a[|a| - 1];
  }

  lemma Split(b: seq<nat>, i: nat)
    requires i < |b|
    ensures multiset(b) == multiset(b[..i] + b[i + 1..]) + multiset{b[i]}
  {
    assert b == b[..i] + ([b[i]] + b[i + 1..]);
  }

  lemma Cancel(x: multiset<nat>, y: multiset<nat>, n: nat)
    requires x + multiset{n} == y + multiset{n}
    ensures x == y
  {
    assert x == x + multiset{n} - multiset{n};
    assert y == y + multiset{n} - multiset{n};
  }

  lemma {:induction false} TakenOut(requests: seq<Req>, b: seq<nat>, i: nat)
    requires i < |b| && forall k :: 0 <= k < |b| ==> b[k] < |requests|
    ensures multiset(CorrelationIds(requests, b))
         == multiset(CorrelationIds(requests, b[..i] + b[i + 1..])) + multiset{requests[b[i]].cmdId}
    decreases |b|
  {
    hide CorrelationIds;
    var front, last := b[..|b| - 1], b[|b| - 1];
    assert b == front + [last];
    CorrelationIdsSnoc(requests, front, last);
    SnocCount(CorrelationIds(requests, front), requests[last].cmdId);
    if i == |front| {
      assert b[..i] + b[i + 1..] == front;
    } else {
      TakenOut(requests, front, i);
      var less := front[..i] + front[i + 1..];
      assert b[..i] + b[i + 1..] == less + [last];
      CorrelationIdsSnoc(requests, less, last);
      SnocCount(CorrelationIds(requests, less), requests[last].cmdId);
    }
  }

  lemma SnocCount(s: seq<nat>, n: nat)
    ensures multiset(s + [n]) == multiset(s) + multiset{n}
  {
  }

  /** The accounts of a settled host: one response per serial. */
  lemma SettledIds(h: Host)
    requires (forall n: nat :: Accounted(h, n)) && Settled(h)
    ensures forall k :: 0 <= k < |h.responses| ==> h.responses[k] < |h.requests|
    ensures multiset(h.responses) == multiset(AllSerials(|h.requests|))
    ensures multiset(CorrelationIds(h.requests, h.responses))
         == multiset(CorrelationIds(h.requests, AllSerials(|h.requests|)))
  {
    forall n: nat
      ensures Times(h.responses, n) == Times(AllSerials(|h.requests|), n)
    {
      SettledCounts(h, n);
      AllSerialsTimes(|h.requests|, n);
    }
    hide Settled, Accounted;
    SameTimes(h.responses, AllSerials(|h.requests|));
    forall k | 0 <= k < |h.responses|
      ensures h.responses[k] < |h.requests|
    {
      assert h.responses[k] in multiset(h.responses);
      assert h.responses[k] in AllSerials(|h.requests|);
    }
    PermutedIds(h.requests, h.responses, AllSerials(|h.requests|));
  }

  /**
   * Once everything is drained there is one response per request, and the responses'
   * correlation ids are those of the requests, as often as they came.
   */
  lemma OneResponseEach(backed: bool, run: seq<Action>)
    requires Settled(Run(Initial(backed), run))
    ensures var h := Run(Initial(backed), run);
            && (forall k :: 0 <= k < |h.responses| ==> h.responses[k] < |h.requests|)
            && multiset(h.responses) == multiset(AllSerials(|h.requests|))
            && multiset(CorrelationIds(h.requests, h.responses))
               == multiset(CorrelationIds(h.requests, AllSerials(|h.requests|)))
  {
    var h := Run(Initial(backed), run);
    hide Run, Settled, Accounted;
    forall n: nat
      ensures Accounted(h, n)
    {
      RunHolds(backed, run, n);
    }
    SettledIds(h);
  }

  lemma SameTimes(a: seq<nat>, b: seq<nat>)
    requires forall n: nat :: Times(a, n) == Times(b, n)
    ensures multiset(a) == multiset(b)
  {
    forall n: nat
      ensures multiset(a)[n] == multiset(b)[n]
    {
      assert Times(a, n) == Times(b, n);
    }
  }
}
