// Object lifetime over every interleaving of the host and its workers.

module Lifetime {
  import opened Wrappers
  import B = Backend
  import opened Host

  // ---- What an instance has been given to run ------------------------------------------------

  predicate Plain(tasks: seq<Task>) {
    forall k :: 0 <= k < |tasks| ==> tasks[k].Hook? || tasks[k].Invoke?
  }

  /** The start hook and then callbacks. */
  predicate Opened(tasks: seq<Task>) {
    |tasks| >= 1 && tasks[0] == StartHook && Plain(tasks[1..])
  }

  /** The start hook, then callbacks, then the stop hook, and nothing after. */
  predicate Closed(tasks: seq<Task>) {
    |tasks| >= 2 && Opened(tasks[..|tasks| - 1]) && tasks[|tasks| - 1] == StopHook
  }

  predicate Shape(x: Instance) {
    var s := x.backend;
    match x.life
    case Creating => s.started && s.accepted == [StartHook]
    case Live => B.Accepts(s) && Opened(s.accepted)
    case TearingDown => s.started && Closed(s.accepted)
    case Destroyed => B.WorkerExited(s) && !B.Accepts(s) && Closed(s.accepted)
    case RolledBack => !B.Accepts(s) && s.accepted == [StartHook]
    case Leaked => !B.Accepts(s) && Closed(s.accepted)
  }

  ghost predicate Good(x: Instance) {
    x.id != [] && B.Sound(x.backend) && Shape(x)
  }

  ghost predicate AllGood(xs: seq<Instance>) {
    forall i :: 0 <= i < |xs| ==> Good(xs[i])
  }

  predicate RegistryOk(h: Host) {
    forall id <- h.registry ::
      id != [] && h.registry[id] < |h.instances|
      && h.instances[h.registry[id]].id == id && h.instances[h.registry[id]].life.Live?
  }

  predicate PhaseOk(h: Host) {
    match h.phase
    case Starting(i) =>
      i < |h.instances| && h.instances[i].life.Creating? && B.Accepts(h.instances[i].backend)
      && h.instances[i].id !in h.registry
    case RollingBack(i) => i < |h.instances| && h.instances[i].life.Creating? && !B.Accepts(h.instances[i].backend)
    case AwaitingStop(i) => i < |h.instances| && h.instances[i].life.TearingDown?
    case Joining(i) => i < |h.instances| && h.instances[i].life.TearingDown? && !B.Accepts(h.instances[i].backend)
    case Idle => true
    case JoiningFactory => true
    case Stopped => true
  }

  ghost predicate Inv(h: Host) {
    && AllGood(h.instances)
    && RegistryOk(h)
    && PhaseOk(h)
    && (h.factory.Some? ==> B.Sound(h.factory.value))
  }

  // ---- Every step keeps it ---------------------------------------------------------------------

  lemma GoodAdvance(x: Instance)
    requires Good(x)
    ensures Good(x.(backend := B.Advance(x.backend)))
    ensures B.Accepts(B.Advance(x.backend)) == B.Accepts(x.backend)
  {
    B.AdvanceSound(x.backend);
  }

  lemma OpenedSnoc(tasks: seq<Task>, t: Task)
    requires Opened(tasks)
    ensures (t.Hook? || t.Invoke?) ==> Opened(tasks + [t])
    ensures t.StopHook? ==> Closed(tasks + [t])
  {
    assert (tasks + [t])[1..] == tasks[1..] + [t];
    assert (tasks + [t])[..|tasks|] == tasks;
  }

  lemma GoodEnqueue(x: Instance, t: Task)
    requires Good(x) && x.life.Live?
    ensures (t.Hook? || t.Invoke?) ==> Good(x.(backend := B.Enqueue(x.backend, t)))
    ensures t.StopHook? ==> Good(x.(life := TearingDown, backend := B.Enqueue(x.backend, t)))
  {
    B.EnqueueSound(x.backend, t);
    OpenedSnoc(x.backend.accepted, t);
  }

  lemma SoundStopRequested(s: B.State<Task>)
    requires B.Sound(s)
    ensures B.Sound(StopRequested(s))
  {
  }

  lemma SoundJoined(s: B.State<Task>)
    requires B.Sound(s) && B.WorkerExited(s)
    ensures B.Sound(Joined(s)) && s.tasks == []
  {
  }

  lemma SoundLaunched()
    ensures B.Sound(Launched()) && B.Accepts(Launched())
  {
  }

  /** An update of one instance that keeps it good and, if registered, as it was. */
  lemma UpdateKeeps(h: Host, i: nat, x: Instance)
    requires Inv(h) && i < |h.instances| && Good(x)
    requires x.id == h.instances[i].id && x.life == h.instances[i].life
    requires B.Accepts(x.backend) == B.Accepts(h.instances[i].backend)
    ensures Inv(h.(instances := h.instances[i := x]))
  {
    hide Good;
  }

  lemma WorkKeeps(h: Host, i: nat)
    requires Inv(h) && i < |h.instances|
    ensures Inv(AfterWork(h, i))
  {
    hide Good, PhaseOk, RegistryOk, Invokes;
    var x := h.instances[i];
    GoodAdvance(x);
    UpdateKeeps(h, i, x.(backend := B.Advance(x.backend)));
    SameInstances(AfterWork(h, i), h.(instances := h.instances[i := x.(backend := B.Advance(x.backend))]));
  }

  lemma SameInstances(h: Host, g: Host)
    requires Inv(g) && h.instances == g.instances && h.registry == g.registry && h.phase == g.phase
    requires h.factory == g.factory
    ensures Inv(h)
  {
    hide Good;
  }

  lemma LiveKeeps(h: Host, id: ExternalId, t: Task)
    requires Inv(h) && Registered(h, id) && (t.Hook? || t.Invoke?)
    ensures var i := h.registry[id]; Inv(WithBackend(h, i, B.Enqueue(h.instances[i].backend, t)))
  {
    hide Good;
    var i := h.registry[id];
    var x := h.instances[i];
    GoodEnqueue(x, t);
    UpdateKeeps(h, i, x.(backend := B.Enqueue(x.backend, t)));
  }

  lemma FactoryKeeps(h: Host, s: B.State<Task>)
    requires Inv(h) && B.Sound(s)
    ensures Inv(h.(factory := Some(s)))
  {
    hide Good;
  }

  lemma ReceiveKeeps(h: Host, req: Req, fits: bool)
    requires Inv(h)
    ensures Inv(AfterReceive(h, req, fits))
  {
    hide Inv;
    var serial := |h.requests|;
    var d := h.(requests := h.requests + [req]);
    SameInstances(d, h);
    match RouteOf(h, req)
    case Immediate => SameInstances(AfterReceive(h, req, fits), d);
    case Inline => SameInstances(AfterReceive(h, req, fits), d);
    case ToInstance(i) => LiveKeeps(d, req.target, Invoke(serial));
    case ToFactory =>
      FactorySound(h);
      B.EnqueueSound(h.factory.value, Invoke(serial));
      FactoryKeeps(d, B.Enqueue(h.factory.value, Invoke(serial)));
  }

  lemma FactorySound(h: Host)
    requires Inv(h) && h.factory.Some?
    ensures B.Sound(h.factory.value)
  {
  }

  lemma CreateKeeps(h: Host, id: ExternalId)
    requires Inv(h) && id != [] && id !in h.registry
    ensures Inv(AfterCreate(h, id))
  {
    hide B.Sound;
    SoundLaunched();
    B.EnqueueSound(Launched(), StartHook);
  }

  lemma StartEndKeeps(h: Host, ok: bool)
    requires Inv(h) && h.phase.Starting?
    ensures Inv(AfterStartEnd(h, h.phase.i, ok))
  {
    hide B.Sound;
    var x := h.instances[h.phase.i];
    assert Good(x);
    SoundStopRequested(x.backend);
    assert Plain([StartHook][1..]);
  }

  lemma RollbackKeeps(h: Host)
    requires Inv(h) && h.phase.RollingBack?
    ensures Inv(AfterRollback(h, h.phase.i))
  {
    hide B.Sound, Opened, Closed;
    var x := h.instances[h.phase.i];
    assert Good(x);
    if B.WorkerExited(x.backend) {
      SoundJoined(x.backend);
    }
  }

  lemma RemoveKeeps(h: Host, id: ExternalId)
    requires Inv(h) && Registered(h, id)
    ensures Inv(AfterRemove(h, id))
  {
    hide Good;
    GoodEnqueue(h.instances[h.registry[id]], StopHook);
  }

  lemma StopWaitKeeps(h: Host)
    requires Inv(h) && h.phase.AwaitingStop?
    ensures Inv(Step(h, StopWaitEnd))
  {
    hide B.Sound, Opened, Closed;
    var x := h.instances[h.phase.i];
    assert Good(x);
    SoundStopRequested(x.backend);
  }

  lemma JoinKeeps(h: Host)
    requires Inv(h) && h.phase.Joining?
    ensures Inv(AfterJoin(h, h.phase.i))
  {
    hide B.Sound, Opened, Closed;
    var x := h.instances[h.phase.i];
    assert Good(x);
    if B.WorkerExited(x.backend) {
      SoundJoined(x.backend);
    }
  }

  lemma StepKeeps(h: Host, a: Action)
    requires Inv(h)
    ensures Inv(Step(h, a))
  {
    hide Inv, B.Enqueue, B.Advance;
    hide AfterReceive, AfterCreate, AfterStartEnd, AfterRollback, AfterRemove, AfterJoin, AfterWork;
    if Enabled(h, a) {
      match a
      case Receive(req, fits) => ReceiveKeeps(h, req, fits);
      case Notify(id, n) => LiveKeeps(h, id, Hook(n));
      case NotifyFactory(n) =>
        FactorySound(h);
        B.EnqueueSound(h.factory.value, Hook(n));
        FactoryKeeps(h, B.Enqueue(h.factory.value, Hook(n)));
      case Create(id) => CreateKeeps(h, id);
      case StartEnd(ok) => StartEndKeeps(h, ok);
      case RollbackEnd => RollbackKeeps(h);
      case Remove(id) => RemoveKeeps(h, id);
      case StopWaitEnd => StopWaitKeeps(h);
      case JoinEnd => JoinKeeps(h);
      case Shutdown => SameInstances(Step(h, a), h);
      case StopFactory => FactoryStopKeeps(h);
      case FactoryJoinEnd => FactoryJoinKeeps(h);
      case Work(i) => WorkKeeps(h, i);
      case WorkFactory =>
        FactorySound(h);
        B.AdvanceSound(h.factory.value);
        FactoryKeeps(h, B.Advance(h.factory.value));
        SameInstances(Step(h, a), h.(factory := Some(B.Advance(h.factory.value))));
      case DrainBegin => SameInstances(Step(h, a), h);
      case DrainSend(_) => SameInstances(Step(h, a), h);
    }
  }

  lemma FactoryStopKeeps(h: Host)
    requires Inv(h)
    ensures Inv(Step(h, StopFactory))
  {
    hide Good;
    if h.factory.Some? {
      B.EnqueueSound(h.factory.value, Hook(0));
      SoundStopRequested(B.Enqueue(h.factory.value, Hook(0)));
    }
  }

  lemma FactoryJoinKeeps(h: Host)
    requires Inv(h)
    ensures Inv(AfterFactoryJoin(h))
  {
    hide Good;
  }

  lemma {:induction false} RunKeeps(h: Host, run: seq<Action>)
    requires Inv(h)
    ensures Inv(Run(h, run))
    decreases |run|
  {
    if run != [] {
      hide Inv, Step;
      StepKeeps(h, run[0]);
      RunKeeps(Step(h, run[0]), run[1..]);
    }
  }

  lemma InitialInv(backed: bool)
    ensures Inv(Initial(backed))
  {
    SoundLaunched();
  }

  // ---- No task on a destroyed instance ------------------------------------------------------------

  /** Handed to destroyInstance. */
  predicate Gone(x: Instance) {
    x.life.Destroyed? || x.life.RolledBack?
  }

  /** A worker is running, or will run, a task of this instance. */
  predicate Busy(x: Instance) {
    B.InHand(x.backend) + x.backend.tasks != []
  }

  predicate Safe(h: Host) {
    forall i :: 0 <= i < |h.instances| ==> Gone(h.instances[i]) ==> !Busy(h.instances[i])
  }

  /** A rollback whose waits ended before the start hook had. */
  predicate Premature(h: Host, a: Action) {
    a.RollbackEnd? && h.phase.RollingBack? && h.phase.i < |h.instances|
    && StartHook !in h.instances[h.phase.i].backend.executed
  }

  /** Until its start hook has finished, an instance being created has a task to run, and only until then. */
  lemma UnfinishedIsBusy(x: Instance)
    requires Good(x) && x.life.Creating?
    ensures StartHook !in x.backend.executed <==> Busy(x)
  {
    var s := x.backend;
    if s.executed == [] {
      assert s.accepted == B.InHand(s) + s.tasks;
    } else {
      assert s.accepted[0] == s.executed[0];
    }
  }

  lemma StepSafe(h: Host, a: Action)
    requires Inv(h) && Safe(h)
    ensures Safe(Step(h, a)) <==> !Premature(h, a)
  {
    if Premature(h, a) {
      PrematureUnsafe(h);
    } else if Enabled(h, a) {
      var g := Step(h, a);
      forall i | 0 <= i < |g.instances| && Gone(g.instances[i])
        ensures !Busy(g.instances[i])
      {
        GoneIdle(h, a, i);
      }
    }
  }

  lemma PrematureUnsafe(h: Host)
    requires Inv(h) && Premature(h, RollbackEnd)
    ensures !Safe(Step(h, RollbackEnd))
  {
    var i := h.phase.i;
    assert Good(h.instances[i]);
    UnfinishedIsBusy(h.instances[i]);
    var x := Step(h, RollbackEnd).instances[i];
    assert Gone(x) && Busy(x);
  }

  lemma GoneIdle(h: Host, a: Action, i: nat)
    requires Inv(h) && Safe(h) && Enabled(h, a) && !Premature(h, a)
    requires i < |Step(h, a).instances| && Gone(Step(h, a).instances[i])
    ensures !Busy(Step(h, a).instances[i])
  {
    if i < |h.instances| {
      var w := h.instances[i];
      GoodAt(h, i);
      hide *;
      OneMoves(h, a, i);
      if RollsBack(h, a, i) {
        RollbackIdle(h, a, i);
      } else {
        StillIdle(w, Step(h, a).instances[i]);
      }
    } else {
      CreatedStays(h, a, i);
      NotGone(a.id);
    }
  }

  lemma NotGone(id: ExternalId)
    ensures !Gone(Instance(id, Creating, B.Enqueue(Launched(), StartHook)))
  {
  }

  lemma GoodAt(h: Host, i: nat)
    requires Inv(h) && Safe(h) && i < |h.instances|
    ensures Good(h.instances[i]) && (Gone(h.instances[i]) ==> !Busy(h.instances[i]))
  {
    hide Good;
  }

  lemma CreatedStays(h: Host, a: Action, i: nat)
    requires Enabled(h, a) && |h.instances| <= i < |Step(h, a).instances|
    ensures a.Create? && Step(h, a).instances[i] == Instance(a.id, Creating, B.Enqueue(Launched(), StartHook))
  {
    hide B.Advance, B.Enqueue, B.Accepts, B.WorkerExited, Invokes, RouteOf, AfterReceive, AfterRollback, AfterJoin,
      AfterStartEnd, Answered;
    match a
    case Receive(req, fits) => ReceiveKeepsCount(h, req, fits);
    case StartEnd(ok) => PhaseKeepsCount(h, ok);
    case RollbackEnd => PhaseKeepsCount(h, true);
    case JoinEnd => PhaseKeepsCount(h, true);
    case DrainSend(fits) => AnsweredElsewhere(h.(draining := h.draining[1..]), h.draining[0], fits);
    case _ =>
  }

  lemma ReceiveKeepsCount(h: Host, req: Req, fits: bool)
    ensures |AfterReceive(h, req, fits).instances| == |h.instances|
  {
    hide B.Enqueue, RouteOf;
  }

  lemma PhaseKeepsCount(h: Host, ok: bool)
    requires h.phase.Starting? || h.phase.RollingBack? || h.phase.AwaitingStop? || h.phase.Joining?
    requires h.phase.i < |h.instances|
    ensures |AfterStartEnd(h, h.phase.i, ok).instances| == |AfterRollback(h, h.phase.i).instances|
         == |AfterJoin(h, h.phase.i).instances| == |h.instances|
  {
    hide B.WorkerExited;
  }

  predicate RollsBack(h: Host, a: Action, i: nat) {
    a.RollbackEnd? && h.phase.RollingBack? && h.phase.i == i
  }

  lemma RollbackIdle(h: Host, a: Action, i: nat)
    requires Inv(h) && Enabled(h, a) && RollsBack(h, a, i) && !Premature(h, a)
    ensures i < |Step(h, a).instances| && !Busy(Step(h, a).instances[i])
  {
    assert Good(h.instances[i]);
    UnfinishedIsBusy(h.instances[i]);
    hide B.Sound, Shape;
  }

  /** What a step other than the end of a rollback makes of an instance. */
  predicate Moves(w: Instance, x: Instance) {
    || x == w
    || x == w.(backend := B.Advance(w.backend))
    || (!Gone(x) && !Gone(w))
    || (B.WorkerExited(w.backend) && x.backend == Joined(w.backend))
  }

  lemma StillIdle(w: Instance, x: Instance)
    requires Good(w) && Gone(x) && (Gone(w) ==> !Busy(w)) && Moves(w, x)
    ensures !Busy(x)
  {
    hide Opened, Closed;
  }

  /** The instance a step touches, if any; -1 when it touches none. */
  function Touched(h: Host, a: Action): int
    requires Enabled(h, a)
  {
    match a
    case Receive(req, _) => var r := RouteOf(h, req); if r.ToInstance? then r.i else -1
    case Notify(id, _) => h.registry[id]
    case StartEnd(_) => h.phase.i
    case RollbackEnd => h.phase.i
    case Remove(id) => h.registry[id]
    case StopWaitEnd => h.phase.i
    case JoinEnd => h.phase.i
    case Work(i) => i
    case _ => -1
  }

  lemma Elsewhere(h: Host, a: Action, i: nat)
    requires Enabled(h, a) && i < |h.instances| && i != Touched(h, a)
    ensures i < |Step(h, a).instances| && Step(h, a).instances[i] == h.instances[i]
  {
    hide B.Advance, B.Enqueue, B.Accepts, B.WorkerExited, Invokes, RouteOf, AfterReceive, AfterRollback, AfterJoin,
      AfterStartEnd, Answered;
    match a
    case Receive(req, fits) => ReceiveElsewhere(h, req, fits, i);
    case StartEnd(ok) => PhaseElsewhere(h, ok, i);
    case RollbackEnd => PhaseElsewhere(h, true, i);
    case JoinEnd => PhaseElsewhere(h, true, i);
    case DrainSend(fits) => AnsweredElsewhere(h.(draining := h.draining[1..]), h.draining[0], fits);
    case _ =>
  }

  lemma AnsweredElsewhere(h: Host, serial: nat, fits: bool)
    ensures Answered(h, serial, fits).instances == h.instances
  {
  }

  lemma ReceiveElsewhere(h: Host, req: Req, fits: bool, i: nat)
    requires i < |h.instances| && RouteOf(h, req) != ToInstance(i)
    ensures i < |AfterReceive(h, req, fits).instances| && AfterReceive(h, req, fits).instances[i] == h.instances[i]
  {
    hide B.Enqueue, RouteOf;
  }

  lemma PhaseElsewhere(h: Host, ok: bool, i: nat)
    requires h.phase.Starting? || h.phase.RollingBack? || h.phase.AwaitingStop? || h.phase.Joining?
    requires h.phase.i < |h.instances| && i < |h.instances| && i != h.phase.i
    ensures |AfterStartEnd(h, h.phase.i, ok).instances| == |AfterRollback(h, h.phase.i).instances|
         == |AfterJoin(h, h.phase.i).instances| == |h.instances|
    ensures AfterStartEnd(h, h.phase.i, ok).instances[i] == AfterRollback(h, h.phase.i).instances[i]
         == AfterJoin(h, h.phase.i).instances[i] == h.instances[i]
  {
    hide B.WorkerExited;
  }

  /** Only a worker touches an instance the host is done with. */
  lemma TouchedLife(h: Host, a: Action)
    requires Inv(h) && Enabled(h, a) && Touched(h, a) >= 0 && !a.Work?
    ensures var i := Touched(h, a);
            i < |h.instances| && !Gone(h.instances[i]) && !h.instances[i].life.Leaked?
  {
    hide Good, Invokes;
  }

  /** What a step can do to an instance that is, or becomes, gone. */
  lemma OneMoves(h: Host, a: Action, i: nat)
    requires Inv(h) && Enabled(h, a) && i < |h.instances|
    ensures i < |Step(h, a).instances|
    ensures RollsBack(h, a, i) || Moves(h.instances[i], Step(h, a).instances[i])
  {
    hide Inv;
    if i != Touched(h, a) {
      hide Step, Touched;
      Elsewhere(h, a, i);
    } else if !a.Work? {
      TouchedLife(h, a);
      hide B.Advance, B.Enqueue, B.Accepts, Invokes;
    }
  }

  ghost predicate AlwaysSafe(h: Host, run: seq<Action>)
    decreases |run|
  {
    Safe(h) && (run != [] ==> AlwaysSafe(Step(h, run[0]), run[1..]))
  }

  predicate NeverPremature(h: Host, run: seq<Action>)
    decreases |run|
  {
    run != [] ==> !Premature(h, run[0]) && NeverPremature(Step(h, run[0]), run[1..])
  }

  lemma {:induction false} SafeExactly(h: Host, run: seq<Action>)
    requires Inv(h) && Safe(h)
    ensures AlwaysSafe(h, run) <==> NeverPremature(h, run)
    decreases |run|
  {
    if run != [] {
      hide Inv, Step, Safe, Premature;
      StepKeeps(h, run[0]);
      StepSafe(h, run[0]);
      if !Premature(h, run[0]) {
        SafeExactly(Step(h, run[0]), run[1..]);
      }
    }
  }

  /**
   * Over every interleaving, no worker runs a task of an instance handed to
   * destroyInstance, if and only if no rollback gives up, after its two waits, on a
   * start hook that has not finished.
   */
  lemma ObjectLifetime(backed: bool, run: seq<Action>)
    ensures AlwaysSafe(Initial(backed), run) <==> NeverPremature(Initial(backed), run)
  {
    InitialInv(backed);
    SafeExactly(Initial(backed), run);
  }

  /** The case it fails: start() blocks past the start wait and the stop wait. */
  lemma BlockedStartIsDestroyed(id: ExternalId)
    requires id != []
    ensures !AlwaysSafe(Initial(false), [Create(id), Work(0), StartEnd(false), RollbackEnd])
  {
    var h := Initial(false);
    var h1 := Step(h, Create(id));
    var h2 := Step(h1, Work(0));
    var h3 := Step(h2, StartEnd(false));
    assert h2.instances[0].backend.worker == B.Running(StartHook);
    assert Premature(h3, RollbackEnd);
    var run := [Create(id), Work(0), StartEnd(false), RollbackEnd];
    assert run[1..][1..][1..][0] == RollbackEnd;
    assert run[1..][1..][0] == StartEnd(false) && run[1..][0] == Work(0);
    assert !NeverPremature(h3, run[1..][1..][1..]);
    assert !NeverPremature(h2, run[1..][1..]);
    assert !NeverPremature(h1, run[1..]);
    ObjectLifetime(false, run);
  }

  /** Registered instances are torn down only by the teardown path: start, callbacks in order, stop. */
  lemma TeardownTrace(backed: bool, run: seq<Action>, i: nat)
    requires i < |Run(Initial(backed), run).instances|
    ensures var x := Run(Initial(backed), run).instances[i];
            && (x.life.Destroyed? ==>
                  x.backend.executed == x.backend.accepted && Closed(x.backend.executed) && !Busy(x))
            && (x.life.Live? ==> x.backend.executed <= x.backend.accepted && Opened(x.backend.accepted))
            && (x.life.Leaked? ==> x.backend.executed <= x.backend.accepted && Closed(x.backend.accepted))
  {
    InitialInv(backed);
    RunKeeps(Initial(backed), run);
    hide Run, Step, Opened, Closed;
    var x := Run(Initial(backed), run).instances[i];
    assert Good(x);
    ExecutedPrefix(x.backend);
    if x.life.Destroyed? {
      B.ExitedDrained(x.backend);
    }
  }

  lemma ExecutedPrefix(s: B.State<Task>)
    requires B.Sound(s)
    ensures s.executed <= s.accepted
  {
  }

  /** Once destroyed, leaked or rolled back, an instance is given nothing more. */
  lemma {:induction false} NothingAfter(h: Host, run: seq<Action>, i: nat)
    requires Inv(h) && i < |h.instances|
    requires Gone(h.instances[i]) || h.instances[i].life.Leaked?
    ensures i < |Run(h, run).instances|
    ensures var x := Run(h, run).instances[i];
            x.life == h.instances[i].life && x.backend.accepted == h.instances[i].backend.accepted
    decreases |run|
  {
    if run != [] {
      hide Inv, Step;
      StepKeeps(h, run[0]);
      StepFinal(h, run[0], i);
      NothingAfter(Step(h, run[0]), run[1..], i);
    }
  }

  lemma StepFinal(h: Host, a: Action, i: nat)
    requires Inv(h) && i < |h.instances|
    requires Gone(h.instances[i]) || h.instances[i].life.Leaked?
    ensures i < |Step(h, a).instances|
    ensures var x := Step(h, a).instances[i];
            x.life == h.instances[i].life && x.backend.accepted == h.instances[i].backend.accepted
  {
    hide Inv, Invokes, B.Advance;
    if Enabled(h, a) {
      if i != Touched(h, a) {
        hide Step, Touched;
        Elsewhere(h, a, i);
      } else {
        if !a.Work? {
          TouchedLife(h, a);
        }
        AdvanceAccepts(h.instances[i].backend);
      }
    }
  }

  lemma AdvanceAccepts(s: B.State<Task>)
    ensures B.Advance(s).accepted == s.accepted
  {
  }

  /** An instance that finished starting is never found registered under its id already. */
  lemma InsertIsNew(backed: bool, run: seq<Action>)
    ensures var h := Run(Initial(backed), run);
            h.phase.Starting? ==> h.phase.i < |h.instances| && h.instances[h.phase.i].id !in h.registry
  {
    InitialInv(backed);
    RunKeeps(Initial(backed), run);
  }
}
