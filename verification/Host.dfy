// The host: one thread that creates, addresses and tears down instances, one worker
// per instance, and the path of every command result back to the dispatcher.

module Host {
  import opened Wrappers
  import opened Bytes
  import B = Backend

  type ExternalId = bytes

  datatype CmdKind =
    ChannelInvoke | AdapterActionInvoke | DeviceNameUpdate | DeviceEffectInvoke | SceneInvoke | StreamStart
    | StreamStop | Unknown

  const CMD_ID_BOUND := 0x1_0000_0000_0000_0000

  // A decoded command request; its serial is its place in order of arrival. An unknown
  // command is answered by the dispatcher, after any callback it makes to an instance.
  datatype Req = Req(kind: CmdKind, target: ExternalId, cmdId: nat)

  // What a backend runs. An `Invoke` hook submits its result once before it returns.
  datatype Task = StartHook | Hook(n: nat) | Invoke(serial: nat) | StopHook

  datatype Life = Creating | Live | TearingDown | Destroyed | RolledBack | Leaked

  datatype Instance = Instance(id: ExternalId, life: Life, backend: B.State<Task>)

  // Where the host thread waits; `Idle` is between handler calls.
  datatype Phase =
    Idle | Starting(i: nat) | RollingBack(i: nat) | AwaitingStop(i: nat) | Joining(i: nat) | JoiningFactory | Stopped

  /**
   * `instances` are all ever created, `registry` the instance map. Of the serials,
   * `immediate` were answered on the spot, `inlined` ran on the host thread, and
   * `responses`, `unsent` and `lost` say what became of each result.
   */
  datatype Host = Host(instances: seq<Instance>, registry: map<ExternalId, nat>, factory: Option<B.State<Task>>,
                       requests: seq<Req>, immediate: seq<nat>, inlined: seq<nat>,
                       results: seq<nat>, draining: seq<nat>,
                       responses: seq<nat>, unsent: seq<nat>, lost: seq<nat>,
                       phase: Phase, stopping: bool)

  // Every timed wait may end at any time; what it finds decides the branch. `fits`
  // says whether the dispatcher takes the response frame.
  datatype Action =
    | Receive(req: Req, fits: bool)
    | Notify(id: ExternalId, n: nat)
    | NotifyFactory(n: nat)
    | Create(id: ExternalId)
    | StartEnd(ok: bool)
    | RollbackEnd
    | Remove(id: ExternalId)
    | StopWaitEnd
    | JoinEnd
    | Shutdown
    | StopFactory
    | FactoryJoinEnd
    | Work(i: nat)
    | WorkFactory
    | DrainBegin
    | DrainSend(fits: bool)

  // ---- Backends as the host uses them ------------------------------------------------------

  /** A backend whose thread was just created. */
  function Launched(): B.State<Task> {
    B.State(true, false, [], B.Looping, [], [])
  }

  function StopRequested(s: B.State<Task>): B.State<Task> {
    s.(stopRequested := true)
  }

  function Joined(s: B.State<Task>): B.State<Task> {
    s.(started := false, stopRequested := false, tasks := [])
  }

  /** Serials of the command hooks among `tasks`, in order. */
  function Invokes(tasks: seq<Task>): seq<nat> {
    if tasks == [] then [] else SerialOf(tasks[0]) + Invokes(tasks[1..])
  }

  function SerialOf(t: Task): seq<nat> {
    if t.Invoke? then [t.serial] else []
  }

  /** The result submitted by the worker's next step. */
  function Emitted(s: B.State<Task>): seq<nat> {
    if s.worker.Running? then SerialOf(s.worker.task) else []
  }

  // ---- Steps -----------------------------------------------------------------------------------

  predicate Free(h: Host) {
    h.phase.Idle? && h.draining == []
  }

  function WithBackend(h: Host, i: nat, s: B.State<Task>): Host
    requires i < |h.instances|
  {
    h.(instances := h.instances[i := h.instances[i].(backend := s)])
  }

  function WithLife(h: Host, i: nat, life: Life): Host
    requires i < |h.instances|
  {
    h.(instances := h.instances[i := h.instances[i].(life := life)])
  }

  // How a request is served.
  datatype Route = Immediate | ToInstance(i: nat) | ToFactory | Inline

  predicate Registered(h: Host, id: ExternalId) {
    id in h.registry && h.registry[id] < |h.instances|
  }

  function RouteOf(h: Host, req: Req): (r: Route)
    ensures r.ToInstance? ==> r.i < |h.instances|
    ensures r.ToFactory? ==> h.factory.Some?
  {
    if req.kind.Unknown? then Immediate
    else if req.target == [] then
      if !req.kind.AdapterActionInvoke? then Immediate
      else if h.factory.None? then Inline
      else if B.Accepts(h.factory.value) then ToFactory
      else Immediate
    else if Registered(h, req.target) && B.Accepts(h.instances[h.registry[req.target]].backend)
    then ToInstance(h.registry[req.target])
    else Immediate
  }

  function AfterReceive(h: Host, req: Req, fits: bool): Host {
    var serial := |h.requests|;
    var d := h.(requests := h.requests + [req]);
    match RouteOf(h, req)
    case Immediate => Answered(d.(immediate := d.immediate + [serial]), serial, fits)
    case Inline => d.(inlined := d.inlined + [serial], results := d.results + [serial])
    case ToInstance(i) => WithBackend(d, i, B.Enqueue(d.instances[i].backend, Invoke(serial)))
    case ToFactory => d.(factory := Some(B.Enqueue(d.factory.value, Invoke(serial))))
  }

  function Answered(h: Host, serial: nat, fits: bool): Host {
    if fits then h.(responses := h.responses + [serial]) else h.(unsent := h.unsent + [serial])
  }

  function AfterCreate(h: Host, id: ExternalId): Host {
    h.(instances := h.instances + [Instance(id, Creating, B.Enqueue(Launched(), StartHook))],
       phase := Starting(|h.instances|))
  }

  /** The start wait ended: registered if start() returned true, else rolled back. */
  function AfterStartEnd(h: Host, i: nat, ok: bool): Host
    requires i < |h.instances|
  {
    var s := h.instances[i].backend;
    if ok && s.executed == [StartHook]
    then WithLife(h, i, Live).(registry := h.registry[h.instances[i].id := i], phase := Idle)
    else WithBackend(h, i, StopRequested(s)).(phase := RollingBack(i))
  }

  /** Rollback hands the instance to destroyInstance whether or not the stop came back. */
  function AfterRollback(h: Host, i: nat): Host
    requires i < |h.instances|
  {
    var s := h.instances[i].backend;
    WithLife(WithBackend(h, i, if B.WorkerExited(s) then Joined(s) else s), i, RolledBack).(phase := Idle)
  }

  function AfterRemove(h: Host, id: ExternalId): Host
    requires Registered(h, id)
  {
    var i := h.registry[id];
    var s := h.instances[i].backend;
    WithLife(WithBackend(h, i, B.Enqueue(s, StopHook)), i, TearingDown)
    .(registry := h.registry - {id}, phase := AwaitingStop(i))
  }

  /** Teardown destroys only what its worker has left; otherwise it leaks. */
  function AfterJoin(h: Host, i: nat): Host
    requires i < |h.instances|
  {
    var s := h.instances[i].backend;
    if B.WorkerExited(s) then WithLife(WithBackend(h, i, Joined(s)), i, Destroyed).(phase := Idle)
    else WithLife(h, i, Leaked).(phase := Idle)
  }

  function AfterFactoryJoin(h: Host): Host {
    h.(factory := if h.factory.Some? && B.WorkerExited(h.factory.value) then Some(Joined(h.factory.value))
                  else h.factory,
       lost := h.lost + h.results, results := [], phase := Stopped)
  }

  function AfterWork(h: Host, i: nat): Host
    requires i < |h.instances|
  {
    var s := h.instances[i].backend;
    WithBackend(h, i, B.Advance(s)).(results := h.results + Emitted(s))
  }

  function AfterWorkFactory(h: Host): Host
    requires h.factory.Some?
  {
    var s := h.factory.value;
    h.(factory := Some(B.Advance(s)), results := h.results + Emitted(s))
  }

  /** A step that is not possible changes nothing. */
  predicate Enabled(h: Host, a: Action) {
    match a
    case Receive(req, _) => Free(h) && !h.stopping && 0 < req.cmdId < CMD_ID_BOUND
    case Notify(id, _) => Free(h) && !h.stopping && Registered(h, id)
    case NotifyFactory(_) => h.factory.Some?
    case Create(id) => Free(h) && !h.stopping && id != [] && id !in h.registry
    case StartEnd(_) => h.phase.Starting? && h.phase.i < |h.instances|
    case RollbackEnd => h.phase.RollingBack? && h.phase.i < |h.instances|
    case Remove(id) => Free(h) && Registered(h, id)
    case StopWaitEnd => h.phase.AwaitingStop? && h.phase.i < |h.instances|
    case JoinEnd => h.phase.Joining? && h.phase.i < |h.instances|
    case Shutdown => Free(h)
    case StopFactory => Free(h) && h.stopping && h.registry == map[]
    case FactoryJoinEnd => h.phase.JoiningFactory?
    case Work(i) => i < |h.instances|
    case WorkFactory => h.factory.Some?
    case DrainBegin => Free(h) && !h.stopping
    case DrainSend(_) => h.draining != []
  }

  function Step(h: Host, a: Action): Host {
    if !Enabled(h, a) then h
    else
      match a
      case Receive(req, fits) => AfterReceive(h, req, fits)
      case Notify(id, n) =>
        var i := h.registry[id];
        WithBackend(h, i, B.Enqueue(h.instances[i].backend, Hook(n)))
      case NotifyFactory(n) => h.(factory := Some(B.Enqueue(h.factory.value, Hook(n))))
      case Create(id) => AfterCreate(h, id)
      case StartEnd(ok) => AfterStartEnd(h, h.phase.i, ok)
      case RollbackEnd => AfterRollback(h, h.phase.i)
      case Remove(id) => AfterRemove(h, id)
      case StopWaitEnd =>
        WithBackend(h, h.phase.i, StopRequested(h.instances[h.phase.i].backend)).(phase := Joining(h.phase.i))
      case JoinEnd => AfterJoin(h, h.phase.i)
      case Shutdown => h.(stopping := true)
      case StopFactory =>
        h.(factory := if h.factory.None? then None else Some(StopRequested(B.Enqueue(h.factory.value, Hook(0)))),
           phase := JoiningFactory)
      case FactoryJoinEnd => AfterFactoryJoin(h)
      case Work(i) => AfterWork(h, i)
      case WorkFactory => AfterWorkFactory(h)
      case DrainBegin => h.(draining := h.results, results := [])
      case DrainSend(fits) => Answered(h.(draining := h.draining[1..]), h.draining[0], fits)
  }

  function Run(h: Host, run: seq<Action>): Host
    decreases |run|
  {
    if run == [] then h else Run(Step(h, run[0]), run[1..])
  }

  /** A started host, with or without a factory backend. */
  function Initial(backed: bool): Host {
    Host([], map[], if backed then Some(Launched()) else None, [], [], [], [], [], [], [], [], Idle, false)
  }
}
