// The default execution backend: one worker thread per backend, one controller that
// starts and stops it, and a registry that keeps workers that missed their deadline.

module Backend {
  // ---- A worker and its queue -------------------------------------------------------------

  // Where the worker is in its loop; `Leaving` has left the loop but not said so yet.
  datatype Worker<T> = NoThread | Looping | Running(task: T) | Leaving | Exited

  // The state a backend shares with its worker. `accepted` and `executed` are history.
  datatype State<T> = State(started: bool, stopRequested: bool, tasks: seq<T>, worker: Worker<T>,
                            accepted: seq<T>, executed: seq<T>)

  function Fresh<T>(): State<T> {
    State(false, false, [], NoThread, [], [])
  }

  predicate WorkerExited<T>(s: State<T>) {
    s.worker.NoThread? || s.worker.Exited?
  }

  function InHand<T>(s: State<T>): seq<T> {
    if s.worker.Running? then [s.worker.task] else []
  }

  /** One atomic step of the worker; no change while it waits. */
  function Advance<T>(s: State<T>): State<T> {
    match s.worker
    case NoThread => s
    case Looping =>
      if s.tasks != [] then s.(worker := Running(s.tasks[0]), tasks := s.tasks[1..])
      else if s.stopRequested then s.(worker := Leaving)
      else s
    case Running(task) => s.(worker := Looping, executed := s.executed + [task])
    case Leaving => s.(worker := Exited)
    case Exited => s
  }

  predicate Accepts<T>(s: State<T>) {
    s.started && !s.stopRequested
  }

  function Enqueue<T>(s: State<T>, task: T): State<T> {
    if Accepts(s) then s.(tasks := s.tasks + [task], accepted := s.accepted + [task]) else s
  }

  /** Everything accepted was executed, is running or is queued, in that order. */
  ghost predicate Sound<T>(s: State<T>) {
    && s.accepted == s.executed + InHand(s) + s.tasks
    && (s.worker.NoThread? ==> !s.started)
    && (!s.started ==> WorkerExited(s))
    && (s.worker.NoThread? || s.worker.Leaving? || s.worker.Exited? ==> s.tasks == [] && !Accepts(s))
  }

  lemma AdvanceSound<T>(s: State<T>)
    requires Sound(s)
    ensures Sound(Advance(s))
  {
    if s.worker.Looping? && s.tasks != [] {
      assert s.tasks == [s.tasks[0]] + s.tasks[1..];
      assert s.executed + [s.tasks[0]] + s.tasks[1..] == s.executed + ([s.tasks[0]] + s.tasks[1..]);
    }
  }

  lemma EnqueueSound<T>(s: State<T>, task: T)
    requires Sound(s)
    ensures Sound(Enqueue(s, task))
  {
    assert s.executed + InHand(s) + s.tasks + [task] == s.executed + InHand(s) + (s.tasks + [task]);
  }

  // ---- Draining -----------------------------------------------------------------------------

  /** Steps a stopping worker still takes. */
  function Remaining<T>(s: State<T>): nat {
    match s.worker
    case NoThread => 0
    case Looping => 2 * |s.tasks| + 2
    case Running(_) => 2 * |s.tasks| + 3
    case Leaving => 1
    case Exited => 0
  }

  function Iterate<T>(s: State<T>, steps: nat): State<T>
    decreases steps
  {
    if steps == 0 then s else Iterate(Advance(s), steps - 1)
  }

  lemma AdvanceRemaining<T>(s: State<T>)
    requires s.stopRequested
    ensures var d := Advance(s);
            && Remaining(d) == (if Remaining(s) == 0 then 0 else Remaining(s) - 1)
            && d.stopRequested && d.started == s.started && d.accepted == s.accepted
            && d.worker.NoThread? == s.worker.NoThread?
  {
  }

  /** Once stop is requested the worker leaves after exactly `Remaining` steps, and not before. */
  lemma {:induction false} DrainsExactly<T>(s: State<T>, steps: nat)
    requires Sound(s) && s.stopRequested
    ensures var d := Iterate(s, steps);
            && Sound(d) && d.stopRequested && d.started == s.started && d.accepted == s.accepted
            && d.worker.NoThread? == s.worker.NoThread?
            && (WorkerExited(d) <==> Remaining(s) <= steps)
    decreases steps
  {
    if steps > 0 {
      AdvanceSound(s);
      AdvanceRemaining(s);
      DrainsExactly(Advance(s), steps - 1);
    }
  }

  /** A worker that has left its loop has executed everything accepted, once and in order. */
  lemma ExitedDrained<T>(s: State<T>)
    requires Sound(s) && WorkerExited(s)
    ensures s.executed == s.accepted
  {
    assert s.executed + [] + [] == s.executed;
  }

  // ---- One backend over its life -------------------------------------------------------------

  /**
   * `joinable` is the backend's own thread handle; `stopping` means a stop has moved
   * it out and is waiting. `abandoned` are the registry's entries, `reaped` those
   * joined; `given` counts the states handed to the registry, which name its entries.
   */
  datatype Unit<T> = Unit(state: State<T>, joinable: bool, stopping: bool, given: nat,
                          abandoned: seq<Entry<T>>, reaped: seq<Entry<T>>)

  datatype Entry<T> = Entry(name: nat, state: State<T>)

  // Start, StopBegin and StopEnd are the controller's; StopEnd may come at any time,
  // and finds the worker exited or not.
  datatype Action<T> =
    | Start(created: bool)
    | Execute(task: T)
    | StopBegin
    | StopEnd
    | Work
    | WorkAbandoned(i: nat)
    | Reap

  function Initial<T>(): Unit<T> {
    Unit(Fresh(), false, false, 0, [], [])
  }

  function AfterStart<T>(u: Unit<T>, created: bool): Unit<T> {
    if u.joinable || u.state.started then u
    else
      var s := u.state.(stopRequested := false);
      if created then u.(state := s.(started := true, worker := Looping), joinable := true)
      else u.(state := s.(worker := Exited))
  }

  function AfterStopBegin<T>(u: Unit<T>): Unit<T> {
    if !u.state.started && !u.joinable then u
    else if !u.joinable then
      u.(state := u.state.(started := false, stopRequested := false, tasks := [], worker := Exited))
    else u.(state := u.state.(stopRequested := true), joinable := false, stopping := true)
  }

  function AfterStopEnd<T>(u: Unit<T>): Unit<T> {
    if WorkerExited(u.state)
    then u.(state := u.state.(started := false, stopRequested := false, tasks := []), stopping := false)
    else u.(state := Fresh(), stopping := false, given := u.given + 1,
            abandoned := u.abandoned + [Entry(u.given, u.state)])
  }

  function Left<T>(entries: seq<Entry<T>>): seq<Entry<T>> {
    if entries == [] then []
    else (if WorkerExited(entries[0].state) then [] else [entries[0]]) + Left(entries[1..])
  }

  function Done<T>(entries: seq<Entry<T>>): seq<Entry<T>> {
    if entries == [] then []
    else (if WorkerExited(entries[0].state) then [entries[0]] else []) + Done(entries[1..])
  }

  function Step<T>(u: Unit<T>, a: Action<T>): Unit<T> {
    match a
    case Start(created) => if u.stopping then u else AfterStart(u, created)
    case Execute(task) => u.(state := Enqueue(u.state, task))
    case StopBegin => if u.stopping then u else AfterStopBegin(u)
    case StopEnd => if u.stopping then AfterStopEnd(u) else u
    case Work => u.(state := Advance(u.state))
    case WorkAbandoned(i) =>
      if i < |u.abandoned|
      then u.(abandoned := u.abandoned[i := Entry(u.abandoned[i].name, Advance(u.abandoned[i].state))])
      else u
    case Reap => u.(abandoned := Left(u.abandoned), reaped := u.reaped + Done(u.abandoned))
  }

  function Run<T>(u: Unit<T>, run: seq<Action<T>>): Unit<T>
    decreases |run|
  {
    if run == [] then u else Run(Step(u, run[0]), run[1..])
  }

  /** Still owned by a worker that was told to stop. */
  ghost predicate Abandoned<T>(s: State<T>) {
    Sound(s) && s.stopRequested && !s.worker.NoThread?
  }

  ghost predicate AllAbandoned<T>(entries: seq<Entry<T>>) {
    forall k :: 0 <= k < |entries| ==> Abandoned(entries[k].state)
  }

  ghost predicate AllDrained<T>(entries: seq<Entry<T>>) {
    forall k :: 0 <= k < |entries| ==> entries[k].state.executed == entries[k].state.accepted
  }

  ghost predicate Inv<T>(u: Unit<T>) {
    && Sound(u.state)
    && (u.stopping ==> !u.joinable && u.state.started && u.state.stopRequested)
    && (!u.stopping ==> u.joinable == u.state.started && !u.state.stopRequested)
    && AllAbandoned(u.abandoned)
    && AllDrained(u.reaped)
  }

  lemma {:induction false} ReapSplits<T>(entries: seq<Entry<T>>)
    requires AllAbandoned(entries)
    ensures AllAbandoned(Left(entries)) && AllDrained(Done(entries))
  {
    hide Sound;
    if entries != [] {
      ReapSplits(entries[1..]);
      if WorkerExited(entries[0].state) {
        ExitedDrained(entries[0].state);
      }
    }
  }

  lemma DrainedAppend<T>(a: seq<Entry<T>>, b: seq<Entry<T>>)
    requires AllDrained(a) && AllDrained(b)
    ensures AllDrained(a + b)
  {
  }

  lemma ControlKeeps<T>(u: Unit<T>, created: bool)
    requires Inv(u) && !u.stopping
    ensures Inv(AfterStart(u, created)) && Inv(AfterStopBegin(u))
  {
    hide AllAbandoned, AllDrained;
  }

  lemma StopEndKeeps<T>(u: Unit<T>)
    requires Inv(u) && u.stopping
    ensures Inv(AfterStopEnd(u))
  {
    hide AllDrained;
  }

  lemma StepKeeps<T>(u: Unit<T>, a: Action<T>)
    requires Inv(u)
    ensures Inv(Step(u, a))
  {
    match a
    case Start(created) =>
      if !u.stopping {
        ControlKeeps(u, created);
      }
    case StopBegin =>
      if !u.stopping {
        ControlKeeps(u, false);
      }
    case StopEnd =>
      if u.stopping {
        StopEndKeeps(u);
      }
    case Execute(task) =>
      hide Sound, AllAbandoned, AllDrained;
      EnqueueSound(u.state, task);
    case Work =>
      hide Sound, AllAbandoned, AllDrained;
      AdvanceSound(u.state);
    case WorkAbandoned(i) =>
      hide Sound, AllDrained;
      if i < |u.abandoned| {
        AdvanceSound(u.abandoned[i].state);
      }
    case Reap =>
      hide Sound, AllAbandoned, AllDrained;
      ReapSplits(u.abandoned);
      DrainedAppend(u.reaped, Done(u.abandoned));
  }

  lemma {:induction false} RunKeeps<T>(u: Unit<T>, run: seq<Action<T>>)
    requires Inv(u)
    ensures Inv(Run(u, run))
    decreases |run|
  {
    if run != [] {
      hide Inv, Step;
      StepKeeps(u, run[0]);
      RunKeeps(Step(u, run[0]), run[1..]);
    }
  }

  /** Over any run: accepted tasks are executed, then running, then queued, in one FIFO order. */
  lemma AcceptedInOrder<T>(run: seq<Action<T>>)
    ensures var u := Run(Initial(), run);
            && u.state.accepted == u.state.executed + InHand(u.state) + u.state.tasks
            && forall k :: 0 <= k < |u.abandoned| ==>
                 var s := u.abandoned[k].state; s.accepted == s.executed + InHand(s) + s.tasks
  {
    RunKeeps(Initial(), run);
    var u := Run(Initial<T>(), run);
    forall k | 0 <= k < |u.abandoned|
      ensures var s := u.abandoned[k].state; s.accepted == s.executed + InHand(s) + s.tasks
    {
      assert Abandoned(u.abandoned[k].state);
    }
  }

  /** The branch of stop for a started backend without a thread is never taken. */
  lemma StopFindsThread<T>(run: seq<Action<T>>)
    ensures var u := Run(Initial(), run); !u.stopping && u.state.started ==> u.joinable
  {
    RunKeeps(Initial(), run);
  }

  /** A stop that returns true has run everything accepted; one that returns false starts over. */
  lemma StopOutcome<T>(run: seq<Action<T>>)
    ensures var u := Run(Initial(), run);
            u.stopping ==>
              var d := Step(u, StopEnd);
              if WorkerExited(u.state)
              then d.state.executed == d.state.accepted == u.state.accepted && d.abandoned == u.abandoned
              else d.state == Fresh() && d.abandoned == u.abandoned + [Entry(u.given, u.state)]
  {
    RunKeeps(Initial(), run);
    var u := Run(Initial<T>(), run);
    if u.stopping && WorkerExited(u.state) {
      ExitedDrained(u.state);
    }
  }

  // ---- Nothing is accepted after stop is requested ----------------------------------------------

  /** Until the stop returns, whatever is submitted and however long it takes. */
  lemma {:induction false} StoppingAcceptsNothing<T>(u: Unit<T>, run: seq<Action<T>>)
    requires Inv(u) && u.stopping
    requires forall k :: 0 <= k < |run| ==> !run[k].StopEnd?
    ensures Run(u, run).state.accepted == u.state.accepted && Run(u, run).stopping
    decreases |run|
  {
    if run != [] {
      StepKeeps(u, run[0]);
      hide Inv;
      StoppingStep(u, run[0]);
      StoppingAcceptsNothing(Step(u, run[0]), run[1..]);
    }
  }

  lemma StoppingStep<T>(u: Unit<T>, a: Action<T>)
    requires Inv(u) && u.stopping && !a.StopEnd?
    ensures Step(u, a).state.accepted == u.state.accepted && Step(u, a).stopping
  {
    AdvanceRemaining(u.state);
  }

  /** The entry `e` began as: still waited for, or joined with everything executed. */
  ghost predicate AccountedFor<T>(e: Entry<T>, u: Unit<T>) {
    || (exists k :: 0 <= k < |u.abandoned| && SameWork(e, u.abandoned[k]))
    || (exists k :: 0 <= k < |u.reaped| && SameWork(e, u.reaped[k])
                    && u.reaped[k].state.executed == e.state.accepted)
  }

  ghost predicate SameWork<T>(e: Entry<T>, f: Entry<T>) {
    e.name == f.name && e.state.accepted == f.state.accepted
  }

  lemma {:induction false} InOneOf<T>(entries: seq<Entry<T>>, i: nat)
    requires i < |entries|
    ensures if WorkerExited(entries[i].state) then entries[i] in Done(entries) else entries[i] in Left(entries)
  {
    if i > 0 {
      InOneOf(entries[1..], i - 1);
    }
  }

  lemma ReapAccounts<T>(e: Entry<T>, u: Unit<T>, i: nat)
    requires i < |u.abandoned| && Abandoned(u.abandoned[i].state) && SameWork(e, u.abandoned[i])
    ensures AccountedFor(e, Step(u, Reap))
  {
    hide Left, Done;
    var d, f := Step(u, Reap), u.abandoned[i];
    InOneOf(u.abandoned, i);
    if WorkerExited(f.state) {
      ExitedDrained(f.state);
      var j :| 0 <= j < |Done(u.abandoned)| && Done(u.abandoned)[j] == f;
      assert d.reaped[|u.reaped| + j] == f;
    } else {
      var j :| 0 <= j < |d.abandoned| && d.abandoned[j] == f;
    }
  }

  lemma StepAccounts<T>(e: Entry<T>, u: Unit<T>, a: Action<T>)
    requires Inv(u) && AccountedFor(e, u)
    ensures AccountedFor(e, Step(u, a))
  {
    hide Sound, Left, Done;
    var d := Step(u, a);
    if k :| 0 <= k < |u.abandoned| && SameWork(e, u.abandoned[k]) {
      assert Abandoned(u.abandoned[k].state);
      if a.Reap? {
        ReapAccounts(e, u, k);
      } else {
        AdvanceRemaining(u.abandoned[k].state);
        assert SameWork(e, d.abandoned[k]);
      }
    } else {
      var k :| 0 <= k < |u.reaped| && SameWork(e, u.reaped[k]) && u.reaped[k].state.executed == e.state.accepted;
      assert d.reaped[k] == u.reaped[k];
    }
  }

  /**
   * An abandoned worker is never forgotten and never given more work: in every later
   * state its entry is in the registry, or was joined after executing everything.
   */
  lemma {:induction false} AbandonedAccountedFor<T>(e: Entry<T>, u: Unit<T>, run: seq<Action<T>>)
    requires Inv(u) && AccountedFor(e, u)
    ensures AccountedFor(e, Run(u, run))
    decreases |run|
  {
    if run != [] {
      hide Inv, Step, AccountedFor;
      StepKeeps(u, run[0]);
      StepAccounts(e, u, run[0]);
      AbandonedAccountedFor(e, Step(u, run[0]), run[1..]);
    }
  }
}
