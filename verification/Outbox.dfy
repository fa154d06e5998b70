// The bounded send queue: any thread submits frames, one poll thread swaps the queue
// out and sends it. Shedding keeps it bounded without ever losing a response.

module Outbox {
  import opened Bytes
  import opened Frame

  const QUEUE_MAX_DEPTH := 4096

  // Log frames, incidents included, are a class of events.
  datatype OutboundFrame = OutboundFrame(kind: MessageType, isLog: bool, correlationId: nat, payload: bytes)

  /** The frames the send functions build. */
  predicate Built(f: OutboundFrame) {
    !f.kind.Request? && (f.isLog ==> f.kind.Event?) && f.correlationId < Bound(8)
  }

  predicate AllBuilt(q: seq<OutboundFrame>) {
    forall k :: 0 <= k < |q| ==> Built(q[k])
  }

  // ---- Shedding ---------------------------------------------------------------------------

  function FirstLog(q: seq<OutboundFrame>): (i: nat)
    ensures i <= |q| && (i < |q| ==> q[i].isLog)
    ensures forall k :: 0 <= k < i ==> !q[k].isLog
  {
    if q == [] || q[0].isLog then 0 else 1 + FirstLog(q[1..])
  }

  function FirstEvent(q: seq<OutboundFrame>): (i: nat)
    ensures i <= |q| && (i < |q| ==> q[i].kind.Event?)
    ensures forall k :: 0 <= k < i ==> !q[k].kind.Event?
  {
    if q == [] || q[0].kind.Event? then 0 else 1 + FirstEvent(q[1..])
  }

  /** The frame to shed: the oldest log, else the oldest event; `|q|` when there is neither. */
  function ShedIndex(q: seq<OutboundFrame>): (i: nat)
    ensures i <= |q|
  {
    if FirstLog(q) < |q| then FirstLog(q) else FirstEvent(q)
  }

  // Where a submission goes: refused, or queued, possibly at the cost of another frame.
  datatype Admission = Rejected | Queued(queue: seq<OutboundFrame>, shed: seq<OutboundFrame>)

  function Admit(q: seq<OutboundFrame>, f: OutboundFrame): Admission {
    if |q| < QUEUE_MAX_DEPTH then Queued(q + [f], [])
    else
      var i := ShedIndex(q);
      if i < |q| then Queued(Without(q, i) + [f], [q[i]])
      else if f.kind.Event? then Rejected
      else Queued(q + [f], [])
  }

  function Without<T>(q: seq<T>, i: nat): (r: seq<T>)
    requires i < |q|
    ensures |r| == |q| - 1
  {
    q[..i] + q[i + 1..]
  }

  predicate HasLog(q: seq<OutboundFrame>) {
    exists k :: 0 <= k < |q| && q[k].isLog
  }

  predicate HasEvent(q: seq<OutboundFrame>) {
    exists k :: 0 <= k < |q| && q[k].kind.Event?
  }

  /** The frames that are not events: the responses. */
  function Responses(q: seq<OutboundFrame>): seq<OutboundFrame> {
    if q == [] then []
    else (if q[0].kind.Event? then [] else [q[0]]) + Responses(q[1..])
  }

  lemma {:induction false} ResponsesAppend(a: seq<OutboundFrame>, b: seq<OutboundFrame>)
    ensures Responses(a + b) == Responses(a) + Responses(b)
  {
    if a == [] {
      assert a + b == b;
    } else {
      assert (a + b)[1..] == a[1..] + b;
      ResponsesAppend(a[1..], b);
    }
  }

  lemma ResponsesOne(f: OutboundFrame)
    ensures Responses([f]) == if f.kind.Event? then [] else [f]
  {
    assert [f][1..] == [];
  }

  lemma ResponsesWithout(q: seq<OutboundFrame>, i: nat)
    requires i < |q| && q[i].kind.Event?
    ensures Responses(Without(q, i)) == Responses(q)
  {
    hide Responses;
    ResponsesOne(q[i]);
    assert q == q[..i] + ([q[i]] + q[i + 1..]);
    ResponsesAppend(q[..i], [q[i]] + q[i + 1..]);
    ResponsesAppend([q[i]], q[i + 1..]);
    ResponsesAppend(q[..i], q[i + 1..]);
  }

  /**
   * What is shed, and when: at most one frame, only from a full queue, never a
   * response, a log before any other event, and the oldest of its kind. A frame is
   * refused only when it is an event and everything queued is a response.
   */
  lemma ShedPolicy(q: seq<OutboundFrame>, f: OutboundFrame)
    requires AllBuilt(q)
    ensures var a := Admit(q, f);
            && (a.Rejected? <==> |q| >= 4096 && !HasEvent(q) && f.kind.Event?)
            && (a.Queued? && a.shed == [] ==> a.queue == q + [f])
            && (a.Queued? && a.shed != [] ==>
                  |q| >= 4096
                  && exists i :: 0 <= i < |q| && a.shed == [q[i]] && a.queue == Without(q, i) + [f]
                                 && q[i].kind.Event? && (q[i].isLog || !HasLog(q))
                                 && forall k :: 0 <= k < i ==> q[k].isLog != q[i].isLog || !q[k].kind.Event?)
    ensures |q| >= 4096 && HasEvent(q) ==> Admit(q, f).Queued? && Admit(q, f).shed != []
  {
    var i := ShedIndex(q);
    if i < |q| {
      assert Built(q[i]);
      if FirstLog(q) >= |q| {
        assert forall k :: 0 <= k < |q| ==> !q[k].isLog;
      }
    } else {
      assert forall k :: 0 <= k < |q| ==> !q[k].kind.Event?;
    }
  }

  // ---- Order ----------------------------------------------------------------------------------

  /** `a` is `b` with some elements left out. */
  predicate Subsequence<T(==)>(a: seq<T>, b: seq<T>)
    decreases |b|
  {
    if a == [] then true
    else if b == [] then false
    else
      (a[|a| - 1] == b[|b| - 1] && Subsequence(a[..|a| - 1], b[..|b| - 1])) || Subsequence(a, b[..|b| - 1])
  }

  lemma SubsequenceSnoc<T>(a: seq<T>, b: seq<T>, x: T)
    requires Subsequence(a, b)
    ensures Subsequence(a + [x], b + [x])
  {
    assert (a + [x])[..|a|] == a && (b + [x])[..|b|] == b;
  }

  lemma {:induction false} SubsequenceWithout<T>(a: seq<T>, b: seq<T>, i: nat)
    requires Subsequence(a, b) && i < |a|
    ensures Subsequence(Without(a, i), b)
    decreases |b|
  {
    var front, init := b[..|b| - 1], a[..|a| - 1];
    var r := Without(a, i);
    if Subsequence(a, front) {
      SubsequenceWithout(a, front, i);
    } else if i == |a| - 1 {
      assert r == init;
    } else {
      SubsequenceWithout(init, front, i);
      assert r == Without(init, i) + [a[|a| - 1]];
      assert r[..|r| - 1] == Without(init, i);
    }
  }

  // ---- The pipeline ------------------------------------------------------------------------------

  /**
   * The dispatcher's outbound state. `flight` is the local queue of a flush; the
   * rest is history: `since` is what was accepted since the last flush or clear,
   * `taken` what left the queue at its head, `flushes` counts the swaps that took
   * something, and each accepted frame ends in one of `sent`, `failed`, `lost`,
   * `shed` and `cleared`.
   */
  datatype Box = Box(queue: seq<OutboundFrame>, flight: seq<OutboundFrame>, dropped: nat,
                     since: seq<OutboundFrame>, accepted: seq<OutboundFrame>, rejected: seq<OutboundFrame>,
                     taken: seq<OutboundFrame>, shed: seq<OutboundFrame>, cleared: seq<OutboundFrame>,
                     sent: seq<OutboundFrame>, failed: seq<OutboundFrame>, lost: seq<OutboundFrame>, flushes: nat)

  const EMPTY := Box([], [], 0, [], [], [], [], [], [], [], [], [], 0)

  // One atomic step each: a locked region, or one send. A thread may have seen
  // `started` before another stopped the dispatcher, so submissions come at any time.
  datatype Action =
    | Submit(f: OutboundFrame, sawStarted: bool)
    | Swap
    | SendHead(ok: bool)
    | ClearByStop

  predicate Acceptable(f: OutboundFrame) {
    0 < |f.payload| <= MAX_PAYLOAD
  }

  function AfterSubmit(b: Box, f: OutboundFrame): Box {
    match Admit(b.queue, f)
    case Rejected => b.(dropped := b.dropped + 1, rejected := b.rejected + [f])
    case Queued(queue, shed) =>
      b.(queue := queue, dropped := b.dropped + |shed|, shed := b.shed + shed,
         since := b.since + [f], accepted := b.accepted + [f])
  }

  /** A failed send means the connection is gone, and the rest of the flight is dropped. */
  function AfterHead(b: Box, ok: bool): Box
    requires b.flight != []
  {
    var head, rest := [b.flight[0]], b.flight[1..];
    if ok then b.(flight := rest, sent := b.sent + head)
    else b.(flight := [], failed := b.failed + head, lost := b.lost + rest, dropped := b.dropped + |rest|)
  }

  function Step(b: Box, a: Action): Box {
    match a
    case Submit(f, sawStarted) => if sawStarted && Acceptable(f) then AfterSubmit(b, f) else b
    case Swap =>
      if b.flight != [] || b.queue == [] then b
      else b.(flight := b.queue, queue := [], since := [], taken := b.taken + b.queue, flushes := b.flushes + 1)
    case SendHead(ok) => if b.flight == [] then b else AfterHead(b, ok)
    case ClearByStop => b.(queue := [], since := [], taken := b.taken + b.queue, cleared := b.cleared + b.queue)
  }

  predicate AllSubmitsBuilt(run: seq<Action>) {
    forall k :: 0 <= k < |run| ==> run[k].Submit? ==> Built(run[k].f)
  }

  function Run(b: Box, run: seq<Action>): Box
    decreases |run|
  {
    if run == [] then b else Run(Step(b, run[0]), run[1..])
  }

  // ---- What every step keeps -----------------------------------------------------------------------

  predicate Bounded(b: Box) {
    AllBuilt(b.queue) && (|b.queue| > QUEUE_MAX_DEPTH ==> !HasEvent(b.queue))
  }

  predicate Ordered(b: Box) {
    && Subsequence(b.queue, b.since)
    && Responses(b.queue) == Responses(b.since)
    && Responses(b.accepted) == Responses(b.taken) + Responses(b.queue)
  }

  predicate Conserved(b: Box) {
    && multiset(b.accepted)
       == multiset(b.sent) + multiset(b.failed) + multiset(b.shed) + multiset(b.lost) + multiset(b.cleared)
          + multiset(b.flight) + multiset(b.queue)
    && b.dropped == |b.shed| + |b.rejected| + |b.lost|
    && |b.failed| + (if b.flight == [] then 0 else 1) <= b.flushes
  }

  predicate Inv(b: Box) {
    Bounded(b) && Ordered(b) && Conserved(b)
  }

  lemma SubmitBounded(b: Box, f: OutboundFrame)
    requires Bounded(b) && Built(f)
    ensures Bounded(AfterSubmit(b, f))
  {
    ShedPolicy(b.queue, f);
  }

  lemma SubmitOrdered(b: Box, f: OutboundFrame)
    requires Bounded(b) && Ordered(b) && Built(f)
    ensures Ordered(AfterSubmit(b, f))
  {
    hide Subsequence, Responses, HasEvent;
    if Admit(b.queue, f).Queued? {
      var kept := KeptOrdered(b.queue, b.since, f);
      hide Admit, Built;
      SubsequenceSnoc(kept, b.since, f);
      ResponsesAppend(kept, [f]);
      ResponsesAppend(b.since, [f]);
      ResponsesAppend(b.accepted, [f]);
      assert Responses(b.taken) + Responses(kept) + Responses([f])
          == Responses(b.taken) + (Responses(kept) + Responses([f]));
    }
  }

  lemma KeptOrdered(q: seq<OutboundFrame>, since: seq<OutboundFrame>, f: OutboundFrame)
    returns (kept: seq<OutboundFrame>)
    requires AllBuilt(q) && Subsequence(q, since) && Admit(q, f).Queued?
    ensures Admit(q, f).queue == kept + [f]
    ensures Subsequence(kept, since) && Responses(kept) == Responses(q)
  {
    hide Subsequence, ShedIndex, Responses;
    ShedIndexIsEvent(q);
    kept := q;
    if Admit(q, f).shed != [] {
      kept := Without(q, ShedIndex(q));
      SubsequenceWithout(q, since, ShedIndex(q));
      ResponsesWithout(q, ShedIndex(q));
    }
  }

  lemma ShedIndexIsEvent(q: seq<OutboundFrame>)
    requires AllBuilt(q)
    ensures ShedIndex(q) < |q| ==> q[ShedIndex(q)].kind.Event?
  {
    if ShedIndex(q) < |q| {
      assert Built(q[ShedIndex(q)]);
    }
  }

  lemma MultisetWithout<T>(q: seq<T>, i: nat)
    requires i < |q|
    ensures multiset(q) == multiset(Without(q, i)) + multiset([q[i]])
  {
    assert q == q[..i] + ([q[i]] + q[i + 1..]);
  }

  lemma SubmitConserved(b: Box, f: OutboundFrame)
    requires Conserved(b)
    ensures Conserved(AfterSubmit(b, f))
  {
    hide ShedIndex;
    var a := Admit(b.queue, f);
    if a.Queued? && a.shed != [] {
      MultisetWithout(b.queue, ShedIndex(b.queue));
    }
  }

  lemma HeadConserved(b: Box, ok: bool)
    requires Conserved(b) && b.flight != []
    ensures Conserved(AfterHead(b, ok))
  {
    assert b.flight == [b.flight[0]] + b.flight[1..];
  }

  lemma StepKeeps(b: Box, a: Action)
    requires Inv(b) && (a.Submit? ==> Built(a.f))
    ensures Inv(Step(b, a))
  {
    hide Inv, AfterSubmit, AfterHead, Built;
    match a
    case Submit(f, sawStarted) => SubmitKeeps(b, f);
    case SendHead(ok) =>
      if b.flight != [] {
        HeadKeeps(b, ok);
      }
    case Swap => TakenKeeps(b);
    case ClearByStop => TakenKeeps(b);
  }

  lemma SubmitKeeps(b: Box, f: OutboundFrame)
    requires Inv(b) && Built(f)
    ensures Inv(AfterSubmit(b, f))
  {
    hide Bounded, Ordered, Conserved, AfterSubmit;
    SubmitBounded(b, f);
    SubmitOrdered(b, f);
    SubmitConserved(b, f);
  }

  lemma HeadKeeps(b: Box, ok: bool)
    requires Inv(b) && b.flight != []
    ensures Inv(AfterHead(b, ok))
  {
    hide Conserved, AfterHead, Responses, Subsequence, Built;
    HeadConserved(b, ok);
    HeadLeavesQueue(b, ok);
  }

  lemma TakenKeeps(b: Box)
    requires Inv(b)
    ensures Inv(Step(b, Swap)) && Inv(Step(b, ClearByStop))
  {
    hide Conserved, Ordered;
    TakenConserved(b);
    SwapOrdered(b);
  }

  lemma SwapOrdered(b: Box)
    requires Ordered(b)
    ensures Ordered(Step(b, Swap)) && Ordered(Step(b, ClearByStop))
  {
    hide Responses;
    TakenOrdered(b);
  }

  lemma NoResponses()
    ensures Responses([]) == []
  {
  }

  lemma TakenOrdered(b: Box)
    requires Ordered(b)
    ensures Ordered(b.(queue := [], since := [], taken := b.taken + b.queue))
  {
    ResponsesAppend(b.taken, b.queue);
  }

  lemma TakenConserved(b: Box)
    requires Conserved(b)
    ensures b.flight == [] && b.queue != [] ==> Conserved(Step(b, Swap))
    ensures Conserved(Step(b, ClearByStop))
  {
  }

  lemma HeadLeavesQueue(b: Box, ok: bool)
    requires b.flight != []
    ensures var d := AfterHead(b, ok);
            d.queue == b.queue && d.since == b.since && d.accepted == b.accepted && d.taken == b.taken
  {
  }

  lemma {:induction false} RunKeeps(b: Box, run: seq<Action>)
    requires Inv(b) && AllSubmitsBuilt(run)
    ensures Inv(Run(b, run))
    decreases |run|
  {
    if run != [] {
      hide Inv, Step;
      assert run[0].Submit? ==> Built(run[0].f);
      StepKeeps(b, run[0]);
      RunKeeps(Step(b, run[0]), run[1..]);
    }
  }

  lemma EmptyInv()
    ensures Inv(EMPTY)
  {
  }

  /** However long the queue grows past its cap, what it holds then is responses. */
  lemma QueueBounded(run: seq<Action>)
    requires AllSubmitsBuilt(run)
    ensures var q := Run(EMPTY, run).queue;
            |q| > 4096 ==> Responses(q) == q && forall k :: 0 <= k < |q| ==> q[k].kind.Response?
  {
    EmptyInv();
    RunKeeps(EMPTY, run);
    var q := Run(EMPTY, run).queue;
    if |q| > QUEUE_MAX_DEPTH {
      NoEventsAllResponses(q);
      assert forall k :: 0 <= k < |q| ==> Built(q[k]);
    }
  }

  lemma {:induction false} NoEventsAllResponses(q: seq<OutboundFrame>)
    requires !HasEvent(q)
    ensures Responses(q) == q
  {
    if q != [] {
      assert forall k :: 0 <= k < |q[1..]| ==> q[1..][k] == q[k + 1];
      NoEventsAllResponses(q[1..]);
    }
  }

  /** The queue keeps submission order since the last flush, and all its responses. */
  lemma QueueInOrder(run: seq<Action>)
    requires AllSubmitsBuilt(run)
    ensures var b := Run(EMPTY, run);
            Subsequence(b.queue, b.since) && Responses(b.queue) == Responses(b.since)
  {
    EmptyInv();
    RunKeeps(EMPTY, run);
  }

  /**
   * Every accepted frame is in exactly one place, the drop counter counts three of
   * them, and a flush has at most one failed head.
   */
  lemma FramesConserved(run: seq<Action>)
    requires AllSubmitsBuilt(run)
    ensures Conserved(Run(EMPTY, run))
  {
    EmptyInv();
    RunKeeps(EMPTY, run);
  }

  // ---- Refinement -------------------------------------------------------------------------------------

  // An unbounded FIFO with the same stages and no policy: nothing is ever refused.
  datatype Fifo = Fifo(queue: seq<OutboundFrame>, flight: seq<OutboundFrame>, sent: seq<OutboundFrame>)

  datatype FifoAction = Push(f: OutboundFrame) | Take | Deliver | Disconnect | Clear | Idle

  function FifoStep(s: Fifo, a: FifoAction): Fifo {
    match a
    case Push(f) => s.(queue := s.queue + [f])
    case Take => if s.flight == [] then Fifo([], s.queue, s.sent) else s
    case Deliver => if s.flight == [] then s else Fifo(s.queue, s.flight[1..], s.sent + [s.flight[0]])
    case Disconnect => s.(flight := [])
    case Clear => s.(queue := [])
    case Idle => s
  }

  /** The responses of the pipeline, stage by stage. */
  function ResponsePart(b: Box): Fifo {
    Fifo(Responses(b.queue), Responses(b.flight), Responses(b.sent))
  }

  /** What a step is to the responses; events pass unseen. */
  function ResponseAction(b: Box, a: Action): FifoAction {
    match a
    case Submit(f, sawStarted) => if sawStarted && Acceptable(f) && !f.kind.Event? then Push(f) else Idle
    case Swap => if b.flight == [] && b.queue != [] then Take else Idle
    case SendHead(ok) =>
      if b.flight == [] then Idle
      else if !ok then Disconnect
      else if b.flight[0].kind.Event? then Idle
      else Deliver
    case ClearByStop => Clear
  }

  lemma SubmitRefines(b: Box, f: OutboundFrame)
    requires AllBuilt(b.queue) && Built(f)
    ensures ResponsePart(AfterSubmit(b, f)) == FifoStep(ResponsePart(b), if f.kind.Event? then Idle else Push(f))
  {
    hide ShedIndex;
    ShedIndexIsEvent(b.queue);
    var a := Admit(b.queue, f);
    if a.Queued? {
      var kept := if a.shed == [] then b.queue else Without(b.queue, ShedIndex(b.queue));
      if a.shed != [] {
        ResponsesWithout(b.queue, ShedIndex(b.queue));
      }
      assert a.queue == kept + [f];
      ResponsesAppend(kept, [f]);
      ResponsesOne(f);
    }
  }

  /** Step by step, shedding and bounds included, responses see an unbounded FIFO. */
  lemma RefinesFifo(b: Box, a: Action)
    requires Inv(b) && (a.Submit? ==> Built(a.f))
    ensures ResponsePart(Step(b, a)) == FifoStep(ResponsePart(b), ResponseAction(b, a))
  {
    hide AfterSubmit, AfterHead, Responses;
    NoResponses();
    match a
    case Submit(f, sawStarted) => SubmitRefines(b, f);
    case Swap =>
    case SendHead(ok) =>
      if b.flight != [] {
        HeadRefines(b, ok);
      }
    case ClearByStop =>
  }

  lemma HeadRefines(b: Box, ok: bool)
    requires b.flight != []
    ensures ResponsePart(AfterHead(b, ok)) == FifoStep(ResponsePart(b), ResponseAction(b, SendHead(ok)))
  {
    if ok {
      ResponsesAppend(b.sent, [b.flight[0]]);
      ResponsesOne(b.flight[0]);
    }
  }

  predicate NeverFails(run: seq<Action>) {
    forall k :: 0 <= k < |run| ==> !run[k].ClearByStop? && (run[k].SendHead? ==> run[k].ok)
  }

  predicate ResponsesThrough(b: Box) {
    Responses(b.accepted) == Responses(b.sent) + Responses(b.flight) + Responses(b.queue)
  }

  lemma StepThrough(b: Box, a: Action)
    requires Inv(b) && ResponsesThrough(b)
    requires a.Submit? ==> Built(a.f)
    requires !a.ClearByStop? && (a.SendHead? ==> a.ok)
    ensures ResponsesThrough(Step(b, a))
  {
    RefinesFifo(b, a);
    hide Responses, AfterSubmit;
    if a.Submit? {
      AcceptedResponses(b, a.f);
    }
    FifoThrough(ResponsePart(b), ResponseAction(b, a));
  }

  /** What the FIFO holds, oldest first. */
  function Held(s: Fifo): seq<OutboundFrame> {
    s.sent + s.flight + s.queue
  }

  lemma FifoThrough(s: Fifo, a: FifoAction)
    requires !a.Disconnect? && !a.Clear?
    ensures Held(FifoStep(s, a)) == Held(s) + (if a.Push? then [a.f] else [])
  {
    var sf := s.sent + s.flight;
    if a.Push? {
      assert sf + s.queue + [a.f] == sf + (s.queue + [a.f]);
    }
    if a.Deliver? && s.flight != [] {
      assert s.flight == [s.flight[0]] + s.flight[1..];
    }
  }

  lemma AcceptedResponses(b: Box, f: OutboundFrame)
    requires AllBuilt(b.queue)
    ensures Responses(AfterSubmit(b, f).accepted) == Responses(b.accepted) + (if f.kind.Event? then [] else [f])
  {
    hide ShedIndex;
    ResponsesAppend(b.accepted, [f]);
    ResponsesOne(f);
  }

  /**
   * While no send fails and the dispatcher is not stopped, responses come out in
   * the order they were submitted, none missing, however many events were shed.
   */
  lemma {:induction false} ResponsesFifo(b: Box, run: seq<Action>)
    requires Inv(b) && ResponsesThrough(b) && AllSubmitsBuilt(run) && NeverFails(run)
    ensures ResponsesThrough(Run(b, run))
    decreases |run|
  {
    if run != [] {
      hide Inv, Step, ResponsesThrough;
      var a := run[0];
      assert (a.Submit? ==> Built(a.f)) && !a.ClearByStop? && (a.SendHead? ==> a.ok);
      StepKeeps(b, a);
      StepThrough(b, a);
      ResponsesFifo(Step(b, a), run[1..]);
    }
  }

  // ---- All frames in order ----------------------------------------------------------------------------

  /** What left and what is still held, oldest first, is what was accepted with some shed. */
  predicate InOrder(b: Box) {
    Subsequence(b.sent + b.flight + b.queue, b.accepted)
  }

  lemma OrderStep(b: Box, a: Action)
    requires InOrder(b) && !a.ClearByStop? && (a.SendHead? ==> a.ok)
    ensures InOrder(Step(b, a))
  {
    hide Subsequence, ShedIndex;
    var d, gone := Step(b, a), b.sent + b.flight;
    match a
    case Submit(f, sawStarted) =>
      if sawStarted && Acceptable(f) && Admit(b.queue, f).Queued? {
        SubmitOrder(b, f);
      }
    case Swap => assert d.sent + d.flight + d.queue == gone + b.queue;
    case SendHead(_) =>
      if b.flight != [] {
        assert b.flight == [b.flight[0]] + b.flight[1..];
        assert d.sent + d.flight + d.queue == gone + b.queue;
      }
    case ClearByStop =>
  }

  lemma SubmitOrder(b: Box, f: OutboundFrame)
    requires InOrder(b) && Admit(b.queue, f).Queued?
    ensures InOrder(AfterSubmit(b, f))
  {
    hide Subsequence, ShedIndex;
    var gone, i := b.sent + b.flight, ShedIndex(b.queue);
    var all := gone + b.queue;
    if |b.queue| >= QUEUE_MAX_DEPTH && i < |b.queue| {
      SubsequenceWithout(all, b.accepted, |gone| + i);
      assert Without(all, |gone| + i) == gone + Without(b.queue, i);
      SubsequenceSnoc(gone + Without(b.queue, i), b.accepted, f);
      assert gone + Without(b.queue, i) + [f] == gone + (Without(b.queue, i) + [f]);
    } else {
      SubsequenceSnoc(all, b.accepted, f);
      assert all + [f] == gone + (b.queue + [f]);
    }
  }

  /**
   * While no send fails and the dispatcher is not stopped, frames of every kind leave
   * in the order they were accepted; only shed ones are missing.
   */
  lemma {:induction false} FramesInOrder(b: Box, run: seq<Action>)
    requires InOrder(b) && NeverFails(run)
    ensures InOrder(Run(b, run))
    decreases |run|
  {
    if run != [] {
      hide Step, InOrder;
      var a := run[0];
      assert !a.ClearByStop? && (a.SendHead? ==> a.ok);
      OrderStep(b, a);
      FramesInOrder(Step(b, a), run[1..]);
    }
  }
}
