// The parts composed into one system: requests taken in by the host, replies queued
// among whatever else is submitted, shed around, flushed, written in pieces and
// reassembled by the peer.

module EndToEnd {
  import opened Wrappers
  import opened Bytes
  import opened Frame
  import opened Transport
  import opened JsonMembers
  import opened JsonPrint
  import opened Dispatcher
  import Channel
  import Envelope
  import Requests
  import B = Backend
  import O = Outbox
  import H = Host
  import L = Lifetime
  import R = Results

  // ---- Result frames -----------------------------------------------------------------------

  const RESULT_CMD := 0x2001
  const RESULT_ACTION := 0x2002

  /** A payload whose command is one of the two results. */
  predicate ResultBody(payload: bytes) {
    match ParseObject(payload)
    case None => false
    case Some(root) =>
      var command := Envelope.ParseCommand(Lookup(root, COMMAND_KEY));
      command == Some(RESULT_CMD) || command == Some(RESULT_ACTION)
  }

  /** What a peer takes for the result of one of its commands. */
  predicate IsResult(kind: byte, correlationId: nat, payload: bytes) {
    kind == KindByte(Response) && correlationId != 0 && ResultBody(payload)
  }

  predicate ResultFrame(f: O.OutboundFrame) {
    IsResult(KindByte(f.kind), f.correlationId, f.payload)
  }

  /** Every printed result envelope is one. */
  lemma PrintedIsResult(command: nat, cmdId: uint64, fs: Fields)
    requires (command == RESULT_CMD || command == RESULT_ACTION) && Envelope.DistinctFields(fs)
    ensures ResultBody(JsonPrint.Envelope(command, Some(cmdId), fs))
  {
    hide ParseObject, Lookup, Envelope.ParseCommand, JsonPrint.Envelope, Envelope.Decodes, PrintField;
    var root, payload := Envelope.EnvelopeRoundTrip(command, Some(cmdId), fs);
  }

  function ResultIds(q: seq<O.OutboundFrame>): seq<nat> {
    if q == [] then [] else ResultId(q[0]) + ResultIds(q[1..])
  }

  function ResultId(f: O.OutboundFrame): seq<nat> {
    if ResultFrame(f) then [f.correlationId] else []
  }

  function DeliveredIds(ds: seq<Delivery>): seq<nat> {
    if ds == [] then [] else DeliveredId(ds[0]) + DeliveredIds(ds[1..])
  }

  function DeliveredId(d: Delivery): seq<nat> {
    if IsResult(d.header.kind, d.header.correlationId, d.payload) then [d.header.correlationId] else []
  }

  lemma {:induction false} ResultIdsSnoc(q: seq<O.OutboundFrame>, f: O.OutboundFrame)
    ensures ResultIds(q + [f]) == ResultIds(q) + ResultId(f)
  {
    hide ResultId;
    if q == [] {
      assert [f][1..] == [] && [] + [f] == [f];
    } else {
      assert (q + [f])[0] == q[0] && (q + [f])[1..] == q[1..] + [f];
      ResultIdsSnoc(q[1..], f);
    }
  }

  /** Results are responses. */
  lemma {:induction false} ResultsAreResponses(q: seq<O.OutboundFrame>)
    ensures ResultIds(O.Responses(q)) == ResultIds(q)
  {
    if q != [] {
      ResultsAreResponses(q[1..]);
      EventIsNoResult(q[0]);
      hide ResultId;
      var rest := O.Responses(q[1..]);
      if q[0].kind.Event? {
        assert O.Responses(q) == [] + rest == rest && [] + ResultIds(rest) == ResultIds(rest);
      } else {
        assert ([q[0]] + rest)[1..] == rest;
      }
    }
  }

  lemma EventIsNoResult(f: O.OutboundFrame)
    ensures f.kind.Event? ==> ResultId(f) == []
  {
    hide ResultBody;
  }

  /** The peer recognises on the wire the results that were queued, in order. */
  lemma {:induction false} DeliveredResults(q: seq<O.OutboundFrame>)
    requires AllQueueable(q)
    ensures AllSendable(AsOutgoings(q))
    ensures DeliveredIds(Frame.Deliveries(AsOutgoings(q))) == ResultIds(q)
  {
    QueueableIsSendable(q);
    if q != [] {
      hide ResultBody, EncodeHeader, ToLe;
      assert AsOutgoings(q)[1..] == AsOutgoings(q[1..]);
      DeliveredResults(q[1..]);
      Requests.DeliveredFields(AsOutgoing(q[0]));
    }
  }

  // ---- The session ---------------------------------------------------------------------------

  // The host with its workers, the send queue, one connection, and whether the
  // dispatcher is started.
  datatype Session = Session(host: H.Host, box: O.Box, conn: Conn, started: bool)

  /**
   * One step of anyone. `Serve` is a step of the host or a worker, with the body of
   * the reply should the step send one; `Submit` is any other submission: an event, a
   * log, a descriptor.
   */
  datatype Move =
    | Serve(a: H.Action, reply: bytes)
    | Submit(f: O.OutboundFrame, sawStarted: bool)
    | Swap
    | SendHead(script: WriteScript)
    | Read(batch: seq<ReadStep>)
    | Stop

  /** The request a host step replies to, if it replies. */
  function Replying(h: H.Host, a: H.Action): Option<nat> {
    if !H.Enabled(h, a) then None
    else
      match a
      case Receive(req, _) => if H.RouteOf(h, req).Immediate? then Some(|h.requests|) else None
      case DrainSend(_) => Some(h.draining[0])
      case _ => None
  }

  function IdOf(h: H.Host, a: H.Action): nat {
    match a
    case Receive(req, _) => req.cmdId
    case DrainSend(_) => if h.draining != [] && h.draining[0] < |h.requests| then h.requests[h.draining[0]].cmdId else 0
    case _ => 0
  }

  function WithFits(a: H.Action, fits: bool): H.Action {
    match a
    case Receive(req, _) => H.Receive(req, fits)
    case DrainSend(_) => H.DrainSend(fits)
    case _ => a
  }

  function ReplyFrame(id: nat, reply: bytes): O.OutboundFrame {
    O.OutboundFrame(Response, false, id, reply)
  }

  /** Whether the dispatcher takes the reply: started, not empty, not too large. */
  predicate Taken(s: Session, reply: bytes) {
    s.started && 0 < |reply| <= MAX_PAYLOAD
  }

  function AfterServe(s: Session, a: H.Action, reply: bytes): Session {
    var d := s.(host := H.Step(s.host, WithFits(a, Taken(s, reply))));
    if Replying(s.host, a).None? then d
    else d.(box := O.Step(s.box, O.Submit(ReplyFrame(IdOf(s.host, a), reply), s.started)))
  }

  function AfterSendHead(s: Session, script: WriteScript): Session {
    if s.box.flight == [] || !Correlated(AsOutgoing(s.box.flight[0])) then s
    else
      var f := AsOutgoing(s.box.flight[0]);
      s.(box := O.Step(s.box, O.SendHead(SendOk(s.conn, f, script))), conn := AfterSend(s.conn, f, script))
  }

  function Step(s: Session, m: Move): Session {
    match m
    case Serve(a, reply) => AfterServe(s, a, reply)
    case Submit(f, sawStarted) => s.(box := O.Step(s.box, O.Submit(f, sawStarted)))
    case Swap => s.(box := O.Step(s.box, O.Swap))
    case SendHead(script) => AfterSendHead(s, script)
    case Read(batch) => if s.conn.client < 0 then s else s.(conn := AfterRead(s.conn, batch, None))
    case Stop =>
      s.(box := O.Step(s.box, O.ClearByStop), conn := s.conn.(client := -1, pending := false, buffer := []),
         started := false)
  }

  function Run(s: Session, run: seq<Move>): Session
    decreases |run|
  {
    if run == [] then s else Run(Step(s, run[0]), run[1..])
  }

  /** Replies are results, and nobody but the host sends results. */
  predicate Proper(m: Move) {
    && (m.Serve? ==> ResultBody(m.reply))
    && (m.Submit? ==> O.Built(m.f) && !ResultFrame(m.f))
  }

  predicate AllProper(run: seq<Move>) {
    forall k :: 0 <= k < |run| ==> Proper(run[k])
  }

  function Begin(backed: bool, conn: Conn): Session {
    Session(H.Initial(backed), O.EMPTY, conn, true)
  }

  // ---- The host's replies are the results accepted ----------------------------------------------

  predicate AnswersKnown(h: H.Host) {
    forall k :: 0 <= k < |h.responses| ==> h.responses[k] < |h.requests|
  }

  /** The results the queue accepted are the host's answers, one by one and in order. */
  predicate Linked(s: Session) {
    AnswersKnown(s.host) && ResultIds(s.box.accepted) == R.CorrelationIds(s.host.requests, s.host.responses)
  }

  predicate IdsInRange(h: H.Host) {
    forall k :: 0 <= k < |h.requests| ==> 0 < h.requests[k].cmdId < H.CMD_ID_BOUND
  }

  ghost predicate HostInv(h: H.Host) {
    L.Inv(h) && (forall n: nat :: R.Accounted(h, n)) && IdsInRange(h)
  }

  ghost predicate Inv(s: Session) {
    HostInv(s.host) && O.Inv(s.box) && AllQueueable(s.box.accepted) && Linked(s)
  }

  lemma SubmitAccepts(b: O.Box, f: O.OutboundFrame, sawStarted: bool)
    requires f.kind.Response?
    ensures O.Step(b, O.Submit(f, sawStarted)).accepted
         == if sawStarted && O.Acceptable(f) then b.accepted + [f] else b.accepted
  {
    hide O.ShedIndex;
  }

  lemma SubmitAcceptsAtMost(b: O.Box, f: O.OutboundFrame, sawStarted: bool)
    ensures var d := O.Step(b, O.Submit(f, sawStarted));
            d.accepted == b.accepted || (O.Acceptable(f) && d.accepted == b.accepted + [f])
  {
    hide O.ShedIndex;
  }

  /** What a host step adds to requests and responses. */
  lemma HostReplies(h: H.Host, a: H.Action, fits: bool)
    ensures var d := H.Step(h, WithFits(a, fits));
            && h.requests <= d.requests
            && d.responses == h.responses + (if fits && Replying(h, a).Some? then [Replying(h, a).value] else [])
            && d.unsent == h.unsent + (if !fits && Replying(h, a).Some? then [Replying(h, a).value] else [])
            && (!a.FactoryJoinEnd? ==> d.lost == h.lost)
  {
    assert h.responses + [] == h.responses && h.unsent + [] == h.unsent;
    if H.Enabled(h, a) {
      if a.Receive? {
        ReceiveReplies(h, a, fits);
        hide H.AfterReceive, H.RouteOf;
      } else if !a.DrainSend? {
        NoReplies(h, a);
        hide H.Step, H.Enabled;
      }
    }
  }

  lemma NoReplies(h: H.Host, a: H.Action)
    requires !a.Receive? && !a.DrainSend?
    ensures var d := H.Step(h, a);
            && d.requests == h.requests && d.responses == h.responses && d.unsent == h.unsent
            && (!a.FactoryJoinEnd? ==> d.lost == h.lost)
  {
    hide B.Enqueue, B.Accepts, H.Emitted, H.AfterStartEnd, H.AfterRollback, H.AfterRemove, H.AfterJoin, H.AfterWork;
    if H.Enabled(h, a) {
      match a
      case StartEnd(ok) => WaitsReplyNothing(h, h.phase.i, ok);
      case RollbackEnd => WaitsReplyNothing(h, h.phase.i, true);
      case JoinEnd => WaitsReplyNothing(h, h.phase.i, true);
      case Remove(id) => RemoveRepliesNothing(h, id);
      case Work(i) => WorkRepliesNothing(h, i);
      case _ =>
    }
  }

  /** What a reply leaves behind is the same in both. */
  predicate SameReplies(h: H.Host, d: H.Host) {
    d.requests == h.requests && d.responses == h.responses && d.unsent == h.unsent && d.lost == h.lost
  }

  lemma WaitsReplyNothing(h: H.Host, i: nat, ok: bool)
    requires i < |h.instances|
    ensures SameReplies(h, H.AfterStartEnd(h, i, ok)) && SameReplies(h, H.AfterRollback(h, i))
    ensures SameReplies(h, H.AfterJoin(h, i))
  {
  }

  lemma RemoveRepliesNothing(h: H.Host, id: H.ExternalId)
    requires H.Registered(h, id)
    ensures SameReplies(h, H.AfterRemove(h, id))
  {
  }

  lemma WorkRepliesNothing(h: H.Host, i: nat)
    requires i < |h.instances|
    ensures SameReplies(h, H.AfterWork(h, i))
  {
  }

  lemma ReceiveReplies(h: H.Host, a: H.Action, fits: bool)
    ensures a.Receive? ==>
              var d := H.AfterReceive(h, a.req, fits);
              var now := H.RouteOf(h, a.req).Immediate?;
              && d.requests == h.requests + [a.req] && d.lost == h.lost
              && d.responses == h.responses + (if fits && now then [|h.requests|] else [])
              && d.unsent == h.unsent + (if !fits && now then [|h.requests|] else [])
  {
    hide B.Enqueue, H.RouteOf;
  }

  /** The id a reply carries is that of the request it answers. */
  lemma ReplyId(h: H.Host, a: H.Action, fits: bool)
    requires HostInv(h) && Replying(h, a).Some?
    ensures var d := H.Step(h, WithFits(a, fits));
            && Replying(h, a).value < |d.requests|
            && d.requests[Replying(h, a).value].cmdId == IdOf(h, a)
            && 0 < IdOf(h, a) < H.CMD_ID_BOUND
  {
    if a.DrainSend? {
      DrainingKnown(h);
      HostReplies(h, a, fits);
      hide H.Step;
    } else {
      ReceiveReplies(h, a, fits);
      hide H.AfterReceive;
    }
  }

  lemma DrainingKnown(h: H.Host)
    requires (forall n: nat :: R.Accounted(h, n)) && h.draining != []
    ensures h.draining[0] < |h.requests|
  {
    var n := h.draining[0];
    assert R.Accounted(h, n);
    assert n in multiset(h.draining);
    hide R.Sum, R.OfFactory;
  }

  lemma {:induction false} IdsOfMore(requests: seq<H.Req>, more: seq<H.Req>, serials: seq<nat>)
    requires requests <= more && forall k :: 0 <= k < |serials| ==> serials[k] < |requests|
    ensures R.CorrelationIds(more, serials) == R.CorrelationIds(requests, serials)
  {
    if serials != [] {
      IdsOfMore(requests, more, serials[..|serials| - 1]);
    }
  }

  lemma HostStepKeeps(h: H.Host, a: H.Action)
    requires HostInv(h)
    ensures HostInv(H.Step(h, a))
  {
    L.StepKeeps(h, a);
    forall n: nat
      ensures R.Accounted(H.Step(h, a), n)
    {
      R.StepAccounts(h, a, n);
    }
    hide L.Inv, R.Accounted;
    StepIds(h, a);
  }

  lemma StepIds(h: H.Host, a: H.Action)
    requires IdsInRange(h)
    ensures IdsInRange(H.Step(h, a))
  {
    if H.Enabled(h, a) {
      if a.Receive? {
        ReceiveReplies(h, a, a.fits);
        hide H.AfterReceive;
      } else {
        R.SameRequests(h, a);
        hide H.Step;
      }
    }
  }

  lemma WideIds()
    ensures Bound(8) == H.CMD_ID_BOUND
  {
    WidthBounds();
  }

  lemma ReplyBuilt(id: nat, reply: bytes)
    requires 0 < id < H.CMD_ID_BOUND && ResultBody(reply)
    ensures O.Built(ReplyFrame(id, reply)) && ResultId(ReplyFrame(id, reply)) == [id]
    ensures O.Acceptable(ReplyFrame(id, reply)) <==> 0 < |reply| <= MAX_PAYLOAD
  {
    hide ResultBody;
    WideIds();
  }

  /** A reply is accepted exactly when the host counts its request as answered. */
  lemma ServeLinks(s: Session, a: H.Action, reply: bytes)
    requires Inv(s) && ResultBody(reply)
    ensures Linked(AfterServe(s, a, reply))
  {
    hide L.Inv, R.Accounted, O.Inv, H.Step, O.Step, ResultBody, ResultIds, R.CorrelationIds, AllQueueable;
    var fits := Taken(s, reply);
    var d := AfterServe(s, a, reply);
    HostReplies(s.host, a, fits);
    IdsOfMore(s.host.requests, d.host.requests, s.host.responses);
    if Replying(s.host, a).Some? {
      ReplyLinks(s, a, reply);
    } else {
      assert s.host.responses + [] == s.host.responses;
    }
  }

  lemma ReplyLinks(s: Session, a: H.Action, reply: bytes)
    requires Inv(s) && ResultBody(reply) && Replying(s.host, a).Some?
    ensures var d := AfterServe(s, a, reply);
            && AnswersKnown(d.host)
            && ResultIds(d.box.accepted) == R.CorrelationIds(d.host.requests, d.host.responses)
  {
    var fits, d := Taken(s, reply), AfterServe(s, a, reply);
    var id, n := IdOf(s.host, a), Replying(s.host, a).value;
    var f := ReplyFrame(id, reply);
    ReplyId(s.host, a, fits);
    ReplyBuilt(id, reply);
    SubmitAccepts(s.box, f, s.started);
    HostReplies(s.host, a, fits);
    hide HostInv, O.Inv, H.Step, O.Step, ResultBody, ResultIds, ResultId, R.CorrelationIds, AllQueueable, O.Acceptable;
    hide Replying, IdOf, WithFits;
    IdsOfMore(s.host.requests, d.host.requests, s.host.responses);
    if fits {
      ResultIdsSnoc(s.box.accepted, f);
      R.CorrelationIdsSnoc(d.host.requests, s.host.responses, n);
    }
  }

  /** Frames that are not results leave the link alone. */
  lemma SubmitLinks(s: Session, f: O.OutboundFrame, sawStarted: bool)
    requires Linked(s) && !ResultFrame(f)
    ensures Linked(s.(box := O.Step(s.box, O.Submit(f, sawStarted))))
  {
    SubmitAcceptsAtMost(s.box, f, sawStarted);
    ResultIdsSnoc(s.box.accepted, f);
    hide O.Step, ResultIds, ResultFrame, R.CorrelationIds;
    NoId(f);
    assert ResultIds(s.box.accepted) + [] == ResultIds(s.box.accepted);
  }

  lemma NoId(f: O.OutboundFrame)
    requires !ResultFrame(f)
    ensures ResultId(f) == []
  {
  }

  // ---- Everything accepted passed the guards ------------------------------------------------------

  lemma AcceptedStep(b: O.Box, a: O.Action)
    requires AllQueueable(b.accepted) && (a.Submit? ==> O.Built(a.f))
    ensures AllQueueable(O.Step(b, a).accepted)
  {
    hide O.Admit, O.Built, O.Acceptable;
  }

  lemma PartQueueable(b: O.Box)
    requires O.Inv(b) && AllQueueable(b.accepted)
    ensures AllQueueable(b.sent) && AllQueueable(b.flight)
  {
    hide O.Bounded, O.Ordered, O.Built, O.Acceptable;
    forall k | 0 <= k < |b.sent|
      ensures O.Built(b.sent[k]) && O.Acceptable(b.sent[k])
    {
      assert b.sent[k] in multiset(b.sent);
      assert b.sent[k] in multiset(b.accepted);
    }
    forall k | 0 <= k < |b.flight|
      ensures O.Built(b.flight[k]) && O.Acceptable(b.flight[k])
    {
      assert b.flight[k] in multiset(b.flight);
      assert b.flight[k] in multiset(b.accepted);
    }
  }

  /** The queue's step inside a move, if there is one. */
  function BoxAction(s: Session, m: Move): Option<O.Action> {
    match m
    case Serve(a, reply) =>
      if Replying(s.host, a).None? then None else Some(O.Submit(ReplyFrame(IdOf(s.host, a), reply), s.started))
    case Submit(f, sawStarted) => Some(O.Submit(f, sawStarted))
    case Swap => Some(O.Swap)
    case SendHead(script) =>
      if s.box.flight == [] || !Correlated(AsOutgoing(s.box.flight[0])) then None
      else Some(O.SendHead(SendOk(s.conn, AsOutgoing(s.box.flight[0]), script)))
    case Read(_) => None
    case Stop => Some(O.ClearByStop)
  }

  lemma BoxSteps(s: Session, m: Move)
    ensures Step(s, m).box == if BoxAction(s, m).None? then s.box else O.Step(s.box, BoxAction(s, m).value)
  {
    hide O.Step, H.Step, Replying, IdOf, SendOk, AfterSend;
  }

  lemma BoxBuilt(s: Session, m: Move)
    requires HostInv(s.host) && Proper(m) && BoxAction(s, m).Some? && BoxAction(s, m).value.Submit?
    ensures O.Built(BoxAction(s, m).value.f)
  {
    if m.Serve? {
      ReplyId(s.host, m.a, true);
      ReplyBuilt(IdOf(s.host, m.a), m.reply);
    }
    hide HostInv, H.Step, ResultBody;
  }

  lemma BoxKeeps(s: Session, m: Move)
    requires Inv(s) && Proper(m)
    ensures O.Inv(Step(s, m).box) && AllQueueable(Step(s, m).box.accepted)
  {
    BoxSteps(s, m);
    if BoxAction(s, m).Some? {
      var a := BoxAction(s, m).value;
      if a.Submit? {
        BoxBuilt(s, m);
      }
      hide HostInv, Step, O.Inv, O.Step, AllQueueable, Linked, BoxAction, O.Built;
      O.StepKeeps(s.box, a);
      AcceptedStep(s.box, a);
    }
  }

  lemma OtherLinks(s: Session, m: Move)
    requires Linked(s) && (m.Swap? || m.SendHead? || m.Read? || m.Stop?)
    ensures Linked(Step(s, m)) && Step(s, m).host == s.host
  {
    hide ResultIds, R.CorrelationIds, SendOk, AfterSend;
  }

  lemma MoveKeeps(s: Session, m: Move)
    requires Inv(s) && Proper(m)
    ensures Inv(Step(s, m))
  {
    BoxKeeps(s, m);
    hide O.Inv, O.Step, AllQueueable, HostInv, Linked, ResultBody;
    match m
    case Serve(a, reply) =>
      HostStepKeeps(s.host, WithFits(a, Taken(s, reply)));
      ServeLinks(s, a, reply);
    case Submit(f, sawStarted) => SubmitLinks(s, f, sawStarted);
    case Swap => OtherLinks(s, m);
    case SendHead(_) => OtherLinks(s, m);
    case Read(_) => OtherLinks(s, m);
    case Stop => OtherLinks(s, m);
  }

  lemma {:induction false} RunKeeps(s: Session, run: seq<Move>)
    requires Inv(s) && AllProper(run)
    ensures Inv(Run(s, run))
    decreases |run|
  {
    if run != [] {
      hide Inv, Step, Proper;
      assert Proper(run[0]);
      MoveKeeps(s, run[0]);
      RunKeeps(Step(s, run[0]), run[1..]);
    }
  }

  lemma BeginInv(backed: bool, conn: Conn)
    ensures Inv(Begin(backed, conn))
  {
    L.InitialInv(backed);
    O.EmptyInv();
    forall n: nat
      ensures R.Accounted(H.Initial(backed), n)
    {
      R.InitialAccounts(backed, n);
    }
  }

  /**
   * In every run of the whole system, whatever else is submitted, shed or lost, the
   * results the queue accepted are the replies the host counts as sent, in order, and
   * each carries the id of its request.
   */
  lemma RepliesAccepted(backed: bool, conn: Conn, run: seq<Move>)
    requires AllProper(run)
    ensures Linked(Run(Begin(backed, conn), run))
  {
    BeginInv(backed, conn);
    RunKeeps(Begin(backed, conn), run);
  }

  // ---- What leaves, and what the peer makes of it ---------------------------------------------------

  /** While the connection lives, nothing has failed and the wire is what was sent. */
  predicate Flowing(s: Session)
    requires AllSendable(AsOutgoings(s.box.sent))
  {
    s.conn.client >= 0 ==>
      O.ResponsesThrough(s.box) && s.conn.wire == EncodeFrames(AsOutgoings(s.box.sent))
  }

  ghost predicate Live(s: Session) {
    Inv(s) && AllSendable(AsOutgoings(s.box.sent)) && Flowing(s)
  }

  lemma SentSendable(b: O.Box)
    requires O.Inv(b) && AllQueueable(b.accepted)
    ensures AllQueueable(b.sent) && AllQueueable(b.flight) && AllSendable(AsOutgoings(b.sent))
  {
    hide O.Inv;
    PartQueueable(b);
    QueueableIsSendable(b.sent);
  }

  lemma OutgoingsSnoc(q: seq<O.OutboundFrame>, f: O.OutboundFrame)
    ensures AsOutgoings(q + [f]) == AsOutgoings(q) + [AsOutgoing(f)]
  {
  }

  lemma EncodeMore(fs: seq<Outgoing>, f: Outgoing)
    requires AllSendable(fs) && Sendable(f)
    ensures AllSendable(fs + [f]) && EncodeFrames(fs + [f]) == EncodeFrames(fs) + EncodeFrame(f)
  {
    hide EncodeFrame, EncodeFrames, Sendable;
    var all := fs + [f];
    EncodeSnoc(all, |fs|);
    assert all[..|fs| + 1] == all && all[..|fs|] == fs;
  }

  /** A successful send puts one whole frame on the wire; a failed one ends the connection. */
  lemma SendFlows(s: Session, script: WriteScript)
    requires Live(s) && AllQueueable(s.box.flight) && s.box.flight != []
    requires AllSendable(AsOutgoings(AfterSendHead(s, script).box.sent))
    ensures Flowing(AfterSendHead(s, script))
  {
    var head := s.box.flight[0];
    var f := AsOutgoing(head);
    assert O.Built(head) && O.Acceptable(head);
    var d := AfterSendHead(s, script);
    if s.conn.client >= 0 && SendOk(s.conn, f, script) {
      SentOne(s.conn, f, script);
      HeadSent(s.box);
      hide HostInv, O.Inv, O.Step, Linked, AllQueueable, EncodeFrame, EncodeFrames, AfterSend, SendOk;
      OutgoingsSnoc(s.box.sent, head);
      EncodeMore(AsOutgoings(s.box.sent), f);
      O.StepThrough(s.box, O.SendHead(true));
    } else {
      hide HostInv, O.Inv, O.Step, Linked, EncodeFrame, EncodeFrames;
      var torn := SentPart(s.conn, f, script);
    }
  }

  lemma HeadSent(b: O.Box)
    requires b.flight != []
    ensures O.Step(b, O.SendHead(true)).sent == b.sent + [b.flight[0]]
  {
  }

  lemma NothingSent(b: O.Box, a: O.Action)
    requires !a.SendHead?
    ensures O.Step(b, a).sent == b.sent
  {
    hide O.Admit;
  }

  /** Other moves leave the wire and what was sent alone. */
  lemma OtherFlows(s: Session, m: Move)
    requires Live(s) && Proper(m) && !m.SendHead?
    requires AllSendable(AsOutgoings(Step(s, m).box.sent))
    ensures Flowing(Step(s, m))
  {
    BoxSteps(s, m);
    SameWire(s, m);
    if s.conn.client >= 0 && !m.Stop? && BoxAction(s, m).Some? {
      var a := BoxAction(s, m).value;
      if a.Submit? {
        BoxBuilt(s, m);
      }
      hide HostInv, Linked, Step, BoxAction, O.Inv, O.Step, O.ResponsesThrough, O.Built, EncodeFrames;
      NothingSent(s.box, a);
      O.StepThrough(s.box, a);
    }
    hide HostInv, Linked, Step, O.Inv, O.ResponsesThrough, EncodeFrames;
  }

  lemma SameWire(s: Session, m: Move)
    requires !m.SendHead?
    ensures m.Stop? || (m.Read? && s.conn.client < 0) ==> Step(s, m).conn.client < 0
    ensures !m.Stop? ==> Step(s, m).conn.wire == s.conn.wire
    ensures !m.Stop? && !m.Read? ==> Step(s, m).conn == s.conn
    ensures BoxAction(s, m).Some? ==>
              !BoxAction(s, m).value.SendHead? && (BoxAction(s, m).value.ClearByStop? ==> m.Stop?)
  {
    hide O.Step, H.Step, Replying, IdOf, ParseStream, Arrived, EndOf;
  }

  lemma MoveFlows(s: Session, m: Move)
    requires Live(s) && Proper(m)
    ensures Live(Step(s, m))
  {
    MoveKeeps(s, m);
    BoxOf(s);
    BoxOf(Step(s, m));
    hide Inv, Flowing, AllQueueable, Proper, O.Inv;
    SentSendable(s.box);
    SentSendable(Step(s, m).box);
    if !m.SendHead? {
      OtherFlows(s, m);
    } else if s.box.flight != [] {
      HeadCorrelated(s);
      SendFlows(s, m.script);
    }
  }

  lemma BoxOf(s: Session)
    requires Inv(s)
    ensures O.Inv(s.box) && AllQueueable(s.box.accepted)
  {
  }

  lemma HeadCorrelated(s: Session)
    requires AllQueueable(s.box.flight) && s.box.flight != []
    ensures Correlated(AsOutgoing(s.box.flight[0]))
  {
    assert O.Built(s.box.flight[0]);
  }

  lemma {:induction false} RunFlows(s: Session, run: seq<Move>)
    requires Live(s) && AllProper(run)
    ensures Live(Run(s, run))
    decreases |run|
  {
    if run != [] {
      hide Live, Step, Proper;
      assert Proper(run[0]);
      MoveFlows(s, run[0]);
      RunFlows(Step(s, run[0]), run[1..]);
    }
  }

  lemma BeginLive(backed: bool, conn: Conn)
    requires conn.wire == []
    ensures Live(Begin(backed, conn))
  {
    BeginInv(backed, conn);
    hide HostInv, Linked;
    assert O.Responses([]) == [];
  }

  // ---- Nothing refused, nothing cleared ---------------------------------------------------------------

  /** Replies fit the size limit, and neither the dispatcher nor the host is stopped. */
  predicate Smooth(m: Move) {
    !m.Stop? && (m.Serve? ==> |m.reply| <= MAX_PAYLOAD && !m.a.FactoryJoinEnd?)
  }

  predicate AllSmooth(run: seq<Move>) {
    forall k :: 0 <= k < |run| ==> Smooth(run[k])
  }

  predicate Steady(s: Session) {
    s.started && s.host.unsent == [] && s.host.lost == []
  }

  lemma ResultNotEmpty(payload: bytes)
    requires ResultBody(payload)
    ensures payload != []
  {
    Requests.NoObject();
  }

  lemma MoveSteady(s: Session, m: Move)
    requires Steady(s) && Proper(m) && Smooth(m)
    ensures Steady(Step(s, m))
  {
    if m.Serve? {
      ResultNotEmpty(m.reply);
      hide ResultBody, O.Step, H.Step, Replying, IdOf;
      HostReplies(s.host, m.a, Taken(s, m.reply));
    }
    hide ResultBody, O.Step, AfterSend, SendOk, H.Step;
  }

  lemma {:induction false} RunSteady(s: Session, run: seq<Move>)
    requires Steady(s) && AllProper(run) && AllSmooth(run)
    ensures Steady(Run(s, run))
    decreases |run|
  {
    if run != [] {
      hide Steady, Step, Proper, Smooth;
      assert Proper(run[0]) && Smooth(run[0]);
      MoveSteady(s, run[0]);
      RunSteady(Step(s, run[0]), run[1..]);
    }
  }

  /** Nothing is under way: no hook waits or runs, no result is queued, no frame is unsent. */
  predicate Quiet(s: Session) {
    && s.host.results == [] && s.host.draining == [] && s.box.queue == [] && s.box.flight == []
    && (forall i :: 0 <= i < |s.host.instances| ==> R.NoneWaiting(s.host.instances[i].backend))
    && (s.host.factory.Some? ==> R.NoneWaiting(s.host.factory.value))
  }

  lemma QuietSettles(s: Session)
    requires Quiet(s) && Steady(s)
    ensures R.Settled(s.host)
  {
    hide R.NoneWaiting;
  }

  /** The results sent are a permutation of the ids asked for. */
  lemma ResultsSent(s: Session)
    requires Live(s) && Steady(s) && Quiet(s) && s.conn.client >= 0
    ensures multiset(ResultIds(s.box.sent))
         == multiset(R.CorrelationIds(s.host.requests, R.AllSerials(|s.host.requests|)))
  {
    QuietSettles(s);
    NoResponses();
    ResultsAreResponses(s.box.sent);
    ResultsAreResponses(s.box.accepted);
    hide R.Settled, L.Inv, R.Accounted, O.Inv, ResultIds, R.CorrelationIds, O.Responses, AllQueueable, EncodeFrames;
    R.SettledIds(s.host);
    var r := O.Responses(s.box.sent);
    assert r + [] + [] == r;
  }

  lemma NoResponses()
    ensures O.Responses([]) == []
  {
  }

  /** A receiver that is given all of an encoded stream, however cut, has all of its frames. */
  lemma AllReassembled(receiver: Conn, fs: seq<Outgoing>, batches: seq<seq<ReadStep>>)
    requires AllSendable(fs) && Channel.AllDrained(batches)
    requires receiver.client >= 0 && receiver.buffer == []
    requires Channel.Total(batches) == EncodeFrames(fs)
    ensures Channel.ReceiveAll(receiver, batches).notices == receiver.notices + AsNotices(Frame.Deliveries(fs))
  {
    hide Channel.ReceiveAll, Channel.Total, ParseStream, Channel.AfterParse, EncodeFrames, Frame.Deliveries;
    Channel.NothingBuffered(receiver);
    Channel.ChunkInvariance(receiver, batches);
    assert [] + EncodeFrames(fs) == EncodeFrames(fs);
    SameCount(fs);
    Channel.ParseWire(fs, |fs|, []);
    assert fs[..|fs|] == fs && EncodeFrames(fs) + [] == EncodeFrames(fs);
    assert Frame.Deliveries(fs)[..|fs|] == Frame.Deliveries(fs);
    Channel.GoodParse(receiver, ParseStream(EncodeFrames(fs)));
  }

  lemma SameCount(fs: seq<Outgoing>)
    requires AllSendable(fs)
    ensures |Frame.Deliveries(fs)| == |fs|
  {
  }

  /**
   * Over every interleaving of workers, host, submitters and writes: if replies fit,
   * nothing was stopped, the connection still lives and nothing is under way, then
   * the peer, however it cuts the stream into reads, has exactly one result per
   * request, carrying its id, among whatever descriptors and events it was sent.
   */
  lemma EveryRequestAnswered(backed: bool, conn: Conn, run: seq<Move>, receiver: Conn, batches: seq<seq<ReadStep>>)
    returns (delivered: seq<Delivery>)
    requires conn.wire == [] && AllProper(run) && AllSmooth(run)
    requires var s := Run(Begin(backed, conn), run);
             Quiet(s) && s.conn.client >= 0 && Channel.Total(batches) == s.conn.wire
    requires receiver.client >= 0 && receiver.buffer == [] && Channel.AllDrained(batches)
    ensures Channel.ReceiveAll(receiver, batches).notices == receiver.notices + AsNotices(delivered)
    ensures var h := Run(Begin(backed, conn), run).host;
            multiset(DeliveredIds(delivered)) == multiset(R.CorrelationIds(h.requests, R.AllSerials(|h.requests|)))
  {
    var s := Run(Begin(backed, conn), run);
    BeginLive(backed, conn);
    RunFlows(Begin(backed, conn), run);
    RunSteady(Begin(backed, conn), run);
    ResultsSent(s);
    hide Run, Steady, Quiet, O.Inv, HostInv, Linked, AllQueueable, Channel.ReceiveAll, Channel.Total, EncodeFrames;
    hide Frame.Deliveries, DeliveredIds, ResultIds, O.ResponsesThrough;
    SentSendable(s.box);
    DeliveredResults(s.box.sent);
    AllReassembled(receiver, AsOutgoings(s.box.sent), batches);
    delivered := Frame.Deliveries(AsOutgoings(s.box.sent));
  }
}
