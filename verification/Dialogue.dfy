// Both directions of one connection: the messages a peer writes, however it renders
// and cuts them, are what the host is asked, and each is answered by one result.

module Dialogue {
  import opened Wrappers
  import opened Bytes
  import opened Frame
  import opened Transport
  import opened Renderings
  import Channel
  import Requests
  import E = EndToEnd
  import H = Host
  import R = Results

  // A session with what it has read on its connection so far, and how many of the
  // frames in it were handled.
  datatype Talk = Talk(s: E.Session, read: bytes, taken: nat)

  /**
   * One step of anyone. The host is asked nothing but what `Handle` takes from the next
   * frame; `reply` is the body of the answer should the host answer at once.
   */
  datatype Turn =
    | Other(m: E.Move)
    | Read(batch: seq<ReadStep>)
    | Handle(reply: bytes)

  function Frames(t: Talk): seq<Delivery> {
    ParseStream(t.read).frames
  }

  /** The request a frame carries, if it is one that is answered and has an id. */
  function Asked(d: Delivery): Option<H.Req> {
    match Requests.ToHost(Requests.DecodeRequest(d.header.kind, d.header.correlationId, d.payload))
    case None => None
    case Some(req) => if 0 < req.cmdId < H.CMD_ID_BOUND then Some(req) else None
  }

  function AllAsked(ds: seq<Delivery>): seq<H.Req> {
    if ds == [] then [] else AllAsked(ds[..|ds| - 1]) + One(Asked(ds[|ds| - 1]))
  }

  function One(req: Option<H.Req>): seq<H.Req> {
    if req.Some? then [req.value] else []
  }

  /** The move of the session inside a turn, if there is one. */
  function MoveOf(t: Talk, u: Turn): Option<E.Move> {
    match u
    case Other(m) => if m.Read? || (m.Serve? && m.a.Receive?) then None else Some(m)
    case Read(batch) => Some(E.Read(batch))
    case Handle(reply) =>
      if t.taken < |Frames(t)| && Asked(Frames(t)[t.taken]).Some? && H.Free(t.s.host) && !t.s.host.stopping
      then Some(E.Serve(H.Receive(Asked(Frames(t)[t.taken]).value, true), reply))
      else None
  }

  function ReadAfter(t: Talk, batch: seq<ReadStep>): bytes {
    if t.s.conn.client < 0 || !EndOf(batch).Drained? then t.read else t.read + Arrived(batch)
  }

  /** A frame that asks nothing is passed over; one that does waits for the host to be free. */
  function TakenAfter(t: Talk): nat {
    if t.taken >= |Frames(t)| then t.taken
    else if Asked(Frames(t)[t.taken]).None? || (H.Free(t.s.host) && !t.s.host.stopping) then t.taken + 1
    else t.taken
  }

  function Step(t: Talk, u: Turn): Talk {
    Talk(if MoveOf(t, u).None? then t.s else E.Step(t.s, MoveOf(t, u).value),
         if u.Read? then ReadAfter(t, u.batch) else t.read,
         if u.Handle? then TakenAfter(t) else t.taken)
  }

  function Run(t: Talk, turns: seq<Turn>): Talk
    decreases |turns|
  {
    if turns == [] then t else Run(Step(t, turns[0]), turns[1..])
  }

  function Begin(backed: bool, conn: Conn): Talk {
    Talk(E.Begin(backed, conn), [], 0)
  }

  /** What the session itself asks of its moves. */
  predicate Allowed(u: Turn) {
    match u
    case Other(m) => E.Proper(m) && E.Smooth(m)
    case Read(_) => true
    case Handle(reply) => E.ResultBody(reply) && |reply| <= MAX_PAYLOAD
  }

  predicate AllAllowed(turns: seq<Turn>) {
    forall k :: 0 <= k < |turns| ==> Allowed(turns[k])
  }

  // ---- A talk is a run of the session --------------------------------------------------------

  function Moves(t: Talk, turns: seq<Turn>): seq<E.Move>
    decreases |turns|
  {
    if turns == [] then []
    else (if MoveOf(t, turns[0]).None? then [] else [MoveOf(t, turns[0]).value]) + Moves(Step(t, turns[0]), turns[1..])
  }

  lemma MoveAllowed(t: Talk, u: Turn)
    requires Allowed(u) && MoveOf(t, u).Some?
    ensures E.Proper(MoveOf(t, u).value) && E.Smooth(MoveOf(t, u).value)
  {
    hide E.ResultBody, Frames, Asked;
  }

  lemma {:induction false} TalkIsSession(t: Talk, turns: seq<Turn>)
    requires AllAllowed(turns)
    ensures E.Run(t.s, Moves(t, turns)) == Run(t, turns).s
    ensures E.AllProper(Moves(t, turns)) && E.AllSmooth(Moves(t, turns))
    decreases |turns|
  {
    if turns != [] {
      hide MoveOf, Allowed, E.Step, E.Proper, E.Smooth;
      var d := Step(t, turns[0]);
      TalkIsSession(d, turns[1..]);
      assert Allowed(turns[0]);
      if MoveOf(t, turns[0]).Some? {
        MoveAllowed(t, turns[0]);
        var m := MoveOf(t, turns[0]).value;
        assert Moves(t, turns)[1..] == Moves(d, turns[1..]);
      } else {
        assert Moves(t, turns) == Moves(d, turns[1..]);
      }
    }
  }

  // ---- The host is asked what was read -----------------------------------------------------------

  /** The buffer is what parsing the bytes read leaves; the requests are those of the frames taken. */
  predicate InStep(t: Talk) {
    && t.taken <= |Frames(t)|
    && t.s.host.requests == AllAsked(Frames(t)[..t.taken])
    && (t.s.conn.client >= 0 ==> ParseStream(t.read) == Parse(Frames(t), t.s.conn.buffer, false))
  }

  /** Moves other than a read and a request change neither the buffer nor the requests. */
  lemma OtherMove(s: E.Session, m: E.Move)
    requires !m.Read? && !(m.Serve? && m.a.Receive?)
    ensures var d := E.Step(s, m);
            && d.host.requests == s.host.requests
            && (d.conn.client >= 0 ==> s.conn.client >= 0 && d.conn.buffer == s.conn.buffer)
  {
    hide H.Step, E.IdOf, E.Replying, EncodeFrame, FrameWritten;
    if m.Serve? && H.Enabled(s.host, E.WithFits(m.a, E.Taken(s, m.reply))) {
      R.SameRequests(s.host, E.WithFits(m.a, E.Taken(s, m.reply)));
    }
    if m.Serve? {
      NotEnabled(s.host, E.WithFits(m.a, E.Taken(s, m.reply)));
    }
  }

  lemma NotEnabled(h: H.Host, a: H.Action)
    ensures !H.Enabled(h, a) ==> H.Step(h, a) == h
  {
  }

  lemma ServeMove(s: E.Session, req: H.Req, reply: bytes)
    requires H.Free(s.host) && !s.host.stopping && 0 < req.cmdId < H.CMD_ID_BOUND
    ensures var d := E.Step(s, E.Serve(H.Receive(req, true), reply));
            d.host.requests == s.host.requests + [req] && d.conn == s.conn
  {
    E.ReceiveReplies(s.host, H.Receive(req, E.Taken(s, reply)), E.Taken(s, reply));
    hide H.AfterReceive, E.Replying, E.IdOf;
  }

  lemma ReadMove(t: Talk, batch: seq<ReadStep>)
    requires InStep(t)
    ensures InStep(Step(t, Read(batch)))
  {
    hide ParseStream, AllAsked;
    var data := Arrived(batch);
    var p, q := ParseStream(t.read), ParseStream(t.s.conn.buffer + data);
    if t.s.conn.client >= 0 && EndOf(batch).Drained? {
      ParseAppend(t.read, data);
      assert Frames(Step(t, Read(batch)))[..t.taken] == p.frames[..t.taken];
    }
  }

  lemma StepKeeps(t: Talk, u: Turn)
    requires InStep(t)
    ensures InStep(Step(t, u))
  {
    hide AllAsked, Asked, ParseStream, Arrived, EndOf, E.Step, H.Free;
    match u
    case Other(m) =>
      if MoveOf(t, u).Some? {
        OtherMove(t.s, m);
      }
    case Read(batch) =>
      ReadMove(t, batch);
    case Handle(reply) => HandleKeeps(t, reply);
  }

  lemma HandleKeeps(t: Talk, reply: bytes)
    requires InStep(t)
    ensures InStep(Step(t, Handle(reply)))
  {
    hide Asked, ParseStream, E.Step;
    if t.taken < |Frames(t)| {
      var d := Frames(t)[t.taken];
      OneMore(Frames(t), t.taken);
      if MoveOf(t, Handle(reply)).Some? {
        AskedInRange(d);
        ServeMove(t.s, Asked(d).value, reply);
      }
    }
  }

  lemma OneMore(ds: seq<Delivery>, n: nat)
    requires n < |ds|
    ensures AllAsked(ds[..n + 1]) == AllAsked(ds[..n]) + One(Asked(ds[n]))
    ensures Asked(ds[n]).None? ==> AllAsked(ds[..n + 1]) == AllAsked(ds[..n])
  {
    hide Asked;
    assert ds[..n + 1][..n] == ds[..n];
  }

  lemma AskedInRange(d: Delivery)
    ensures Asked(d).Some? ==> 0 < Asked(d).value.cmdId < H.CMD_ID_BOUND
  {
    hide Requests.ToHost, Requests.DecodeRequest;
  }

  lemma {:induction false} RunKeeps(t: Talk, turns: seq<Turn>)
    requires InStep(t)
    ensures InStep(Run(t, turns))
    decreases |turns|
  {
    if turns != [] {
      hide InStep, Step;
      StepKeeps(t, turns[0]);
      RunKeeps(Step(t, turns[0]), turns[1..]);
    }
  }

  lemma BeginInStep(backed: bool, conn: Conn)
    requires conn.buffer == []
    ensures InStep(Begin(backed, conn))
  {
  }

  // ---- What the messages ask ------------------------------------------------------------------------

  /** The ids of the messages that are answered, in order. */
  function Ids(ms: seq<Message>): seq<nat> {
    if ms == [] then [] else Ids(ms[..|ms| - 1]) + IdOf(ms[|ms| - 1])
  }

  function IdOf(m: Message): seq<nat> {
    if Meant(m).Some? && Meant(m).value.cmdId != 0 then [Meant(m).value.cmdId] else []
  }

  function CmdIds(requests: seq<H.Req>): seq<nat> {
    seq(|requests|, k requires 0 <= k < |requests| => requests[k].cmdId)
  }

  /** A message asks the host for what it means. */
  lemma MessageAsks(m: Message)
    requires Framed(m)
    ensures CmdIds(One(Asked(Deliver(AsFrame(m))))) == IdOf(m)
  {
    MessageToHost(m);
    SentSendable(m);
    Requests.DeliveredFields(AsFrame(m));
    IdBound(m);
    hide Says, Text, Requests.DecodeRequest, Requests.ToHost, Deliver;
  }

  lemma SentSendable(m: Message)
    requires Framed(m)
    ensures Sendable(AsFrame(m))
  {
    hide Says, Text;
  }

  lemma IdBound(m: Message)
    requires Framed(m)
    ensures Meant(m).Some? ==> Meant(m).value.cmdId < H.CMD_ID_BOUND
  {
    hide Says, Text;
    E.WideIds();
  }

  lemma {:induction false} MessagesAsk(ms: seq<Message>, n: nat)
    requires AllFramed(ms) && n <= |ms|
    ensures AllSendable(AsFrames(ms)) && n <= |Deliveries(AsFrames(ms))|
    ensures CmdIds(AllAsked(Deliveries(AsFrames(ms))[..n])) == Ids(ms[..n])
    decreases n
  {
    hide Framed, Asked, IdOf, Deliver, Sendable, Deliveries, AsFrame;
    MessagesSendable(ms);
    var fs := AsFrames(ms);
    E.SameCount(fs);
    if n > 0 {
      MessagesAsk(ms, n - 1);
      assert Framed(ms[n - 1]);
      Requests.DeliveryOf(fs, n - 1);
      MessageAsks(ms[n - 1]);
      OneMore(Deliveries(fs), n - 1);
      assert ms[..n][..n - 1] == ms[..n - 1];
      CmdIdsAppend(AllAsked(Deliveries(fs)[..n - 1]), One(Asked(Deliveries(fs)[n - 1])));
    }
  }

  lemma CmdIdsAppend(a: seq<H.Req>, b: seq<H.Req>)
    ensures CmdIds(a + b) == CmdIds(a) + CmdIds(b)
  {
  }

  lemma {:induction false} AllCorrelationIds(requests: seq<H.Req>, n: nat)
    requires n <= |requests|
    ensures R.CorrelationIds(requests, R.AllSerials(n)) == CmdIds(requests[..n])
    decreases n
  {
    if n > 0 {
      AllCorrelationIds(requests, n - 1);
      assert R.AllSerials(n)[..n - 1] == R.AllSerials(n - 1);
      assert requests[..n] == requests[..n - 1] + [requests[n - 1]];
    }
  }

  // ---- Every message answered --------------------------------------------------------------------------

  /** The host has been asked what a prefix of the messages mean, all of them once all is read. */
  lemma AskedAsMeant(peer: Conn, ms: seq<Message>, scripts: seq<WriteScript>, t: Talk) returns (sent: nat, asked: nat)
    requires |ms| == |scripts| && AllFramed(ms) && peer.client >= 0 && peer.wire == []
    requires InStep(t) && t.taken == |Frames(t)| && t.read <= MessageWire(peer, ms, scripts)
    ensures asked <= sent <= |ms|
    ensures AfterSending(peer, ms, scripts).client == if sent == |ms| then peer.client else -1
    ensures t.read == MessageWire(peer, ms, scripts) ==> asked == sent
    ensures CmdIds(t.s.host.requests) == Ids(ms[..asked])
  {
    hide Channel.SendAll, ParseStream, EncodeFrames, EncodeFrame, Deliveries, AllAsked, AllFramed, Ids;
    MessagesSendable(ms);
    var fs, torn := AsFrames(ms), [];
    sent, torn := Channel.WireIsFramesThenTorn(peer, fs, scripts);
    var whole := EncodeFrames(fs[..sent]) + torn;
    assert [] + whole == whole;
    asked := Channel.CutDelivers(fs, sent, torn, t.read);
    MessagesAsk(ms, asked);
    assert Frames(t)[..t.taken] == Frames(t);
  }

  /**
   * Whatever messages a peer sends, however it renders them and however writes and reads
   * cut them up, over every interleaving of host, workers and submitters: when nothing
   * was stopped or refused, everything read is handled and nothing is under way, the
   * peer has exactly one result for each message read that is answered, with its id.
   * Every message sent whole is among those once all was read.
   */
  lemma EveryMessageAnswered(peer: Conn, ms: seq<Message>, scripts: seq<WriteScript>,
                             backed: bool, conn: Conn, turns: seq<Turn>,
                             receiver: Conn, batches: seq<seq<ReadStep>>)
    returns (sent: nat, answered: nat, delivered: seq<Delivery>)
    requires |ms| == |scripts| && AllFramed(ms) && peer.client >= 0 && peer.wire == []
    requires conn.buffer == [] && conn.wire == [] && AllAllowed(turns)
    requires var t := Run(Begin(backed, conn), turns);
             && t.taken == |Frames(t)| && t.read <= MessageWire(peer, ms, scripts)
             && E.Quiet(t.s) && t.s.conn.client >= 0 && Channel.Total(batches) == t.s.conn.wire
    requires receiver.client >= 0 && receiver.buffer == [] && Channel.AllDrained(batches)
    ensures answered <= sent <= |ms|
    ensures AfterSending(peer, ms, scripts).client == if sent == |ms| then peer.client else -1
    ensures Run(Begin(backed, conn), turns).read == MessageWire(peer, ms, scripts) ==> answered == sent
    ensures Channel.ReceiveAll(receiver, batches).notices == receiver.notices + AsNotices(delivered)
    ensures multiset(E.DeliveredIds(delivered)) == multiset(Ids(ms[..answered]))
  {
    hide Run, InStep, Moves, E.Run, E.Quiet, E.AllProper, E.AllSmooth, AllAllowed, AllFramed, AfterSending;
    hide Channel.ReceiveAll, Channel.Total, E.DeliveredIds, R.CorrelationIds, Ids, CmdIds, Frames;
    var t := Run(Begin(backed, conn), turns);
    BeginInStep(backed, conn);
    RunKeeps(Begin(backed, conn), turns);
    TalkIsSession(Begin(backed, conn), turns);
    sent, answered := AskedAsMeant(peer, ms, scripts, t);
    delivered := E.EveryRequestAnswered(backed, conn, Moves(Begin(backed, conn), turns), receiver, batches);
    var requests := t.s.host.requests;
    AllCorrelationIds(requests, |requests|);
    assert requests[..|requests|] == requests;
  }
}
