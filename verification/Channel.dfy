// What the two ends of a connection make together: a FIFO channel that can only be
// cut to a prefix, and connection callbacks that alternate.

module Channel {
  import opened Wrappers
  import opened Bytes
  import opened Frame
  import opened Transport

  // ---- Receiving in batches ------------------------------------------------------------

  predicate AllDrained(batches: seq<seq<ReadStep>>) {
    forall k :: 0 <= k < |batches| ==> EndOf(batches[k]).Drained?
  }

  /** Everything the batches read. */
  function Total(batches: seq<seq<ReadStep>>): bytes {
    if batches == [] then [] else Arrived(batches[0]) + Total(batches[1..])
  }

  /** Readable events one after another, until the connection is closed. */
  function ReceiveAll(c: Conn, batches: seq<seq<ReadStep>>): Conn
    decreases |batches|
  {
    if batches == [] || c.client < 0 then c
    else ReceiveAll(AfterRead(c, batches[0], None), batches[1..])
  }

  /** The state one parse of `s` leads to. */
  function AfterParse(c: Conn, p: Parse): Conn {
    var d := c.(notices := c.notices + AsNotices(p.frames));
    if p.bad then Close(d) else d.(buffer := p.rest)
  }

  /** A buffer no frame can be taken from. */
  predicate Settled(c: Conn) {
    c.client >= 0 && ParseStream(c.buffer) == Parse([], c.buffer, false)
  }

  lemma JoinParses(c: Conn, p: Parse, q: Parse)
    requires !p.bad
    ensures AfterParse(AfterParse(c, p), q) == AfterParse(c, Parse(p.frames + q.frames, q.rest, q.bad))
  {
    AsNoticesAppend(p.frames, q.frames);
    assert c.notices + AsNotices(p.frames) + AsNotices(q.frames)
        == c.notices + (AsNotices(p.frames) + AsNotices(q.frames));
  }

  lemma ReadIsParse(c: Conn, script: seq<ReadStep>)
    requires EndOf(script).Drained?
    ensures AfterRead(c, script, None) == AfterParse(c, ParseStream(c.buffer + Arrived(script)))
  {
  }

  /**
   * However the stream is split into reads, the frames delivered and the leftover
   * are those of one parse of the whole stream.
   */
  lemma {:induction false} ChunkInvariance(c: Conn, batches: seq<seq<ReadStep>>)
    requires Settled(c) && AllDrained(batches)
    ensures ReceiveAll(c, batches) == AfterParse(c, ParseStream(c.buffer + Total(batches)))
    decreases |batches|
  {
    hide ParseStream, AfterRead, AfterParse, Arrived, EndOf;
    if batches == [] {
      NothingRead(c);
    } else {
      var data := Arrived(batches[0]);
      var first := c.buffer + data;
      var p := ParseStream(first);
      var d := AfterParse(c, p);
      ReadIsParse(c, batches[0]);
      ParseAppend(first, Total(batches[1..]));
      assert c.buffer + Total(batches) == first + Total(batches[1..]);
      AfterParseFields(c, p);
      if p.bad {
        AfterBadParse(c, p, ParseStream(c.buffer + Total(batches)));
      } else {
        LeftoverIsShort(first);
        ChunkInvariance(d, batches[1..]);
        JoinParses(c, p, ParseStream(p.rest + Total(batches[1..])));
      }
    }
  }

  lemma NothingRead(c: Conn)
    requires Settled(c)
    ensures AfterParse(c, ParseStream(c.buffer + [])) == c
  {
    assert c.buffer + [] == c.buffer && c.notices + [] == c.notices;
  }

  lemma AfterParseFields(c: Conn, p: Parse)
    ensures AfterParse(c, p).client == if p.bad then -1 else c.client
    ensures !p.bad ==> AfterParse(c, p).buffer == p.rest
  {
  }

  lemma AfterBadParse(c: Conn, p: Parse, q: Parse)
    requires p.bad && q.bad && p.frames == q.frames
    ensures AfterParse(c, p) == AfterParse(c, q)
  {
  }

  // ---- Sending in sequence ---------------------------------------------------------------

  /** Frames handed to send one after another, each with its own write schedule. */
  function SendAll(c: Conn, fs: seq<Outgoing>, scripts: seq<WriteScript>): Conn
    requires |fs| == |scripts| && AllSendable(fs)
    decreases |fs|
  {
    if fs == [] then c else SendAll(AfterSend(c, fs[0], scripts[0]), fs[1..], scripts[1..])
  }

  lemma {:induction false} ClosedStaysClosed(c: Conn, fs: seq<Outgoing>, scripts: seq<WriteScript>)
    requires |fs| == |scripts| && AllSendable(fs) && c.client < 0
    ensures SendAll(c, fs, scripts) == c
    decreases |fs|
  {
    if fs != [] {
      ClosedStaysClosed(c, fs[1..], scripts[1..]);
    }
  }

  lemma EncodeFramesStep(fs: seq<Outgoing>, n: nat)
    requires AllSendable(fs) && n < |fs|
    ensures EncodeFrames(fs[..n + 1]) == EncodeFrame(fs[0]) + EncodeFrames(fs[1..][..n])
  {
    assert fs[..n + 1][1..] == fs[1..][..n];
  }

  /**
   * Under any schedule of partial writes the wire holds the frames sent so far and
   * at most one torn frame, and a torn frame is the last thing on it: the connection
   * is gone.
   */
  lemma {:induction false} WireIsFramesThenTorn(c: Conn, fs: seq<Outgoing>, scripts: seq<WriteScript>)
    returns (sent: nat, torn: bytes)
    requires |fs| == |scripts| && AllSendable(fs) && c.client >= 0
    ensures sent <= |fs|
    ensures SendAll(c, fs, scripts).wire == c.wire + (EncodeFrames(fs[..sent]) + torn)
    ensures SendAll(c, fs, scripts).client == if sent == |fs| then c.client else -1
    ensures if sent == |fs| then torn == [] else torn < EncodeFrame(fs[sent])
    decreases |fs|
  {
    if fs == [] {
      assert c.wire + ([] + []) == c.wire;
      return 0, [];
    }
    hide EncodeFrame, EncodeFrames, FrameWritten, CloseDeferred;
    CloseDeferredKeepsWire();
    var d := AfterSend(c, fs[0], scripts[0]);
    var e := EncodeFrame(fs[0]);
    var w := FrameWritten(fs[0], scripts[0]);
    EncodedSize(fs[0]);
    if w.ok {
      assert e[..w.accepted] == e;
      var n, t := WireIsFramesThenTorn(d, fs[1..], scripts[1..]);
      EncodeFramesStep(fs, n);
      Regroup(c.wire, e, EncodeFrames(fs[1..][..n]), t);
      sent, torn := n + 1, t;
    } else {
      ClosedStaysClosed(d, fs[1..], scripts[1..]);
      sent, torn := 0, e[..w.accepted];
      NothingSent(fs);
      assert [] + torn == torn;
    }
  }

  lemma CloseDeferredKeepsWire()
    ensures forall c :: CloseDeferred(c).wire == c.wire && CloseDeferred(c).client == -1
  {
  }

  lemma Regroup(a: bytes, b: bytes, c: bytes, d: bytes)
    ensures a + b + (c + d) == a + (b + c + d)
  {
  }

  lemma EncodedSize(f: Outgoing)
    requires Correlated(f)
    ensures |EncodeFrame(f)| == HEADER_SIZE + |f.payload|
  {
  }

  lemma NothingSent(fs: seq<Outgoing>)
    requires AllSendable(fs)
    ensures EncodeFrames(fs[..0]) == []
  {
    assert fs[..0] == [];
  }

  predicate AllGoOn(scripts: seq<WriteScript>) {
    forall k :: 0 <= k < |scripts| ==> AllWriteOn(scripts[k])
  }

  /** If no step gives up, every frame is sent whole and the client stays. */
  lemma {:induction false} SendAllSucceeds(c: Conn, fs: seq<Outgoing>, scripts: seq<WriteScript>)
    requires |fs| == |scripts| && AllSendable(fs) && c.client >= 0 && AllGoOn(scripts)
    ensures SendAll(c, fs, scripts) == c.(wire := c.wire + EncodeFrames(fs))
    decreases |fs|
  {
    hide AfterSend, EncodeFrame, AllWriteOn;
    if fs == [] {
      assert c.wire + [] == c.wire;
    } else {
      SendSucceeds(c, fs[0], scripts[0]);
      SendAllSucceeds(AfterSend(c, fs[0], scripts[0]), fs[1..], scripts[1..]);
      var first, rest := EncodeFrame(fs[0]), EncodeFrames(fs[1..]);
      assert c.wire + first + rest == c.wire + (first + rest);
    }
  }

  // ---- End to end ------------------------------------------------------------------------------

  lemma {:induction false} DeliveriesPrefix(fs: seq<Outgoing>, n: nat)
    requires AllSendable(fs) && n <= |fs|
    ensures Deliveries(fs[..n]) == Deliveries(fs)[..n]
  {
    if n > 0 {
      DeliveriesPrefix(fs[1..], n - 1);
      assert fs[..n][1..] == fs[1..][..n - 1];
    }
  }

  lemma {:induction false} EncodePrefix(fs: seq<Outgoing>, n: nat)
    requires AllSendable(fs) && n < |fs|
    ensures EncodeFrames(fs[..n]) + EncodeFrame(fs[n]) <= EncodeFrames(fs)
  {
    EncodeFramesHead(fs);
    hide EncodeFrames, EncodeFrame;
    if n == 0 {
      NothingSent(fs);
      assert [] + EncodeFrame(fs[0]) == EncodeFrame(fs[0]);
    } else {
      EncodePrefix(fs[1..], n - 1);
      EncodeFramesStep(fs, n - 1);
      PrefixUnder(EncodeFrame(fs[0]), EncodeFrames(fs[1..][..n - 1]), EncodeFrame(fs[n]), EncodeFrames(fs[1..]));
    }
  }

  lemma EncodeFramesHead(fs: seq<Outgoing>)
    requires AllSendable(fs) && fs != []
    ensures EncodeFrames(fs) == EncodeFrame(fs[0]) + EncodeFrames(fs[1..])
  {
  }

  lemma PrefixUnder(e: bytes, x: bytes, y: bytes, z: bytes)
    requires x + y <= z
    ensures e + x + y <= e + z
  {
    assert e + x + y == e + (x + y);
  }

  /** What reassembly makes of the wire: the frames sent whole, and only those. */
  lemma ParseWire(fs: seq<Outgoing>, sent: nat, torn: bytes)
    requires AllSendable(fs) && sent <= |fs|
    requires if sent == |fs| then torn == [] else torn < EncodeFrame(fs[sent])
    ensures ParseStream(EncodeFrames(fs[..sent]) + torn) == Parse(Deliveries(fs)[..sent], torn, false)
    ensures EncodeFrames(fs[..sent]) + torn <= EncodeFrames(fs)
  {
    DeliveriesPrefix(fs, sent);
    ParseFrames(fs[..sent], torn);
    if sent == |fs| {
      assert ParseStream([]) == Parse([], [], false);
      assert fs[..sent] == fs && EncodeFrames(fs) + [] == EncodeFrames(fs);
      assert Deliveries(fs) + [] == Deliveries(fs)[..sent];
    } else {
      TornFrame(fs[sent], torn);
      EncodePrefix(fs, sent);
      assert Deliveries(fs[..sent]) + [] == Deliveries(fs[..sent]);
    }
  }

  /**
   * For any frames that pass the size guard, any partial-write schedule and any
   * chunking of any cut of the bytes written, the peer is handed exactly a prefix
   * of the frames, in order, with type, correlation id and payload intact. Once
   * all bytes are in, that prefix is the frames whose send succeeded: all of them,
   * if no write was given up.
   */
  lemma ChannelIsFifo(sender: Conn, receiver: Conn, fs: seq<Outgoing>, scripts: seq<WriteScript>,
                      batches: seq<seq<ReadStep>>)
    returns (sent: nat, delivered: nat)
    requires |fs| == |scripts| && AllSendable(fs) && AllDrained(batches)
    requires sender.client >= 0 && sender.wire == []
    requires receiver.client >= 0 && receiver.buffer == []
    requires Total(batches) <= SendAll(sender, fs, scripts).wire
    ensures delivered <= sent <= |fs|
    ensures ReceiveAll(receiver, batches).notices == receiver.notices + AsNotices(Deliveries(fs)[..delivered])
    ensures ReceiveAll(receiver, batches).client == receiver.client
    ensures |ReceiveAll(receiver, batches).buffer| < HEADER_SIZE + MAX_PAYLOAD
    ensures Total(batches) == SendAll(sender, fs, scripts).wire ==> delivered == sent
    ensures SendAll(sender, fs, scripts).client == if sent == |fs| then sender.client else -1
    ensures AllGoOn(scripts) ==> sent == |fs|
  {
    if AllGoOn(scripts) {
      SendAllSucceeds(sender, fs, scripts);
    }
    hide SendAll, ReceiveAll, ParseStream, AfterParse, Total, EncodeFrames, Deliveries, EncodeFrame;
    var torn;
    sent, torn := WireIsFramesThenTorn(sender, fs, scripts);
    var whole := EncodeFrames(fs[..sent]) + torn;
    assert [] + whole == whole;
    var cut := Total(batches);
    delivered := CutDelivers(fs, sent, torn, cut);
    NothingBuffered(receiver);
    ChunkInvariance(receiver, batches);
    assert [] + cut == cut;
    GoodParse(receiver, ParseStream(cut));
  }

  lemma NothingBuffered(c: Conn)
    requires c.client >= 0 && c.buffer == []
    ensures Settled(c)
  {
  }

  lemma GoodParse(c: Conn, p: Parse)
    requires !p.bad
    ensures AfterParse(c, p) == c.(notices := c.notices + AsNotices(p.frames), buffer := p.rest)
  {
  }

  /** Any cut of the wire parses to a prefix of the frames sent, all of them when it is whole. */
  lemma CutDelivers(fs: seq<Outgoing>, sent: nat, torn: bytes, cut: bytes) returns (delivered: nat)
    requires AllSendable(fs) && sent <= |fs|
    requires if sent == |fs| then torn == [] else torn < EncodeFrame(fs[sent])
    requires cut <= EncodeFrames(fs[..sent]) + torn
    ensures delivered <= sent && ParseStream(cut).frames == Deliveries(fs)[..delivered]
    ensures !ParseStream(cut).bad && |ParseStream(cut).rest| < HEADER_SIZE + MAX_PAYLOAD
    ensures cut == EncodeFrames(fs[..sent]) + torn ==> delivered == sent
  {
    hide ParseStream, EncodeFrame, EncodeFrames, Deliveries;
    var whole := EncodeFrames(fs[..sent]) + torn;
    ParseWire(fs, sent, torn);
    ParsePrefix(fs, cut);
    LeftoverIsShort(cut);
    var rest := whole[|cut|..];
    assert whole == cut + rest;
    ParseAppend(cut, rest);
    delivered := |ParseStream(cut).frames|;
    assert ParseStream(cut).frames <= Deliveries(fs)[..sent];
  }

  // ---- Connection callbacks ------------------------------------------------------------------

  // A session is what the callbacks so far say; it breaks when they do not alternate
  // or a frame arrives outside a connection.
  datatype Session = Idle | Open | Broken

  function Step(s: Session, n: Notice): Session {
    match n
    case Connected => if s.Idle? then Open else Broken
    case Disconnected => if s.Open? then Idle else Broken
    case Received(_) => if s.Open? then Open else Broken
  }

  function Follow(s: Session, ns: seq<Notice>): Session
    decreases |ns|
  {
    if ns == [] then s else Follow(Step(s, ns[0]), ns[1..])
  }

  lemma {:induction false} FollowAppend(s: Session, a: seq<Notice>, b: seq<Notice>)
    ensures Follow(s, a + b) == Follow(Follow(s, a), b)
    decreases |a|
  {
    if a == [] {
      assert a + b == b;
    } else {
      assert (a + b)[1..] == a[1..] + b;
      FollowAppend(Step(s, a[0]), a[1..], b);
    }
  }

  lemma {:induction false} FollowBroken(ns: seq<Notice>)
    ensures Follow(Broken, ns) == Broken
  {
    if ns != [] {
      FollowBroken(ns[1..]);
    }
  }

  lemma {:induction false} FollowReceived(ds: seq<Delivery>)
    ensures Follow(Open, AsNotices(ds)) == Open
  {
    if ds != [] {
      FollowReceived(ds[1..]);
    }
  }

  function SessionOf(c: Conn): Session {
    Follow(Idle, c.notices)
  }

  /** Open callbacks match a held client or a pending notice, never both. */
  predicate InStep(c: Conn) {
    && SessionOf(c) == (if c.client >= 0 || c.pending then Open else Idle)
    && !(c.client >= 0 && c.pending)
  }

  lemma Noted(c: Conn, ns: seq<Notice>)
    ensures SessionOf(c.(notices := c.notices + ns)) == Follow(SessionOf(c), ns)
  {
    FollowAppend(Idle, c.notices, ns);
  }

  lemma CloseKeeps(c: Conn)
    requires InStep(c) && c.client >= 0
    ensures InStep(Close(c)) && SessionOf(Close(c)) == Idle
  {
    Noted(c, [Disconnected]);
    assert Follow(Open, [Disconnected]) == Idle;
  }

  lemma ReceiveKeeps(c: Conn, ds: seq<Delivery>)
    requires InStep(c) && c.client >= 0
    ensures InStep(c.(notices := c.notices + AsNotices(ds)))
  {
    Noted(c, AsNotices(ds));
    FollowReceived(ds);
  }

  lemma ReadKeeps(c: Conn, script: seq<ReadStep>, closeAt: Option<nat>)
    requires InStep(c) && c.client >= 0
    ensures InStep(AfterRead(c, script, closeAt))
    ensures closeAt.None? ==> !AfterRead(c, script, closeAt).pending
  {
    hide InStep, SessionOf;
    if !EndOf(script).Drained? {
      CloseKeeps(c);
    } else {
      var p := ParseStream(c.buffer + Arrived(script));
      if HandlerCloses(p, closeAt) {
        var ds := p.frames[..closeAt.value + 1];
        ReceiveKeeps(c, ds);
        DeferKeeps(c.(notices := c.notices + AsNotices(ds)));
      } else {
        ReceiveKeeps(c, p.frames);
        var d := c.(buffer := p.rest, notices := c.notices + AsNotices(p.frames));
        SameStep(d, d.(buffer := c.buffer));
        if p.bad {
          CloseKeeps(d);
        }
      }
    }
    NotBoth(c);
  }

  lemma NotBoth(c: Conn)
    requires InStep(c) && c.client >= 0
    ensures !c.pending
  {
  }

  lemma SameStep(c: Conn, d: Conn)
    requires InStep(d) && c.client == d.client && c.pending == d.pending && c.notices == d.notices
    ensures InStep(c)
  {
  }

  lemma DeferKeeps(c: Conn)
    requires InStep(c)
    ensures InStep(CloseDeferred(c))
  {
  }

  /** A failed send leaves no client and a notice to come. */
  lemma SendKeeps(c: Conn, f: Outgoing, script: WriteScript)
    requires InStep(c) && Correlated(f)
    ensures InStep(AfterSend(c, f, script))
    ensures !SendOk(c, f, script) ==> AfterSend(c, f, script).client == -1
  {
  }

  lemma AcceptKeeps(c: Conn, a: Accept)
    requires InStep(c)
    ensures if c.pending && a.Accepted? && a.registered then SessionOf(AfterAccept(c, a)) == Broken
            else InStep(AfterAccept(c, a))
    ensures !c.pending ==> !AfterAccept(c, a).pending
  {
    if a.Accepted? {
      if c.client >= 0 {
        CloseKeeps(c);
      }
      var d := if c.client >= 0 then Close(c) else c;
      Noted(d, [Connected]);
      assert Follow(Idle, [Connected]) == Open && Follow(Open, [Connected]) == Broken;
    }
  }

  /** A connection is accepted while a handler's own close still waits to be announced. */
  predicate AcceptWhilePending(c: Conn, events: seq<PollEvent>)
    decreases |events|
  {
    events != []
    && ((c.pending && events[0].Server? && events[0].accept.Accepted? && events[0].accept.registered)
        || (EventOk(c, events[0]) && AcceptWhilePending(AfterEvent(c, events[0]), events[1..])))
  }

  lemma EventKeeps(c: Conn, e: PollEvent)
    requires InStep(c)
    ensures if c.pending && e.Server? && e.accept.Accepted? && e.accept.registered
            then SessionOf(AfterEvent(c, e)) == Broken
            else InStep(AfterEvent(c, e))
    ensures !c.pending && (e.Client? ==> e.closeAt.None?) ==> !AfterEvent(c, e).pending
  {
    match e
    case Wake =>
    case Server(a) => AcceptKeeps(c, a);
    case Client(fd, hangup, readable, script, closeAt) =>
      if fd == c.client {
        if hangup {
          CloseKeeps(c);
        } else if readable {
          ReadKeeps(c, script, closeAt);
        }
      }
  }

  lemma EventAppends(c: Conn, e: PollEvent) returns (ns: seq<Notice>)
    ensures AfterEvent(c, e).notices == c.notices + ns
  {
    hide ParseStream, Arrived, EndOf;
    var d := AfterEvent(c, e);
    match e
    case Wake => ns := [];
    case Server(a) =>
      ns := (if a.Accepted? && c.client >= 0 then [Disconnected] else [])
            + (if a.Accepted? && a.registered then [Connected] else []);
      assert c.notices + [Disconnected] + [Connected] == c.notices + ([Disconnected] + [Connected]);
    case Client(fd, hangup, readable, script, closeAt) =>
      if fd != c.client || (!hangup && !readable) {
        ns := [];
      } else {
        ns := d.notices[|c.notices|..];
        assert c.notices <= d.notices;
      }
  }

  lemma {:induction false} BrokenStays(c: Conn, events: seq<PollEvent>)
    requires SessionOf(c) == Broken
    ensures SessionOf(AfterEvents(c, events)) == Broken
    decreases |events|
  {
    if events != [] {
      var ns := EventAppends(c, events[0]);
      Noted(c, ns);
      FollowBroken(ns);
      if EventOk(c, events[0]) {
        BrokenStays(AfterEvent(c, events[0]), events[1..]);
      }
    }
  }

  lemma {:induction false} EventsKeepExactly(c: Conn, events: seq<PollEvent>)
    requires InStep(c)
    ensures if AcceptWhilePending(c, events) then SessionOf(AfterEvents(c, events)) == Broken
            else InStep(AfterEvents(c, events))
    decreases |events|
  {
    if events != [] {
      hide AfterEvent, InStep;
      var e := events[0];
      var d := AfterEvent(c, e);
      EventKeeps(c, e);
      if c.pending && e.Server? && e.accept.Accepted? && e.accept.registered {
        BrokenStays(d, events[1..]);
      } else if EventOk(c, e) {
        EventsKeepExactly(d, events[1..]);
      }
    }
  }

  lemma BrokenIsOut(c: Conn)
    requires SessionOf(c) == Broken
    ensures !InStep(c)
  {
  }

  lemma NotifyKeeps(c: Conn)
    requires InStep(c)
    ensures InStep(AfterNotify(c)) && !AfterNotify(c).pending
  {
    Noted(c, [Disconnected]);
    assert Follow(Open, [Disconnected]) == Idle;
  }

  /** A poll accepts a connection before it announced the end of the last. */
  predicate AcceptBeforeNotice(c: Conn, wait: Wait) {
    wait.Ready? && AcceptWhilePending(AfterNotify(c), wait.events)
  }

  /**
   * One poll keeps callbacks in step if and only if no connection is accepted, in
   * the same poll, after a frame handler closed the previous one through a send.
   */
  lemma PollKeepsExactly(c: Conn, wait: Wait)
    requires InStep(c)
    ensures InStep(AfterPoll(c, wait)) <==> !AcceptBeforeNotice(c, wait)
    ensures AcceptBeforeNotice(c, wait) ==> SessionOf(AfterPoll(c, wait)) == Broken
  {
    NotifyKeeps(c);
    if wait.Ready? {
      EventsKeepExactly(AfterNotify(c), wait.events);
      if AcceptBeforeNotice(c, wait) {
        BrokenIsOut(AfterPoll(c, wait));
      }
    }
  }

  lemma OneRead(b: bytes)
    requires b != []
    ensures Arrived([Data(b)]) == b && EndOf([Data(b)]) == Drained
  {
    var script := [Data(b)];
    assert FirstEnd(script[1..]) == 0 && script[..1] == script;
    assert script[..0] == [] && Joined(script[..0]) == [];
  }

  /** The case it fails: the handler of any frame closes, then a new client is accepted. */
  lemma HandlerCloseThenAccept(f: Outgoing)
    requires Sendable(f)
    ensures var c := FRESH.(client := 3, notices := [Connected]);
            var events := [Client(3, false, true, [Data(EncodeFrame(f))], Some(0)), Server(Accepted(4, true))];
            InStep(c) && !InStep(AfterPoll(c, Ready(events)))
  {
    var c := FRESH.(client := 3, notices := [Connected]);
    var script := [Data(EncodeFrame(f))];
    var events := [Client(3, false, true, script, Some(0)), Server(Accepted(4, true))];
    assert Follow(Idle, [Connected]) == Open;
    OneRead(EncodeFrame(f));
    assert EncodeFrame(f) + [] == EncodeFrame(f) && [] + EncodeFrame(f) == EncodeFrame(f);
    ParseOneFrame(f, []);
    var d := AfterEvent(c, events[0]);
    assert EventOk(c, events[0]) && d.pending;
    assert events[1..][0] == events[1];
    assert AcceptWhilePending(d, events[1..]);
    PollKeepsExactly(c, Ready(events));
  }

  /** No handler of these events closes the connection. */
  predicate Quiet(events: seq<PollEvent>) {
    forall k :: 0 <= k < |events| ==> events[k].Client? ==> events[k].closeAt.None?
  }

  lemma {:induction false} QuietNeverPends(c: Conn, events: seq<PollEvent>)
    requires InStep(c) && !c.pending && Quiet(events)
    ensures !AcceptWhilePending(c, events)
    decreases |events|
  {
    if events != [] {
      EventKeeps(c, events[0]);
      QuietNeverPends(AfterEvent(c, events[0]), events[1..]);
    }
  }

  datatype Op = Poll(wait: Wait) | Send(f: Outgoing, script: WriteScript)

  predicate CorrelatedOps(ops: seq<Op>) {
    forall k :: 0 <= k < |ops| ==> ops[k].Send? ==> Correlated(ops[k].f)
  }

  function AfterOp(c: Conn, op: Op): Conn
    requires op.Send? ==> Correlated(op.f)
  {
    match op
    case Poll(w) => AfterPoll(c, w)
    case Send(f, s) => AfterSend(c, f, s)
  }

  function Run(c: Conn, ops: seq<Op>): Conn
    requires CorrelatedOps(ops)
    decreases |ops|
  {
    if ops == [] then c else Run(AfterOp(c, ops[0]), ops[1..])
  }

  /** Some poll of the run accepts a connection before it announced the end of the last. */
  predicate EverAcceptBeforeNotice(c: Conn, ops: seq<Op>)
    requires CorrelatedOps(ops)
    decreases |ops|
  {
    ops != []
    && ((ops[0].Poll? && AcceptBeforeNotice(c, ops[0].wait))
        || EverAcceptBeforeNotice(AfterOp(c, ops[0]), ops[1..]))
  }

  lemma BrokenOp(c: Conn, op: Op)
    requires SessionOf(c) == Broken && (op.Send? ==> Correlated(op.f))
    ensures SessionOf(AfterOp(c, op)) == Broken
  {
    if op.Poll? {
      Noted(c, [Disconnected]);
      FollowBroken([Disconnected]);
      if op.wait.Ready? {
        BrokenStays(AfterNotify(c), op.wait.events);
      }
    }
  }

  lemma {:induction false} BrokenRun(c: Conn, ops: seq<Op>)
    requires SessionOf(c) == Broken && CorrelatedOps(ops)
    ensures SessionOf(Run(c, ops)) == Broken
    decreases |ops|
  {
    if ops != [] {
      hide SessionOf, AfterOp;
      BrokenOp(c, ops[0]);
      BrokenRun(AfterOp(c, ops[0]), ops[1..]);
    }
  }

  lemma OpKeepsExactly(c: Conn, op: Op)
    requires InStep(c) && (op.Send? ==> Correlated(op.f))
    ensures if op.Poll? && AcceptBeforeNotice(c, op.wait) then SessionOf(AfterOp(c, op)) == Broken
            else InStep(AfterOp(c, op))
  {
    hide InStep, SessionOf, AfterPoll, AfterSend, AcceptBeforeNotice;
    match op
    case Poll(w) => PollKeepsExactly(c, w);
    case Send(f, s) => SendKeeps(c, f, s);
  }

  /**
   * A whole run of polls and sends keeps callbacks in step if and only if none of its
   * polls accepts a connection before it announced the end of the last; once out of
   * step, a run never recovers.
   */
  lemma {:induction false} RunKeepsExactly(c: Conn, ops: seq<Op>)
    requires CorrelatedOps(ops) && InStep(c)
    ensures InStep(Run(c, ops)) <==> !EverAcceptBeforeNotice(c, ops)
    ensures EverAcceptBeforeNotice(c, ops) ==> SessionOf(Run(c, ops)) == Broken
    decreases |ops|
  {
    if ops != [] {
      hide InStep, SessionOf, AfterOp, AcceptBeforeNotice;
      var d := AfterOp(c, ops[0]);
      OpKeepsExactly(c, ops[0]);
      if ops[0].Poll? && AcceptBeforeNotice(c, ops[0].wait) {
        BrokenRun(d, ops[1..]);
        BrokenIsOut(Run(d, ops[1..]));
      } else {
        RunKeepsExactly(d, ops[1..]);
      }
    }
  }

  // The host sends outside the poll, so its handlers never close the connection.
  predicate HostOps(ops: seq<Op>) {
    && CorrelatedOps(ops)
    && forall k :: 0 <= k < |ops| ==> ops[k].Poll? ==> ops[k].wait.Ready? ==> Quiet(ops[k].wait.events)
  }

  /** No run of the host meets that case. */
  lemma {:induction false} HostNeverAcceptsEarly(c: Conn, ops: seq<Op>)
    requires HostOps(ops) && InStep(c)
    ensures !EverAcceptBeforeNotice(c, ops)
    decreases |ops|
  {
    if ops != [] {
      hide InStep, AfterOp;
      NotifyKeeps(c);
      if ops[0].Poll? && ops[0].wait.Ready? {
        QuietNeverPends(AfterNotify(c), ops[0].wait.events);
      }
      OpKeepsExactly(c, ops[0]);
      HostNeverAcceptsEarly(AfterOp(c, ops[0]), ops[1..]);
    }
  }

  /** The connection callbacks alone, without the frames. */
  function Links(ns: seq<Notice>): seq<Notice> {
    if ns == [] then []
    else (if ns[0].Received? then [] else [ns[0]]) + Links(ns[1..])
  }

  predicate Alternates(ls: seq<Notice>, first: Notice, second: Notice) {
    forall k :: 0 <= k < |ls| ==> ls[k] == if k % 2 == 0 then first else second
  }

  lemma {:induction false} UnbrokenAlternates(s: Session, ns: seq<Notice>)
    requires !s.Broken? && Follow(s, ns) != Broken
    ensures var ls := Links(ns);
            && (if s.Idle? then Alternates(ls, Connected, Disconnected) else Alternates(ls, Disconnected, Connected))
            && (Follow(s, ns).Open? <==> (|ls| % 2 == 1) == s.Idle?)
    decreases |ns|
  {
    if ns != [] {
      FollowBroken(ns[1..]);
      UnbrokenAlternates(Step(s, ns[0]), ns[1..]);
      var ls, rest := Links(ns), Links(ns[1..]);
      if !ns[0].Received? {
        assert forall k :: 0 < k < |ls| ==> ls[k] == rest[k - 1];
      }
    }
  }

  /**
   * Within one session of the host, connected and disconnected callbacks strictly
   * alternate starting with connected; one connect is outstanding exactly when a
   * client is held or a notice is pending, and those two exclude each other.
   */
  lemma CallbacksAlternate(ops: seq<Op>)
    requires HostOps(ops)
    ensures var c := Run(FRESH, ops);
            && Alternates(Links(c.notices), Connected, Disconnected)
            && (|Links(c.notices)| % 2 == 1 <==> c.client >= 0 || c.pending)
            && !(c.client >= 0 && c.pending)
  {
    HostNeverAcceptsEarly(FRESH, ops);
    RunKeepsExactly(FRESH, ops);
    UnbrokenAlternates(Idle, Run(FRESH, ops).notices);
  }

  // ---- Event by event -------------------------------------------------------------------------

  /** The batch ends at step `k`, and everything before it goes on. */
  predicate EndsWith(script: seq<ReadStep>, k: nat, last: ReadStep) {
    k < |script| && script[k] == last && forall j :: 0 <= j < k ==> ReadsOn(script[j])
  }

  lemma {:induction false} EndsThere(script: seq<ReadStep>, k: nat)
    requires k < |script| && !ReadsOn(script[k]) && forall j :: 0 <= j < k ==> ReadsOn(script[j])
    ensures FirstEnd(script) == k
    decreases k
  {
    if k > 0 {
      EndsThere(script[1..], k - 1);
    }
  }

  /**
   * A peer that closes, and a read that fails, end the connection: nothing of the batch
   * is delivered, and the host is told. Only the failure is an error.
   */
  lemma ReadsThatEnd(c: Conn, script: seq<ReadStep>, closeAt: Option<nat>, k: nat)
    requires EndsWith(script, k, Data([])) || EndsWith(script, k, ReadFailed)
    ensures var d := AfterRead(c, script, closeAt);
            && d.client == -1 && d.buffer == [] && !d.pending && d.wire == c.wire
            && d.notices == c.notices + [Disconnected]
    ensures ReadOk(c, script, closeAt) <==> script[k] == Data([])
  {
    EndsThere(script, k);
    hide FirstEnd, ParseStream;
  }

  /** A bad header ends the connection too, after the frames before it, and is an error. */
  lemma ReadsOfBadHeader(c: Conn, script: seq<ReadStep>, s: bytes)
    requires EndOf(script).Drained? && c.buffer + Arrived(script) == s && |s| >= HEADER_SIZE && Foreign(s)
    ensures var d := AfterRead(c, script, None);
            d.client == -1 && d.buffer == [] && d.notices == c.notices + [Disconnected] && !ReadOk(c, script, None)
  {
    FirstFrame(s);
    hide ParseStream, Arrived, EndOf, Foreign;
    assert c.notices + [] == c.notices;
  }

  /** A batch that leaves more to come is an error only for a bad header the handler did not forestall. */
  lemma ReadsThatGoOn(c: Conn, script: seq<ReadStep>, closeAt: Option<nat>)
    requires EndOf(script).Drained?
    ensures var p := ParseStream(c.buffer + Arrived(script));
            && (ReadOk(c, script, None) <==> !p.bad)
            && (HandlerCloses(p, closeAt) ==> ReadOk(c, script, closeAt))
            && (!HandlerCloses(p, closeAt) ==> ReadOk(c, script, closeAt) == ReadOk(c, script, None))
            && (!p.bad ==> AfterRead(c, script, None).client == c.client && AfterRead(c, script, None).buffer == p.rest)
  {
    hide ParseStream, Arrived, EndOf;
  }

  /** What accepting does: only a connection that was set up takes the place of the old one. */
  lemma AcceptOutcomes(c: Conn, a: Accept)
    ensures !a.Accepted? ==> AfterAccept(c, a) == c
    ensures a.Accepted? ==>
              var d := AfterAccept(c, a);
              var told := if c.client >= 0 then [Disconnected] else [];
              && d.client == (if a.registered then a.fd else -1)
              && d.notices == c.notices + told + (if a.registered then [Connected] else [])
              && (a.registered ==> d.buffer == [] && d.wire == [])
    ensures AcceptOk(a) <==> a == NoneWaiting || (a.Accepted? && a.registered)
  {
  }

  /** Events for a descriptor no longer held change nothing; a hang-up ends the connection unread. */
  lemma ClientOutcomes(c: Conn, e: PollEvent)
    requires e.Client?
    ensures e.fd != c.client || (!e.hangup && !e.readable) ==> AfterEvent(c, e) == c && EventOk(c, e)
    ensures e.fd == c.client && e.hangup ==>
              && AfterEvent(c, e) == c.(client := -1, pending := false, buffer := [],
                                        notices := c.notices + [Disconnected])
              && EventOk(c, e)
    ensures AfterEvent(c, Wake) == c && EventOk(c, Wake)
  {
    hide AfterRead, ReadOk;
  }

  /** After an event that fails, the events behind it are not looked at. */
  lemma {:induction false} EventsStop(c: Conn, before: seq<PollEvent>, e: PollEvent, after: seq<PollEvent>)
    requires EventsOk(c, before)
    ensures var d := AfterEvents(c, before);
            var all := before + [e] + after;
            && (!EventOk(d, e) ==> AfterEvents(c, all) == AfterEvent(d, e) && !EventsOk(c, all))
            && (EventOk(d, e) ==> AfterEvents(c, all) == AfterEvents(AfterEvent(d, e), after))
    decreases |before|
  {
    hide AfterEvent, EventOk;
    var all := before + [e] + after;
    if before == [] {
      assert all[1..] == after;
    } else {
      assert all[1..] == before[1..] + [e] + after;
      EventsStop(AfterEvent(c, before[0]), before[1..], e, after);
    }
  }

  /** A poll tells of a connection lost in a send before anything else, once. */
  lemma PendingFirst(c: Conn, wait: Wait)
    requires c.pending
    ensures c.notices + [Disconnected] <= AfterPoll(c, wait).notices
    ensures !wait.Ready? ==> AfterPoll(c, wait) == c.(pending := false, notices := c.notices + [Disconnected])
    ensures PollOk(c, WaitInterrupted) && !PollOk(c, WaitFailed)
  {
    if wait.Ready? {
      EventsAppend(AfterNotify(c), wait.events);
    }
  }

  lemma {:induction false} EventsAppend(c: Conn, events: seq<PollEvent>)
    ensures c.notices <= AfterEvents(c, events).notices
    decreases |events|
  {
    if events != [] {
      hide AfterEvent, EventOk;
      var ns := EventAppends(c, events[0]);
      if EventOk(c, events[0]) {
        EventsAppend(AfterEvent(c, events[0]), events[1..]);
      }
    }
  }

  /** Nothing of a lost connection is kept for the next one. */
  predicate Clean(c: Conn) {
    c.client < 0 ==> c.buffer == []
  }

  lemma OpCleans(c: Conn, op: Op)
    requires Clean(c) && (op.Send? ==> Correlated(op.f))
    ensures Clean(AfterOp(c, op))
  {
    match op
    case Poll(w) =>
      if w.Ready? {
        EventsClean(AfterNotify(c), w.events);
      }
    case Send(_, _) =>
  }

  lemma {:induction false} EventsClean(c: Conn, events: seq<PollEvent>)
    requires Clean(c)
    ensures Clean(AfterEvents(c, events))
    decreases |events|
  {
    if events != [] {
      EventCleans(c, events[0]);
      hide AfterEvent, EventOk, Clean;
      if EventOk(c, events[0]) {
        EventsClean(AfterEvent(c, events[0]), events[1..]);
      }
    }
  }

  lemma EventCleans(c: Conn, e: PollEvent)
    requires Clean(c)
    ensures Clean(AfterEvent(c, e))
  {
    hide ParseStream, Arrived, EndOf;
  }

  lemma {:induction false} RunIsClean(c: Conn, ops: seq<Op>)
    requires Clean(c) && CorrelatedOps(ops)
    ensures Clean(Run(c, ops))
    decreases |ops|
  {
    if ops != [] {
      hide Clean, AfterOp;
      OpCleans(c, ops[0]);
      RunIsClean(AfterOp(c, ops[0]), ops[1..]);
    }
  }
}
