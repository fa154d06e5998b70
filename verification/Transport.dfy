// The socket server: one client at a time, a growing receive buffer with a read
// cursor, blocking writes with a deadline, and connection callbacks. Socket calls
// are replaced by the outcomes they can have.

module Transport {
  import opened Wrappers
  import opened Bytes
  import opened Frame

  // ---- Outcomes of socket calls --------------------------------------------------------

  // One read() call. No bytes means end of file.
  datatype ReadStep = Data(b: bytes) | ReadInterrupted | WouldBlock | ReadFailed

  datatype ReadEnd = Drained | Eof | Failed

  datatype Reads = Reads(data: bytes, end: ReadEnd)

  /** Bytes read before the loop ends, and why it ends; a script that runs out blocks. */
  function Gather(script: seq<ReadStep>): Reads {
    if script == [] then Reads([], Drained)
    else
      match script[0]
      case Data(b) =>
        if b == [] then Reads([], Eof)
        else var r := Gather(script[1..]); Reads(b + r.data, r.end)
      case ReadInterrupted => Gather(script[1..])
      case WouldBlock => Reads([], Drained)
      case ReadFailed => Reads([], Failed)
  }

  /** A read that is followed by another: some bytes, or a signal. */
  predicate ReadsOn(s: ReadStep) {
    match s
    case Data(b) => b != []
    case ReadInterrupted => true
    case WouldBlock => false
    case ReadFailed => false
  }

  /** How many reads come before the one that ends the batch. */
  function FirstEnd(script: seq<ReadStep>): (n: nat)
    ensures n <= |script| && (n < |script| ==> !ReadsOn(script[n]))
    ensures forall k :: 0 <= k < n ==> ReadsOn(script[k])
  {
    if script == [] || !ReadsOn(script[0]) then 0 else 1 + FirstEnd(script[1..])
  }

  /** The bytes of the reads, one after the other. */
  function Joined(steps: seq<ReadStep>): bytes {
    if steps == [] then []
    else
      var last := steps[|steps| - 1];
      Joined(steps[..|steps| - 1]) + if last.Data? then last.b else []
  }

  /** What the reads of one batch bring. */
  function Arrived(script: seq<ReadStep>): bytes {
    Joined(script[..FirstEnd(script)])
  }

  /** Why the batch ends: nothing more to read, the end of the file, or an error. */
  function EndOf(script: seq<ReadStep>): ReadEnd {
    var n := FirstEnd(script);
    if n == |script| || script[n] == WouldBlock then Drained
    else if script[n] == Data([]) then Eof
    else Failed
  }

  lemma {:induction false} JoinedFront(s: ReadStep, steps: seq<ReadStep>)
    ensures Joined([s] + steps) == (if s.Data? then s.b else []) + Joined(steps)
    decreases |steps|
  {
    var all := [s] + steps;
    if steps == [] {
      assert all[..0] == [] && Joined(all[..0]) == [];
    } else {
      assert all[..|all| - 1] == [s] + steps[..|steps| - 1];
      JoinedFront(s, steps[..|steps| - 1]);
    }
  }

  /**
   * The loop gathers the bytes of all reads before the one that ends it, in the order
   * they were read; interrupted reads are repeated and bring nothing.
   */
  lemma {:induction false} GatherIsArrived(script: seq<ReadStep>)
    ensures Gather(script) == Reads(Arrived(script), EndOf(script))
  {
    if script != [] && ReadsOn(script[0]) {
      var rest := script[1..];
      GatherIsArrived(rest);
      var n := FirstEnd(rest);
      assert script[..n + 1] == [script[0]] + rest[..n];
      JoinedFront(script[0], rest[..n]);
    }
  }

  datatype PollStep = Writable | HangUp | PollTimeout | PollInterrupted | PollFailed

  // One send() call; a full socket brings the clock reading and the poll() outcome.
  datatype WriteStep = Sent(n: int) | WriteInterrupted | Full(expired: bool, poll: PollStep) | WriteFailed

  type WriteScript = seq<WriteStep>

  datatype Written = Written(accepted: nat, ok: bool, rest: WriteScript)

  predicate GivesUp(s: WriteStep) {
    s.WriteFailed? || (s.Sent? && s.n <= 0) || (s.Full? && (s.expired || s.poll.HangUp? || s.poll.PollFailed?))
  }

  /** How much of `size` bytes the kernel takes; a script that runs out takes the rest. */
  function WriteOutcome(size: nat, script: WriteScript): (r: Written)
    ensures r.accepted <= size && (r.ok <==> r.accepted == size)
    decreases |script|
  {
    if size == 0 then Written(0, true, script)
    else if script == [] then Written(size, true, [])
    else if GivesUp(script[0]) then Written(0, false, script[1..])
    else if script[0].Sent? then
      var n := if script[0].n < size then script[0].n else size;
      var r := WriteOutcome(size - n, script[1..]);
      Written(n + r.accepted, r.ok, r.rest)
    else WriteOutcome(size, script[1..])
  }

  /** The send() loop goes round again: progress, a signal, or a full socket in time. */
  predicate WritesOn(s: WriteStep) {
    match s
    case Sent(n) => n > 0
    case WriteInterrupted => true
    case Full(expired, poll) => !expired && poll in {Writable, PollTimeout, PollInterrupted}
    case WriteFailed => false
  }

  predicate AllWriteOn(script: WriteScript) {
    forall k :: 0 <= k < |script| ==> WritesOn(script[k])
  }

  /** How many bytes the sends of these steps report. */
  function SentBytes(steps: WriteScript): nat {
    if steps == [] then 0
    else
      var last := steps[|steps| - 1];
      SentBytes(steps[..|steps| - 1]) + if last.Sent? && last.n > 0 then last.n else 0
  }

  /** The write of `size` bytes is given up at step `k`: it does not go on, and came too early. */
  predicate StopsAt(size: nat, script: WriteScript, k: nat) {
    k < |script| && !WritesOn(script[k]) && AllWriteOn(script[..k]) && SentBytes(script[..k]) < size
  }

  lemma {:induction false} SentFront(s: WriteStep, steps: WriteScript)
    ensures SentBytes([s] + steps) == (if s.Sent? && s.n > 0 then s.n else 0) + SentBytes(steps)
    decreases |steps|
  {
    var all := [s] + steps;
    if steps == [] {
      assert all[..0] == [] && SentBytes(all[..0]) == 0;
    } else {
      assert all[..|all| - 1] == [s] + steps[..|steps| - 1];
      SentFront(s, steps[..|steps| - 1]);
    }
  }

  lemma GoesOnOrGivesUp(s: WriteStep)
    ensures WritesOn(s) <==> !GivesUp(s)
  {
  }

  /** One step more in front. */
  lemma StopsLater(size: nat, script: WriteScript, k: nat)
    requires script != [] && WritesOn(script[0])
    ensures var took := if script[0].Sent? then script[0].n else 0;
            StopsAt(size, script, k + 1) <==> took < size && StopsAt(size - took, script[1..], k)
  {
    if k + 1 < |script| {
      var rest := script[1..];
      assert script[..k + 1] == [script[0]] + rest[..k];
      SentFront(script[0], rest[..k]);
      OnLater(script[0], rest[..k]);
    }
  }

  lemma OnLater(s: WriteStep, steps: WriteScript)
    requires WritesOn(s)
    ensures AllWriteOn([s] + steps) <==> AllWriteOn(steps)
  {
    var all := [s] + steps;
    assert forall j :: 0 <= j < |steps| ==> all[j + 1] == steps[j];
    if AllWriteOn(all) {
      forall j | 0 <= j < |steps|
        ensures WritesOn(steps[j])
      {
        assert WritesOn(all[j + 1]);
      }
    }
  }

  /** A write that is given up stops there, with everything reported until then accepted. */
  lemma {:induction false} WriteStops(size: nat, script: WriteScript, k: nat)
    requires StopsAt(size, script, k)
    ensures WriteOutcome(size, script) == Written(SentBytes(script[..k]), false, script[k + 1..])
    decreases k
  {
    GoesOnOrGivesUp(script[0]);
    if k > 0 {
      assert WritesOn(script[..k][0]);
      StopsLater(size, script, k - 1);
      var took := if script[0].Sent? then script[0].n else 0;
      WriteStops(size - took, script[1..], k - 1);
      assert script[..k] == [script[0]] + script[1..][..k - 1];
      SentFront(script[0], script[1..][..k - 1]);
    }
  }

  /** The steps a write needs: as many as report its size. */
  predicate EnoughAt(size: nat, script: WriteScript, k: nat) {
    && k <= |script| && AllWriteOn(script[..k]) && SentBytes(script[..k]) >= size
    && forall j :: 0 <= j < k ==> SentBytes(script[..j]) < size
  }

  /** A write whose steps go on until they report its size succeeds and leaves the rest. */
  lemma {:induction false} WriteCompletes(size: nat, script: WriteScript, k: nat)
    requires EnoughAt(size, script, k)
    ensures WriteOutcome(size, script) == Written(size, true, script[k..])
    decreases k
  {
    if k == 0 {
      assert script[..0] == [];
    } else {
      assert SentBytes(script[..0]) == 0;
      assert WritesOn(script[..k][0]);
      GoesOnOrGivesUp(script[0]);
      var rest, took := script[1..], if script[0].Sent? then script[0].n else 0;
      forall j | 0 <= j < k
        ensures SentBytes(script[..j + 1]) == took + SentBytes(rest[..j])
      {
        assert script[..j + 1] == [script[0]] + rest[..j];
        SentFront(script[0], rest[..j]);
      }
      if took < size {
        assert script[..k] == [script[0]] + rest[..k - 1];
        OnLater(script[0], rest[..k - 1]);
        WriteCompletes(size - took, rest, k - 1);
      } else {
        assert SentBytes(rest[..0]) == 0;
        assert k == 1;
      }
    }
  }

  /**
   * A write fails if and only if some step before `size` bytes were taken does not go on:
   * a failure, nothing sent, an expired clock, a hang-up or a failed poll.
   */
  lemma {:induction false} WriteFailsExactly(size: nat, script: WriteScript)
    ensures !WriteOutcome(size, script).ok <==> exists k: nat :: StopsAt(size, script, k)
    decreases |script|
  {
    if k: nat :| StopsAt(size, script, k) {
      WriteStops(size, script, k);
    }
    if !WriteOutcome(size, script).ok {
      GoesOnOrGivesUp(script[0]);
      if WritesOn(script[0]) {
        var took := if script[0].Sent? then script[0].n else 0;
        WriteFailsExactly(size - took, script[1..]);
        var k: nat :| StopsAt(size - took, script[1..], k);
        StopsLater(size, script, k);
      } else {
        assert script[..0] == [];
        assert StopsAt(size, script, 0);
      }
    }
  }

  /** Steps that all go on never fail a write, and what it leaves goes on too. */
  lemma {:induction false} AllOnSucceeds(size: nat, script: WriteScript)
    requires AllWriteOn(script)
    ensures WriteOutcome(size, script).ok && AllWriteOn(WriteOutcome(size, script).rest)
    decreases |script|
  {
    if size > 0 && script != [] {
      GoesOnOrGivesUp(script[0]);
      var took := if script[0].Sent? then script[0].n else 0;
      AllOnSucceeds(if took < size then size - took else 0, script[1..]);
    }
  }

  /** After a write that succeeds the next one starts behind the steps it needed. */
  lemma {:induction false} WriteLeaves(size: nat, script: WriteScript)
    requires WriteOutcome(size, script).ok
    ensures var rest := WriteOutcome(size, script).rest;
            rest == [] || exists u: nat :: EnoughAt(size, script, u) && rest == script[u..]
    decreases |script|
  {
    if size == 0 {
      assert script[..0] == [] && EnoughAt(0, script, 0) && script[0..] == script;
    } else if script != [] {
      GoesOnOrGivesUp(script[0]);
      var took := if script[0].Sent? then script[0].n else 0;
      var left := if took < size then size - took else 0;
      WriteLeaves(left, script[1..]);
      if u: nat :| EnoughAt(left, script[1..], u) && WriteOutcome(size, script).rest == script[1..][u..] {
        EnoughLater(size, script, u);
        assert script[1..][u..] == script[u + 1..];
      }
    }
  }

  lemma EnoughLater(size: nat, script: WriteScript, u: nat)
    requires size > 0 && script != [] && WritesOn(script[0])
    requires var took := if script[0].Sent? then script[0].n else 0;
             EnoughAt(if took < size then size - took else 0, script[1..], u)
    ensures EnoughAt(size, script, u + 1)
  {
    var rest, took := script[1..], if script[0].Sent? then script[0].n else 0;
    assert SentBytes(script[..0]) == 0;
    assert script[..u + 1] == [script[0]] + rest[..u];
    OnLater(script[0], rest[..u]);
    forall j | 0 <= j <= u
      ensures SentBytes(script[..j + 1]) == took + SentBytes(rest[..j])
    {
      assert script[..j + 1] == [script[0]] + rest[..j];
      SentFront(script[0], rest[..j]);
    }
    forall j | 0 <= j < u + 1
      ensures SentBytes(script[..j]) < size
    {
      if j > 0 {
        assert SentBytes(script[..(j - 1) + 1]) == took + SentBytes(rest[..j - 1]);
      }
    }
  }

  // ---- The connection as a value -----------------------------------------------------------

  datatype Notice = Connected | Disconnected | Received(d: Delivery)

  type Fd = x: int | -1 <= x

  // `client` is the descriptor or -1; `wire` is what the kernel took on the latest
  // connection; `notices` are the callbacks made since start.
  datatype Conn = Conn(client: Fd, pending: bool, buffer: bytes, wire: bytes, notices: seq<Notice>)

  const FRESH := Conn(-1, false, [], [], [])

  function Close(c: Conn): Conn {
    c.(client := -1, pending := false, buffer := [], notices := c.notices + [Disconnected])
  }

  function CloseDeferred(c: Conn): Conn {
    c.(client := -1, pending := c.pending || c.client >= 0, buffer := [])
  }

  function AsNotices(ds: seq<Delivery>): (r: seq<Notice>)
    ensures |r| == |ds|
  {
    if ds == [] then [] else [Received(ds[0])] + AsNotices(ds[1..])
  }

  /** Does the handler, which closes on frame `closeAt` of the batch, get that far? */
  predicate HandlerCloses(p: Parse, closeAt: Option<nat>) {
    closeAt.Some? && closeAt.value < |p.frames|
  }

  /** The effect of one readable event on a held connection. */
  function AfterRead(c: Conn, script: seq<ReadStep>, closeAt: Option<nat>): Conn {
    if !EndOf(script).Drained? then Close(c)
    else
      var p := ParseStream(c.buffer + Arrived(script));
      if HandlerCloses(p, closeAt) then
        CloseDeferred(c.(notices := c.notices + AsNotices(p.frames[..closeAt.value + 1])))
      else
        var d := c.(buffer := p.rest, notices := c.notices + AsNotices(p.frames));
        if p.bad then Close(d) else d
  }

  /** readClient reports an error for a failed read or a bad header. */
  predicate ReadOk(c: Conn, script: seq<ReadStep>, closeAt: Option<nat>) {
    EndOf(script).Eof?
    || (EndOf(script).Drained?
        && var p := ParseStream(c.buffer + Arrived(script)); HandlerCloses(p, closeAt) || !p.bad)
  }

  /** Length of the frame encoding the socket takes: header first, then payload. */
  function FrameWritten(f: Outgoing, script: WriteScript): (r: Written)
    ensures r.accepted <= HEADER_SIZE + |f.payload|
    ensures r.ok <==> r.accepted == HEADER_SIZE + |f.payload|
  {
    var head := WriteOutcome(HEADER_SIZE, script);
    if !head.ok then head
    else
      var body := WriteOutcome(|f.payload|, head.rest);
      Written(HEADER_SIZE + body.accepted, body.ok, body.rest)
  }

  /** The effect of sending one frame. */
  function AfterSend(c: Conn, f: Outgoing, script: WriteScript): Conn
    requires Correlated(f)
  {
    if c.client < 0 then c
    else
      var w := FrameWritten(f, script);
      var d := c.(wire := c.wire + EncodeFrame(f)[..w.accepted]);
      if w.ok then d else CloseDeferred(d)
  }

  predicate SendOk(c: Conn, f: Outgoing, script: WriteScript) {
    c.client >= 0 && FrameWritten(f, script).ok
  }

  /** A send whose steps all go on puts the whole frame on the wire and keeps the client. */
  lemma SendSucceeds(c: Conn, f: Outgoing, script: WriteScript)
    requires c.client >= 0 && Correlated(f) && AllWriteOn(script)
    ensures SendOk(c, f, script)
    ensures AfterSend(c, f, script) == c.(wire := c.wire + EncodeFrame(f))
  {
    AllOnSucceeds(HEADER_SIZE, script);
    AllOnSucceeds(|f.payload|, WriteOutcome(HEADER_SIZE, script).rest);
    hide WriteOutcome, EncodeHeader;
    var e := EncodeFrame(f);
    assert e[..|e|] == e;
  }

  /**
   * A send on a held connection fails if and only if the header is given up, or the
   * payload is, by the steps that come after those the header needed.
   */
  lemma SendFailsExactly(c: Conn, f: Outgoing, script: WriteScript)
    requires c.client >= 0
    ensures !SendOk(c, f, script) <==>
              || (exists k: nat :: StopsAt(HEADER_SIZE, script, k))
              || (exists u: nat, k: nat :: EnoughAt(HEADER_SIZE, script, u) && StopsAt(|f.payload|, script[u..], k))
  {
    hide WriteOutcome, StopsAt, AllWriteOn, SentBytes;
    var head := WriteOutcome(HEADER_SIZE, script);
    WriteFailsExactly(HEADER_SIZE, script);
    WriteFailsExactly(|f.payload|, head.rest);
    if u: nat, k: nat :| EnoughAt(HEADER_SIZE, script, u) && StopsAt(|f.payload|, script[u..], k) {
      WriteCompletes(HEADER_SIZE, script, u);
    }
    if head.ok {
      WriteLeaves(HEADER_SIZE, script);
      NothingStops(|f.payload|);
    }
  }

  lemma NothingStops(size: nat)
    ensures forall k: nat :: !StopsAt(size, [], k)
  {
  }

  // ---- Polling ---------------------------------------------------------------------------------

  // `Accepted` names the descriptor of the new connection; registering it can fail.
  datatype Accept = NoneWaiting | AcceptFailed | SetupFailed | Accepted(fd: nat, registered: bool)

  datatype PollEvent =
    | Wake
    | Server(accept: Accept)
    | Client(fd: nat, hangup: bool, readable: bool, script: seq<ReadStep>, closeAt: Option<nat>)

  function AfterAccept(c: Conn, a: Accept): Conn {
    match a
    case Accepted(fd, registered) =>
      var d := if c.client >= 0 then Close(c) else c;
      if registered then d.(client := fd, buffer := [], wire := [], notices := d.notices + [Connected])
      else d.(client := -1)
    case _ => c
  }

  predicate AcceptOk(a: Accept) {
    a.NoneWaiting? || (a.Accepted? && a.registered)
  }

  function AfterEvent(c: Conn, e: PollEvent): Conn {
    match e
    case Wake => c
    case Server(a) => AfterAccept(c, a)
    case Client(fd, hangup, readable, script, closeAt) =>
      if fd != c.client then c
      else if hangup then Close(c)
      else if readable then AfterRead(c, script, closeAt)
      else c
  }

  predicate EventOk(c: Conn, e: PollEvent) {
    match e
    case Wake => true
    case Server(a) => AcceptOk(a)
    case Client(fd, hangup, readable, script, closeAt) =>
      fd != c.client || hangup || !readable || ReadOk(c, script, closeAt)
  }

  /** Events are handled in order until one reports an error. */
  function AfterEvents(c: Conn, events: seq<PollEvent>): Conn
    decreases |events|
  {
    if events == [] then c
    else
      var d := AfterEvent(c, events[0]);
      if EventOk(c, events[0]) then AfterEvents(d, events[1..]) else d
  }

  predicate EventsOk(c: Conn, events: seq<PollEvent>)
    decreases |events|
  {
    events == [] || (EventOk(c, events[0]) && EventsOk(AfterEvent(c, events[0]), events[1..]))
  }

  // What the wait for events returns.
  datatype Wait = Ready(events: seq<PollEvent>) | WaitInterrupted | WaitFailed

  /** A disconnect notice left by a failed send is delivered first. */
  function AfterNotify(c: Conn): Conn {
    if c.pending then c.(pending := false, notices := c.notices + [Disconnected]) else c
  }

  function AfterPoll(c: Conn, wait: Wait): Conn {
    var d := AfterNotify(c);
    if wait.Ready? then AfterEvents(d, wait.events) else d
  }

  predicate PollOk(c: Conn, wait: Wait) {
    match wait
    case Ready(events) => EventsOk(AfterNotify(c), events)
    case WaitInterrupted => true
    case WaitFailed => false
  }

  /** What the two writes of a frame put on the wire, step by step. */
  lemma SendParts(f: Outgoing, script: WriteScript, wire: bytes)
    requires Correlated(f)
    ensures var header := EncodeHeader(WireHeader(f));
            var head, w := WriteOutcome(HEADER_SIZE, script), FrameWritten(f, script);
            var body := WriteOutcome(|f.payload|, head.rest);
            && |header| == HEADER_SIZE && (head.ok ==> header[..head.accepted] == header)
            && w.ok == (head.ok && body.ok) && (head.ok && f.payload == [] ==> body.ok)
            && wire + EncodeFrame(f)[..w.accepted]
               == wire + header[..head.accepted] + (if head.ok then f.payload[..body.accepted] else [])
            && (head.ok && f.payload == [] ==> f.payload[..body.accepted] == [])
            && wire + header[..head.accepted] + [] == wire + header[..head.accepted]
  {
    hide WriteOutcome, EncodeHeader, WireHeader;
    var header := EncodeHeader(WireHeader(f));
    var head, w := WriteOutcome(HEADER_SIZE, script), FrameWritten(f, script);
    var e := EncodeFrame(f);
    if head.ok {
      var part := f.payload[..WriteOutcome(|f.payload|, head.rest).accepted];
      assert header[..head.accepted] == header;
      assert e[..w.accepted] == header + part;
      assert wire + (header + part) == wire + header + part;
    } else {
      assert e[..w.accepted] == header[..head.accepted];
    }
    EmptyWrite(head.rest);
  }

  lemma EmptyWrite(script: WriteScript)
    ensures WriteOutcome(0, script).ok
  {
  }

  // ---- The server ------------------------------------------------------------------------------

  class UdsEpollServer {
    var started: bool
    var clientFd: Fd
    var notifyDisconnect: bool
    var rxBuffer: bytes
    // Read cursor: frames are consumed by advancing it, and the buffer is compacted
    // once per read batch.
    var rxOffset: nat
    var wire: bytes
    var notices: seq<Notice>

    /** Between calls the cursor is at the front of the buffer. */
    predicate Valid()
      reads this
    {
      rxOffset == 0
    }

    ghost function View(): Conn
      reads this
    {
      Conn(clientFd, notifyDisconnect, rxBuffer, wire, notices)
    }

    constructor ()
      ensures Valid() && View() == FRESH && !started
    {
      started, clientFd, notifyDisconnect := false, -1, false;
      rxBuffer, rxOffset, wire, notices := [], 0, [], [];
    }

    method Stop()
      modifies this
      ensures Valid() && !started
      ensures View() == old(View()).(client := -1, pending := false, buffer := [])
    {
      clientFd := -1;
      started := false;
      notifyDisconnect := false;
      rxBuffer := [];
      rxOffset := 0;
    }

    /** A new session; `ready` is whether every setup call succeeded. */
    method Start(ready: bool) returns (ok: bool)
      modifies this
      ensures Valid() && ok == ready == started
      ensures View() == FRESH
    {
      Stop();
      started := ready;
      notices, wire := [], [];
      ok := ready;
    }

    method CloseClient()
      modifies this
      ensures Valid() && started == old(started)
      ensures View() == Close(old(View()))
    {
      if clientFd >= 0 {
        clientFd := -1;
      }
      notifyDisconnect := false;
      rxBuffer := [];
      rxOffset := 0;
      notices := notices + [Disconnected];
    }

    method CloseClientDeferred()
      modifies this
      ensures Valid() && started == old(started)
      ensures View() == CloseDeferred(old(View()))
    {
      if clientFd >= 0 {
        clientFd := -1;
        notifyDisconnect := true;
      }
      rxBuffer := [];
      rxOffset := 0;
    }

    /** Reads until the socket would block or the connection ends. */
    method FillBuffer(script: seq<ReadStep>) returns (end: ReadEnd)
      requires Valid()
      modifies this`rxBuffer
      ensures rxBuffer == old(rxBuffer) + Arrived(script) && end == EndOf(script)
    {
      GatherIsArrived(script);
      hide Arrived, EndOf;
      for i := 0 to |script|
        invariant rxBuffer + Gather(script[i..]).data == old(rxBuffer) + Gather(script).data
        invariant Gather(script[i..]).end == Gather(script).end
      {
        assert script[i..][1..] == script[i + 1..];
        match script[i]
        case Data(b) =>
          if b == [] {
            return Eof;
          }
          assert rxBuffer + (b + Gather(script[i + 1..]).data) == rxBuffer + b + Gather(script[i + 1..]).data;
          rxBuffer := rxBuffer + b;
        case ReadInterrupted =>
        case WouldBlock => return Drained;
        case ReadFailed => return Failed;
      }
      end := Drained;
    }

    /** Hands complete frames to the handler; stops at a bad header or when it closes. */
    method DispatchFrames(closeAt: Option<nat>) returns (closed: bool, bad: bool)
      requires Valid()
      modifies this
      ensures var c, p := old(View()), ParseStream(old(rxBuffer));
              && started == old(started)
              && closed == HandlerCloses(p, closeAt)
              && (closed ==>
                    && Valid() && !bad
                    && View() == CloseDeferred(c.(notices := c.notices + AsNotices(p.frames[..closeAt.value + 1]))))
              && (!closed ==>
                    && bad == p.bad && rxOffset <= |rxBuffer| && rxBuffer[rxOffset..] == p.rest
                    && View() == c.(notices := c.notices + AsNotices(p.frames)))
    {
      hide ParseStream, HeadOf, AsNotices;
      ghost var p := ParseStream(rxBuffer);
      var n: nat := 0;
      NothingDispatched(rxBuffer, p, notices);
      var head := ReadHead();
      while head.Whole?
        invariant started == old(started)
        invariant rxOffset <= |rxBuffer| && n <= |p.frames|
        invariant View() == old(View()).(notices := old(notices) + AsNotices(p.frames[..n]))
        invariant ParseStream(rxBuffer[rxOffset..]) == Parse(p.frames[n..], p.rest, p.bad)
        invariant closeAt.Some? ==> n <= closeAt.value
        invariant head == HeadOf(rxBuffer[rxOffset..])
        decreases |rxBuffer| - rxOffset
      {
        ghost var here := rxBuffer[rxOffset..];
        NextFrame(p, n, here);
        var frameSize := HEADER_SIZE + head.d.header.payloadSize;
        rxOffset := rxOffset + frameSize;
        assert here[frameSize..] == rxBuffer[rxOffset..];
        notices := notices + [Received(head.d)];
        if closeAt == Some(n) {
          CloseClientDeferred();
          return true, false;
        }
        n := n + 1;
        head := ReadHead();
      }
      NoNextFrame(rxBuffer[rxOffset..]);
      assert p.frames[..n] == p.frames;
      closed, bad := false, head.BadHead?;
    }

    /** Looks at the bytes under the cursor. */
    method ReadHead() returns (head: Head)
      requires rxOffset <= |rxBuffer|
      ensures head == HeadOf(rxBuffer[rxOffset..])
    {
      ghost var here := rxBuffer[rxOffset..];
      var available := |rxBuffer| - rxOffset;
      if available < HEADER_SIZE {
        return Short;
      }
      assert here[..HEADER_SIZE] == rxBuffer[rxOffset..rxOffset + HEADER_SIZE];
      var header := DecodeHeader(rxBuffer[rxOffset..rxOffset + HEADER_SIZE]);
      if !IsValid(header) {
        return BadHead;
      }
      var frameSize := HEADER_SIZE + header.payloadSize;
      if available < frameSize {
        return Short;
      }
      assert here[HEADER_SIZE..frameSize] == rxBuffer[rxOffset + HEADER_SIZE..rxOffset + frameSize];
      head := Whole(Delivery(header, rxBuffer[rxOffset + HEADER_SIZE..rxOffset + frameSize]));
    }

    /** One compaction per batch: drops what the cursor has passed. */
    method Compact()
      requires rxOffset <= |rxBuffer|
      modifies this`rxBuffer, this`rxOffset
      ensures Valid() && rxBuffer == old(rxBuffer[rxOffset..])
    {
      if rxOffset > 0 {
        if rxOffset >= |rxBuffer| {
          rxBuffer := [];
        } else {
          rxBuffer := rxBuffer[rxOffset..];
        }
        rxOffset := 0;
      }
    }

    method ReadClient(script: seq<ReadStep>, closeAt: Option<nat>) returns (ok: bool)
      requires Valid() && clientFd >= 0
      modifies this
      ensures Valid() && started == old(started)
      ensures View() == AfterRead(old(View()), script, closeAt)
      ensures ok == ReadOk(old(View()), script, closeAt)
    {
      hide ParseStream, Arrived, EndOf;
      var end := FillBuffer(script);
      if end != Drained {
        CloseClient();
        return end == Eof;
      }
      var closed, bad := DispatchFrames(closeAt);
      if closed {
        return true;
      }
      if bad {
        CloseClient();
        return false;
      }
      Compact();
      ok := true;
    }

    /** Writes from `data` until all of it is accepted or the socket gives up. */
    method WriteAll(data: bytes, script: WriteScript) returns (ok: bool, rest: WriteScript)
      modifies this`wire
      ensures var w := WriteOutcome(|data|, script);
              ok == w.ok && (ok ==> rest == w.rest) && wire == old(wire) + data[..w.accepted]
    {
      var written := 0;
      rest := script;
      assert data[..0] == [];
      while written < |data|
        invariant written <= |data| && wire == old(wire) + data[..written]
        invariant var w, v := WriteOutcome(|data|, script), WriteOutcome(|data| - written, rest);
                  w.ok == v.ok && w.rest == v.rest && w.accepted == written + v.accepted
        decreases |data| - written, |rest|
      {
        if rest == [] {
          wire := wire + data[written..];
          assert data[..written] + data[written..] == data;
          written := |data|;
          continue;
        }
        var step := rest[0];
        rest := rest[1..];
        match step
        case Sent(n) =>
          if n <= 0 {
            return false, rest;
          }
          var took := if n < |data| - written then n else |data| - written;
          wire := wire + data[written..written + took];
          assert data[..written] + data[written..written + took] == data[..written + took];
          written := written + took;
        case WriteInterrupted =>
        case Full(expired, poll) =>
          if expired || poll == HangUp || poll == PollFailed {
            return false, rest;
          }
        case WriteFailed => return false, rest;
      }
      ok := true;
    }

    method Send(f: Outgoing, script: WriteScript) returns (ok: bool)
      requires Valid() && Correlated(f)
      modifies this
      ensures Valid() && started == old(started)
      ensures View() == AfterSend(old(View()), f, script)
      ensures ok == SendOk(old(View()), f, script)
    {
      if clientFd < 0 {
        return false;
      }
      SendParts(f, script, old(wire));
      hide WriteOutcome, EncodeHeader, WireHeader, CloseDeferred, FrameWritten, EncodeFrame;
      var header := EncodeHeader(WireHeader(f));
      var rest;
      ok, rest := WriteAll(header, script);
      if !ok {
        CloseClientDeferred();
        return;
      }
      if f.payload != [] {
        ok, rest := WriteAll(f.payload, rest);
        if !ok {
          CloseClientDeferred();
        }
      }
    }

    method AcceptClient(accept: Accept) returns (ok: bool)
      requires Valid()
      modifies this
      ensures Valid() && started == old(started)
      ensures View() == AfterAccept(old(View()), accept)
      ensures ok == AcceptOk(accept)
    {
      match accept
      case NoneWaiting => return true;
      case Accepted(fd, registered) =>
        if clientFd >= 0 {
          CloseClient();
        }
        clientFd := fd;
        if !registered {
          clientFd := -1;
          return false;
        }
        rxBuffer := [];
        rxOffset := 0;
        wire := [];
        notices := notices + [Connected];
        ok := true;
      case _ => ok := false;
    }

    method PollOnce(wait: Wait) returns (ok: bool)
      requires Valid()
      modifies this
      ensures Valid() && started == old(started)
      ensures ok == (started && PollOk(old(View()), wait))
      ensures View() == if started then AfterPoll(old(View()), wait) else old(View())
    {
      if !started {
        return false;
      }
      if notifyDisconnect {
        notifyDisconnect := false;
        notices := notices + [Disconnected];
      }
      if !wait.Ready? {
        return wait.WaitInterrupted?;
      }
      var events := wait.events;
      for i := 0 to |events|
        invariant Valid() && started
        invariant AfterEvents(View(), events[i..]) == AfterPoll(old(View()), wait)
        invariant EventsOk(View(), events[i..]) == PollOk(old(View()), wait)
      {
        assert events[i..][1..] == events[i + 1..];
        ok := HandleEvent(events[i]);
        if !ok {
          return;
        }
      }
      ok := true;
    }

    method HandleEvent(e: PollEvent) returns (ok: bool)
      requires Valid()
      modifies this
      ensures Valid() && started == old(started)
      ensures View() == AfterEvent(old(View()), e) && ok == EventOk(old(View()), e)
    {
      ok := true;
      match e
      case Wake =>
      case Server(a) => ok := AcceptClient(a);
      case Client(fd, hangup, readable, script, closeAt) =>
        if fd == clientFd {
          if hangup {
            CloseClient();
          } else if readable {
            ok := ReadClient(script, closeAt);
          }
        }
    }
  }

  lemma {:induction false} AsNoticesAppend(a: seq<Delivery>, b: seq<Delivery>)
    ensures AsNotices(a + b) == AsNotices(a) + AsNotices(b)
  {
    if a == [] {
      assert a + b == b;
    } else {
      assert (a + b)[1..] == a[1..] + b;
      AsNoticesAppend(a[1..], b);
    }
  }

  // What the bytes under the cursor begin with.
  datatype Head = Short | BadHead | Whole(d: Delivery)

  function HeadOf(s: bytes): Head {
    if HeadIsBad(s) then BadHead else if HeadIsComplete(s) then Whole(HeadFrame(s)) else Short
  }

  lemma WholeHead(s: bytes) returns (size: nat)
    requires HeadOf(s).Whole?
    ensures size == HEADER_SIZE + HeadOf(s).d.header.payloadSize && 0 < size <= |s|
    ensures ParseStream(s) == Add(HeadOf(s).d, ParseStream(s[size..]))
  {
    hide ParseStream, HeadIsBad, HeadIsComplete, HeadFrame, FrameSize;
    ParseStep(s);
    size := FrameSize(s);
  }

  lemma NextFrame(p: Parse, n: nat, here: bytes)
    requires n <= |p.frames| && ParseStream(here) == Parse(p.frames[n..], p.rest, p.bad)
    requires HeadOf(here).Whole?
    ensures var d := HeadOf(here).d; var size := HEADER_SIZE + d.header.payloadSize;
            && n < |p.frames| && p.frames[n] == d && 0 < size <= |here|
            && ParseStream(here[size..]) == Parse(p.frames[n + 1..], p.rest, p.bad)
            && AsNotices(p.frames[..n + 1]) == AsNotices(p.frames[..n]) + [Received(d)]
  {
    hide *;
    var size := WholeHead(here);
    var d, q := HeadOf(here).d, ParseStream(here[size..]);
    OneMore(p, n, d, q);
  }

  lemma OneMore(p: Parse, n: nat, d: Delivery, q: Parse)
    requires n <= |p.frames| && Add(d, q) == Parse(p.frames[n..], p.rest, p.bad)
    ensures n < |p.frames| && p.frames[n] == d && q == Parse(p.frames[n + 1..], p.rest, p.bad)
    ensures AsNotices(p.frames[..n + 1]) == AsNotices(p.frames[..n]) + [Received(d)]
  {
    assert p.frames[n..][0] == d && p.frames[n..][1..] == q.frames;
    assert p.frames[n..][1..] == p.frames[n + 1..];
    assert p.frames[..n + 1] == p.frames[..n] + [d];
    AsNoticesAppend(p.frames[..n], [d]);
    assert AsNotices([d]) == [Received(d)];
  }

  lemma NothingDispatched(s: bytes, p: Parse, notices: seq<Notice>)
    ensures s[0..] == s && p.frames[0..] == p.frames
    ensures notices + AsNotices(p.frames[..0]) == notices
  {
  }

  lemma NoNextFrame(s: bytes)
    requires !HeadOf(s).Whole?
    ensures ParseStream(s) == Parse([], s, HeadOf(s).BadHead?)
  {
    ParseStep(s);
  }
}
