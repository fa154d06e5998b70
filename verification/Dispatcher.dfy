// The dispatcher: the send queue in front of the connection it is flushed to.

module Dispatcher {
  import opened Bytes
  import opened Frame
  import opened Transport
  import Channel
  import opened Outbox

  function KindByte(kind: MessageType): byte {
    match kind
    case Request => 3
    case Response => 4
    case Event => 5
  }

  function AsOutgoing(f: OutboundFrame): Outgoing {
    Outgoing(KindByte(f.kind), f.correlationId, f.payload)
  }

  function AsOutgoings(q: seq<OutboundFrame>): (r: seq<Outgoing>)
    ensures |r| == |q| && forall k :: 0 <= k < |q| ==> r[k] == AsOutgoing(q[k])
  {
    seq(|q|, k requires 0 <= k < |q| => AsOutgoing(q[k]))
  }

  /** What gets past the guards of the queue. */
  predicate AllQueueable(q: seq<OutboundFrame>) {
    forall k :: 0 <= k < |q| ==> Built(q[k]) && Acceptable(q[k])
  }

  lemma QueueableIsSendable(q: seq<OutboundFrame>)
    requires AllQueueable(q)
    ensures AllSendable(AsOutgoings(q))
  {
  }

  /** A flush of `size` frames of which the first `handed` were sent. */
  function FlushRun(size: nat, handed: nat): seq<Action>
    requires handed <= size
  {
    [Swap] + SentHeads(handed) + (if handed < size then [SendHead(false)] else [])
  }

  function SentHeads(n: nat): (r: seq<Action>)
    ensures |r| == n
  {
    seq(n, _ => SendHead(true))
  }

  lemma {:induction false} RunAppend(b: Box, x: seq<Action>, y: seq<Action>)
    ensures Run(b, x + y) == Run(Run(b, x), y)
    decreases |x|
  {
    if x == [] {
      assert x + y == y;
    } else {
      assert (x + y)[1..] == x[1..] + y;
      RunAppend(Step(b, x[0]), x[1..], y);
    }
  }

  lemma RunOne(b: Box, a: Action)
    ensures Run(b, [a]) == Step(b, a)
  {
    assert Run(Step(b, a), []) == Step(b, a);
  }

  lemma RunMore(b: Box, x: seq<Action>, a: Action)
    ensures Run(b, x + [a]) == Step(Run(b, x), a)
  {
    RunAppend(b, x, [a]);
    RunOne(Run(b, x), a);
  }

  lemma {:induction false} HeadsSent(b: Box, n: nat)
    requires n <= |b.flight|
    ensures Run(b, SentHeads(n)) == b.(flight := b.flight[n..], sent := b.sent + b.flight[..n])
    decreases n
  {
    if n == 0 {
      assert b.sent + b.flight[..0] == b.sent && SentHeads(0) == [];
    } else {
      HeadsSent(b, n - 1);
      RunMore(b, SentHeads(n - 1), SendHead(true));
      assert SentHeads(n) == SentHeads(n - 1) + [SendHead(true)];
      assert b.flight[..n] == b.flight[..n - 1] + [b.flight[n - 1]];
      assert b.sent + b.flight[..n - 1] + [b.flight[n - 1]] == b.sent + b.flight[..n];
    }
  }

  /**
   * A flush takes the whole queue: the frames handed over are sent, in order; the next
   * one failed, and those behind it are lost and counted as dropped.
   */
  lemma FlushOutcome(b: Box, handed: nat)
    requires b.flight == [] && handed <= |b.queue|
    ensures var q, d := b.queue, Run(b, FlushRun(|b.queue|, handed));
            && d.queue == [] && d.flight == [] && d.sent == b.sent + q[..handed]
            && (if handed == |q| then d.failed == b.failed && d.lost == b.lost && d.dropped == b.dropped
                else d.failed == b.failed + [q[handed]] && d.lost == b.lost + q[handed + 1..]
                     && d.dropped == b.dropped + (|q| - handed - 1))
  {
    hide Run, SentHeads;
    var c := Step(b, Swap);
    SwapTakes(b);
    RunOne(b, Swap);
    RunAppend(b, [Swap], SentHeads(handed));
    HeadsSent(c, handed);
    var e := Run(c, SentHeads(handed));
    if handed < |b.queue| {
      RunAppend(b, [Swap] + SentHeads(handed), [SendHead(false)]);
      RunOne(e, SendHead(false));
    } else {
      assert [Swap] + SentHeads(handed) + [] == [Swap] + SentHeads(handed);
    }
  }

  class SidecarDispatcher {
    var started: bool
    var sendQueue: seq<OutboundFrame>
    var droppedOutboundFrames: nat
    const runtime: UdsEpollServer
    // What happened to every frame so far.
    ghost var box: Box

    ghost predicate Valid()
      reads this, runtime
    {
      && runtime.Valid()
      && AllQueueable(sendQueue)
      && Inv(box) && box.flight == [] && box.queue == sendQueue && box.dropped == droppedOutboundFrames
    }

    constructor ()
      ensures Valid() && box == EMPTY && !started && fresh(runtime)
    {
      started, sendQueue, droppedOutboundFrames, box := false, [], 0, EMPTY;
      runtime := new UdsEpollServer();
      new;
      EmptyInv();
    }

    method Start(ready: bool) returns (ok: bool)
      requires Valid()
      modifies this`started, runtime
      ensures Valid() && ok == ready && started == (old(started) || ready)
      ensures runtime.View() == FRESH && runtime.started == ready
    {
      ok := runtime.Start(ready);
      if ok {
        started := true;
      }
    }

    method Stop()
      requires Valid()
      modifies this, runtime
      ensures Valid() && !started && !runtime.started && runtime.clientFd == -1
      ensures box == Step(old(box), ClearByStop) && sendQueue == []
    {
      hide Inv;
      started := false;
      StepKeeps(box, ClearByStop);
      box := Step(box, ClearByStop);
      sendQueue := [];
      runtime.Stop();
    }

    /** One submission: the guards, then the shed policy under the queue lock. */
    method QueueOutboundFrame(frame: OutboundFrame) returns (ok: bool)
      requires Valid() && Built(frame)
      modifies this`sendQueue, this`droppedOutboundFrames, this`box
      ensures Valid()
      ensures box == Step(old(box), Submit(frame, started))
      ensures ok == (started && Acceptable(frame) && Admit(old(sendQueue), frame).Queued?)
    {
      hide Inv, Built;
      StepKeeps(box, Submit(frame, started));
      SubmitQueueable(box, frame, started);
      hide AllQueueable;
      if !started || |frame.payload| == 0 || |frame.payload| > MAX_PAYLOAD {
        return false;
      }
      box := Step(box, Submit(frame, started));
      ok := true;
      if |sendQueue| >= QUEUE_MAX_DEPTH {
        var shed := FindLog();
        if shed == |sendQueue| {
          shed := FindEvent();
        }
        if shed < |sendQueue| {
          sendQueue := sendQueue[..shed] + sendQueue[shed + 1..];
          droppedOutboundFrames := droppedOutboundFrames + 1;
        } else if frame.kind.Event? {
          droppedOutboundFrames := droppedOutboundFrames + 1;
          return false;
        }
      }
      sendQueue := sendQueue + [frame];
      assert sendQueue == box.queue;
    }

    method FindLog() returns (i: nat)
      ensures i == FirstLog(sendQueue)
    {
      i := 0;
      while i < |sendQueue| && !sendQueue[i].isLog
        invariant i <= |sendQueue| && forall k :: 0 <= k < i ==> !sendQueue[k].isLog
      {
        i := i + 1;
      }
    }

    method FindEvent() returns (i: nat)
      ensures i == FirstEvent(sendQueue)
    {
      i := 0;
      while i < |sendQueue| && !sendQueue[i].kind.Event?
        invariant i <= |sendQueue| && forall k :: 0 <= k < i ==> !sendQueue[k].kind.Event?
      {
        i := i + 1;
      }
    }

    /**
     * Sends everything queued, in order, until the connection is gone. The first
     * `handed` frames were written whole; `torn` is what the failed one left behind.
     */
    method FlushSendQueue(scripts: seq<WriteScript>) returns (handed: nat, ghost torn: bytes)
      requires Valid() && |scripts| == |sendQueue|
      modifies this`sendQueue, this`droppedOutboundFrames, this`box, runtime
      ensures Valid() && sendQueue == [] && handed <= old(|sendQueue|)
      ensures box == Run(old(box), FlushRun(old(|sendQueue|), handed))
      ensures runtime.started == old(runtime.started) && runtime.notices == old(runtime.notices)
      ensures var frames := AsOutgoings(old(sendQueue));
              && AllSendable(frames)
              && runtime.wire == old(runtime.wire) + EncodeFrames(frames[..handed]) + torn
              && (if handed == |frames| then torn == [] && runtime.View() == old(runtime.View()).(wire := runtime.wire)
                  else torn < EncodeFrame(frames[handed]) && runtime.clientFd == -1)
    {
      hide Inv, Built, EncodeFrame, EncodeFrames, FrameWritten, Run, Step;
      handed, torn := 0, [];
      var localQueue := sendQueue;
      ghost var frames := AsOutgoings(localQueue);
      QueueableIsSendable(localQueue);
      Channel.NothingSent(frames);
      assert runtime.wire + EncodeFrames(frames[..0]) + torn == runtime.wire;
      StepKeeps(box, Swap);
      SwapTakes(box);
      RunOne(box, Swap);
      ghost var before, conn := box, runtime.View();
      box := Step(box, Swap);
      assert [Swap] + SentHeads(0) == [Swap];
      sendQueue := [];
      while handed < |localQueue|
        invariant handed <= |localQueue| && sendQueue == [] && runtime.Valid() && Inv(box)
        invariant box == Run(before, [Swap] + SentHeads(handed))
        invariant box.queue == [] && box.flight == localQueue[handed..] && box.dropped == droppedOutboundFrames
        invariant runtime.started == old(runtime.started) && torn == []
        invariant runtime.View() == conn.(wire := conn.wire + EncodeFrames(frames[..handed]))
      {
        var frame := localQueue[handed];
        ghost var c := runtime.View();
        var ok := runtime.Send(AsOutgoing(frame), scripts[handed]);
        assert AsOutgoing(frame) == frames[handed];
        StepKeeps(box, SendHead(ok));
        HeadMoves(box, ok);
        RunMore(before, [Swap] + SentHeads(handed), SendHead(ok));
        box := Step(box, SendHead(ok));
        if ok {
          SentWhole(c, frames, handed, scripts[handed], conn.wire);
          assert [Swap] + SentHeads(handed) + [SendHead(true)] == [Swap] + SentHeads(handed + 1);
          handed := handed + 1;
        } else {
          ghost var part := SentPart(c, frames[handed], scripts[handed]);
          var clientGone := runtime.clientFd < 0;
          if clientGone {
            torn := part;
            droppedOutboundFrames := droppedOutboundFrames + (|localQueue| - handed - 1);
            return;
          }
        }
      }
      assert runtime.wire + torn == runtime.wire;
      assert FlushRun(|localQueue|, handed) == [Swap] + SentHeads(handed);
    }
  }

  lemma SubmitQueueable(b: Box, f: OutboundFrame, started: bool)
    requires AllQueueable(b.queue) && Built(f)
    ensures AllQueueable(Step(b, Submit(f, started)).queue)
  {
    hide Built, ShedIndex;
  }

  lemma SwapTakes(b: Box)
    requires b.flight == []
    ensures var d := Step(b, Swap); d.queue == [] && d.flight == b.queue && d.dropped == b.dropped
  {
  }

  lemma HeadMoves(b: Box, ok: bool)
    requires b.flight != []
    ensures var d := Step(b, SendHead(ok));
            && d.queue == b.queue
            && d.flight == (if ok then b.flight[1..] else [])
            && d.dropped == b.dropped + (if ok then 0 else |b.flight| - 1)
  {
  }

  lemma SentWhole(c: Conn, frames: seq<Outgoing>, n: nat, script: WriteScript, wire: bytes)
    requires AllSendable(frames) && n < |frames| && SendOk(c, frames[n], script)
    requires c.wire == wire + EncodeFrames(frames[..n])
    ensures AfterSend(c, frames[n], script) == c.(wire := wire + EncodeFrames(frames[..n + 1]))
  {
    hide EncodeFrame, EncodeFrames, AfterSend, SendOk;
    EncodeSnoc(frames, n);
    SentOne(c, frames[n], script);
    Associate(wire, EncodeFrames(frames[..n]), EncodeFrame(frames[n]));
  }

  lemma Associate(a: bytes, b: bytes, c: bytes)
    ensures a + b + c == a + (b + c)
  {
  }

  lemma SentOne(c: Conn, f: Outgoing, script: WriteScript)
    requires Sendable(f) && SendOk(c, f, script)
    ensures AfterSend(c, f, script) == c.(wire := c.wire + EncodeFrame(f))
  {
    Channel.EncodedSize(f);
    hide EncodeFrame, FrameWritten;
    var e := EncodeFrame(f);
    assert e[..FrameWritten(f, script).accepted] == e;
  }

  lemma {:induction false} EncodeSnoc(frames: seq<Outgoing>, n: nat)
    requires AllSendable(frames) && n < |frames|
    ensures EncodeFrames(frames[..n + 1]) == EncodeFrames(frames[..n]) + EncodeFrame(frames[n])
  {
    hide EncodeFrame;
    if n == 0 {
      Channel.NothingSent(frames);
      Channel.EncodeFramesHead(frames[..1]);
      Channel.NothingSent(frames[..1][1..]);
      assert frames[..1][1..][..0] == frames[..1][1..];
    } else {
      Channel.EncodeFramesStep(frames, n);
      Channel.EncodeFramesStep(frames, n - 1);
      EncodeSnoc(frames[1..], n - 1);
      var e := EncodeFrame(frames[0]);
      assert e + EncodeFrames(frames[1..][..n - 1]) + EncodeFrame(frames[n])
          == e + (EncodeFrames(frames[1..][..n - 1]) + EncodeFrame(frames[n]));
    }
  }

  /** A failed send leaves part of one frame, and no client. */
  lemma SentPart(c: Conn, f: Outgoing, script: WriteScript) returns (torn: bytes)
    requires Sendable(f) && !SendOk(c, f, script)
    ensures torn < EncodeFrame(f)
    ensures var d := AfterSend(c, f, script); d.wire == c.wire + torn && d.client < 0 && d.notices == c.notices
  {
    Channel.EncodedSize(f);
    hide EncodeFrame, FrameWritten;
    torn := if c.client < 0 then [] else EncodeFrame(f)[..FrameWritten(f, script).accepted];
    assert c.wire + [] == c.wire;
  }
}
