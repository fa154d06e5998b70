// The wire frame: a packed 20-byte little-endian header and a bounded payload,
// and the parse of a byte stream into frames.

module Frame {
  import opened Bytes

  const MAGIC: bytes := [0x50, 0x48, 0x49, 0x41]
  const PROTOCOL_VERSION := 1
  const HEADER_SIZE := 20
  const MAX_PAYLOAD := 2 * 1024 * 1024

  datatype MessageType = Request | Response | Event

  datatype Header = Header(magic: bytes, version: nat, kind: byte, flags: byte, payloadSize: nat, correlationId: nat)

  /** Field widths of the packed record. */
  predicate Packed(h: Header) {
    |h.magic| == 4 && h.version < Bound(2) && h.payloadSize < Bound(4) && h.correlationId < Bound(8)
  }

  predicate IsValid(h: Header) {
    h.magic == MAGIC && h.version == PROTOCOL_VERSION && h.payloadSize <= MAX_PAYLOAD
  }

  // ---- Little-endian integers ------------------------------------------------------

  function Bound(width: nat): nat {
    if width == 0 then 1 else 256 * Bound(width - 1)
  }

  function ToLe(n: nat, width: nat): (r: bytes)
    ensures |r| == width
  {
    if width == 0 then [] else [n % 256] + ToLe(n / 256, width - 1)
  }

  function FromLe(s: bytes): nat {
    if s == [] then 0 else s[0] + 256 * FromLe(s[1..])
  }

  lemma {:induction false} LeRoundTrip(n: nat, width: nat)
    requires n < Bound(width)
    ensures FromLe(ToLe(n, width)) == n
  {
    if width > 0 {
      LeRoundTrip(n / 256, width - 1);
      assert ToLe(n, width)[1..] == ToLe(n / 256, width - 1);
    }
  }

  lemma {:induction false} LeInverse(s: bytes)
    ensures FromLe(s) < Bound(|s|) && ToLe(FromLe(s), |s|) == s
  {
    if s != [] {
      LeInverse(s[1..]);
      assert s == [s[0]] + s[1..];
      assert FromLe(s) / 256 == FromLe(s[1..]);
    }
  }

  // ---- Headers -----------------------------------------------------------------------

  function EncodeHeader(h: Header): (r: bytes)
    requires Packed(h)
    ensures |r| == HEADER_SIZE
  {
    h.magic + ToLe(h.version, 2) + [h.kind, h.flags] + ToLe(h.payloadSize, 4) + ToLe(h.correlationId, 8)
  }

  function DecodeHeader(s: bytes): Header
    requires |s| == HEADER_SIZE
  {
    Header(s[..4], FromLe(s[4..6]), s[6], s[7], FromLe(s[8..12]), FromLe(s[12..20]))
  }

  /** The packed record and its 20 bytes determine each other. */
  lemma HeaderRoundTrip(h: Header)
    requires Packed(h)
    ensures DecodeHeader(EncodeHeader(h)) == h
  {
    var s := EncodeHeader(h);
    assert s[4..6] == ToLe(h.version, 2) && s[8..12] == ToLe(h.payloadSize, 4);
    assert s[12..20] == ToLe(h.correlationId, 8) && s[..4] == h.magic;
    LeRoundTrip(h.version, 2);
    LeRoundTrip(h.payloadSize, 4);
    LeRoundTrip(h.correlationId, 8);
  }

  lemma HeaderInverse(s: bytes)
    requires |s| == HEADER_SIZE
    ensures Packed(DecodeHeader(s)) && EncodeHeader(DecodeHeader(s)) == s
  {
    LeInverse(s[4..6]);
    LeInverse(s[8..12]);
    LeInverse(s[12..20]);
  }

  lemma WidthBounds()
    ensures Bound(2) == 0x1_0000 && Bound(4) == 0x1_0000_0000 && Bound(8) == 0x1_0000_0000_0000_0000
  {
    assert Bound(4) == 256 * 256 * Bound(2);
    assert Bound(6) == 256 * 256 * Bound(4);
    assert Bound(8) == 256 * 256 * Bound(6);
  }

  // ---- Frames ------------------------------------------------------------------------

  // What a sender hands over, and what a receiver's handler is given.
  datatype Outgoing = Outgoing(kind: byte, correlationId: nat, payload: bytes)
  datatype Delivery = Delivery(header: Header, payload: bytes)

  predicate Correlated(f: Outgoing) {
    f.correlationId < Bound(8)
  }

  predicate Sendable(f: Outgoing) {
    Correlated(f) && |f.payload| <= MAX_PAYLOAD
  }

  /** The header as sent: the size field keeps the low 32 bits of the payload size. */
  function WireHeader(f: Outgoing): (h: Header)
    requires Correlated(f)
    ensures Packed(h)
  {
    WidthBounds();
    Header(MAGIC, PROTOCOL_VERSION, f.kind, 0, |f.payload| % 0x1_0000_0000, f.correlationId)
  }

  function EncodeFrame(f: Outgoing): bytes
    requires Correlated(f)
  {
    EncodeHeader(WireHeader(f)) + f.payload
  }

  function Deliver(f: Outgoing): Delivery
    requires Correlated(f)
  {
    Delivery(WireHeader(f), f.payload)
  }

  predicate AllSendable(fs: seq<Outgoing>) {
    forall k :: 0 <= k < |fs| ==> Sendable(fs[k])
  }

  function EncodeFrames(fs: seq<Outgoing>): bytes
    requires AllSendable(fs)
  {
    if fs == [] then [] else EncodeFrame(fs[0]) + EncodeFrames(fs[1..])
  }

  function Deliveries(fs: seq<Outgoing>): (r: seq<Delivery>)
    requires AllSendable(fs)
    ensures |r| == |fs|
  {
    if fs == [] then [] else [Deliver(fs[0])] + Deliveries(fs[1..])
  }

  // ---- Parsing a stream, one frame off the front at a time -------------------------------

  datatype Parse = Parse(frames: seq<Delivery>, rest: bytes, bad: bool)

  /** Size of the frame at the head, or none while its header is incomplete or bad. */
  function FrameSize(s: bytes): nat
    requires |s| >= HEADER_SIZE
  {
    HEADER_SIZE + DecodeHeader(s[..HEADER_SIZE]).payloadSize
  }

  predicate HeadIsBad(s: bytes) {
    |s| >= HEADER_SIZE && !IsValid(DecodeHeader(s[..HEADER_SIZE]))
  }

  predicate HeadIsComplete(s: bytes) {
    |s| >= HEADER_SIZE && IsValid(DecodeHeader(s[..HEADER_SIZE])) && |s| >= FrameSize(s)
  }

  function HeadFrame(s: bytes): (d: Delivery)
    requires HeadIsComplete(s)
    ensures HEADER_SIZE + d.header.payloadSize == FrameSize(s) <= |s|
  {
    Delivery(DecodeHeader(s[..HEADER_SIZE]), s[HEADER_SIZE..FrameSize(s)])
  }

  function Add(d: Delivery, p: Parse): Parse {
    Parse([d] + p.frames, p.rest, p.bad)
  }

  function ParseStream(s: bytes): Parse {
    if HeadIsBad(s) then Parse([], s, true)
    else if HeadIsComplete(s) then Add(HeadFrame(s), ParseStream(s[FrameSize(s)..]))
    else Parse([], s, false)
  }

  lemma {:induction false} LeftoverIsShort(s: bytes)
    ensures !ParseStream(s).bad ==> |ParseStream(s).rest| < HEADER_SIZE + MAX_PAYLOAD
    ensures !ParseStream(s).bad ==> ParseStream(ParseStream(s).rest) == Parse([], ParseStream(s).rest, false)
  {
    if HeadIsComplete(s) {
      LeftoverIsShort(s[FrameSize(s)..]);
    }
  }

  lemma HeadAppend(a: bytes, b: bytes)
    ensures HeadIsBad(a) ==> HeadIsBad(a + b)
    ensures HeadIsComplete(a) ==>
              && HeadIsComplete(a + b) && FrameSize(a + b) == FrameSize(a) && HeadFrame(a + b) == HeadFrame(a)
              && (a + b)[FrameSize(a)..] == a[FrameSize(a)..] + b
  {
    if |a| >= HEADER_SIZE {
      assert (a + b)[..HEADER_SIZE] == a[..HEADER_SIZE];
      if HeadIsComplete(a) {
        assert (a + b)[HEADER_SIZE..FrameSize(a)] == a[HEADER_SIZE..FrameSize(a)];
      }
    }
  }

  /** Parsing in two pieces: what is left of the first piece is parsed with the second. */
  lemma {:induction false} ParseAppend(a: bytes, b: bytes)
    ensures var p := ParseStream(a);
            if p.bad then ParseStream(a + b).bad && ParseStream(a + b).frames == p.frames
            else ParseStream(a + b) ==
                 var q := ParseStream(p.rest + b); Parse(p.frames + q.frames, q.rest, q.bad)
    decreases |a|
  {
    HeadAppend(a, b);
    ParseStep(a);
    ParseStep(a + b);
    hide ParseStream, HeadIsComplete, HeadIsBad, HeadFrame, FrameSize;
    if HeadIsComplete(a) {
      var tail := a[FrameSize(a)..];
      ParseAppend(tail, b);
      var p, q := ParseStream(tail), ParseStream(ParseStream(tail).rest + b);
      assert [HeadFrame(a)] + (p.frames + q.frames) == [HeadFrame(a)] + p.frames + q.frames;
    } else if !HeadIsBad(a) {
      var q := ParseStream(a + b);
      assert [] + q.frames == q.frames;
    }
  }

  lemma ParseStep(s: bytes)
    ensures HeadIsBad(s) ==> !HeadIsComplete(s)
    ensures HeadIsComplete(s) ==> |s| >= HEADER_SIZE && HEADER_SIZE <= FrameSize(s) <= |s|
    ensures HeadIsComplete(s) ==> ParseStream(s) == Add(HeadFrame(s), ParseStream(s[FrameSize(s)..]))
    ensures !HeadIsComplete(s) ==> ParseStream(s) == Parse([], s, HeadIsBad(s))
  {
  }

  lemma ParseOneFrame(f: Outgoing, rest: bytes)
    requires Sendable(f)
    ensures ParseStream(EncodeFrame(f) + rest) == Add(Deliver(f), ParseStream(rest))
  {
    var s := EncodeFrame(f) + rest;
    var h := WireHeader(f);
    HeaderRoundTrip(h);
    assert s[..HEADER_SIZE] == EncodeHeader(h);
    assert FrameSize(s) == HEADER_SIZE + |f.payload|;
    assert s[HEADER_SIZE..FrameSize(s)] == f.payload;
    assert s[FrameSize(s)..] == rest;
  }

  /** A frame that is not complete yields nothing and is not an error. */
  lemma TornFrame(f: Outgoing, w: bytes)
    requires Sendable(f) && w < EncodeFrame(f)
    ensures ParseStream(w) == Parse([], w, false)
  {
    if |w| >= HEADER_SIZE {
      HeaderRoundTrip(WireHeader(f));
      assert w[..HEADER_SIZE] == EncodeFrame(f)[..HEADER_SIZE] == EncodeHeader(WireHeader(f));
    }
  }

  lemma {:induction false} ParseFrames(fs: seq<Outgoing>, rest: bytes)
    requires AllSendable(fs)
    ensures var q := ParseStream(rest);
            ParseStream(EncodeFrames(fs) + rest) == Parse(Deliveries(fs) + q.frames, q.rest, q.bad)
  {
    hide EncodeFrame, Deliver, HeadIsBad, HeadIsComplete, HeadFrame;
    var q := ParseStream(rest);
    if fs == [] {
      assert EncodeFrames(fs) + rest == rest && Deliveries(fs) + q.frames == q.frames;
    } else {
      assert EncodeFrames(fs) + rest == EncodeFrame(fs[0]) + (EncodeFrames(fs[1..]) + rest);
      ParseOneFrame(fs[0], EncodeFrames(fs[1..]) + rest);
      ParseFrames(fs[1..], rest);
      assert Deliveries(fs) + q.frames == [Deliver(fs[0])] + (Deliveries(fs[1..]) + q.frames);
    }
  }

  /** Any cut of an encoded stream parses to a prefix of its frames. */
  lemma {:induction false} ParsePrefix(fs: seq<Outgoing>, w: bytes)
    requires AllSendable(fs) && w <= EncodeFrames(fs)
    ensures !ParseStream(w).bad
    ensures ParseStream(w).frames <= Deliveries(fs)
  {
    if fs != [] {
      var e := EncodeFrame(fs[0]);
      if |w| < |e| {
        assert w < e;
        TornFrame(fs[0], w);
      } else {
        var tail := w[|e|..];
        assert w == e + tail && tail <= EncodeFrames(fs[1..]);
        ParseOneFrame(fs[0], tail);
        ParsePrefix(fs[1..], tail);
      }
    }
  }

  /** The size guard is exact: a frame survives the stream if and only if it passes. */
  lemma GuardIsExact(f: Outgoing)
    requires Correlated(f)
    ensures ParseStream(EncodeFrame(f)) == Parse([Deliver(f)], [], false) <==> |f.payload| <= MAX_PAYLOAD
  {
    var s := EncodeFrame(f);
    if |f.payload| <= MAX_PAYLOAD {
      ParseOneFrame(f, []);
      assert s + [] == s;
    } else {
      HeaderRoundTrip(WireHeader(f));
      assert s[..HEADER_SIZE] == EncodeHeader(WireHeader(f));
      if HeadIsComplete(s) {
        assert ParseStream(s).frames[0].payload == HeadFrame(s).payload;
        assert |HeadFrame(s).payload| < |f.payload|;
      }
    }
  }

  // ---- Byte by byte -------------------------------------------------------------------

  /** A 32-bit number at `i`, least significant byte first. */
  function At4(s: bytes, i: nat): nat
    requires i + 4 <= |s|
  {
    s[i] as nat + 0x100 * s[i + 1] as nat + 0x1_0000 * s[i + 2] as nat + 0x100_0000 * s[i + 3] as nat
  }

  lemma FourBytes(s: bytes, i: nat)
    requires i + 4 <= |s|
    ensures FromLe(s[i..i + 4]) == At4(s, i)
  {
    TwoBytes(s, i + 2);
    var a := s[i..i + 4];
    assert a[1..][1..] == s[i + 2..i + 2 + 2] && a[1..][0] == s[i + 1];
  }

  lemma EightBytes(s: bytes, i: nat)
    requires i + 8 <= |s|
    ensures FromLe(s[i..i + 8]) == At4(s, i) + 0x1_0000_0000 * At4(s, i + 4)
  {
    FourBytes(s, i + 4);
    var a := s[i..i + 8];
    var b, c := a[1..][1..], s[i + 4..i + 4 + 4];
    assert b == s[i + 2..i + 8] && a[1..][0] == s[i + 1];
    assert b[1..][1..] == c && b[1..][0] == s[i + 3] && b[0] == s[i + 2];
    assert FromLe(b) == s[i + 2] as nat + 0x100 * (s[i + 3] as nat + 0x100 * FromLe(c));
    assert FromLe(a) == s[i] as nat + 0x100 * (s[i + 1] as nat + 0x100 * FromLe(b));
  }

  lemma TwoBytes(s: bytes, i: nat)
    requires i + 2 <= |s|
    ensures FromLe(s[i..i + 2]) == s[i] as nat + 0x100 * s[i + 1] as nat
  {
    var a := s[i..i + 2];
    assert a[1..][1..] == [] && FromLe([]) == 0;
  }

  /** The header's fields byte by byte: `PHIA`, version 1, class, no flags, size, correlation id. */
  lemma WireLayout(f: Outgoing)
    requires Sendable(f)
    ensures var s := EncodeFrame(f);
            && |s| == 20 + |f.payload| && s[20..] == f.payload
            && s[..4] == [0x50, 0x48, 0x49, 0x41] && s[4..8] == [1, 0, f.kind, 0]
            && At4(s, 8) == |f.payload| && At4(s, 12) + 0x1_0000_0000 * At4(s, 16) == f.correlationId
  {
    WidthBounds();
    var h := WireHeader(f);
    var e, s := EncodeHeader(h), EncodeFrame(f);
    HeaderRoundTrip(h);
    assert s[4..6] == ToLe(1, 2) && ToLe(1, 2) == [1] + ToLe(0, 1) && ToLe(0, 1) == [0] + ToLe(0, 0);
    assert s[..4] == e[..4] && s[8..12] == e[8..12] && s[12..20] == e[12..20];
    FourBytes(s, 8);
    EightBytes(s, 12);
  }

  /** Twenty bytes that begin no frame of this protocol. */
  predicate Foreign(s: bytes)
    requires |s| >= 20
  {
    s[..4] != [0x50, 0x48, 0x49, 0x41] || s[4..6] != [1, 0] || At4(s, 8) > 2_097_152
  }

  /**
   * What the parser makes of a header, byte by byte: a foreign one is bad whatever
   * follows, and any other begins a frame of the class, id and size its bytes name.
   */
  lemma FirstFrame(s: bytes)
    requires |s| >= 20
    ensures Foreign(s) <==> ParseStream(s) == Parse([], s, true)
    ensures !Foreign(s) && |s| < 20 + At4(s, 8) ==> ParseStream(s) == Parse([], s, false)
    ensures !Foreign(s) && |s| >= 20 + At4(s, 8) ==>
              var frames := ParseStream(s).frames;
              && frames != [] && frames[0].payload == s[20..20 + At4(s, 8)] && frames[0].header.kind == s[6]
              && frames[0].header.correlationId == At4(s, 12) + 0x1_0000_0000 * At4(s, 16)
  {
    HeaderBytes(s);
    hide DecodeHeader, At4;
    ParseStep(s);
  }

  lemma HeaderBytes(s: bytes)
    requires |s| >= 20
    ensures var h := DecodeHeader(s[..20]);
            && (IsValid(h) <==> !Foreign(s))
            && h.payloadSize == At4(s, 8) && h.kind == s[6]
            && h.correlationId == At4(s, 12) + 0x1_0000_0000 * At4(s, 16)
  {
    var head := s[..20];
    FourBytes(s, 8);
    EightBytes(s, 12);
    TwoBytes(s, 4);
    assert head[4..6] == s[4..6] && head[8..12] == s[8..12] && head[12..20] == s[12..20] && head[..4] == s[..4];
    assert s[4..6] == [s[4], s[5]];
    hide FromLe, At4;
  }
}
