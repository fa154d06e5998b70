// From a request frame to the command the host dispatches, and the whole way from the
// sender's printer to the receiver's decoder.

module Requests {
  import opened Wrappers
  import opened Bytes
  import opened Frame
  import opened Transport
  import opened JsonScan
  import opened JsonString
  import opened JsonMembers
  import opened JsonNumber
  import opened JsonPrint
  import opened Envelope
  import Channel
  import Dispatcher
  import H = Host

  const EXTERNAL_ID_KEY: bytes := [0x65, 0x78, 0x74, 0x65, 0x72, 0x6E, 0x61, 0x6C, 0x49, 0x64]
  const EMPTY_OBJECT: bytes := [0x7B, 0x7D]

  /** The frame class a command must travel in. */
  function ExpectedType(command: nat): MessageType {
    if command == 0x1001 then Response
    else if 0x0100 <= command < 0x1000 then Request
    else if 0x2000 <= command < 0x3000 then Response
    else Event
  }

  datatype Decoded =
    | BadJson
    | BadCommand
    | WrongClass(command: nat)
    | Decoded(command: nat, cmdId: nat, externalId: bytes, fields: Entries)

  function StringOrDefault(token: bytes): bytes {
    if token == [] then []
    else match DecodeString(token) case Some(s) => s case None => []
  }

  /** The correlation id is the fallback for a missing or unusable `cmdId`. */
  function CmdIdOf(token: bytes, correlationId: nat): nat {
    if token == [] then correlationId
    else match ParseUInt64(token) case Some(n) => n case None => correlationId
  }

  function FieldsOf(token: bytes): Entries {
    match ParseObject(if token == [] then EMPTY_OBJECT else token)
    case Some(e) => e
    case None => []
  }

  function DecodeRequest(kind: byte, correlationId: nat, payload: bytes): Decoded {
    match ParseObject(payload)
    case None => BadJson
    case Some(root) =>
      match ParseCommand(Lookup(root, COMMAND_KEY))
      case None => BadCommand
      case Some(command) =>
        if kind != Dispatcher.KindByte(ExpectedType(command)) then WrongClass(command)
        else
          var fields := FieldsOf(Lookup(root, PAYLOAD_KEY));
          Decoded(command, CmdIdOf(Lookup(root, CMD_ID_KEY), correlationId),
                  StringOrDefault(Lookup(fields, EXTERNAL_ID_KEY)), fields)
  }

  method DecodeStringOrDefault(token: bytes) returns (s: bytes)
    ensures s == StringOrDefault(token)
  {
    if token == [] {
      return [];
    }
    var r := DecodeJsonString(token);
    s := if r.Some? then r.value else [];
  }

  method HandleRequestFrame(header: Header, payload: bytes) returns (d: Decoded)
    ensures d == DecodeRequest(header.kind, header.correlationId, payload)
  {
    hide ParseObject, DecodeString, ParseInt64, ParseUInt64, Lookup;
    var root := new MemberMap();
    var ok := ParseObjectMembers(payload, root);
    if !ok {
      return BadJson;
    }
    var commandToken := root.Value(COMMAND_KEY);
    var command := ParseCommand(commandToken);
    if command.None? {
      return BadCommand;
    }
    if header.kind != Dispatcher.KindByte(ExpectedType(command.value)) {
      return WrongClass(command.value);
    }
    var cmdIdToken := root.Value(CMD_ID_KEY);
    var cmdId := header.correlationId;
    if cmdIdToken != [] {
      var parsed := ParseUInt64(cmdIdToken);
      if parsed.Some? {
        cmdId := parsed.value;
      }
    }
    var payloadToken := root.Value(PAYLOAD_KEY);
    if payloadToken == [] {
      payloadToken := EMPTY_OBJECT;
    }
    var payloadMap := new MemberMap();
    ok := ParseObjectMembers(payloadToken, payloadMap);
    if !ok {
      payloadMap.Clear();
    }
    var idToken := payloadMap.Value(EXTERNAL_ID_KEY);
    var externalId := DecodeStringOrDefault(idToken);
    d := Decoded(command.value, cmdId, externalId, payloadMap.entries);
  }

  // ---- Round trip ------------------------------------------------------------------------------

  // A command as its sender has it.
  datatype Command = Command(command: nat, cmdId: Option<uint64>, correlationId: nat, fields: Fields)

  predicate WellFormed(c: Command) {
    && 0x0100 <= c.command < 0x1000
    && c.correlationId < Bound(8)
    && DistinctFields(c.fields)
    && |JsonPrint.Envelope(c.command, c.cmdId, c.fields)| <= MAX_PAYLOAD
  }

  function Printed(c: Command): Outgoing {
    Outgoing(Dispatcher.KindByte(Request), c.correlationId, JsonPrint.Envelope(c.command, c.cmdId, c.fields))
  }

  /** What the request names, if it names an instance with a string. */
  function Target(fields: Fields): bytes {
    if fields == [] then []
    else if fields[0].0 == EXTERNAL_ID_KEY then
      if fields[0].1.One? && fields[0].1.v.Text? then fields[0].1.v.s else []
    else Target(fields[1..])
  }

  /** A decoded request says what the command said. */
  predicate Carries(d: Decoded, c: Command) {
    && d.Decoded?
    && d.command == c.command
    && d.cmdId == (if c.cmdId.Some? then c.cmdId.value else c.correlationId)
    && d.externalId == Target(c.fields)
    && |d.fields| == |c.fields|
    && forall k :: 0 <= k < |c.fields| ==> d.fields[k].0 == c.fields[k].0 && Decodes(d.fields[k].1, c.fields[k].1)
  }

  lemma FieldAsString(f: Field)
    ensures StringOrDefault(PrintField(f)) == if f.One? && f.v.Text? then f.v.s else []
  {
    if f.One? && f.v.Text? {
      QuotedRoundTrip(f.v.s);
    } else {
      hide DecodeBody;
      StartsOtherwise(f);
    }
  }

  lemma StartsOtherwise(f: Field)
    requires !(f.One? && f.v.Text?)
    ensures DecodeString(PrintField(f)).None?
  {
    hide DecodeBody, PrintScalar, PrintItems;
    if f.One? {
      ScalarHead(f.v);
    }
    NoString(PrintField(f));
  }

  lemma ScalarHead(v: Scalar)
    requires !v.Text?
    ensures PrintScalar(v) != [] && PrintScalar(v)[0] != QUOTE && !IsWs(PrintScalar(v)[0])
  {
    match v
    case Int(i) => DecimalChars(i);
    case Real(d) =>
      if !d.NotFinite? {
        DoubleEnds(d);
      }
    case _ =>
    hide Decimal, PrintDouble;
  }

  lemma NoString(t: bytes)
    requires t != [] && t[0] != QUOTE && !IsWs(t[0])
    ensures DecodeString(t).None?
  {
    hide DecodeBody;
  }

  lemma {:induction false} TargetFound(entries: Entries, fields: Fields)
    requires |entries| == |fields|
    requires forall k :: 0 <= k < |fields| ==> entries[k] == (fields[k].0, PrintField(fields[k].1))
    ensures StringOrDefault(Lookup(entries, EXTERNAL_ID_KEY)) == Target(fields)
    decreases |fields|
  {
    hide StringOrDefault, PrintField;
    if fields == [] {
      NoToken();
    } else {
      FieldAsString(fields[0].1);
      TargetFound(entries[1..], fields[1..]);
    }
  }

  lemma NoToken()
    ensures StringOrDefault([]) == []
  {
  }

  lemma NoObject()
    ensures ParseObject([]).None? && ParseUInt64([]).None?
  {
  }

  /** Printing a command and decoding the frame gives the command, its id and its fields back. */
  lemma RequestRoundTrip(c: Command)
    requires WellFormed(c)
    ensures var f := Printed(c); Carries(DecodeRequest(f.kind, f.correlationId, f.payload), c)
  {
    hide ParseObject, ParseUInt64, ParseCommand, Lookup, Decodes;
    hide JsonPrint.Envelope, StringOrDefault, Target, PrintField;
    NoObject();
    var root, payload := EnvelopeRoundTrip(c.command, c.cmdId, c.fields);
    TargetFound(payload, c.fields);
  }

  function AllPrinted(cs: seq<Command>): (r: seq<Outgoing>)
    ensures |r| == |cs| && forall k :: 0 <= k < |cs| ==> r[k] == Printed(cs[k])
  {
    seq(|cs|, k requires 0 <= k < |cs| => Printed(cs[k]))
  }

  lemma DeliveryOf(fs: seq<Outgoing>, k: nat)
    requires AllSendable(fs) && k < |fs|
    ensures Deliveries(fs)[k] == Deliver(fs[k])
  {
    if k > 0 {
      DeliveryOf(fs[1..], k - 1);
    }
  }

  lemma DeliveredFields(f: Outgoing)
    requires Sendable(f)
    ensures Deliver(f).header.kind == f.kind && Deliver(f).header.correlationId == f.correlationId
    ensures Deliver(f).payload == f.payload
  {
  }

  /** Every well-formed command passes the channel's size guard. */
  lemma PrintedSendable(cs: seq<Command>)
    requires forall k :: 0 <= k < |cs| ==> WellFormed(cs[k])
    ensures AllSendable(AllPrinted(cs))
  {
    hide JsonPrint.Envelope, DistinctFields;
    forall k | 0 <= k < |cs|
      ensures Sendable(AllPrinted(cs)[k])
    {
      assert WellFormed(cs[k]);
    }
  }

  /** What is on the wire once the commands were handed to send. */
  function PrintedWire(sender: Conn, cs: seq<Command>, scripts: seq<WriteScript>): bytes
    requires |cs| == |scripts| && forall k :: 0 <= k < |cs| ==> WellFormed(cs[k])
  {
    PrintedSendable(cs);
    Channel.SendAll(sender, AllPrinted(cs), scripts).wire
  }

  /** Frames through the channel, seen as the receiver's handler is given them. */
  lemma FramesArrive(sender: Conn, receiver: Conn, fs: seq<Outgoing>, scripts: seq<WriteScript>,
                     batches: seq<seq<ReadStep>>)
    returns (sent: nat, delivered: seq<Delivery>)
    requires |fs| == |scripts| && AllSendable(fs) && Channel.AllDrained(batches)
    requires sender.client >= 0 && sender.wire == []
    requires receiver.client >= 0 && receiver.buffer == []
    requires Channel.Total(batches) <= Channel.SendAll(sender, fs, scripts).wire
    ensures |delivered| <= sent <= |fs|
    ensures Channel.ReceiveAll(receiver, batches).notices == receiver.notices + AsNotices(delivered)
    ensures forall k :: 0 <= k < |delivered| ==>
              var d := delivered[k];
              d.header.kind == fs[k].kind && d.header.correlationId == fs[k].correlationId && d.payload == fs[k].payload
    ensures Channel.Total(batches) == Channel.SendAll(sender, fs, scripts).wire ==> |delivered| == sent
  {
    hide Deliver, Sendable, Channel.SendAll, Channel.ReceiveAll, Channel.Total;
    var n;
    sent, n := Channel.ChannelIsFifo(sender, receiver, fs, scripts, batches);
    delivered := Deliveries(fs)[..n];
    forall k | 0 <= k < |delivered|
      ensures var d := delivered[k];
              d.header.kind == fs[k].kind && d.header.correlationId == fs[k].correlationId && d.payload == fs[k].payload
    {
      DeliveryOf(fs, k);
      DeliveredFields(fs[k]);
    }
  }

  /**
   * From printer to decoder: whatever the partial writes and the chunking, the
   * receiver is handed a prefix of the commands, in order, and each decodes to the
   * command sent; it is all of those sent whole once all bytes are in.
   */
  lemma CommandsArrive(sender: Conn, receiver: Conn, cs: seq<Command>, scripts: seq<WriteScript>,
                       batches: seq<seq<ReadStep>>)
    returns (sent: nat, delivered: seq<Delivery>)
    requires |cs| == |scripts| && Channel.AllDrained(batches)
    requires forall k :: 0 <= k < |cs| ==> WellFormed(cs[k])
    requires sender.client >= 0 && sender.wire == []
    requires receiver.client >= 0 && receiver.buffer == []
    requires Channel.Total(batches) <= PrintedWire(sender, cs, scripts)
    ensures |delivered| <= sent <= |cs|
    ensures Channel.ReceiveAll(receiver, batches).notices == receiver.notices + AsNotices(delivered)
    ensures forall k :: 0 <= k < |delivered| ==>
              var d := delivered[k]; Carries(DecodeRequest(d.header.kind, d.header.correlationId, d.payload), cs[k])
    ensures Channel.Total(batches) == PrintedWire(sender, cs, scripts) ==> |delivered| == sent
  {
    hide WellFormed, Carries, DecodeRequest, Printed, Sendable, Channel.SendAll, Channel.ReceiveAll, Channel.Total;
    PrintedSendable(cs);
    sent, delivered := FramesArrive(sender, receiver, AllPrinted(cs), scripts, batches);
    forall k | 0 <= k < |delivered|
      ensures var d := delivered[k]; Carries(DecodeRequest(d.header.kind, d.header.correlationId, d.payload), cs[k])
    {
      RequestRoundTrip(cs[k]);
    }
  }

  // ---- To the host --------------------------------------------------------------------------------

  /**
   * The commands that are answered: seven by the host or an adapter's hook, the rest of
   * the request range by the dispatcher. The three sync commands have no result.
   */
  function KindOf(command: nat): Option<H.CmdKind> {
    match command
    case 0x0201 => Some(H.ChannelInvoke)
    case 0x0202 => Some(H.AdapterActionInvoke)
    case 0x0203 => Some(H.DeviceNameUpdate)
    case 0x0204 => Some(H.DeviceEffectInvoke)
    case 0x0205 => Some(H.SceneInvoke)
    case 0x0206 => Some(H.StreamStart)
    case 0x0207 => Some(H.StreamStop)
    case _ => if 0x0101 <= command <= 0x0103 then None else Some(H.Unknown)
  }

  function ToHost(d: Decoded): Option<H.Req> {
    if d.Decoded? && KindOf(d.command).Some? then Some(H.Req(KindOf(d.command).value, d.externalId, d.cmdId)) else None
  }

  /** What reaches the host is the command the sender meant, addressed to whom it meant. */
  lemma RequestReachesHost(c: Command)
    requires WellFormed(c)
    ensures var f := Printed(c);
            ToHost(DecodeRequest(f.kind, f.correlationId, f.payload))
            == match KindOf(c.command)
               case None => None
               case Some(kind) =>
                 Some(H.Req(kind, Target(c.fields), if c.cmdId.Some? then c.cmdId.value else c.correlationId))
  {
    hide DecodeRequest, Target, Decodes;
    RequestRoundTrip(c);
  }
}
