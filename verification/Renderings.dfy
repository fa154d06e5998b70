// A request may come from any program: any RFC 8259 rendering of a command, whatever
// its white space, member order, extra or repeated members and escapes, decodes to
// what its parse tree says.

module Renderings {
  import opened Wrappers
  import opened Bytes
  import opened Frame
  import opened Transport
  import opened JsonScan
  import opened JsonString
  import opened JsonTokens
  import opened JsonMembers
  import opened JsonNumber
  import opened JsonPrint
  import opened Envelope
  import opened Requests
  import Channel
  import Dispatcher
  import G = JsonGrammar
  import H = Host

  // ---- Members of a tree ---------------------------------------------------------------------

  /** The value of the last member whose key decodes to `key`. */
  function Member(l: G.MemberList, key: bytes): Option<G.Value>
    requires KeysDecodable(l)
  {
    var later := if l.MoreMembers? then Member(l.rest, key) else None;
    if later.Some? then later
    else if KeyOf(G.RenderString(l.key)) == Some(key) then Some(l.v)
    else None
  }

  function TokenOf(v: Option<G.Value>, fallback: bytes): bytes {
    match v case None => fallback case Some(x) => G.Render(x)
  }

  /** Looking a key up in the parsed members finds the rendering of that value. */
  lemma {:induction false} MemberLookup(e: Entries, l: G.MemberList, key: bytes)
    requires KeysDecodable(l)
    ensures Lookup(AssignAll(e, MemberTokens(l)), key) == TokenOf(Member(l, key), Lookup(e, key))
    decreases l
  {
    var k, v := KeyOf(G.RenderString(l.key)).value, G.Render(l.v);
    AssignSpec(e, k, v, key);
    hide KeyOf, G.Render, G.RenderString, Assign, Lookup, AssignAll;
    AssignFirst(e, k, v, if l.MoreMembers? then MemberTokens(l.rest) else []);
    if l.MoreMembers? {
      MemberLookup(Assign(e, k, v), l.rest, key);
    }
  }

  lemma AssignFirst(e: Entries, k: bytes, v: bytes, rest: Entries)
    ensures AssignAll(e, [(k, v)] + rest) == AssignAll(Assign(e, k, v), rest)
    ensures AssignAll(e, []) == e
  {
    hide Assign;
    assert ([(k, v)] + rest)[1..] == rest;
  }

  lemma NothingYet(key: bytes)
    ensures Lookup([], key) == []
  {
  }

  // ---- White space around the text ---------------------------------------------------------------

  lemma TrimmedEnds(r: bytes)
    requires Trim(r) == r && r != []
    ensures !IsWs(r[0]) && !IsWs(r[|r| - 1])
  {
  }

  /** Outer white space is not seen by the object parser. */
  lemma ParseAround(before: bytes, v: G.Value, after: bytes)
    requires G.AllWs(before) && G.AllWs(after) && G.Loose(v)
    ensures ParseObject(before + G.Render(v) + after) == ParseObject(G.Render(v))
  {
    hide G.Loose, G.Render, Trim, ParseObject, G.AllWs;
    TrimValue(v);
    G.ValueHead(v);
    TrimmedEnds(G.Render(v));
    TrimAround(before, G.Render(v), after);
    SameTrim(before + G.Render(v) + after, G.Render(v));
  }

  lemma SameTrim(a: bytes, b: bytes)
    requires Trim(a) == Trim(b)
    ensures ParseObject(a) == ParseObject(b)
  {
    hide Trim, WalkMembers, SkipWs, AssignAll;
  }

  // ---- What a tree says ---------------------------------------------------------------------------

  /** A plain integer: RFC 8259 allows one rendering of each. */
  predicate IsNumber(v: Option<G.Value>, n: nat) {
    v == Some(G.Num(NumberJson(n)))
  }

  /** The string a value is, if it is a string that denotes one. */
  function StringOf(v: Option<G.Value>): bytes {
    if v.Some? && v.value.Str? && DecodeString(G.RenderString(v.value.chars)).Some?
    then DecodeString(G.RenderString(v.value.chars)).value
    else []
  }

  function TargetOf(payload: Option<G.Value>): bytes
    requires PayloadDecodable(payload)
  {
    if payload.Some? && payload.value.Object? then StringOf(Member(payload.value.members, EXTERNAL_ID_KEY)) else []
  }

  predicate PayloadDecodable(payload: Option<G.Value>) {
    payload.Some? && payload.value.Object? ==> KeysDecodable(payload.value.members)
  }

  // A message: a command as its sender means it, and the text it chose to write it as.
  datatype Message = Message(command: nat, cmdId: Option<uint64>, target: bytes, correlationId: nat,
                             before: bytes, tree: G.Value, after: bytes)

  function Text(m: Message): bytes {
    m.before + G.Render(m.tree) + m.after
  }

  /** The tree says what is meant; what else it holds does not matter. */
  predicate Says(m: Message) {
    && G.AllWs(m.before) && G.AllWs(m.after) && G.Loose(m.tree)
    && m.tree.Object? && KeysDecodable(m.tree.members)
    && IsNumber(Member(m.tree.members, COMMAND_KEY), m.command)
    && (match m.cmdId
        case None => Member(m.tree.members, CMD_ID_KEY).None?
        case Some(n) => IsNumber(Member(m.tree.members, CMD_ID_KEY), n))
    && PayloadDecodable(Member(m.tree.members, PAYLOAD_KEY))
    && m.target == TargetOf(Member(m.tree.members, PAYLOAD_KEY))
  }

  lemma {:induction false} MemberValid(l: G.MemberList, key: bytes)
    requires G.LooseMembers(l) && KeysDecodable(l)
    ensures Member(l, key).Some? ==> G.Loose(Member(l, key).value)
    decreases l
  {
    hide KeyOf, G.Loose, G.ValidChars;
    if l.MoreMembers? {
      MemberValid(l.rest, key);
    }
  }

  /** Only objects parse as objects. */
  lemma OtherIsNoObject(v: G.Value)
    requires G.Loose(v) && !v.Object? && !v.EmptyObject?
    ensures ParseObject(G.Render(v)).None?
  {
    TrimValue(v);
    StartsElsewhere(v, OPEN_BRACE);
    hide G.Loose, G.Render, Trim, WalkMembers;
  }

  lemma StartsElsewhere(v: G.Value, c: byte)
    requires G.Loose(v) && (c == OPEN_BRACE || c == QUOTE)
    requires c == OPEN_BRACE ==> !v.Object? && !v.EmptyObject?
    requires c == QUOTE ==> !v.Str?
    ensures G.Render(v) != [] && G.Render(v)[0] != c
  {
    G.ValueHead(v);
    if v.Num? {
      G.NumberHead(v.n);
    }
  }

  /** A value read as a string: what it denotes, or nothing. */
  lemma StringToken(v: Option<G.Value>)
    requires v.Some? ==> G.Loose(v.value)
    ensures StringOrDefault(TokenOf(v, [])) == StringOf(v)
  {
    if v.Some? {
      TrimValue(v.value);
      G.ValueHead(v.value);
      if !v.value.Str? {
        StartsElsewhere(v.value, QUOTE);
      }
    }
    hide G.Loose, Trim, DecodeBody, G.RenderString;
  }

  /** The payload's members, as the decoder ends up with them. */
  lemma PayloadFields(payload: Option<G.Value>)
    requires PayloadDecodable(payload) && (payload.Some? ==> G.Loose(payload.value))
    ensures var fields := FieldsOf(TokenOf(payload, []));
            forall key :: Lookup(fields, key)
                          == if payload.Some? && payload.value.Object?
                             then TokenOf(Member(payload.value.members, key), [])
                             else []
  {
    var fields := FieldsOf(TokenOf(payload, []));
    forall key
      ensures Lookup(fields, key)
              == if payload.Some? && payload.value.Object? then TokenOf(Member(payload.value.members, key), []) else []
    {
      NothingYet(key);
      if payload.None? {
        EmptyText();
      } else {
        G.ValueHead(payload.value);
        if payload.value.Object? {
          ParseObjectExact(payload.value);
          MemberLookup([], payload.value.members, key);
        } else if payload.value.EmptyObject? {
          ParseEmptyObject(payload.value);
        } else {
          OtherIsNoObject(payload.value);
        }
      }
    }
  }

  lemma EmptyText()
    ensures ParseObject(EMPTY_OBJECT) == Some([])
  {
    assert G.Render(G.EmptyObject([])) == EMPTY_OBJECT;
    ParseEmptyObject(G.EmptyObject([]));
  }

  lemma NumberToken(n: nat)
    ensures G.Render(G.Num(NumberJson(n))) == Decimal(n) && Decimal(n) != []
  {
    NumberJsonRender(n);
    DecimalChars(n);
  }

  /**
   * Any rendering decodes to what its tree says: command, id or its fallback, target,
   * and for every key of the payload the rendering of its last value.
   */
  lemma RenderingDecodes(m: Message)
    requires Says(m) && 0x0100 <= m.command < 0x1000
    ensures var d := DecodeRequest(Dispatcher.KindByte(Request), m.correlationId, Text(m));
            var payload := Member(m.tree.members, PAYLOAD_KEY);
            && d.Decoded? && d.command == m.command && d.externalId == m.target
            && d.cmdId == (match m.cmdId case None => m.correlationId case Some(n) => n)
            && forall key :: Lookup(d.fields, key)
                             == if payload.Some? && payload.value.Object?
                                then TokenOf(Member(payload.value.members, key), []) else []
  {
    PayloadValid(m);
    RootTokens(m);
    hide *;
    var root := AssignAll([], MemberTokens(m.tree.members));
    var payload := Member(m.tree.members, PAYLOAD_KEY);
    DecodedAs(m, root);
    PayloadFields(payload);
    TargetDecodes(payload);
  }

  lemma PayloadValid(m: Message)
    requires Says(m)
    ensures m.tree.Object? && KeysDecodable(m.tree.members)
    ensures var payload := Member(m.tree.members, PAYLOAD_KEY);
            && PayloadDecodable(payload) && m.target == TargetOf(payload)
            && (payload.Some? ==> G.Loose(payload.value))
  {
    ObjectMembersValid(m.tree);
    MemberValid(m.tree.members, PAYLOAD_KEY);
    hide G.Loose, G.LooseMembers, KeysDecodable, Member, TargetOf, PayloadDecodable, IsNumber;
  }

  lemma DecodedAs(m: Message, root: Entries)
    requires ParseObject(Text(m)) == Some(root) && ParseCommand(Lookup(root, COMMAND_KEY)) == Some(m.command)
    requires 0x0100 <= m.command < 0x1000
    ensures var fields := FieldsOf(Lookup(root, PAYLOAD_KEY));
            DecodeRequest(Dispatcher.KindByte(Request), m.correlationId, Text(m))
            == Decoded(m.command, CmdIdOf(Lookup(root, CMD_ID_KEY), m.correlationId),
                       StringOrDefault(Lookup(fields, EXTERNAL_ID_KEY)), fields)
  {
    hide ParseObject, ParseCommand, Lookup, Text, FieldsOf, StringOrDefault, CmdIdOf;
  }

  /** What the decoder finds at the top level of any rendering. */
  lemma RootTokens(m: Message)
    requires Says(m) && 0x0100 <= m.command < 0x1000
    ensures var root := AssignAll([], MemberTokens(m.tree.members));
            && ParseObject(Text(m)) == Some(root)
            && ParseCommand(Lookup(root, COMMAND_KEY)) == Some(m.command)
            && CmdIdOf(Lookup(root, CMD_ID_KEY), m.correlationId)
               == (match m.cmdId case None => m.correlationId case Some(n) => n)
            && Lookup(root, PAYLOAD_KEY) == TokenOf(Member(m.tree.members, PAYLOAD_KEY), [])
  {
    var l := m.tree.members;
    hide G.Loose, G.Render, ParseObject, Lookup, AssignAll, MemberTokens;
    hide KeysDecodable, Member, PayloadDecodable, TargetOf;
    ParseAround(m.before, m.tree, m.after);
    ParseObjectExact(m.tree);
    MemberLookup([], l, COMMAND_KEY);
    MemberLookup([], l, CMD_ID_KEY);
    MemberLookup([], l, PAYLOAD_KEY);
    NothingYet(COMMAND_KEY);
    NothingYet(CMD_ID_KEY);
    NothingYet(PAYLOAD_KEY);
    CommandToken(Member(l, COMMAND_KEY), m.command);
    if m.cmdId.Some? {
      IdToken(Member(l, CMD_ID_KEY), m.cmdId.value, m.correlationId);
    }
  }

  lemma CommandToken(v: Option<G.Value>, command: nat)
    requires IsNumber(v, command) && 0 < command <= 0xFFFF
    ensures ParseCommand(TokenOf(v, [])) == Some(command)
  {
    NumberToken(command);
    DecimalRoundTrip(command);
    hide ParseInt64, Decimal, NumberJson, G.Render;
  }

  lemma IdToken(v: Option<G.Value>, n: uint64, correlationId: nat)
    requires IsNumber(v, n)
    ensures CmdIdOf(TokenOf(v, []), correlationId) == n
  {
    NumberToken(n);
    UnsignedRoundTrip(n);
    hide ParseUInt64, Decimal, NumberJson, G.Render;
  }

  lemma ObjectMembersValid(v: G.Value)
    requires G.Loose(v) && v.Object?
    ensures G.LooseMembers(v.members)
  {
  }

  lemma TargetDecodes(payload: Option<G.Value>)
    requires PayloadDecodable(payload) && (payload.Some? ==> G.Loose(payload.value))
    ensures StringOrDefault(Lookup(FieldsOf(TokenOf(payload, [])), EXTERNAL_ID_KEY)) == TargetOf(payload)
  {
    PayloadFields(payload);
    if payload.Some? && payload.value.Object? {
      ObjectMembersValid(payload.value);
      MemberValid(payload.value.members, EXTERNAL_ID_KEY);
      StringToken(Member(payload.value.members, EXTERNAL_ID_KEY));
    }
    hide FieldsOf, Member, KeysDecodable, G.Loose, StringOf, Lookup, TokenOf;
    NoToken();
  }

  // ---- The printed form is one rendering --------------------------------------------------------

  function PairValue(ps: Pairs, key: bytes): Option<G.Value> {
    if ps == [] then None
    else if PairValue(ps[1..], key).Some? then PairValue(ps[1..], key)
    else if ps[0].0 == key then Some(ps[0].1)
    else None
  }

  lemma {:induction false} PairMember(ps: Pairs, key: bytes)
    requires ps != [] && ValidPairs(ps)
    ensures KeysDecodable(PairsJson(ps)) && Member(PairsJson(ps), key) == PairValue(ps, key)
    decreases |ps|
  {
    hide KeyOf, TextChars, G.RenderString, Quoted, G.Valid, G.Render, G.ValidMembers, G.RenderMembers, PrintPairs;
    PairsJsonRender(ps);
    KeyOfQuoted(ps[0].0);
    TextCharsRender(ps[0].0);
    if |ps| > 1 {
      PairMember(ps[1..], key);
    } else {
      assert ps[1..] == [];
    }
  }

  lemma {:induction false} NoPair(fs: Fields)
    requires forall k :: 0 <= k < |fs| ==> fs[k].0 != EXTERNAL_ID_KEY
    ensures PairValue(FieldPairs(fs), EXTERNAL_ID_KEY).None?
    decreases |fs|
  {
    hide FieldJson;
    if fs != [] {
      assert FieldPairs(fs)[1..] == FieldPairs(fs[1..]);
      NoPair(fs[1..]);
    }
  }

  lemma {:induction false} FieldTarget(fs: Fields)
    requires DistinctFields(fs)
    ensures StringOf(PairValue(FieldPairs(fs), EXTERNAL_ID_KEY)) == Target(fs)
    decreases |fs|
  {
    hide StringOf, FieldJson;
    NoString();
    if fs != [] {
      assert FieldPairs(fs)[1..] == FieldPairs(fs[1..]);
      FieldText(fs[0].1);
      if fs[0].0 == EXTERNAL_ID_KEY {
        NoPair(fs[1..]);
      } else {
        FieldTarget(fs[1..]);
      }
    }
  }

  lemma NoString()
    ensures StringOf(None) == []
  {
  }

  lemma FieldText(f: Field)
    ensures StringOf(Some(FieldJson(f))) == if f.One? && f.v.Text? then f.v.s else []
  {
    hide DecodeString, Quoted, TextChars, G.RenderString, NumberJson, DoubleNumber, ItemsJson;
    if f.One? && f.v.Text? {
      TextCharsRender(f.v.s);
      QuotedRoundTrip(f.v.s);
    }
  }

  /** What the SDK's own printer writes is one of the renderings. */
  lemma PrintedSays(c: Command)
    requires WellFormed(c)
    ensures var m := Message(c.command, c.cmdId, Target(c.fields), c.correlationId,
                             [], ObjectJson(EnvelopePairs(c.command, c.cmdId, c.fields)), []);
            Says(m) && Text(m) == JsonPrint.Envelope(c.command, c.cmdId, c.fields)
  {
    hide G.Valid, G.Loose, G.Render, JsonPrint.Envelope, Target, StringOf, FieldPairs, PairsJson;
    hide Member, KeysDecodable, PairValue;
    hide ObjectJson, DistinctFields, EnvelopePairs, TargetOf, PayloadDecodable;
    var ps := EnvelopePairs(c.command, c.cmdId, c.fields);
    EnvelopeJson(c.command, c.cmdId, c.fields);
    PrintedObject(c);
    G.ValidIsLoose(ObjectJson(ps));
    PairMember(ps, COMMAND_KEY);
    PairMember(ps, CMD_ID_KEY);
    PairMember(ps, PAYLOAD_KEY);
    PairValues(c);
    PrintedTarget(c.fields);
    var none: bytes := [];
    assert G.AllWs(none) && none + G.Render(ObjectJson(ps)) + none == G.Render(ObjectJson(ps));
  }

  lemma PrintedObject(c: Command)
    ensures var ps := EnvelopePairs(c.command, c.cmdId, c.fields);
            ps != [] && ValidPairs(ps) && G.Valid(ObjectJson(ps)) && ObjectJson(ps) == G.Object([], PairsJson(ps))
  {
    var ps := EnvelopePairs(c.command, c.cmdId, c.fields);
    EnvelopeJson(c.command, c.cmdId, c.fields);
    RenderPairs(ps);
  }

  lemma PairValues(c: Command)
    ensures var ps := EnvelopePairs(c.command, c.cmdId, c.fields);
            && PairValue(ps, COMMAND_KEY) == Some(G.Num(NumberJson(c.command)))
            && PairValue(ps, CMD_ID_KEY) == (match c.cmdId case None => None case Some(n) => Some(G.Num(NumberJson(n))))
            && PairValue(ps, PAYLOAD_KEY) == Some(ObjectJson(FieldPairs(c.fields)))
  {
    hide NumberJson, ObjectJson, FieldPairs;
    EnvelopeKeysDiffer(c.command, c.cmdId, c.fields);
    var command := (COMMAND_KEY, G.Num(NumberJson(c.command)));
    var payload := (PAYLOAD_KEY, ObjectJson(FieldPairs(c.fields)));
    var last: Pairs := [payload];
    ConsValue(payload, []);
    if c.cmdId.Some? {
      var id := (CMD_ID_KEY, G.Num(NumberJson(c.cmdId.value)));
      ConsValue(id, last);
      ConsValue(command, [id] + last);
      assert EnvelopePairs(c.command, c.cmdId, c.fields) == [command] + ([id] + last);
    } else {
      ConsValue(command, last);
      assert EnvelopePairs(c.command, c.cmdId, c.fields) == [command] + last;
    }
    assert last == [payload] + [];
  }

  lemma ConsValue(p: (bytes, G.Value), rest: Pairs)
    ensures forall key :: PairValue([p] + rest, key)
                          == if PairValue(rest, key).Some? then PairValue(rest, key)
                             else if p.0 == key then Some(p.1) else None
  {
    assert ([p] + rest)[1..] == rest;
  }

  lemma PrintedTarget(fs: Fields)
    requires DistinctFields(fs)
    ensures var payload := Some(ObjectJson(FieldPairs(fs)));
            PayloadDecodable(payload) && TargetOf(payload) == Target(fs)
  {
    if fs != [] {
      hide StringOf, Target, Member, KeysDecodable, PairsJson, PairValue, G.Valid;
      PayloadJson(fs);
      PairMember(FieldPairs(fs), EXTERNAL_ID_KEY);
      FieldTarget(fs);
    }
  }

  // ---- Through the channel ----------------------------------------------------------------------

  predicate Framed(m: Message) {
    Says(m) && 0x0100 <= m.command < 0x1000 && m.correlationId < Bound(8) && |Text(m)| <= MAX_PAYLOAD
  }

  function AsFrame(m: Message): Outgoing {
    Outgoing(Dispatcher.KindByte(Request), m.correlationId, Text(m))
  }

  function AsFrames(ms: seq<Message>): (r: seq<Outgoing>)
    ensures |r| == |ms| && forall k :: 0 <= k < |ms| ==> r[k] == AsFrame(ms[k])
  {
    seq(|ms|, k requires 0 <= k < |ms| => AsFrame(ms[k]))
  }

  predicate AllFramed(ms: seq<Message>) {
    forall k :: 0 <= k < |ms| ==> Framed(ms[k])
  }

  lemma MessagesSendable(ms: seq<Message>)
    requires AllFramed(ms)
    ensures AllSendable(AsFrames(ms))
  {
    hide Says, Text;
    forall k | 0 <= k < |ms|
      ensures Sendable(AsFrames(ms)[k])
    {
      assert Framed(ms[k]);
    }
  }

  /** The sender once the messages were handed to send. */
  function AfterSending(sender: Conn, ms: seq<Message>, scripts: seq<WriteScript>): Conn
    requires |ms| == |scripts| && AllFramed(ms)
  {
    MessagesSendable(ms);
    Channel.SendAll(sender, AsFrames(ms), scripts)
  }

  function MessageWire(sender: Conn, ms: seq<Message>, scripts: seq<WriteScript>): bytes
    requires |ms| == |scripts| && AllFramed(ms)
  {
    AfterSending(sender, ms, scripts).wire
  }

  /** The request the host is handed, if it answers such a command. */
  function Meant(m: Message): Option<H.Req> {
    match KindOf(m.command)
    case None => None
    case Some(kind) => Some(H.Req(kind, m.target, match m.cmdId case None => m.correlationId case Some(n) => n))
  }

  /**
   * From any sender to the host: for any renderings, partial writes and chunking, the
   * host is handed what a prefix of the messages mean, in order; all of those sent
   * whole once all bytes are in.
   */
  lemma MessagesReachHost(sender: Conn, receiver: Conn, ms: seq<Message>, scripts: seq<WriteScript>,
                          batches: seq<seq<ReadStep>>)
    returns (sent: nat, delivered: seq<Delivery>)
    requires |ms| == |scripts| && AllFramed(ms) && Channel.AllDrained(batches)
    requires sender.client >= 0 && sender.wire == []
    requires receiver.client >= 0 && receiver.buffer == []
    requires Channel.Total(batches) <= MessageWire(sender, ms, scripts)
    ensures |delivered| <= sent <= |ms|
    ensures Channel.ReceiveAll(receiver, batches).notices == receiver.notices + AsNotices(delivered)
    ensures forall k :: 0 <= k < |delivered| ==>
              var d := delivered[k];
              ToHost(DecodeRequest(d.header.kind, d.header.correlationId, d.payload)) == Meant(ms[k])
    ensures Channel.Total(batches) == MessageWire(sender, ms, scripts) ==> |delivered| == sent
  {
    hide Says, DecodeRequest, Sendable, Text, Channel.SendAll, Channel.ReceiveAll, Channel.Total;
    MessagesSendable(ms);
    sent, delivered := FramesArrive(sender, receiver, AsFrames(ms), scripts, batches);
    forall k | 0 <= k < |delivered|
      ensures var d := delivered[k];
              ToHost(DecodeRequest(d.header.kind, d.header.correlationId, d.payload)) == Meant(ms[k])
    {
      assert Framed(ms[k]);
      MessageToHost(ms[k]);
    }
  }

  lemma MessageToHost(m: Message)
    requires Framed(m)
    ensures ToHost(DecodeRequest(Dispatcher.KindByte(Request), m.correlationId, Text(m))) == Meant(m)
  {
    PayloadValid(m);
    RenderingDecodes(m);
    hide Says, DecodeRequest, Text, Member, KeysDecodable, Lookup;
  }

  // ---- What is refused ----------------------------------------------------------------------------

  /** A text that opens with no readable object is refused, and no other text for that reason. */
  lemma NoObjectRefused(kind: byte, correlationId: nat, payload: bytes)
    ensures DecodeRequest(kind, correlationId, payload) == BadJson <==> !exists v, rest :: OpensWith(payload, v, rest)
  {
    ParserExact(payload);
    hide ParseObject, ParseCommand, Lookup, OpensWith, FieldsOf, StringOrDefault, CmdIdOf;
  }

  /** The frame class of a command, by its number: requests, responses and results, events. */
  function ClassOf(command: nat): byte {
    if 0x0100 <= command < 0x1000 then 3
    else if command == 0x1001 || 0x2000 <= command < 0x3000 then 4
    else 5
  }

  /** A command in a frame of another class is refused, and named. */
  lemma WrongClassRefused(m: Message, kind: byte)
    requires Says(m) && 0 < m.command < 0x10000 && kind != ClassOf(m.command)
    ensures DecodeRequest(kind, m.correlationId, Text(m)) == WrongClass(m.command)
  {
    CommandMember(m);
    var l := m.tree.members;
    CommandToken(Member(l, COMMAND_KEY), m.command);
    hide ParseObject, ParseCommand, Lookup, Text, Says, FieldsOf, StringOrDefault, CmdIdOf, Member;
  }

  /** A command that is no number of sixteen bits, or zero, is refused. */
  lemma BadCommandRefused(m: Message, kind: byte)
    requires Says(m) && (m.command == 0 || 0x10000 <= m.command < 0x8000_0000_0000_0000)
    ensures DecodeRequest(kind, m.correlationId, Text(m)) == BadCommand
  {
    CommandMember(m);
    NumberToken(m.command);
    DecimalRoundTrip(m.command);
    hide ParseObject, ParseInt64, Decimal, NumberJson, G.Render, Lookup, Text, Says, FieldsOf, StringOrDefault, CmdIdOf;
  }

  lemma CommandMember(m: Message)
    requires Says(m)
    ensures m.tree.Object? && KeysDecodable(m.tree.members)
    ensures var root := AssignAll([], MemberTokens(m.tree.members));
            ParseObject(Text(m)) == Some(root)
            && Lookup(root, COMMAND_KEY) == TokenOf(Member(m.tree.members, COMMAND_KEY), [])
    ensures IsNumber(Member(m.tree.members, COMMAND_KEY), m.command)
  {
    hide G.Loose, G.Render, ParseObject, Lookup, AssignAll, MemberTokens;
    hide KeysDecodable, Member, PayloadDecodable, TargetOf, IsNumber;
    ParseAround(m.before, m.tree, m.after);
    ParseObjectExact(m.tree);
    MemberLookup([], m.tree.members, COMMAND_KEY);
    NothingYet(COMMAND_KEY);
  }

  lemma {:induction false} DigitsOnly(s: bytes)
    requires DigitsValue(s).Some?
    ensures s != [] && forall k :: 0 <= k < |s| ==> IsDigit(s[k])
    decreases |s|
  {
    if |s| > 1 {
      DigitsOnly(s[..|s| - 1]);
      assert forall k :: 0 <= k < |s| - 1 ==> s[k] == s[..|s| - 1][k];
    }
  }

  /** A member `cmdId` that is no number leaves the frame's correlation id in force. */
  lemma OtherIdFallsBack(v: G.Value, correlationId: nat)
    requires G.Loose(v) && !v.Num?
    ensures CmdIdOf(G.Render(v), correlationId) == correlationId
  {
    TrimValue(v);
    NoDigitFirst(v);
    hide Trim, G.Loose, G.Render;
    if DigitsValue(G.Render(v)).Some? {
      DigitsOnly(G.Render(v));
    }
    hide DigitsValue;
  }

  lemma NoDigitFirst(v: G.Value)
    requires G.Loose(v) && !v.Num?
    ensures G.Render(v) != [] && !IsDigit(G.Render(v)[0])
  {
  }
}
