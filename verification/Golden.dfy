// Recorded wire texts: what the printers write and the decoder reads, letter by letter.

module Golden {
  import opened Wrappers
  import opened Bytes
  import opened JsonScan
  import opened JsonString
  import opened JsonNumber
  import opened JsonPrint
  import Envelope
  import JsonMembers
  import G = JsonGrammar
  import Escapes
  import Dispatcher
  import Frame
  import opened Requests
  import L = LogFilter
  import H = Host

  // ---- Literals -----------------------------------------------------------------------

  lemma AsciiAppend(a: string, b: string)
    ensures Ascii(a + b) == Ascii(a) + Ascii(b)
  {
  }

  /** Letters that are printed as they are. */
  predicate Plain(s: string) {
    forall k :: 0 <= k < |s| ==> ' ' <= s[k] <= '~' && s[k] != '"' && s[k] != '\\'
  }

  lemma PlainQuoted(s: string)
    requires Plain(s)
    ensures Quoted(Ascii(s)) == Ascii("\"" + s + "\"")
  {
    Escapes.PrintsClean(Ascii(s));
    hide EscapeAll;
    assert Ascii("\"" + s + "\"") == [QUOTE] + Ascii(s) + [QUOTE];
  }

  lemma MemberText(key: string, token: bytes, text: string)
    requires Plain(key) && token == Ascii(text)
    ensures PrintMember(Ascii(key), token) == Ascii(Named(key, text))
  {
    PlainQuoted(key);
    hide Quoted;
    AsciiAppend("\"" + key + "\"", ":");
    AsciiAppend("\"" + key + "\":", text);
    assert "\"" + key + "\":" == "\"" + key + "\"" + ":";
    assert Ascii(":") == [COLON];
  }

  // ---- Payloads ------------------------------------------------------------------------

  function Named(key: string, text: string): string {
    "\"" + key + "\":" + text
  }

  /** Keys and the texts of their values. */
  type Texts = seq<(string, string)>

  function Joined(ts: Texts): string {
    if ts == [] then ""
    else Named(ts[0].0, ts[0].1) + (if |ts| == 1 then "" else "," + Joined(ts[1..]))
  }

  predicate Prints(fs: Fields, ts: Texts) {
    |fs| == |ts| && forall k :: 0 <= k < |fs| ==>
      Plain(ts[k].0) && fs[k].0 == Ascii(ts[k].0) && PrintField(fs[k].1) == Ascii(ts[k].1)
  }

  lemma {:induction false} FieldsText(fs: Fields, ts: Texts)
    requires Prints(fs, ts)
    ensures PrintFields(fs) == Ascii(Joined(ts))
    decreases |fs|
  {
    hide PrintField, PrintMember, Ascii, Plain;
    EmptyText();
    if fs != [] {
      var head := Named(ts[0].0, ts[0].1);
      MemberText(ts[0].0, PrintField(fs[0].1), ts[0].1);
      if |fs| > 1 {
        FieldsText(fs[1..], ts[1..]);
        AsciiAppend(",", Joined(ts[1..]));
        AsciiAppend(head, "," + Joined(ts[1..]));
        CommaText();
      } else {
        assert fs[1..] == [] && head + "" == head;
        assert PrintMember(fs[0].0, PrintField(fs[0].1)) + [] == PrintMember(fs[0].0, PrintField(fs[0].1));
      }
    }
  }

  lemma EmptyText()
    ensures Ascii("") == []
  {
  }

  lemma CommaText()
    ensures Ascii(",") == [COMMA]
  {
  }

  /** The whole envelope as it is recorded. */
  function Text(command: string, cmdId: string, payload: string): string {
    var rest := Named("payload", "{" + payload + "}") + "}";
    "{" + (Named("command", command) + ("," + (Named("cmdId", cmdId) + ("," + rest))))
  }

  lemma OneKey(key: bytes, name: string, token: bytes, text: string)
    requires Plain(name) && key == Ascii(name) && token == Ascii(text)
    ensures PrintMember(key, token) == Ascii(Named(name, text))
  {
    MemberText(name, token, text);
    hide PrintMember, Ascii;
  }

  lemma EnvelopeText(command: nat, cmdId: uint64, fs: Fields, c: string, id: string, ts: Texts)
    requires Decimal(command) == Ascii(c) && Decimal(cmdId) == Ascii(id) && Prints(fs, ts)
    ensures JsonPrint.Envelope(command, Some(cmdId), fs) == Ascii(Text(c, id, Joined(ts)))
  {
    hide *;
    var p := "{" + Joined(ts) + "}";
    FieldsText(fs, ts);
    PayloadText(fs, Joined(ts));
    CommandText(Decimal(command), c);
    CmdIdText(Decimal(cmdId), id);
    PayloadKeyText(PrintPayload(fs), p);
    EnvelopeShape(command, cmdId, fs);
    Nested(Named("command", c), Named("cmdId", id), Named("payload", p));
    TextShape(c, id, Joined(ts));
  }

  lemma CommandText(token: bytes, text: string)
    requires token == Ascii(text)
    ensures PrintMember(COMMAND_KEY, token) == Ascii(Named("command", text))
  {
    KeysSpelled();
    hide Ascii, PrintMember;
    OneKey(COMMAND_KEY, "command", token, text);
  }

  lemma CmdIdText(token: bytes, text: string)
    requires token == Ascii(text)
    ensures PrintMember(CMD_ID_KEY, token) == Ascii(Named("cmdId", text))
  {
    KeysSpelled();
    hide Ascii, PrintMember;
    OneKey(CMD_ID_KEY, "cmdId", token, text);
  }

  lemma PayloadKeyText(token: bytes, text: string)
    requires token == Ascii(text)
    ensures PrintMember(PAYLOAD_KEY, token) == Ascii(Named("payload", text))
  {
    KeysSpelled();
    hide Ascii, PrintMember;
    OneKey(PAYLOAD_KEY, "payload", token, text);
  }

  lemma PayloadText(fs: Fields, joined: string)
    requires PrintFields(fs) == Ascii(joined)
    ensures PrintPayload(fs) == Ascii("{" + joined + "}")
  {
    BracesText();
    hide Ascii, PrintFields;
    AsciiAppend("{" + joined, "}");
    AsciiAppend("{", joined);
    assert [OPEN_BRACE] + PrintFields(fs) + [CLOSE_BRACE] == PrintPayload(fs);
  }

  lemma TextShape(c: string, id: string, payload: string)
    ensures Text(c, id, payload)
         == "{" + (Named("command", c)
                   + ("," + (Named("cmdId", id) + ("," + (Named("payload", "{" + payload + "}") + "}")))))
  {
    hide Named;
  }

  lemma Nested(a: string, b: string, c: string)
    ensures Ascii("{" + (a + ("," + (b + ("," + (c + "}"))))))
         == [OPEN_BRACE] + (Ascii(a) + ([COMMA] + (Ascii(b) + ([COMMA] + (Ascii(c) + [CLOSE_BRACE])))))
  {
    BracesText();
    hide Ascii;
    var r3 := c + "}";
    AsciiAppend(c, "}");
    AsciiAppend(",", r3);
    var r2 := b + ("," + r3);
    AsciiAppend(b, "," + r3);
    AsciiAppend(",", r2);
    AsciiAppend(a, "," + r2);
    AsciiAppend("{", a + ("," + r2));
  }

  lemma EnvelopeShape(command: nat, cmdId: uint64, fs: Fields)
    ensures var m1, m2 := PrintMember(COMMAND_KEY, Decimal(command)), PrintMember(CMD_ID_KEY, Decimal(cmdId));
            var m3 := PrintMember(PAYLOAD_KEY, PrintPayload(fs));
            JsonPrint.Envelope(command, Some(cmdId), fs)
            == [OPEN_BRACE] + (m1 + ([COMMA] + (m2 + ([COMMA] + (m3 + [CLOSE_BRACE])))))
  {
    hide PrintMember, Decimal, PrintPayload;
    var m2, rest := PrintMember(CMD_ID_KEY, Decimal(cmdId)),
                    [COMMA] + (PrintMember(PAYLOAD_KEY, PrintPayload(fs)) + [CLOSE_BRACE]);
    assert [COMMA] + m2 + rest == [COMMA] + (m2 + rest);
  }

  lemma BracesText()
    ensures Ascii("{") == [OPEN_BRACE] && Ascii("}") == [CLOSE_BRACE] && Ascii(",") == [COMMA]
  {
  }

  lemma KeysSpelled()
    ensures Ascii("command") == COMMAND_KEY && Ascii("cmdId") == CMD_ID_KEY && Ascii("payload") == PAYLOAD_KEY
    ensures Ascii("externalId") == EXTERNAL_ID_KEY
  {
  }

  // ---- Recorded requests -----------------------------------------------------------------

  /** The codes of the commands that are answered, and the three that are not. */
  lemma CommandCodes(command: nat)
    ensures KindOf(command) == Some(H.ChannelInvoke) <==> command == 513
    ensures KindOf(command) == Some(H.AdapterActionInvoke) <==> command == 514
    ensures KindOf(command) == Some(H.DeviceNameUpdate) <==> command == 515
    ensures KindOf(command) == Some(H.DeviceEffectInvoke) <==> command == 516
    ensures KindOf(command) == Some(H.SceneInvoke) <==> command == 517
    ensures KindOf(command) == Some(H.StreamStart) <==> command == 518
    ensures KindOf(command) == Some(H.StreamStop) <==> command == 519
    ensures KindOf(command).None? <==> command == 257 || command == 258 || command == 259
  {
  }

  function Str(key: string, value: string): (bytes, Field) {
    (Ascii(key), One(JsonPrint.Text(Ascii(value))))
  }

  lemma StrPrints(value: string)
    requires Plain(value)
    ensures PrintField(One(JsonPrint.Text(Ascii(value)))) == Ascii("\"" + value + "\"")
  {
    PlainQuoted(value);
    hide Quoted, Ascii;
  }

  /** A recorded request, read as a frame of class 3, is the command, target and id it records. */
  lemma RecordedRequest(command: nat, cmdId: uint64, correlationId: nat, fs: Fields, c: string, id: string, ts: Texts)
    requires Decimal(command) == Ascii(c) && Decimal(cmdId) == Ascii(id) && Prints(fs, ts)
    requires 256 <= command < 4096 && correlationId < Frame.Bound(8) && Envelope.DistinctFields(fs)
    requires |Text(c, id, Joined(ts))| <= 1_000_000
    ensures ToHost(DecodeRequest(3, correlationId, Ascii(Text(c, id, Joined(ts)))))
         == match KindOf(command) case None => None case Some(kind) => Some(H.Req(kind, Target(fs), cmdId))
  {
    hide JsonPrint.Envelope, Decimal, Prints, Target, DecodeRequest, ToHost, KindOf, Text, Joined;
    EnvelopeText(command, cmdId, fs, c, id, ts);
    RequestReachesHost(Command(command, Some(cmdId), correlationId, fs));
  }

  lemma ShortDecimals()
    ensures Decimal(11) == Ascii("11") && Decimal(75) == Ascii("75") && Decimal(513) == Ascii("513")
  {
    assert Digits(51) == [0x35, 0x31];
  }

  lemma AsciiLength(a: string, b: string)
    ensures |Ascii(a)| == |a| && (|a| != |b| ==> Ascii(a) != Ascii(b))
  {
  }

  const INVOKE_TEXTS: Texts :=
    [("channelExternalId", "\"ch-2\""), ("deviceExternalId", "\"dev-9\""), ("externalId", "\"inst-1\""),
     ("value", "75")]

  function InvokeFields(): Fields {
    [Str("channelExternalId", "ch-2"), Str("deviceExternalId", "dev-9"), Str("externalId", "inst-1"),
     (Ascii("value"), One(Int(75)))]
  }

  lemma InvokeKeysPlain()
    ensures Plain("channelExternalId") && Plain("deviceExternalId") && Plain("externalId") && Plain("value")
    ensures Plain("ch-2") && Plain("dev-9") && Plain("inst-1")
  {
  }

  lemma IntPrints()
    ensures PrintField(One(Int(75))) == Ascii("75")
  {
    ShortDecimals();
    hide Decimal, Ascii;
  }

  lemma InvokePrints()
    ensures Prints(InvokeFields(), INVOKE_TEXTS)
  {
    InvokeKeysPlain();
    IntPrints();
    hide Ascii, Plain, PrintField;
    StrPrints("ch-2");
    StrPrints("dev-9");
    StrPrints("inst-1");
    var fs, ts := InvokeFields(), INVOKE_TEXTS;
    assert ts[0].1 == "\"" + "ch-2" + "\"" && ts[1].1 == "\"" + "dev-9" + "\"" && ts[2].1 == "\"" + "inst-1" + "\"";
  }

  lemma InvokeKeys()
    ensures Envelope.DistinctFields(InvokeFields()) && Target(InvokeFields()) == Ascii("inst-1")
  {
    KeysSpelled();
    AsciiLength("channelExternalId", "deviceExternalId");
    AsciiLength("channelExternalId", "externalId");
    AsciiLength("deviceExternalId", "externalId");
    AsciiLength("channelExternalId", "value");
    AsciiLength("deviceExternalId", "value");
    AsciiLength("externalId", "value");
    hide Ascii;
    var fs := InvokeFields();
    assert fs[1..][1..][0] == fs[2] && fs[1..][0] == fs[1];
  }

  lemma {:induction false} JoinedLength(ts: Texts)
    requires forall k :: 0 <= k < |ts| ==> |ts[k].0| <= 100 && |ts[k].1| <= 100
    ensures |Joined(ts)| <= 204 * |ts|
    decreases |ts|
  {
    if ts != [] {
      JoinedLength(ts[1..]);
    }
  }

  /** A channel invocation as the core sends it. */
  lemma ChannelInvoke(correlationId: nat)
    requires correlationId < Frame.Bound(8)
    ensures ToHost(DecodeRequest(3, correlationId, Ascii(Text("513", "11", Joined(INVOKE_TEXTS)))))
         == Some(H.Req(H.ChannelInvoke, Ascii("inst-1"), 11))
  {
    InvokePrints();
    InvokeKeys();
    JoinedLength(INVOKE_TEXTS);
    ShortDecimals();
    hide Prints, Envelope.DistinctFields, Target, Joined, InvokeFields, Ascii, DecodeRequest, ToHost, Decimal;
    CommandCodes(513);
    hide KindOf;
    RecordedRequest(513, 11, correlationId, InvokeFields(), "513", "11", INVOKE_TEXTS);
  }

  // ---- A log configuration -------------------------------------------------------------------

  function Names(names: seq<string>): seq<Scalar> {
    seq(|names|, k requires 0 <= k < |names| => JsonPrint.Text(Ascii(names[k])))
  }

  function LoggingPairs(level: string, categories: seq<string>): Envelope.Pairs {
    [(Ascii("categories"), Envelope.FieldJson(Many(Names(categories)))),
     (Ascii("minLevel"), Envelope.FieldJson(One(JsonPrint.Text(Ascii(level)))))]
  }

  function MetaPairs(level: string, categories: seq<string>): Envelope.Pairs {
    [(Ascii("logging"), Envelope.ObjectJson(LoggingPairs(level, categories)))]
  }

  /** `{"logging":{"categories":[...],"minLevel":...}}` */
  function MetaText(level: string, categories: seq<string>): bytes {
    G.Render(Envelope.ObjectJson(MetaPairs(level, categories)))
  }

  lemma LoggingReads(level: string, categories: seq<string>)
    ensures var ps := LoggingPairs(level, categories);
            var tokens := [(ps[0].0, PrintList(Names(categories))), (ps[1].0, Quoted(Ascii(level)))];
            && Envelope.ValidPairs(ps) && G.Valid(Envelope.ObjectJson(ps))
            && JsonMembers.ParseObject(G.Render(Envelope.ObjectJson(ps))) == Some(tokens)
            && G.Render(Envelope.ObjectJson(ps)) != []
  {
    var ps := LoggingPairs(level, categories);
    AsciiLength("categories", "minLevel");
    hide Ascii, Quoted, Names, G.Valid, G.Render, Envelope.ObjectJson, JsonMembers.ParseObject, Envelope.FieldJson;
    Envelope.FieldJsonRender(Many(Names(categories)));
    Envelope.FieldJsonRender(One(JsonPrint.Text(Ascii(level))));
    Envelope.ObjectRoundTrip(ps);
    G.ValidIsLoose(Envelope.ObjectJson(ps));
    G.ValueHead(Envelope.ObjectJson(ps));
    TwoTokens(ps);
    TextField(Ascii(level));
  }

  lemma TwoTokens(ps: Envelope.Pairs)
    requires |ps| == 2
    ensures Envelope.PairTokens(ps) == [(ps[0].0, G.Render(ps[0].1)), (ps[1].0, G.Render(ps[1].1))]
  {
    hide G.Render;
  }

  lemma TextField(s: bytes)
    ensures PrintField(One(JsonPrint.Text(s))) == Quoted(s)
  {
  }

  lemma MetaReads(level: string, categories: seq<string>)
    ensures var logging := G.Render(Envelope.ObjectJson(LoggingPairs(level, categories)));
            var meta := MetaText(level, categories);
            && JsonMembers.ParseObject(meta) == Some([(Ascii("logging"), logging)])
            && Trim(meta) == meta != []
  {
    LoggingReads(level, categories);
    var ps := MetaPairs(level, categories);
    hide Ascii, LoggingPairs, G.Valid, G.Render, G.Loose, Envelope.ObjectJson, JsonMembers.ParseObject, Trim;
    Envelope.ObjectRoundTrip(ps);
    G.ValidIsLoose(Envelope.ObjectJson(ps));
    G.ValueHead(Envelope.ObjectJson(ps));
    Envelope.TrimValue(Envelope.ObjectJson(ps));
    OneToken(ps);
  }

  lemma OneToken(ps: Envelope.Pairs)
    requires |ps| == 1
    ensures Envelope.PairTokens(ps) == [(ps[0].0, G.Render(ps[0].1))]
  {
    hide G.Render;
  }

  /** The list's tokens are the quoted names, in order. */
  lemma ListReads(names: seq<string>) returns (tokens: seq<bytes>)
    ensures Envelope.ParseArray(PrintList(Names(names))) == Some(tokens) && |tokens| == |names|
    ensures forall k :: 0 <= k < |names| ==>
              tokens[k] == Quoted(Ascii(names[k])) && L.TextOr(tokens[k]) == Ascii(names[k])
    ensures PrintList(Names(names)) != []
  {
    var vs := Names(names);
    Envelope.FieldJsonRender(Many(vs));
    G.ValidIsLoose(Envelope.FieldJson(Many(vs)));
    Envelope.ParseArrayExact(Envelope.FieldJson(Many(vs)));
    tokens := [];
    if vs != [] {
      Envelope.ItemsJsonRender(vs);
      tokens := Envelope.ItemTokens(Envelope.ItemsJson(vs));
    }
    hide Ascii, Envelope.ItemTokens, Envelope.ItemsJson, Envelope.ParseArray, G.Render, G.Loose, G.Valid;
    forall k | 0 <= k < |names|
      ensures tokens[k] == Quoted(Ascii(names[k])) && L.TextOr(tokens[k]) == Ascii(names[k])
    {
      assert vs[k] == JsonPrint.Text(Ascii(names[k]));
      QuotedText(Ascii(names[k]));
    }
  }

  lemma QuotedText(s: bytes)
    ensures PrintScalar(JsonPrint.Text(s)) == Quoted(s) != [] && L.TextOr(Quoted(s)) == s
  {
    QuotedRoundTrip(s);
    hide DecodeString;
  }

  /** A metadata text that names a level and categories is read as that level and those names. */
  lemma ConfigReads(level: string, number: byte, categories: seq<string>)
    requires (level, number) in L.LEVEL_NAMES
    ensures var r := L.Read(MetaText(level, categories));
            && r.minLevel == number
            && r.items.Some? && |r.items.value| == |categories|
            && forall k :: 0 <= k < |categories| ==> L.TextOr(r.items.value[k]) == Ascii(categories[k])
  {
    MetaReads(level, categories);
    LoggingReads(level, categories);
    var tokens := ListReads(categories);
    QuotedText(Ascii(level));
    LevelTrims(level, number);
    L.LevelByName(Ascii(level), level, number);
    LookupOne(Ascii("logging"), G.Render(Envelope.ObjectJson(LoggingPairs(level, categories))));
    AsciiLength("categories", "minLevel");
    LookupTwo(Ascii("categories"), PrintList(Names(categories)), Ascii("minLevel"), Quoted(Ascii(level)));
    hide Ascii, MetaText, Trim, Names, PrintList, Quoted, G.Render, Envelope.ObjectJson, JsonMembers.Lookup;
    hide JsonMembers.ParseObject, L.TextOr, L.LevelOf, Envelope.ParseArray, L.LEVEL_NAMES;
  }

  lemma LookupOne(key: bytes, v: bytes)
    ensures JsonMembers.Lookup([(key, v)], key) == v
  {
  }

  lemma LookupTwo(a: bytes, v: bytes, b: bytes, w: bytes)
    requires a != b
    ensures JsonMembers.Lookup([(a, v), (b, w)], a) == v && JsonMembers.Lookup([(a, v), (b, w)], b) == w
  {
    assert [(a, v), (b, w)][1..] == [(b, w)];
  }

  lemma LevelTrims(level: string, number: byte)
    requires (level, number) in L.LEVEL_NAMES
    ensures L.Lower(Trim(Ascii(level))) == Ascii(level)
  {
    TrimSolid(Ascii(level));
    hide Trim;
  }

  /** A category's name in the list allows it; `all` allows every one. */
  lemma NamesAllow(name: string, category: byte)
    requires (name, category) in L.CATEGORY_NAMES
    ensures L.NamesCategory(Quoted(Ascii(name)), category) && !L.NamesAll(Quoted(Ascii(name)))
  {
    QuotedText(Ascii(name));
    CategoryNormal(name, category);
    L.CategoryByName(Ascii(name), name, category);
    hide Ascii, Quoted, L.TextOr, L.CategoryOf, L.NormalizeCategory, L.CATEGORY_NAMES;
  }

  lemma AllAllows()
    ensures L.NamesAll(Quoted(Ascii("all")))
  {
    QuotedText(Ascii("all"));
    LowerNormal("all");
    hide Quoted, L.TextOr, L.NormalizeCategory;
  }

  lemma CategoryNormal(name: string, category: byte)
    requires (name, category) in L.CATEGORY_NAMES
    ensures L.NormalizeCategory(Ascii(name)) == Ascii(name) != [] && Ascii(name) != Ascii("all")
  {
    assert forall k :: 0 <= k < |name| ==> 'a' <= name[k] <= 'z';
    assert name != "" && (|name| == 3 ==> false);
    hide L.CATEGORY_NAMES;
    LowerNormal(name);
    AsciiLength(name, "all");
  }

  lemma LowerNormal(name: string)
    requires name != "" && forall k :: 0 <= k < |name| ==> 'a' <= name[k] <= 'z'
    ensures L.NormalizeCategory(Ascii(name)) == Ascii(name)
  {
    var t := Ascii(name);
    TrimSolid(t);
    hide Trim;
    assert L.Lower(t) == t;
    L.SeparatorsAreFree(t, [], 0);
  }
}
