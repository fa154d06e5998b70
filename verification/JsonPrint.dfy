// The printers behind every outbound frame, and the token parsers that read the
// same forms back.

module JsonPrint {
  import opened Wrappers
  import opened Bytes
  import opened JsonScan
  import opened JsonString
  import opened JsonNumber
  import G = JsonGrammar

  type int64 = x: int | -0x8000_0000_0000_0000 <= x < 0x8000_0000_0000_0000
  type uint64 = x: int | 0 <= x < 0x1_0000_0000_0000_0000

  // A scalar value of the protocol.
  datatype Scalar = Nothing | Bool(b: bool) | Int(i: int64) | Real(d: double) | Text(s: bytes)

  // ---- Decimal numbers -------------------------------------------------------------

  function ParseInt64(token: bytes): (r: Option<int>)
    ensures r.Some? ==> -0x8000_0000_0000_0000 <= r.value < 0x8000_0000_0000_0000
  {
    var t := Trim(token);
    var minus := Has(t, 0, MINUS);
    var v := DigitsValue(if minus then t[1..] else t);
    if v.None? then None
    else
      var n: int := if minus then -(v.value as int) else v.value;
      if -0x8000_0000_0000_0000 <= n < 0x8000_0000_0000_0000 then Some(n) else None
  }

  function ParseUInt64(token: bytes): (r: Option<nat>)
    ensures r.Some? ==> r.value < 0x1_0000_0000_0000_0000
  {
    var v := DigitsValue(Trim(token));
    if v.Some? && v.value < 0x1_0000_0000_0000_0000 then v else None
  }

  lemma TrimDecimal(n: int)
    ensures Trim(Decimal(n)) == Decimal(n)
  {
    DigitsValueOfDigits(Magnitude(n));
    var t := Decimal(n);
    assert SkipWs(t, 0) == 0;
    assert !IsWs(t[|t| - 1]);
  }

  /** A printed number reads back as itself. */
  lemma DecimalRoundTrip(n: int64)
    ensures ParseInt64(Decimal(n)) == Some(n)
    ensures n >= 0 ==> ParseUInt64(Decimal(n)) == Some(n)
  {
    TrimDecimal(n);
    DigitsValueOfDigits(Magnitude(n));
    hide Trim, Digits, DigitsValue;
    var m := Magnitude(n);
    if n < 0 {
      assert Decimal(n)[1..] == Digits(m);
    } else {
      assert Decimal(n) == Digits(m) && Digits(m)[0] != MINUS;
    }
  }

  lemma UnsignedRoundTrip(n: uint64)
    ensures ParseUInt64(Decimal(n)) == Some(n)
  {
    TrimDecimal(n);
    DigitsValueOfDigits(n);
  }

  // ---- Scalars -----------------------------------------------------------------------

  function PrintScalar(v: Scalar): bytes {
    match v
    case Nothing => NULL
    case Bool(b) => if b then TRUE else FALSE
    case Int(i) => Decimal(i)
    case Real(d) => PrintDouble(d)
    case Text(s) => Quoted(s)
  }

  // A token that looks like a floating-point number is left to the library.
  datatype Parsed = Value(v: Scalar) | Floating(token: bytes) | Failed

  predicate LooksFloating(t: bytes) {
    DOT in t || LOWER_E in t || UPPER_E in t
  }

  function ParseScalar(token: bytes): Parsed {
    var t := Trim(token);
    if t == [] then Failed
    else if t[0] == QUOTE then
      match DecodeString(t) case None => Failed case Some(s) => Value(Text(s))
    else if t == TRUE then Value(Bool(true))
    else if t == FALSE then Value(Bool(false))
    else if t == NULL then Value(Nothing)
    else if LooksFloating(t) then Floating(t)
    else match ParseInt64(t) case None => Failed case Some(i) => Value(Int(i))
  }

  /** What a printed scalar reads back as; only a double may change its kind. */
  function ReadsAs(v: Scalar): Parsed {
    if !v.Real? then Value(v)
    else if v.d.NotFinite? then Value(Nothing)
    else if Whole(v.d) then WholeFits(v.d); Value(Int(WholeValue(v.d)))
    else Floating(PrintDouble(v.d))
  }

  /**
   * A printed scalar reads back as the same scalar, unless it is a double: one that
   * prints without point and exponent reads back as the integer of its value, one that
   * is not finite as nothing, and any other as a floating-point token.
   */
  lemma ScalarRoundTrip(v: Scalar)
    ensures ParseScalar(PrintScalar(v)) == ReadsAs(v)
  {
    match v
    case Int(i) => IntRoundTrip(i);
    case Text(s) => TextRoundTrip(s);
    case Real(d) => RealRoundTrip(d);
    case _ => TrimSolid(PrintScalar(v));
  }

  lemma RealRoundTrip(d: double)
    ensures ParseScalar(PrintDouble(d)) == ReadsAs(Real(d))
  {
    hide Trim, DecodeString, ParseInt64, Ends;
    if d.NotFinite? {
      TrimSolid(NULL);
    } else {
      hide PrintDouble;
      DoubleEnds(d);
      EndsToken(PrintDouble(d));
      if Whole(d) {
        WholeReads(d);
      }
    }
  }

  lemma EndsToken(t: bytes)
    requires Ends(t)
    ensures t != [] && Trim(t) == t && t[0] != QUOTE && t != TRUE && t != FALSE && t != NULL
  {
    TrimSolid(t);
  }

  lemma WholeReads(d: double)
    requires Whole(d)
    ensures !LooksFloating(PrintDouble(d)) && ParseInt64(PrintDouble(d)) == Some(WholeValue(d))
  {
    var digits := WholeText(d);
    DoubleEnds(d);
    hide PrintDouble, WholeValue, Whole, G.AllDigits;
    EndsToken(PrintDouble(d));
    SignedReads(d.minus, digits);
    hide Sign, ParseInt64;
  }

  lemma SignedReads(minus: bool, digits: bytes)
    requires digits != [] && G.AllDigits(digits) && DigitsValue(digits).Some?
    requires var t := Sign(minus) + digits; Trim(t) == t
    ensures var t := Sign(minus) + digits; var n := DigitsValue(digits).value;
            && !LooksFloating(t)
            && (n < 0x8000_0000_0000_0000 ==> ParseInt64(t) == Some(if minus then -(n as int) else n))
  {
    hide DigitsValue, Trim;
    var t := Sign(minus) + digits;
    NoPoint(minus, digits);
    if minus {
      assert t[1..] == digits;
    } else {
      assert t == digits && t[0] != MINUS;
    }
  }

  lemma NoPoint(minus: bool, digits: bytes)
    requires G.AllDigits(digits)
    ensures !LooksFloating(Sign(minus) + digits)
  {
  }

  lemma IntRoundTrip(i: int64)
    ensures ParseScalar(Decimal(i)) == Value(Int(i))
  {
    var d := Decimal(i);
    TrimDecimal(i);
    DecimalRoundTrip(i);
    DecimalChars(i);
    hide Decimal, ParseInt64, DecodeString, Trim;
    assert d[0] == MINUS || IsDigit(d[0]);
  }

  lemma DecimalChars(n: int)
    ensures Decimal(n) != []
    ensures forall k :: 0 <= k < |Decimal(n)| ==> Decimal(n)[k] == MINUS || IsDigit(Decimal(n)[k])
  {
    DigitsValueOfDigits(Magnitude(n));
  }

  lemma TextRoundTrip(s: bytes)
    ensures ParseScalar(Quoted(s)) == Value(Text(s))
  {
    assert Quoted(s)[|Quoted(s)| - 1] == QUOTE;
    TrimToken(Quoted(s));
    QuotedRoundTrip(s);
    hide DecodeString, Trim, ParseInt64;
  }

  // ---- Lists, fields and the envelope ----------------------------------------------------

  // A payload field is a scalar or a list of scalars.
  datatype Field = One(v: Scalar) | Many(vs: seq<Scalar>)

  function PrintItems(vs: seq<Scalar>): bytes
    requires vs != []
  {
    if |vs| == 1 then PrintScalar(vs[0])
    else PrintScalar(vs[0]) + ([COMMA] + PrintItems(vs[1..]))
  }

  function PrintList(vs: seq<Scalar>): bytes {
    [OPEN_BRACKET] + ((if vs == [] then [] else PrintItems(vs)) + [CLOSE_BRACKET])
  }

  function PrintField(f: Field): bytes {
    match f case One(v) => PrintScalar(v) case Many(vs) => PrintList(vs)
  }

  type Fields = seq<(bytes, Field)>

  function PrintMember(key: bytes, token: bytes): bytes {
    Quoted(key) + ([COLON] + token)
  }

  function PrintFields(fs: Fields): bytes
    decreases |fs|, 0
  {
    if fs == [] then []
    else PrintMember(fs[0].0, PrintField(fs[0].1)) + PrintRest(fs[1..])
  }

  function PrintRest(fs: Fields): bytes
    decreases |fs|, 1
  {
    if fs == [] then [] else [COMMA] + PrintFields(fs)
  }

  function PrintPayload(fs: Fields): bytes {
    [OPEN_BRACE] + (PrintFields(fs) + [CLOSE_BRACE])
  }

  const COMMAND_KEY: bytes := [0x63, 0x6F, 0x6D, 0x6D, 0x61, 0x6E, 0x64]
  const CMD_ID_KEY: bytes := [0x63, 0x6D, 0x64, 0x49, 0x64]
  const PAYLOAD_KEY: bytes := [0x70, 0x61, 0x79, 0x6C, 0x6F, 0x61, 0x64]

  /** `{"command":N[,"cmdId":N],"payload":{...}}` */
  function Envelope(command: nat, cmdId: Option<uint64>, fs: Fields): bytes {
    [OPEN_BRACE]
    + (PrintMember(COMMAND_KEY, Decimal(command))
       + ((if cmdId.Some? then [COMMA] + PrintMember(CMD_ID_KEY, Decimal(cmdId.value)) else [])
          + ([COMMA] + (PrintMember(PAYLOAD_KEY, PrintPayload(fs)) + [CLOSE_BRACE]))))
  }

  // ---- The appending printers --------------------------------------------------------------

  method AppendScalarJson(out: bytes, value: Scalar) returns (result: bytes)
    ensures result == out + PrintScalar(value)
  {
    match value
    case Nothing => result := out + NULL;
    case Bool(b) => result := out + (if b then TRUE else FALSE);
    case Int(i) => result := out + Decimal(i);
    case Real(d) => result := out + PrintDouble(d);
    case Text(s) =>
      var quoted := JsonQuoted(s);
      result := out + quoted;
  }

  lemma {:induction false} PrintItemsSnoc(vs: seq<Scalar>, v: Scalar)
    ensures PrintItems(vs + [v]) == (if vs == [] then [] else PrintItems(vs) + [COMMA]) + PrintScalar(v)
  {
    var all := vs + [v];
    if vs != [] {
      assert all[1..] == vs[1..] + [v];
      PrintItemsSnoc(vs[1..], v);
    }
  }

  method AppendScalarListJson(out: bytes, values: seq<Scalar>) returns (result: bytes)
    ensures result == out + PrintList(values)
  {
    hide PrintScalar, PrintItems;
    result := out + [OPEN_BRACKET];
    var first := true;
    for i := 0 to |values|
      invariant first == (i == 0)
      invariant result == out + ([OPEN_BRACKET] + if i == 0 then [] else PrintItems(values[..i]))
    {
      PrintItemsSnoc(values[..i], values[i]);
      assert values[..i + 1] == values[..i] + [values[i]];
      if !first {
        result := result + [COMMA];
      }
      first := false;
      result := AppendScalarJson(result, values[i]);
    }
    assert values[..|values|] == values;
    result := result + [CLOSE_BRACKET];
  }

  /** Separator and quoted key; tells the caller that a field has been written. */
  method AppendFieldPrefix(out: bytes, first: bool, key: bytes) returns (result: bytes, nowFirst: bool)
    ensures result == out + ((if first then [] else [COMMA]) + (Quoted(key) + [COLON])) && !nowFirst
  {
    result := out;
    if !first {
      result := result + [COMMA];
    }
    var quoted := JsonQuoted(key);
    result := result + quoted;
    result := result + [COLON];
    nowFirst := false;
  }

  // ---- Building an envelope ---------------------------------------------------------------------

  const OPEN_COMMAND: bytes := [OPEN_BRACE, QUOTE] + COMMAND_KEY + [QUOTE, COLON]
  const NEXT_CMD_ID: bytes := [COMMA, QUOTE] + CMD_ID_KEY + [QUOTE, COLON]
  const NEXT_PAYLOAD: bytes := [COMMA, QUOTE] + PAYLOAD_KEY + [QUOTE, COLON, OPEN_BRACE]

  /** Everything up to the first payload field. */
  function Opening(command: nat, cmdId: Option<uint64>): bytes {
    OPEN_COMMAND + Decimal(command) + (if cmdId.Some? then NEXT_CMD_ID + Decimal(cmdId.value) else []) + NEXT_PAYLOAD
  }

  method OpenEnvelope(out: bytes, command: nat) returns (result: bytes, payloadFirst: bool)
    ensures result == out + Opening(command, None) && payloadFirst
  {
    result := out + OPEN_COMMAND;
    result := result + Decimal(command);
    result := result + NEXT_PAYLOAD;
    payloadFirst := true;
    assert result == out + (OPEN_COMMAND + Decimal(command) + [] + NEXT_PAYLOAD);
  }

  method OpenEnvelopeWithCmdId(out: bytes, command: nat, cmdId: uint64) returns (result: bytes, payloadFirst: bool)
    ensures result == out + Opening(command, Some(cmdId)) && payloadFirst
  {
    result := out + OPEN_COMMAND;
    result := result + Decimal(command);
    result := result + NEXT_CMD_ID;
    result := result + Decimal(cmdId);
    result := result + NEXT_PAYLOAD;
    payloadFirst := true;
    assert result == out + (OPEN_COMMAND + Decimal(command) + (NEXT_CMD_ID + Decimal(cmdId)) + NEXT_PAYLOAD);
  }

  method CloseEnvelope(out: bytes) returns (result: bytes)
    ensures result == out + [CLOSE_BRACE, CLOSE_BRACE]
  {
    result := out + [CLOSE_BRACE, CLOSE_BRACE];
  }

  method AppendField(out: bytes, first: bool, key: bytes, f: Field) returns (result: bytes, nowFirst: bool)
    ensures result == out + ((if first then [] else [COMMA]) + PrintMember(key, PrintField(f))) && !nowFirst
  {
    hide Quoted, PrintScalar, PrintList;
    result, nowFirst := AppendFieldPrefix(out, first, key);
    match f
    case One(v) => result := AppendScalarJson(result, v);
    case Many(vs) => result := AppendScalarListJson(result, vs);
  }

  /** Opened, filled field by field and closed, the text is the envelope. */
  method BuildEnvelope(command: nat, cmdId: Option<uint64>, fs: Fields) returns (out: bytes)
    ensures out == Envelope(command, cmdId, fs)
  {
    hide PrintFields, PrintMember, PrintField, Opening, Decimal, Envelope;
    var first;
    if cmdId.Some? {
      out, first := OpenEnvelopeWithCmdId([], command, cmdId.value);
    } else {
      out, first := OpenEnvelope([], command);
    }
    ghost var opening := Opening(command, cmdId);
    NoFields(opening, fs);
    for i := 0 to |fs|
      invariant out == opening + PrintFields(fs[..i]) && first == (i == 0)
    {
      PrintFieldsSnoc(fs[..i], fs[i]);
      Associate(opening, PrintFields(fs[..i]),
                (if i == 0 then [] else [COMMA]) + PrintMember(fs[i].0, PrintField(fs[i].1)));
      assert fs[..i + 1] == fs[..i] + [fs[i]] && (fs[..i] == [] <==> i == 0);
      out, first := AppendField(out, first, fs[i].0, fs[i].1);
    }
    assert fs[..|fs|] == fs;
    out := CloseEnvelope(out);
    OpeningIsHead(command, cmdId, fs);
  }

  lemma NoFields(opening: bytes, fs: Fields)
    ensures opening + PrintFields(fs[..0]) == opening && [] + opening == opening
  {
  }

  lemma {:induction false} PrintFieldsSnoc(fs: Fields, f: (bytes, Field))
    ensures PrintFields(fs + [f])
         == PrintFields(fs) + ((if fs == [] then [] else [COMMA]) + PrintMember(f.0, PrintField(f.1)))
  {
    hide PrintMember, PrintField;
    var last := PrintMember(f.0, PrintField(f.1));
    if fs == [] {
      assert [f][1..] == [] && fs + [f] == [f];
      assert last + [] == last && [] + ([] + last) == last;
    } else {
      assert (fs + [f])[0] == fs[0] && (fs + [f])[1..] == fs[1..] + [f];
      PrintFieldsSnoc(fs[1..], f);
      var m := PrintMember(fs[0].0, PrintField(fs[0].1));
      Regroup(m, PrintFields(fs[1..]), last);
      if |fs| == 1 {
        assert fs[1..] == [] && PrintFields(fs[1..]) == [] && m + [] == m;
      }
    }
  }

  lemma Regroup(m: bytes, rest: bytes, last: bytes)
    ensures m + ([COMMA] + (rest + ([COMMA] + last))) == m + ([COMMA] + rest) + ([COMMA] + last)
    ensures m + ([COMMA] + ([] + ([] + last))) == m + ([COMMA] + last)
  {
  }

  predicate Plain(s: bytes) {
    forall k :: 0 <= k < |s| ==> 0x20 <= s[k] && s[k] != QUOTE && s[k] != BACKSLASH
  }

  lemma {:induction false} PlainKey(s: bytes)
    requires Plain(s)
    ensures EscapeAll(s) == s
  {
    if s != [] {
      PlainKey(s[1..]);
      assert s == [s[0]] + s[1..];
    }
  }

  lemma Associate(a: bytes, b: bytes, c: bytes)
    ensures a + b + c == a + (b + c)
  {
  }

  lemma QuotedPlain(s: bytes)
    requires Plain(s)
    ensures Quoted(s) == [QUOTE] + (s + [QUOTE])
  {
    PlainKey(s);
    hide EscapeAll;
  }

  lemma KeysPlain()
    ensures Plain(COMMAND_KEY) && Plain(CMD_ID_KEY) && Plain(PAYLOAD_KEY)
  {
  }

  lemma HeadPieces(c: bytes, n: bytes, p: bytes)
    ensures [OPEN_BRACE] + PrintMember(COMMAND_KEY, c) == OPEN_COMMAND + c
    ensures [COMMA] + PrintMember(CMD_ID_KEY, n) == NEXT_CMD_ID + n
    ensures [COMMA] + (PrintMember(PAYLOAD_KEY, [OPEN_BRACE] + (p + [CLOSE_BRACE])) + [CLOSE_BRACE])
         == NEXT_PAYLOAD + (p + [CLOSE_BRACE, CLOSE_BRACE])
  {
    KeysPlain();
    hide Quoted, Plain;
    QuotedPlain(COMMAND_KEY);
    QuotedPlain(CMD_ID_KEY);
    QuotedPlain(PAYLOAD_KEY);
  }

  lemma Rejoin(b: bytes, a: bytes, m: bytes, z: bytes, p: bytes, e: bytes)
    ensures b + (a + (m + (z + (p + e)))) == b + a + m + z + p + e
  {
  }

  lemma OpeningIsHead(command: nat, cmdId: Option<uint64>, fs: Fields)
    ensures Opening(command, cmdId) + PrintFields(fs) + [CLOSE_BRACE, CLOSE_BRACE] == Envelope(command, cmdId, fs)
  {
    hide Decimal, PrintFields, PrintMember;
    var c, p := Decimal(command), PrintFields(fs);
    var n := if cmdId.Some? then Decimal(cmdId.value) else [];
    HeadPieces(c, n, p);
    var middle := if cmdId.Some? then NEXT_CMD_ID + n else [];
    hide OPEN_COMMAND, NEXT_CMD_ID, NEXT_PAYLOAD;
    Rejoin([OPEN_BRACE], PrintMember(COMMAND_KEY, c), middle, NEXT_PAYLOAD, p, [CLOSE_BRACE, CLOSE_BRACE]);
  }
}
