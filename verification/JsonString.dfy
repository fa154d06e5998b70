// JSON strings: the escaping printer, the unescaping decoder, what a token
// denotes in code points, and how the three fit together.

module JsonString {
  import opened Wrappers
  import opened Bytes
  import opened JsonScan
  import Utf8

  const LOWER_U: byte := 0x75

  // ---- Escapes ------------------------------------------------------------------

  /** The byte a two-character escape stands for. */
  function SimpleEscape(e: byte): Option<byte> {
    match e
    case 0x22 => Some(0x22)  // quotation mark
    case 0x5C => Some(0x5C)  // reverse solidus
    case 0x2F => Some(0x2F)  // solidus
    case 0x62 => Some(0x08)  // backspace
    case 0x66 => Some(0x0C)  // form feed
    case 0x6E => Some(0x0A)  // line feed
    case 0x72 => Some(0x0D)  // carriage return
    case 0x74 => Some(0x09)  // tab
    case _ => None
  }

  function HexDigit(c: byte): (r: Option<nat>)
    ensures r.Some? ==> r.value < 16
  {
    if 0x30 <= c <= 0x39 then Some(c - 0x30)
    else if 0x61 <= c <= 0x66 then Some(c - 0x61 + 10)
    else if 0x41 <= c <= 0x46 then Some(c - 0x41 + 10)
    else None
  }

  predicate IsHex(c: byte) {
    HexDigit(c).Some?
  }

  /** The value of the four hexadecimal digits at `pos`. */
  function Hex4(t: bytes, pos: nat): (r: Option<nat>)
    ensures r.Some? ==> pos + 4 <= |t| && r.value < 0x10000
  {
    if pos + 4 <= |t| && IsHex(t[pos]) && IsHex(t[pos + 1]) && IsHex(t[pos + 2]) && IsHex(t[pos + 3]) then
      Some(((HexDigit(t[pos]).value * 16 + HexDigit(t[pos + 1]).value) * 16
            + HexDigit(t[pos + 2]).value) * 16 + HexDigit(t[pos + 3]).value)
    else None
  }

  predicate IsHigh(c: nat) { 0xD800 <= c <= 0xDBFF }

  predicate IsLow(c: nat) { 0xDC00 <= c <= 0xDFFF }

  /** Section 2.2 of RFC 2781. */
  function Combine(high: nat, low: nat): (cp: nat)
    requires IsHigh(high) && IsLow(low)
    ensures 0x10000 <= cp < 0x110000
  {
    0x10000 + (high - 0xD800) * 1024 + (low - 0xDC00)
  }

  datatype CodePoint = CodePoint(cp: nat, used: nat)

  /** The code point of the `\u` escape at the head of `s` and the bytes it takes. */
  function UnicodeEscape(s: bytes): (r: Option<CodePoint>)
    ensures r.Some? ==> Utf8.IsScalar(r.value.cp) && 6 <= r.value.used <= |s|
  {
    match Hex4(s, 2)
    case None => None
    case Some(c) =>
      if IsHigh(c) then
        if Has(s, 6, BACKSLASH) && Has(s, 7, LOWER_U) && Hex4(s, 8).Some? && IsLow(Hex4(s, 8).value) then
          Some(CodePoint(Combine(c, Hex4(s, 8).value), 12))
        else None
      else if IsLow(c) then None
      else Some(CodePoint(c, 6))
  }

  function Prepend(p: bytes, r: Option<bytes>): Option<bytes> {
    match r case None => None case Some(s) => Some(p + s)
  }

  lemma PrependTwice(a: bytes, b: bytes, r: Option<bytes>)
    ensures Prepend(a, Prepend(b, r)) == Prepend(a + b, r)
    ensures Prepend([], r) == r
  {
    if r.Some? {
      assert a + (b + r.value) == a + b + r.value;
      assert [] + r.value == r.value;
    }
  }

  /** Decodes the text between the quotes. */
  function DecodeBody(s: bytes): Option<bytes> {
    if s == [] then Some([])
    else if s[0] != BACKSLASH then Prepend([s[0]], DecodeBody(s[1..]))
    else if |s| == 1 then None
    else if s[1] == LOWER_U then
      match UnicodeEscape(s)
      case None => None
      case Some(x) => Prepend(Utf8.Encode(x.cp), DecodeBody(s[x.used..]))
    else
      match SimpleEscape(s[1])
      case None => None
      case Some(b) => Prepend([b], DecodeBody(s[2..]))
  }

  predicate IsStringToken(t: bytes) {
    |t| >= 2 && t[0] == QUOTE && t[|t| - 1] == QUOTE
  }

  function DecodeString(token: bytes): Option<bytes> {
    var t := Trim(token);
    if IsStringToken(t) then DecodeBody(t[1..|t| - 1]) else None
  }

  function EscapeByte(c: byte): bytes {
    match c
    case 0x22 => [BACKSLASH, 0x22]
    case 0x5C => [BACKSLASH, 0x5C]
    case 0x08 => [BACKSLASH, 0x62]
    case 0x0C => [BACKSLASH, 0x66]
    case 0x0A => [BACKSLASH, 0x6E]
    case 0x0D => [BACKSLASH, 0x72]
    case 0x09 => [BACKSLASH, 0x74]
    case _ =>
      if c < 0x20 then [BACKSLASH, LOWER_U, 0x30, 0x30, HexChar(c / 16), HexChar(c % 16)] else [c]
  }

  function HexChar(d: nat): (c: byte)
    requires d < 16
    ensures HexDigit(c) == Some(d)
  {
    if d < 10 then 0x30 + d else 0x61 + d - 10
  }

  function EscapeAll(s: bytes): bytes {
    if s == [] then [] else EscapeByte(s[0]) + EscapeAll(s[1..])
  }

  function Quoted(s: bytes): bytes {
    [QUOTE] + (EscapeAll(s) + [QUOTE])
  }

  // ---- What a token denotes -------------------------------------------------------

  // One character of a string token: an unescaped code point, a two-character
  // escape, or a `\u` escape with its four digits.
  datatype Item = Plain(cp: nat) | Simple(e: byte) | Unicode(h: bytes)

  predicate ValidItem(x: Item) {
    match x
    case Plain(cp) => Utf8.IsScalar(cp) && cp != BACKSLASH
    case Simple(e) => e != LOWER_U
    case Unicode(h) => |h| == 4 && Hex4(h, 0).Some?
  }

  predicate ValidItems(items: seq<Item>) {
    forall k :: 0 <= k < |items| ==> ValidItem(items[k])
  }

  function RenderItem(x: Item): bytes
    requires ValidItem(x)
  {
    match x
    case Plain(cp) => Utf8.Encode(cp)
    case Simple(e) => [BACKSLASH, e]
    case Unicode(h) => [BACKSLASH, LOWER_U] + h
  }

  function RenderItems(items: seq<Item>): bytes
    requires ValidItems(items)
  {
    if items == [] then [] else RenderItem(items[0]) + RenderItems(items[1..])
  }

  function Cons(cp: nat, r: Option<seq<nat>>): Option<seq<nat>> {
    match r case None => None case Some(s) => Some([cp] + s)
  }

  /** Length of the head character in items: a surrogate pair takes two. */
  function Head(items: seq<Item>): (r: Option<CodePoint>)
    requires ValidItems(items) && items != []
    ensures r.Some? ==> Utf8.IsScalar(r.value.cp) && 1 <= r.value.used <= |items|
  {
    match items[0]
    case Plain(cp) => Some(CodePoint(cp, 1))
    case Simple(e) => if SimpleEscape(e).Some? then Some(CodePoint(SimpleEscape(e).value, 1)) else None
    case Unicode(h) =>
      var c := Hex4(h, 0).value;
      if IsHigh(c) then
        if |items| > 1 && items[1].Unicode? && IsLow(Hex4(items[1].h, 0).value) then
          Some(CodePoint(Combine(c, Hex4(items[1].h, 0).value), 2))
        else None
      else if IsLow(c) then None
      else Some(CodePoint(c, 1))
  }

  /** The code points the items stand for; none if an escape stands for nothing. */
  function Denote(items: seq<Item>): (r: Option<seq<nat>>)
    requires ValidItems(items)
    ensures r.Some? ==> Utf8.AllScalar(r.value)
    decreases |items|
  {
    if items == [] then Some([])
    else
      match Head(items)
      case None => None
      case Some(x) => Cons(x.cp, Denote(items[x.used..]))
  }

  // ---- Decoding means denoting -----------------------------------------------------

  lemma {:induction false} DecodePlainRun(p: bytes, rest: bytes)
    requires BACKSLASH !in p
    ensures DecodeBody(p + rest) == Prepend(p, DecodeBody(rest))
  {
    if p == [] {
      assert p + rest == rest;
      PrependTwice([], [], DecodeBody(rest));
    } else {
      assert (p + rest)[1..] == p[1..] + rest;
      DecodePlainRun(p[1..], rest);
      PrependTwice([p[0]], p[1..], DecodeBody(rest));
      assert p == [p[0]] + p[1..];
    }
  }

  lemma UnicodeEscapeAt(h: bytes, rest: bytes)
    requires |h| == 4 && Hex4(h, 0).Some?
    ensures Hex4([BACKSLASH, LOWER_U] + h + rest, 2) == Hex4(h, 0)
  {
    var s := [BACKSLASH, LOWER_U] + h + rest;
    assert s[2] == h[0] && s[3] == h[1] && s[4] == h[2] && s[5] == h[3];
  }

  lemma SecondEscapeAt(a: bytes, b: bytes, rest: bytes)
    requires |a| == 6 && |b| == 4 && Hex4(b, 0).Some?
    ensures var s := a + ([BACKSLASH, LOWER_U] + b + rest);
            Has(s, 6, BACKSLASH) && Has(s, 7, LOWER_U) && Hex4(s, 8) == Hex4(b, 0)
  {
    var t := [BACKSLASH, LOWER_U] + b + rest;
    assert t[2] == b[0] && t[3] == b[1] && t[4] == b[2] && t[5] == b[3];
  }

  lemma NotAnEscapeAt(items: seq<Item>)
    requires ValidItems(items) && items != [] && !items[0].Unicode?
    ensures var s := RenderItems(items); !(Has(s, 0, BACKSLASH) && Has(s, 1, LOWER_U))
  {
    if items[0].Plain? {
      Utf8.EncodeAvoids(items[0].cp, BACKSLASH);
      assert RenderItems(items)[0] == Utf8.Encode(items[0].cp)[0];
    }
  }

  lemma UnicodeHead(items: seq<Item>)
    requires ValidItems(items) && items != [] && items[0].Unicode?
    ensures var r := UnicodeEscape(RenderItems(items));
            match Head(items)
            case None => r.None?
            case Some(x) =>
              && r == Some(CodePoint(x.cp, 6 * x.used))
              && RenderItems(items)[6 * x.used..] == RenderItems(items[x.used..])
  {
    hide Hex4, Combine;
    var h, rest := items[0].h, RenderItems(items[1..]);
    var s := RenderItems(items);
    UnicodeEscapeAt(h, rest);
    assert s == [BACKSLASH, LOWER_U] + h + rest;
    assert s[6..] == rest;
    if IsHigh(Hex4(h, 0).value) {
      assert forall k :: 6 <= k < |s| ==> s[k] == rest[k - 6];
      if |items| > 1 && items[1].Unicode? {
        var tail := RenderItems(items[2..]);
        assert items[1..][1..] == items[2..];
        assert rest == [BACKSLASH, LOWER_U] + items[1].h + tail;
        SecondEscapeAt([BACKSLASH, LOWER_U] + h, items[1].h, tail);
        assert s[12..] == tail;
      } else if |items| > 1 {
        NotAnEscapeAt(items[1..]);
      }
    }
  }

  /** A rendered token decodes to the UTF-8 of what it denotes, or to nothing if it denotes nothing. */
  lemma {:induction false} DecodeIsDenotation(items: seq<Item>)
    requires ValidItems(items)
    ensures DecodeBody(RenderItems(items)) ==
            match Denote(items) case None => None case Some(cps) => Some(Utf8.EncodeAll(cps))
    decreases |items|
  {
    if items != [] {
      DecodeHead(items);
      hide DecodeBody, RenderItems, Head, Utf8.Encode, ValidItem;
      if Head(items).Some? {
        DecodeIsDenotation(items[Head(items).value.used..]);
      }
    }
  }

  /** One character off the front: its UTF-8, then the rest. */
  lemma DecodeHead(items: seq<Item>)
    requires ValidItems(items) && items != []
    ensures DecodeBody(RenderItems(items)) ==
            match Head(items)
            case None => None
            case Some(x) => Prepend(Utf8.Encode(x.cp), DecodeBody(RenderItems(items[x.used..])))
  {
    match items[0]
    case Plain(cp) => DecodePlainHead(items, cp);
    case Simple(e) => DecodeSimpleHead(items, e);
    case Unicode(h) =>
      UnicodeHead(items);
      UnicodeStarts(h, RenderItems(items[1..]));
      EscapeStep(RenderItems(items));
      hide Head, Utf8.Encode, UnicodeEscape, DecodeBody;
  }

  lemma DecodePlainHead(items: seq<Item>, cp: nat)
    requires ValidItems(items) && items != [] && items[0] == Plain(cp)
    ensures DecodeBody(RenderItems(items)) == Prepend(Utf8.Encode(cp), DecodeBody(RenderItems(items[1..])))
  {
    Utf8.EncodeAvoids(cp, BACKSLASH);
    hide DecodeBody, Utf8.Encode;
    DecodePlainRun(Utf8.Encode(cp), RenderItems(items[1..]));
  }

  lemma DecodeSimpleHead(items: seq<Item>, e: byte)
    requires ValidItems(items) && items != [] && items[0] == Simple(e)
    ensures DecodeBody(RenderItems(items)) ==
            match SimpleEscape(e)
            case None => None
            case Some(b) => Prepend(Utf8.Encode(b), DecodeBody(RenderItems(items[1..])))
  {
    SimpleIsAscii(e);
    assert ValidItem(items[0]);
    hide DecodeBody, SimpleEscape, Utf8.Encode, ValidItem;
    DecodeSimple(e, RenderItems(items[1..]));
  }

  lemma SimpleIsAscii(e: byte)
    ensures SimpleEscape(e).Some? ==> Utf8.IsScalar(SimpleEscape(e).value)
                                      && Utf8.Encode(SimpleEscape(e).value) == [SimpleEscape(e).value]
  {
  }

  lemma DecodeSimple(e: byte, rest: bytes)
    requires e != LOWER_U
    ensures DecodeBody([BACKSLASH, e] + rest) ==
            match SimpleEscape(e) case None => None case Some(b) => Prepend([b], DecodeBody(rest))
  {
    var s := [BACKSLASH, e] + rest;
    assert s[2..] == rest;
    hide SimpleEscape, UnicodeEscape, Utf8.Encode;
    EscapeStep(s);
  }

  /** What a body that starts with a backslash decodes to. */
  lemma EscapeStep(s: bytes)
    requires |s| >= 2 && s[0] == BACKSLASH
    ensures DecodeBody(s) ==
            if s[1] == LOWER_U then
              match UnicodeEscape(s)
              case None => None
              case Some(x) => Prepend(Utf8.Encode(x.cp), DecodeBody(s[x.used..]))
            else
              match SimpleEscape(s[1])
              case None => None
              case Some(b) => Prepend([b], DecodeBody(s[2..]))
  {
    hide SimpleEscape, UnicodeEscape, Utf8.Encode, Prepend;
  }

  lemma UnicodeStarts(h: bytes, rest: bytes)
    ensures var s := [BACKSLASH, LOWER_U] + h + rest; |s| >= 2 && s[0] == BACKSLASH && s[1] == LOWER_U
  {
  }

  lemma WellFormedAscii(c: byte, s: bytes)
    requires c < 0x80
    ensures Utf8.WellFormed([c] + s) == Utf8.WellFormed(s)
  {
    assert ([c] + s)[1..] == s;
  }

  lemma {:induction false} WellFormedAsciiRun(p: bytes, s: bytes)
    requires forall k :: 0 <= k < |p| ==> p[k] < 0x80
    ensures Utf8.WellFormed(p + s) == Utf8.WellFormed(s)
  {
    if p == [] {
      assert p + s == s;
    } else {
      WellFormedAsciiRun(p[1..], s);
      WellFormedAscii(p[0], p[1..] + s);
      assert p + s == [p[0]] + (p[1..] + s);
    }
  }

  /** Removes one item from a body that decodes; `DecodeBody` of the rest may still need it. */
  lemma FirstItem(s: bytes) returns (x: Item)
    requires s != [] && Utf8.WellFormed(s) && DecodeBody(s).Some?
    ensures ValidItem(x) && RenderItem(x) <= s
    ensures Utf8.WellFormed(s[|RenderItem(x)|..])
    ensures x.Unicode? ==> s[0] == BACKSLASH && s[1] == LOWER_U && |RenderItem(x)| == 6
    ensures !x.Unicode? ==> DecodeBody(s[|RenderItem(x)|..]).Some?
  {
    if s[0] != BACKSLASH {
      Utf8.CharIsEncode(s);
      x := Plain(Utf8.DecodeFirst(s));
      var n := Utf8.CharLength(s);
      assert s == s[..n] + s[n..];
      Utf8.EncodeAvoids(x.cp, BACKSLASH);
      DecodePlainRun(s[..n], s[n..]);
    } else if s[1] != LOWER_U {
      x := Simple(s[1]);
      assert s == s[..2] + s[2..];
      assert SimpleEscape(s[1]).Some?;
      WellFormedAsciiRun(s[..2], s[2..]);
    } else {
      assert Hex4(s, 2).Some?;
      x := Unicode(s[2..6]);
      assert s == s[..6] + s[6..];
      assert s[..6] == [BACKSLASH, LOWER_U] + s[2..6];
      WellFormedAsciiRun(s[..6], s[6..]);
    }
  }

  lemma UnicodeItem(s: bytes, i: nat) returns (x: Item)
    requires i + 6 <= |s| && s[i] == BACKSLASH && s[i + 1] == LOWER_U && Hex4(s, i + 2).Some?
    requires Utf8.WellFormed(s[i..])
    ensures ValidItem(x) && RenderItem(x) == s[i..i + 6] && Utf8.WellFormed(s[i + 6..])
  {
    x := Unicode(s[i + 2..i + 6]);
    assert s[i..] == s[i..i + 6] + s[i + 6..];
    WellFormedAsciiRun(s[i..i + 6], s[i + 6..]);
  }

  lemma RenderCons(x: Item, items: seq<Item>)
    requires ValidItem(x) && ValidItems(items)
    ensures ValidItems([x] + items)
    ensures RenderItems([x] + items) == RenderItem(x) + RenderItems(items)
  {
    assert ([x] + items)[1..] == items;
  }

  /** Every well-formed body that decodes is the rendering of a sequence of items. */
  lemma {:induction false} BodyHasItems(s: bytes) returns (items: seq<Item>)
    requires Utf8.WellFormed(s) && DecodeBody(s).Some?
    ensures ValidItems(items) && RenderItems(items) == s
    decreases |s|, 1
  {
    hide Utf8.WellFormed, DecodeBody;
    if s == [] {
      return [];
    }
    var x := FirstItem(s);
    var n := |RenderItem(x)|;
    if !x.Unicode? {
      items := BodyHasItems(s[n..]);
      RenderCons(x, items);
      items := [x] + items;
    } else {
      items := UnicodeItems(s, x);
    }
  }

  lemma UnicodeItems(s: bytes, x: Item) returns (items: seq<Item>)
    requires Utf8.WellFormed(s) && DecodeBody(s).Some?
    requires |s| >= 6 && s[0] == BACKSLASH && s[1] == LOWER_U
    requires x.Unicode? && ValidItem(x) && RenderItem(x) == s[..6] && Utf8.WellFormed(s[6..])
    ensures ValidItems(items) && RenderItems(items) == s
    decreases |s|, 0
  {
    EscapeStep(s);
    hide DecodeBody, Hex4, Combine, Utf8.Encode, RenderItems, RenderItem;
    var used := UnicodeEscape(s).value.used;
    if used == 6 {
      items := BodyHasItems(s[6..]);
    } else {
      var y := UnicodeItem(s, 6);
      items := BodyHasItems(s[12..]);
      RenderCons(y, items);
      items := [y] + items;
      assert s[6..] == s[6..12] + s[12..];
    }
    RenderCons(x, items);
    items := [x] + items;
  }

  /**
   * A well-formed body that decodes yields well-formed UTF-8: the encoding of the
   * code points the body denotes, with no surrogate among them.
   */
  lemma Utf8Preserved(s: bytes) returns (items: seq<Item>)
    requires Utf8.WellFormed(s) && DecodeBody(s).Some?
    ensures ValidItems(items) && RenderItems(items) == s
    ensures Denote(items).Some?
    ensures DecodeBody(s).value == Utf8.EncodeAll(Denote(items).value)
    ensures Utf8.WellFormed(DecodeBody(s).value)
  {
    items := BodyHasItems(s);
    DecodeIsDenotation(items);
    Utf8.EncodeAllWellFormed(Denote(items).value);
  }

  // ---- Printing and decoding are inverse -------------------------------------------

  lemma {:induction false} DecodeEscaped(s: bytes)
    ensures DecodeBody(EscapeAll(s)) == Some(s)
  {
    if s != [] {
      DecodeEscaped(s[1..]);
      DecodeOneEscape(s[0], EscapeAll(s[1..]));
      assert [s[0]] + s[1..] == s;
    }
  }

  lemma DecodeOneEscape(c: byte, rest: bytes)
    ensures DecodeBody(EscapeByte(c) + rest) == Prepend([c], DecodeBody(rest))
  {
    var e := EscapeByte(c);
    var s := e + rest;
    assert s[|e|..] == rest && s[0] == e[0];
    EscapeForms(c);
    hide UnicodeEscape, SimpleEscape, Utf8.Encode, EscapeByte;
    if |e| == 1 {
    } else if |e| == 2 {
      hide DecodeBody;
      DecodeSimple(e[1], rest);
    } else {
      assert s[1] == e[1];
      EscapeStep(s);
      hide DecodeBody;
      ControlEscape(c, rest);
    }
  }

  /** A byte is printed as itself, as a two-character escape or as `\u00XX`. */
  lemma EscapeForms(c: byte)
    ensures var e := EscapeByte(c);
            || (e == [c] && c != BACKSLASH)
            || (|e| == 2 && e == [BACKSLASH, e[1]] && e[1] != LOWER_U && SimpleEscape(e[1]) == Some(c))
            || (|e| == 6 && e[0] == BACKSLASH && e[1] == LOWER_U && c < 0x20)
  {
  }

  lemma ControlEscape(c: byte, rest: bytes)
    requires |EscapeByte(c)| == 6
    ensures UnicodeEscape(EscapeByte(c) + rest) == Some(CodePoint(c, 6)) && Utf8.Encode(c) == [c]
  {
    var e, s := EscapeByte(c), EscapeByte(c) + rest;
    assert s[2] == e[2] && s[3] == e[3] && s[4] == e[4] && s[5] == e[5];
    assert Hex4(s, 2) == Some(c as nat);
  }

  lemma TrimToken(t: bytes)
    requires IsStringToken(t)
    ensures Trim(t) == t
  {
  }

  /** The decoder inverts the printer on every byte string. */
  lemma QuotedRoundTrip(s: bytes)
    ensures DecodeString(Quoted(s)) == Some(s)
  {
    var t := Quoted(s);
    assert t[|t| - 1] == QUOTE;
    TrimToken(t);
    assert t[1..|t| - 1] == EscapeAll(s);
    DecodeEscaped(s);
  }

  // ---- The loops -------------------------------------------------------------------

  method ParseHex4(text: bytes, pos: nat) returns (out: Option<nat>)
    ensures out == Hex4(text, pos)
  {
    if pos + 4 > |text| {
      return None;
    }
    var value := 0;
    for i := 0 to 4
      invariant forall k :: pos <= k < pos + i ==> IsHex(text[k])
      invariant value == HexPrefix(text, pos, i)
    {
      var digit := HexDigit(text[pos + i]);
      if digit.None? {
        return None;
      }
      value := value * 16 + digit.value;
    }
    assert IsHex(text[pos]) && IsHex(text[pos + 1]) && IsHex(text[pos + 2]) && IsHex(text[pos + 3]);
    assert HexPrefix(text, pos, 2) == HexDigit(text[pos]).value * 16 + HexDigit(text[pos + 1]).value;
    out := Some(value);
  }

  function HexPrefix(t: bytes, pos: nat, n: nat): (r: nat)
    requires pos + n <= |t| && forall k :: pos <= k < pos + n ==> IsHex(t[k])
  {
    if n == 0 then 0 else assert IsHex(t[pos + n - 1]); HexPrefix(t, pos, n - 1) * 16 + HexDigit(t[pos + n - 1]).value
  }

  /** Digits of a token's body, read from the token itself: the closing quote is no digit. */
  lemma HexInToken(t: bytes, i: nat, k: nat)
    requires IsStringToken(t) && 1 <= i <= |t| - 1
    ensures Hex4(t, i + k) == Hex4(t[i..|t| - 1], k)
  {
    var s := t[i..|t| - 1];
    if k + 4 <= |s| {
      assert s[k] == t[i + k] && s[k + 1] == t[i + k + 1] && s[k + 2] == t[i + k + 2] && s[k + 3] == t[i + k + 3];
    }
  }

  /** Decodes the `\u` escape whose backslash is at `at`. */
  method DecodeUnicode(token: bytes, at: nat) returns (r: Option<CodePoint>)
    requires IsStringToken(token) && 1 <= at && at + 1 < |token| - 1
    requires token[at] == BACKSLASH && token[at + 1] == LOWER_U
    ensures r == UnicodeEscape(token[at..|token| - 1])
  {
    ghost var s := token[at..|token| - 1];
    HexInToken(token, at, 2);
    HexInToken(token, at, 8);
    var i := at + 1;
    var first := ParseHex4(token, i + 1);
    if first.None? {
      return None;
    }
    var codePoint := first.value;
    i := i + 4;
    if IsHigh(codePoint) {
      if i + 6 >= |token| || token[i + 1] != BACKSLASH || token[i + 2] != LOWER_U {
        return None;
      }
      var low := ParseHex4(token, i + 3);
      if low.None? || low.value < 0xDC00 || low.value > 0xDFFF {
        return None;
      }
      assert s[6] == token[i + 1] && s[7] == token[i + 2];
      return Some(CodePoint(Combine(codePoint, low.value), 12));
    } else if IsLow(codePoint) {
      return None;
    }
    r := Some(CodePoint(codePoint, 6));
  }

  method DecodeJsonString(text: bytes) returns (out: Option<bytes>)
    ensures out == DecodeString(text)
  {
    var token := TrimView(text);
    if |token| < 2 || token[0] != QUOTE || token[|token| - 1] != QUOTE {
      return None;
    }
    ghost var end := |token| - 1;
    var decoded := [];
    var i := 1;
    PrependTwice([], [], DecodeBody(token[1..end]));
    while i + 1 < |token|
      invariant 1 <= i <= end
      invariant Prepend(decoded, DecodeBody(token[i..end])) == DecodeBody(token[1..end])
    {
      ghost var s := token[i..end];
      var ch := token[i];
      assert s[0] == ch;
      if ch != BACKSLASH {
        assert s[1..] == token[i + 1..end];
        PrependTwice(decoded, [ch], DecodeBody(s[1..]));
        decoded := decoded + [ch];
        i := i + 1;
        continue;
      }
      if i + 1 >= |token| - 1 {
        return None;
      }
      var esc := token[i + 1];
      assert s[1] == esc;
      if esc == LOWER_U {
        var x := DecodeUnicode(token, i);
        if x.None? {
          return None;
        }
        assert s[x.value.used..] == token[i + x.value.used..end];
        PrependTwice(decoded, Utf8.Encode(x.value.cp), DecodeBody(s[x.value.used..]));
        decoded := decoded + Utf8.Encode(x.value.cp);
        i := i + x.value.used;
      } else {
        var simple := SimpleEscape(esc);
        if simple.None? {
          return None;
        }
        assert s[2..] == token[i + 2..end];
        PrependTwice(decoded, [simple.value], DecodeBody(s[2..]));
        decoded := decoded + [simple.value];
        i := i + 2;
      }
    }
    assert token[i..end] == [] && decoded + [] == decoded;
    out := Some(decoded);
  }

  method JsonQuoted(text: bytes) returns (out: bytes)
    ensures out == Quoted(text)
  {
    out := [QUOTE];
    assert text[0..] == text;
    for i := 0 to |text|
      invariant out + EscapeAll(text[i..]) == [QUOTE] + EscapeAll(text)
    {
      assert text[i..][1..] == text[i + 1..];
      out := out + EscapeByte(text[i]);
    }
    assert text[|text|..] == [] && out + [] == out;
    out := out + [QUOTE];
  }
}
