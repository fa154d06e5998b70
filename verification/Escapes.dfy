// The escapes and encodings of strings spelled out: hexadecimal digits by the letters
// they are written with, surrogate pairs by the formula of RFC 2781, and UTF-8 by its
// order.

module Escapes {
  import opened Wrappers
  import opened Bytes
  import opened JsonScan
  import opened JsonString
  import Utf8

  // ---- Hexadecimal ---------------------------------------------------------------------

  const LOWER_HEX := "0123456789abcdef"
  const UPPER_HEX := "0123456789ABCDEF"

  /** The byte is the digit's letter, in either case. */
  predicate IsDigitOf(c: byte, d: nat)
    requires d < 16
  {
    c as char == LOWER_HEX[d] || c as char == UPPER_HEX[d]
  }

  /** Four hexadecimal digits for `n`, each in either case. */
  predicate Writes(h: bytes, n: nat) {
    && |h| == 4 && n < 0x1_0000
    && IsDigitOf(h[0], n / 0x1000) && IsDigitOf(h[1], n / 0x100 % 0x10)
    && IsDigitOf(h[2], n / 0x10 % 0x10) && IsDigitOf(h[3], n % 0x10)
  }

  lemma DigitByLetter(c: byte, d: nat)
    requires d < 16
    ensures IsDigitOf(c, d) <==> HexDigit(c) == Some(d)
  {
  }

  /** Four digits are read as what they write, whatever their case. */
  lemma Hex4Exact(t: bytes, i: nat, h: bytes, n: nat)
    requires Match(t, i, h) && Writes(h, n)
    ensures Hex4(t, i) == Some(n)
  {
    DigitByLetter(h[0], n / 0x1000);
    DigitByLetter(h[1], n / 0x100 % 0x10);
    DigitByLetter(h[2], n / 0x10 % 0x10);
    DigitByLetter(h[3], n % 0x10);
    DigitsJoin(n);
    hide IsDigitOf, HexDigit, Match;
    FourMatched(t, i, h);
  }

  lemma FourMatched(t: bytes, i: nat, h: bytes)
    requires Match(t, i, h) && |h| == 4
    ensures i + 4 <= |t| && t[i] == h[0] && t[i + 1] == h[1] && t[i + 2] == h[2] && t[i + 3] == h[3]
  {
    hide Match;
    MatchAt(t, i, h, 0);
    MatchAt(t, i, h, 1);
    MatchAt(t, i, h, 2);
    MatchAt(t, i, h, 3);
  }

  function Value4(a: nat, b: nat, c: nat, d: nat): nat {
    ((a * 16 + b) * 16 + c) * 16 + d
  }

  lemma DigitsJoin(n: nat)
    requires n < 0x1_0000
    ensures n / 0x1000 < 0x10 && Value4(n / 0x1000, n / 0x100 % 0x10, n / 0x10 % 0x10, n % 0x10) == n
  {
    var m := n / 0x10;
    assert n / 0x100 == m / 0x10 && n / 0x1000 == m / 0x10 / 0x10;
  }

  lemma DigitsSplit(a: nat, b: nat, c: nat, d: nat)
    requires a < 16 && b < 16 && c < 16 && d < 16
    ensures var n := Value4(a, b, c, d);
            n < 0x1_0000 && n / 0x1000 == a && n / 0x100 % 0x10 == b && n / 0x10 % 0x10 == c && n % 0x10 == d
  {
    var n := Value4(a, b, c, d);
    assert n / 0x10 == (a * 16 + b) * 16 + c;
    assert n / 0x100 == a * 16 + b;
  }

  /** Nothing else is read. */
  lemma Hex4Only(h: bytes)
    requires |h| == 4 && Hex4(h, 0).Some?
    ensures Writes(h, Hex4(h, 0).value)
  {
    ValueOfDigits(h);
    var a, b, c, d := HexDigit(h[0]).value, HexDigit(h[1]).value, HexDigit(h[2]).value, HexDigit(h[3]).value;
    DigitByLetter(h[0], a);
    DigitByLetter(h[1], b);
    DigitByLetter(h[2], c);
    DigitByLetter(h[3], d);
    DigitsSplit(a, b, c, d);
    hide IsDigitOf, HexDigit, Hex4, Value4;
  }

  lemma ValueOfDigits(h: bytes)
    requires |h| == 4 && Hex4(h, 0).Some?
    ensures HexDigit(h[0]).Some? && HexDigit(h[1]).Some? && HexDigit(h[2]).Some? && HexDigit(h[3]).Some?
    ensures Hex4(h, 0).value
         == Value4(HexDigit(h[0]).value, HexDigit(h[1]).value, HexDigit(h[2]).value, HexDigit(h[3]).value)
  {
    hide HexDigit;
  }

  // ---- Unicode escapes --------------------------------------------------------------------

  function Escape(h: bytes): bytes {
    [BACKSLASH, LOWER_U] + h
  }

  function InQuotes(body: bytes): bytes {
    [QUOTE] + body + [QUOTE]
  }

  lemma TokenDecodes(body: bytes)
    ensures DecodeString(InQuotes(body)) == DecodeBody(body)
  {
    hide DecodeBody;
    var t := InQuotes(body);
    assert t[0] == QUOTE && t[|t| - 1] == QUOTE && t[1..|t| - 1] == body;
    TrimSolid(t);
  }

  lemma OneUnit(h: bytes, n: nat, rest: bytes)
    requires Writes(h, n)
    ensures var s := Escape(h) + rest;
            && |s| >= 6 && s[0] == BACKSLASH && s[1] == LOWER_U && Hex4(s, 2) == Some(n) && s[6..] == rest
  {
    hide Hex4;
    var s := Escape(h) + rest;
    assert s[2..2 + |h|] == h;
    Hex4Exact(s, 2, h, n);
  }

  lemma NothingToPrepend(p: bytes)
    ensures DecodeBody([]) == Some([]) && Prepend(p, Some([])) == Some(p)
  {
    assert p + [] == p;
  }

  /** A scalar value below 0x10000, written as one escape, decodes to its encoding. */
  lemma UnitDecodes(cp: nat, h: bytes)
    requires Utf8.IsScalar(cp) && Writes(h, cp)
    ensures DecodeString(InQuotes(Escape(h))) == Some(Utf8.Encode(cp))
  {
    var s := Escape(h);
    assert s + [] == s;
    OneUnit(h, cp, []);
    TokenDecodes(s);
    NothingToPrepend(Utf8.Encode(cp));
    hide Hex4, Utf8.Encode, Escape;
  }

  /** The units of a supplementary code point (RFC 2781 section 2.1). */
  function HighUnit(cp: nat): nat
    requires cp >= 0x10000
  {
    0xD800 + (cp - 0x10000) / 0x400
  }

  function LowUnit(cp: nat): nat
    requires cp >= 0x10000
  {
    0xDC00 + (cp - 0x10000) % 0x400
  }

  /** Every other scalar value, written as its two units, decodes to its encoding. */
  lemma PairDecodes(cp: nat, high: bytes, low: bytes)
    requires 0x10000 <= cp < 0x110000 && Writes(high, HighUnit(cp)) && Writes(low, LowUnit(cp))
    ensures DecodeString(InQuotes(Escape(high) + Escape(low))) == Some(Utf8.Encode(cp))
  {
    hide Hex4, Utf8.Encode, Writes, HexDigit, UnicodeEscape, DecodeBody;
    var rest := Escape(low);
    var s := Escape(high) + rest;
    OneUnit(high, HighUnit(cp), rest);
    OneUnit(low, LowUnit(cp), []);
    assert rest + [] == rest;
    assert s[6] == rest[0] && s[7] == rest[1] && s[8..8 + |low|] == low;
    Hex4Exact(s, 8, low, LowUnit(cp));
    TokenDecodes(s);
    assert s[12..] == [];
    PairAtHead(cp, s);
    NothingToPrepend(Utf8.Encode(cp));
  }

  lemma UnitsCombine(cp: nat)
    requires 0x10000 <= cp < 0x110000
    ensures IsHigh(HighUnit(cp)) && IsLow(LowUnit(cp)) && Combine(HighUnit(cp), LowUnit(cp)) == cp
  {
  }

  lemma PairAtHead(cp: nat, s: bytes)
    requires 0x10000 <= cp < 0x110000 && |s| >= 12 && s[0] == BACKSLASH && s[1] == LOWER_U
    requires Hex4(s, 2) == Some(HighUnit(cp)) && s[6] == BACKSLASH && s[7] == LOWER_U
    requires Hex4(s, 8) == Some(LowUnit(cp))
    ensures DecodeBody(s) == Prepend(Utf8.Encode(cp), DecodeBody(s[12..]))
  {
    UnitsCombine(cp);
    hide Hex4, Utf8.Encode, Combine, HighUnit, LowUnit, Prepend;
    assert UnicodeEscape(s) == Some(CodePoint(cp, 12));
  }

  /** The text goes on with an escaped low unit. */
  predicate StartsLow(rest: bytes) {
    |rest| >= 6 && rest[..2] == [BACKSLASH, LOWER_U] && exists m: nat :: 0xDC00 <= m < 0xE000 && Writes(rest[2..6], m)
  }

  /** A low unit without its high one denotes nothing, nor a high one without its low. */
  lemma LoneUnitFails(n: nat, h: bytes, rest: bytes)
    requires 0xD800 <= n < 0xE000 && Writes(h, n)
    requires n < 0xDC00 ==> !StartsLow(rest)
    ensures DecodeString(InQuotes(Escape(h) + rest)).None?
  {
    var s := Escape(h) + rest;
    OneUnit(h, n, rest);
    TokenDecodes(s);
    hide Utf8.Encode, Escape, Writes, HexDigit;
    if n < 0xDC00 && |s| >= 12 {
      SecondUnit(s, rest);
    }
    assert UnicodeEscape(s).None?;
  }

  lemma SecondUnit(s: bytes, rest: bytes)
    requires |s| >= 12 && s[6..] == rest && !StartsLow(rest)
    ensures !(s[6] == BACKSLASH && s[7] == LOWER_U && Hex4(s, 8).Some? && IsLow(Hex4(s, 8).value))
  {
    assert s[6] == rest[0] && s[7] == rest[1] && rest[..2] == [rest[0], rest[1]];
    var l := rest[2..6];
    assert l[0] == s[8] && l[1] == s[9] && l[2] == s[10] && l[3] == s[11];
    assert Hex4(l, 0) == Hex4(s, 8);
    if Hex4(l, 0).Some? {
      Hex4Only(l);
    }
    hide Writes, HexDigit;
  }

  // ---- Short escapes and the printer -----------------------------------------------------------

  // RFC 8259 section 7.
  const SHORT_ESCAPES: set<(char, byte)> :=
    {('"', 0x22), ('\\', 0x5C), ('/', 0x2F), ('b', 0x08), ('f', 0x0C), ('n', 0x0A), ('r', 0x0D), ('t', 0x09)}

  lemma ShortEscapes(e: byte, b: byte)
    requires e != LOWER_U
    ensures DecodeString(InQuotes([BACKSLASH, e])) == Some([b]) <==> (e as char, b) in SHORT_ESCAPES
    ensures DecodeString(InQuotes([BACKSLASH, e])).None? <==> e as char !in {'"', '\\', '/', 'b', 'f', 'n', 'r', 't'}
  {
    var s := [BACKSLASH, e];
    TokenDecodes(s);
    assert s[2..] == [] && s[1] == e;
    ShortTable(e, b);
    hide SimpleEscape;
    if SimpleEscape(e).Some? {
      NothingToPrepend([SimpleEscape(e).value]);
    }
  }

  lemma ShortTable(e: byte, b: byte)
    ensures SimpleEscape(e) == Some(b) <==> (e as char, b) in SHORT_ESCAPES
    ensures SimpleEscape(e).None? <==> e as char !in {'"', '\\', '/', 'b', 'f', 'n', 'r', 't'}
  {
  }

  /** Only control characters, quotation marks and reverse solidi are escaped. */
  predicate NeedsEscape(c: byte) {
    c < 0x20 || c as char == '"' || c as char == '\\'
  }

  /** Other text is printed as it is, and nothing printed is a control character. */
  lemma {:induction false} PrintsClean(s: bytes)
    ensures (forall k :: 0 <= k < |s| ==> !NeedsEscape(s[k])) ==> EscapeAll(s) == s
    ensures forall k :: 0 <= k < |EscapeAll(s)| ==> EscapeAll(s)[k] >= 0x20
    decreases |s|
  {
    if s != [] {
      PrintsClean(s[1..]);
      assert s == [s[0]] + s[1..];
    }
  }

  // ---- UTF-8 keeps the order of code points --------------------------------------------------------

  predicate LessAt(a: bytes, b: bytes, k: nat) {
    k < |a| && k < |b| && a[..k] == b[..k] && a[k] < b[k]
  }

  /** A smaller code point has the smaller encoding, so no two encodings could be exchanged. */
  lemma EncodeKeepsOrder(x: nat, y: nat) returns (k: nat)
    requires x < y < 0x110000
    ensures LessAt(Utf8.Encode(x), Utf8.Encode(y), k)
  {
    var a, b := Utf8.Encode(x), Utf8.Encode(y);
    assert x / 64 <= y / 64 && x / 64 / 64 <= y / 64 / 64 && x / 64 / 64 / 64 <= y / 64 / 64 / 64;
    k := if a[0] < b[0] then 0 else if a[1] < b[1] then 1 else if a[2] < b[2] then 2 else 3;
  }
}
