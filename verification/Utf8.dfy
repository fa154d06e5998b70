// UTF-8 as the decoder emits it, against the byte grammar of RFC 3629 section 4.

module Utf8 {
  import opened Bytes

  /** A Unicode scalar value: a code point that is not a surrogate. */
  predicate IsScalar(cp: nat) {
    cp < 0xD800 || 0xE000 <= cp < 0x110000
  }

  /** The encoding the decoder appends for one code point. */
  function Encode(cp: nat): (r: bytes)
    requires cp < 0x110000
    ensures 1 <= |r| <= 4
  {
    if cp < 0x80 then [cp]
    else if cp < 0x800 then [0xC0 + cp / 64, 0x80 + cp % 64]
    else if cp < 0x10000 then [0xE0 + cp / 64 / 64, 0x80 + cp / 64 % 64, 0x80 + cp % 64]
    else [0xF0 + cp / 64 / 64 / 64, 0x80 + cp / 64 / 64 % 64, 0x80 + cp / 64 % 64, 0x80 + cp % 64]
  }

  predicate AllScalar(cps: seq<nat>) {
    forall k :: 0 <= k < |cps| ==> IsScalar(cps[k])
  }

  function EncodeAll(cps: seq<nat>): bytes
    requires AllScalar(cps)
  {
    if cps == [] then [] else Encode(cps[0]) + EncodeAll(cps[1..])
  }

  predicate Tail(s: bytes, i: nat) {
    i < |s| && 0x80 <= s[i] <= 0xBF
  }

  predicate Between(s: bytes, i: nat, lo: byte, hi: byte) {
    i < |s| && lo <= s[i] <= hi
  }

  // The four alternatives of the grammar's UTF8-char, as lengths; 0 is malformed.
  function CharLength(s: bytes): (n: nat)
    ensures n <= |s| && n <= 4
  {
    if s == [] then 0
    else if s[0] <= 0x7F then 1
    else if 0xC2 <= s[0] <= 0xDF && Tail(s, 1) then 2
    else if Tail(s, 2)
      && ((s[0] == 0xE0 && Between(s, 1, 0xA0, 0xBF))
          || (0xE1 <= s[0] <= 0xEC && Tail(s, 1))
          || (s[0] == 0xED && Between(s, 1, 0x80, 0x9F))
          || (0xEE <= s[0] <= 0xEF && Tail(s, 1))) then 3
    else if Tail(s, 2) && Tail(s, 3)
      && ((s[0] == 0xF0 && Between(s, 1, 0x90, 0xBF))
          || (0xF1 <= s[0] <= 0xF3 && Tail(s, 1))
          || (s[0] == 0xF4 && Between(s, 1, 0x80, 0x8F))) then 4
    else 0
  }

  predicate WellFormed(s: bytes) {
    s == [] || (CharLength(s) > 0 && WellFormed(s[CharLength(s)..]))
  }

  /** The code point of the first character (RFC 3629 section 3). */
  function DecodeFirst(s: bytes): (cp: nat)
    requires CharLength(s) > 0
  {
    match CharLength(s)
    case 1 => s[0]
    case 2 => Join(s[0] as int - 0xC0, Low(s, 1))
    case 3 => Join(Join(s[0] as int - 0xE0, Low(s, 1)), Low(s, 2))
    case _ => Join(Join(Join(s[0] as int - 0xF0, Low(s, 1)), Low(s, 2)), Low(s, 3))
  }

  /** The six payload bits of a tail byte. */
  function Low(s: bytes, i: nat): (r: nat)
    requires Tail(s, i)
    ensures r < 64 && s[i] == 0x80 + r
  {
    s[i] - 0x80
  }

  function Join(high: nat, low: nat): (r: nat)
    requires low < 64
    ensures r / 64 == high && r % 64 == low
  {
    high * 64 + low
  }

  lemma EncodeIsChar(cp: nat, rest: bytes)
    requires IsScalar(cp)
    ensures CharLength(Encode(cp) + rest) == |Encode(cp)|
    ensures DecodeFirst(Encode(cp) + rest) == cp
  {
    var s := Encode(cp) + rest;
    assert s[..|Encode(cp)|] == Encode(cp);
    assert s[0] == Encode(cp)[0];
    if cp >= 0x80 { assert s[1] == Encode(cp)[1]; }
    if cp >= 0x800 { assert s[2] == Encode(cp)[2]; }
    if cp >= 0x10000 { assert s[3] == Encode(cp)[3]; }
  }

  lemma CharIsEncode(s: bytes)
    requires CharLength(s) > 0
    ensures IsScalar(DecodeFirst(s)) && Encode(DecodeFirst(s)) == s[..CharLength(s)]
  {
  }

  /** The only byte that can look like ASCII is an ASCII character on its own. */
  lemma EncodeAvoids(cp: nat, c: byte)
    requires IsScalar(cp) && c < 0x80 && cp != c
    ensures c !in Encode(cp)
  {
  }

  lemma {:induction false} EncodeAllWellFormed(cps: seq<nat>)
    requires AllScalar(cps)
    ensures WellFormed(EncodeAll(cps))
  {
    if cps != [] {
      EncodeIsChar(cps[0], EncodeAll(cps[1..]));
      EncodeAllWellFormed(cps[1..]);
      assert EncodeAll(cps)[|Encode(cps[0])|..] == EncodeAll(cps[1..]);
    }
  }

  function DecodeAll(s: bytes): (cps: seq<nat>)
    requires WellFormed(s)
  {
    if s == [] then [] else [DecodeFirst(s)] + DecodeAll(s[CharLength(s)..])
  }

  lemma {:induction false} DecodeAllEncodes(s: bytes)
    requires WellFormed(s)
    ensures AllScalar(DecodeAll(s)) && EncodeAll(DecodeAll(s)) == s
  {
    hide CharLength, DecodeFirst, Encode;
    if s != [] {
      CharIsEncode(s);
      DecodeAllEncodes(s[CharLength(s)..]);
      assert s == s[..CharLength(s)] + s[CharLength(s)..];
    }
  }

  /** The byte grammar accepts exactly the encodings of scalar value sequences. */
  lemma WellFormedIffEncoding(s: bytes)
    ensures WellFormed(s) <==> exists cps :: AllScalar(cps) && EncodeAll(cps) == s
  {
    if WellFormed(s) {
      DecodeAllEncodes(s);
    }
    if cps :| AllScalar(cps) && EncodeAll(cps) == s {
      EncodeAllWellFormed(cps);
    }
  }
}
