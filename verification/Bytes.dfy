// Shared vocabulary: option values and byte strings.

module Wrappers {
  datatype Option<+T> = None | Some(value: T)
}

// Text and wire data are both sequences of bytes; a byte is a bounded integer
// so that shifts and masks on disjoint bit fields read as `*`, `/`, `%` and `+`.
module Bytes {
  type byte = x: int | 0 <= x < 256
  type bytes = seq<byte>

  /** A literal as bytes. */
  function Ascii(s: string): bytes {
    seq(|s|, i requires 0 <= i < |s| => (s[i] as int) % 256)
  }

  /** `r` occurs in `t` at position `i`. */
  predicate Match(t: bytes, i: nat, r: bytes) {
    i + |r| <= |t| && t[i..i + |r|] == r
  }

  lemma MatchSplit(t: bytes, i: nat, a: bytes, b: bytes)
    requires Match(t, i, a + b)
    ensures Match(t, i, a) && Match(t, i + |a|, b)
  {
    assert t[i..i + |a + b|][..|a|] == a;
    assert t[i..i + |a + b|][|a|..] == b;
  }

  lemma MatchAt(t: bytes, i: nat, r: bytes, k: nat)
    requires Match(t, i, r) && k < |r|
    ensures i + k < |t| && t[i + k] == r[k]
  {
    assert t[i..i + |r|][k] == t[i + k];
  }
}
