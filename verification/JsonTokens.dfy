// A token is a token wherever it stands: skipping depends only on the token's own
// bytes, so a stored value slice can be parsed again on its own.

module JsonTokens {
  import opened Wrappers
  import opened Bytes
  import opened JsonScan
  import opened JsonString
  import opened JsonMembers
  import G = JsonGrammar
  import Utf8

  // Cutting the text at or after the end of a token, and before or at its start,
  // does not move the token's end.

  lemma {:induction false} CutWs(t: bytes, a: nat, b: nat, i: nat)
    requires a <= i <= b <= |t| && SkipWs(t, i) <= b
    ensures SkipWs(t[a..b], i - a) == SkipWs(t, i) - a
    decreases |t| - i
  {
    if i < |t| && IsWs(t[i]) {
      assert t[a..b][i - a] == t[i];
      CutWs(t, a, b, i + 1);
    } else if i < b {
      assert t[a..b][i - a] == t[i];
    }
  }

  lemma {:induction false} CutDigits(t: bytes, a: nat, b: nat, i: nat)
    requires a <= i <= b <= |t| && SkipDigits(t, i) <= b
    ensures SkipDigits(t[a..b], i - a) == SkipDigits(t, i) - a
    decreases |t| - i
  {
    if i < |t| && IsDigit(t[i]) {
      assert t[a..b][i - a] == t[i];
      CutDigits(t, a, b, i + 1);
    } else if i < b {
      assert t[a..b][i - a] == t[i];
    }
  }

  lemma {:induction false} CutStringTail(t: bytes, a: nat, b: nat, i: nat)
    requires a <= i <= |t| && StringTail(t, i).Some? && StringTail(t, i).value <= b <= |t|
    ensures StringTail(t[a..b], i - a) == Some(StringTail(t, i).value - a)
    decreases |t| - i
  {
    assert t[a..b][i - a] == t[i];
    if t[i] != QUOTE {
      CutStringTail(t, a, b, if t[i] == BACKSLASH then i + 2 else i + 1);
    }
  }

  lemma CutHas(t: bytes, a: nat, b: nat, i: nat, c: byte)
    requires a <= i && a <= b <= |t|
    ensures Has(t[a..b], i - a, c) <==> i < b && Has(t, i, c)
  {
  }

  lemma CutSign(t: bytes, a: nat, b: nat, i: nat)
    requires a <= i <= b <= |t| && AfterSign(t, i) <= b
    ensures AfterSign(t[a..b], i - a) == AfterSign(t, i) - a
  {
    CutHas(t, a, b, i, PLUS);
    CutHas(t, a, b, i, MINUS);
  }

  lemma CutFraction(t: bytes, a: nat, b: nat, i: nat)
    requires a <= i <= b <= |t| && AfterFraction(t, i) <= b
    ensures AfterFraction(t[a..b], i - a) == AfterFraction(t, i) - a
  {
    CutHas(t, a, b, i, DOT);
    if Has(t, i, DOT) {
      CutDigits(t, a, b, i + 1);
    }
  }

  lemma CutExponent(t: bytes, a: nat, b: nat, i: nat)
    requires a <= i <= b <= |t| && AfterExponent(t, i) <= b
    ensures AfterExponent(t[a..b], i - a) == AfterExponent(t, i) - a
    ensures HasExp(t[a..b], i - a) <==> HasExp(t, i)
    ensures HasExp(t, i) ==> AfterSign(t[a..b], i + 1 - a) == AfterSign(t, i + 1) - a
  {
    CutHas(t, a, b, i, LOWER_E);
    CutHas(t, a, b, i, UPPER_E);
    if HasExp(t, i) {
      CutSign(t, a, b, i + 1);
      CutDigits(t, a, b, AfterSign(t, i + 1));
    }
  }

  lemma CutNumber(t: bytes, a: nat, b: nat, i: nat)
    requires a <= i <= |t| && SkipNumber(t, i).Some? && SkipNumber(t, i).value <= b <= |t|
    ensures SkipNumber(t[a..b], i - a) == Some(SkipNumber(t, i).value - a)
  {
    hide SkipDigits, AfterFraction, AfterExponent, AfterSign, HasExp;
    var s := AfterSign(t, i);
    var d := SkipDigits(t, s);
    var f := AfterFraction(t, d);
    CutSign(t, a, b, i);
    CutDigits(t, a, b, s);
    CutFraction(t, a, b, d);
    CutExponent(t, a, b, f);
  }

  lemma CutMatch(t: bytes, a: nat, b: nat, i: nat, r: bytes)
    requires a <= i && a <= b <= |t|
    ensures Match(t[a..b], i - a, r) <==> i + |r| <= b && Match(t, i, r)
  {
    if i + |r| <= b {
      var x, y := t[a..b][i - a..i - a + |r|], t[i..i + |r|];
      assert forall k :: 0 <= k < |r| ==> x[k] == t[i + k] && y[k] == t[i + k];
      assert x == y;
    }
  }

  lemma CutAtom(t: bytes, a: nat, b: nat, i: nat)
    requires a <= i <= |t| && SkipAtom(t, i).Some? && SkipAtom(t, i).value <= b <= |t|
    ensures SkipAtom(t[a..b], i - a) == Some(SkipAtom(t, i).value - a)
  {
    hide SkipNumber, Match;
    CutMatch(t, a, b, i, TRUE);
    CutMatch(t, a, b, i, FALSE);
    CutMatch(t, a, b, i, NULL);
    if !Match(t, i, TRUE) && !Match(t, i, FALSE) && !Match(t, i, NULL) {
      CutNumber(t, a, b, i);
    }
  }

  lemma CutElement(t: bytes, a: nat, b: nat, j: nat, closer: byte)
    requires a <= j <= b <= |t|
    requires var sep := AfterElement(t, j, closer); !sep.Bad? && sep.at <= b
    ensures var sep := AfterElement(t, j, closer);
            AfterElement(t[a..b], j - a, closer) == sep.(at := sep.at - a)
  {
    var k := SkipWs(t, j);
    CutWs(t, a, b, j);
    CutHas(t, a, b, k, COMMA);
    CutHas(t, a, b, k, closer);
    if Has(t, k, COMMA) {
      CutWs(t, a, b, k + 1);
    }
  }

  lemma CutMemberStart(t: bytes, a: nat, b: nat, i: nat)
    requires a <= i <= |t| && MemberStart(t, i).Some? && MemberStart(t, i).value <= b <= |t|
    ensures MemberStart(t[a..b], i - a) == Some(MemberStart(t, i).value - a)
  {
    hide StringTail;
    CutHas(t, a, b, i, QUOTE);
    CutStringTail(t, a, b, i + 1);
    var j := SkipString(t, i).value;
    var k := SkipWs(t, j);
    CutWs(t, a, b, j);
    CutHas(t, a, b, k, COLON);
    CutWs(t, a, b, k + 1);
  }

  lemma {:induction false} CutValue(t: bytes, a: nat, b: nat, i: nat)
    requires a <= i <= |t| && SkipValue(t, i).Some? && SkipValue(t, i).value <= b <= |t|
    ensures SkipValue(t[a..b], i - a) == Some(SkipValue(t, i).value - a)
    decreases |t| - i, 1
  {
    hide Items, Members, SkipAtom, StringTail, SkipWs, Match;
    G.SkipWsTwice(t, i);
    var j := SkipWs(t, i);
    CutWs(t, a, b, i);
    assert t[a..b][j - a] == t[j];
    if t[j] == QUOTE {
      CutStringTail(t, a, b, j + 1);
    } else if t[j] == OPEN_BRACE || t[j] == OPEN_BRACKET {
      CutWs(t, a, b, j + 1);
      var k := SkipWs(t, j + 1);
      CutHas(t, a, b, k, CLOSE_BRACE);
      CutHas(t, a, b, k, CLOSE_BRACKET);
      if t[j] == OPEN_BRACE && !Has(t, k, CLOSE_BRACE) {
        CutMembers(t, a, b, k);
      } else if t[j] == OPEN_BRACKET && !Has(t, k, CLOSE_BRACKET) {
        CutItems(t, a, b, k);
      }
    } else {
      CutAtom(t, a, b, j);
    }
  }

  lemma ItemsGoOn(t: bytes, i: nat)
    requires i <= |t| && Items(t, i).Some?
    ensures i < |t| && SkipValue(t, i).Some?
    ensures var sep := AfterElement(t, SkipValue(t, i).value, CLOSE_BRACKET);
            && !sep.Bad?
            && Items(t, i) == if sep.Next? then Items(t, sep.at) else Some(sep.at)
  {
    hide SkipValue, AfterElement;
  }

  lemma {:induction false} CutItems(t: bytes, a: nat, b: nat, i: nat)
    requires a <= i <= |t| && Items(t, i).Some? && Items(t, i).value <= b <= |t|
    ensures Items(t[a..b], i - a) == Some(Items(t, i).value - a)
    decreases |t| - i, 2
  {
    hide SkipValue, AfterElement, Items;
    ItemsGoOn(t, i);
    var j := SkipValue(t, i).value;
    var sep := AfterElement(t, j, CLOSE_BRACKET);
    if sep.Next? {
      CutItems(t, a, b, sep.at);
    }
    CutValue(t, a, b, i);
    CutElement(t, a, b, j, CLOSE_BRACKET);
    G.ItemsStep(t[a..b], i - a, j - a);
  }

  lemma {:induction false} CutMembers(t: bytes, a: nat, b: nat, i: nat)
    requires a <= i <= |t| && Members(t, i).Some? && Members(t, i).value <= b <= |t|
    ensures Members(t[a..b], i - a) == Some(Members(t, i).value - a)
    decreases |t| - i, 2
  {
    hide Members, SkipValue, AfterElement, MemberStart, SkipWs, SkipString;
    var m, j := MembersParts(t, i);
    var sep := AfterElement(t, j, CLOSE_BRACE);
    G.MembersStep(t, i, m, j);
    CutMemberStart(t, a, b, i);
    CutValue(t, a, b, m);
    CutElement(t, a, b, j, CLOSE_BRACE);
    G.MembersStep(t[a..b], i - a, m - a, j - a);
    if sep.Next? {
      CutMembers(t, a, b, sep.at);
    }
  }

  lemma MembersParts(t: bytes, i: nat) returns (m: nat, j: nat)
    requires i <= |t| && Members(t, i).Some?
    ensures MemberStart(t, i) == Some(m) && i < m <= |t| && SkipValue(t, m) == Some(j) && m < j <= |t|
    ensures var sep := AfterElement(t, j, CLOSE_BRACE); !sep.Bad? && j < sep.at <= Members(t, i).value
  {
    hide SkipValue, AfterElement, MemberStart;
    m := MemberStart(t, i).value;
    j := SkipValue(t, m).value;
  }

  /** A trimmed text that the value skipper consumes exactly. */
  predicate CompleteToken(v: bytes) {
    SkipValue(v, 0) == Some(|v|) && Trim(v) == v
  }

  lemma SliceIsToken(t: bytes, m: nat, n: nat)
    requires m <= |t| && SkipWs(t, m) == m && SkipValue(t, m) == Some(n)
    ensures Trim(t[m..n]) == t[m..n] && CompleteToken(t[m..n])
  {
    hide SkipValue, Trim;
    var v := t[m..n];
    CutValue(t, m, n, m);
    Solid(t, m);
    assert v[0] == t[m] && v[|v| - 1] == t[n - 1];
    TrimSolid(v);
  }

  lemma Solid(t: bytes, m: nat)
    requires m <= |t| && SkipWs(t, m) == m
    ensures m < |t| ==> !IsWs(t[m])
  {
  }

  lemma {:induction false} WalkStoresTokens(t: bytes, i: nat)
    requires i <= |t| && WalkMembers(t, i).Some?
    ensures forall p :: 0 <= p < |WalkMembers(t, i).value.members| ==>
              CompleteToken(WalkMembers(t, i).value.members[p].1)
    decreases |t| - i
  {
    hide SkipString, SkipValue, AfterElement, KeyOf, Trim, CompleteToken;
    var m := MemberStart(t, i).value;
    MemberValueStart(t, i);
    var n := SkipValue(t, m).value;
    SliceIsToken(t, m, n);
    var sep := AfterElement(t, n, CLOSE_BRACE);
    if sep.Next? {
      WalkStoresTokens(t, sep.at);
    }
  }

  lemma MemberValueStart(t: bytes, i: nat)
    requires i <= |t| && MemberStart(t, i).Some?
    ensures SkipWs(t, MemberStart(t, i).value) == MemberStart(t, i).value
  {
  }

  /** Every value slice an object walk stores is one complete value token. */
  lemma StoredValuesAreTokens(text: bytes)
    requires WalkObject(text).Some?
    ensures forall p :: 0 <= p < |WalkObject(text).value.members| ==>
              CompleteToken(WalkObject(text).value.members[p].1)
  {
    var t := Trim(text);
    if !Has(t, SkipWs(t, 1), CLOSE_BRACE) {
      WalkStoresTokens(t, SkipWs(t, 1));
    }
  }

  // ---- White space around a token ---------------------------------------------------------------

  lemma {:induction false} TrimEndRun(t: bytes, lo: nat, hi: nat, last: nat)
    requires lo < last <= hi <= |t| && !IsWs(t[last - 1])
    requires forall k :: last <= k < hi ==> IsWs(t[k])
    ensures TrimEnd(t, lo, hi) == last
    decreases hi
  {
    if last < hi {
      TrimEndRun(t, lo, hi - 1, last);
    }
  }

  lemma TrimAround(before: bytes, r: bytes, after: bytes)
    requires G.AllWs(before) && G.AllWs(after) && r != [] && !IsWs(r[0]) && !IsWs(r[|r| - 1])
    ensures Trim(before + r + after) == r
  {
    var t := before + r + after;
    var lo, last := |before|, |before| + |r|;
    assert t[lo] == r[0] && t[last - 1] == r[|r| - 1];
    assert Match(t, 0, before) by { assert t[0..lo] == before; }
    G.SkipWsRun(t, 0, before);
    assert forall k :: last <= k < |t| ==> t[k] == after[k - last];
    TrimEndRun(t, lo, |t|, last);
    assert t[lo..last] == r;
  }

  lemma {:induction false} SkippedIsWs(t: bytes, i: nat)
    requires i <= |t|
    ensures forall k :: i <= k < SkipWs(t, i) ==> IsWs(t[k])
    decreases |t| - i
  {
    if i < |t| && IsWs(t[i]) {
      SkippedIsWs(t, i + 1);
    }
  }

  lemma {:induction false} EndIsWs(t: bytes, lo: nat, hi: nat)
    requires lo <= hi <= |t|
    ensures forall k :: TrimEnd(t, lo, hi) <= k < hi ==> IsWs(t[k])
    decreases hi
  {
    if lo < hi && IsWs(t[hi - 1]) {
      EndIsWs(t, lo, hi - 1);
    }
  }

  /** A text is its trim between two runs of white space. */
  lemma TrimSplits(t: bytes) returns (before: bytes, after: bytes)
    ensures G.AllWs(before) && G.AllWs(after) && t == before + Trim(t) + after
  {
    var lo := SkipWs(t, 0);
    var hi := TrimEnd(t, lo, |t|);
    SkippedIsWs(t, 0);
    EndIsWs(t, lo, |t|);
    before, after := t[..lo], t[hi..];
  }

  // ---- String tokens as they are given to the decoder ----------------------------------------------

  function Token(body: bytes): bytes {
    [QUOTE] + body + [QUOTE]
  }

  /** The last byte of a well-formed text, if it is ASCII, stands on its own. */
  lemma {:induction false} DropAscii(s: bytes, c: byte)
    requires Utf8.WellFormed(s + [c]) && c < 0x80
    ensures Utf8.WellFormed(s)
    decreases |s|
  {
    if s != [] {
      var t := s + [c];
      var n := Utf8.CharLength(t);
      SameLength(s, c);
      assert t[n..] == s[n..] + [c];
      DropAscii(s[n..], c);
    }
  }

  lemma SameLength(s: bytes, c: byte)
    requires s != [] && c < 0x80 && Utf8.CharLength(s + [c]) > 0
    ensures Utf8.CharLength(s) == Utf8.CharLength(s + [c])
  {
    var t := s + [c];
    assert forall k :: 0 <= k < |s| ==> t[k] == s[k];
    assert t[|s|] == c;
  }

  lemma {:induction false} DropWs(s: bytes, ws: bytes)
    requires Utf8.WellFormed(s + ws) && G.AllWs(ws)
    ensures Utf8.WellFormed(s)
    decreases |ws|
  {
    if ws == [] {
      assert s + ws == s;
    } else {
      var front, c := ws[..|ws| - 1], ws[|ws| - 1];
      assert s + ws == s + front + [c];
      DropAscii(s + front, c);
      DropWs(s, front);
    }
  }

  /** The body of a well-formed token is well-formed. */
  lemma BodyWellFormed(before: bytes, body: bytes, after: bytes)
    requires G.AllWs(before) && G.AllWs(after) && Utf8.WellFormed(before + Token(body) + after)
    ensures Utf8.WellFormed(body)
  {
    hide Utf8.WellFormed;
    DropWs(before + Token(body), after);
    WellFormedAsciiRun(before, Token(body));
    DropAscii([QUOTE] + body, QUOTE);
    WellFormedAsciiRun([QUOTE], body);
  }

  /**
   * The decoder as it is called: a token with its quotes and any white space around it
   * decodes to the UTF-8 of what its body denotes, or fails exactly when that is nothing.
   */
  lemma TokenIsDenotation(before: bytes, items: seq<Item>, after: bytes)
    requires G.AllWs(before) && G.AllWs(after) && ValidItems(items)
    ensures DecodeString(before + Token(RenderItems(items)) + after)
         == match Denote(items) case None => None case Some(cps) => Some(Utf8.EncodeAll(cps))
  {
    var body := RenderItems(items);
    TrimAround(before, Token(body), after);
    DecodeIsDenotation(items);
    hide Trim, DecodeBody, Denote, RenderItems;
    assert Token(body)[1..|Token(body)| - 1] == body;
  }

  /** Well-formed text that decodes as a string token denotes code points, and yields their UTF-8. */
  lemma TokenPreserved(text: bytes) returns (items: seq<Item>)
    requires Utf8.WellFormed(text) && DecodeString(text).Some?
    ensures ValidItems(items) && Trim(text) == Token(RenderItems(items)) && Denote(items).Some?
    ensures DecodeString(text).value == Utf8.EncodeAll(Denote(items).value)
    ensures Utf8.WellFormed(DecodeString(text).value)
  {
    var before, after := TrimSplits(text);
    var t := Trim(text);
    var body := t[1..|t| - 1];
    assert t == Token(body);
    hide Trim, Utf8.WellFormed, DecodeBody, Denote, RenderItems;
    BodyWellFormed(before, body, after);
    items := Utf8Preserved(body);
  }
}
