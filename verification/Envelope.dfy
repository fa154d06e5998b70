// The envelope round trip: what the printers write, the object walker reads back
// member by member, and each token decodes to the value it was printed from.

module Envelope {
  import opened Wrappers
  import opened Bytes
  import opened JsonScan
  import opened JsonString
  import opened JsonMembers
  import opened JsonTokens
  import opened JsonNumber
  import opened JsonPrint
  import G = JsonGrammar

  // ---- Walking any object the scanner takes ---------------------------------------------

  predicate KeysDecodable(l: G.MemberList) {
    KeyOf(G.RenderString(l.key)).Some? && (l.MoreMembers? ==> KeysDecodable(l.rest))
  }

  /** The members of the object in order: decoded key and rendered value. */
  function MemberTokens(l: G.MemberList): Entries
    requires KeysDecodable(l)
  {
    [(KeyOf(G.RenderString(l.key)).value, G.Render(l.v))]
    + if l.LastMember? then [] else MemberTokens(l.rest)
  }

  lemma KeyTokenAt(t: bytes, i: nat, l: G.MemberList)
    requires G.ValidChars(l.key) && Match(t, i, G.RenderMembers(l))
    ensures SkipString(t, i) == Some(i + |G.RenderString(l.key)|)
    ensures t[i..i + |G.RenderString(l.key)|] == G.RenderString(l.key)
  {
    var key := G.RenderString(l.key);
    var afterKey := l.beforeColon + ([COLON] + l.afterColon);
    var m := G.RenderMembers(l);
    assert m == G.RenderKey(l) + m[|G.RenderKey(l)|..];
    MatchSplit(t, i, G.RenderKey(l), m[|G.RenderKey(l)|..]);
    MatchSplit(t, i, key, afterKey);
    G.SkipStringExact(t, i, l.key);
  }

  lemma ValueTokenAt(t: bytes, m: nat, v: G.Value)
    requires G.Loose(v) && Match(t, m, G.Render(v)) && G.Stops(t, m + |G.Render(v)|)
    ensures SkipValue(t, m) == Some(m + |G.Render(v)|)
    ensures Trim(t[m..m + |G.Render(v)|]) == G.Render(v) && CompleteToken(G.Render(v))
  {
    hide SkipValue, SkipWs, Trim, G.Render, G.Loose, CompleteToken;
    G.SkipValueExact(t, m, v);
    G.ValueHeadAt(t, m, v);
    SliceIsToken(t, m, m + |G.Render(v)|);
  }

  /** One member of the walk, its key and value slices named. */
  lemma WalkOne(t: bytes, j: nat, k: nat, key: bytes, m: nat, n: nat)
    requires j <= k <= |t| && SkipString(t, j) == Some(k) && KeyOf(t[j..k]) == Some(key)
    requires MemberStart(t, j) == Some(m) && SkipValue(t, m) == Some(n)
    ensures var sep := AfterElement(t, n, CLOSE_BRACE);
            WalkMembers(t, j) ==
            match sep
            case Next(k) => AddMember(key, Trim(t[m..n]), WalkMembers(t, k))
            case Done(k) => Some(Walk([(key, Trim(t[m..n]))], k - 1))
            case Bad => None
  {
  }

  lemma {:induction false} WalkMembersExact(t: bytes, j: nat, l: G.MemberList)
    requires G.LooseMembers(l) && KeysDecodable(l) && Match(t, j, G.RenderMembers(l))
    ensures WalkMembers(t, j) == Some(Walk(MemberTokens(l), j + |G.RenderMembers(l)| - 1))
    decreases l
  {
    hide SkipValue, Match, G.Stops, G.Render, G.RenderMembers, G.RenderString;
    hide AfterElement, MemberStart, WalkMembers, KeyOf;
    var m, n;
    if l.LastMember? {
      assert MemberTokens(l) == [(KeyOf(G.RenderString(l.key)).value, G.Render(l.v))];
      m := G.LastMemberParts(t, j, l);
    } else {
      m, n := G.MoreMembersParts(t, j, l);
      WalkMembersExact(t, n, l.rest);
    }
    WalkFirst(t, j, l, m);
  }

  /** The walk takes the first member's key and value and goes on behind them. */
  lemma WalkFirst(t: bytes, j: nat, l: G.MemberList, m: nat)
    requires G.LooseMembers(l) && KeysDecodable(l) && Match(t, j, G.RenderMembers(l))
    requires MemberStart(t, j) == Some(m) && Match(t, m, G.Render(l.v)) && G.Stops(t, m + |G.Render(l.v)|)
    ensures var key, v := KeyOf(G.RenderString(l.key)).value, G.Render(l.v);
            WalkMembers(t, j) ==
            match AfterElement(t, m + |v|, CLOSE_BRACE)
            case Next(k) => AddMember(key, v, WalkMembers(t, k))
            case Done(k) => Some(Walk([(key, v)], k - 1))
            case Bad => None
  {
    hide SkipValue, SkipString, Match, G.Stops, G.Render, G.RenderMembers, G.RenderString;
    hide AfterElement, MemberStart, WalkMembers, KeyOf, Trim, CompleteToken;
    KeyTokenAt(t, j, l);
    ValueTokenAt(t, m, l.v);
    WalkOne(t, j, j + |G.RenderString(l.key)|, KeyOf(G.RenderString(l.key)).value, m, m + |G.Render(l.v)|);
  }

  lemma TrimValue(v: G.Value)
    requires G.Loose(v)
    ensures Trim(G.Render(v)) == G.Render(v)
  {
    var r := G.Render(v);
    assert r[0..|r|] == r;
    ValueTokenAt(r, 0, v);
  }

  /** An object whose keys decode. */
  predicate ReadableObject(v: G.Value) {
    G.Loose(v) && (v.EmptyObject? || (v.Object? && KeysDecodable(v.members)))
  }

  /** Its members in order, the last of a repeated key winning. */
  function EntriesOf(v: G.Value): Entries
    requires ReadableObject(v)
  {
    if v.EmptyObject? then [] else AssignAll([], MemberTokens(v.members))
  }

  /** The text is the object, with outer white space and anything at all after it. */
  predicate OpensWith(text: bytes, v: G.Value, rest: bytes) {
    ReadableObject(v) && Trim(text) == G.Render(v) + rest
  }

  /** Such a text parses to the object's members; what follows the object is ignored. */
  lemma ParserTakes(text: bytes, v: G.Value, rest: bytes)
    requires OpensWith(text, v, rest)
    ensures ParseObject(text) == Some(EntriesOf(v))
  {
    hide Match, Trim, ParseObject, G.Render, G.Loose;
    MatchPrefix(Trim(text), G.Render(v), rest);
    if v.EmptyObject? {
      TakesEmpty(text, v);
    } else {
      TakesMembers(text, v);
    }
  }

  lemma TakesEmpty(text: bytes, v: G.Value)
    requires G.Loose(v) && v.EmptyObject? && Match(Trim(text), 0, G.Render(v))
    ensures ParseObject(text) == Some([])
  {
    hide WalkMembers, Trim, SkipWs, Match, ParseObject;
    G.Bracketed(Trim(text), 0, OPEN_BRACE, v.ws, [CLOSE_BRACE]);
    ParseStep(text);
  }

  lemma TakesMembers(text: bytes, v: G.Value)
    requires G.Loose(v) && v.Object? && KeysDecodable(v.members) && Match(Trim(text), 0, G.Render(v))
    ensures ParseObject(text) == Some(AssignAll([], MemberTokens(v.members)))
  {
    hide WalkMembers, Trim, SkipWs, Match, ParseObject, AssignAll;
    hide G.LooseMembers, G.RenderMembers, KeysDecodable, MemberTokens;
    var t := Trim(text);
    G.MembersHead(v.members);
    G.Bracketed(t, 0, OPEN_BRACE, v.ws, G.RenderMembers(v.members));
    hide G.Render;
    WalkMembersExact(t, 1 + |v.ws|, v.members);
    ParseStep(text);
  }

  lemma MatchPrefix(t: bytes, r: bytes, rest: bytes)
    requires t == r + rest
    ensures Match(t, 0, r)
  {
    assert t[0..|r|] == r;
  }

  lemma ParseStep(text: bytes)
    requires Has(Trim(text), 0, OPEN_BRACE)
    ensures var t := Trim(text); var j := SkipWs(t, 1);
            ParseObject(text)
            == if Has(t, j, CLOSE_BRACE) then Some([])
               else match WalkMembers(t, j) case None => None case Some(w) => Some(AssignAll([], w.members))
  {
    hide Trim, SkipWs, WalkMembers;
  }

  /** A walk that succeeds has decoded every key. */
  lemma {:induction false} WalkedKeysDecode(t: bytes, i: nat, l: G.MemberList)
    requires G.LooseMembers(l) && Match(t, i, G.RenderMembers(l)) && WalkMembers(t, i).Some?
    ensures KeysDecodable(l)
    decreases l
  {
    hide SkipValue, SkipString, Match, G.Stops, G.Render, G.RenderMembers, G.RenderString;
    hide AfterElement, MemberStart, KeyOf, Trim, WalkMembers, CompleteToken;
    KeyTokenAt(t, i, l);
    var m, n;
    if l.LastMember? {
      m := G.LastMemberParts(t, i, l);
    } else {
      m, n := G.MoreMembersParts(t, i, l);
    }
    ValueTokenAt(t, m, l.v);
    WalkedOne(t, i, i + |G.RenderString(l.key)|, m, m + |G.Render(l.v)|);
    if l.MoreMembers? {
      WalkedKeysDecode(t, n, l.rest);
    }
  }

  lemma WalkedOne(t: bytes, j: nat, k: nat, m: nat, n: nat)
    requires j <= k <= |t| && SkipString(t, j) == Some(k) && WalkMembers(t, j).Some?
    requires MemberStart(t, j) == Some(m) && SkipValue(t, m) == Some(n)
    ensures KeyOf(t[j..k]).Some?
    ensures var sep := AfterElement(t, n, CLOSE_BRACE); sep.Next? ==> WalkMembers(t, sep.at).Some?
  {
    hide KeyOf, Trim, SkipString, SkipValue, MemberStart, AfterElement;
  }

  /**
   * The parser's language: a text parses if and only if, white space aside, it opens
   * with an object of the scanner's grammar whose keys all decode.
   */
  lemma ParserExact(text: bytes)
    ensures ParseObject(text).Some? <==> exists v, rest :: OpensWith(text, v, rest)
  {
    if ParseObject(text).Some? {
      var v, rest := ParsedObject(text);
    }
    if v, rest :| OpensWith(text, v, rest) {
      ParserTakes(text, v, rest);
    }
  }

  lemma ParsedObject(text: bytes) returns (v: G.Value, rest: bytes)
    requires ParseObject(text).Some?
    ensures OpensWith(text, v, rest)
  {
    hide ParseObject, Trim, SkipObject, G.Loose, G.Render, KeysDecodable, Match, ObjectKeysDecode;
    SkippedToo(text);
    var t := Trim(text);
    var j := SkipObject(t, 0).value;
    v := G.ObjectFound(t, 0, j);
    rest := t[j..];
    MatchedPrefix(t, G.Render(v));
    if v.Object? {
      ParsedKeysDecode(text, v);
    }
  }

  lemma SkippedToo(text: bytes)
    requires ParseObject(text).Some?
    ensures SkipObject(Trim(text), 0).Some? && Has(Trim(text), 0, OPEN_BRACE)
  {
    TwoWalkersAgree(text);
    hide Trim, ObjectKeysDecode, WalkMembers;
  }

  lemma MatchedPrefix(t: bytes, r: bytes)
    requires Match(t, 0, r)
    ensures t == r + t[|r|..]
  {
    assert t[0..|r|] == r;
  }

  lemma ParsedKeysDecode(text: bytes, v: G.Value)
    requires ParseObject(text).Some? && G.Loose(v) && v.Object? && Match(Trim(text), 0, G.Render(v))
    ensures KeysDecodable(v.members)
  {
    hide ParseObject, WalkMembers, Trim, SkipWs, Match, AssignAll, G.LooseMembers, G.RenderMembers, KeysDecodable;
    var t := Trim(text);
    G.MembersHead(v.members);
    G.Bracketed(t, 0, OPEN_BRACE, v.ws, G.RenderMembers(v.members));
    hide G.Render;
    ParseStep(text);
    WalkedKeysDecode(t, 1 + |v.ws|, v.members);
  }

  /** Parsing an object whose keys decode gives its members, the last of a key winning. */
  lemma ParseObjectExact(v: G.Value)
    requires G.Loose(v) && v.Object? && KeysDecodable(v.members)
    ensures ParseObject(G.Render(v)) == Some(AssignAll([], MemberTokens(v.members)))
  {
    hide G.Render, G.Loose, KeysDecodable, MemberTokens, AssignAll, Trim, ParseObject;
    TrimValue(v);
    assert G.Render(v) == G.Render(v) + [];
    ParserTakes(G.Render(v), v, []);
  }

  lemma ParseEmptyObject(v: G.Value)
    requires G.Loose(v) && v.EmptyObject?
    ensures ParseObject(G.Render(v)) == Some([])
  {
    hide G.Render, G.Loose, Trim, ParseObject;
    TrimValue(v);
    assert G.Render(v) == G.Render(v) + [];
    ParserTakes(G.Render(v), v, []);
  }

  // ---- Arrays ---------------------------------------------------------------------------

  function AddElement(v: bytes, r: Option<seq<bytes>>): Option<seq<bytes>> {
    match r case None => None case Some(s) => Some([v] + s)
  }

  /** Element slices from the element that starts at `i`. */
  function ElementTokens(t: bytes, i: nat): Option<seq<bytes>>
    requires i <= |t|
    decreases |t| - i
  {
    match SkipValue(t, i)
    case None => None
    case Some(j) =>
      match AfterElement(t, j, CLOSE_BRACKET)
      case Next(k) => AddElement(Trim(t[i..j]), ElementTokens(t, k))
      case Done(k) => Some([Trim(t[i..j])])
      case Bad => None
  }

  function ParseArray(text: bytes): Option<seq<bytes>> {
    var t := Trim(text);
    if !Has(t, 0, OPEN_BRACKET) then None
    else
      var j := SkipWs(t, 1);
      if Has(t, j, CLOSE_BRACKET) then Some([]) else ElementTokens(t, j)
  }

  function Extend(acc: seq<bytes>, r: Option<seq<bytes>>): Option<seq<bytes>> {
    match r case None => None case Some(s) => Some(acc + s)
  }

  lemma ExtendStep(acc: seq<bytes>, v: bytes, r: Option<seq<bytes>>)
    ensures Extend(acc, AddElement(v, r)) == Extend(acc + [v], r)
    ensures Extend([], r) == r
  {
    if r.Some? {
      assert acc + ([v] + r.value) == acc + [v] + r.value;
      assert [] + r.value == r.value;
    }
  }

  method ParseArrayElements(arrayJson: bytes) returns (out: Option<seq<bytes>>)
    ensures out == ParseArray(arrayJson)
  {
    var text := TrimView(arrayJson);
    if |text| == 0 || text[0] != OPEN_BRACKET {
      return None;
    }
    var i := SkipWsLoop(text, 1);
    if i < |text| && text[i] == CLOSE_BRACKET {
      return Some([]);
    }
    var elements := [];
    ExtendStep([], [], ElementTokens(text, i));
    while i < |text|
      invariant i <= |text|
      invariant Extend(elements, ElementTokens(text, i)) == ParseArray(arrayJson)
    {
      hide SkipValue, AfterElement, Trim, ParseArray;
      var ok, after := SkipValueToken(text, i);
      if !ok {
        return None;
      }
      var element := TrimView(text[i..after]);
      var sep := AfterElementLoop(text, after, CLOSE_BRACKET);
      match sep
      case Next(at) =>
        ExtendStep(elements, element, ElementTokens(text, at));
        elements := elements + [element];
        i := at;
      case Done(at) => return Some(elements + [element]);
      case Bad => return None;
    }
    out := None;
  }

  function ItemTokens(l: G.ItemList): seq<bytes> {
    [G.Render(l.v)] + if l.LastItem? then [] else ItemTokens(l.rest)
  }

  lemma {:induction false} ElementTokensExact(t: bytes, j: nat, l: G.ItemList)
    requires G.LooseItems(l) && Match(t, j, G.RenderItems(l))
    ensures ElementTokens(t, j) == Some(ItemTokens(l))
    decreases l
  {
    hide SkipValue, Match, G.Stops, G.Render, G.RenderItems, AfterElement, Trim;
    if l.LastItem? {
      assert ItemTokens(l) == [G.Render(l.v)];
      G.LastItemParts(t, j, l);
    } else {
      var n := G.MoreItemsParts(t, j, l);
      ElementTokensExact(t, n, l.rest);
    }
    ValueTokenAt(t, j, l.v);
  }

  /** Parsing an array the scanner takes gives its elements in order. */
  lemma ParseArrayExact(v: G.Value)
    requires G.Loose(v) && (v.Array? || v.EmptyArray?)
    ensures ParseArray(G.Render(v)) == Some(if v.Array? then ItemTokens(v.items) else [])
  {
    hide ElementTokens, ItemTokens, Trim, SkipWs, G.LooseItems, G.RenderItems;
    var t := G.Render(v);
    TrimValue(v);
    assert Match(t, 0, t) by { assert t[0..|t|] == t; }
    if v.Array? {
      G.ItemsHead(v.items);
      G.Bracketed(t, 0, OPEN_BRACKET, v.ws, G.RenderItems(v.items));
      ElementTokensExact(t, 1 + |v.ws|, v.items);
    } else {
      G.Bracketed(t, 0, OPEN_BRACKET, v.ws, [CLOSE_BRACKET]);
    }
    hide G.Render;
  }

  // ---- What the printers write is RFC 8259 -------------------------------------------------

  function ByteChars(c: byte): seq<G.Char> {
    var e := EscapeByte(c);
    if |e| == 1 then [G.Plain(c)]
    else if |e| == 2 then [G.Escaped(e[1])]
    else [G.Escaped(e[1]), G.Plain(e[2]), G.Plain(e[3]), G.Plain(e[4]), G.Plain(e[5])]
  }

  function TextChars(s: bytes): seq<G.Char> {
    if s == [] then [] else ByteChars(s[0]) + TextChars(s[1..])
  }

  lemma {:induction false} RenderCharsAppend(a: seq<G.Char>, b: seq<G.Char>)
    ensures G.RenderChars(a + b) == G.RenderChars(a) + G.RenderChars(b)
  {
    if a == [] {
      assert a + b == b;
    } else {
      assert (a + b)[1..] == a[1..] + b;
      RenderCharsAppend(a[1..], b);
    }
  }

  lemma ByteCharsRender(c: byte)
    ensures G.RenderChars(ByteChars(c)) == EscapeByte(c) && G.ValidChars(ByteChars(c))
  {
    var cs := ByteChars(c);
    if |cs| == 5 {
      assert cs[1..][1..] == cs[2..] && cs[2..][1..] == cs[3..] && cs[3..][1..] == cs[4..];
      assert G.RenderChars(cs[4..]) == EscapeByte(c)[5..];
      assert G.RenderChars(cs[3..]) == EscapeByte(c)[4..];
      assert G.RenderChars(cs[2..]) == EscapeByte(c)[3..];
      assert G.RenderChars(cs[1..]) == EscapeByte(c)[2..];
    }
  }

  lemma {:induction false} TextCharsRender(s: bytes)
    ensures G.ValidChars(TextChars(s)) && G.RenderChars(TextChars(s)) == EscapeAll(s)
    ensures G.RenderString(TextChars(s)) == Quoted(s)
  {
    if s != [] {
      ByteCharsRender(s[0]);
      TextCharsRender(s[1..]);
      RenderCharsAppend(ByteChars(s[0]), TextChars(s[1..]));
    }
  }

  function NumberJson(n: int): G.Number {
    G.Number(if n < 0 then Some(MINUS) else None, Digits(Magnitude(n)), None, None)
  }

  lemma NumberJsonRender(n: int)
    ensures G.ValidNumber(NumberJson(n)) && G.RenderNumber(NumberJson(n)) == Decimal(n)
  {
    DigitsValueOfDigits(Magnitude(n));
  }

  function ScalarJson(v: Scalar): G.Value {
    match v
    case Nothing => G.Null
    case Bool(b) => if b then G.True else G.False
    case Int(i) => G.Num(NumberJson(i))
    case Real(d) => if d.NotFinite? then G.Null else G.Num(DoubleNumber(d))
    case Text(s) => G.Str(TextChars(s))
  }

  lemma ScalarJsonRender(v: Scalar)
    ensures G.Valid(ScalarJson(v)) && G.Render(ScalarJson(v)) == PrintScalar(v)
  {
    match v
    case Int(i) => NumberJsonRender(i);
    case Real(d) =>
      if !d.NotFinite? {
        DoublePrints(d);
      }
    case Text(s) => TextCharsRender(s);
    case _ =>
  }

  function ItemsJson(vs: seq<Scalar>): G.ItemList
    requires vs != []
  {
    if |vs| == 1 then G.LastItem(ScalarJson(vs[0]), [])
    else G.MoreItems(ScalarJson(vs[0]), [], [], ItemsJson(vs[1..]))
  }

  lemma {:induction false} ItemsJsonRender(vs: seq<Scalar>)
    requires vs != []
    ensures G.ValidItems(ItemsJson(vs))
    ensures G.RenderItems(ItemsJson(vs)) == PrintItems(vs) + [CLOSE_BRACKET]
    ensures |ItemTokens(ItemsJson(vs))| == |vs|
    ensures forall k :: 0 <= k < |vs| ==> ItemTokens(ItemsJson(vs))[k] == PrintScalar(vs[k])
    decreases |vs|
  {
    hide PrintScalar, ScalarJson, G.Render, G.Valid;
    var l := ItemsJson(vs);
    ScalarJsonRender(vs[0]);
    if |vs| > 1 {
      ItemsJsonRender(vs[1..]);
      assert PrintItems(vs) == PrintScalar(vs[0]) + ([COMMA] + PrintItems(vs[1..]));
      assert G.RenderItems(l) == G.Render(l.v) + ([] + ([COMMA] + ([] + G.RenderItems(l.rest))));
      assert ItemTokens(l) == [G.Render(l.v)] + ItemTokens(l.rest);
    } else {
      assert G.RenderItems(l) == G.Render(l.v) + ([] + [CLOSE_BRACKET]);
      assert ItemTokens(l) == [G.Render(l.v)] + [];
    }
  }

  function FieldJson(f: Field): G.Value {
    match f
    case One(v) => ScalarJson(v)
    case Many(vs) => if vs == [] then G.EmptyArray([]) else G.Array([], ItemsJson(vs))
  }

  lemma FieldJsonRender(f: Field)
    ensures G.Valid(FieldJson(f)) && G.Render(FieldJson(f)) == PrintField(f)
  {
    match f
    case One(v) => ScalarJsonRender(v);
    case Many(vs) =>
      if vs != [] {
        ItemsJsonRender(vs);
      }
  }

  // Objects are written from pairs of a key and an RFC 8259 value.
  type Pairs = seq<(bytes, G.Value)>

  predicate ValidPairs(ps: Pairs) {
    forall k :: 0 <= k < |ps| ==> G.Valid(ps[k].1)
  }

  function PairsJson(ps: Pairs): G.MemberList
    requires ps != []
  {
    if |ps| == 1 then G.LastMember(TextChars(ps[0].0), [], [], ps[0].1, [])
    else G.MoreMembers(TextChars(ps[0].0), [], [], ps[0].1, [], [], PairsJson(ps[1..]))
  }

  function PairTokens(ps: Pairs): Entries {
    seq(|ps|, k requires 0 <= k < |ps| => (ps[k].0, G.Render(ps[k].1)))
  }

  function PrintPairs(ps: Pairs): bytes
    requires ps != []
  {
    PrintMember(ps[0].0, G.Render(ps[0].1)) + if |ps| == 1 then [] else [COMMA] + PrintPairs(ps[1..])
  }

  /** Without escapes the quoted key is the key; with escapes it decodes to it. */
  lemma KeyOfQuoted(key: bytes)
    ensures KeyOf(Quoted(key)) == Some(key)
  {
    if BACKSLASH !in Quoted(key) {
      assert Quoted(key)[1..|Quoted(key)| - 1] == EscapeAll(key);
      assert forall k :: 0 <= k < |EscapeAll(key)| ==> EscapeAll(key)[k] == Quoted(key)[k + 1];
      NothingEscaped(key);
    } else {
      QuotedRoundTrip(key);
    }
  }

  lemma {:induction false} NothingEscaped(s: bytes)
    requires BACKSLASH !in EscapeAll(s)
    ensures EscapeAll(s) == s
  {
    if s != [] {
      var e := EscapeByte(s[0]);
      assert EscapeAll(s)[0] == e[0];
      assert forall k :: 0 <= k < |EscapeAll(s[1..])| ==> EscapeAll(s[1..])[k] == EscapeAll(s)[k + |e|];
      NothingEscaped(s[1..]);
    }
  }

  lemma {:induction false} PairsJsonRender(ps: Pairs)
    requires ps != [] && ValidPairs(ps)
    ensures G.ValidMembers(PairsJson(ps)) && KeysDecodable(PairsJson(ps))
    ensures G.RenderMembers(PairsJson(ps)) == PrintPairs(ps) + [CLOSE_BRACE]
    ensures MemberTokens(PairsJson(ps)) == PairTokens(ps)
    decreases |ps|
  {
    var key, v := ps[0].0, ps[0].1;
    PairTokensHead(ps);
    if |ps| == 1 {
      hide PairTokens;
      LastPair(key, v);
    } else {
      hide PairTokens, KeysDecodable, MemberTokens, G.ValidMembers, G.RenderMembers, PrintMember, G.Render;
      PairsJsonRender(ps[1..]);
      MorePairs(key, v, PairsJson(ps[1..]));
      Comma(PrintMember(key, G.Render(v)), PrintPairs(ps[1..]));
    }
  }

  lemma Comma(a: bytes, b: bytes)
    ensures a + ([COMMA] + b) + [CLOSE_BRACE] == a + ([COMMA] + (b + [CLOSE_BRACE]))
  {
  }

  lemma LastPair(key: bytes, v: G.Value)
    requires G.Valid(v)
    ensures var l := G.LastMember(TextChars(key), [], [], v, []);
            && G.ValidMembers(l) && KeysDecodable(l)
            && G.RenderMembers(l) == PrintMember(key, G.Render(v)) + [] + [CLOSE_BRACE]
            && MemberTokens(l) == [(key, G.Render(v))]
  {
    hide KeyOf, TextChars, G.Render, G.RenderString, Quoted, G.Valid, G.ValidChars;
    KeyOfQuoted(key);
    TextCharsRender(key);
    assert G.AllWs([]);
  }

  lemma MorePairs(key: bytes, v: G.Value, rest: G.MemberList)
    requires G.Valid(v) && G.ValidMembers(rest) && KeysDecodable(rest)
    ensures var l := G.MoreMembers(TextChars(key), [], [], v, [], [], rest);
            && G.ValidMembers(l) && KeysDecodable(l)
            && G.RenderMembers(l) == PrintMember(key, G.Render(v)) + ([COMMA] + G.RenderMembers(rest))
            && MemberTokens(l) == [(key, G.Render(v))] + MemberTokens(rest)
  {
    hide KeyOf, TextChars, G.Render, G.RenderString, Quoted, G.Valid, G.ValidChars;
    KeyOfQuoted(key);
    TextCharsRender(key);
    assert G.AllWs([]);
  }

  lemma PairTokensHead(ps: Pairs)
    requires ps != []
    ensures PairTokens(ps) == [(ps[0].0, G.Render(ps[0].1))] + PairTokens(ps[1..])
  {
    hide G.Render;
  }

  function ObjectJson(ps: Pairs): G.Value {
    if ps == [] then G.EmptyObject([]) else G.Object([], PairsJson(ps))
  }

  predicate DistinctKeys(ps: Pairs) {
    forall p, q :: 0 <= p < q < |ps| ==> ps[p].0 != ps[q].0
  }

  /** An object printed from pairs with distinct keys parses to exactly those pairs. */
  lemma ObjectRoundTrip(ps: Pairs)
    requires ValidPairs(ps) && DistinctKeys(ps)
    ensures G.Valid(ObjectJson(ps))
    ensures ParseObject(G.Render(ObjectJson(ps))) == Some(PairTokens(ps))
  {
    hide G.Render, ParseObject, MemberTokens, PairsJson, AssignAll;
    if ps == [] {
      assert PairTokens(ps) == [];
      ParseEmptyObject(ObjectJson(ps));
    } else {
      PairsJsonRender(ps);
      G.ValidIsLoose(ObjectJson(ps));
      ParseObjectExact(ObjectJson(ps));
      PairKeys(ps);
      DistinctKeysAppend([], PairTokens(ps));
    }
  }

  lemma PairKeys(ps: Pairs)
    requires DistinctKeys(ps)
    ensures UniqueKeys(PairTokens(ps)) && [] + PairTokens(ps) == PairTokens(ps)
  {
    hide G.Render;
    var e := PairTokens(ps);
    assert [] + e == e;
    forall p, q | 0 <= p < q < |e|
      ensures e[p].0 != e[q].0
    {
      assert e[p].0 == ps[p].0 && e[q].0 == ps[q].0;
    }
  }

  function FieldPairs(fs: Fields): Pairs {
    seq(|fs|, k requires 0 <= k < |fs| => (fs[k].0, FieldJson(fs[k].1)))
  }

  lemma {:induction false} PrintFieldsAsPairs(fs: Fields)
    requires fs != []
    ensures PrintFields(fs) == PrintPairs(FieldPairs(fs))
    decreases |fs|
  {
    hide PrintField, FieldJson, G.Render, PrintMember;
    FieldJsonRender(fs[0].1);
    assert FieldPairs(fs)[1..] == FieldPairs(fs[1..]);
    if |fs| > 1 {
      PrintFieldsAsPairs(fs[1..]);
    }
  }

  lemma PayloadJson(fs: Fields)
    ensures ValidPairs(FieldPairs(fs))
    ensures G.Valid(ObjectJson(FieldPairs(fs))) && G.Render(ObjectJson(FieldPairs(fs))) == PrintPayload(fs)
  {
    hide G.Valid, G.Render, FieldJson, PrintField, PrintFields, PrintPairs;
    forall k | 0 <= k < |fs|
      ensures G.Valid(FieldJson(fs[k].1))
    {
      FieldJsonRender(fs[k].1);
    }
    EmptyPayload();
    if fs != [] {
      PrintFieldsAsPairs(fs);
      PairsJsonRender(FieldPairs(fs));
      RenderPairs(FieldPairs(fs));
      assert [OPEN_BRACE] + (PrintFields(fs) + [CLOSE_BRACE]) == PrintPayload(fs);
    }
  }

  lemma EmptyPayload()
    ensures G.Valid(ObjectJson([])) && G.Render(ObjectJson([])) == PrintPayload([])
  {
  }

  lemma RenderPairs(ps: Pairs)
    requires ps != [] && ValidPairs(ps)
    ensures G.Valid(ObjectJson(ps)) && G.Render(ObjectJson(ps)) == [OPEN_BRACE] + (PrintPairs(ps) + [CLOSE_BRACE])
  {
    PairsJsonRender(ps);
    hide PairsJson, PrintPairs;
    WholeObject(PairsJson(ps), PrintPairs(ps));
  }

  lemma WholeObject(l: G.MemberList, printed: bytes)
    requires G.ValidMembers(l) && G.RenderMembers(l) == printed + [CLOSE_BRACE]
    ensures G.Valid(G.Object([], l)) && G.Render(G.Object([], l)) == [OPEN_BRACE] + (printed + [CLOSE_BRACE])
  {
    hide G.ValidMembers, G.RenderMembers;
    assert [] + G.RenderMembers(l) == G.RenderMembers(l);
  }

  predicate DistinctFields(fs: Fields) {
    forall p, q :: 0 <= p < q < |fs| ==> fs[p].0 != fs[q].0
  }

  /** A printed payload parses to one entry per field, in order. */
  lemma PayloadRoundTrip(fs: Fields)
    requires DistinctFields(fs)
    ensures ParseObject(PrintPayload(fs)).Some?
    ensures var e := ParseObject(PrintPayload(fs)).value;
            |e| == |fs| && forall k :: 0 <= k < |fs| ==> e[k] == (fs[k].0, PrintField(fs[k].1))
  {
    PayloadJson(fs);
    ObjectRoundTrip(FieldPairs(fs));
    forall k | 0 <= k < |fs|
      ensures G.Render(FieldJson(fs[k].1)) == PrintField(fs[k].1)
    {
      FieldJsonRender(fs[k].1);
    }
  }

  /** A printed list parses to one token per scalar, each reading back as it was. */
  lemma ListRoundTrip(vs: seq<Scalar>)
    ensures ParseArray(PrintList(vs)).Some?
    ensures var e := ParseArray(PrintList(vs)).value;
            |e| == |vs| && forall k :: 0 <= k < |vs| ==> ParseScalar(e[k]) == ReadsAs(vs[k])
  {
    FieldJsonRender(Many(vs));
    G.ValidIsLoose(FieldJson(Many(vs)));
    ParseArrayExact(FieldJson(Many(vs)));
    if vs != [] {
      ItemsJsonRender(vs);
    }
    forall k | 0 <= k < |vs|
      ensures ParseScalar(PrintScalar(vs[k])) == ReadsAs(vs[k])
    {
      ScalarRoundTrip(vs[k]);
    }
  }

  /** The token decodes to the field it was printed from. */
  predicate Decodes(token: bytes, f: Field) {
    match f
    case One(v) => ParseScalar(token) == ReadsAs(v)
    case Many(vs) =>
      && ParseArray(token).Some?
      && |ParseArray(token).value| == |vs|
      && forall k :: 0 <= k < |vs| ==> ParseScalar(ParseArray(token).value[k]) == ReadsAs(vs[k])
  }

  lemma FieldRoundTrip(f: Field)
    ensures Decodes(PrintField(f), f)
  {
    match f
    case One(v) => ScalarRoundTrip(v);
    case Many(vs) => ListRoundTrip(vs);
  }

  function EnvelopePairs(command: nat, cmdId: Option<uint64>, fs: Fields): Pairs {
    [(COMMAND_KEY, G.Num(NumberJson(command)))]
    + (if cmdId.Some? then [(CMD_ID_KEY, G.Num(NumberJson(cmdId.value)))] else [])
    + [(PAYLOAD_KEY, ObjectJson(FieldPairs(fs)))]
  }

  lemma EnvelopeKeysDiffer(command: nat, cmdId: Option<uint64>, fs: Fields)
    ensures COMMAND_KEY != CMD_ID_KEY && COMMAND_KEY != PAYLOAD_KEY && CMD_ID_KEY != PAYLOAD_KEY
    ensures DistinctKeys(EnvelopePairs(command, cmdId, fs))
  {
    assert COMMAND_KEY[0] != PAYLOAD_KEY[0];
  }

  lemma EnvelopeJson(command: nat, cmdId: Option<uint64>, fs: Fields)
    ensures ValidPairs(EnvelopePairs(command, cmdId, fs))
    ensures G.Render(ObjectJson(EnvelopePairs(command, cmdId, fs))) == JsonPrint.Envelope(command, cmdId, fs)
  {
    hide PrintMember, G.RenderNumber, PrintPayload, ObjectJson, FieldPairs, G.Valid;
    var ps := EnvelopePairs(command, cmdId, fs);
    NumberPair(command);
    if cmdId.Some? {
      NumberPair(cmdId.value);
    }
    PayloadJson(fs);
    assert ValidPairs(ps);
    var last := ps[|ps| - 1..];
    assert PrintPairs(last) == PrintMember(PAYLOAD_KEY, PrintPayload(fs));
    if cmdId.Some? {
      assert ps[1..][1..] == last;
    }
    RenderObject(ps);
  }

  lemma NumberPair(n: int)
    ensures G.Valid(G.Num(NumberJson(n))) && G.Render(G.Num(NumberJson(n))) == Decimal(n)
  {
    NumberJsonRender(n);
  }

  lemma RenderObject(ps: Pairs)
    requires ps != [] && ValidPairs(ps)
    ensures G.Render(ObjectJson(ps)) == [OPEN_BRACE] + (PrintPairs(ps) + [CLOSE_BRACE])
  {
    PairsJsonRender(ps);
  }

  /** The command token as the request decoder reads it. */
  function ParseCommand(token: bytes): Option<int> {
    match ParseInt64(token)
    case None => None
    case Some(raw) => if raw <= 0 || raw > 0xFFFF then None else Some(raw)
  }

  /**
   * Any command, any correlation id and any list of fields with distinct keys come
   * back from the printed envelope as they went in.
   */
  lemma EnvelopeRoundTrip(command: nat, cmdId: Option<uint64>, fs: Fields) returns (root: Entries, payload: Entries)
    requires 0 < command <= 0xFFFF && DistinctFields(fs)
    ensures ParseObject(JsonPrint.Envelope(command, cmdId, fs)) == Some(root)
    ensures ParseCommand(Lookup(root, COMMAND_KEY)) == Some(command)
    ensures if cmdId.Some? then ParseUInt64(Lookup(root, CMD_ID_KEY)) == cmdId
            else Lookup(root, CMD_ID_KEY) == []
    ensures ParseObject(Lookup(root, PAYLOAD_KEY)) == Some(payload)
    ensures |payload| == |fs|
    ensures forall k :: 0 <= k < |fs| ==> payload[k] == (fs[k].0, PrintField(fs[k].1)) && Decodes(payload[k].1, fs[k].1)
  {
    root := PairTokens(EnvelopePairs(command, cmdId, fs));
    EnvelopeParses(command, cmdId, fs);
    EnvelopeLookups(command, cmdId, fs);
    DecimalRoundTrip(command);
    if cmdId.Some? {
      UnsignedRoundTrip(cmdId.value);
    }
    PayloadRoundTrip(fs);
    payload := ParseObject(PrintPayload(fs)).value;
    hide ParseObject, PairTokens, PrintPayload, Lookup, Decimal, ParseInt64, ParseUInt64, Decodes, PrintField;
    forall k | 0 <= k < |fs|
      ensures payload[k] == (fs[k].0, PrintField(fs[k].1)) && Decodes(payload[k].1, fs[k].1)
    {
      FieldRoundTrip(fs[k].1);
    }
  }

  lemma EnvelopeParses(command: nat, cmdId: Option<uint64>, fs: Fields)
    ensures ParseObject(JsonPrint.Envelope(command, cmdId, fs)) == Some(PairTokens(EnvelopePairs(command, cmdId, fs)))
  {
    hide ParseObject, PairTokens, G.Render;
    EnvelopeJson(command, cmdId, fs);
    EnvelopeKeysDiffer(command, cmdId, fs);
    ObjectRoundTrip(EnvelopePairs(command, cmdId, fs));
  }

  lemma EnvelopeLookups(command: nat, cmdId: Option<uint64>, fs: Fields)
    ensures var root := PairTokens(EnvelopePairs(command, cmdId, fs));
            && Lookup(root, COMMAND_KEY) == Decimal(command)
            && Lookup(root, CMD_ID_KEY) == (if cmdId.Some? then Decimal(cmdId.value) else [])
            && Lookup(root, PAYLOAD_KEY) == PrintPayload(fs)
  {
    hide G.Render, Decimal, PrintPayload;
    var root := PairTokens(EnvelopePairs(command, cmdId, fs));
    EnvelopeKeysDiffer(command, cmdId, fs);
    NumberPair(command);
    PayloadJson(fs);
    assert root[0] == (COMMAND_KEY, Decimal(command));
    var rest: Entries := root[1..];
    if cmdId.Some? {
      NumberPair(cmdId.value);
      assert rest[0] == (CMD_ID_KEY, Decimal(cmdId.value));
      var last: Entries := rest[1..];
      assert last[0] == (PAYLOAD_KEY, PrintPayload(fs));
      assert Lookup(last, PAYLOAD_KEY) == PrintPayload(fs);
    } else {
      var last: Entries := rest[1..];
      assert rest[0] == (PAYLOAD_KEY, PrintPayload(fs)) && last == [];
      assert Lookup(last, CMD_ID_KEY) == [];
    }
  }
}
