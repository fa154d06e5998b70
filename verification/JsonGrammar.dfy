// RFC 8259 sections 2 to 7 as a datatype of parse trees, the looser trees the scanner
// reads, and the scanner against them: it skips a value to its end if and only if the
// text there is the rendering of a loose tree.

module JsonGrammar {
  import opened Wrappers
  import opened Bytes
  import opened JsonScan

  // A string body byte by byte: every RFC 8259 string has this shape, whatever
  // its unescaped characters encode to and whatever follows a backslash.
  datatype Char = Plain(b: byte) | Escaped(b: byte)

  datatype Exponent = Exponent(upper: bool, sign: Option<byte>, digits: bytes)
  datatype Number = Number(sign: Option<byte>, whole: bytes, frac: Option<bytes>, exp: Option<Exponent>)

  datatype Value =
    | Null
    | True
    | False
    | Str(chars: seq<Char>)
    | Num(n: Number)
    | EmptyArray(ws: bytes)
    | Array(ws: bytes, items: ItemList)
    | EmptyObject(ws: bytes)
    | Object(ws: bytes, members: MemberList)

  // `post` is the white space before the separator, `pre` the one after it.
  datatype ItemList =
    | LastItem(v: Value, post: bytes)
    | MoreItems(v: Value, post: bytes, pre: bytes, rest: ItemList)

  datatype MemberList =
    | LastMember(key: seq<Char>, beforeColon: bytes, afterColon: bytes, v: Value, post: bytes)
    | MoreMembers(key: seq<Char>, beforeColon: bytes, afterColon: bytes, v: Value, post: bytes,
                  pre: bytes, rest: MemberList)

  // ---- Validity ---------------------------------------------------------------

  predicate AllWs(w: bytes) {
    forall k :: 0 <= k < |w| ==> IsWs(w[k])
  }

  predicate AllDigits(d: bytes) {
    forall k :: 0 <= k < |d| ==> IsDigit(d[k])
  }

  predicate ValidChars(cs: seq<Char>) {
    forall k :: 0 <= k < |cs| ==> cs[k].Plain? ==> cs[k].b != QUOTE && cs[k].b != BACKSLASH
  }

  predicate ValidNumber(n: Number) {
    && (n.sign.Some? ==> n.sign.value == MINUS)
    && AllDigits(n.whole) && n.whole != [] && (n.whole[0] == 0x30 ==> |n.whole| == 1)
    && (n.frac.Some? ==> AllDigits(n.frac.value) && n.frac.value != [])
    && (n.exp.Some? ==>
          && AllDigits(n.exp.value.digits) && n.exp.value.digits != []
          && (n.exp.value.sign.Some? ==> n.exp.value.sign.value == PLUS || n.exp.value.sign.value == MINUS))
  }

  predicate Valid(v: Value) {
    match v
    case Str(cs) => ValidChars(cs)
    case Num(n) => ValidNumber(n)
    case EmptyArray(ws) => AllWs(ws)
    case Array(ws, items) => AllWs(ws) && ValidItems(items)
    case EmptyObject(ws) => AllWs(ws)
    case Object(ws, members) => AllWs(ws) && ValidMembers(members)
    case _ => true
  }

  predicate ValidItems(l: ItemList) {
    && Valid(l.v) && AllWs(l.post)
    && (l.MoreItems? ==> AllWs(l.pre) && ValidItems(l.rest))
  }

  predicate ValidMembers(l: MemberList) {
    && ValidChars(l.key) && AllWs(l.beforeColon) && AllWs(l.afterColon)
    && Valid(l.v) && AllWs(l.post)
    && (l.MoreMembers? ==> AllWs(l.pre) && ValidMembers(l.rest))
  }

  // ---- What the scanner takes ---------------------------------------------------

  predicate IsSign(sign: Option<byte>) {
    sign.Some? ==> sign.value == PLUS || sign.value == MINUS
  }

  predicate LooseExponent(e: Option<Exponent>) {
    e.Some? ==> AllDigits(e.value.digits) && IsSign(e.value.sign)
  }

  /** Any sign, leading zeros, and any part without digits as long as one part has some. */
  predicate LooseNumber(n: Number) {
    && IsSign(n.sign) && AllDigits(n.whole)
    && (n.frac.Some? ==> AllDigits(n.frac.value))
    && LooseExponent(n.exp)
    && (n.whole != [] || (n.frac.Some? && n.frac.value != []) || (n.exp.Some? && n.exp.value.digits != []))
  }

  predicate Loose(v: Value) {
    match v
    case Str(cs) => ValidChars(cs)
    case Num(n) => LooseNumber(n)
    case EmptyArray(ws) => AllWs(ws)
    case Array(ws, items) => AllWs(ws) && LooseItems(items)
    case EmptyObject(ws) => AllWs(ws)
    case Object(ws, members) => AllWs(ws) && LooseMembers(members)
    case _ => true
  }

  predicate LooseItems(l: ItemList) {
    && Loose(l.v) && AllWs(l.post)
    && (l.MoreItems? ==> AllWs(l.pre) && LooseItems(l.rest))
  }

  predicate LooseMembers(l: MemberList) {
    && ValidChars(l.key) && AllWs(l.beforeColon) && AllWs(l.afterColon)
    && Loose(l.v) && AllWs(l.post)
    && (l.MoreMembers? ==> AllWs(l.pre) && LooseMembers(l.rest))
  }

  /** Every RFC 8259 value is a loose one. */
  lemma {:induction false} ValidIsLoose(v: Value)
    requires Valid(v)
    ensures Loose(v)
  {
    if v.Array? {
      ValidItemsLoose(v.items);
    } else if v.Object? {
      ValidMembersLoose(v.members);
    }
  }

  lemma {:induction false} ValidItemsLoose(l: ItemList)
    requires ValidItems(l)
    ensures LooseItems(l)
  {
    ValidIsLoose(l.v);
    if l.MoreItems? {
      ValidItemsLoose(l.rest);
    }
  }

  lemma {:induction false} ValidMembersLoose(l: MemberList)
    requires ValidMembers(l)
    ensures LooseMembers(l)
  {
    ValidIsLoose(l.v);
    if l.MoreMembers? {
      ValidMembersLoose(l.rest);
    }
  }

  // ---- Rendering --------------------------------------------------------------

  function RenderChars(cs: seq<Char>): bytes {
    if cs == [] then []
    else (match cs[0]
          case Plain(b) => [b]
          case Escaped(b) => [BACKSLASH, b]) + RenderChars(cs[1..])
  }

  function RenderString(cs: seq<Char>): (r: bytes)
    ensures |r| >= 2
  {
    [QUOTE] + (RenderChars(cs) + [QUOTE])
  }

  function RenderSign(sign: Option<byte>): bytes {
    if sign.Some? then [sign.value] else []
  }

  function RenderFraction(f: Option<bytes>): bytes {
    if f.Some? then [DOT] + f.value else []
  }

  function RenderExponent(e: Option<Exponent>): bytes {
    match e
    case None => []
    case Some(x) => [if x.upper then UPPER_E else LOWER_E] + (RenderSign(x.sign) + x.digits)
  }

  function RenderNumber(n: Number): bytes {
    RenderSign(n.sign) + (n.whole + (RenderFraction(n.frac) + RenderExponent(n.exp)))
  }

  function Render(v: Value): bytes {
    match v
    case Null => NULL
    case True => TRUE
    case False => FALSE
    case Str(cs) => RenderString(cs)
    case Num(n) => RenderNumber(n)
    case EmptyArray(ws) => [OPEN_BRACKET] + (ws + [CLOSE_BRACKET])
    case Array(ws, items) => [OPEN_BRACKET] + (ws + RenderItems(items))
    case EmptyObject(ws) => [OPEN_BRACE] + (ws + [CLOSE_BRACE])
    case Object(ws, members) => [OPEN_BRACE] + (ws + RenderMembers(members))
  }

  /** From the first item to the closing bracket. */
  function RenderItems(l: ItemList): bytes {
    Render(l.v)
    + (match l
       case LastItem(_, post) => post + [CLOSE_BRACKET]
       case MoreItems(_, post, pre, rest) => post + ([COMMA] + (pre + RenderItems(rest))))
  }

  function RenderKey(l: MemberList): bytes {
    RenderString(l.key) + (l.beforeColon + ([COLON] + l.afterColon))
  }

  /** From the first key to the closing brace. */
  function RenderMembers(l: MemberList): bytes {
    RenderKey(l) + (Render(l.v)
    + (match l
       case LastMember(_, _, _, _, post) => post + [CLOSE_BRACE]
       case MoreMembers(_, _, _, _, post, pre, rest) => post + ([COMMA] + (pre + RenderMembers(rest)))))
  }

  // ---- Leaves -----------------------------------------------------------------

  /** Where a value may end: the text ends, or a separator or closer follows. */
  predicate Stops(t: bytes, j: nat) {
    j < |t| ==> IsWs(t[j]) || t[j] == COMMA || t[j] == CLOSE_BRACKET || t[j] == CLOSE_BRACE
  }

  predicate ExponentEnds(t: bytes, j: nat, e: Option<Exponent>) {
    j < |t| ==>
      && (e.None? ==> !HasExp(t, j))
      && (e.Some? ==> !IsDigit(t[j]) && (e.value.sign.None? && e.value.digits == [] ==> !HasSign(t, j)))
  }

  /** The byte at `j` does not continue the number. */
  predicate NumberEnds(t: bytes, j: nat, n: Number) {
    && ExponentEnds(t, j, n.exp)
    && (j < |t| ==> !IsDigit(t[j]) && (n.exp.None? && n.frac.None? ==> t[j] != DOT))
  }

  /** Where a value ends: only a number can be continued. */
  predicate Ends(t: bytes, j: nat, v: Value) {
    v.Num? ==> NumberEnds(t, j, v.n)
  }

  lemma StopEnds(t: bytes, j: nat, v: Value)
    requires Stops(t, j)
    ensures Ends(t, j, v)
  {
  }

  lemma {:induction false} SkipWsRun(t: bytes, i: nat, w: bytes)
    requires Match(t, i, w) && AllWs(w)
    requires i + |w| < |t| ==> !IsWs(t[i + |w|])
    ensures SkipWs(t, i) == i + |w|
    decreases |w|
  {
    if w != [] {
      MatchAt(t, i, w, 0);
      assert w == w[..1] + w[1..];
      MatchSplit(t, i, w[..1], w[1..]);
      SkipWsRun(t, i + 1, w[1..]);
    }
  }

  lemma {:induction false} SkipDigitsRun(t: bytes, i: nat, d: bytes)
    requires Match(t, i, d) && AllDigits(d)
    requires i + |d| < |t| ==> !IsDigit(t[i + |d|])
    ensures SkipDigits(t, i) == i + |d|
    decreases |d|
  {
    if d != [] {
      MatchAt(t, i, d, 0);
      assert d == d[..1] + d[1..];
      MatchSplit(t, i, d[..1], d[1..]);
      SkipDigitsRun(t, i + 1, d[1..]);
    }
  }

  lemma {:induction false} StringTailExact(t: bytes, i: nat, cs: seq<Char>)
    requires ValidChars(cs) && Match(t, i, RenderChars(cs) + [QUOTE])
    ensures StringTail(t, i) == Some(i + |RenderChars(cs)| + 1)
    decreases |cs|
  {
    hide Match, StringTail;
    if cs == [] {
      QuoteExact(t, i);
    } else {
      var head := CharsHead(cs);
      hide RenderChars;
      MatchSplit(t, i, head, RenderChars(cs[1..]) + [QUOTE]);
      CharExact(t, i, cs[0], head);
      StringTailExact(t, i + |head|, cs[1..]);
    }
  }

  lemma QuoteExact(t: bytes, i: nat)
    requires Match(t, i, [] + [QUOTE])
    ensures StringTail(t, i) == Some(i + 1)
  {
    MatchAt(t, i, [QUOTE], 0);
  }

  lemma CharsHead(cs: seq<Char>) returns (head: bytes)
    requires cs != []
    ensures head == match cs[0] case Plain(b) => [b] case Escaped(b) => [BACKSLASH, b]
    ensures RenderChars(cs) + [QUOTE] == head + (RenderChars(cs[1..]) + [QUOTE])
    ensures |RenderChars(cs)| == |head| + |RenderChars(cs[1..])|
  {
    head := match cs[0] case Plain(b) => [b] case Escaped(b) => [BACKSLASH, b];
    assert RenderChars(cs) == head + RenderChars(cs[1..]);
  }

  lemma CharExact(t: bytes, i: nat, c: Char, head: bytes)
    requires ValidChars([c]) && head == match c case Plain(b) => [b] case Escaped(b) => [BACKSLASH, b]
    requires Match(t, i, head)
    ensures i + |head| <= |t| && StringTail(t, i) == StringTail(t, i + |head|)
  {
    assert [c][0] == c;
    MatchAt(t, i, head, 0);
  }

  lemma SkipStringExact(t: bytes, i: nat, cs: seq<Char>)
    requires ValidChars(cs) && Match(t, i, RenderString(cs))
    ensures SkipString(t, i) == Some(i + |RenderString(cs)|)
  {
    MatchSplit(t, i, [QUOTE], RenderChars(cs) + [QUOTE]);
    MatchAt(t, i, [QUOTE], 0);
    StringTailExact(t, i + 1, cs);
  }

  lemma SignExact(t: bytes, i: nat, sign: Option<byte>, rest: bytes)
    requires Match(t, i, RenderSign(sign) + rest) && IsSign(sign)
    requires !HasSign(t, i + |RenderSign(sign)|) || sign.Some?
    ensures AfterSign(t, i) == i + |RenderSign(sign)|
    ensures Match(t, i + |RenderSign(sign)|, rest)
  {
    hide Match;
    MatchSplit(t, i, RenderSign(sign), rest);
    if sign.Some? {
      MatchAt(t, i, RenderSign(sign), 0);
    }
  }

  lemma ExponentExact(t: bytes, i: nat, e: Option<Exponent>)
    requires Match(t, i, RenderExponent(e)) && LooseExponent(e) && ExponentEnds(t, i + |RenderExponent(e)|, e)
    ensures AfterExponent(t, i) == i + |RenderExponent(e)|
    ensures HasExp(t, i) <==> e.Some?
    ensures e.Some? ==> AfterSign(t, i + 1) == i + |RenderExponent(e)| - |e.value.digits|
  {
    hide Match, SkipDigits, AfterSign, RenderSign, ExponentEnds, AllDigits, IsSign;
    match e
    case None => NoExponent(t, i);
    case Some(x) =>
      var letter, sign := [if x.upper then UPPER_E else LOWER_E], RenderSign(x.sign);
      MatchSplit(t, i, letter, sign + x.digits);
      MatchAt(t, i, letter, 0);
      ExponentTail(t, i + 1, x);
  }

  lemma ExponentTail(t: bytes, i: nat, x: Exponent)
    requires Match(t, i, RenderSign(x.sign) + x.digits) && AllDigits(x.digits) && IsSign(x.sign)
    requires ExponentEnds(t, i + |RenderSign(x.sign)| + |x.digits|, Some(x))
    ensures AfterSign(t, i) == i + |RenderSign(x.sign)|
    ensures SkipDigits(t, AfterSign(t, i)) == i + |RenderSign(x.sign)| + |x.digits|
  {
    hide Match, SkipDigits, AfterSign, RenderSign, ExponentEnds, AllDigits, IsSign, HasSign;
    NoSecondSign(t, i, x);
    SignExact(t, i, x.sign, x.digits);
    SkipDigitsRun(t, i + |RenderSign(x.sign)|, x.digits);
  }

  lemma NoExponent(t: bytes, i: nat)
    requires ExponentEnds(t, i, None)
    ensures !HasExp(t, i)
  {
  }

  /** The digits of an exponent, or its end, are no sign. */
  lemma NoSecondSign(t: bytes, i: nat, x: Exponent)
    requires Match(t, i, RenderSign(x.sign) + x.digits) && AllDigits(x.digits)
    requires ExponentEnds(t, i + |RenderSign(x.sign)| + |x.digits|, Some(x))
    ensures !HasSign(t, i + |RenderSign(x.sign)|) || x.sign.Some?
    ensures var k := i + |RenderSign(x.sign)| + |x.digits|; k < |t| ==> !IsDigit(t[k])
  {
    if x.sign.None? && x.digits != [] {
      MatchAt(t, i, RenderSign(x.sign) + x.digits, 0);
    }
  }

  lemma FractionExact(t: bytes, i: nat, n: Number)
    requires LooseNumber(n) && Match(t, i, RenderFraction(n.frac) + RenderExponent(n.exp))
    requires NumberEnds(t, i + |RenderFraction(n.frac)| + |RenderExponent(n.exp)|, n)
    ensures AfterFraction(t, i) == i + |RenderFraction(n.frac)|
    ensures Match(t, i + |RenderFraction(n.frac)|, RenderExponent(n.exp))
    ensures i < |t| ==> !IsDigit(t[i])
  {
    hide Match, SkipDigits;
    var c := i + |RenderFraction(n.frac)|;
    MatchSplit(t, i, RenderFraction(n.frac), RenderExponent(n.exp));
    if n.exp.Some? {
      MatchAt(t, c, RenderExponent(n.exp), 0);
    }
    assert c < |t| ==> !IsDigit(t[c]);
    if n.frac.Some? {
      MatchSplit(t, i, [DOT], n.frac.value);
      MatchAt(t, i, [DOT], 0);
      SkipDigitsRun(t, i + 1, n.frac.value);
    }
  }

  lemma NumberParts(t: bytes, i: nat, a: nat, b: nat, c: nat, d: nat)
    requires i <= a <= b <= c <= d <= |t|
    requires AfterSign(t, i) == a && SkipDigits(t, a) == b
    requires AfterFraction(t, b) == c && AfterExponent(t, c) == d
    requires a < b || b + 1 < c || (HasExp(t, c) && AfterSign(t, c + 1) < d)
    ensures SkipNumber(t, i) == Some(d)
  {
  }

  /** What is left of a number after its sign does not start with one. */
  lemma NoSign(t: bytes, a: nat, n: Number)
    requires LooseNumber(n) && Match(t, a, n.whole + (RenderFraction(n.frac) + RenderExponent(n.exp)))
    ensures !HasSign(t, a)
  {
    var tail := RenderFraction(n.frac) + RenderExponent(n.exp);
    MatchAt(t, a, n.whole + tail, 0);
    assert (n.whole + tail)[0] == if n.whole != [] then n.whole[0] else tail[0];
  }

  lemma SkipNumberExact(t: bytes, i: nat, n: Number)
    requires LooseNumber(n) && Match(t, i, RenderNumber(n)) && NumberEnds(t, i + |RenderNumber(n)|, n)
    ensures SkipNumber(t, i) == Some(i + |RenderNumber(n)|)
  {
    hide SkipNumber, AfterFraction, AfterExponent, AfterSign, SkipDigits, Match, HasSign, HasExp;
    hide RenderSign, RenderFraction, RenderExponent, AllDigits, IsSign, ExponentEnds, LooseExponent;
    var tail := RenderFraction(n.frac) + RenderExponent(n.exp);
    var a := i + |RenderSign(n.sign)|;
    var b := a + |n.whole|;
    MatchSplit(t, i, RenderSign(n.sign), n.whole + tail);
    MatchSplit(t, a, n.whole, tail);
    NoSign(t, a, n);
    SignExact(t, i, n.sign, n.whole + tail);
    SkipNumberTail(t, i, a, n);
  }

  lemma SkipNumberTail(t: bytes, i: nat, a: nat, n: Number)
    requires LooseNumber(n) && i <= |t| && AfterSign(t, i) == a && Match(t, a, n.whole)
    requires Match(t, a + |n.whole|, RenderFraction(n.frac) + RenderExponent(n.exp))
    requires NumberEnds(t, a + |n.whole| + |RenderFraction(n.frac)| + |RenderExponent(n.exp)|, n)
    ensures SkipNumber(t, i) == Some(a + |n.whole| + |RenderFraction(n.frac)| + |RenderExponent(n.exp)|)
  {
    hide SkipNumber, AfterFraction, AfterExponent, AfterSign, SkipDigits, Match, HasSign, HasExp, RenderExponent;
    var b := a + |n.whole|;
    var c := b + |RenderFraction(n.frac)|;
    FractionExact(t, b, n);
    SkipDigitsRun(t, a, n.whole);
    ExponentExact(t, c, n.exp);
    NumberParts(t, i, a, b, c, c + |RenderExponent(n.exp)|);
  }

  /** A number starts with a sign, a digit, a point or an exponent letter. */
  lemma NumberHead(n: Number)
    requires LooseNumber(n)
    ensures RenderNumber(n) != []
    ensures var c := RenderNumber(n)[0];
            IsDigit(c) || c == PLUS || c == MINUS || c == DOT || c == LOWER_E || c == UPPER_E
  {
    var tail := RenderFraction(n.frac) + RenderExponent(n.exp);
    assert tail != [] ==> tail[0] == DOT || tail[0] == LOWER_E || tail[0] == UPPER_E;
    assert n.whole == [] ==> n.whole + tail == tail;
    assert n.sign.None? ==> RenderNumber(n) == n.whole + tail;
  }

  lemma AtomIsNumber(t: bytes, i: nat, n: Number)
    requires LooseNumber(n) && Match(t, i, RenderNumber(n))
    ensures !Match(t, i, TRUE) && !Match(t, i, FALSE) && !Match(t, i, NULL)
  {
    NumberHead(n);
    MatchAt(t, i, RenderNumber(n), 0);
    if Match(t, i, TRUE) { MatchAt(t, i, TRUE, 0); }
    if Match(t, i, FALSE) { MatchAt(t, i, FALSE, 0); }
    if Match(t, i, NULL) { MatchAt(t, i, NULL, 0); }
  }

  /** A value never starts with white space. */
  lemma ValueHead(v: Value)
    requires Loose(v)
    ensures Render(v) != [] && !IsWs(Render(v)[0])
  {
    if v.Num? {
      NumberHead(v.n);
    }
  }

  lemma ValueHeadAt(t: bytes, i: nat, v: Value)
    requires Loose(v) && Match(t, i, Render(v))
    ensures i < |t| && t[i] == Render(v)[0] && SkipWs(t, i) == i
  {
    ValueHead(v);
    MatchAt(t, i, Render(v), 0);
  }

  // ---- Separators -------------------------------------------------------------

  lemma StopsAtWs(t: bytes, j: nat, w: bytes, rest: bytes)
    requires Match(t, j, w + rest) && AllWs(w) && rest != []
    requires rest[0] == COMMA || rest[0] == CLOSE_BRACKET || rest[0] == CLOSE_BRACE
    ensures Stops(t, j)
    ensures SkipWs(t, j) == j + |w| && Has(t, j + |w|, rest[0]) && Match(t, j + |w|, rest)
  {
    MatchSplit(t, j, w, rest);
    MatchAt(t, j + |w|, rest, 0);
    MatchAt(t, j, w + rest, 0);
    SkipWsRun(t, j, w);
  }

  lemma ElementDone(t: bytes, j: nat, post: bytes, closer: byte)
    requires closer == CLOSE_BRACKET || closer == CLOSE_BRACE
    requires Match(t, j, post + [closer]) && AllWs(post)
    ensures Stops(t, j) && AfterElement(t, j, closer) == Done(j + |post| + 1)
  {
    StopsAtWs(t, j, post, [closer]);
  }

  lemma ElementNext(t: bytes, j: nat, post: bytes, pre: bytes, next: bytes, closer: byte)
    requires Match(t, j, post + ([COMMA] + (pre + next))) && AllWs(post) && AllWs(pre)
    requires next != [] && !IsWs(next[0])
    ensures Stops(t, j) && AfterElement(t, j, closer) == Next(j + |post| + 1 + |pre|)
    ensures Match(t, j + |post| + 1 + |pre|, next)
  {
    hide Match, Stops;
    StopsAtWs(t, j, post, [COMMA] + (pre + next));
    MatchSplit(t, j + |post|, [COMMA], pre + next);
    MatchSplit(t, j + |post| + 1, pre, next);
    MatchAt(t, j + |post| + 1 + |pre|, next, 0);
    SkipWsRun(t, j + |post| + 1, pre);
  }

  lemma KeyExact(t: bytes, i: nat, l: MemberList, rest: bytes)
    requires ValidChars(l.key) && AllWs(l.beforeColon) && AllWs(l.afterColon)
    requires Match(t, i, RenderKey(l) + rest) && rest != [] && !IsWs(rest[0])
    ensures MemberStart(t, i) == Some(i + |RenderKey(l)|)
    ensures Match(t, i + |RenderKey(l)|, rest)
  {
    hide Match, SkipString, RenderString, AfterKey;
    var key, w1, w2 := RenderString(l.key), l.beforeColon, l.afterColon;
    MatchSplit(t, i, RenderKey(l), rest);
    MatchSplit(t, i, key, w1 + ([COLON] + w2));
    SkipStringExact(t, i, l.key);
    AfterKeyExact(t, i + |key|, w1, w2, rest);
  }

  lemma AfterKeyExact(t: bytes, j: nat, w1: bytes, w2: bytes, rest: bytes)
    requires AllWs(w1) && AllWs(w2) && Match(t, j, w1 + ([COLON] + w2))
    requires Match(t, j + |w1| + 1 + |w2|, rest) && rest != [] && !IsWs(rest[0])
    ensures AfterKey(t, j) == Some(j + |w1| + 1 + |w2|)
  {
    hide Match;
    MatchSplit(t, j, w1, [COLON] + w2);
    MatchSplit(t, j + |w1|, [COLON], w2);
    MatchAt(t, j + |w1|, [COLON], 0);
    SkipWsRun(t, j, w1);
    MatchAt(t, j + |w1| + 1 + |w2|, rest, 0);
    SkipWsRun(t, j + |w1| + 1, w2);
  }

  lemma AtWsThen(t: bytes, i: nat, ws: bytes, rest: bytes)
    requires Match(t, i, ws + rest) && AllWs(ws) && rest != [] && !IsWs(rest[0])
    ensures SkipWs(t, i) == i + |ws| && Match(t, i + |ws|, rest) && Has(t, i + |ws|, rest[0])
  {
    MatchSplit(t, i, ws, rest);
    MatchAt(t, i + |ws|, rest, 0);
    SkipWsRun(t, i, ws);
  }

  // ---- One unfolding of each skipper --------------------------------------------

  lemma ItemsStep(t: bytes, i: nat, j: nat)
    requires i < |t| && SkipValue(t, i) == Some(j)
    ensures var sep := AfterElement(t, j, CLOSE_BRACKET);
            Items(t, i) == match sep case Next(k) => Items(t, k) case Done(k) => Some(k) case Bad => None
  {
  }

  lemma MembersStep(t: bytes, i: nat, m: nat, j: nat)
    requires i <= |t| && MemberStart(t, i) == Some(m) && SkipValue(t, m) == Some(j)
    ensures var sep := AfterElement(t, j, CLOSE_BRACE);
            Members(t, i) == match sep case Next(k) => Members(t, k) case Done(k) => Some(k) case Bad => None
  {
  }

  lemma SkipArrayStep(t: bytes, i: nat, j: nat)
    requires Has(t, i, OPEN_BRACKET) && SkipWs(t, i + 1) == j
    ensures SkipValue(t, i) == if Has(t, j, CLOSE_BRACKET) then Some(j + 1) else Items(t, j)
  {
    assert SkipWs(t, i) == i;
  }

  lemma SkipObjectStep(t: bytes, i: nat, j: nat)
    requires Has(t, i, OPEN_BRACE) && SkipWs(t, i + 1) == j
    ensures SkipValue(t, i) == if Has(t, j, CLOSE_BRACE) then Some(j + 1) else Members(t, j)
  {
    assert SkipWs(t, i) == i;
  }

  lemma SkipNumberLeaf(t: bytes, i: nat, v: Value)
    requires v.Num? && Loose(v) && Match(t, i, Render(v)) && Ends(t, i + |Render(v)|, v)
    ensures SkipAtom(t, i) == Some(i + |Render(v)|)
    ensures i < |t| && t[i] != QUOTE && t[i] != OPEN_BRACE && t[i] != OPEN_BRACKET
  {
    hide Match, SkipNumber, LooseNumber, RenderNumber, NumberEnds;
    NumberHead(v.n);
    MatchAt(t, i, RenderNumber(v.n), 0);
    AtomIsNumber(t, i, v.n);
    SkipNumberExact(t, i, v.n);
  }

  lemma SkipStringLeaf(t: bytes, i: nat, v: Value)
    requires v.Str? && Loose(v) && Match(t, i, Render(v))
    ensures SkipString(t, i) == Some(i + |Render(v)|)
    ensures i < |t| && t[i] == QUOTE
  {
    hide Match, StringTail;
    MatchAt(t, i, RenderString(v.chars), 0);
    SkipStringExact(t, i, v.chars);
  }

  lemma SkipLiteralLeaf(t: bytes, i: nat, v: Value)
    requires (v.Null? || v.True? || v.False?) && Match(t, i, Render(v))
    ensures SkipAtom(t, i) == Some(i + |Render(v)|)
    ensures i < |t| && t[i] != QUOTE && t[i] != OPEN_BRACE && t[i] != OPEN_BRACKET
  {
    hide SkipNumber, Match;
    MatchAt(t, i, Render(v), 0);
    if Match(t, i, TRUE) { MatchAt(t, i, TRUE, 0); }
    if Match(t, i, FALSE) { MatchAt(t, i, FALSE, 0); }
  }

  lemma SkipByHead(t: bytes, i: nat)
    requires i < |t| && SkipWs(t, i) == i
    ensures t[i] == QUOTE ==> SkipValue(t, i) == SkipString(t, i)
    ensures t[i] != QUOTE && t[i] != OPEN_BRACE && t[i] != OPEN_BRACKET ==> SkipValue(t, i) == SkipAtom(t, i)
  {
    hide SkipWs, SkipString, SkipObject, SkipArray, SkipAtom;
  }

  lemma SkipLeafExact(t: bytes, i: nat, v: Value)
    requires v.Null? || v.True? || v.False? || v.Str? || v.Num?
    requires Loose(v) && Match(t, i, Render(v)) && Ends(t, i + |Render(v)|, v)
    ensures SkipValue(t, i) == Some(i + |Render(v)|)
  {
    hide Match, SkipWs, SkipValue, SkipAtom, SkipString, Loose, Ends, RenderString, RenderNumber;
    ValueHeadAt(t, i, v);
    SkipByHead(t, i);
    match v
    case Str(_) => SkipStringLeaf(t, i, v);
    case Num(_) => SkipNumberLeaf(t, i, v);
    case _ => SkipLiteralLeaf(t, i, v);
  }

  // ---- Completeness -----------------------------------------------------------

  /** Every loose value, with any insignificant white space, ends where it ends. */
  lemma {:induction false} SkipValueExact(t: bytes, i: nat, v: Value)
    requires Loose(v) && Match(t, i, Render(v)) && Ends(t, i + |Render(v)|, v)
    ensures SkipValue(t, i) == Some(i + |Render(v)|)
    decreases v, 0
  {
    hide SkipValue, Items, Members, SkipWs, Match, Ends, RenderItems, RenderMembers, Has;
    match v
    case EmptyArray(ws) =>
      Bracketed(t, i, OPEN_BRACKET, ws, [CLOSE_BRACKET]);
      SkipArrayStep(t, i, i + 1 + |ws|);
    case Array(ws, items) =>
      ItemsHead(items);
      Bracketed(t, i, OPEN_BRACKET, ws, RenderItems(items));
      SkipItemsExact(t, i + 1 + |ws|, items);
      SkipArrayStep(t, i, i + 1 + |ws|);
    case EmptyObject(ws) =>
      Bracketed(t, i, OPEN_BRACE, ws, [CLOSE_BRACE]);
      SkipObjectStep(t, i, i + 1 + |ws|);
    case Object(ws, members) =>
      MembersHead(members);
      Bracketed(t, i, OPEN_BRACE, ws, RenderMembers(members));
      SkipMembersExact(t, i + 1 + |ws|, members);
      SkipObjectStep(t, i, i + 1 + |ws|);
    case _ => SkipLeafExact(t, i, v);
  }

  lemma Bracketed(t: bytes, i: nat, opener: byte, ws: bytes, rest: bytes)
    requires Match(t, i, [opener] + (ws + rest)) && AllWs(ws) && rest != [] && !IsWs(rest[0])
    ensures Has(t, i, opener) && SkipWs(t, i + 1) == i + 1 + |ws|
    ensures Match(t, i + 1 + |ws|, rest)
    ensures Has(t, i + 1 + |ws|, rest[0])
    ensures rest[0] != CLOSE_BRACKET ==> !Has(t, i + 1 + |ws|, CLOSE_BRACKET)
    ensures rest[0] != CLOSE_BRACE ==> !Has(t, i + 1 + |ws|, CLOSE_BRACE)
  {
    MatchSplit(t, i, [opener], ws + rest);
    MatchAt(t, i, [opener], 0);
    AtWsThen(t, i + 1, ws, rest);
  }

  lemma ItemsHead(l: ItemList)
    requires LooseItems(l)
    ensures RenderItems(l) != [] && !IsWs(RenderItems(l)[0]) && RenderItems(l)[0] != CLOSE_BRACKET
  {
    ValueHead(l.v);
    if l.v.Num? {
      NumberHead(l.v.n);
    }
  }

  lemma LastItemParts(t: bytes, j: nat, l: ItemList)
    requires LooseItems(l) && l.LastItem? && Match(t, j, RenderItems(l))
    ensures Match(t, j, Render(l.v)) && Stops(t, j + |Render(l.v)|)
    ensures AfterElement(t, j + |Render(l.v)|, CLOSE_BRACKET) == Done(j + |RenderItems(l)|)
  {
    MatchSplit(t, j, Render(l.v), l.post + [CLOSE_BRACKET]);
    ElementDone(t, j + |Render(l.v)|, l.post, CLOSE_BRACKET);
  }

  lemma MoreItemsParts(t: bytes, j: nat, l: ItemList) returns (n: nat)
    requires LooseItems(l) && l.MoreItems? && Match(t, j, RenderItems(l))
    ensures Match(t, j, Render(l.v)) && Stops(t, j + |Render(l.v)|)
    ensures AfterElement(t, j + |Render(l.v)|, CLOSE_BRACKET) == Next(n)
    ensures Match(t, n, RenderItems(l.rest)) && n + |RenderItems(l.rest)| == j + |RenderItems(l)|
  {
    hide AfterElement, SkipWs, Stops, Match;
    var tail := l.post + ([COMMA] + (l.pre + RenderItems(l.rest)));
    MatchSplit(t, j, Render(l.v), tail);
    ItemsHead(l.rest);
    ElementNext(t, j + |Render(l.v)|, l.post, l.pre, RenderItems(l.rest), CLOSE_BRACKET);
    n := j + |Render(l.v)| + |l.post| + 1 + |l.pre|;
  }

  lemma {:induction false} SkipItemsExact(t: bytes, j: nat, l: ItemList)
    requires LooseItems(l) && Match(t, j, RenderItems(l))
    ensures Items(t, j) == Some(j + |RenderItems(l)|)
    decreases l
  {
    hide SkipValue, Items, Match, Stops, Ends, Render, RenderItems, AfterElement;
    if l.LastItem? {
      LastItemParts(t, j, l);
    } else {
      var n := MoreItemsParts(t, j, l);
      SkipItemsExact(t, n, l.rest);
    }
    StopEnds(t, j + |Render(l.v)|, l.v);
    SkipValueExact(t, j, l.v);
    ItemsStep(t, j, j + |Render(l.v)|);
  }

  lemma MembersHead(l: MemberList)
    ensures RenderMembers(l) != [] && RenderMembers(l)[0] == QUOTE
  {
  }

  lemma LastMemberParts(t: bytes, j: nat, l: MemberList) returns (m: nat)
    requires LooseMembers(l) && l.LastMember? && Match(t, j, RenderMembers(l))
    ensures MemberStart(t, j) == Some(m)
    ensures Match(t, m, Render(l.v)) && Stops(t, m + |Render(l.v)|)
    ensures AfterElement(t, m + |Render(l.v)|, CLOSE_BRACE) == Done(j + |RenderMembers(l)|)
  {
    hide AfterElement, SkipWs, Stops, Match, RenderKey, MemberStart;
    ValueHead(l.v);
    KeyExact(t, j, l, Render(l.v) + (l.post + [CLOSE_BRACE]));
    m := j + |RenderKey(l)|;
    MatchSplit(t, m, Render(l.v), l.post + [CLOSE_BRACE]);
    ElementDone(t, m + |Render(l.v)|, l.post, CLOSE_BRACE);
  }

  lemma MoreMembersParts(t: bytes, j: nat, l: MemberList) returns (m: nat, n: nat)
    requires LooseMembers(l) && l.MoreMembers? && Match(t, j, RenderMembers(l))
    ensures MemberStart(t, j) == Some(m)
    ensures Match(t, m, Render(l.v)) && Stops(t, m + |Render(l.v)|)
    ensures AfterElement(t, m + |Render(l.v)|, CLOSE_BRACE) == Next(n)
    ensures Match(t, n, RenderMembers(l.rest)) && n + |RenderMembers(l.rest)| == j + |RenderMembers(l)|
  {
    hide AfterElement, SkipWs, Stops, Match, RenderKey, MemberStart;
    var tail := l.post + ([COMMA] + (l.pre + RenderMembers(l.rest)));
    ValueHead(l.v);
    KeyExact(t, j, l, Render(l.v) + tail);
    m := j + |RenderKey(l)|;
    MatchSplit(t, m, Render(l.v), tail);
    MembersHead(l.rest);
    ElementNext(t, m + |Render(l.v)|, l.post, l.pre, RenderMembers(l.rest), CLOSE_BRACE);
    n := m + |Render(l.v)| + |l.post| + 1 + |l.pre|;
  }

  lemma {:induction false} SkipMembersExact(t: bytes, j: nat, l: MemberList)
    requires LooseMembers(l) && Match(t, j, RenderMembers(l))
    ensures Members(t, j) == Some(j + |RenderMembers(l)|)
    decreases l
  {
    hide SkipValue, Members, Match, Stops, Ends, Render, RenderMembers, AfterElement, MemberStart;
    var m, n;
    if l.LastMember? {
      m := LastMemberParts(t, j, l);
    } else {
      m, n := MoreMembersParts(t, j, l);
      SkipMembersExact(t, n, l.rest);
    }
    StopEnds(t, m + |Render(l.v)|, l.v);
    SkipValueExact(t, m, l.v);
    MembersStep(t, j, m, m + |Render(l.v)|);
  }

  /** White space, then a value that ends there: skipped to exactly its end. */
  lemma ScannerTakes(t: bytes, i: nat, ws: bytes, v: Value)
    requires Loose(v) && AllWs(ws)
    requires Match(t, i, ws + Render(v)) && Ends(t, i + |ws| + |Render(v)|, v)
    ensures SkipValue(t, i) == Some(i + |ws| + |Render(v)|)
  {
    hide Render, Loose, SkipValue, Match, Ends, SkipWs, AllWs;
    ValueHead(v);
    AtWsThen(t, i, ws, Render(v));
    SkipValueExact(t, i + |ws|, v);
    SkipLeadingWs(t, i);
  }

  /** Every RFC 8259 value before a separator, a closer or the end is skipped to its end. */
  lemma ScannerCompleteness(t: bytes, i: nat, ws: bytes, v: Value)
    requires Valid(v) && AllWs(ws)
    requires Match(t, i, ws + Render(v)) && Stops(t, i + |ws| + |Render(v)|)
    ensures SkipValue(t, i) == Some(i + |ws| + |Render(v)|)
  {
    ValidIsLoose(v);
    hide Render, Valid, Loose, SkipValue, Match, Stops, Ends, SkipWs, AllWs;
    StopEnds(t, i + |ws| + |Render(v)|, v);
    ScannerTakes(t, i, ws, v);
  }

  lemma SkipLeadingWs(t: bytes, i: nat)
    requires i <= |t|
    ensures SkipValue(t, i) == SkipValue(t, SkipWs(t, i))
  {
    SkipWsTwice(t, i);
    hide SkipWs, SkipString, SkipObject, SkipArray, SkipAtom;
  }

  lemma SkipWsTwice(t: bytes, i: nat)
    requires i <= |t|
    ensures SkipWs(t, SkipWs(t, i)) == SkipWs(t, i)
  {
  }

  // ---- Soundness: what is skipped is a loose value ----------------------------------

  lemma MatchJoin(t: bytes, i: nat, a: bytes, b: bytes)
    requires Match(t, i, a) && Match(t, i + |a|, b)
    ensures Match(t, i, a + b)
  {
    assert t[i..i + |a + b|] == t[i..i + |a|] + t[i + |a|..i + |a| + |b|];
  }

  lemma MatchByte(t: bytes, i: nat, c: byte)
    requires Has(t, i, c)
    ensures Match(t, i, [c])
  {
  }

  lemma {:induction false} WsFound(t: bytes, i: nat) returns (ws: bytes)
    requires i <= |t|
    ensures AllWs(ws) && Match(t, i, ws) && SkipWs(t, i) == i + |ws|
    decreases |t| - i
  {
    ws := [];
    if i < |t| && IsWs(t[i]) {
      ws := WsFound(t, i + 1);
      MatchByte(t, i, t[i]);
      MatchJoin(t, i, [t[i]], ws);
      ws := [t[i]] + ws;
    }
  }

  lemma {:induction false} DigitsFound(t: bytes, i: nat) returns (d: bytes)
    requires i <= |t|
    ensures AllDigits(d) && Match(t, i, d) && SkipDigits(t, i) == i + |d|
    decreases |t| - i
  {
    d := [];
    if i < |t| && IsDigit(t[i]) {
      d := DigitsFound(t, i + 1);
      MatchByte(t, i, t[i]);
      MatchJoin(t, i, [t[i]], d);
      d := [t[i]] + d;
    }
  }

  lemma {:induction false} CharsFound(t: bytes, i: nat) returns (cs: seq<Char>)
    requires i <= |t| && StringTail(t, i).Some?
    ensures ValidChars(cs) && Match(t, i, RenderChars(cs) + [QUOTE])
    ensures StringTail(t, i) == Some(i + |RenderChars(cs)| + 1)
    decreases |t| - i
  {
    hide Match;
    if t[i] == QUOTE {
      MatchByte(t, i, QUOTE);
      assert [] + [QUOTE] == [QUOTE];
      return [];
    }
    var c := if t[i] == BACKSLASH then Escaped(t[i + 1]) else Plain(t[i]);
    var rest := CharsFound(t, i + if c.Escaped? then 2 else 1);
    cs := [c] + rest;
    assert cs[1..] == rest;
    var head := CharsHead(cs);
    hide StringTail, RenderChars;
    CharFound(t, i, c, head);
    MatchJoin(t, i, head, RenderChars(rest) + [QUOTE]);
  }

  lemma CharFound(t: bytes, i: nat, c: Char, head: bytes)
    requires i < |t| && (t[i] == BACKSLASH ==> i + 1 < |t|)
    requires c == if t[i] == BACKSLASH then Escaped(t[i + 1]) else Plain(t[i])
    requires head == match c case Plain(b) => [b] case Escaped(b) => [BACKSLASH, b]
    ensures Match(t, i, head)
  {
    hide Match;
    MatchByte(t, i, t[i]);
    if c.Escaped? {
      MatchByte(t, i + 1, t[i + 1]);
      MatchJoin(t, i, [t[i]], [t[i + 1]]);
      assert head == [t[i]] + [t[i + 1]];
    }
  }

  lemma StringFound(t: bytes, i: nat) returns (cs: seq<Char>)
    requires i <= |t| && SkipString(t, i).Some?
    ensures ValidChars(cs) && Match(t, i, RenderString(cs))
    ensures SkipString(t, i) == Some(i + |RenderString(cs)|)
  {
    hide Match, StringTail;
    cs := CharsFound(t, i + 1);
    MatchByte(t, i, QUOTE);
    MatchJoin(t, i, [QUOTE], RenderChars(cs) + [QUOTE]);
  }

  lemma SignFound(t: bytes, i: nat) returns (sign: Option<byte>)
    requires i <= |t|
    ensures IsSign(sign) && Match(t, i, RenderSign(sign)) && AfterSign(t, i) == i + |RenderSign(sign)|
    ensures sign.Some? <==> HasSign(t, i)
  {
    sign := if HasSign(t, i) then Some(t[i]) else None;
  }

  lemma FractionFound(t: bytes, i: nat) returns (f: Option<bytes>)
    requires i <= |t|
    ensures f.Some? <==> Has(t, i, DOT)
    ensures f.Some? ==> AllDigits(f.value)
    ensures Match(t, i, RenderFraction(f)) && AfterFraction(t, i) == i + |RenderFraction(f)|
    ensures i + 1 < AfterFraction(t, i) ==> f.Some? && f.value != []
    ensures var c := AfterFraction(t, i); c < |t| ==> (f.Some? ==> !IsDigit(t[c])) && (f.None? ==> t[c] != DOT)
  {
    f := None;
    if Has(t, i, DOT) {
      var d := DigitsFound(t, i + 1);
      hide Match, SkipDigits;
      f := Some(d);
      MatchByte(t, i, DOT);
      MatchJoin(t, i, [DOT], d);
    }
  }

  lemma ExponentFound(t: bytes, i: nat) returns (e: Option<Exponent>)
    requires i <= |t|
    ensures LooseExponent(e) && (e.Some? <==> HasExp(t, i))
    ensures Match(t, i, RenderExponent(e)) && AfterExponent(t, i) == i + |RenderExponent(e)|
    ensures HasExp(t, i) && AfterSign(t, i + 1) < AfterExponent(t, i) ==> e.Some? && e.value.digits != []
    ensures ExponentEnds(t, AfterExponent(t, i), e)
    ensures var d := AfterExponent(t, i); d < |t| && e.Some? ==> !IsDigit(t[d])
    ensures e.None? ==> AfterExponent(t, i) == i && RenderExponent(e) == []
  {
    e := None;
    if HasExp(t, i) {
      var sign := SignFound(t, i + 1);
      var a := AfterSign(t, i + 1);
      var d := DigitsFound(t, a);
      hide Match, SkipDigits, AfterSign;
      e := Some(Exponent(t[i] == UPPER_E, sign, d));
      MatchByte(t, i, t[i]);
      MatchJoin(t, i + 1, RenderSign(sign), d);
      MatchJoin(t, i, [t[i]], RenderSign(sign) + d);
    }
  }

  /** Fraction and exponent after the whole digits, which end at `b`. */
  lemma NumberTailFound(t: bytes, b: nat) returns (frac: Option<bytes>, exp: Option<Exponent>, d: nat)
    requires b <= |t| && (b < |t| ==> !IsDigit(t[b]))
    ensures (frac.Some? ==> AllDigits(frac.value)) && LooseExponent(exp)
    ensures Match(t, b, RenderFraction(frac) + RenderExponent(exp))
    ensures var c := AfterFraction(t, b);
            && d == b + |RenderFraction(frac)| + |RenderExponent(exp)| == AfterExponent(t, c) <= |t|
            && (b + 1 < c ==> frac.Some? && frac.value != [])
            && (HasExp(t, c) && AfterSign(t, c + 1) < d ==> exp.Some? && exp.value.digits != [])
    ensures ExponentEnds(t, d, exp)
    ensures d < |t| ==> !IsDigit(t[d]) && (exp.None? && frac.None? ==> t[d] != DOT)
  {
    hide Match, SkipDigits, AfterSign, AfterFraction, AfterExponent, HasExp, ExponentEnds, LooseExponent;
    hide RenderExponent, AllDigits;
    frac := FractionFound(t, b);
    var c := b + |RenderFraction(frac)|;
    exp := ExponentFound(t, c);
    d := c + |RenderExponent(exp)|;
    MatchJoin(t, b, RenderFraction(frac), RenderExponent(exp));
  }

  lemma SomeDigits(t: bytes, i: nat)
    requires i <= |t| && SkipNumber(t, i).Some?
    ensures var a := AfterSign(t, i); var b := SkipDigits(t, a); var c := AfterFraction(t, b);
            && SkipNumber(t, i) == Some(AfterExponent(t, c))
            && (a < b || b + 1 < c || (HasExp(t, c) && AfterSign(t, c + 1) < AfterExponent(t, c)))
  {
  }

  /** A skipped number is a loose number, taken as far as it goes. */
  lemma NumberFound(t: bytes, i: nat) returns (n: Number)
    requires i <= |t| && SkipNumber(t, i).Some?
    ensures LooseNumber(n) && Match(t, i, RenderNumber(n))
    ensures SkipNumber(t, i) == Some(i + |RenderNumber(n)|) && NumberEnds(t, i + |RenderNumber(n)|, n)
  {
    hide Match, SkipDigits, AfterSign, AfterFraction, AfterExponent, SkipNumber, HasExp, HasSign;
    hide ExponentEnds, LooseExponent, RenderExponent, RenderFraction, RenderSign, IsSign, AllDigits;
    SomeDigits(t, i);
    var sign := SignFound(t, i);
    var a := AfterSign(t, i);
    var whole := DigitsFound(t, a);
    var frac, exp, d := NumberTailFound(t, a + |whole|);
    n := Number(sign, whole, frac, exp);
    NumberJoin(t, i, n);
  }

  lemma NumberJoin(t: bytes, i: nat, n: Number)
    requires Match(t, i, RenderSign(n.sign)) && Match(t, i + |RenderSign(n.sign)|, n.whole)
    requires Match(t, i + |RenderSign(n.sign)| + |n.whole|, RenderFraction(n.frac) + RenderExponent(n.exp))
    ensures Match(t, i, RenderNumber(n))
    ensures |RenderNumber(n)|
         == |RenderSign(n.sign)| + |n.whole| + |RenderFraction(n.frac)| + |RenderExponent(n.exp)|
  {
    hide Match, RenderSign, RenderFraction, RenderExponent;
    var tail := RenderFraction(n.frac) + RenderExponent(n.exp);
    MatchJoin(t, i + |RenderSign(n.sign)|, n.whole, tail);
    MatchJoin(t, i, RenderSign(n.sign), n.whole + tail);
  }

  /** `ws` and then `v` stand in `t` from `i` to `j`, and end there. */
  predicate Spells(t: bytes, i: nat, ws: bytes, v: Value, j: nat) {
    && AllWs(ws) && Loose(v) && Match(t, i, ws + Render(v))
    && j == i + |ws| + |Render(v)| && Ends(t, j, v)
  }

  lemma AtomFound(t: bytes, j: nat) returns (v: Value)
    requires j <= |t| && SkipAtom(t, j).Some?
    ensures Loose(v) && Match(t, j, Render(v)) && SkipAtom(t, j) == Some(j + |Render(v)|)
    ensures Ends(t, j + |Render(v)|, v)
  {
    hide SkipNumber, Match, LooseNumber, NumberEnds, RenderNumber;
    if Match(t, j, TRUE) {
      v := True;
    } else if Match(t, j, FALSE) {
      v := False;
    } else if Match(t, j, NULL) {
      v := Null;
    } else {
      var n := NumberFound(t, j);
      v := Num(n);
    }
  }

  /** Whatever the scanner skips is white space and one loose value. */
  lemma {:induction false} ScannerSoundness(t: bytes, i: nat, j: nat) returns (ws: bytes, v: Value)
    requires i <= |t| && SkipValue(t, i) == Some(j)
    ensures Spells(t, i, ws, v, j)
    decreases |t| - i, 4
  {
    SkipLeadingWs(t, i);
    SkipWsTwice(t, i);
    hide SkipValue, Match, Render, Loose, SkipWs, Ends;
    ws := WsFound(t, i);
    v := TokenFound(t, i + |ws|, j);
    MatchJoin(t, i, ws, Render(v));
  }

  lemma {:induction false} TokenFound(t: bytes, i: nat, j: nat) returns (v: Value)
    requires i <= |t| && SkipWs(t, i) == i && SkipValue(t, i) == Some(j)
    ensures Loose(v) && Match(t, i, Render(v)) && j == i + |Render(v)| && Ends(t, j, v)
    decreases |t| - i, 2
  {
    hide SkipString, SkipObject, SkipArray, SkipAtom, Match, Render, Loose, SkipWs, NumberEnds;
    if t[i] == QUOTE {
      v := TextFound(t, i);
    } else if t[i] == OPEN_BRACE {
      v := ObjectFound(t, i, j);
    } else if t[i] == OPEN_BRACKET {
      v := ArrayFound(t, i, j);
    } else {
      v := AtomFound(t, i);
    }
  }

  lemma TextFound(t: bytes, i: nat) returns (v: Value)
    requires i <= |t| && SkipString(t, i).Some?
    ensures Loose(v) && Match(t, i, Render(v)) && SkipString(t, i) == Some(i + |Render(v)|) && !v.Num?
  {
    hide SkipString, Match, RenderString;
    var cs := StringFound(t, i);
    v := Str(cs);
  }

  lemma {:induction false} ArrayFound(t: bytes, i: nat, j: nat) returns (v: Value)
    requires i <= |t| && SkipArray(t, i) == Some(j)
    ensures Loose(v) && Match(t, i, Render(v)) && j == i + |Render(v)| && !v.Num?
    decreases |t| - i, 1
  {
    hide Items, SkipWs, Match, RenderItems, LooseItems, AllWs;
    var ws := WsFound(t, i + 1);
    var k := i + 1 + |ws|;
    SkipWsTwice(t, i + 1);
    MatchByte(t, i, OPEN_BRACKET);
    if Has(t, k, CLOSE_BRACKET) {
      v := EmptyArray(ws);
      MatchByte(t, k, CLOSE_BRACKET);
      MatchJoin(t, i + 1, ws, [CLOSE_BRACKET]);
      MatchJoin(t, i, [OPEN_BRACKET], ws + [CLOSE_BRACKET]);
    } else {
      var l := ItemsFound(t, k, j);
      v := Array(ws, l);
      MatchJoin(t, i + 1, ws, RenderItems(l));
      MatchJoin(t, i, [OPEN_BRACKET], ws + RenderItems(l));
    }
  }

  lemma {:induction false} ObjectFound(t: bytes, i: nat, j: nat) returns (v: Value)
    requires i <= |t| && SkipObject(t, i) == Some(j)
    ensures Loose(v) && Match(t, i, Render(v)) && j == i + |Render(v)| && !v.Num?
    ensures v.Object? || v.EmptyObject?
    decreases |t| - i, 1
  {
    hide Members, SkipWs, Match, RenderMembers, LooseMembers, AllWs;
    var ws := WsFound(t, i + 1);
    var k := i + 1 + |ws|;
    SkipWsTwice(t, i + 1);
    MatchByte(t, i, OPEN_BRACE);
    if Has(t, k, CLOSE_BRACE) {
      v := EmptyObject(ws);
      MatchByte(t, k, CLOSE_BRACE);
      MatchJoin(t, i + 1, ws, [CLOSE_BRACE]);
      MatchJoin(t, i, [OPEN_BRACE], ws + [CLOSE_BRACE]);
    } else {
      var l := MembersFound(t, k, j);
      v := Object(ws, l);
      MatchJoin(t, i + 1, ws, RenderMembers(l));
      MatchJoin(t, i, [OPEN_BRACE], ws + RenderMembers(l));
    }
  }

  /** What stands between an element and the next, or the closer. */
  lemma SeparatorFound(t: bytes, j: nat, closer: byte) returns (post: bytes, pre: bytes)
    requires j <= |t| && !AfterElement(t, j, closer).Bad?
    ensures AllWs(post) && AllWs(pre) && Match(t, j, post)
    ensures var sep := AfterElement(t, j, closer);
            if sep.Done? then sep.at == j + |post| + 1 && Has(t, j + |post|, closer)
            else
              && sep.at == j + |post| + 1 + |pre| && SkipWs(t, sep.at) == sep.at
              && Has(t, j + |post|, COMMA) && Match(t, j + |post| + 1, pre)
  {
    hide SkipWs, Match, AllWs;
    post := WsFound(t, j);
    pre := [];
    NoWs();
    if Has(t, j + |post|, COMMA) {
      pre := WsFound(t, j + |post| + 1);
      SkipWsTwice(t, j + |post| + 1);
    }
  }

  lemma NoWs()
    ensures AllWs([])
  {
  }

  lemma DoneJoin(t: bytes, i: nat, r: bytes, post: bytes, closer: byte)
    requires Match(t, i, r) && Match(t, i + |r|, post) && Has(t, i + |r| + |post|, closer)
    ensures Match(t, i, r + (post + [closer]))
  {
    hide Match;
    MatchByte(t, i + |r| + |post|, closer);
    MatchJoin(t, i + |r|, post, [closer]);
    MatchJoin(t, i, r, post + [closer]);
  }

  lemma NextJoin(t: bytes, i: nat, r: bytes, post: bytes, pre: bytes, next: bytes)
    requires Match(t, i, r) && Match(t, i + |r|, post) && Has(t, i + |r| + |post|, COMMA)
    requires Match(t, i + |r| + |post| + 1, pre) && Match(t, i + |r| + |post| + 1 + |pre|, next)
    ensures Match(t, i, r + (post + ([COMMA] + (pre + next))))
  {
    hide Match;
    var k := i + |r| + |post|;
    MatchByte(t, k, COMMA);
    MatchJoin(t, k + 1, pre, next);
    MatchJoin(t, k, [COMMA], pre + next);
    MatchJoin(t, i + |r|, post, [COMMA] + (pre + next));
    MatchJoin(t, i, r, post + ([COMMA] + (pre + next)));
  }

  lemma {:induction false} ItemsFound(t: bytes, i: nat, j: nat) returns (l: ItemList)
    requires i <= |t| && SkipWs(t, i) == i && Items(t, i) == Some(j)
    ensures LooseItems(l) && Match(t, i, RenderItems(l)) && j == i + |RenderItems(l)|
    decreases |t| - i, 3
  {
    hide SkipValue, SkipWs, Match, Render, Loose, AfterElement, Ends, AllWs;
    var m := SkipValue(t, i).value;
    var v := TokenFound(t, i, m);
    var post, pre := SeparatorFound(t, m, CLOSE_BRACKET);
    var sep := AfterElement(t, m, CLOSE_BRACKET);
    if sep.Next? {
      var rest := ItemsFound(t, sep.at, j);
      l := MoreItems(v, post, pre, rest);
      NextJoin(t, i, Render(v), post, pre, RenderItems(rest));
    } else {
      l := LastItem(v, post);
      DoneJoin(t, i, Render(v), post, CLOSE_BRACKET);
    }
  }

  /** A skipped key with its colon, and where its value starts. */
  lemma KeyFound(t: bytes, i: nat) returns (key: seq<Char>, beforeColon: bytes, afterColon: bytes)
    requires i <= |t| && MemberStart(t, i).Some?
    ensures ValidChars(key) && AllWs(beforeColon) && AllWs(afterColon)
    ensures var r := RenderString(key) + (beforeColon + ([COLON] + afterColon));
            var m := i + |r|;
            Match(t, i, r) && MemberStart(t, i) == Some(m) && SkipWs(t, m) == m
  {
    hide SkipString, SkipWs, Match, RenderString, ValidChars, AllWs;
    key := StringFound(t, i);
    var j := i + |RenderString(key)|;
    beforeColon := WsFound(t, j);
    var k := j + |beforeColon|;
    afterColon := WsFound(t, k + 1);
    SkipWsTwice(t, k + 1);
    MatchByte(t, k, COLON);
    MatchJoin(t, k, [COLON], afterColon);
    MatchJoin(t, j, beforeColon, [COLON] + afterColon);
    MatchJoin(t, i, RenderString(key), beforeColon + ([COLON] + afterColon));
  }

  lemma {:induction false} MembersFound(t: bytes, i: nat, j: nat) returns (l: MemberList)
    requires i <= |t| && Members(t, i) == Some(j)
    ensures LooseMembers(l) && Match(t, i, RenderMembers(l)) && j == i + |RenderMembers(l)|
    decreases |t| - i, 3
  {
    hide SkipValue, SkipWs, Match, Render, Loose, AfterElement, Ends, AllWs, MemberStart, RenderString, ValidChars;
    var key, before, after := KeyFound(t, i);
    var m := MemberStart(t, i).value;
    var n := SkipValue(t, m).value;
    var v := TokenFound(t, m, n);
    var post, pre := SeparatorFound(t, n, CLOSE_BRACE);
    var sep := AfterElement(t, n, CLOSE_BRACE);
    if sep.Next? {
      var rest := MembersFound(t, sep.at, j);
      l := MoreMembers(key, before, after, v, post, pre, rest);
      NextJoin(t, m, Render(v), post, pre, RenderMembers(rest));
    } else {
      l := LastMember(key, before, after, v, post);
      DoneJoin(t, m, Render(v), post, CLOSE_BRACE);
    }
    MatchJoin(t, i, RenderKey(l), RenderMembers(l)[|RenderKey(l)|..]);
    assert RenderMembers(l) == RenderKey(l) + RenderMembers(l)[|RenderKey(l)|..];
  }

  /**
   * The scanner's language: it skips from `i` to `j` if and only if white space and one
   * loose value stand there, and the value goes no further.
   */
  lemma ScannerExact(t: bytes, i: nat, j: nat)
    requires i <= |t|
    ensures SkipValue(t, i) == Some(j) <==> exists ws, v :: Spells(t, i, ws, v, j)
  {
    hide SkipValue, Loose, Render, Match, Ends;
    if SkipValue(t, i) == Some(j) {
      var ws, v := ScannerSoundness(t, i, j);
    }
    if ws, v :| Spells(t, i, ws, v, j) {
      ScannerTakes(t, i, ws, v);
    }
  }
}
