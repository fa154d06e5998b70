// The hand-written JSON scanner: each skipper moves a cursor over one token.
// The functions say where the cursor ends up; the methods are the loops.

module JsonScan {
  import opened Wrappers
  import opened Bytes

  const QUOTE: byte := 0x22
  const BACKSLASH: byte := 0x5C
  const COMMA: byte := 0x2C
  const COLON: byte := 0x3A
  const PLUS: byte := 0x2B
  const MINUS: byte := 0x2D
  const DOT: byte := 0x2E
  const LOWER_E: byte := 0x65
  const UPPER_E: byte := 0x45
  const OPEN_BRACKET: byte := 0x5B
  const CLOSE_BRACKET: byte := 0x5D
  const OPEN_BRACE: byte := 0x7B
  const CLOSE_BRACE: byte := 0x7D
  const TRUE: bytes := [0x74, 0x72, 0x75, 0x65]
  const FALSE: bytes := [0x66, 0x61, 0x6C, 0x73, 0x65]
  const NULL: bytes := [0x6E, 0x75, 0x6C, 0x6C]

  predicate IsWs(c: byte) {
    c == 0x20 || c == 0x09 || c == 0x0A || c == 0x0D
  }

  predicate IsDigit(c: byte) {
    0x30 <= c <= 0x39
  }

  predicate Has(t: bytes, i: nat, c: byte) {
    i < |t| && t[i] == c
  }

  predicate HasSign(t: bytes, i: nat) {
    Has(t, i, PLUS) || Has(t, i, MINUS)
  }

  predicate HasExp(t: bytes, i: nat) {
    Has(t, i, LOWER_E) || Has(t, i, UPPER_E)
  }

  // ---- Where each skipper stops -------------------------------------------

  function SkipWs(t: bytes, i: nat): (j: nat)
    requires i <= |t|
    ensures i <= j <= |t|
    ensures j < |t| ==> !IsWs(t[j])
    decreases |t| - i
  {
    if i < |t| && IsWs(t[i]) then SkipWs(t, i + 1) else i
  }

  function SkipDigits(t: bytes, i: nat): (j: nat)
    requires i <= |t|
    ensures i <= j <= |t|
    ensures i < j ==> IsDigit(t[j - 1])
    ensures j < |t| ==> !IsDigit(t[j])
    decreases |t| - i
  {
    if i < |t| && IsDigit(t[i]) then SkipDigits(t, i + 1) else i
  }

  /** From inside a string to just after its closing quote. */
  function StringTail(t: bytes, i: nat): (r: Option<nat>)
    requires i <= |t|
    ensures r.Some? ==> i < r.value <= |t| && t[r.value - 1] == QUOTE
    decreases |t| - i
  {
    if i >= |t| then None
    else if t[i] == QUOTE then Some(i + 1)
    else if t[i] != BACKSLASH then StringTail(t, i + 1)
    else if i + 1 >= |t| then None
    else StringTail(t, i + 2)
  }

  function SkipString(t: bytes, i: nat): (r: Option<nat>)
    requires i <= |t|
    ensures r.Some? ==> i + 1 < r.value <= |t| && t[i] == QUOTE && t[r.value - 1] == QUOTE
  {
    if Has(t, i, QUOTE) then StringTail(t, i + 1) else None
  }

  /** Position after the optional sign at `i`. */
  function AfterSign(t: bytes, i: nat): (j: nat)
    requires i <= |t|
    ensures i <= j <= |t|
  {
    if HasSign(t, i) then i + 1 else i
  }

  /** Position after the optional fraction at `i`. */
  function AfterFraction(t: bytes, i: nat): (j: nat)
    requires i <= |t|
    ensures i <= j <= |t|
  {
    if Has(t, i, DOT) then SkipDigits(t, i + 1) else i
  }

  /** Position after the optional exponent at `i`. */
  function AfterExponent(t: bytes, i: nat): (j: nat)
    requires i <= |t|
    ensures i <= j <= |t|
  {
    if HasExp(t, i) then SkipDigits(t, AfterSign(t, i + 1)) else i
  }

  function SkipNumber(t: bytes, i: nat): (r: Option<nat>)
    requires i <= |t|
    ensures r.Some? ==> i < r.value <= |t| && !IsWs(t[r.value - 1])
  {
    var a := AfterSign(t, i);
    var b := SkipDigits(t, a);
    var c := AfterFraction(t, b);
    var d := AfterExponent(t, c);
    var digits := a < b || b + 1 < c
      || (HasExp(t, c) && AfterSign(t, c + 1) < d);
    if digits then Some(d) else None
  }

  datatype Separator = Next(at: nat) | Done(at: nat) | Bad

  /** What follows an element: a comma and the next start, the closer, or neither. */
  function AfterElement(t: bytes, j: nat, closer: byte): (r: Separator)
    requires j <= |t|
    ensures !r.Bad? ==> j < r.at <= |t|
    ensures r.Done? ==> t[r.at - 1] == closer
  {
    var k := SkipWs(t, j);
    if Has(t, k, COMMA) then Next(SkipWs(t, k + 1))
    else if Has(t, k, closer) then Done(k + 1)
    else Bad
  }

  /** End of the literal or number that starts at `j`. */
  function SkipAtom(t: bytes, j: nat): (r: Option<nat>)
    requires j <= |t|
    ensures r.Some? ==> j < r.value <= |t| && !IsWs(t[r.value - 1])
  {
    if Match(t, j, TRUE) then MatchAt(t, j, TRUE, 3); Some(j + 4)
    else if Match(t, j, FALSE) then MatchAt(t, j, FALSE, 4); Some(j + 5)
    else if Match(t, j, NULL) then MatchAt(t, j, NULL, 3); Some(j + 4)
    else SkipNumber(t, j)
  }

  function SkipValue(t: bytes, i: nat): (r: Option<nat>)
    requires i <= |t|
    ensures r.Some? ==> SkipWs(t, i) < r.value <= |t| && !IsWs(t[r.value - 1])
    decreases |t| - i, 1
  {
    var j := SkipWs(t, i);
    if j >= |t| then None
    else if t[j] == QUOTE then SkipString(t, j)
    else if t[j] == OPEN_BRACE then SkipObject(t, j)
    else if t[j] == OPEN_BRACKET then SkipArray(t, j)
    else SkipAtom(t, j)
  }

  function SkipArray(t: bytes, i: nat): (r: Option<nat>)
    requires i <= |t|
    ensures r.Some? ==> i < r.value <= |t| && t[r.value - 1] == CLOSE_BRACKET
    decreases |t| - i, 0
  {
    if !Has(t, i, OPEN_BRACKET) then None
    else
      var j := SkipWs(t, i + 1);
      if Has(t, j, CLOSE_BRACKET) then Some(j + 1) else Items(t, j)
  }

  /** From the start of an array item to just after the closing bracket. */
  function Items(t: bytes, i: nat): (r: Option<nat>)
    requires i <= |t|
    ensures r.Some? ==> i < r.value <= |t| && t[r.value - 1] == CLOSE_BRACKET
    decreases |t| - i, 2
  {
    if i >= |t| then None
    else match SkipValue(t, i)
      case None => None
      case Some(j) =>
        match AfterElement(t, j, CLOSE_BRACKET)
        case Next(k) => Items(t, k)
        case Done(k) => Some(k)
        case Bad => None
  }

  function SkipObject(t: bytes, i: nat): (r: Option<nat>)
    requires i <= |t|
    ensures r.Some? ==> i < r.value <= |t| && t[r.value - 1] == CLOSE_BRACE
    decreases |t| - i, 0
  {
    if !Has(t, i, OPEN_BRACE) then None
    else
      var j := SkipWs(t, i + 1);
      if Has(t, j, CLOSE_BRACE) then Some(j + 1) else Members(t, j)
  }

  /** From the start of an object member to just after the closing brace. */
  function Members(t: bytes, i: nat): (r: Option<nat>)
    requires i <= |t|
    ensures r.Some? ==> i < r.value <= |t| && t[r.value - 1] == CLOSE_BRACE
    decreases |t| - i, 2
  {
    match MemberStart(t, i)
    case None => None
    case Some(m) =>
      match SkipValue(t, m)
      case None => None
      case Some(j) =>
        match AfterElement(t, j, CLOSE_BRACE)
        case Next(k) => Members(t, k)
        case Done(k) => Some(k)
        case Bad => None
  }

  /** From the start of an object member to the start of its value. */
  function MemberStart(t: bytes, i: nat): (r: Option<nat>)
    requires i <= |t|
    ensures r.Some? ==> i < r.value <= |t|
  {
    match SkipString(t, i)
    case None => None
    case Some(j) => AfterKey(t, j)
  }

  /** From the end of a key over its colon to the start of the value. */
  function AfterKey(t: bytes, j: nat): (r: Option<nat>)
    requires j <= |t|
    ensures r.Some? ==> j < r.value <= |t|
  {
    var k := SkipWs(t, j);
    if Has(t, k, COLON) then Some(SkipWs(t, k + 1)) else None
  }

  function TrimEnd(t: bytes, lo: nat, hi: nat): (e: nat)
    requires lo <= hi <= |t|
    ensures lo <= e <= hi
    ensures lo < e ==> !IsWs(t[e - 1])
    decreases hi
  {
    if lo < hi && IsWs(t[hi - 1]) then TrimEnd(t, lo, hi - 1) else hi
  }

  function Trim(t: bytes): bytes {
    t[SkipWs(t, 0)..TrimEnd(t, SkipWs(t, 0), |t|)]
  }

  /** A text without white space at its ends is its own trim. */
  lemma TrimSolid(t: bytes)
    requires t != [] && !IsWs(t[0]) && !IsWs(t[|t| - 1])
    ensures Trim(t) == t
  {
    assert SkipWs(t, 0) == 0;
  }

  // ---- The loops ------------------------------------------------------------

  method SkipWsLoop(text: bytes, start: nat) returns (i: nat)
    requires start <= |text|
    ensures i == SkipWs(text, start)
  {
    i := start;
    while i < |text| && IsWs(text[i])
      invariant start <= i <= |text|
      invariant SkipWs(text, i) == SkipWs(text, start)
    {
      i := i + 1;
    }
  }

  method SkipDigitsLoop(text: bytes, start: nat) returns (i: nat)
    requires start <= |text|
    ensures i == SkipDigits(text, start)
  {
    i := start;
    while i < |text| && IsDigit(text[i])
      invariant start <= i <= |text|
      invariant SkipDigits(text, i) == SkipDigits(text, start)
    {
      i := i + 1;
    }
  }

  method TrimView(text: bytes) returns (view: bytes)
    ensures view == Trim(text)
  {
    var begin := SkipWsLoop(text, 0);
    var end := |text|;
    while begin < end && IsWs(text[end - 1])
      invariant begin <= end <= |text|
      invariant TrimEnd(text, begin, end) == TrimEnd(text, begin, |text|)
    {
      end := end - 1;
    }
    view := text[begin..end];
  }

  /** On failure the cursor is wherever the walk gave up, still inside the text. */
  predicate Outcome(text: bytes, start: nat, spec: Option<nat>, ok: bool, i: nat) {
    start <= i <= |text| && ok == spec.Some? && (ok ==> i == spec.value)
  }

  method SkipStringToken(text: bytes, start: nat) returns (ok: bool, i: nat)
    requires start <= |text|
    ensures Outcome(text, start, SkipString(text, start), ok, i)
  {
    i := start;
    if i >= |text| || text[i] != QUOTE {
      return false, i;
    }
    i := i + 1;
    while i < |text|
      invariant start < i <= |text|
      invariant StringTail(text, i) == StringTail(text, start + 1)
    {
      var ch := text[i];
      i := i + 1;
      if ch == QUOTE {
        return true, i;
      }
      if ch == BACKSLASH {
        if i >= |text| {
          return false, i;
        }
        i := i + 1;
      }
    }
    ok := false;
  }

  method FractionLoop(text: bytes, start: nat) returns (digits: bool, i: nat)
    requires start <= |text|
    ensures i == AfterFraction(text, start) && digits == (start + 1 < i)
  {
    i := start;
    if i < |text| && text[i] == DOT {
      i := SkipDigitsLoop(text, i + 1);
    }
    digits := start + 1 < i;
  }

  method ExponentLoop(text: bytes, start: nat) returns (digits: bool, i: nat)
    requires start <= |text|
    ensures i == AfterExponent(text, start)
    ensures digits == (HasExp(text, start) && AfterSign(text, start + 1) < i)
  {
    i := start;
    digits := false;
    if i < |text| && (text[i] == LOWER_E || text[i] == UPPER_E) {
      i := i + 1;
      if i < |text| && (text[i] == PLUS || text[i] == MINUS) {
        i := i + 1;
      }
      var before := i;
      i := SkipDigitsLoop(text, i);
      digits := before < i;
    }
  }

  method SkipNumberToken(text: bytes, start: nat) returns (ok: bool, i: nat)
    requires start <= |text|
    ensures Outcome(text, start, SkipNumber(text, start), ok, i)
  {
    i := start;
    if i < |text| && (text[i] == MINUS || text[i] == PLUS) {
      i := i + 1;
    }
    var before := i;
    i := SkipDigitsLoop(text, i);
    ok := before < i;
    var fraction, exponent;
    fraction, i := FractionLoop(text, i);
    exponent, i := ExponentLoop(text, i);
    ok := ok || fraction || exponent;
  }

  method AfterElementLoop(text: bytes, start: nat, closer: byte) returns (sep: Separator)
    requires start <= |text|
    ensures sep == AfterElement(text, start, closer)
  {
    var i := SkipWsLoop(text, start);
    if i < |text| && text[i] == COMMA {
      i := SkipWsLoop(text, i + 1);
      return Next(i);
    }
    if i < |text| && text[i] == closer {
      return Done(i + 1);
    }
    sep := Bad;
  }

  method AfterKeyLoop(text: bytes, start: nat) returns (ok: bool, i: nat)
    requires start <= |text|
    ensures Outcome(text, start, AfterKey(text, start), ok, i)
  {
    i := SkipWsLoop(text, start);
    if i >= |text| || text[i] != COLON {
      return false, i;
    }
    i := SkipWsLoop(text, i + 1);
    ok := true;
  }

  method MemberStartLoop(text: bytes, start: nat) returns (ok: bool, i: nat)
    requires start <= |text|
    ensures Outcome(text, start, MemberStart(text, start), ok, i)
  {
    ok, i := SkipStringToken(text, start);
    if ok {
      ok, i := AfterKeyLoop(text, i);
    }
  }

  method SkipArrayToken(text: bytes, start: nat) returns (ok: bool, i: nat)
    requires start <= |text|
    ensures Outcome(text, start, SkipArray(text, start), ok, i)
    decreases |text| - start, 0
  {
    i := start;
    if i >= |text| || text[i] != OPEN_BRACKET {
      return false, i;
    }
    i := SkipWsLoop(text, i + 1);
    if i < |text| && text[i] == CLOSE_BRACKET {
      return true, i + 1;
    }
    while i < |text|
      invariant start < i <= |text|
      invariant Items(text, i) == SkipArray(text, start)
    {
      var valueOk;
      valueOk, i := SkipValueToken(text, i);
      if !valueOk {
        return false, i;
      }
      var sep := AfterElementLoop(text, i, CLOSE_BRACKET);
      match sep
      case Next(at) => i := at;
      case Done(at) => return true, at;
      case Bad => return false, i;
    }
    ok := false;
  }

  method SkipObjectToken(text: bytes, start: nat) returns (ok: bool, i: nat)
    requires start <= |text|
    ensures Outcome(text, start, SkipObject(text, start), ok, i)
    decreases |text| - start, 0
  {
    i := start;
    if i >= |text| || text[i] != OPEN_BRACE {
      return false, i;
    }
    i := SkipWsLoop(text, i + 1);
    if i < |text| && text[i] == CLOSE_BRACE {
      return true, i + 1;
    }
    while i < |text|
      invariant start < i <= |text|
      invariant Members(text, i) == SkipObject(text, start)
    {
      var partOk;
      partOk, i := MemberStartLoop(text, i);
      if !partOk {
        return false, i;
      }
      partOk, i := SkipValueToken(text, i);
      if !partOk {
        return false, i;
      }
      var sep := AfterElementLoop(text, i, CLOSE_BRACE);
      match sep
      case Next(at) => i := at;
      case Done(at) => return true, at;
      case Bad => return false, i;
    }
    ok := false;
  }

  method SkipValueToken(text: bytes, start: nat) returns (ok: bool, i: nat)
    requires start <= |text|
    ensures Outcome(text, start, SkipValue(text, start), ok, i)
    decreases |text| - start, 1
  {
    i := SkipWsLoop(text, start);
    if i >= |text| {
      return false, i;
    }
    var ch := text[i];
    if ch == QUOTE {
      ok, i := SkipStringToken(text, i);
      return;
    }
    if ch == OPEN_BRACE {
      ok, i := SkipObjectToken(text, i);
      return;
    }
    if ch == OPEN_BRACKET {
      ok, i := SkipArrayToken(text, i);
      return;
    }
    if Match(text, i, TRUE) {
      return true, i + 4;
    }
    if Match(text, i, FALSE) {
      return true, i + 5;
    }
    if Match(text, i, NULL) {
      return true, i + 4;
    }
    ok, i := SkipNumberToken(text, i);
  }
}
