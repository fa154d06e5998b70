// Numbers in text: decimal integers, and doubles by their fifteen significant digits.

module JsonNumber {
  import opened Wrappers
  import opened Bytes
  import opened JsonScan
  import G = JsonGrammar

  const ZERO: byte := 0x30

  // ---- Decimal integers ---------------------------------------------------------------

  function Digits(n: nat): (r: bytes)
    ensures r != []
  {
    if n < 10 then [0x30 + n] else Digits(n / 10) + [0x30 + n % 10]
  }

  function Decimal(n: int): bytes {
    if n < 0 then [MINUS] + Digits(-n) else Digits(n)
  }

  /** Value of a run of digits; none if it is empty or holds anything else. */
  function DigitsValue(s: bytes): Option<nat> {
    if s == [] || !IsDigit(s[|s| - 1]) then None
    else if |s| == 1 then Some(s[0] - 0x30)
    else
      match DigitsValue(s[..|s| - 1])
      case None => None
      case Some(v) => Some(v * 10 + (s[|s| - 1] - 0x30))
  }

  lemma {:induction false} DigitsValueOfDigits(n: nat)
    ensures DigitsValue(Digits(n)) == Some(n)
    ensures forall k :: 0 <= k < |Digits(n)| ==> IsDigit(Digits(n)[k])
    ensures n > 0 ==> Digits(n)[0] != 0x30
  {
    if n >= 10 {
      DigitsValueOfDigits(n / 10);
      var d := Digits(n);
      assert d[..|d| - 1] == Digits(n / 10);
    }
  }

  function Magnitude(n: int): nat {
    if n < 0 then -n else n
  }

  // ---- Doubles -------------------------------------------------------------------------

  const PRECISION := 15

  /**
   * A double by what is left of it after rounding to fifteen significant digits, trailing
   * zeros dropped: its value is then d.ddd times ten to the `exp`.
   */
  datatype Double = NotFinite | Zero(minus: bool) | Finite(minus: bool, digits: bytes, exp: int)

  predicate Rounded(d: Double) {
    d.Finite? ==>
      && 1 <= |d.digits| <= PRECISION && G.AllDigits(d.digits)
      && d.digits[0] != ZERO && d.digits[|d.digits| - 1] != ZERO
  }

  type double = d: Double | Rounded(d) witness NotFinite

  function Zeros(n: nat): (r: bytes)
    ensures |r| == n
  {
    seq(n, _ => ZERO)
  }

  function Sign(minus: bool): bytes {
    if minus then [MINUS] else []
  }

  /** At least two digits. */
  function TwoDigits(n: nat): bytes {
    if n < 10 then [ZERO] + Digits(n) else Digits(n)
  }

  /** Without an exponent. */
  function Fixed(digits: bytes, exp: int): bytes
    requires -4 <= exp < PRECISION
  {
    if exp < 0 then [ZERO, DOT] + (Zeros(-exp - 1) + digits)
    else if |digits| <= exp + 1 then digits + Zeros(exp + 1 - |digits|)
    else digits[..exp + 1] + ([DOT] + digits[exp + 1..])
  }

  /** One digit before the point, and an exponent. */
  function Scientific(digits: bytes, exp: int): bytes
    requires digits != []
  {
    digits[..1] + ((if |digits| > 1 then [DOT] + digits[1..] else [])
                   + ([LOWER_E, if exp < 0 then MINUS else PLUS] + TwoDigits(if exp < 0 then -exp else exp)))
  }

  /** The library's general format with fifteen digits of precision. */
  function PrintDouble(d: double): bytes {
    match d
    case NotFinite => NULL
    case Zero(minus) => Sign(minus) + [ZERO]
    case Finite(minus, digits, exp) =>
      Sign(minus) + if -4 <= exp < PRECISION then Fixed(digits, exp) else Scientific(digits, exp)
  }

  /** Printed without point and exponent. */
  predicate Whole(d: double) {
    d.Zero? || (d.Finite? && |d.digits| - 1 <= d.exp < PRECISION)
  }

  // ---- What is printed is the number -------------------------------------------------------

  /** The RFC 8259 number that is printed. */
  function DoubleNumber(d: double): G.Number
    requires !d.NotFinite?
  {
    var sign := if d.minus then Some(MINUS) else None;
    match d
    case Zero(_) => G.Number(sign, [ZERO], None, None)
    case Finite(_, digits, exp) =>
      if exp < -4 || exp >= PRECISION then
        G.Number(sign, digits[..1], if |digits| > 1 then Some(digits[1..]) else None,
                 Some(G.Exponent(false, Some(if exp < 0 then MINUS else PLUS),
                                 TwoDigits(if exp < 0 then -exp else exp))))
      else if exp < 0 then G.Number(sign, [ZERO], Some(Zeros(-exp - 1) + digits), None)
      else if |digits| <= exp + 1 then G.Number(sign, digits + Zeros(exp + 1 - |digits|), None, None)
      else G.Number(sign, digits[..exp + 1], Some(digits[exp + 1..]), None)
  }

  lemma ZerosAreDigits(n: nat)
    ensures G.AllDigits(Zeros(n))
  {
  }

  lemma TwoDigitsExact(n: nat)
    ensures G.AllDigits(TwoDigits(n)) && |TwoDigits(n)| >= 2 && DigitsValue(TwoDigits(n)) == Some(n)
  {
    DigitsValueOfDigits(n);
    if n < 10 {
      assert TwoDigits(n)[..1] == [ZERO];
    } else {
      assert Digits(n) == Digits(n / 10) + [ZERO + n % 10];
    }
  }

  lemma SmallPrints(digits: bytes, exp: int, sign: Option<byte>)
    requires -4 <= exp < 0 && digits != [] && G.AllDigits(digits)
    ensures var n := G.Number(sign, [ZERO], Some(Zeros(-exp - 1) + digits), None);
            G.RenderNumber(n) == G.RenderSign(sign) + Fixed(digits, exp)
  {
    var frac := Zeros(-exp - 1) + digits;
    assert [ZERO] + ([DOT] + frac + []) == [ZERO, DOT] + frac;
  }

  lemma WholePrints(digits: bytes, exp: int, sign: Option<byte>)
    requires digits != [] && |digits| - 1 <= exp < PRECISION
    ensures var n := G.Number(sign, digits + Zeros(exp + 1 - |digits|), None, None);
            G.RenderNumber(n) == G.RenderSign(sign) + Fixed(digits, exp)
  {
    var whole := digits + Zeros(exp + 1 - |digits|);
    NothingAfter(whole);
  }

  lemma NothingAfter(s: bytes)
    ensures s + ([] + []) == s
  {
  }

  lemma MixedPrints(digits: bytes, exp: int, sign: Option<byte>)
    requires 0 <= exp < PRECISION && exp + 1 < |digits|
    ensures var n := G.Number(sign, digits[..exp + 1], Some(digits[exp + 1..]), None);
            G.RenderNumber(n) == G.RenderSign(sign) + Fixed(digits, exp)
  {
    var frac := digits[exp + 1..];
    assert [DOT] + frac + [] == [DOT] + frac;
  }

  lemma ScientificPrints(digits: bytes, exp: int, sign: Option<byte>)
    requires digits != []
    ensures var e := G.Exponent(false, Some(if exp < 0 then MINUS else PLUS), TwoDigits(if exp < 0 then -exp else exp));
            var n := G.Number(sign, digits[..1], if |digits| > 1 then Some(digits[1..]) else None, Some(e));
            G.RenderNumber(n) == G.RenderSign(sign) + Scientific(digits, exp)
  {
    hide TwoDigits;
    var mark, power := if exp < 0 then MINUS else PLUS, TwoDigits(if exp < 0 then -exp else exp);
    assert [LOWER_E] + ([mark] + power) == [LOWER_E, mark] + power;
  }

  /** What is printed for a finite double is an RFC 8259 number. */
  lemma DoublePrints(d: double)
    requires !d.NotFinite?
    ensures G.ValidNumber(DoubleNumber(d)) && G.RenderNumber(DoubleNumber(d)) == PrintDouble(d)
  {
    hide Fixed, Scientific, G.RenderNumber, TwoDigits;
    var sign := if d.minus then Some(MINUS) else None;
    assert G.RenderSign(sign) == Sign(d.minus);
    match d
    case Zero(_) => ZeroPrints(sign);
    case Finite(_, digits, exp) =>
      ZerosAreDigits(PRECISION);
      if exp < -4 || exp >= PRECISION {
        ScientificPrints(digits, exp, sign);
        TwoDigitsExact(if exp < 0 then -exp else exp);
      } else if exp < 0 {
        SmallPrints(digits, exp, sign);
      } else if |digits| <= exp + 1 {
        WholePrints(digits, exp, sign);
      } else {
        MixedPrints(digits, exp, sign);
      }
  }

  lemma ZeroPrints(sign: Option<byte>)
    ensures G.RenderNumber(G.Number(sign, [ZERO], None, None)) == G.RenderSign(sign) + [ZERO]
  {
    assert [ZERO] + ([] + []) == [ZERO];
  }

  // ---- And has its value ----------------------------------------------------------------------

  function TenTo(k: nat): nat {
    if k == 0 then 1 else 10 * TenTo(k - 1)
  }

  function Ten(e: int): real {
    if e >= 0 then TenTo(e) as real else 1.0 / Positive(TenTo(-e))
  }

  function Positive(n: nat): (r: real)
    ensures r > 0.0 && (n > 0 ==> r == n as real)
  {
    if n > 0 then n as real else 1.0
  }

  /** `m` times ten to the `e`. */
  function Scaled(m: nat, e: int): real {
    m as real * Ten(e)
  }

  function Natural(s: bytes): nat {
    match DigitsValue(s) case None => 0 case Some(v) => v
  }

  function Signed(minus: bool, r: real): real {
    if minus then -r else r
  }

  /** The value of an RFC 8259 number (section 6). */
  function NumberValue(n: G.Number): real {
    var frac := if n.frac.Some? then n.frac.value else [];
    var exp: int :=
      match n.exp
      case None => 0
      case Some(x) => if x.sign == Some(MINUS) then -(Natural(x.digits) as int) else Natural(x.digits);
    Signed(n.sign == Some(MINUS), Scaled(Natural(n.whole + frac), exp - |frac|))
  }

  function DoubleValue(d: double): real
    requires !d.NotFinite?
  {
    match d
    case Zero(_) => 0.0
    case Finite(minus, digits, exp) => Signed(minus, Scaled(Natural(digits), exp + 1 - |digits|))
  }

  lemma {:induction false} DigitsHaveValue(s: bytes)
    requires s != [] && G.AllDigits(s)
    ensures DigitsValue(s).Some? && Natural(s) < TenTo(|s|)
    decreases |s|
  {
    if |s| > 1 {
      DigitsHaveValue(s[..|s| - 1]);
    } else {
      assert TenTo(1) == 10 * TenTo(0);
    }
  }

  lemma {:induction false} TrailingZeros(s: bytes, k: nat)
    requires s != [] && G.AllDigits(s)
    ensures G.AllDigits(s + Zeros(k)) && Natural(s + Zeros(k)) == Natural(s) * TenTo(k)
    decreases k
  {
    if k == 0 {
      assert s + Zeros(0) == s;
    } else {
      TrailingZeros(s, k - 1);
      var t := s + Zeros(k);
      assert t[..|t| - 1] == s + Zeros(k - 1);
      DigitsHaveValue(s + Zeros(k - 1));
      TimesTen(Natural(s), TenTo(k - 1));
    }
  }

  lemma TimesTen(a: nat, b: nat)
    ensures a * b * 10 == a * (10 * b)
  {
  }

  lemma {:induction false} LeadingZero(s: bytes)
    requires s != [] && G.AllDigits(s)
    ensures G.AllDigits([ZERO] + s) && Natural([ZERO] + s) == Natural(s)
    decreases |s|
  {
    var t := [ZERO] + s;
    DigitsHaveValue(s);
    if |s| > 1 {
      var init := s[..|s| - 1];
      LeadingZero(init);
      DigitsHaveValue(init);
      DigitsHaveValue([ZERO] + init);
      assert t[..|t| - 1] == [ZERO] + init;
    } else {
      assert t[..1] == [ZERO] && DigitsValue([ZERO]) == Some(0);
      assert DigitsValue(t) == Some(0 * 10 + (s[0] - ZERO));
    }
  }

  lemma {:induction false} LeadingZeros(k: nat, s: bytes)
    requires s != [] && G.AllDigits(s)
    ensures G.AllDigits(Zeros(k) + s) && Natural(Zeros(k) + s) == Natural(s)
    decreases k
  {
    ZerosBefore(k, s);
    hide Zeros, Natural, G.AllDigits;
    if k > 0 {
      LeadingZeros(k - 1, s);
      LeadingZero(Zeros(k - 1) + s);
    }
  }

  lemma ZerosBefore(k: nat, s: bytes)
    ensures k == 0 ==> Zeros(k) + s == s
    ensures k > 0 ==> Zeros(k) + s == [ZERO] + (Zeros(k - 1) + s)
  {
  }

  lemma ScientificValue(digits: bytes, exp: int, sign: Option<byte>)
    requires digits != []
    ensures var e := G.Exponent(false, Some(if exp < 0 then MINUS else PLUS), TwoDigits(if exp < 0 then -exp else exp));
            var n := G.Number(sign, digits[..1], if |digits| > 1 then Some(digits[1..]) else None, Some(e));
            NumberValue(n) == Signed(sign == Some(MINUS), Scaled(Natural(digits), exp + 1 - |digits|))
  {
    TwoDigitsNatural(if exp < 0 then -exp else exp);
    hide TwoDigits, Natural, Scaled;
    assert digits[..1] + digits[1..] == digits;
    assert |digits| == 1 ==> digits[..1] + [] == digits;
  }

  lemma SmallValue(digits: bytes, exp: int, sign: Option<byte>)
    requires exp < 0 && digits != [] && G.AllDigits(digits)
    ensures var n := G.Number(sign, [ZERO], Some(Zeros(-exp - 1) + digits), None);
            NumberValue(n) == Signed(sign == Some(MINUS), Scaled(Natural(digits), exp + 1 - |digits|))
  {
    LeadingZeros(-exp - 1, digits);
    LeadingZero(Zeros(-exp - 1) + digits);
    hide Natural, Scaled, Zeros;
  }

  lemma WholeNumberValue(digits: bytes, k: nat, sign: Option<byte>)
    requires digits != [] && G.AllDigits(digits)
    ensures var n := G.Number(sign, digits + Zeros(k), None, None);
            NumberValue(n) == Signed(sign == Some(MINUS), Scaled(Natural(digits), k))
  {
    TrailingZeros(digits, k);
    WholeScale(Natural(digits), k);
    hide Natural, Scaled, Zeros;
    assert digits + Zeros(k) + [] == digits + Zeros(k);
  }

  lemma MixedValue(digits: bytes, exp: int, sign: Option<byte>)
    requires 0 <= exp && exp + 1 < |digits|
    ensures var n := G.Number(sign, digits[..exp + 1], Some(digits[exp + 1..]), None);
            NumberValue(n) == Signed(sign == Some(MINUS), Scaled(Natural(digits), exp + 1 - |digits|))
  {
    hide Natural, Scaled;
    assert digits[..exp + 1] + digits[exp + 1..] == digits;
  }

  /** The number printed is the double rounded to fifteen significant digits. */
  lemma DoubleHasValue(d: double)
    requires !d.NotFinite?
    ensures NumberValue(DoubleNumber(d)) == DoubleValue(d)
  {
    hide NumberValue, Natural, Scaled, TwoDigits, Zeros, G.AllDigits, Signed;
    var sign := if d.minus then Some(MINUS) else None;
    match d
    case Zero(_) => ZeroValue(sign);
    case Finite(minus, digits, exp) =>
      if exp < -4 || exp >= PRECISION {
        ScientificValue(digits, exp, sign);
      } else if exp < 0 {
        SmallValue(digits, exp, sign);
      } else if |digits| <= exp + 1 {
        WholeNumberValue(digits, exp + 1 - |digits|, sign);
      } else {
        MixedValue(digits, exp, sign);
      }
  }

  lemma ZeroValue(sign: Option<byte>)
    ensures NumberValue(G.Number(sign, [ZERO], None, None)) == 0.0
  {
    assert [ZERO] + [] == [ZERO];
  }

  lemma TwoDigitsNatural(n: nat)
    ensures Natural(TwoDigits(n)) == n
  {
    TwoDigitsExact(n);
    hide TwoDigits;
  }

  lemma WholeScale(m: nat, k: nat)
    ensures Scaled(m * TenTo(k), 0) == Scaled(m, k)
  {
    assert TenTo(0) == 1;
  }

  // ---- Whole doubles read back as integers ------------------------------------------------------

  /** The integer a whole double is. */
  function WholeValue(d: double): int
    requires Whole(d)
  {
    match d
    case Zero(_) => 0
    case Finite(minus, digits, exp) =>
      var n: int := Natural(digits) * TenTo(exp + 1 - |digits|);
      if minus then -n else n
  }

  /** The text of a whole double is a sign and digits of that value, short of fifteen places. */
  lemma WholeText(d: double) returns (digits: bytes)
    requires Whole(d)
    ensures digits != [] && G.AllDigits(digits) && PrintDouble(d) == Sign(d.minus) + digits
    ensures DigitsValue(digits).Some?
    ensures WholeValue(d) == if d.minus then -(Natural(digits) as int) else Natural(digits)
    ensures -1_000_000_000_000_000 < WholeValue(d) < 1_000_000_000_000_000
  {
    match d
    case Zero(_) =>
      digits := [ZERO];
    case Finite(minus, ds, exp) =>
      digits := ds + Zeros(exp + 1 - |ds|);
      TrailingZeros(ds, exp + 1 - |ds|);
      DigitsHaveValue(digits);
      hide DigitsValue, TenTo;
      MoreDigits(exp + 1, PRECISION);
      FifteenPlaces();
  }

  lemma {:induction false} MoreDigits(a: nat, b: nat)
    requires a <= b
    ensures TenTo(a) <= TenTo(b)
    decreases b
  {
    if a < b {
      MoreDigits(a, b - 1);
    }
  }

  lemma FifteenPlaces()
    ensures TenTo(PRECISION) == 1_000_000_000_000_000
  {
    assert TenTo(5) == 100_000;
    assert TenTo(10) == 10_000_000_000;
  }

  lemma WholeFits(d: double)
    requires Whole(d)
    ensures -1_000_000_000_000_000 < WholeValue(d) < 1_000_000_000_000_000
  {
    var digits := WholeText(d);
  }

  predicate Ends(t: bytes) {
    t != [] && (t[0] == MINUS || IsDigit(t[0])) && IsDigit(t[|t| - 1])
  }

  lemma SignedEnds(minus: bool, t: bytes)
    requires Ends(t)
    ensures Ends(Sign(minus) + t)
  {
    var r := Sign(minus) + t;
    assert r[|r| - 1] == t[|t| - 1];
  }

  /** What is printed starts with a sign or a digit and ends with a digit. */
  lemma DoubleEnds(d: double)
    requires !d.NotFinite?
    ensures Ends(PrintDouble(d))
    ensures d.Finite? && !Whole(d) ==> DOT in PrintDouble(d) || LOWER_E in PrintDouble(d)
  {
    match d
    case Zero(minus) => SignedEnds(minus, [ZERO]);
    case Finite(minus, digits, exp) =>
      var text := if -4 <= exp < PRECISION then Fixed(digits, exp) else Scientific(digits, exp);
      TextEnds(digits, exp);
      SignedEnds(minus, text);
      assert PrintDouble(d) == Sign(minus) + text;
      hide Fixed, Scientific;
      if !Whole(d) {
        assert DOT in text || LOWER_E in text;
      }
  }

  lemma TextEnds(digits: bytes, exp: int)
    requires digits != [] && G.AllDigits(digits)
    ensures var text := if -4 <= exp < PRECISION then Fixed(digits, exp) else Scientific(digits, exp);
            Ends(text) && (exp < |digits| - 1 || exp >= PRECISION ==> DOT in text || LOWER_E in text)
  {
    if -4 <= exp < PRECISION {
      FixedEnds(digits, exp);
    } else {
      ScientificEnds(digits, exp);
    }
  }

  lemma FixedEnds(digits: bytes, exp: int)
    requires digits != [] && G.AllDigits(digits) && -4 <= exp < PRECISION
    ensures Ends(Fixed(digits, exp)) && (exp < |digits| - 1 ==> DOT in Fixed(digits, exp))
  {
    var t := Fixed(digits, exp);
    if exp < 0 {
      assert t[1] == DOT && t[|t| - 1] == digits[|digits| - 1];
    } else if exp + 1 < |digits| {
      assert t[exp + 1] == DOT && t[|t| - 1] == digits[|digits| - 1];
    }
  }

  lemma ScientificEnds(digits: bytes, exp: int)
    requires digits != [] && G.AllDigits(digits)
    ensures Ends(Scientific(digits, exp)) && LOWER_E in Scientific(digits, exp)
  {
    var power := TwoDigits(if exp < 0 then -exp else exp);
    TwoDigitsExact(if exp < 0 then -exp else exp);
    hide TwoDigits;
    var frac := if |digits| > 1 then [DOT] + digits[1..] else [];
    var t := Scientific(digits, exp);
    var mark := [LOWER_E, if exp < 0 then MINUS else PLUS];
    assert t == digits[..1] + (frac + (mark + power));
    assert t[1 + |frac|] == LOWER_E;
    assert t[|t| - 1] == power[|power| - 1];
  }
}
