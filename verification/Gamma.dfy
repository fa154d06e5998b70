// The sRGB gamma stage around linear light. The exponent 2.4 is twelve fifths, so the
// power law is stated by whole powers: `lin` is `c` to the 2.4 if and only if the fifth
// power of one is the twelfth of the other.

module Gamma {
  import opened Color

  // ---- Whole powers ---------------------------------------------------------------------------

  function Pow(x: real, n: nat): real {
    if n == 0 then 1.0 else Times(x, Pow(x, n - 1))
  }

  lemma Positive(a: real, b: real)
    requires a >= 0.0 && b >= 0.0
    ensures Times(a, b) >= 0.0 && (a > 0.0 && b > 0.0 ==> Times(a, b) > 0.0)
  {
  }

  lemma Monotone(a: real, b: real, c: real, d: real)
    requires 0.0 <= a <= b && 0.0 <= c <= d
    ensures Times(a, c) <= Times(b, d)
    ensures a < b && d > 0.0 ==> Times(a, c) < Times(b, d)
  {
    assert Times(a, c) <= Times(a, d) by { Positive(a, d - c); assert Times(a, d - c) == a * d - a * c; }
    Positive(b - a, d);
    assert Times(b - a, d) == b * d - a * d;
  }

  lemma {:induction false} PowPositive(x: real, n: nat)
    requires x >= 0.0
    ensures Pow(x, n) >= 0.0 && (x > 0.0 ==> Pow(x, n) > 0.0)
  {
    hide Times;
    if n > 0 {
      PowPositive(x, n - 1);
      Positive(x, Pow(x, n - 1));
    }
  }

  lemma {:induction false} PowMonotone(x: real, y: real, n: nat)
    requires 0.0 <= x <= y
    ensures Pow(x, n) <= Pow(y, n) && (x < y && n > 0 ==> Pow(x, n) < Pow(y, n))
  {
    hide Times;
    if n > 0 {
      PowMonotone(x, y, n - 1);
      PowPositive(x, n - 1);
      PowPositive(y, n - 1);
      Monotone(x, y, Pow(x, n - 1), Pow(y, n - 1));
    }
  }

  lemma PowCompare(x: real, y: real, n: nat)
    requires x >= 0.0 && y >= 0.0 && n > 0
    ensures x < y <==> Pow(x, n) < Pow(y, n)
    ensures x == y <==> Pow(x, n) == Pow(y, n)
  {
    hide Pow;
    if x <= y {
      PowMonotone(x, y, n);
    } else {
      PowMonotone(y, x, n);
    }
  }

  lemma {:induction false} PowOne(n: nat)
    ensures Pow(1.0, n) == 1.0
  {
    if n > 0 {
      PowOne(n - 1);
    }
  }

  lemma {:induction false} PowSum(x: real, m: nat, n: nat)
    ensures Pow(x, m + n) == Times(Pow(x, m), Pow(x, n))
    decreases m
  {
    hide Times;
    Units(Pow(x, n));
    if m > 0 {
      PowSum(x, m - 1, n);
      Associate(x, Pow(x, m - 1), Pow(x, n));
    }
  }

  lemma Associate(a: real, b: real, c: real)
    ensures Times(Times(a, b), c) == Times(a, Times(b, c))
  {
  }

  lemma {:induction false} PowTimes(k: real, x: real, n: nat)
    ensures Pow(Times(k, x), n) == Times(Pow(k, n), Pow(x, n))
  {
    hide Times;
    Units(1.0);
    if n > 0 {
      PowTimes(k, x, n - 1);
      Interchange(k, x, Pow(k, n - 1), Pow(x, n - 1));
    }
  }

  lemma Interchange(a: real, b: real, c: real, d: real)
    ensures Times(Times(a, b), Times(c, d)) == Times(Times(a, c), Times(b, d))
  {
  }

  // ---- How fast powers grow ---------------------------------------------------------------------

  /** A power grows at least as its tangent. */
  lemma {:induction false} PowAbove(y: real, d: real, n: nat)
    requires y >= 0.0 && d >= 0.0 && n > 0
    ensures Pow(y + d, n) >= Pow(y, n) + Times(n as real, Times(d, Pow(y, n - 1)))
  {
    hide Times;
    if n == 1 {
      OneFactor(y, d);
    } else {
      PowAbove(y, d, n - 1);
      PowPositive(y, n - 2);
      AboveStep(y, d, (n - 1) as real, Pow(y, n - 2), Pow(y + d, n - 1));
    }
  }

  lemma OneFactor(y: real, d: real)
    ensures Pow(y + d, 1) == y + d && Pow(y, 1) == y && Times(1.0, Times(d, Pow(y, 0))) == d
  {
  }

  lemma AboveStep(y: real, d: real, m: real, q: real, r: real)
    requires y >= 0.0 && d >= 0.0 && m >= 0.0 && q >= 0.0
    requires r >= Times(y, q) + Times(m, Times(d, q))
    ensures Times(y + d, r) >= Times(y, Times(y, q)) + Times(m + 1.0, Times(d, Times(y, q)))
  {
    var s := y * q + m * (d * q);
    assert (y + d) * r >= (y + d) * s by { Positive(y + d, r - s); assert (y + d) * (r - s) >= 0.0; }
    assert m * (d * (d * q)) >= 0.0 by { Positive(d, q); Positive(d, Times(d, q)); Positive(m, d * (d * q)); }
    assert (y + d) * s == y * (y * q) + y * (m * (d * q)) + d * (y * q) + m * (d * (d * q));
    assert y * (m * (d * q)) == m * (d * (y * q));
  }

  /** And at most as its tangent at the far end. */
  lemma {:induction false} PowBelow(x: real, d: real, n: nat)
    requires x >= 0.0 && d >= 0.0 && n > 0
    ensures Pow(x + d, n) <= Pow(x, n) + Times(n as real, Times(d, Pow(x + d, n - 1)))
  {
    hide Times;
    if n == 1 {
      OneFactor(x, d);
      EndFactor(x, d);
    } else {
      PowBelow(x, d, n - 1);
      PowPositive(x + d, n - 2);
      BelowStep(x, d, (n - 1) as real, Pow(x + d, n - 2), Pow(x, n - 1));
    }
  }

  lemma EndFactor(x: real, d: real)
    ensures Times(1.0, Times(d, Pow(x + d, 0))) == d
  {
  }

  lemma BelowStep(x: real, d: real, m: real, u: real, p: real)
    requires x >= 0.0 && d >= 0.0 && m >= 0.0 && u >= 0.0
    requires Times(x + d, u) <= p + Times(m, Times(d, u))
    ensures Times(x + d, Times(x + d, u)) <= Times(x, p) + Times(m + 1.0, Times(d, Times(x + d, u)))
  {
    var s := (x + d) * u;
    var e := p + m * (d * u) - s;
    assert x * s <= x * (s + e) by { Positive(x, e); assert x * e >= 0.0; }
    assert m * (d * (d * u)) >= 0.0 by { Positive(d, u); Positive(d, Times(d, u)); Positive(m, d * (d * u)); }
    assert x * (m * (d * u)) + m * (d * (d * u)) == m * (d * s);
    assert (x + d) * s == x * s + d * s;
  }

  lemma PowTwelve(x: real)
    ensures var s := Times(x, x); var q := Times(s, s); Pow(x, 12) == Times(q, Times(q, q))
  {
    hide Times;
    PowTwo(x);
    PowSum(x, 2, 2);
    PowSum(x, 4, 4);
    PowSum(x, 4, 8);
  }

  lemma PowFive(x: real)
    ensures var s := Times(x, x); Pow(x, 5) == Times(x, Times(s, s))
  {
    hide Times;
    PowTwo(x);
    PowSum(x, 2, 2);
  }

  lemma PowTwo(x: real)
    ensures Pow(x, 2) == Times(x, x)
  {
    hide Times;
    assert Pow(x, 0) == 1.0;
    NothingMore(x);
  }

  lemma NothingMore(x: real)
    ensures Times(x, 1.0) == x
  {
  }

  // ---- The curve ------------------------------------------------------------------------------------

  const SRGB_THRESHOLD := 0.04045
  const LINEAR_THRESHOLD := 0.0031308
  const SLOPE := 12.92

  /** `lin` is `c` to the power of 2.4, and `c` is `lin` to the power of 1 / 2.4. */
  predicate IsPow(c: real, lin: real) {
    c >= 0.0 && lin >= 0.0 && Pow(lin, 5) == Pow(c, 12)
  }

  /** What the power law is applied to. */
  function Shifted(c: real): real {
    (c + 0.055) / 1.055
  }

  /** `lin` is srgbToLinear of `c`. */
  predicate ToLinear(c: real, lin: real) {
    var k := Clamp01(c);
    if k <= SRGB_THRESHOLD then lin == k / SLOPE else IsPow(Shifted(k), lin)
  }

  /** `c` is linearToSrgb of `lin`. */
  predicate ToSrgb(lin: real, c: real) {
    if lin <= 0.0 then c == 0.0
    else if lin >= 1.0 then c == 1.0
    else if lin <= LINEAR_THRESHOLD then c == SLOPE * lin
    else IsPow(Shifted(c), lin)
  }

  // Where the straight line, taken to its end, would meet the power law's argument.
  const KNEE := (SLOPE * LINEAR_THRESHOLD + 0.055) / 1.055

  /** The power law passes just below the end of the line. */
  lemma KneeAbove()
    ensures Pow(KNEE, 12) > Pow(LINEAR_THRESHOLD, 5)
  {
    hide Pow;
    PowMonotone(0.09047387, KNEE, 12);
    PowTwelve(0.09047387);
    PowFive(LINEAR_THRESHOLD);
  }

  lemma KneeBelow()
    ensures Pow(KNEE - 0.0000001, 12) < Pow(LINEAR_THRESHOLD, 5)
  {
    hide Pow;
    PowMonotone(KNEE - 0.0000001, 0.0904737731, 12);
    PowTwelve(0.0904737731);
    PowFive(LINEAR_THRESHOLD);
  }

  // ---- How steep it is ----------------------------------------------------------------------------

  lemma Peel(x: real, n: nat)
    requires n > 0
    ensures Pow(x, n) == Times(x, Pow(x, n - 1))
  {
  }

  /** From the threshold on the power law's argument is at most 29 times the light. */
  lemma RatioBound(y: real, a: real)
    requires a >= LINEAR_THRESHOLD && y >= 0.0 && Pow(y, 12) <= Pow(a, 5)
    ensures y <= 29.0 * a
  {
    hide Pow;
    if y > 29.0 * a {
      var z := Times(29.0, a);
      PowMonotone(z, y, 12);
      PowSum(z, 7, 5);
      PowTimes(29.0, a, 5);
      PowMonotone(0.0907932, z, 7);
      AtLeastOne();
      PowPositive(a, 5);
      Associate(Pow(z, 7), Pow(29.0, 5), Pow(a, 5));
      TimesAtLeast(Pow(0.0907932, 7), Pow(z, 7), Pow(29.0, 5));
      TimesMore(Times(Pow(z, 7), Pow(29.0, 5)), Pow(a, 5));
    }
  }

  lemma TimesAtLeast(a: real, b: real, m: real)
    requires a <= b && m >= 0.0
    ensures Times(a, m) <= Times(b, m)
  {
    Positive(b - a, m);
    assert Times(b - a, m) == b * m - a * m;
  }

  lemma TimesMore(k: real, p: real)
    requires k >= 1.0 && p >= 0.0
    ensures Times(k, p) >= p
  {
    TimesAtLeast(1.0, k, p);
  }

  lemma AtLeastOne()
    ensures Pow(29.0, 5) >= 0.0 && Times(Pow(0.0907932, 7), Pow(29.0, 5)) >= 1.0
  {
    hide Pow;
    PowFive(29.0);
    PowFive(0.0907932);
    PowTwo(0.0907932);
    PowSum(0.0907932, 5, 2);
    assert Times(0.0907932, 0.0907932) >= 0.008243;
    assert Pow(0.0907932, 5) >= 0.000006169;
    TimesAtLeast(0.000006169, Pow(0.0907932, 5), Pow(0.0907932, 2));
    TimesAtLeast(0.00000005085, Pow(0.0907932, 7), Pow(29.0, 5));
  }

  /** How much argument a little more light takes: the curve's steepness, without its slope. */
  lemma PowStep(a: real, y: real, b: real, z: real, steep: real, ratio: real)
    requires LINEAR_THRESHOLD <= a <= b && b <= Times(ratio, a) && 0.0 <= y <= 29.0 * a && z >= 0.0
    requires Pow(y, 12) >= Pow(a, 5) && Pow(z, 12) <= Pow(b, 5)
    requires steep >= 0.0 && ratio >= 0.0 && 12.0 * steep >= 145.0 * Pow(ratio, 4)
    ensures z <= y + Times(steep, b - a)
    ensures Pow(y, 12) > Pow(a, 5) ==> z < y + Times(steep, b - a)
  {
    hide Pow, Times;
    var d := b - a;
    var rise := Times(steep, d);
    Positive(steep, d);
    PowAbove(y, rise, 12);
    PowBelow(a, d, 5);
    assert a + d == b;
    PowMonotone(b, Times(ratio, a), 4);
    PowTimes(ratio, a, 4);
    PowPositive(a, 4);
    PowPositive(y, 11);
    PowPositive(ratio, 4);
    Peel(y, 12);
    Peel(a, 5);
    Tangents(a, y, Pow(y, 11), Pow(a, 4));
    Dominates(d, steep, Pow(ratio, 4), Pow(y, 11), Pow(a, 4), Pow(b, 4));
    PowCompare(y + rise, z, 12);
  }

  lemma Tangents(a: real, y: real, p: real, q: real)
    requires 0.0 < a && 0.0 <= y <= 29.0 * a && p >= 0.0 && Times(y, p) >= Times(a, q)
    ensures 29.0 * p >= q
  {
    TimesAtLeast(y, 29.0 * a, p);
    assert Times(29.0 * a, p) == Times(29.0 * p, a);
    assert Times(a, q) == Times(q, a);
    Compare(q, 29.0 * p, a);
  }

  lemma Dominates(d: real, steep: real, r: real, p: real, q: real, s: real)
    requires d >= 0.0 && steep >= 0.0 && r >= 0.0 && q >= 0.0 && 29.0 * p >= q && s <= Times(r, q)
    requires 12.0 * steep >= 145.0 * r
    ensures Times(12.0, Times(Times(steep, d), p)) >= Times(5.0, Times(d, s))
  {
    assert steep * (29.0 * p) >= steep * q by {
      TimesAtLeast(q, 29.0 * p, steep);
      assert Times(q, steep) == steep * q && Times(29.0 * p, steep) == steep * (29.0 * p);
    }
    assert (12.0 * steep) * q >= (145.0 * r) * q by { TimesAtLeast(145.0 * r, 12.0 * steep, q); }
    assert 12.0 * steep * p >= 5.0 * s;
    assert (12.0 * steep * p) * d >= (5.0 * s) * d by { TimesAtLeast(5.0 * s, 12.0 * steep * p, d); }
  }

  // ---- Both directions lie on one curve -----------------------------------------------------------

  // The line ends a little above the threshold on the way to linear light.
  const LINE_END := 0.0031309

  predicate OnLine(lin: real, c: real) {
    0.0 <= lin <= LINE_END && c == SLOPE * lin
  }

  predicate OnPower(lin: real, c: real) {
    lin >= LINEAR_THRESHOLD && IsPow(Shifted(c), lin)
  }

  predicate OnCurve(lin: real, c: real) {
    OnLine(lin, c) || OnPower(lin, c)
  }

  /** Above the encoded threshold the light is above its own, and it never exceeds one. */
  lemma LinearRange(c: real, lin: real)
    requires 0.0 <= c <= 1.0 && ToLinear(c, lin)
    ensures 0.0 <= lin <= 1.0 && OnCurve(lin, c)
    ensures c > SRGB_THRESHOLD ==> lin > LINEAR_THRESHOLD && IsPow(Shifted(c), lin)
    ensures c <= SRGB_THRESHOLD ==> lin == c / SLOPE
    ensures lin == 1.0 ==> c == 1.0
  {
    hide Pow;
    if c > SRGB_THRESHOLD {
      KneeAbove();
      PowMonotone(KNEE, Shifted(c), 12);
      PowCompare(LINEAR_THRESHOLD, lin, 5);
      PowOne(5);
      PowOne(12);
      PowCompare(1.0, lin, 5);
      PowCompare(Shifted(c), 1.0, 12);
    }
  }

  /** Encoded light lies on the curve; clamping it afterwards changes nothing. */
  lemma SrgbOnCurve(lin: real, c: real)
    requires 0.0 <= lin <= 1.0 && ToSrgb(lin, c)
    ensures OnCurve(lin, c) && Clamp01(c) == c
  {
    hide Pow;
    PowOne(5);
    PowOne(12);
    if LINEAR_THRESHOLD < lin < 1.0 {
      KneeBelow();
      PowMonotone(LINEAR_THRESHOLD, lin, 5);
      PowCompare(Shifted(c), KNEE - 0.0000001, 12);
      PowCompare(lin, 1.0, 5);
      PowCompare(Shifted(c), 1.0, 12);
    }
  }

  /** Two points of the power law. */
  lemma PowerStep(a: real, ca: real, b: real, cb: real)
    requires OnPower(a, ca) && OnPower(b, cb) && a <= b && b - a <= 0.000062
    ensures ca <= cb <= ca + 13.8 * (b - a)
  {
    hide Pow, Times;
    var y, z := Shifted(ca), Shifted(cb);
    RatioBound(y, a);
    PowMonotone(a, b, 5);
    PowCompare(z, y, 12);
    SmallRatio(a, b);
    PowStep(a, y, b, z, 13.0794, 1.02);
    Plain(13.0794, b - a);
  }

  lemma SmallRatio(a: real, b: real)
    requires LINEAR_THRESHOLD <= a && b - a <= 0.0000622
    ensures b <= Times(1.02, a) && 12.0 * 13.0794 >= 145.0 * Pow(1.02, 4)
  {
    PowTwo(1.02);
    PowSum(1.02, 2, 2);
  }

  lemma Plain(a: real, b: real)
    ensures Times(a, b) == a * b
  {
  }

  /** A point of the power law near the end of the line. */
  lemma KneeStep(b: real, cb: real)
    requires OnPower(b, cb) && b - LINEAR_THRESHOLD <= 0.0000622
    ensures SLOPE * LINEAR_THRESHOLD - 0.0000002 <= cb
    ensures cb <= SLOPE * LINEAR_THRESHOLD + 13.8 * (b - LINEAR_THRESHOLD)
  {
    hide Pow, Times;
    var z := Shifted(cb);
    KneeAbove();
    KneeBelow();
    PowMonotone(LINEAR_THRESHOLD, b, 5);
    PowCompare(z, KNEE - 0.0000001, 12);
    SmallRatio(LINEAR_THRESHOLD, b);
    PowStep(LINEAR_THRESHOLD, KNEE, b, z, 13.0794, 1.02);
    Plain(13.0794, b - LINEAR_THRESHOLD);
  }

  /** The curve is at most 13.8 times as steep as the light, up to the step at the threshold. */
  lemma CurveStep(a: real, ca: real, b: real, cb: real)
    requires OnCurve(a, ca) && OnCurve(b, cb) && Abs(b - a) <= 0.000062
    ensures Abs(cb - ca) <= 13.8 * Abs(b - a) + 0.000002
    decreases a > b
  {
    hide IsPow, Shifted;
    if a > b {
      CurveStep(b, cb, a, ca);
    } else if OnPower(a, ca) {
      if OnPower(b, cb) {
        PowerStep(a, ca, b, cb);
      } else {
        KneeStep(a, ca);
      }
    } else if OnPower(b, cb) {
      KneeStep(b, cb);
    }
  }

  // ---- Round trips -----------------------------------------------------------------------------------

  /**
   * Decoding and encoding a channel gives it back if and only if it is not between the
   * end of the line and the encoded threshold, where the two constants disagree; there
   * it comes back smaller.
   */
  lemma GammaRoundTrip(c: real, lin: real, d: real)
    requires 0.0 <= c <= 1.0 && ToLinear(c, lin) && ToSrgb(lin, d)
    ensures d == c <==> !(SLOPE * LINEAR_THRESHOLD < c <= SRGB_THRESHOLD)
    ensures c - 0.000002 <= d <= c
  {
    hide Pow, Times;
    LinearRange(c, lin);
    if c > SRGB_THRESHOLD {
      PowCompare(Shifted(c), Shifted(d), 12);
    } else if c > SLOPE * LINEAR_THRESHOLD {
      BelowLine(lin, d);
      SrgbOnCurve(lin, d);
      KneeStep(lin, d);
    }
  }

  /** Just above the threshold the power law is below the line. */
  lemma BelowLine(lin: real, d: real)
    requires LINEAR_THRESHOLD <= lin <= LINE_END && OnPower(lin, d)
    ensures d < SLOPE * lin
  {
    hide Pow, Times;
    var steep := SLOPE / 1.055;
    KneeAbove();
    NearRatio(lin);
    PowStep(LINEAR_THRESHOLD, KNEE, lin, Shifted(d), steep, 1.001);
    Plain(steep, lin - LINEAR_THRESHOLD);
  }

  lemma NearRatio(lin: real)
    requires lin <= LINE_END
    ensures lin <= Times(1.001, LINEAR_THRESHOLD) && 12.0 * (SLOPE / 1.055) >= 145.0 * Pow(1.001, 4)
  {
    PowTwo(1.001);
    PowSum(1.001, 2, 2);
  }

  predicate ColorToLinear(c: Color, lin: LinearRgb) {
    ToLinear(c.r, lin.r) && ToLinear(c.g, lin.g) && ToLinear(c.b, lin.b)
  }

  predicate LinearToColor(lin: LinearRgb, c: Color) {
    ToSrgb(lin.r, c.r) && ToSrgb(lin.g, c.g) && ToSrgb(lin.b, c.b)
  }

  predicate InCube(c: Color) {
    0.0 <= c.r <= 1.0 && 0.0 <= c.g <= 1.0 && 0.0 <= c.b <= 1.0
  }

  /**
   * Every colour survives the whole way through linear light, xy and luminance and back
   * within 8.6e-4 per channel, less than a quarter of one step of eight bits.
   */
  lemma XyColorRoundTrip(c: Color, lin: LinearRgb, d: Color)
    requires InCube(c) && ColorToLinear(c, lin)
    requires var back := ColorFromXy(ColorToXy(lin)); back.Lit? ==> LinearToColor(back.lin, d)
    ensures ColorFromXy(ColorToXy(lin)).Lit?
    ensures Abs(d.r - c.r) <= 0.00086 && Abs(d.g - c.g) <= 0.00086 && Abs(d.b - c.b) <= 0.00086
  {
    hide ToLinear, ToSrgb, ColorFromXy, ColorToXy;
    LinearRange(c.r, lin.r);
    LinearRange(c.g, lin.g);
    LinearRange(c.b, lin.b);
    XyRoundTrip(lin);
    var back := ColorFromXy(ColorToXy(lin)).lin;
    ChannelBack(c.r, lin.r, back.r, d.r);
    ChannelBack(c.g, lin.g, back.g, d.g);
    ChannelBack(c.b, lin.b, back.b, d.b);
  }

  lemma ChannelBack(c: real, lin: real, back: real, d: real)
    requires OnCurve(lin, c) && ToSrgb(back, d) && 0.0 <= back <= 1.0 && Abs(back - lin) <= 0.000062
    ensures Abs(d - c) <= 0.00086
  {
    hide OnCurve, ToSrgb;
    SrgbOnCurve(back, d);
    CurveStep(lin, c, back, d);
  }
}
