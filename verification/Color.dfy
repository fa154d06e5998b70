// Colour conversions over ideal reals: HSV with its six sectors, and the rounded sRGB
// matrices between linear RGB, XYZ and xy chromaticity.

module Color {
  datatype Color = Color(r: real, g: real, b: real)
  datatype Hsv = Hsv(hDeg: real, s: real, v: real)

  function Abs(x: real): real {
    if x < 0.0 then -x else x
  }

  /** The product, named so that proofs which need only a fact about it can keep it closed. */
  function Times(a: real, b: real): real {
    a * b
  }

  function Max(a: real, b: real): real {
    if a < b then b else a
  }

  function Min(a: real, b: real): real {
    if b < a then b else a
  }

  function Clamp01(v: real): (r: real)
    ensures 0.0 <= r <= 1.0 && (0.0 <= v <= 1.0 ==> r == v)
  {
    if v < 0.0 then 0.0 else if v > 1.0 then 1.0 else v
  }

  function MakeColor(r: real, g: real, b: real): Color {
    Color(Clamp01(r), Clamp01(g), Clamp01(b))
  }

  function Clamped(c: Color): Color {
    MakeColor(c.r, c.g, c.b)
  }

  function Div(a: real, d: real): real
    requires d > 0.0
  {
    a / d
  }

  // ---- Products and quotients -------------------------------------------------------------

  lemma Scale(a: real, b: real, m: real)
    requires a <= b && m > 0.0
    ensures Times(a, m) <= Times(b, m) && (a < b ==> Times(a, m) < Times(b, m))
  {
  }

  lemma Units(m: real)
    ensures Times(0.0, m) == 0.0 && Times(1.0, m) == m && Times(-1.0, m) == -m
  {
  }

  lemma Compare(a: real, b: real, m: real)
    requires m > 0.0
    ensures a <= b <==> Times(a, m) <= Times(b, m)
    ensures a < b <==> Times(a, m) < Times(b, m)
  {
    if a <= b {
      Scale(a, b, m);
    } else {
      Scale(b, a, m);
    }
  }

  lemma Negate(a: real, b: real)
    ensures Times(b, -a) == Times(-a, b) == -Times(a, b) && Times(b, a) == Times(a, b)
  {
  }

  lemma Distribute(a: real, b: real, m: real)
    ensures Times(a - b, m) == Times(a, m) - Times(b, m)
  {
  }

  lemma DivTimes(a: real, d: real)
    requires d > 0.0
    ensures Times(Div(a, d), d) == a
  {
  }

  lemma TimesDiv(a: real, d: real)
    requires d > 0.0
    ensures Div(Times(d, a), d) == a
  {
  }

  lemma Quotient(a: real, d: real)
    requires d > 0.0
    ensures Times(Div(a, d), d) == a
    ensures -d <= a <= d ==> -1.0 <= Div(a, d) <= 1.0
    ensures (-d < a ==> -1.0 < Div(a, d)) && (a < d ==> Div(a, d) < 1.0) && (a == d ==> Div(a, d) == 1.0)
    ensures a >= 0.0 <==> Div(a, d) >= 0.0
    ensures (a == -d ==> Div(a, d) == -1.0) && (a == 0.0 ==> Div(a, d) == 0.0)
  {
    hide Times, Div;
    var q := Div(a, d);
    DivTimes(a, d);
    Units(d);
    Compare(q, -1.0, d);
    Compare(q, 1.0, d);
    Compare(q, 0.0, d);
  }

  // ---- Remainders and hues -------------------------------------------------------------

  function Trunc(x: real): int {
    if x >= 0.0 then x.Floor else -(-x).Floor
  }

  /** The truncating remainder: it has the sign of `x`. */
  function Fmod(x: real, m: real): real
    requires m > 0.0
  {
    x - Times(Trunc(Div(x, m)) as real, m)
  }

  function WrapHue360(h: real): real {
    var r := Fmod(h, 360.0);
    if r < 0.0 then r + 360.0 else r
  }

  lemma FmodWithin(x: real, m: real)
    requires m > 0.0
    ensures Abs(x) < m ==> Fmod(x, m) == x
    ensures x >= 0.0 ==> 0.0 <= Fmod(x, m) < m
    ensures x <= 0.0 ==> -m < Fmod(x, m) <= 0.0
  {
    hide Times, Div;
    var q := Div(x, m);
    var t := Trunc(q) as real;
    Quotient(x, m);
    Units(m);
    Distribute(q, t, m);
    Compare(0.0, q - t, m);
    Compare(q - t, 1.0, m);
    Compare(-1.0, q - t, m);
    Compare(q, 0.0, m);
  }

  /** Wrapping gives the one angle in a full turn that differs by whole turns. */
  lemma WrapIsAngle(h: real) returns (turns: int)
    ensures 0.0 <= WrapHue360(h) < 360.0
    ensures h == WrapHue360(h) + 360.0 * (turns as real)
  {
    FmodWithin(h, 360.0);
    turns := Trunc(Div(h, 360.0));
    if Fmod(h, 360.0) < 0.0 {
      turns := turns - 1;
    }
  }

  lemma WrapWithin(h: real)
    requires -360.0 < h < 360.0
    ensures WrapHue360(h) == if h < 0.0 then h + 360.0 else h
  {
    FmodWithin(h, 360.0);
  }

  // ---- HSV --------------------------------------------------------------------------------

  /** How much of the chroma the middle channel has. */
  function Ramp(hPrime: real): real {
    1.0 - Abs(Fmod(hPrime, 2.0) - 1.0)
  }

  function Sector(hPrime: real, c: real, x: real, m: real): Color {
    if 0.0 <= hPrime < 1.0 then MakeColor(c + m, x + m, 0.0 + m)
    else if 1.0 <= hPrime < 2.0 then MakeColor(x + m, c + m, 0.0 + m)
    else if 2.0 <= hPrime < 3.0 then MakeColor(0.0 + m, c + m, x + m)
    else if 3.0 <= hPrime < 4.0 then MakeColor(0.0 + m, x + m, c + m)
    else if 4.0 <= hPrime < 5.0 then MakeColor(x + m, 0.0 + m, c + m)
    else MakeColor(c + m, 0.0 + m, x + m)
  }

  function HsvToColor(hDeg: real, s01: real, v01: real): Color {
    var h, s, v := WrapHue360(hDeg), Clamp01(s01), Clamp01(v01);
    if s <= 0.0 then MakeColor(v, v, v)
    else
      var c := Times(v, s);
      Sector(h / 60.0, c, Times(c, Ramp(h / 60.0)), v - c)
  }

  const GREY_DELTA := 0.000000001

  function HueOf(r: real, g: real, b: real, maxC: real, delta: real): real
    requires delta > 0.0
  {
    if maxC == r then 60.0 * Fmod(Div(g - b, delta), 6.0)
    else if maxC == g then 60.0 * (Div(b - r, delta) + 2.0)
    else 60.0 * (Div(r - g, delta) + 4.0)
  }

  function ColorToHsv(c: Color): Hsv {
    var r, g, b := Clamp01(c.r), Clamp01(c.g), Clamp01(c.b);
    var maxC, minC := Max(r, Max(g, b)), Min(r, Min(g, b));
    var delta := maxC - minC;
    if delta <= GREY_DELTA then Hsv(0.0, 0.0, maxC)
    else Hsv(WrapHue360(HueOf(r, g, b, maxC, delta)), Div(delta, maxC), maxC)
  }

  lemma RampAt(p: real)
    requires 0.0 <= p < 6.0
    ensures Ramp(p) == if p < 1.0 then p else if p < 2.0 then 2.0 - p else if p < 3.0 then p - 2.0
                       else if p < 4.0 then 4.0 - p else if p < 5.0 then p - 4.0 else 6.0 - p
    ensures 0.0 <= Ramp(p) <= 1.0
  {
  }

  // ---- From colour to HSV and back ------------------------------------------------------------

  /** Hue over 60 of a colour: the sector and the place in it. */
  function HuePrime(r: real, g: real, b: real, maxC: real, delta: real): real
    requires delta > 0.0
  {
    if maxC == r then (if g >= b then Div(g - b, delta) else Div(g - b, delta) + 6.0)
    else if maxC == g then Div(b - r, delta) + 2.0
    else Div(r - g, delta) + 4.0
  }

  /** The same without division: where the hue lies, and how much of the chroma the middle channel has. */
  predicate Placed(r: real, g: real, b: real, maxC: real, delta: real, p: real, x: real) {
    if maxC == r then
      if g >= b then 0.0 <= p <= 1.0 && x == g - b && (p == 1.0 <==> g - b == delta)
      else 5.0 <= p < 6.0 && x == b - g
    else if maxC == g then
      1.0 < p <= 3.0 && (p < 2.0 <==> b < r) && x == Abs(b - r) && (p == 3.0 <==> b - r == delta)
    else 3.0 < p < 5.0 && (p < 4.0 <==> r < g) && x == Abs(r - g)
  }

  lemma HueIsPrime(r: real, g: real, b: real, maxC: real, delta: real)
    requires maxC == Max(r, Max(g, b)) && delta == maxC - Min(r, Min(g, b)) > 0.0
    ensures var p := HuePrime(r, g, b, maxC, delta);
            0.0 <= p < 6.0 && WrapHue360(HueOf(r, g, b, maxC, delta)) == 60.0 * p
  {
    Quotient(g - b, delta);
    Quotient(b - r, delta);
    Quotient(r - g, delta);
    hide Div;
    FmodWithin(Div(g - b, delta), 6.0);
    hide Fmod, WrapHue360;
    WrapWithin(HueOf(r, g, b, maxC, delta));
  }

  lemma PrimeIsPlaced(r: real, g: real, b: real, maxC: real, delta: real)
    requires maxC == Max(r, Max(g, b)) && delta == maxC - Min(r, Min(g, b)) > 0.0
    ensures var p := HuePrime(r, g, b, maxC, delta); Placed(r, g, b, maxC, delta, p, Times(delta, Ramp(p)))
  {
    var d := if maxC == r then g - b else if maxC == g then b - r else r - g;
    Quotient(d, delta);
    hide Div, Ramp, Times;
    RampTimes(HuePrime(r, g, b, maxC, delta), Div(d, delta), delta);
  }

  /** Chroma times ramp, on either side of the middle of a primary. */
  lemma RampTimes(p: real, q: real, delta: real)
    requires -1.0 <= q <= 1.0
    requires (q >= 0.0 && p == q) || p == q + 2.0 || p == q + 4.0 || (q < 0.0 && p == q + 6.0)
    ensures Times(delta, Ramp(p)) == if q >= 0.0 then Times(q, delta) else -Times(q, delta)
  {
    RampAt(p);
    hide Ramp, Times;
    Negate(q, delta);
  }

  /** The sector formula gives the colour back in all six sectors, boundaries and ties included. */
  lemma SectorOfHue(r: real, g: real, b: real, maxC: real, delta: real, p: real, x: real)
    requires 0.0 <= r <= 1.0 && 0.0 <= g <= 1.0 && 0.0 <= b <= 1.0
    requires maxC == Max(r, Max(g, b)) && delta == maxC - Min(r, Min(g, b)) > 0.0
    requires Placed(r, g, b, maxC, delta, p, x)
    ensures Sector(p, delta, x, maxC - delta) == Color(r, g, b)
  {
  }

  /**
   * A colour survives the trip through HSV exactly, at every sector boundary and tie,
   * if and only if its channels are equal or more than 1e-9 apart; otherwise each
   * channel is off by at most 1e-9.
   */
  lemma ColorRoundTrip(c: Color)
    ensures var k, hsv := Clamped(c), ColorToHsv(c);
            var d := HsvToColor(hsv.hDeg, hsv.s, hsv.v);
            var delta := Max(k.r, Max(k.g, k.b)) - Min(k.r, Min(k.g, k.b));
            && (d == k <==> delta > GREY_DELTA || delta == 0.0)
            && Abs(d.r - k.r) <= GREY_DELTA && Abs(d.g - k.g) <= GREY_DELTA && Abs(d.b - k.b) <= GREY_DELTA
  {
    var k := Clamped(c);
    var maxC := Max(k.r, Max(k.g, k.b));
    var delta := maxC - Min(k.r, Min(k.g, k.b));
    WrapFixed(0.0);
    if delta > GREY_DELTA {
      ChromaticRoundTrip(k.r, k.g, k.b, maxC, delta);
    }
  }

  lemma ChromaticRoundTrip(r: real, g: real, b: real, maxC: real, delta: real)
    requires 0.0 <= r <= 1.0 && 0.0 <= g <= 1.0 && 0.0 <= b <= 1.0
    requires maxC == Max(r, Max(g, b)) && delta == maxC - Min(r, Min(g, b)) > 0.0
    ensures HsvToColor(WrapHue360(HueOf(r, g, b, maxC, delta)), Div(delta, maxC), maxC) == Color(r, g, b)
  {
    hide Times, Div, Ramp, WrapHue360;
    var p := HuePrime(r, g, b, maxC, delta);
    HueIsPrime(r, g, b, maxC, delta);
    PrimeIsPlaced(r, g, b, maxC, delta);
    SectorOfHue(r, g, b, maxC, delta, p, Times(delta, Ramp(p)));
    Quotient(delta, maxC);
    Negate(Div(delta, maxC), maxC);
    hide Sector, HuePrime, HueOf, Placed;
    WrapFixed(60.0 * p);
  }

  lemma WrapFixed(h: real)
    requires 0.0 <= h < 360.0
    ensures WrapHue360(h) == h
  {
    WrapWithin(h);
  }

  // ---- From HSV to colour and back ------------------------------------------------------------

  lemma Ratio(t: real, c: real)
    requires c > 0.0 && 0.0 <= t <= 1.0
    ensures 0.0 <= Times(c, t) <= c && (t < 1.0 ==> Times(c, t) < c) && (t == 1.0 ==> Times(c, t) == c)
    ensures t == 0.0 <==> Times(c, t) == 0.0
    ensures Div(Times(c, t), c) == t && Div(-Times(c, t), c) == -t
  {
    hide Times, Div;
    Negate(t, c);
    Units(c);
    Compare(0.0, t, c);
    Compare(t, 1.0, c);
    TimesDiv(t, c);
    TimesDiv(-t, c);
  }

  /** The hue of a sector's colour is the place it was made at. */
  lemma HueOfSector(p: real, c: real, m: real)
    requires 0.0 <= p < 6.0 && c > 0.0 && 0.0 <= m && c + m <= 1.0
    ensures var k := Sector(p, c, Times(c, Ramp(p)), m);
            && Max(k.r, Max(k.g, k.b)) == c + m && Min(k.r, Min(k.g, k.b)) == m
            && HuePrime(k.r, k.g, k.b, c + m, c) == p && Clamped(k) == k
  {
    hide *;
    RampAt(p);
    var t := Ramp(p);
    Ratio(t, c);
    Quotient(c, c);
    Quotient(-c, c);
    HueInSector(p, c, t, Times(c, t), m);
  }

  lemma HueInSector(p: real, c: real, t: real, x: real, m: real)
    requires 0.0 <= p < 6.0 && c > 0.0 && 0.0 <= m && c + m <= 1.0 && 0.0 <= x <= c && (t < 1.0 ==> x < c)
    requires t == if p < 1.0 then p else if p < 2.0 then 2.0 - p else if p < 3.0 then p - 2.0
                  else if p < 4.0 then 4.0 - p else if p < 5.0 then p - 4.0 else 6.0 - p
    requires (t == 1.0 ==> x == c) && (t == 0.0 <==> x == 0.0)
    requires Div(x, c) == t && Div(-x, c) == -t
    ensures var k := Sector(p, c, x, m);
            && Max(k.r, Max(k.g, k.b)) == c + m && Min(k.r, Min(k.g, k.b)) == m
            && HuePrime(k.r, k.g, k.b, c + m, c) == p && Clamped(k) == k
  {
    hide Div;
    var k := Sector(p, c, x, m);
    assert x + m - m == x && m - (x + m) == -x && c + m - m == c && m - (c + m) == -c;
  }

  /** What converting to a colour keeps of hue, saturation and value. */
  predicate Recovered(h: real, s: real, v: real) {
    ColorToHsv(HsvToColor(h, s, v)) == Hsv(WrapHue360(h), Clamp01(s), Clamp01(v))
  }

  /**
   * Hue modulo a full turn, saturation and value are recovered exactly if and only
   * if the chroma exceeds 1e-9 or there was neither hue nor saturation to lose.
   */
  lemma HsvRoundTrip(h: real, s: real, v: real)
    ensures Recovered(h, s, v)
            <==> Times(Clamp01(v), Clamp01(s)) > GREY_DELTA || (WrapHue360(h) == 0.0 && Clamp01(s) == 0.0)
  {
    hide WrapHue360, Times, Ramp, ColorToHsv, Sector, MakeColor, Clamp01;
    var turns := WrapIsAngle(h);
    var s1, v1 := Clamp01(s), Clamp01(v);
    if s1 > 0.0 {
      SaturatedRoundTrip(WrapHue360(h), s1, v1);
    } else {
      GreyRoundTrip(v1);
      Negate(0.0, v1);
      Units(v1);
    }
  }

  lemma GreyRoundTrip(v: real)
    requires 0.0 <= v <= 1.0
    ensures ColorToHsv(MakeColor(v, v, v)) == Hsv(0.0, 0.0, v)
  {
  }

  lemma SaturatedRoundTrip(h: real, s: real, v: real)
    requires 0.0 <= h < 360.0 && 0.0 < s <= 1.0 && 0.0 <= v <= 1.0
    ensures var c := Times(v, s);
            var hsv := ColorToHsv(Sector(h / 60.0, c, Times(c, Ramp(h / 60.0)), v - c));
            if c > GREY_DELTA then hsv == Hsv(h, s, v) else hsv.s == 0.0
  {
    hide Ramp, Sector, WrapHue360, HueOf, HuePrime, Times, Div;
    var p, c := h / 60.0, Times(v, s);
    Chroma(s, v);
    if c > 0.0 {
      var k := Sector(p, c, Times(c, Ramp(p)), v - c);
      HueOfSector(p, c, v - c);
      HueIsPrime(k.r, k.g, k.b, v, c);
      hide Max, Min;
    } else {
      Units(Ramp(p));
      BlackSector(p, Times(c, Ramp(p)));
    }
  }

  lemma Chroma(s: real, v: real)
    requires 0.0 < s <= 1.0 && 0.0 <= v <= 1.0
    ensures 0.0 <= Times(v, s) <= v
    ensures v > 0.0 ==> Times(v, s) > 0.0 && Div(Times(v, s), v) == s
  {
    hide Times, Div;
    Negate(s, v);
    if v > 0.0 {
      Units(v);
      Compare(0.0, s, v);
      Compare(s, 1.0, v);
      TimesDiv(s, v);
    } else {
      Units(s);
      Negate(v, s);
    }
  }

  lemma BlackSector(p: real, x: real)
    requires x == 0.0
    ensures ColorToHsv(Sector(p, 0.0, x, 0.0)) == Hsv(0.0, 0.0, 0.0)
  {
    hide HueOf, WrapHue360, Div;
    assert Sector(p, 0.0, x, 0.0) == Color(0.0, 0.0, 0.0);
  }

  // ---- Linear RGB, XYZ and xy -----------------------------------------------------------------

  datatype LinearRgb = LinearRgb(r: real, g: real, b: real)
  datatype Xyz = Xyz(X: real, Y: real, Z: real)
  datatype Xy = Xy(x: real, y: real, bri: real)

  // The small-y guard answers with a grey and leaves linear light out.
  datatype FromXy = Grey(v: real) | Lit(lin: LinearRgb)

  function LinearRgbToXyz(c: LinearRgb): Xyz {
    Xyz(0.4124 * c.r + 0.3576 * c.g + 0.1805 * c.b,
        0.2126 * c.r + 0.7152 * c.g + 0.0722 * c.b,
        0.0193 * c.r + 0.1192 * c.g + 0.9505 * c.b)
  }

  function XyzToLinearRgb(t: Xyz): LinearRgb {
    LinearRgb(Clamp01(3.2406 * t.X - 1.5372 * t.Y - 0.4986 * t.Z),
              Clamp01(-0.9689 * t.X + 1.8758 * t.Y + 0.0415 * t.Z),
              Clamp01(0.0557 * t.X - 0.2040 * t.Y + 1.0570 * t.Z))
  }

  const SMALL_Y := 0.000001

  function ColorToXy(c: LinearRgb): Xy {
    var t := LinearRgbToXyz(c);
    var sum := t.X + t.Y + t.Z;
    if sum <= GREY_DELTA then Xy(0.3127, 0.3290, 0.0)
    else Xy(Div(t.X, sum), Div(t.Y, sum), Clamp01(t.Y))
  }

  function ColorFromXy(xy: Xy): FromXy {
    var bri := Clamp01(xy.bri);
    if xy.y <= SMALL_Y then Grey(bri)
    else
      var scale := Div(bri, xy.y);
      Lit(XyzToLinearRgb(Xyz(Times(scale, xy.x), bri, Times(scale, 1.0 - xy.x - xy.y))))
  }

  predicate Unit(c: LinearRgb) {
    0.0 <= c.r <= 1.0 && 0.0 <= c.g <= 1.0 && 0.0 <= c.b <= 1.0
  }

  function Sum(c: LinearRgb): real {
    var t := LinearRgbToXyz(c);
    t.X + t.Y + t.Z
  }

  /** The matrices are inverse up to the rounding of their coefficients. */
  lemma MatricesInvert(c: LinearRgb)
    requires Unit(c)
    ensures Within(XyzToLinearRgb(LinearRgbToXyz(c)), c, 0.000062)
  {
  }

  predicate Within(a: LinearRgb, b: LinearRgb, bound: real) {
    Abs(a.r - b.r) <= bound && Abs(a.g - b.g) <= bound && Abs(a.b - b.b) <= bound
  }

  /** Luminance is at least 6 percent of the sum, so chromaticity y stays far from the guard. */
  lemma LuminanceShare(c: LinearRgb)
    requires Unit(c)
    ensures 0.0 <= LinearRgbToXyz(c).Y <= 1.0
    ensures Sum(c) > GREY_DELTA ==> ColorToXy(c).y >= 0.06
  {
    var t := LinearRgbToXyz(c);
    if Sum(c) > GREY_DELTA {
      var y := Div(t.Y, Sum(c));
      DivTimes(t.Y, Sum(c));
      assert Times(0.06, Sum(c)) <= t.Y;
      Compare(0.06, y, Sum(c));
    }
  }

  /** Dividing by the sum and scaling back by the luminance restores the tristimulus values. */
  lemma Rescale(X: real, Y: real, Z: real, sum: real)
    requires sum == X + Y + Z > 0.0 && Y > 0.0
    ensures var x, y := Div(X, sum), Div(Y, sum);
            && y > 0.0 && Times(Div(Y, y), x) == X && Times(Div(Y, y), 1.0 - x - y) == Z
  {
    hide Times, Div;
    var x, y := Div(X, sum), Div(Y, sum);
    Quotient(Y, sum);
    Units(sum);
    Compare(0.0, y, sum);
    TimesDiv(sum, y);
    DivTimes(X, sum);
    Negate(x, sum);
    Negate(1.0 - x - y, sum);
    Distribute(1.0 - x, y, sum);
    Distribute(1.0, x, sum);
  }

  /**
   * Linear RGB survives the trip through xy and luminance within 6.2e-5 per channel,
   * over the whole unit cube. The small-y guard is never taken, and what is too dark
   * for a chromaticity comes back black.
   */
  lemma XyRoundTrip(c: LinearRgb)
    requires Unit(c)
    ensures ColorFromXy(ColorToXy(c)).Lit?
    ensures Within(ColorFromXy(ColorToXy(c)).lin, c, 0.000062)
    ensures Sum(c) <= GREY_DELTA ==> ColorFromXy(ColorToXy(c)).lin == LinearRgb(0.0, 0.0, 0.0)
    ensures Sum(c) > GREY_DELTA ==> ColorFromXy(ColorToXy(c)).lin == XyzToLinearRgb(LinearRgbToXyz(c))
  {
    hide *;
    SumIs(c);
    if Sum(c) <= GREY_DELTA {
      DarkIsBlack(c);
    } else {
      BrightIsExact(c);
      MatricesInvert(c);
    }
  }

  lemma BrightIsExact(c: LinearRgb)
    requires Unit(c) && Sum(c) > GREY_DELTA
    ensures ColorFromXy(ColorToXy(c)) == Lit(XyzToLinearRgb(LinearRgbToXyz(c)))
  {
    hide Times, Div, XyzToLinearRgb, LinearRgbToXyz, Unit, ColorFromXy;
    var t := LinearRgbToXyz(c);
    LuminanceShare(c);
    PositiveLuminance(c);
    Rescale(t.X, t.Y, t.Z, Sum(c));
    ScaledBack(Div(t.X, Sum(c)), Div(t.Y, Sum(c)), t);
  }

  lemma ScaledBack(x: real, y: real, t: Xyz)
    requires y > SMALL_Y && 0.0 <= t.Y <= 1.0
    requires Times(Div(t.Y, y), x) == t.X && Times(Div(t.Y, y), 1.0 - x - y) == t.Z
    ensures ColorFromXy(Xy(x, y, t.Y)) == Lit(XyzToLinearRgb(t))
  {
    hide Times, Div, XyzToLinearRgb;
  }

  lemma PositiveLuminance(c: LinearRgb)
    requires Unit(c) && Sum(c) > GREY_DELTA
    ensures LinearRgbToXyz(c).Y > 0.0
  {
  }

  /** The tristimulus sum, collected by channel. */
  function ByChannel(c: LinearRgb): real {
    0.6443 * c.r + 1.192 * c.g + 1.2032 * c.b
  }

  lemma SumIs(c: LinearRgb)
    ensures Sum(c) == ByChannel(c)
  {
  }

  lemma DarkIsBlack(c: LinearRgb)
    requires Unit(c) && ByChannel(c) <= GREY_DELTA
    ensures ColorFromXy(ColorToXy(c)) == Lit(LinearRgb(0.0, 0.0, 0.0))
    ensures Within(LinearRgb(0.0, 0.0, 0.0), c, 0.000062)
  {
    hide *;
    SumIs(c);
    DarkIsSmall(c);
    WhitePointIsSafe();
    NoLuminance(0.3127, 0.3290);
    DarkXy(c);
  }

  lemma WhitePointIsSafe()
    ensures 0.3290 > SMALL_Y
  {
  }

  lemma DarkIsSmall(c: LinearRgb)
    requires Unit(c) && ByChannel(c) <= GREY_DELTA
    ensures Within(LinearRgb(0.0, 0.0, 0.0), c, 0.000062)
  {
  }

  lemma DarkXy(c: LinearRgb)
    requires Sum(c) <= GREY_DELTA
    ensures ColorToXy(c) == Xy(0.3127, 0.3290, 0.0)
  {
    hide LinearRgbToXyz;
  }

  /** Without luminance every chromaticity is black. */
  lemma NoLuminance(x: real, y: real)
    requires y > SMALL_Y
    ensures ColorFromXy(Xy(x, y, 0.0)) == Lit(LinearRgb(0.0, 0.0, 0.0))
  {
    hide Times, Div;
    Quotient(0.0, y);
    Units(x);
    Units(1.0 - x - y);
  }
}
