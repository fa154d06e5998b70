// The colour conversions against references of their own: the closed form of HSV, the
// primaries, and the chromaticities of the sRGB standard (IEC 61966-2-1).

module ColorReference {
  import opened Color

  // ---- HSV --------------------------------------------------------------------------------

  /** How much of the chroma a channel lacks at `p` sixths of a turn; `n` places the channel. */
  function Lacks(n: real, p: real): real {
    var k := if n + p >= 6.0 then n + p - 6.0 else n + p;
    Max(0.0, Min(1.0, Min(k, 4.0 - k)))
  }

  /** The closed form f(n) = v - v s max(0, min(k, 4 - k, 1)) with k = (n + h / 60) mod 6. */
  function Channel(n: real, h: real, s: real, v: real): real {
    v - Times(Times(v, s), Lacks(n, h / 60.0))
  }

  lemma RampOrFull(p: real)
    requires 0.0 <= p < 6.0
    ensures Lacks(5.0, p) == if p < 1.0 || p >= 5.0 then 0.0 else if p < 2.0 || p >= 4.0 then 1.0 - Ramp(p) else 1.0
    ensures Lacks(3.0, p) == if 1.0 <= p < 3.0 then 0.0 else if p < 1.0 || 3.0 <= p < 4.0 then 1.0 - Ramp(p) else 1.0
    ensures Lacks(1.0, p) == if 3.0 <= p < 5.0 then 0.0 else if 2.0 <= p < 3.0 || p >= 5.0 then 1.0 - Ramp(p) else 1.0
  {
    RampAt(p);
    hide Ramp;
  }

  lemma Products(c: real, ramp: real)
    requires 0.0 <= c && 0.0 <= ramp <= 1.0
    ensures Times(c, 0.0) == 0.0 && Times(c, 1.0) == c && Times(c, 1.0 - ramp) == c - Times(c, ramp)
    ensures 0.0 <= Times(c, ramp) <= c
  {
    assert c * ramp <= c * 1.0;
  }

  /** The six sectors are the closed form, channel by channel. */
  lemma HsvClosedForm(h: real, s: real, v: real)
    requires 0.0 <= h < 360.0 && 0.0 <= s <= 1.0 && 0.0 <= v <= 1.0
    ensures HsvToColor(h, s, v) == Color(Channel(5.0, h, s, v), Channel(3.0, h, s, v), Channel(1.0, h, s, v))
  {
    hide Times, Div, Ramp, Lacks, WrapHue360;
    var p := h / 60.0;
    var c := Times(v, s);
    WrapWithin(h);
    RampAt(p);
    RampOrFull(p);
    Chroma01(s, v);
    Products(c, Ramp(p));
  }

  lemma Chroma01(s: real, v: real)
    requires 0.0 <= s <= 1.0 && 0.0 <= v <= 1.0
    ensures 0.0 <= Times(v, s) <= v && (s == 0.0 ==> Times(v, s) == 0.0)
    ensures s == 0.0 ==> forall w :: Times(Times(v, s), w) == 0.0
  {
    assert v * s <= v * 1.0;
  }

  lemma FullyLit(h: real)
    requires 0.0 <= h < 360.0
    ensures HsvToColor(h, 1.0, 1.0)
         == Color(1.0 - Lacks(5.0, h / 60.0), 1.0 - Lacks(3.0, h / 60.0), 1.0 - Lacks(1.0, h / 60.0))
  {
    HsvClosedForm(h, 1.0, 1.0);
    hide HsvToColor, Lacks;
  }

  /** Red, yellow, green, cyan, blue and magenta, at their sixths of a turn. */
  lemma Primaries()
    ensures HsvToColor(0.0, 1.0, 1.0) == Color(1.0, 0.0, 0.0) && HsvToColor(60.0, 1.0, 1.0) == Color(1.0, 1.0, 0.0)
    ensures HsvToColor(120.0, 1.0, 1.0) == Color(0.0, 1.0, 0.0) && HsvToColor(180.0, 1.0, 1.0) == Color(0.0, 1.0, 1.0)
    ensures HsvToColor(240.0, 1.0, 1.0) == Color(0.0, 0.0, 1.0) && HsvToColor(300.0, 1.0, 1.0) == Color(1.0, 0.0, 1.0)
  {
    FullyLit(0.0);
    FullyLit(60.0);
    FullyLit(120.0);
    FullyLit(180.0);
    FullyLit(240.0);
    FullyLit(300.0);
    hide HsvToColor;
  }

  // ---- Chromaticities -------------------------------------------------------------------------

  predicate Near(a: Xy, x: real, y: real) {
    Abs(a.x - x) <= 0.0001 && Abs(a.y - y) <= 0.0001
  }

  /** The standard's primaries and its white point have their chromaticities, to four places. */
  lemma StandardChromaticities()
    ensures Near(ColorToXy(LinearRgb(1.0, 0.0, 0.0)), 0.64, 0.33)
    ensures Near(ColorToXy(LinearRgb(0.0, 1.0, 0.0)), 0.30, 0.60)
    ensures Near(ColorToXy(LinearRgb(0.0, 0.0, 1.0)), 0.15, 0.06)
    ensures Near(ColorToXy(LinearRgb(1.0, 1.0, 1.0)), 0.3127, 0.3290)
    ensures ColorToXy(LinearRgb(1.0, 1.0, 1.0)).bri == 1.0
  {
  }

  /** A chromaticity without luminance to speak of is read as a grey of the brightness given. */
  lemma SmallYIsGrey(xy: Xy)
    ensures xy.y <= 0.000001 <==> ColorFromXy(xy).Grey?
    ensures xy.y <= 0.000001 && 0.0 <= xy.bri <= 1.0 ==> ColorFromXy(xy) == Grey(xy.bri)
    ensures xy.y <= 0.000001 && xy.bri > 1.0 ==> ColorFromXy(xy) == Grey(1.0)
    ensures xy.y <= 0.000001 && xy.bri < 0.0 ==> ColorFromXy(xy) == Grey(0.0)
  {
    hide Times, Div, XyzToLinearRgb;
  }
}
