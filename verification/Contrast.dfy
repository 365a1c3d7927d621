/** The contrast guard's arithmetic: WCAG 2.1 relative luminance and contrast ratio over reals, and the lightness walk. */
module Contrast {
  const AA_NORMAL := 4.5
  const AA_LARGE := 3.0

  type Level = n: nat | n < 256

  datatype Rgb = Rgb(r: Level, g: Level, b: Level)

  const BLACK := Rgb(0, 0, 0)
  const WHITE := Rgb(255, 255, 255)

  function Grey(level: Level): Rgb { Rgb(level, level, level) }

  /** What a channel contributes, before weighting. */
  type Channel = Level -> real

  function Pow(x: real, n: nat): real { if n == 0 then 1.0 else x * Pow(x, n - 1) }

  /** The standard's channel: linear near black, and the power 2.4 above, written through its fifth power. */
  ghost predicate Wcag(lin: Channel) {
    forall v: Level ::
      var c := v as real / 255.0;
      if c <= 0.03928 then lin(v) == c / 12.92
      else lin(v) >= 0.0 && Pow(lin(v), 5) == Pow((c + 0.055) / 1.055, 12)
  }

  /** All that the guard relies on. */
  ghost predicate Scale(lin: Channel) {
    (forall v: Level :: 0.0 <= lin(v) <= 1.0) && lin(0) == 0.0 && lin(255) == 1.0
  }

  lemma {:induction false} PowAbove(x: real, n: nat)
    requires x > 1.0 && n > 0
    ensures Pow(x, n) > 1.0
  {
    if n == 1 {
      assert Pow(x, 0) == 1.0;
    } else {
      PowAbove(x, n - 1);
      Above(x, Pow(x, n - 1));
    }
  }

  lemma Above(x: real, y: real)
    requires x > 1.0 && y > 1.0
    ensures x * y > 1.0
  {
    assert x * y == (x - 1.0) * y + y;
  }

  lemma {:induction false} PowWithin(x: real, n: nat)
    requires 0.0 <= x <= 1.0
    ensures 0.0 <= Pow(x, n) <= 1.0 && (x < 1.0 && n > 0 ==> Pow(x, n) < 1.0) && (x == 1.0 ==> Pow(x, n) == 1.0)
  {
    if n > 0 {
      PowWithin(x, n - 1);
      var y := Pow(x, n - 1);
      assert Pow(x, n) == x * y;
      Within(x, y);
    }
  }

  lemma Within(x: real, y: real)
    requires 0.0 <= x <= 1.0 && 0.0 <= y <= 1.0
    ensures 0.0 <= x * y <= 1.0 && (x < 1.0 ==> x * y < 1.0) && (x == 1.0 ==> x * y == y)
  {
    Times(x, y);
    Times(1.0 - x, y);
    assert (1.0 - x) * y == y - x * y;
    if x < 1.0 && y == 1.0 { assert x * y == x; }
  }

  lemma WcagScale(lin: Channel)
    requires Wcag(lin)
    ensures Scale(lin)
  {
    forall v: Level ensures 0.0 <= lin(v) <= 1.0 && (v == 255 ==> lin(v) == 1.0) {
      var c := v as real / 255.0;
      if c > 0.03928 {
        var u := (c + 0.055) / 1.055;
        assert lin(v) >= 0.0 && Pow(lin(v), 5) == Pow(u, 12);
        hide Pow;
        PowWithin(u, 12);
        if lin(v) > 1.0 { PowAbove(lin(v), 5); }
        PowWithin(lin(v), 5);
      }
    }
  }

  function Luminance(lin: Channel, c: Rgb): real { 0.2126 * lin(c.r) + 0.7152 * lin(c.g) + 0.0722 * lin(c.b) }

  lemma LuminanceIs(lin: Channel, c: Rgb)
    requires Scale(lin)
    ensures 0.0 <= Luminance(lin, c) <= 1.0 && Luminance(lin, BLACK) == 0.0 && Luminance(lin, WHITE) == 1.0
  {
  }

  /** The ratio of two luminances. */
  function Ratio(a: real, b: real): real
    requires a >= 0.0 && b >= 0.0
  {
    if a >= b then (a + 0.05) / (b + 0.05) else (b + 0.05) / (a + 0.05)
  }

  lemma RatioIs(a: real, b: real, t: real)
    requires a >= 0.0 && b >= 0.0 && t >= 1.0
    ensures Ratio(a, b) >= t <==> a + 0.05 >= t * (b + 0.05) || b + 0.05 >= t * (a + 0.05)
    ensures Ratio(a, b) >= 1.0 && Ratio(a, b) == Ratio(b, a)
  {
    var x, y := a + 0.05, b + 0.05;
    Stretch(x, t);
    Stretch(y, t);
    if a >= b {
      Quotient(x, y, t);
      Quotient(x, y, 1.0);
    } else {
      Quotient(y, x, t);
      Quotient(y, x, 1.0);
    }
  }

  lemma Stretch(x: real, t: real)
    requires x > 0.0 && t >= 1.0
    ensures t * x >= x
  {
    assert (t - 1.0) * x >= 0.0;
  }

  lemma Quotient(x: real, y: real, t: real)
    requires y > 0.0
    ensures x / y >= t <==> x >= t * y
  {
    var q := x / y;
    assert q * y == x;
    assert (q - t) * y == x - t * y;
    if q >= t { assert (q - t) * y >= 0.0; } else { assert (t - q) * y > 0.0; }
  }

  function ContrastRatio(lin: Channel, a: Rgb, b: Rgb): real
    requires Scale(lin)
  {
    LuminanceIs(lin, a);
    LuminanceIs(lin, b);
    Ratio(Luminance(lin, a), Luminance(lin, b))
  }

  // ------------------------------------------------------------------------------------------
  // Colour arithmetic
  // ------------------------------------------------------------------------------------------

  /** `Math.max(0, Math.min(255, Math.round(n)))` */
  function Part(n: real): Level {
    var rounded := (n + 0.5).Floor;
    if rounded < 0 then 0 else if rounded > 255 then 255 else rounded
  }

  function Unit(x: real): real { if x < 0.0 then 0.0 else if x > 1.0 then 1.0 else x }

  datatype Hsl = Hsl(h: real, s: real, l: real)

  /** A colour's channels as fractions, before they are rounded. */
  datatype Channels = Channels(r: real, g: real, b: real) {
    predicate Fractions() { 0.0 <= r <= 1.0 && 0.0 <= g <= 1.0 && 0.0 <= b <= 1.0 }
  }

  function ToHsl(c: Channels): Hsl
    requires c.Fractions()
  {
    var r, g, b := c.r, c.g, c.b;
    var hi := if r >= g && r >= b then r else if g >= b then g else b;
    var lo := if r <= g && r <= b then r else if g <= b then g else b;
    var l := (hi + lo) / 2.0;
    if hi == lo then Hsl(0.0, 0.0, l)
    else
      var d := hi - lo;
      var s := if l > 0.5 then d / (2.0 - hi - lo) else d / (hi + lo);
      var h := if hi == r then ((g - b) / d + (if g < b then 6.0 else 0.0)) / 6.0
               else if hi == g then ((b - r) / d + 2.0) / 6.0
               else ((r - g) / d + 4.0) / 6.0;
      Hsl(h, s, l)
  }

  function RgbToHsl(c: Rgb): Hsl { ToHsl(Channels(c.r as real / 255.0, c.g as real / 255.0, c.b as real / 255.0)) }

  function Hue(p: real, q: real, raw: real): real {
    var t0 := if raw < 0.0 then raw + 1.0 else raw;
    var t := if t0 > 1.0 then t0 - 1.0 else t0;
    if t < 1.0 / 6.0 then p + (q - p) * 6.0 * t
    else if t < 1.0 / 2.0 then q
    else if t < 2.0 / 3.0 then p + (q - p) * (2.0 / 3.0 - t) * 6.0
    else p
  }

  function ToChannels(c: Hsl): Channels {
    if c.s == 0.0 then Channels(c.l, c.l, c.l)
    else
      var q := if c.l < 0.5 then c.l * (1.0 + c.s) else c.l + c.s - c.l * c.s;
      var p := 2.0 * c.l - q;
      Channels(Hue(p, q, c.h + 1.0 / 3.0), Hue(p, q, c.h), Hue(p, q, c.h - 1.0 / 3.0))
  }

  /** The colour with its channels rounded, as it is printed. */
  function HslToRgb(c: Hsl): Rgb {
    var x := ToChannels(c);
    Rgb(Part(x.r * 255.0), Part(x.g * 255.0), Part(x.b * 255.0))
  }

  /** A sixth of the hue circle at a time: `u` counts sixths, `m` is `u` times the distance of `p` and `q`. */
  lemma HueIs(p: real, q: real, d: real, u: real, m: real)
    requires -2.0 <= u < 8.0 && d == q - p && m == u * d
    ensures -2.0 <= u < 0.0 ==> Hue(p, q, u / 6.0) == p
    ensures 0.0 <= u < 1.0 ==> Hue(p, q, u / 6.0) == p + m
    ensures 1.0 <= u < 3.0 ==> Hue(p, q, u / 6.0) == q
    ensures 3.0 <= u < 4.0 ==> Hue(p, q, u / 6.0) == p + 4.0 * d - m
    ensures 4.0 <= u <= 6.0 ==> Hue(p, q, u / 6.0) == p
    ensures 6.0 < u < 7.0 ==> Hue(p, q, u / 6.0) == p + m - 6.0 * d
    ensures 7.0 <= u ==> Hue(p, q, u / 6.0) == q
  {
    var t := u / 6.0;
    Six(d, t);
    Six(d, t - 1.0);
    Six(d, 2.0 / 3.0 - t);
    assert d * (6.0 * t) == m && d * (6.0 * (t - 1.0)) == m - 6.0 * d && d * (6.0 * (2.0 / 3.0 - t)) == 4.0 * d - m;
  }

  lemma Six(d: real, t: real)
    ensures d * 6.0 * t == d * (6.0 * t) && d * t * 6.0 == d * (6.0 * t)
  {
  }

  /** How far the channels may spread at a lightness. */
  function Room(l: real): real { if l > 0.5 then 2.0 - 2.0 * l else 2.0 * l }

  /** A colour of the double cone that is no grey. */
  ghost predicate Chromatic(c: Hsl) { 0.0 <= c.h < 1.0 && 0.0 < c.s <= 1.0 && 0.0 < c.l < 1.0 }

  /** The channels of a colour between the least value `p` and the greatest `q`; `m` is its hue in sixths times their distance. */
  function Wheel(p: real, q: real, m: real): Channels {
    var d := q - p;
    if m < d then Channels(q, p + m, p)
    else if m < 2.0 * d then Channels(p + 2.0 * d - m, q, p)
    else if m < 3.0 * d then Channels(p, q, p + m - 2.0 * d)
    else if m < 4.0 * d then Channels(p, p + 4.0 * d - m, q)
    else if m < 5.0 * d then Channels(p + m - 4.0 * d, p, q)
    else Channels(q, p, p + 6.0 * d - m)
  }

  ghost predicate Spans(c: Channels, p: real, q: real) {
    && p < q && p <= c.r <= q && p <= c.g <= q && p <= c.b <= q
    && (c.r == q || c.g == q || c.b == q) && (c.r == p || c.g == p || c.b == p)
  }

  function Turn(c: Channels, p: real, q: real): real {
    if c.r == q then c.g - c.b + (if c.g < c.b then 6.0 * (q - p) else 0.0)
    else if c.g == q then c.b - c.r + 2.0 * (q - p)
    else c.r - c.g + 4.0 * (q - p)
  }

  lemma WheelTurn(p: real, q: real, m: real)
    requires p < q && 0.0 <= m < 6.0 * (q - p)
    ensures Spans(Wheel(p, q, m), p, q) && Turn(Wheel(p, q, m), p, q) == m
  {
  }

  lemma TurnWheel(c: Channels, p: real, q: real)
    requires Spans(c, p, q)
    ensures 0.0 <= Turn(c, p, q) < 6.0 * (q - p) && c == Wheel(p, q, Turn(c, p, q))
  {
  }

  lemma Times(x: real, y: real)
    requires x >= 0.0 && y >= 0.0
    ensures x * y >= 0.0 && (x > 0.0 && y > 0.0 ==> x * y > 0.0)
  {
  }

  lemma Compare(d: real, x: real, xd: real, y: real, yd: real)
    requires d > 0.0 && xd == x * d && yd == y * d
    ensures (x < y <==> xd < yd) && (x == y <==> xd == yd)
  {
    var e := y - x;
    assert e * d == yd - xd && (-e) * d == xd - yd;
    if e >= 0.0 { Times(e, d); } else { Times(-e, d); }
  }

  lemma Over(n: real, d: real, t: real)
    requires d > 0.0 && t * d == n
    ensures n / d == t
  {
    assert n / d * d == n;
    Compare(d, n / d, n, t, n);
  }

  lemma Within6(d: real, u: real, m: real)
    requires d > 0.0 && 0.0 <= u < 6.0 && m == u * d
    ensures 0.0 <= m < 6.0 * d
  {
    Compare(d, u, m, 6.0, 6.0 * d);
    Times(u, d);
  }

  lemma WheelIs(p: real, q: real, d: real, u: real, m: real)
    requires d == q - p && d > 0.0 && 0.0 <= u < 6.0 && m == u * d
    ensures Channels(Hue(p, q, (u + 2.0) / 6.0), Hue(p, q, u / 6.0), Hue(p, q, (u - 2.0) / 6.0)) == Wheel(p, q, m)
  {
    hide Hue, Wheel;
    assert (u + 2.0) * d == m + 2.0 * d && (u - 2.0) * d == m - 2.0 * d;
    Sixths(d, u, m);
    Red(p, q, d, u, m);
    Green(p, q, d, u, m);
    Blue(p, q, d, u, m);
  }

  lemma Red(p: real, q: real, d: real, u: real, m: real)
    requires d == q - p && 0.0 <= u < 6.0 && m == u * d && (u + 2.0) * d == m + 2.0 * d && AtSixth(d, u, m)
    ensures Hue(p, q, (u + 2.0) / 6.0) == Wheel(p, q, m).r
  {
    hide Hue;
    HueIs(p, q, d, u + 2.0, m + 2.0 * d);
  }

  lemma Green(p: real, q: real, d: real, u: real, m: real)
    requires d == q - p && 0.0 <= u < 6.0 && m == u * d && AtSixth(d, u, m)
    ensures Hue(p, q, u / 6.0) == Wheel(p, q, m).g
  {
    hide Hue;
    HueIs(p, q, d, u, m);
  }

  lemma Blue(p: real, q: real, d: real, u: real, m: real)
    requires d == q - p && 0.0 <= u < 6.0 && m == u * d && (u - 2.0) * d == m - 2.0 * d && AtSixth(d, u, m)
    ensures Hue(p, q, (u - 2.0) / 6.0) == Wheel(p, q, m).b
  {
    hide Hue;
    HueIs(p, q, d, u - 2.0, m - 2.0 * d);
  }

  /** Which sixth `u` lies in can be told from `m`. */
  ghost predicate AtSixth(d: real, u: real, m: real) {
    && (u < 1.0 <==> m < d) && (u < 2.0 <==> m < 2.0 * d) && (u < 3.0 <==> m < 3.0 * d)
    && (u < 4.0 <==> m < 4.0 * d) && (u < 5.0 <==> m < 5.0 * d) && (u == 4.0 ==> m == 4.0 * d)
  }

  lemma Sixths(d: real, u: real, m: real)
    requires d > 0.0 && m == u * d
    ensures AtSixth(d, u, m)
  {
    Compare(d, u, m, 1.0, d);
    Compare(d, u, m, 2.0, 2.0 * d);
    Compare(d, u, m, 3.0, 3.0 * d);
    Compare(d, u, m, 4.0, 4.0 * d);
    Compare(d, u, m, 5.0, 5.0 * d);
  }

  lemma TurnHsl(c: Channels, p: real, q: real, d: real, l: real, u: real, m: real)
    requires c.Fractions() && Spans(c, p, q) && d == q - p && l == (p + q) / 2.0 && m == u * d && m == Turn(c, p, q)
    ensures ToHsl(c) == Hsl(u / 6.0, d / Room(l), l)
  {
    if c.r == q {
      HueOver(c.g - c.b, d, u, if c.g < c.b then 6.0 else 0.0, m);
    } else if c.g == q {
      HueOver(c.b - c.r, d, u, 2.0, m);
    } else {
      HueOver(c.r - c.g, d, u, 4.0, m);
    }
  }

  lemma HueOver(n: real, d: real, u: real, k: real, m: real)
    requires d > 0.0 && m == u * d && m == n + k * d
    ensures n / d == u - k
  {
    assert (u - k) * d == m - k * d;
    Over(n, d, u - k);
  }

  lemma Spread(s: real, l: real, d: real)
    requires 0.0 < s <= 1.0 && 0.0 < l < 1.0 && d == s * Room(l)
    ensures 0.0 < d <= Room(l) && d / Room(l) == s && (if l < 0.5 then l * (1.0 + s) else l + s - l * s) == l + d / 2.0
  {
    var room := Room(l);
    Compare(room, 0.0, 0.0, s, d);
    Compare(room, 1.0, room, s, d);
    Compare(room, s, d, 1.0, room);
    Over(d, room, s);
    Halves(s, l);
  }

  lemma Halves(s: real, l: real)
    ensures s * (2.0 * l) == 2.0 * (l * s) && s * (2.0 - 2.0 * l) == 2.0 * s - 2.0 * (l * s) && l * (1.0 + s) == l + l * s
  {
  }

  lemma ChannelsAreWheel(c: Hsl, d: real, m: real)
    requires Chromatic(c) && d == c.s * Room(c.l) && m == 6.0 * c.h * d
    ensures d > 0.0 && ToChannels(c) == Wheel(c.l - d / 2.0, c.l + d / 2.0, m)
  {
    hide Hue, Wheel, Room;
    Spread(c.s, c.l, d);
    var q := if c.l < 0.5 then c.l * (1.0 + c.s) else c.l + c.s - c.l * c.s;
    var p := 2.0 * c.l - q;
    ByThirds(p, q, c.h, d, m);
    assert q == c.l + d / 2.0 && p == c.l - d / 2.0;
    ByDefinition(c, p, q);
  }

  lemma ByDefinition(c: Hsl, p: real, q: real)
    requires c.s != 0.0 && q == (if c.l < 0.5 then c.l * (1.0 + c.s) else c.l + c.s - c.l * c.s) && p == 2.0 * c.l - q
    ensures ToChannels(c) == Channels(Hue(p, q, c.h + 1.0 / 3.0), Hue(p, q, c.h), Hue(p, q, c.h - 1.0 / 3.0))
  {
    hide Hue;
  }

  lemma ByThirds(p: real, q: real, h: real, d: real, m: real)
    requires d == q - p && d > 0.0 && 0.0 <= h < 1.0 && m == 6.0 * h * d
    ensures Channels(Hue(p, q, h + 1.0 / 3.0), Hue(p, q, h), Hue(p, q, h - 1.0 / 3.0)) == Wheel(p, q, m)
  {
    hide Hue, Wheel;
    var u := 6.0 * h;
    WheelIs(p, q, d, u, m);
    assert (u + 2.0) / 6.0 == h + 1.0 / 3.0 && u / 6.0 == h && (u - 2.0) / 6.0 == h - 1.0 / 3.0;
  }

  /** Hue, saturation and lightness survive the way to the channels and back. */
  lemma HslRoundTrip(c: Hsl)
    requires Chromatic(c)
    ensures ToChannels(c).Fractions() && ToHsl(ToChannels(c)) == c
  {
    hide ToHsl, ToChannels, Wheel, Turn, Room, Channels.Fractions;
    var d := c.s * Room(c.l);
    var m := 6.0 * c.h * d;
    Spread(c.s, c.l, d);
    RoomIs(c.l, d);
    ChannelsAreWheel(c, d, m);
    WheelHsl(c.l - d / 2.0, c.l + d / 2.0, d, c.l, 6.0 * c.h, m);
    assert 6.0 * c.h / 6.0 == c.h;
  }

  lemma RoomIs(l: real, d: real)
    requires 0.0 < l < 1.0 && d <= Room(l)
    ensures 0.0 <= l - d / 2.0 && l + d / 2.0 <= 1.0
  {
  }

  lemma SpansFractions(c: Channels, p: real, q: real)
    requires Spans(c, p, q) && 0.0 <= p && q <= 1.0
    ensures c.Fractions()
  {
  }

  lemma WheelHsl(p: real, q: real, d: real, l: real, u: real, m: real)
    requires 0.0 <= p < q <= 1.0 && 0.0 <= u < 6.0 && d == q - p && l == (p + q) / 2.0 && m == u * d
    ensures Wheel(p, q, m).Fractions() && ToHsl(Wheel(p, q, m)) == Hsl(u / 6.0, d / Room(l), l)
  {
    hide ToHsl, Wheel, Turn, Room;
    Within6(d, u, m);
    WheelTurn(p, q, m);
    SpansFractions(Wheel(p, q, m), p, q);
    hide Spans, Channels.Fractions;
    TurnHsl(Wheel(p, q, m), p, q, d, l, u, m);
  }

  /** And so do the channels of every colour. */
  lemma ChannelsRoundTrip(c: Channels)
    requires c.Fractions()
    ensures ToChannels(ToHsl(c)) == c && (Chromatic(ToHsl(c)) <==> !(c.r == c.g == c.b))
  {
    if !(c.r == c.g == c.b) {
      var hi := if c.r >= c.g && c.r >= c.b then c.r else if c.g >= c.b then c.g else c.b;
      var lo := if c.r <= c.g && c.r <= c.b then c.r else if c.g <= c.b then c.g else c.b;
      hide ToHsl, ToChannels;
      MixedRoundTrip(c, lo, hi);
    }
    hide Hue, Room;
  }

  lemma MixedRoundTrip(c: Channels, p: real, q: real)
    requires c.Fractions() && Spans(c, p, q)
    ensures ToChannels(ToHsl(c)) == c && Chromatic(ToHsl(c))
  {
    hide ToHsl, ToChannels, Wheel, Turn;
    var d, m, l := q - p, Turn(c, p, q), (p + q) / 2.0;
    TurnWheel(c, p, q);
    var u := m / d;
    assert u * d == m;
    TurnHsl(c, p, q, d, l, u, m);
    hide Spans, Channels.Fractions, Room;
    Mixed(p, q, d, l, u, d / Room(l), m) by { RoomAround(p, q, d, l); }
  }

  lemma RoomAround(p: real, q: real, d: real, l: real)
    requires 0.0 <= p < q <= 1.0 && d == q - p && l == (p + q) / 2.0
    ensures 0.0 < d <= Room(l) && d / Room(l) * Room(l) == d
  {
  }

  lemma Mixed(p: real, q: real, d: real, l: real, u: real, s: real, m: real)
    requires 0.0 <= p < q <= 1.0 && d == q - p && l == (p + q) / 2.0 && m == u * d && 0.0 <= m < 6.0 * d
    requires d <= Room(l) && s * Room(l) == d
    ensures Chromatic(Hsl(u / 6.0, s, l)) && ToChannels(Hsl(u / 6.0, s, l)) == Wheel(p, q, m)
  {
    hide ToChannels, Wheel, Room;
    Compare(d, u, m, 0.0, 0.0);
    Compare(d, u, m, 6.0, 6.0 * d);
    Compare(Room(l), 0.0, 0.0, s, d);
    Compare(Room(l), 1.0, Room(l), s, d);
    assert 6.0 * (u / 6.0) == u;
    ChannelsAreWheel(Hsl(u / 6.0, s, l), d, m);
    assert l - d / 2.0 == p && l + d / 2.0 == q;
  }

  /** Every printable colour comes back from hue, saturation and lightness. */
  lemma RgbRoundTrip(c: Rgb)
    ensures HslToRgb(RgbToHsl(c)) == c
  {
    PartIs(c.r);
    PartIs(c.g);
    PartIs(c.b);
    hide ToHsl, ToChannels, Part, Chromatic;
    ChannelsRoundTrip(Channels(c.r as real / 255.0, c.g as real / 255.0, c.b as real / 255.0));
  }

  lemma PartIs(v: Level)
    ensures 0.0 <= v as real / 255.0 <= 1.0 && Part(v as real / 255.0 * 255.0) == v
  {
    assert v as real / 255.0 * 255.0 == v as real;
  }

  // ------------------------------------------------------------------------------------------
  // Walking the lightness
  // ------------------------------------------------------------------------------------------

  datatype Ensured = Ensured(color: Rgb, ratio: real, passes: bool, adjusted: bool)

  predicate IsDark(lin: Channel, c: Rgb) { Luminance(lin, c) < 0.5 }

  function Step(lin: Channel, background: Rgb): real { if IsDark(lin, background) then 0.02 else -0.02 }

  function Fallback(lin: Channel, background: Rgb): Rgb { if IsDark(lin, background) then WHITE else BLACK }

  function LightnessAt(lin: Channel, hsl: Hsl, background: Rgb, i: nat): real { Unit(hsl.l + Step(lin, background) * i as real) }

  function CandidateAt(lin: Channel, hsl: Hsl, background: Rgb, i: nat): Rgb {
    HslToRgb(hsl.(l := LightnessAt(lin, hsl, background, i)))
  }

  /** The walk from step `i` on, with the best colour so far: it stops at the first colour that passes, at an end of the
      scale, or after fifty steps. */
  function Walk(lin: Channel, hsl: Hsl, background: Rgb, target: real, i: nat, best: Rgb): (r: Rgb)
    requires Scale(lin)
    decreases 51 - i
  {
    if i > 50 then best
    else
      var candidate := CandidateAt(lin, hsl, background, i);
      var ratio := ContrastRatio(lin, candidate, background);
      var better := if ratio > ContrastRatio(lin, best, background) then candidate else best;
      if ratio >= target then candidate
      else if LightnessAt(lin, hsl, background, i) == 0.0 || LightnessAt(lin, hsl, background, i) == 1.0 then better
      else Walk(lin, hsl, background, target, i + 1, better)
  }

  function Ensure(lin: Channel, foreground: Rgb, background: Rgb, target: real): Ensured
    requires Scale(lin)
  {
    var initial := ContrastRatio(lin, foreground, background);
    if initial >= target then Ensured(foreground, initial, true, false)
    else
      var walked := Walk(lin, RgbToHsl(foreground), background, target, 1, foreground);
      var fallback := Fallback(lin, background);
      var ratio, last := ContrastRatio(lin, walked, background), ContrastRatio(lin, fallback, background);
      if ratio >= target then Ensured(walked, ratio, true, true)
      else if last > ratio then Ensured(fallback, last, last >= target, true)
      else Ensured(walked, ratio, false, walked != foreground)
  }

  method EnsureContrast(lin: Channel, foreground: Rgb, background: Rgb, target: real) returns (r: Ensured)
    requires Scale(lin)
    ensures r == Ensure(lin, foreground, background, target)
  {
    hide RgbToHsl, HslToRgb, ContrastRatio, Luminance, LightnessAt, Scale;
    var initial := ContrastRatio(lin, foreground, background);
    if initial >= target { return Ensured(foreground, initial, true, false); }
    var hsl := RgbToHsl(foreground);
    var best, bestRatio := foreground, initial;
    var i := 1;
    while i <= 50
      invariant 1 <= i <= 51
      invariant bestRatio == ContrastRatio(lin, best, background) < target
      invariant Walk(lin, hsl, background, target, i, best) == Walk(lin, hsl, background, target, 1, foreground)
    {
      var l := LightnessAt(lin, hsl, background, i);
      var candidate := CandidateAt(lin, hsl, background, i);
      var ratio := ContrastRatio(lin, candidate, background);
      ghost var before := best;
      if ratio > bestRatio {
        best := candidate;
        bestRatio := ratio;
      }
      if ratio >= target { return Ensured(candidate, ratio, true, true); }
      if l == 0.0 || l == 1.0 { break; }
      i := i + 1;
    }
    var fallback := Fallback(lin, background);
    var fallbackRatio := ContrastRatio(lin, fallback, background);
    if fallbackRatio > bestRatio {
      return Ensured(fallback, fallbackRatio, fallbackRatio >= target, true);
    }
    return Ensured(best, bestRatio, bestRatio >= target, best != foreground);
  }

  lemma {:induction false} WalkNeverWorse(lin: Channel, hsl: Hsl, background: Rgb, target: real, i: nat, best: Rgb)
    requires Scale(lin)
    ensures var r := Walk(lin, hsl, background, target, i, best);
      ContrastRatio(lin, r, background) >= target || ContrastRatio(lin, r, background) >= ContrastRatio(lin, best, background)
    decreases 51 - i
  {
    hide HslToRgb, ContrastRatio, Luminance, LightnessAt, Scale, CandidateAt;
    if i <= 50 {
      var candidate := CandidateAt(lin, hsl, background, i);
      WalkNeverWorse(lin, hsl, background, target, i + 1,
        if ContrastRatio(lin, candidate, background) > ContrastRatio(lin, best, background) then candidate else best);
    }
  }

  /** What is returned is what was measured: never worse than the input, reported as passing exactly when it passes, and
      as adjusted exactly when it differs. */
  lemma EnsureHonest(lin: Channel, foreground: Rgb, background: Rgb, target: real)
    requires Scale(lin)
    ensures var r := Ensure(lin, foreground, background, target);
      r.ratio == ContrastRatio(lin, r.color, background) && (r.passes <==> r.ratio >= target) &&
      r.ratio >= ContrastRatio(lin, foreground, background) && (r.adjusted <==> r.color != foreground)
  {
    WalkNeverWorse(lin, RgbToHsl(foreground), background, target, 1, foreground);
    hide Walk, RgbToHsl, ContrastRatio, Scale, Fallback;
  }

  // ------------------------------------------------------------------------------------------
  // What the walk walks to
  // ------------------------------------------------------------------------------------------

  /** Against a dark background the lightness goes up by a fiftieth a step, against a light one down, as far as it goes. */
  lemma LightnessIs(lin: Channel, hsl: Hsl, background: Rgb, i: nat)
    requires 0.0 <= hsl.l <= 1.0
    ensures var l, moved := LightnessAt(lin, hsl, background, i), i as real / 50.0;
      if Luminance(lin, background) < 0.5 then (if hsl.l + moved <= 1.0 then l == hsl.l + moved else l == 1.0)
      else (if hsl.l - moved >= 0.0 then l == hsl.l - moved else l == 0.0)
  {
    hide Luminance;
    assert 0.02 * i as real == i as real / 50.0 && -0.02 * i as real == -(i as real / 50.0);
  }

  /** Up to the rounding of its channels, a colour on the way has the hue and the saturation of the foreground. */
  lemma HueKept(lin: Channel, foreground: Rgb, background: Rgb, i: nat)
    requires !(foreground.r == foreground.g == foreground.b)
    ensures var hsl := RgbToHsl(foreground); var l := LightnessAt(lin, hsl, background, i); var x := ToChannels(hsl.(l := l));
      && CandidateAt(lin, hsl, background, i) == Rgb(Part(255.0 * x.r), Part(255.0 * x.g), Part(255.0 * x.b))
      && (0.0 < l < 1.0 ==> x.Fractions() && ToHsl(x).h == hsl.h && ToHsl(x).s == hsl.s && ToHsl(x).l == l)
  {
    hide LightnessAt, ToChannels, ToHsl, Part;
    var c := Channels(foreground.r as real / 255.0, foreground.g as real / 255.0, foreground.b as real / 255.0);
    ChannelsRoundTrip(c);
    assert !(c.r == c.g == c.b);
    var hsl := RgbToHsl(foreground);
    var l := LightnessAt(lin, hsl, background, i);
    if 0.0 < l < 1.0 { HslRoundTrip(hsl.(l := l)); }
  }

  /** No step before `n` passes or reaches an end of the scale. */
  ghost predicate StillWalking(lin: Channel, hsl: Hsl, background: Rgb, target: real, i: nat, n: nat)
    requires Scale(lin)
  {
    forall j: nat :: i <= j < n ==>
      ContrastRatio(lin, CandidateAt(lin, hsl, background, j), background) < target && 0.0 < LightnessAt(lin, hsl, background, j) < 1.0
  }

  lemma {:induction false} WalkFirst(lin: Channel, hsl: Hsl, background: Rgb, target: real, i: nat, n: nat, best: Rgb)
    requires Scale(lin) && i <= n <= 50 && StillWalking(lin, hsl, background, target, i, n)
    requires ContrastRatio(lin, CandidateAt(lin, hsl, background, n), background) >= target
    ensures Walk(lin, hsl, background, target, i, best) == CandidateAt(lin, hsl, background, n)
    decreases n - i
  {
    hide CandidateAt, ContrastRatio, LightnessAt, Scale;
    if i < n {
      var candidate := CandidateAt(lin, hsl, background, i);
      WalkFirst(lin, hsl, background, target, i + 1, n,
        if ContrastRatio(lin, candidate, background) > ContrastRatio(lin, best, background) then candidate else best);
    }
  }

  /** A foreground that fails becomes the first colour on the way that passes. */
  lemma FirstThatPasses(lin: Channel, foreground: Rgb, background: Rgb, target: real, n: nat)
    requires Scale(lin) && ContrastRatio(lin, foreground, background) < target
    requires 1 <= n <= 50 && StillWalking(lin, RgbToHsl(foreground), background, target, 1, n)
    requires ContrastRatio(lin, CandidateAt(lin, RgbToHsl(foreground), background, n), background) >= target
    ensures var c := CandidateAt(lin, RgbToHsl(foreground), background, n);
      Ensure(lin, foreground, background, target) == Ensured(c, ContrastRatio(lin, c, background), true, true)
  {
    WalkFirst(lin, RgbToHsl(foreground), background, target, 1, n, foreground);
    hide Walk, RgbToHsl, ContrastRatio, Scale, Fallback, CandidateAt, StillWalking;
  }

  /** The walk ends at step `n` without a colour that passes. */
  ghost predicate EndsAt(lin: Channel, hsl: Hsl, background: Rgb, target: real, n: nat)
    requires Scale(lin)
  {
    && ContrastRatio(lin, CandidateAt(lin, hsl, background, n), background) < target
    && (n == 50 || LightnessAt(lin, hsl, background, n) == 0.0 || LightnessAt(lin, hsl, background, n) == 1.0)
  }

  ghost predicate Best(lin: Channel, hsl: Hsl, background: Rgb, i: nat, n: nat, best: Rgb, r: Rgb)
    requires Scale(lin)
  {
    && (r == best || exists j: nat :: i <= j <= n && r == CandidateAt(lin, hsl, background, j))
    && ContrastRatio(lin, r, background) >= ContrastRatio(lin, best, background)
    && forall j: nat :: i <= j <= n ==> ContrastRatio(lin, r, background) >= ContrastRatio(lin, CandidateAt(lin, hsl, background, j), background)
  }

  lemma {:induction false} WalkBest(lin: Channel, hsl: Hsl, background: Rgb, target: real, i: nat, n: nat, best: Rgb)
    requires Scale(lin) && i <= n <= 50 && StillWalking(lin, hsl, background, target, i, n) && EndsAt(lin, hsl, background, target, n)
    ensures Best(lin, hsl, background, i, n, best, Walk(lin, hsl, background, target, i, best))
    decreases n - i
  {
    hide CandidateAt, ContrastRatio, LightnessAt, Scale;
    var candidate := CandidateAt(lin, hsl, background, i);
    var better := if ContrastRatio(lin, candidate, background) > ContrastRatio(lin, best, background) then candidate else best;
    if i < n {
      WalkBest(lin, hsl, background, target, i + 1, n, better);
    } else {
      assert i == 50 ==> Walk(lin, hsl, background, target, 51, better) == better;
    }
  }

  /** Where no step passes, the outcome is the one with the most contrast of the foreground, the colours on the way and the
      end of the scale. */
  lemma StrongestOtherwise(lin: Channel, foreground: Rgb, background: Rgb, target: real, n: nat)
    requires Scale(lin) && ContrastRatio(lin, foreground, background) < target
    requires 1 <= n <= 50 && StillWalking(lin, RgbToHsl(foreground), background, target, 1, n)
    requires EndsAt(lin, RgbToHsl(foreground), background, target, n)
    ensures var end, r := if Luminance(lin, background) < 0.5 then WHITE else BLACK, Ensure(lin, foreground, background, target).color;
      && (r == end || r == foreground || exists j: nat :: 1 <= j <= n && r == CandidateAt(lin, RgbToHsl(foreground), background, j))
      && ContrastRatio(lin, r, background) >= ContrastRatio(lin, foreground, background)
      && ContrastRatio(lin, r, background) >= ContrastRatio(lin, end, background)
      && forall j: nat :: 1 <= j <= n ==>
           ContrastRatio(lin, r, background) >= ContrastRatio(lin, CandidateAt(lin, RgbToHsl(foreground), background, j), background)
  {
    hide RgbToHsl, ContrastRatio, Scale, CandidateAt, StillWalking, EndsAt, Luminance;
    WalkBest(lin, RgbToHsl(foreground), background, target, 1, n, foreground);
    WalkFails(lin, RgbToHsl(foreground), background, target, 1, n, foreground);
    hide Walk;
  }

  lemma WalkFails(lin: Channel, hsl: Hsl, background: Rgb, target: real, i: nat, n: nat, best: Rgb)
    requires Scale(lin) && i <= n <= 50 && StillWalking(lin, hsl, background, target, i, n) && EndsAt(lin, hsl, background, target, n)
    requires ContrastRatio(lin, best, background) < target
    ensures ContrastRatio(lin, Walk(lin, hsl, background, target, i, best), background) < target
  {
    hide CandidateAt, ContrastRatio, LightnessAt, Scale, Walk;
    WalkBest(lin, hsl, background, target, i, n, best);
  }

  lemma EndStays(lin: Channel, background: Rgb, target: real)
    requires Scale(lin)
    ensures var end := Fallback(lin, background);
      ContrastRatio(lin, end, background) < target ==> !Ensure(lin, end, background, target).passes
  {
    var end := Fallback(lin, background);
    EndCandidate(lin, background);
    hide RgbToHsl, HslToRgb, ContrastRatio, Luminance, LightnessAt, Scale, CandidateAt, Fallback;
  }

  lemma EndCandidate(lin: Channel, background: Rgb)
    ensures var end := Fallback(lin, background); var hsl := RgbToHsl(end);
      CandidateAt(lin, hsl, background, 1) == end &&
      (LightnessAt(lin, hsl, background, 1) == 0.0 || LightnessAt(lin, hsl, background, 1) == 1.0)
  {
    hide Luminance;
    assert RgbToHsl(WHITE) == Hsl(0.0, 0.0, 1.0) && RgbToHsl(BLACK) == Hsl(0.0, 0.0, 0.0);
    assert Part(255.0) == 255 && Part(0.0) == 0;
  }

  /** Every foreground comes out passing. */
  ghost predicate RescuesAll(lin: Channel, background: Rgb, target: real)
    requires Scale(lin)
  {
    forall foreground :: Ensure(lin, foreground, background, target).passes
  }

  /** The walk rescues every foreground if and only if the end of the scale it walks to passes by itself. */
  lemma RescuesExactly(lin: Channel, background: Rgb, target: real)
    requires Scale(lin)
    ensures RescuesAll(lin, background, target) <==> ContrastRatio(lin, Fallback(lin, background), background) >= target
  {
    EndStays(lin, background, target);
    hide ContrastRatio, Scale, Fallback, RgbToHsl;
    forall foreground | ContrastRatio(lin, Fallback(lin, background), background) >= target
      ensures Ensure(lin, foreground, background, target).passes
    {
      hide Walk;
    }
  }

  /** At the body-text threshold that is every background outside a band of mid-tones; inside the band the walk goes
      towards white and fails, though black would have passed. */
  lemma MidtonesFail(lin: Channel, background: Rgb)
    requires Scale(lin)
    ensures var y := Luminance(lin, background);
      RescuesAll(lin, background, AA_NORMAL) <==> 4.5 * (y + 0.05) <= 1.05 || y >= 0.5
    ensures !RescuesAll(lin, background, AA_NORMAL) ==> ContrastRatio(lin, BLACK, background) >= AA_NORMAL
  {
    hide RescuesAll, Ensure, Luminance, Scale, ContrastRatio;
    RescuesExactly(lin, background, AA_NORMAL);
    EndRatios(lin, background, 4.5);
    var y := Luminance(lin, background);
    Midtones(y, ContrastRatio(lin, WHITE, background), ContrastRatio(lin, BLACK, background));
  }

  const RED := Rgb(255, 0, 0)

  /** Pure red lies in the band: the walk reports failure for white text on it, although black clears it. */
  lemma RedIsNotRescued(lin: Channel)
    requires Scale(lin)
    ensures Luminance(lin, RED) == 0.2126 && !RescuesAll(lin, RED, AA_NORMAL)
    ensures !Ensure(lin, WHITE, RED, AA_NORMAL).passes && ContrastRatio(lin, BLACK, RED) >= AA_NORMAL
  {
    assert Luminance(lin, RED) == 0.2126;
    MidtonesFail(lin, RED);
    EndRatios(lin, RED, 4.5);
    EndStays(lin, RED, AA_NORMAL);
    hide Ensure, ContrastRatio, Scale, Luminance, RescuesAll;
    assert Fallback(lin, RED) == WHITE;
  }

  lemma Midtones(y: real, white: real, black: real)
    requires 0.0 <= y <= 1.0 && (white >= 4.5 <==> 1.05 >= 4.5 * (y + 0.05)) && (black >= 4.5 <==> y + 0.05 >= 4.5 * 0.05)
    ensures (if y < 0.5 then white else black) >= AA_NORMAL <==> 4.5 * (y + 0.05) <= 1.05 || y >= 0.5
    ensures !(4.5 * (y + 0.05) <= 1.05 || y >= 0.5) ==> black >= AA_NORMAL
  {
  }

  /** Black and white against a background, without the quotient. */
  lemma EndRatios(lin: Channel, background: Rgb, t: real)
    requires Scale(lin) && t >= 1.0
    ensures var y := Luminance(lin, background);
      0.0 <= y <= 1.0 &&
      (ContrastRatio(lin, WHITE, background) >= t <==> 1.05 >= t * (y + 0.05)) &&
      (ContrastRatio(lin, BLACK, background) >= t <==> y + 0.05 >= t * 0.05)
  {
    LuminanceIs(lin, background);
    var y := Luminance(lin, background);
    RatioIs(1.0, y, t);
    RatioIs(0.0, y, t);
    Stretch(y + 0.05, t);
    Stretch(0.05, t);
    Stretch(1.05, t);
    hide Luminance, Scale;
  }
}
