/** Palettes, measured by the standard's own formula, on which what the template code says of its guard does not hold. */
module Palettes {
  import opened Contrast
  import opened Options
  import opened Tokens

  // ------------------------------------------------------------------------------------------
  // Bounds on a channel
  // ------------------------------------------------------------------------------------------

  function Square(x: real): real { x * x }

  function Fifth(x: real): real { Square(Square(x)) * x }

  function Twelfth(x: real): real { Square(Square(x * x * x)) }

  lemma PowersAre(x: real)
    ensures Pow(x, 5) == Fifth(x) && Pow(x, 12) == Twelfth(x)
  {
    assert Pow(x, 1) == x && Pow(x, 2) == x * x && Pow(x, 3) == x * x * x;
    PowSplit(x, 2, 2);
    PowSplit(x, 1, 4);
    PowSplit(x, 3, 3);
    PowSplit(x, 6, 6);
    hide Pow;
  }

  lemma {:induction false} PowSplit(x: real, m: nat, n: nat)
    ensures Pow(x, m + n) == Pow(x, m) * Pow(x, n)
  {
    if m == 0 {
      assert Pow(x, 0) == 1.0;
    } else {
      PowSplit(x, m - 1, n);
      assert Pow(x, m) == x * Pow(x, m - 1);
      assert Pow(x, m + n) == x * Pow(x, m - 1 + n);
      Regroup(x, Pow(x, m - 1), Pow(x, n));
    }
  }

  lemma Regroup(a: real, b: real, c: real)
    ensures a * (b * c) == (a * b) * c
  {
  }

  lemma {:induction false} PowAscends(x: real, y: real, n: nat)
    requires 0.0 <= x <= y
    ensures 0.0 <= Pow(x, n) <= Pow(y, n)
  {
    if n > 0 {
      PowAscends(x, y, n - 1);
      Products(x, y, Pow(x, n - 1), Pow(y, n - 1));
      assert Pow(x, n) == x * Pow(x, n - 1) && Pow(y, n) == y * Pow(y, n - 1);
    }
  }

  lemma Products(a: real, b: real, c: real, d: real)
    requires 0.0 <= a <= b && 0.0 <= c <= d
    ensures 0.0 <= a * c <= b * d
  {
    assert a * c <= b * c <= b * d;
  }

  lemma {:induction false} PowStrict(x: real, y: real, n: nat)
    requires 0.0 <= x && 0.0 <= y && Pow(x, n) < Pow(y, n)
    ensures x < y
  {
    hide Pow;
    if y <= x { PowAscends(y, x, n); }
  }

  /** What the standard raises to the power 2.4. */
  function Base24(level: Level): real { (level as real / 255.0 + 0.055) / 1.055 }

  lemma LinearBelow(lin: Channel, level: Level)
    requires Wcag(lin) && level <= 10
    ensures lin(level) == level as real / 255.0 / 12.92 && 0.0 <= lin(level) <= 0.0031
  {
    var c := level as real / 255.0;
    assert c <= 0.03928;
  }

  lemma CurvedAbove(lin: Channel, level: Level)
    requires Wcag(lin) && level > 10
    ensures lin(level) >= 0.0 && Pow(lin(level), 5) == Pow(Base24(level), 12) && Base24(level) > 0.0
  {
    hide Pow;
    var c := level as real / 255.0;
    assert c > 0.03928;
  }

  /** A channel lies below `high` when its base, rounded up to `u`, is raised to less. */
  lemma LinBelow(lin: Channel, level: Level, u: real, high: real)
    requires Wcag(lin) && level > 10 && Base24(level) <= u && 0.0 <= high && Twelfth(u) < Fifth(high)
    ensures lin(level) < high
  {
    CurvedAbove(lin, level);
    PowAscends(Base24(level), u, 12);
    PowersAre(u);
    PowersAre(high);
    hide Wcag, Base24, Twelfth, Fifth, Pow;
    PowStrict(lin(level), high, 5);
  }

  lemma LinAbove(lin: Channel, level: Level, u: real, low: real)
    requires Wcag(lin) && level > 10 && 0.0 <= u <= Base24(level) && 0.0 <= low && Fifth(low) < Twelfth(u)
    ensures low < lin(level)
  {
    CurvedAbove(lin, level);
    PowAscends(u, Base24(level), 12);
    PowersAre(u);
    PowersAre(low);
    hide Wcag, Base24, Twelfth, Fifth, Pow;
    PowStrict(low, lin(level), 5);
  }

  lemma GreyLuminance(lin: Channel, level: Level)
    ensures Luminance(lin, Grey(level)) == lin(level)
  {
  }

  // ------------------------------------------------------------------------------------------
  // A page no text can share with the surface derived from it
  // ------------------------------------------------------------------------------------------

  const MID_PAGE := Grey(112)

  lemma MidPageBounds(lin: Channel)
    requires Wcag(lin)
    ensures 0.1 < lin(112) < 0.175 && 0.184 < lin(122) < 0.9
  {
    hide Wcag;
    LinBelow(lin, 112, 0.469, 0.175);
    LinAbove(lin, 112, 0.468, 0.1);
    LinAbove(lin, 122, 0.505, 0.184);
    LinBelow(lin, 122, 0.51, 0.9);
  }

  lemma MidPageSurface(lin: Channel, base: Base)
    requires Scale(lin) && base.background == MID_PAGE && lin(112) < 0.5
    ensures DefaultSurface(lin, base) == Grey(122)
  {
    hide Scale;
    GreyLuminance(lin, 112);
    assert Unit(0.07) == 0.07;
    assert Blend(112, 255, 0.07) == 122;
  }

  /** On the mid-grey page the derived surface leaves no luminance that clears 4.5 to 1 on both, so that whatever the
      lightness walk and the tenant's colours, no token set for it has a text that does. */
  lemma MidPageUnreadable(lin: Channel, ensure: Ensurer, input: Base)
    requires Wcag(lin) && Scale(lin) && input.background == MID_PAGE && input.surface == None
    ensures DefaultSurface(lin, input) == Grey(122) && lin(112) >= 0.0 && lin(122) >= 0.0
    ensures !exists l :: Serves(l, lin(112), lin(122))
    ensures var t := DeriveColorTokens(lin, ensure, input, None);
      !(ContrastRatio(lin, t.text, t.background) >= AA_NORMAL && ContrastRatio(lin, t.text, t.surface) >= AA_NORMAL)
  {
    MidPageBounds(lin);
    MidPageSurface(lin, input);
    GreyLuminance(lin, 112);
    GreyLuminance(lin, 122);
    ServedExactly(lin(112), lin(122));
    var t := DeriveColorTokens(lin, ensure, input, None);
    assert t.background == MID_PAGE && t.surface == Grey(122) by {
      hide TextsOf, BandsOf, ReadableOn, SurfaceAlt, Scale, Wcag, SurfaceIsUsable, DefaultSurface;
    }
    LuminanceIs(lin, t.text);
    hide DeriveColorTokens, Wcag, Scale, Ratio, DefaultSurface, Luminance;
    assert !Serves(Luminance(lin, t.text), lin(112), lin(122));
  }

  // ------------------------------------------------------------------------------------------
  // A usable surface no grey can serve
  // ------------------------------------------------------------------------------------------

  const IVORY := Rgb(255, 253, 243)
  const NEAR_BLACK := Rgb(7, 1, 2)

  /** What the narrow band is made of: page, surface, and the two greys on either side of it. */
  lemma NarrowBounds(lin: Channel)
    requires Wcag(lin)
    ensures 0.98 < lin(253) < 0.99 && 0.89 < lin(243) < 0.9
    ensures lin(117) < 0.178206 && 0.1802 < lin(118)
  {
    hide Wcag;
    LinAbove(lin, 253, 0.992, 0.98);
    LinBelow(lin, 253, 0.993, 0.99);
    LinAbove(lin, 243, 0.955, 0.89);
    LinBelow(lin, 243, 0.956, 0.9);
    LinBelow(lin, 117, 0.48704, 0.178206);
    LinAbove(lin, 118, 0.4907, 0.1802);
  }

  lemma NarrowPage(lin: Channel)
    requires Wcag(lin) && Scale(lin)
    ensures 0.9777 <= Luminance(lin, IVORY) <= 0.98563
    ensures 0.00071262 <= Luminance(lin, NEAR_BLACK) <= 0.00071263
  {
    NarrowBounds(lin);
    LinearBelow(lin, 7);
    LinearBelow(lin, 1);
    LinearBelow(lin, 2);
    assert lin(255) == 1.0;
    hide Wcag, Scale;
  }

  /** Greys ascend across the gap: those up to 117 are too dark, those from 118 on too light. */
  lemma GreyAside(lin: Channel, level: Level)
    requires Wcag(lin)
    ensures if level <= 117 then lin(level) < 0.178206 else 0.1802 < lin(level)
  {
    if level <= 10 {
      LinearBelow(lin, level);
    } else if level <= 117 {
      BasesAscend(level, 117);
      hide Wcag;
      LinBelow(lin, level, 0.48704, 0.178206);
    } else {
      BasesAscend(118, level);
      hide Wcag;
      LinAbove(lin, level, 0.4907, 0.1802);
    }
  }

  lemma BasesAscend(a: Level, b: Level)
    requires a <= b
    ensures Base24(a) <= Base24(b)
  {
  }

  /** On an ivory page a near-black surface is usable, some luminance serves both, and yet no grey clears both. */
  lemma NarrowBandMissed(lin: Channel, base: Base)
    requires Wcag(lin) && Scale(lin) && base.background == IVORY
    ensures SurfaceIsUsable(lin, base, NEAR_BLACK)
    ensures forall level: Level :: !Clears(lin, Grey(level), [IVORY, NEAR_BLACK], AA_NORMAL)
  {
    NarrowPage(lin);
    UsableExactly(lin, base, NEAR_BLACK);
    var p, s := Luminance(lin, IVORY), Luminance(lin, NEAR_BLACK);
    ServesEither(p, s);
    hide Luminance, SurfaceIsUsable, Serves, Scale, Wcag, ContrastRatio;
    ServedExactly(s, p);
    forall level: Level ensures !Clears(lin, Grey(level), [IVORY, NEAR_BLACK], AA_NORMAL) {
      GreyMisses(lin, level);
    }
  }

  lemma GreyMisses(lin: Channel, level: Level)
    requires Wcag(lin) && Scale(lin)
    ensures !Clears(lin, Grey(level), [IVORY, NEAR_BLACK], AA_NORMAL)
  {
    NarrowPage(lin);
    GreyAside(lin, level);
    GreyLuminance(lin, level);
    LuminanceIs(lin, Grey(level));
    var l, p, s := lin(level), Luminance(lin, IVORY), Luminance(lin, NEAR_BLACK);
    assert 0.0 <= l <= 1.0;
    hide Luminance, Wcag, Ratio;
    RatioIs(l, p, 4.5);
    RatioIs(l, s, 4.5);
    assert AA_NORMAL == 4.5;
    var grounds := [IVORY, NEAR_BLACK];
    assert grounds[0] == IVORY && grounds[1] == NEAR_BLACK;
    assert ContrastRatio(lin, Grey(level), IVORY) == Ratio(l, p) && ContrastRatio(lin, Grey(level), NEAR_BLACK) == Ratio(l, s);
  }
}
