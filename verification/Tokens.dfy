/** Deriving a template's colours from a tenant's: the readability guard over every ground text can land on. */
module Tokens {
  import opened Contrast
  import opened Options

  /** The lightness walk; nothing below depends on what it returns. */
  type Ensurer = (Rgb, Rgb, real) -> Ensured

  datatype Base = Base(primary: Rgb, secondary: Rgb, background: Rgb, surface: Option<Rgb>, text: Rgb)

  datatype Ground = Ground(background: Rgb, surface: Option<Rgb>, text: Rgb)

  datatype Texts = Texts(text: Rgb, muted: Rgb, link: Rgb, accent: Rgb) {
    function All(): seq<Rgb> { [text, muted, link, accent] }
  }

  datatype Bands = Bands(deep: Rgb, tint: Rgb)

  datatype ColorTokens = ColorTokens(primary: Rgb, secondary: Rgb, background: Rgb, surface: Rgb, text: Rgb, onPrimary: Rgb,
                                     onSecondary: Rgb, surfaceAlt: Rgb, textMuted: Rgb, link: Rgb, accent: Rgb, border: Rgb,
                                     groundDeep: Rgb, groundTint: Rgb, dark: bool)

  function Blend(x: Level, y: Level, w: real): Level { Part(x as real * (1.0 - w) + y as real * w) }

  function Mix(a: Rgb, b: Rgb, weight: real): Rgb {
    var w := Unit(weight);
    Rgb(Blend(a.r, b.r, w), Blend(a.g, b.g, w), Blend(a.b, b.b, w))
  }

  lemma MixEnds(a: Rgb, b: Rgb)
    ensures Mix(a, b, 0.0) == a && Mix(a, b, 1.0) == b
  {
    BlendEnds(a.r, b.r);
    BlendEnds(a.g, b.g);
    BlendEnds(a.b, b.b);
    hide Blend;
  }

  lemma BlendEnds(x: Level, y: Level)
    ensures Blend(x, y, 0.0) == x && Blend(x, y, 1.0) == y
  {
    assert x as real * (1.0 - 0.0) + y as real * 0.0 == x as real;
    assert x as real * (1.0 - 1.0) + y as real * 1.0 == y as real;
    assert (x as real + 0.5).Floor == x && (y as real + 0.5).Floor == y;
  }

  /** A blend lies within half a level of the point `w` of the way from one channel to the other. */
  lemma BlendNear(x: Level, y: Level, w: real)
    requires 0.0 <= w <= 1.0
    ensures var exact := x as real + (y as real - x as real) * w;
      exact - 0.5 <= Blend(x, y, w) as real <= exact + 0.5
  {
    var exact := x as real + (y as real - x as real) * w;
    assert x as real * (1.0 - w) + y as real * w == exact;
    BlendBetween(x as real, y as real, w);
  }

  lemma BlendBetween(x: real, y: real, w: real)
    requires 0.0 <= x <= 255.0 && 0.0 <= y <= 255.0 && 0.0 <= w <= 1.0
    ensures 0.0 <= x * (1.0 - w) + y * w <= 255.0
  {
    NonNegative(x, 1.0 - w);
    NonNegative(y, w);
    NonNegative(255.0 - x, 1.0 - w);
    NonNegative(255.0 - y, w);
  }

  lemma NonNegative(x: real, y: real)
    requires x >= 0.0 && y >= 0.0
    ensures x * y >= 0.0
  {
  }

  // ------------------------------------------------------------------------------------------
  // Black or white on a filled surface
  // ------------------------------------------------------------------------------------------

  function ReadableOn(lin: Channel, background: Rgb): Rgb
    requires Scale(lin)
  {
    if ContrastRatio(lin, WHITE, background) >= ContrastRatio(lin, BLACK, background) then WHITE else BLACK
  }

  /** The better of black and white reaches at least the square root of 21 to 1, so 4.58 to 1, on any fill. */
  lemma ReadableFloor(lin: Channel, background: Rgb)
    requires Scale(lin)
    ensures var r := ContrastRatio(lin, ReadableOn(lin, background), background);
      r * r >= 21.0 && r >= 4.58
  {
    LuminanceIs(lin, background);
    var y := Luminance(lin, background);
    var w, b := ContrastRatio(lin, WHITE, background), ContrastRatio(lin, BLACK, background);
    assert w == 1.05 / (y + 0.05) && b == (y + 0.05) / 0.05;
    hide Luminance, ContrastRatio, Scale;
    ProductIs21(y + 0.05, w, b);
    if w >= b { Floor(w, b); } else { Floor(b, w); }
  }

  lemma ProductIs21(x: real, w: real, b: real)
    requires x > 0.0 && w == 1.05 / x && b == x / 0.05
    ensures w * b == 21.0 && w > 0.0 && b > 0.0
  {
    assert w * x == 1.05 && b * 0.05 == x;
    assert w * b * 0.05 == 1.05;
    Quotient(1.05, x, 0.0);
  }

  lemma Floor(high: real, low: real)
    requires high >= low > 0.0 && high * low == 21.0
    ensures high * high >= 21.0 && high >= 4.58
  {
    assert high * (high - low) >= 0.0;
    if high < 4.58 { Below(high); }
  }

  lemma Below(x: real)
    requires 0.0 < x < 4.58
    ensures x * x < 21.0
  {
    assert x * (4.58 - x) > 0.0;
  }

  // ------------------------------------------------------------------------------------------
  // Surfaces and grounds
  // ------------------------------------------------------------------------------------------

  function DefaultSurface(lin: Channel, base: Base): Rgb {
    if IsDark(lin, base.background) then Mix(base.background, WHITE, 0.07) else WHITE
  }

  /** The luminance intervals in which a colour clears the threshold against `target`. */
  function WindowsFor(luminance: real): seq<(real, real)> {
    var darkCeiling := (luminance + 0.05) / AA_NORMAL - 0.05;
    var lightFloor := AA_NORMAL * (luminance + 0.05) - 0.05;
    (if darkCeiling >= 0.0 then [(0.0, if darkCeiling < 1.0 then darkCeiling else 1.0)] else []) +
    (if lightFloor <= 1.0 then [(if lightFloor > 0.0 then lightFloor else 0.0, 1.0)] else [])
  }

  predicate Meet(a: (real, real), b: (real, real)) {
    (if a.0 > b.0 then a.0 else b.0) <= (if a.1 < b.1 then a.1 else b.1)
  }

  predicate SurfaceIsUsable(lin: Channel, base: Base, surface: Rgb) {
    var background, chosen := WindowsFor(Luminance(lin, base.background)), WindowsFor(Luminance(lin, surface));
    exists i :: 0 <= i < |background| && exists j :: 0 <= j < |chosen| && Meet(background[i], chosen[j])
  }

  predicate InWindow(l: real, w: (real, real)) { w.0 <= l <= w.1 }

  lemma WindowsExact(y: real, l: real)
    requires 0.0 <= y <= 1.0 && 0.0 <= l <= 1.0
    ensures Ratio(l, y) >= AA_NORMAL <==> exists i :: 0 <= i < |WindowsFor(y)| && InWindow(l, WindowsFor(y)[i])
  {
    var w := WindowsFor(y);
    RatioIs(l, y, 4.5);
    hide Ratio;
    assert AA_NORMAL == 4.5;
    if y + 0.05 >= 4.5 * (l + 0.05) {
      assert InWindow(l, w[0]);
    } else if l + 0.05 >= 4.5 * (y + 0.05) {
      assert InWindow(l, w[|w| - 1]);
    }
  }

  lemma WindowsInside(y: real)
    requires 0.0 <= y <= 1.0
    ensures forall i :: 0 <= i < |WindowsFor(y)| ==> 0.0 <= WindowsFor(y)[i].0 <= WindowsFor(y)[i].1 <= 1.0
  {
  }

  /** A luminance that clears the threshold against both. */
  ghost predicate Serves(l: real, a: real, b: real)
    requires a >= 0.0 && b >= 0.0
  {
    0.0 <= l <= 1.0 && Ratio(l, a) >= AA_NORMAL && Ratio(l, b) >= AA_NORMAL
  }

  /** A chosen surface is kept exactly when some luminance could carry body text on it and on the background. */
  lemma UsableExactly(lin: Channel, base: Base, surface: Rgb)
    requires Scale(lin)
    ensures Luminance(lin, base.background) >= 0.0 && Luminance(lin, surface) >= 0.0
    ensures SurfaceIsUsable(lin, base, surface) <==>
      exists l :: Serves(l, Luminance(lin, base.background), Luminance(lin, surface))
  {
    LuminanceIs(lin, base.background);
    LuminanceIs(lin, surface);
    var a, b := Luminance(lin, base.background), Luminance(lin, surface);
    WindowsInside(a);
    WindowsInside(b);
    hide WindowsFor, Luminance, Ratio, Scale;
    var wa, wb := WindowsFor(a), WindowsFor(b);
    if SurfaceIsUsable(lin, base, surface) {
      var i :| 0 <= i < |wa| && exists j :: 0 <= j < |wb| && Meet(wa[i], wb[j]);
      var j :| 0 <= j < |wb| && Meet(wa[i], wb[j]);
      var l := if wa[i].0 > wb[j].0 then wa[i].0 else wb[j].0;
      assert InWindow(l, wa[i]) && InWindow(l, wb[j]);
      WindowsExact(a, l);
      WindowsExact(b, l);
      assert Serves(l, a, b);
    }
    if exists l :: Serves(l, a, b) {
      var l :| Serves(l, a, b);
      WindowsExact(a, l);
      WindowsExact(b, l);
      var i :| 0 <= i < |wa| && InWindow(l, wa[i]);
      var j :| 0 <= j < |wb| && InWindow(l, wb[j]);
      assert Meet(wa[i], wb[j]);
    }
  }

  /** Two grounds can share a text colour exactly when both are light enough for black, both dark enough for white, or they
      lie so far apart that a tone between them does. */
  lemma ServedExactly(a: real, b: real)
    requires 0.0 <= a <= b <= 1.0
    ensures (exists l :: Serves(l, a, b)) <==> a >= 0.175 || 4.5 * (b + 0.05) <= 1.05 || 20.25 * (a + 0.05) <= b + 0.05
  {
    if a >= 0.175 {
      ServesIs(0.0, a, b);
      assert Serves(0.0, a, b);
    } else if 4.5 * (b + 0.05) <= 1.05 {
      ServesIs(1.0, a, b);
      assert Serves(1.0, a, b);
    } else if 20.25 * (a + 0.05) <= b + 0.05 {
      var l := 4.5 * (a + 0.05) - 0.05;
      ServesIs(l, a, b);
      assert Serves(l, a, b);
    } else {
      forall l ensures !Serves(l, a, b) {
        if 0.0 <= l <= 1.0 { ServesIs(l, a, b); }
      }
    }
  }

  lemma ServesIs(l: real, a: real, b: real)
    requires 0.0 <= l <= 1.0 && 0.0 <= a && 0.0 <= b
    ensures Serves(l, a, b) <==>
      (l + 0.05 >= 4.5 * (a + 0.05) || a + 0.05 >= 4.5 * (l + 0.05)) &&
      (l + 0.05 >= 4.5 * (b + 0.05) || b + 0.05 >= 4.5 * (l + 0.05))
  {
    RatioIs(l, a, 4.5);
    RatioIs(l, b, 4.5);
    hide Ratio;
    assert AA_NORMAL == 4.5;
  }

  lemma ServesEither(a: real, b: real)
    requires a >= 0.0 && b >= 0.0
    ensures (exists l :: Serves(l, a, b)) <==> exists l :: Serves(l, b, a)
  {
    forall l ensures Serves(l, a, b) <==> Serves(l, b, a) {
    }
  }

  /** The surface derived from a page is one text can share with it exactly when the page is light, or black clears both,
      or white does, or the two lie far apart. */
  lemma DefaultServedExactly(lin: Channel, base: Base)
    requires Scale(lin)
    ensures var y, d := Luminance(lin, base.background), Luminance(lin, DefaultSurface(lin, base));
      var low, high := if y <= d then y else d, if y <= d then d else y;
      0.0 <= low && 0.0 <= high &&
      ((exists l :: Serves(l, y, d)) <==>
        y >= 0.5 || low >= 0.175 || 4.5 * (high + 0.05) <= 1.05 || 20.25 * (low + 0.05) <= high + 0.05)
  {
    var d := DefaultSurface(lin, base);
    LuminanceIs(lin, base.background);
    LuminanceIs(lin, d);
    var y, z := Luminance(lin, base.background), Luminance(lin, d);
    assert y >= 0.5 ==> z == 1.0;
    hide Luminance, Scale, DefaultSurface, Serves;
    ServedExactly(if y <= z then y else z, if y <= z then z else y);
    ServesEither(y, z);
  }

  // ------------------------------------------------------------------------------------------
  // The guard
  // ------------------------------------------------------------------------------------------

  function WorstRatio(lin: Channel, candidate: Rgb, against: seq<Rgb>): real
    requires Scale(lin) && against != []
  {
    var last := ContrastRatio(lin, candidate, against[|against| - 1]);
    if |against| == 1 then last
    else
      var before := WorstRatio(lin, candidate, against[..|against| - 1]);
      if last < before then last else before
  }

  /** The first of the surfaces with the lowest contrast. */
  function WorstSurface(lin: Channel, current: Rgb, against: seq<Rgb>): Rgb
    requires Scale(lin) && against != []
  {
    if |against| == 1 then against[0]
    else
      var worst, target := WorstSurface(lin, current, against[..|against| - 1]), against[|against| - 1];
      if ContrastRatio(lin, current, target) < ContrastRatio(lin, current, worst) then target else worst
  }

  predicate Clears(lin: Channel, c: Rgb, against: seq<Rgb>, threshold: real)
    requires Scale(lin)
  {
    forall i :: 0 <= i < |against| ==> ContrastRatio(lin, c, against[i]) >= threshold
  }

  /** At most `attempts` adjustments, each against whichever surface is then worst. */
  function Adjusted(lin: Channel, ensure: Ensurer, color: Rgb, against: seq<Rgb>, threshold: real, attempts: nat): Rgb
    requires Scale(lin) && against != []
    decreases attempts
  {
    if attempts == 0 || WorstRatio(lin, color, against) >= threshold then color
    else
      var next := ensure(color, WorstSurface(lin, color, against), threshold).color;
      if next == color then color else Adjusted(lin, ensure, next, against, threshold, attempts - 1)
  }

  function Greys(n: nat): seq<Rgb>
    requires n <= 256
  {
    if n == 0 then [] else Greys(n - 1) + [Grey(n - 1)]
  }

  /** The first of the candidates whose worst ratio is highest. */
  function Winner(lin: Channel, candidates: seq<Rgb>, against: seq<Rgb>): Rgb
    requires Scale(lin) && against != [] && candidates != []
  {
    if |candidates| == 1 then candidates[0]
    else
      var winner, candidate := Winner(lin, candidates[..|candidates| - 1], against), candidates[|candidates| - 1];
      if WorstRatio(lin, candidate, against) > WorstRatio(lin, winner, against) then candidate else winner
  }

  function Guarded(lin: Channel, ensure: Ensurer, color: Rgb, against: seq<Rgb>, threshold: real): Rgb
    requires Scale(lin) && against != []
  {
    var current := Adjusted(lin, ensure, color, against, threshold, 6);
    if WorstRatio(lin, current, against) >= threshold then current else Winner(lin, [current] + Greys(256), against)
  }

  method Guard(lin: Channel, ensure: Ensurer, color: Rgb, against: seq<Rgb>, threshold: real) returns (r: Rgb)
    requires Scale(lin) && against != []
    ensures r == Guarded(lin, ensure, color, against, threshold)
  {
    hide WorstRatio, WorstSurface, Scale, Winner;
    var current := color;
    var attempt := 0;
    while attempt < 6
      invariant 0 <= attempt <= 6
      invariant Adjusted(lin, ensure, current, against, threshold, 6 - attempt) == Adjusted(lin, ensure, color, against, threshold, 6)
    {
      if WorstRatio(lin, current, against) >= threshold { return current; }
      var next := ensure(current, WorstSurface(lin, current, against), threshold).color;
      if next == current { break; }
      current := next;
      attempt := attempt + 1;
    }
    assert current == Adjusted(lin, ensure, color, against, threshold, 6);
    if WorstRatio(lin, current, against) >= threshold { return current; }
    var candidates := [current];
    var level := 0;
    while level <= 255
      invariant 0 <= level <= 256 && candidates == [current] + Greys(level)
    {
      candidates := candidates + [Grey(level)];
      level := level + 1;
    }
    r := Winner(lin, candidates, against);
  }

  lemma {:induction false} WorstIsMin(lin: Channel, c: Rgb, against: seq<Rgb>)
    requires Scale(lin) && against != []
    ensures forall i :: 0 <= i < |against| ==> WorstRatio(lin, c, against) <= ContrastRatio(lin, c, against[i])
    ensures exists i :: 0 <= i < |against| && WorstRatio(lin, c, against) == ContrastRatio(lin, c, against[i])
  {
    hide ContrastRatio, Scale;
    var n := |against| - 1;
    if n == 0 {
      assert WorstRatio(lin, c, against) == ContrastRatio(lin, c, against[0]);
    } else {
      WorstIsMin(lin, c, against[..n]);
      var i :| 0 <= i < n && WorstRatio(lin, c, against[..n]) == ContrastRatio(lin, c, against[..n][i]);
      assert WorstRatio(lin, c, against) == ContrastRatio(lin, c, against[n]) ||
        WorstRatio(lin, c, against) == ContrastRatio(lin, c, against[i]);
      forall k | 0 <= k < n ensures WorstRatio(lin, c, against[..n]) <= ContrastRatio(lin, c, against[k]) {
        assert against[..n][k] == against[k];
      }
    }
  }

  lemma ClearsByWorst(lin: Channel, c: Rgb, against: seq<Rgb>, threshold: real)
    requires Scale(lin) && against != []
    ensures Clears(lin, c, against, threshold) <==> WorstRatio(lin, c, against) >= threshold
  {
    WorstIsMin(lin, c, against);
    hide WorstRatio, ContrastRatio, Scale;
  }

  /** The surface adjusted against is one of them, and none is worse. */
  lemma {:induction false} WorstSurfaceIs(lin: Channel, c: Rgb, against: seq<Rgb>)
    requires Scale(lin) && against != []
    ensures WorstSurface(lin, c, against) in against
    ensures ContrastRatio(lin, c, WorstSurface(lin, c, against)) == WorstRatio(lin, c, against)
  {
    hide ContrastRatio, Scale;
    if |against| > 1 { WorstSurfaceIs(lin, c, against[..|against| - 1]); }
  }

  lemma {:induction false} WinnerIsBest(lin: Channel, candidates: seq<Rgb>, against: seq<Rgb>)
    requires Scale(lin) && against != [] && candidates != []
    ensures forall c :: c in candidates ==> WorstRatio(lin, c, against) <= WorstRatio(lin, Winner(lin, candidates, against), against)
    ensures Winner(lin, candidates, against) in candidates
  {
    hide WorstRatio, Scale;
    if |candidates| > 1 {
      var n := |candidates| - 1;
      WinnerIsBest(lin, candidates[..n], against);
      assert candidates == candidates[..n] + [candidates[n]];
    }
  }

  lemma {:induction false} GreysHold(n: nat, level: nat)
    requires level < n <= 256
    ensures Grey(level) in Greys(n)
  {
    if level < n - 1 { GreysHold(n - 1, level); }
  }

  /** The guard leaves a clearing colour alone. */
  lemma GuardKeepsGood(lin: Channel, ensure: Ensurer, color: Rgb, against: seq<Rgb>, threshold: real)
    requires Scale(lin) && against != [] && Clears(lin, color, against, threshold)
    ensures Guarded(lin, ensure, color, against, threshold) == color
  {
    ClearsByWorst(lin, color, against, threshold);
    hide WorstRatio, Clears, Scale, Winner;
  }

  /** Whatever the lightness walk returns: the guard's colour clears every surface if any grey does, and in any case falls
      short by no more than the best grey. */
  lemma GuardClears(lin: Channel, ensure: Ensurer, color: Rgb, against: seq<Rgb>, threshold: real, level: Level)
    requires Scale(lin) && against != []
    ensures var r := Guarded(lin, ensure, color, against, threshold);
      (Clears(lin, Grey(level), against, threshold) ==> Clears(lin, r, against, threshold)) &&
      (!Clears(lin, r, against, threshold) ==> WorstRatio(lin, Grey(level), against) <= WorstRatio(lin, r, against))
  {
    var r := Guarded(lin, ensure, color, against, threshold);
    ClearsByWorst(lin, Grey(level), against, threshold);
    ClearsByWorst(lin, r, against, threshold);
    hide WorstRatio, Clears, Adjusted, Greys, Scale, Winner;
    var current := Adjusted(lin, ensure, color, against, threshold, 6);
    GreysHold(256, level);
    WinnerIsBest(lin, [current] + Greys(256), against);
  }

  // ------------------------------------------------------------------------------------------
  // What the repair loop finds
  // ------------------------------------------------------------------------------------------

  /** The colour after `i` repairs, each of them the walk's answer to the surface that is then worst. */
  function Repaired(lin: Channel, ensure: Ensurer, color: Rgb, against: seq<Rgb>, threshold: real, i: nat): Rgb
    requires Scale(lin) && against != []
  {
    if i == 0 then color
    else
      var before := Repaired(lin, ensure, color, against, threshold, i - 1);
      ensure(before, WorstSurface(lin, before, against), threshold).color
  }

  /** The first `k` repairs each left the colour short of some surface, and each moved it. */
  ghost predicate StillMoving(lin: Channel, ensure: Ensurer, color: Rgb, against: seq<Rgb>, threshold: real, k: nat)
    requires Scale(lin) && against != []
  {
    forall i :: 0 <= i < k ==>
      !Clears(lin, Repaired(lin, ensure, color, against, threshold, i), against, threshold) &&
      Repaired(lin, ensure, color, against, threshold, i + 1) != Repaired(lin, ensure, color, against, threshold, i)
  }

  lemma {:induction false} AdjustedIs(lin: Channel, ensure: Ensurer, color: Rgb, against: seq<Rgb>, threshold: real, i: nat, attempts: nat)
    requires Scale(lin) && against != [] && StillMoving(lin, ensure, color, against, threshold, i)
    ensures Adjusted(lin, ensure, color, against, threshold, i + attempts) ==
      Adjusted(lin, ensure, Repaired(lin, ensure, color, against, threshold, i), against, threshold, attempts)
    decreases i
  {
    hide WorstRatio, WorstSurface, Clears, Scale;
    if i > 0 {
      AdjustedIs(lin, ensure, color, against, threshold, i - 1, attempts + 1);
      var before := Repaired(lin, ensure, color, against, threshold, i - 1);
      assert Repaired(lin, ensure, color, against, threshold, i - 1 + 1) != before;
      ClearsByWorst(lin, before, against, threshold);
    }
  }

  /** The guard returns the first repaired colour that clears every surface, if one does within six repairs. */
  lemma GuardRepairs(lin: Channel, ensure: Ensurer, color: Rgb, against: seq<Rgb>, threshold: real, k: nat)
    requires Scale(lin) && against != [] && k <= 6 && StillMoving(lin, ensure, color, against, threshold, k)
    requires Clears(lin, Repaired(lin, ensure, color, against, threshold, k), against, threshold)
    ensures Guarded(lin, ensure, color, against, threshold) == Repaired(lin, ensure, color, against, threshold, k)
  {
    hide WorstRatio, WorstSurface, Clears, Scale, Repaired, StillMoving, Winner;
    AdjustedIs(lin, ensure, color, against, threshold, k, 6 - k);
    ClearsByWorst(lin, Repaired(lin, ensure, color, against, threshold, k), against, threshold);
  }

  /** Otherwise, after the sixth repair or at one that does not move, it takes the best of the colour then reached and the
      greys, the first of them if several are equally good. */
  lemma GuardGivesUp(lin: Channel, ensure: Ensurer, color: Rgb, against: seq<Rgb>, threshold: real, k: nat)
    requires Scale(lin) && against != [] && k <= 6 && StillMoving(lin, ensure, color, against, threshold, k)
    requires !Clears(lin, Repaired(lin, ensure, color, against, threshold, k), against, threshold)
    requires k == 6 || Repaired(lin, ensure, color, against, threshold, k + 1) == Repaired(lin, ensure, color, against, threshold, k)
    ensures Guarded(lin, ensure, color, against, threshold) ==
      Winner(lin, [Repaired(lin, ensure, color, against, threshold, k)] + Greys(256), against)
  {
    hide WorstRatio, WorstSurface, Clears, Scale, StillMoving, Winner, Greys;
    AdjustedIs(lin, ensure, color, against, threshold, k, 6 - k);
    ClearsByWorst(lin, Repaired(lin, ensure, color, against, threshold, k), against, threshold);
  }

  /** One of the two always applies. */
  lemma {:induction false} GuardEnds(lin: Channel, ensure: Ensurer, color: Rgb, against: seq<Rgb>, threshold: real, i: nat) returns (k: nat)
    requires Scale(lin) && against != [] && i <= 6 && StillMoving(lin, ensure, color, against, threshold, i)
    ensures k <= 6 && StillMoving(lin, ensure, color, against, threshold, k)
    ensures Clears(lin, Repaired(lin, ensure, color, against, threshold, k), against, threshold) || k == 6 ||
      Repaired(lin, ensure, color, against, threshold, k + 1) == Repaired(lin, ensure, color, against, threshold, k)
    decreases 6 - i
  {
    hide Clears, Scale, Repaired;
    k := i;
    var here, there := Repaired(lin, ensure, color, against, threshold, i), Repaired(lin, ensure, color, against, threshold, i + 1);
    if i < 6 && !Clears(lin, here, against, threshold) && there != here {
      k := GuardEnds(lin, ensure, color, against, threshold, i + 1);
    }
  }

  /** A colour that is no repair of the input comes out only if none of the repairs made clears every surface. */
  lemma GreyOnlyThen(lin: Channel, ensure: Ensurer, color: Rgb, against: seq<Rgb>, threshold: real, k: nat)
    requires Scale(lin) && against != [] && k <= 6 && StillMoving(lin, ensure, color, against, threshold, k)
    requires forall i :: 0 <= i <= 6 ==> Guarded(lin, ensure, color, against, threshold) != Repaired(lin, ensure, color, against, threshold, i)
    ensures !Clears(lin, Repaired(lin, ensure, color, against, threshold, k), against, threshold)
  {
    hide Guarded, Clears, Scale, Repaired, StillMoving;
    if Clears(lin, Repaired(lin, ensure, color, against, threshold, k), against, threshold) {
      GuardRepairs(lin, ensure, color, against, threshold, k);
    }
  }

  /** The worst surface is the first of the lowest contrast. */
  lemma {:induction false} WorstSurfaceIsFirst(lin: Channel, c: Rgb, against: seq<Rgb>) returns (k: nat)
    requires Scale(lin) && against != []
    ensures k < |against| && WorstSurface(lin, c, against) == against[k]
    ensures forall i :: 0 <= i < |against| ==> ContrastRatio(lin, c, against[k]) <= ContrastRatio(lin, c, against[i])
    ensures forall i :: 0 <= i < k ==> ContrastRatio(lin, c, against[k]) < ContrastRatio(lin, c, against[i])
  {
    hide ContrastRatio, Scale;
    var n := |against| - 1;
    k := 0;
    if n > 0 {
      k := WorstSurfaceIsFirst(lin, c, against[..n]);
      assert forall i :: 0 <= i < n ==> against[..n][i] == against[i];
      if ContrastRatio(lin, c, against[n]) < ContrastRatio(lin, c, against[k]) { k := n; }
    }
  }

  /** The winner is the first of the best. */
  lemma {:induction false} WinnerIsFirst(lin: Channel, candidates: seq<Rgb>, against: seq<Rgb>) returns (k: nat)
    requires Scale(lin) && against != [] && candidates != []
    ensures k < |candidates| && Winner(lin, candidates, against) == candidates[k]
    ensures forall i :: 0 <= i < |candidates| ==> WorstRatio(lin, candidates[i], against) <= WorstRatio(lin, candidates[k], against)
    ensures forall i :: 0 <= i < k ==> WorstRatio(lin, candidates[i], against) < WorstRatio(lin, candidates[k], against)
  {
    hide WorstRatio, Scale;
    var n := |candidates| - 1;
    k := 0;
    if n > 0 {
      k := WinnerIsFirst(lin, candidates[..n], against);
      assert forall i :: 0 <= i < n ==> candidates[..n][i] == candidates[i];
      if WorstRatio(lin, candidates[n], against) > WorstRatio(lin, candidates[k], against) { k := n; }
    }
  }

  // ------------------------------------------------------------------------------------------
  // The bands
  // ------------------------------------------------------------------------------------------

  predicate DistinctBand(lin: Channel, background: Rgb, deep: Rgb, candidate: Rgb)
    requires Scale(lin)
  {
    ContrastRatio(lin, background, candidate) >= 1.26 && ContrastRatio(lin, deep, candidate) >= 1.18
  }

  function Up(base: Base, base0: real, step: nat): Rgb {
    var w := base0 + step as real * 0.025;
    Mix(base.background, base.primary, if w < 0.6 then w else 0.6)
  }

  function Down(base: Base, base0: real, step: nat): Rgb {
    var w := base0 - step as real * 0.02;
    Mix(base.background, base.primary, if w > 0.04 then w else 0.04)
  }

  function Tint(lin: Channel, base: Base, deep: Rgb, base0: real, step: nat): Rgb
    requires Scale(lin)
    decreases 15 - step
  {
    if step > 14 then Mix(base.background, base.primary, base0)
    else if DistinctBand(lin, base.background, deep, Up(base, base0, step)) then Up(base, base0, step)
    else if DistinctBand(lin, base.background, deep, Down(base, base0, step)) then Down(base, base0, step)
    else Tint(lin, base, deep, base0, step + 1)
  }

  function Base0(lin: Channel, base: Base): real { if IsDark(lin, base.background) then 0.28 else 0.18 }

  method TintFor(lin: Channel, base: Base, deep: Rgb) returns (r: Rgb)
    requires Scale(lin)
    ensures r == Tint(lin, base, deep, Base0(lin, base), 0)
  {
    hide DistinctBand, Scale, Up, Down;
    var base0 := Base0(lin, base);
    var step := 0;
    while step <= 14
      invariant 0 <= step <= 15
      invariant Tint(lin, base, deep, base0, step) == Tint(lin, base, deep, base0, 0)
    {
      var up := Up(base, base0, step);
      if DistinctBand(lin, base.background, deep, up) { return up; }
      var down := Down(base, base0, step);
      if DistinctBand(lin, base.background, deep, down) { return down; }
      step := step + 1;
    }
    r := Mix(base.background, base.primary, base0);
  }

  /** The tinted band is told apart from page and deep band whenever any of the thirty tints tried is. */
  lemma {:induction false} TintFound(lin: Channel, base: Base, deep: Rgb, base0: real, from: nat, step: nat)
    requires Scale(lin) && from <= step <= 14
    requires DistinctBand(lin, base.background, deep, Up(base, base0, step)) || DistinctBand(lin, base.background, deep, Down(base, base0, step))
    ensures DistinctBand(lin, base.background, deep, Tint(lin, base, deep, base0, from))
    decreases step - from
  {
    hide DistinctBand, Scale, Up, Down;
    if from < step { TintFound(lin, base, deep, base0, from + 1, step); }
  }

  /** Neither tint of the steps before `step` is distinct. */
  ghost predicate NoneDistinct(lin: Channel, base: Base, deep: Rgb, base0: real, from: nat, step: nat)
    requires Scale(lin)
  {
    forall i :: from <= i < step ==>
      !DistinctBand(lin, base.background, deep, Up(base, base0, i)) && !DistinctBand(lin, base.background, deep, Down(base, base0, i))
  }

  /** The tint chosen is the first distinct one, stronger before weaker at each step; the plain one if none is. */
  lemma {:induction false} TintIsFirst(lin: Channel, base: Base, deep: Rgb, base0: real, from: nat, step: nat)
    requires Scale(lin) && from <= step <= 15 && NoneDistinct(lin, base, deep, base0, from, step)
    ensures var up, down := Up(base, base0, step), Down(base, base0, step);
      var tint := Tint(lin, base, deep, base0, from);
      if step == 15 then tint == Mix(base.background, base.primary, base0)
      else if DistinctBand(lin, base.background, deep, up) then tint == up
      else DistinctBand(lin, base.background, deep, down) ==> tint == down
    decreases step - from
  {
    hide DistinctBand, Scale, Up, Down;
    if from < step { TintIsFirst(lin, base, deep, base0, from + 1, step); }
  }

  predicate AllClear(lin: Channel, colors: seq<Rgb>, ground: Rgb)
    requires Scale(lin)
  {
    forall i :: 0 <= i < |colors| ==> ContrastRatio(lin, colors[i], ground) >= AA_NORMAL
  }

  const STEPS := 8

  function GroundAt(base: Base, toward: Rgb, maxWeight: real, step: nat): Rgb {
    Mix(base.background, toward, maxWeight * (STEPS - step) as real / STEPS as real)
  }

  function Fit(lin: Channel, base: Base, texts: Texts, toward: Rgb, maxWeight: real, step: nat): Rgb
    requires Scale(lin)
    decreases STEPS + 1 - step
  {
    if step > STEPS then base.background
    else if AllClear(lin, texts.All(), GroundAt(base, toward, maxWeight, step)) then GroundAt(base, toward, maxWeight, step)
    else Fit(lin, base, texts, toward, maxWeight, step + 1)
  }

  method FitGround(lin: Channel, base: Base, texts: Texts, toward: Rgb, maxWeight: real) returns (r: Rgb)
    requires Scale(lin)
    ensures r == Fit(lin, base, texts, toward, maxWeight, 0)
  {
    hide AllClear, Scale, GroundAt;
    var step := 0;
    while step <= STEPS
      invariant 0 <= step <= STEPS + 1
      invariant Fit(lin, base, texts, toward, maxWeight, step) == Fit(lin, base, texts, toward, maxWeight, 0)
    {
      var ground := GroundAt(base, toward, maxWeight, step);
      if AllClear(lin, texts.All(), ground) { return ground; }
      step := step + 1;
    }
    r := base.background;
  }

  /** Given texts that clear the page itself, a shrunk band is one they all clear. */
  lemma {:induction false} FitClears(lin: Channel, base: Base, texts: Texts, toward: Rgb, maxWeight: real, step: nat)
    requires Scale(lin) && AllClear(lin, texts.All(), base.background)
    ensures AllClear(lin, texts.All(), Fit(lin, base, texts, toward, maxWeight, step))
    decreases STEPS + 1 - step
  {
    hide AllClear, Scale, GroundAt;
    if step <= STEPS { FitClears(lin, base, texts, toward, maxWeight, step + 1); }
  }

  /** The band kept is the strongest of the nine tried that every text clears. */
  lemma {:induction false} FitIsStrongest(lin: Channel, base: Base, texts: Texts, toward: Rgb, maxWeight: real, from: nat, step: nat)
    requires Scale(lin) && from <= step <= 8 && AllClear(lin, texts.All(), GroundAt(base, toward, maxWeight, step))
    requires forall i :: from <= i < step ==> !AllClear(lin, texts.All(), GroundAt(base, toward, maxWeight, i))
    ensures Fit(lin, base, texts, toward, maxWeight, from) == GroundAt(base, toward, maxWeight, step)
    decreases step - from
  {
    hide AllClear, Scale, GroundAt;
    if from < step { FitIsStrongest(lin, base, texts, toward, maxWeight, from + 1, step); }
  }

  /** The walk ends at the page: the last ground tried has weight zero. */
  lemma LastGround(base: Base, toward: Rgb, maxWeight: real)
    ensures GroundAt(base, toward, maxWeight, STEPS) == base.background
  {
    assert maxWeight * (STEPS - STEPS) as real / STEPS as real == 0.0;
    MixEnds(base.background, toward);
  }

  // ------------------------------------------------------------------------------------------
  // The token set
  // ------------------------------------------------------------------------------------------

  function Grounded(input: Base, groundOverride: Option<Ground>): Base {
    if groundOverride.None? then input
    else
      var g := groundOverride.value;
      input.(background := g.background, surface := g.surface, text := g.text)
  }

  function Surface(lin: Channel, base: Base): Rgb {
    var derived := DefaultSurface(lin, base);
    var chosen := if base.surface.Some? then base.surface.value else derived;
    if SurfaceIsUsable(lin, base, chosen) then chosen else derived
  }

  function SurfaceAlt(lin: Channel, base: Base): Rgb {
    Mix(Surface(lin, base), base.text, if IsDark(lin, base.background) then 0.08 else 0.05)
  }

  function DeepGround(lin: Channel, base: Base): Rgb {
    Mix(base.background, base.text, if IsDark(lin, base.background) then 0.15 else 0.14)
  }

  function FullBands(lin: Channel, base: Base): Bands
    requires Scale(lin)
  {
    var deep := DeepGround(lin, base);
    Bands(deep, Tint(lin, base, deep, Base0(lin, base), 0))
  }

  function DeriveText(lin: Channel, ensure: Ensurer, base: Base, against: seq<Rgb>): Texts
    requires Scale(lin) && against != []
  {
    Texts(Guarded(lin, ensure, base.text, against, AA_NORMAL),
      Guarded(lin, ensure, Mix(base.text, base.background, 0.42), against, AA_NORMAL),
      Guarded(lin, ensure, base.primary, against, AA_NORMAL),
      Guarded(lin, ensure, base.secondary, against, AA_NORMAL))
  }

  predicate ClearsAll(lin: Channel, texts: Texts, against: seq<Rgb>)
    requires Scale(lin)
  {
    forall i :: 0 <= i < |texts.All()| ==> Clears(lin, texts.All()[i], against, AA_NORMAL)
  }

  function Surfaces3(lin: Channel, base: Base): seq<Rgb> { [base.background, Surface(lin, base), SurfaceAlt(lin, base)] }

  function Surfaces5(lin: Channel, base: Base): seq<Rgb>
    requires Scale(lin)
  {
    Surfaces3(lin, base) + [FullBands(lin, base).deep, FullBands(lin, base).tint]
  }

  predicate BandsFit(lin: Channel, ensure: Ensurer, base: Base)
    requires Scale(lin)
  {
    ClearsAll(lin, DeriveText(lin, ensure, base, Surfaces5(lin, base)), Surfaces5(lin, base))
  }

  function TextsOf(lin: Channel, ensure: Ensurer, base: Base): Texts
    requires Scale(lin)
  {
    DeriveText(lin, ensure, base, if BandsFit(lin, ensure, base) then Surfaces5(lin, base) else Surfaces3(lin, base))
  }

  function BandsOf(lin: Channel, ensure: Ensurer, base: Base): Bands
    requires Scale(lin)
  {
    if BandsFit(lin, ensure, base) then FullBands(lin, base)
    else
      var texts, dark := TextsOf(lin, ensure, base), IsDark(lin, base.background);
      Bands(Fit(lin, base, texts, base.text, if dark then 0.085 else 0.07, 0),
        Fit(lin, base, texts, base.primary, if dark then 0.18 else 0.12, 0))
  }

  function DeriveColorTokens(lin: Channel, ensure: Ensurer, input: Base, groundOverride: Option<Ground>): ColorTokens
    requires Scale(lin)
  {
    var base := Grounded(input, groundOverride);
    var dark := IsDark(lin, base.background);
    var texts, bands := TextsOf(lin, ensure, base), BandsOf(lin, ensure, base);
    var rawBorder := Mix(base.text, base.background, if dark then 0.76 else 0.82);
    var border := ensure(rawBorder, base.background, AA_LARGE);
    ColorTokens(base.primary, base.secondary, base.background, Surface(lin, base), texts.text,
      ReadableOn(lin, base.primary), ReadableOn(lin, base.secondary), SurfaceAlt(lin, base), texts.muted, texts.link,
      texts.accent, if border.passes then border.color else Mix(base.text, base.background, 0.7), bands.deep, bands.tint, dark)
  }

  lemma DeriveTextClears(lin: Channel, ensure: Ensurer, base: Base, against: seq<Rgb>, level: Level)
    requires Scale(lin) && against != [] && Clears(lin, Grey(level), against, AA_NORMAL)
    ensures ClearsAll(lin, DeriveText(lin, ensure, base, against), against)
  {
    hide Clears, Guarded, Scale, Mix;
    GuardClears(lin, ensure, base.text, against, AA_NORMAL, level);
    GuardClears(lin, ensure, Mix(base.text, base.background, 0.42), against, AA_NORMAL, level);
    GuardClears(lin, ensure, base.primary, against, AA_NORMAL, level);
    GuardClears(lin, ensure, base.secondary, against, AA_NORMAL, level);
  }

  lemma BandsClear(lin: Channel, ensure: Ensurer, base: Base)
    requires Scale(lin) && ClearsAll(lin, DeriveText(lin, ensure, base, Surfaces3(lin, base)), Surfaces3(lin, base))
    ensures var texts, bands := TextsOf(lin, ensure, base), BandsOf(lin, ensure, base);
      ClearsAll(lin, texts, Surfaces3(lin, base)) && AllClear(lin, texts.All(), bands.deep) && AllClear(lin, texts.All(), bands.tint)
  {
    var three, five := Surfaces3(lin, base), Surfaces5(lin, base);
    assert three[0] == base.background && five[..3] == three;
    if BandsFit(lin, ensure, base) {
      hide DeriveText, Scale, ContrastRatio, Fit, Surfaces3, FullBands;
      PartOfFive(lin, TextsOf(lin, ensure, base), three, FullBands(lin, base));
    } else {
      hide DeriveText, Scale, ContrastRatio, Surfaces3, Surfaces5, BandsFit, Fit;
      var texts, dark := TextsOf(lin, ensure, base), IsDark(lin, base.background);
      OnGround(lin, texts, three, 0);
      FitClears(lin, base, texts, base.text, if dark then 0.085 else 0.07, 0);
      FitClears(lin, base, texts, base.primary, if dark then 0.18 else 0.12, 0);
    }
  }

  lemma OnGround(lin: Channel, texts: Texts, against: seq<Rgb>, i: nat)
    requires Scale(lin) && ClearsAll(lin, texts, against) && i < |against|
    ensures AllClear(lin, texts.All(), against[i])
  {
    hide Scale, ContrastRatio;
    forall k | 0 <= k < |texts.All()| ensures ContrastRatio(lin, texts.All()[k], against[i]) >= AA_NORMAL {
      assert Clears(lin, texts.All()[k], against, AA_NORMAL);
    }
  }

  lemma PartOfFive(lin: Channel, texts: Texts, three: seq<Rgb>, bands: Bands)
    requires Scale(lin) && ClearsAll(lin, texts, three + [bands.deep, bands.tint])
    ensures ClearsAll(lin, texts, three) && AllClear(lin, texts.All(), bands.deep) && AllClear(lin, texts.All(), bands.tint)
  {
    hide Scale, ContrastRatio;
    var five := three + [bands.deep, bands.tint];
    OnGround(lin, texts, five, |three|);
    OnGround(lin, texts, five, |three| + 1);
    forall k | 0 <= k < |texts.All()| ensures Clears(lin, texts.All()[k], three, AA_NORMAL) {
      assert Clears(lin, texts.All()[k], five, AA_NORMAL);
      forall i | 0 <= i < |three| ensures ContrastRatio(lin, texts.All()[k], three[i]) >= AA_NORMAL {
        assert five[i] == three[i];
      }
    }
  }

  /** Text, muted text, links and accents each clear 4.5 to 1 on all five grounds. */
  ghost predicate Readable(lin: Channel, t: ColorTokens)
    requires Scale(lin)
  {
    forall c, ground | c in [t.text, t.textMuted, t.link, t.accent] &&
      ground in [t.background, t.surface, t.surfaceAlt, t.groundDeep, t.groundTint] ::
      ContrastRatio(lin, c, ground) >= AA_NORMAL
  }

  lemma TokensReadable(lin: Channel, ensure: Ensurer, input: Base, groundOverride: Option<Ground>)
    requires Scale(lin)
    requires var base := Grounded(input, groundOverride);
      ClearsAll(lin, DeriveText(lin, ensure, base, Surfaces3(lin, base)), Surfaces3(lin, base))
    ensures Readable(lin, DeriveColorTokens(lin, ensure, input, groundOverride))
  {
    var base := Grounded(input, groundOverride);
    BandsClear(lin, ensure, base);
    var texts := TextsOf(lin, ensure, base);
    assert Surfaces3(lin, base) == [base.background, Surface(lin, base), SurfaceAlt(lin, base)];
    hide TextsOf, BandsOf, Scale, ContrastRatio, Surface, SurfaceAlt, Clears, AllClear, ClearsAll, Surfaces3, DeriveText;
    ReadableOn3(lin, texts, [base.background, Surface(lin, base), SurfaceAlt(lin, base)]);
    ReadableOn2(lin, texts, BandsOf(lin, ensure, base));
  }

  /** If some grey clears 4.5 to 1 on the page, the card surface and its alternate, then text, muted text, links and
      accents each clear it on all five grounds that are returned, whether or not the full bands fitted. */
  lemma EveryTextReadable(lin: Channel, ensure: Ensurer, input: Base, groundOverride: Option<Ground>, level: Level)
    requires Scale(lin)
    requires var base := Grounded(input, groundOverride); Clears(lin, Grey(level), Surfaces3(lin, base), AA_NORMAL)
    ensures var t := DeriveColorTokens(lin, ensure, input, groundOverride);
      forall c, ground | c in [t.text, t.textMuted, t.link, t.accent] &&
        ground in [t.background, t.surface, t.surfaceAlt, t.groundDeep, t.groundTint] ::
        ContrastRatio(lin, c, ground) >= AA_NORMAL
  {
    var base := Grounded(input, groundOverride);
    DeriveTextClears(lin, ensure, base, Surfaces3(lin, base), level);
    hide DeriveColorTokens, DeriveText, Scale, ContrastRatio, Surfaces3, ClearsAll, Clears;
    TokensReadable(lin, ensure, input, groundOverride);
    assert Readable(lin, DeriveColorTokens(lin, ensure, input, groundOverride));
  }

  // ------------------------------------------------------------------------------------------
  // Exactly when the texts are readable, whatever the lightness walk
  // ------------------------------------------------------------------------------------------

  /** The four colours before the guard. */
  function Raw(base: Base): Texts { Texts(base.text, Mix(base.text, base.background, 0.42), base.primary, base.secondary) }

  /** A walk that gives every colour back. */
  function Unmoved(): Ensurer { (color, background, target) => Ensured(color, 0.0, false, false) }

  lemma {:induction false} GreysAre(n: nat)
    requires n <= 256
    ensures forall c :: c in Greys(n) ==> exists level: Level :: c == Grey(level)
  {
    if n > 0 { GreysAre(n - 1); }
  }

  /** Without a walk the guard can only choose between the colour and the greys. */
  lemma UnmovedChoice(lin: Channel, color: Rgb, against: seq<Rgb>)
    requires Scale(lin) && against != []
    ensures var r := Guarded(lin, Unmoved(), color, against, AA_NORMAL); r == color || exists level: Level :: r == Grey(level)
  {
    GreysAre(256);
    assert Adjusted(lin, Unmoved(), color, against, AA_NORMAL, 6) == color;
    hide Scale, WorstRatio, Winner, Greys, Adjusted;
    WinnerIsBest(lin, [color] + Greys(256), against);
  }

  lemma RawKept(lin: Channel, ensure: Ensurer, base: Base, against: seq<Rgb>)
    requires Scale(lin) && against != [] && ClearsAll(lin, Raw(base), against)
    ensures DeriveText(lin, ensure, base, against) == Raw(base)
  {
    var raw := Raw(base);
    FourClear(lin, raw, against);
    hide Scale, Clears, Guarded, Mix;
    GuardKeepsGood(lin, ensure, raw.text, against, AA_NORMAL);
    GuardKeepsGood(lin, ensure, raw.muted, against, AA_NORMAL);
    GuardKeepsGood(lin, ensure, raw.link, against, AA_NORMAL);
    GuardKeepsGood(lin, ensure, raw.accent, against, AA_NORMAL);
  }

  /** No grey and not all raw colours clear the three: some token does not. */
  lemma UnmovedFails(lin: Channel, base: Base, against: seq<Rgb>)
    requires Scale(lin) && against != []
    requires (forall level: Level :: !Clears(lin, Grey(level), Surfaces3(lin, base), AA_NORMAL))
    requires !ClearsAll(lin, Raw(base), Surfaces3(lin, base))
    ensures !ClearsAll(lin, DeriveText(lin, Unmoved(), base, against), Surfaces3(lin, base))
  {
    var raw, three := Raw(base), Surfaces3(lin, base);
    hide Scale, Clears, Guarded, Mix, Surfaces3, Unmoved;
    StillFails(lin, raw.text, against, three);
    StillFails(lin, raw.muted, against, three);
    StillFails(lin, raw.link, against, three);
    StillFails(lin, raw.accent, against, three);
    var texts := DeriveText(lin, Unmoved(), base, against);
    FourClear(lin, raw, three);
    FourClear(lin, texts, three);
  }

  lemma FourClear(lin: Channel, texts: Texts, against: seq<Rgb>)
    requires Scale(lin)
    ensures ClearsAll(lin, texts, against) <==>
      Clears(lin, texts.text, against, AA_NORMAL) && Clears(lin, texts.muted, against, AA_NORMAL) &&
      Clears(lin, texts.link, against, AA_NORMAL) && Clears(lin, texts.accent, against, AA_NORMAL)
  {
    hide Scale, Clears;
    var all := texts.All();
    assert all[0] == texts.text && all[1] == texts.muted && all[2] == texts.link && all[3] == texts.accent;
  }

  lemma StillFails(lin: Channel, color: Rgb, against: seq<Rgb>, three: seq<Rgb>)
    requires Scale(lin) && against != []
    requires forall level: Level :: !Clears(lin, Grey(level), three, AA_NORMAL)
    ensures !Clears(lin, color, three, AA_NORMAL) ==> !Clears(lin, Guarded(lin, Unmoved(), color, against, AA_NORMAL), three, AA_NORMAL)
  {
    hide Scale, Clears, Guarded, Unmoved;
    UnmovedChoice(lin, color, against);
  }

  lemma ReadableClears(lin: Channel, ensure: Ensurer, input: Base, groundOverride: Option<Ground>)
    requires Scale(lin) && Readable(lin, DeriveColorTokens(lin, ensure, input, groundOverride))
    ensures var base := Grounded(input, groundOverride); ClearsAll(lin, TextsOf(lin, ensure, base), Surfaces3(lin, base))
  {
    var base := Grounded(input, groundOverride);
    var t := DeriveColorTokens(lin, ensure, input, groundOverride);
    var texts, three := TextsOf(lin, ensure, base), Surfaces3(lin, base);
    assert three == [t.background, t.surface, t.surfaceAlt] && texts.All() == [t.text, t.textMuted, t.link, t.accent];
    hide Scale, ContrastRatio, TextsOf, BandsOf, Surface, SurfaceAlt, Surfaces3, DeriveColorTokens;
    forall i | 0 <= i < 4 ensures Clears(lin, texts.All()[i], three, AA_NORMAL) {
      forall j | 0 <= j < 3 ensures ContrastRatio(lin, texts.All()[i], three[j]) >= AA_NORMAL {
        assert texts.All()[i] in [t.text, t.textMuted, t.link, t.accent];
        assert three[j] in [t.background, t.surface, t.surfaceAlt, t.groundDeep, t.groundTint];
      }
    }
  }

  /** The texts are readable for every lightness walk if and only if some grey clears 4.5 to 1 on page, surface and
      alternate, or the four colours clear them as they are. */
  lemma ReadableExactly(lin: Channel, input: Base, groundOverride: Option<Ground>)
    requires Scale(lin)
    ensures var base := Grounded(input, groundOverride); var three := Surfaces3(lin, base);
      (forall ensure: Ensurer :: Readable(lin, DeriveColorTokens(lin, ensure, input, groundOverride))) <==>
      (exists level: Level :: Clears(lin, Grey(level), three, AA_NORMAL)) || ClearsAll(lin, Raw(base), three)
  {
    var base := Grounded(input, groundOverride);
    var three := Surfaces3(lin, base);
    assert three != [] && Surfaces5(lin, base) != [];
    hide Surfaces5, Scale, DeriveColorTokens, Readable, Clears, ClearsAll, DeriveText, Raw, Surfaces3, BandsFit;
    if ClearsAll(lin, Raw(base), three) {
      forall ensure: Ensurer ensures Readable(lin, DeriveColorTokens(lin, ensure, input, groundOverride)) {
        RawKept(lin, ensure, base, three);
        TokensReadable(lin, ensure, input, groundOverride);
      }
    } else if level: Level :| Clears(lin, Grey(level), three, AA_NORMAL) {
      forall ensure: Ensurer ensures Readable(lin, DeriveColorTokens(lin, ensure, input, groundOverride)) {
        DeriveTextClears(lin, ensure, base, three, level);
        TokensReadable(lin, ensure, input, groundOverride);
      }
    } else {
      UnmovedFails(lin, base, three);
      UnmovedFails(lin, base, Surfaces5(lin, base));
      if Readable(lin, DeriveColorTokens(lin, Unmoved(), input, groundOverride)) {
        ReadableClears(lin, Unmoved(), input, groundOverride);
      }
      assert !Readable(lin, DeriveColorTokens(lin, Unmoved(), input, groundOverride));
    }
  }

  lemma ReadableOn3(lin: Channel, texts: Texts, grounds: seq<Rgb>)
    requires Scale(lin) && ClearsAll(lin, texts, grounds)
    ensures forall c, g | c in texts.All() && g in grounds :: ContrastRatio(lin, c, g) >= AA_NORMAL
  {
    hide Scale, ContrastRatio;
    forall c, g | c in texts.All() && g in grounds ensures ContrastRatio(lin, c, g) >= AA_NORMAL {
      var i :| 0 <= i < |texts.All()| && texts.All()[i] == c;
      assert Clears(lin, texts.All()[i], grounds, AA_NORMAL);
    }
  }

  lemma ReadableOn2(lin: Channel, texts: Texts, bands: Bands)
    requires Scale(lin) && AllClear(lin, texts.All(), bands.deep) && AllClear(lin, texts.All(), bands.tint)
    ensures forall c, g | c in texts.All() && g in [bands.deep, bands.tint] :: ContrastRatio(lin, c, g) >= AA_NORMAL
  {
    hide Scale, ContrastRatio;
  }

  /** Button labels clear AA on the tenant's own brand colours, which pass through untouched. */
  lemma LabelsReadable(lin: Channel, ensure: Ensurer, input: Base, groundOverride: Option<Ground>)
    requires Scale(lin)
    ensures var t := DeriveColorTokens(lin, ensure, input, groundOverride);
      t.primary == input.primary && t.secondary == input.secondary &&
      ContrastRatio(lin, t.onPrimary, input.primary) >= 4.58 && ContrastRatio(lin, t.onSecondary, input.secondary) >= 4.58
  {
    ReadableFloor(lin, input.primary);
    ReadableFloor(lin, input.secondary);
    hide TextsOf, BandsOf, Scale, ContrastRatio, Surface, SurfaceAlt, ReadableOn;
  }

  /** A surface the tenant chose is kept exactly when some luminance serves it and the page, or when it is the default. */
  lemma ChosenSurfaceKept(lin: Channel, ensure: Ensurer, input: Base)
    requires Scale(lin) && input.surface.Some?
    ensures Luminance(lin, input.background) >= 0.0 && Luminance(lin, input.surface.value) >= 0.0
    ensures DeriveColorTokens(lin, ensure, input, None).surface == input.surface.value <==>
      (exists l :: Serves(l, Luminance(lin, input.background), Luminance(lin, input.surface.value))) ||
      input.surface.value == DefaultSurface(lin, input)
  {
    UsableExactly(lin, input, input.surface.value);
    hide TextsOf, BandsOf, Scale, ContrastRatio, SurfaceAlt, ReadableOn, SurfaceIsUsable, Serves, Luminance;
  }

  /** A colour that clears all five full-strength grounds comes out as the merchant chose it. */
  lemma GoodColorsKept(lin: Channel, ensure: Ensurer, input: Base, groundOverride: Option<Ground>)
    requires Scale(lin)
    ensures var base := Grounded(input, groundOverride); var five := Surfaces5(lin, base);
      var t := DeriveColorTokens(lin, ensure, input, groundOverride);
      (Clears(lin, base.text, five, AA_NORMAL) ==> t.text == base.text) &&
      (Clears(lin, base.primary, five, AA_NORMAL) ==> t.link == base.primary) &&
      (Clears(lin, base.secondary, five, AA_NORMAL) ==> t.accent == base.secondary)
  {
    var base := Grounded(input, groundOverride);
    hide Scale, ContrastRatio, Guarded, Surface, SurfaceAlt, FullBands, BandsOf, ReadableOn;
    KeptIfGood(lin, ensure, base, base.text);
    KeptIfGood(lin, ensure, base, base.primary);
    KeptIfGood(lin, ensure, base, base.secondary);
    hide Clears, BandsFit, Surfaces3, Surfaces5;
  }

  lemma KeptIfGood(lin: Channel, ensure: Ensurer, base: Base, color: Rgb)
    requires Scale(lin)
    ensures Clears(lin, color, Surfaces5(lin, base), AA_NORMAL) ==>
      Guarded(lin, ensure, color, Surfaces5(lin, base), AA_NORMAL) == color &&
      Guarded(lin, ensure, color, Surfaces3(lin, base), AA_NORMAL) == color
  {
    hide Scale, ContrastRatio, Guarded, Surface, SurfaceAlt, FullBands;
    var three, five := Surfaces3(lin, base), Surfaces5(lin, base);
    if Clears(lin, color, five, AA_NORMAL) {
      assert forall i :: 0 <= i < |three| ==> three[i] == five[i];
      GuardKeepsGood(lin, ensure, color, five, AA_NORMAL);
      GuardKeepsGood(lin, ensure, color, three, AA_NORMAL);
    }
  }

  /** When the full bands fit, the tinted one is told apart from the page and from the deep one, if any tint tried is. */
  lemma BandsDistinct(lin: Channel, ensure: Ensurer, input: Base, groundOverride: Option<Ground>, step: nat)
    requires Scale(lin) && step <= 14
    requires var base := Grounded(input, groundOverride); var up, down := Up(base, Base0(lin, base), step), Down(base, Base0(lin, base), step);
      BandsFit(lin, ensure, base) &&
      ((ContrastRatio(lin, base.background, up) >= 1.26 && ContrastRatio(lin, DeepGround(lin, base), up) >= 1.18) ||
       (ContrastRatio(lin, base.background, down) >= 1.26 && ContrastRatio(lin, DeepGround(lin, base), down) >= 1.18))
    ensures var t := DeriveColorTokens(lin, ensure, input, groundOverride);
      ContrastRatio(lin, t.background, t.groundTint) >= 1.26 && ContrastRatio(lin, t.groundDeep, t.groundTint) >= 1.18
  {
    var base := Grounded(input, groundOverride);
    hide Scale, ContrastRatio, BandsFit, TextsOf, Up, Down, DeepGround, Surface, SurfaceAlt, ReadableOn;
    TintFound(lin, base, DeepGround(lin, base), Base0(lin, base), 0, step);
    hide Tint;
  }

  /** A ground override replaces page, surface and text, and nothing else: the tokens are those of a tenant who chose them,
      on the override's page, with its text wherever that is readable. */
  lemma OverrideReaches(lin: Channel, ensure: Ensurer, input: Base, ground: Ground)
    requires Scale(lin)
    ensures var chosen := Base(input.primary, input.secondary, ground.background, ground.surface, ground.text);
      var t := DeriveColorTokens(lin, ensure, input, Some(ground));
      t == DeriveColorTokens(lin, ensure, chosen, None) && t.background == ground.background &&
      t.primary == input.primary && t.secondary == input.secondary &&
      (Clears(lin, ground.text, Surfaces5(lin, chosen), AA_NORMAL) ==> t.text == ground.text) &&
      (ground.surface.Some? && SurfaceIsUsable(lin, chosen, ground.surface.value) ==> t.surface == ground.surface.value)
    ensures DeriveColorTokens(lin, ensure, input, None).background == input.background
  {
    var chosen := Base(input.primary, input.secondary, ground.background, ground.surface, ground.text);
    GoodColorsKept(lin, ensure, chosen, None);
    hide TextsOf, BandsOf, Scale, ContrastRatio, SurfaceAlt, ReadableOn, Clears, SurfaceIsUsable, Surfaces5;
  }

  /** With a walk that reports truly, the border clears 3 to 1 on the page whenever the walk can rescue every colour there,
      and is otherwise at worst a blend of text and page. */
  lemma BorderClears(lin: Channel, ensure: Ensurer, input: Base)
    requires Scale(lin)
    requires forall c: Rgb :: ensure(c, input.background, AA_LARGE).passes ==>
      ContrastRatio(lin, ensure(c, input.background, AA_LARGE).color, input.background) >= AA_LARGE
    ensures var t := DeriveColorTokens(lin, ensure, input, None);
      ContrastRatio(lin, t.border, t.background) >= AA_LARGE || t.border == Mix(input.text, input.background, 0.7)
    ensures (forall c: Rgb :: ensure(c, input.background, AA_LARGE).passes) ==>
      var t := DeriveColorTokens(lin, ensure, input, None); ContrastRatio(lin, t.border, t.background) >= AA_LARGE
  {
    hide TextsOf, BandsOf, Scale, ContrastRatio, Surface, SurfaceAlt, ReadableOn, Mix;
  }

  // ------------------------------------------------------------------------------------------
  // The strengths of what is derived
  // ------------------------------------------------------------------------------------------

  /** The thirty tints, in thousandths of the way to the primary colour: from 18 hundredths on a light page and 28 on a dark
      one, up by 25 a step to at most 600 and down by 20 to at least 40. */
  lemma TintsTried(lin: Channel, base: Base, k: nat)
    requires k <= 14
    ensures var dark := Luminance(lin, base.background) < 0.5;
      var up := if !dark then 180 + 25 * k else if k <= 12 then 280 + 25 * k else 600;
      var down := if dark && k <= 12 then 280 - 20 * k else if !dark && k <= 7 then 180 - 20 * k else 40;
      && Up(base, Base0(lin, base), k) == Mix(base.background, base.primary, up as real / 1000.0)
      && Down(base, Base0(lin, base), k) == Mix(base.background, base.primary, down as real / 1000.0)
  {
    hide Mix, Luminance;
    assert k as real * 0.025 == (25 * k) as real / 1000.0 && k as real * 0.02 == (20 * k) as real / 1000.0;
  }

  ghost predicate ClearEach(lin: Channel, colors: seq<Rgb>, grounds: seq<Rgb>)
    requires Scale(lin)
  {
    forall i :: 0 <= i < |colors| ==> Clears(lin, colors[i], grounds, AA_NORMAL)
  }

  /** A palette whose text, muted text, primary and secondary colours are readable on all the grounds mixed for it gets
      exactly those mixtures and those colours. */
  lemma DesignedPalette(lin: Channel, ensure: Ensurer, input: Base, k: nat)
    requires Scale(lin) && k <= 14
    requires var deep := Mix(input.background, input.text, if Luminance(lin, input.background) < 0.5 then 0.15 else 0.14);
      NoneDistinct(lin, input, deep, Base0(lin, input), 0, k) && DistinctBand(lin, input.background, deep, Up(input, Base0(lin, input), k))
    ensures var dark := Luminance(lin, input.background) < 0.5;
      var t := DeriveColorTokens(lin, ensure, input, None);
      var deep := Mix(input.background, input.text, if dark then 0.15 else 0.14);
      var alternate := Mix(t.surface, input.text, if dark then 0.08 else 0.05);
      var tint, muted := Up(input, Base0(lin, input), k), Mix(input.text, input.background, 0.42);
      && t.surfaceAlt == alternate && (t.dark <==> dark)
      && (ClearEach(lin, [input.text, muted, input.primary, input.secondary], [input.background, t.surface, alternate, deep, tint]) ==>
           && t.text == input.text && t.textMuted == muted && t.link == input.primary && t.accent == input.secondary
           && t.groundDeep == deep && t.groundTint == tint)
  {
    hide Up, Mix, Scale, Luminance, DistinctBand, Surface, Clears, NoneDistinct, DeriveColorTokens, Surfaces5, FullBands, ClearEach, Base0;
    FullGrounds(lin, input, k);
    UnguardedFields(lin, ensure, input);
    if ClearEach(lin, [input.text, Mix(input.text, input.background, 0.42), input.primary, input.secondary], Surfaces5(lin, input)) {
      EachClears(lin, input.text, Mix(input.text, input.background, 0.42), input.primary, input.secondary, Surfaces5(lin, input));
      AllKept(lin, ensure, input);
    }
    hide TextsOf, BandsOf;
  }

  lemma EachClears(lin: Channel, a: Rgb, b: Rgb, c: Rgb, d: Rgb, grounds: seq<Rgb>)
    requires Scale(lin) && ClearEach(lin, [a, b, c, d], grounds)
    ensures Clears(lin, a, grounds, AA_NORMAL) && Clears(lin, b, grounds, AA_NORMAL)
    ensures Clears(lin, c, grounds, AA_NORMAL) && Clears(lin, d, grounds, AA_NORMAL)
  {
    hide Clears, Scale;
    var all := [a, b, c, d];
    assert Clears(lin, all[0], grounds, AA_NORMAL) && Clears(lin, all[1], grounds, AA_NORMAL);
    assert Clears(lin, all[2], grounds, AA_NORMAL) && Clears(lin, all[3], grounds, AA_NORMAL);
  }

  /** What is mixed for a palette before anything is guarded. */
  lemma FullGrounds(lin: Channel, base: Base, k: nat)
    requires Scale(lin) && k <= 14
    requires var deep := Mix(base.background, base.text, if Luminance(lin, base.background) < 0.5 then 0.15 else 0.14);
      NoneDistinct(lin, base, deep, Base0(lin, base), 0, k) && DistinctBand(lin, base.background, deep, Up(base, Base0(lin, base), k))
    ensures var dark, tint := Luminance(lin, base.background) < 0.5, Up(base, Base0(lin, base), k);
      var deep := Mix(base.background, base.text, if dark then 0.15 else 0.14);
      && FullBands(lin, base) == Bands(deep, tint)
      && SurfaceAlt(lin, base) == Mix(Surface(lin, base), base.text, if dark then 0.08 else 0.05)
      && Surfaces5(lin, base) == [base.background, Surface(lin, base), SurfaceAlt(lin, base), deep, tint]
  {
    hide Up, Mix, Scale, Luminance, DistinctBand, Tint, Surface, NoneDistinct, Base0;
    TintIsFirst(lin, base, DeepGround(lin, base), Base0(lin, base), 0, k);
  }

  lemma UnguardedFields(lin: Channel, ensure: Ensurer, input: Base)
    requires Scale(lin)
    ensures var t := DeriveColorTokens(lin, ensure, input, None);
      && t.surface == Surface(lin, input) && t.surfaceAlt == SurfaceAlt(lin, input) && (t.dark <==> Luminance(lin, input.background) < 0.5)
      && t.text == TextsOf(lin, ensure, input).text && t.textMuted == TextsOf(lin, ensure, input).muted
      && t.link == TextsOf(lin, ensure, input).link && t.accent == TextsOf(lin, ensure, input).accent
      && t.groundDeep == BandsOf(lin, ensure, input).deep && t.groundTint == BandsOf(lin, ensure, input).tint
  {
    hide Mix, Scale, Luminance, Surface, SurfaceAlt, TextsOf, BandsOf, ReadableOn;
  }

  lemma AllKept(lin: Channel, ensure: Ensurer, base: Base)
    requires Scale(lin)
    requires var five := Surfaces5(lin, base);
      && Clears(lin, base.text, five, AA_NORMAL) && Clears(lin, Mix(base.text, base.background, 0.42), five, AA_NORMAL)
      && Clears(lin, base.primary, five, AA_NORMAL) && Clears(lin, base.secondary, five, AA_NORMAL)
    ensures TextsOf(lin, ensure, base) == Texts(base.text, Mix(base.text, base.background, 0.42), base.primary, base.secondary)
    ensures BandsOf(lin, ensure, base) == FullBands(lin, base)
  {
    hide Mix, Scale, Surfaces5, Surfaces3, Guarded, Clears, FullBands, Fit;
    KeptIfGood(lin, ensure, base, base.text);
    KeptIfGood(lin, ensure, base, Mix(base.text, base.background, 0.42));
    KeptIfGood(lin, ensure, base, base.primary);
    KeptIfGood(lin, ensure, base, base.secondary);
  }

  /** Some eighth of a strength, given in thousandths. */
  ghost predicate Eighth(base: Base, toward: Rgb, thousandths: nat, ground: Rgb) {
    exists i: nat :: i <= 8 && ground == Mix(base.background, toward, (thousandths * i) as real / 8000.0)
  }

  lemma {:induction false} FitIsEighth(lin: Channel, base: Base, texts: Texts, toward: Rgb, thousandths: nat, step: nat)
    requires Scale(lin) && step <= 8
    ensures Eighth(base, toward, thousandths, Fit(lin, base, texts, toward, thousandths as real / 1000.0, step))
    decreases 8 - step
  {
    hide Mix, AllClear;
    var max := thousandths as real / 1000.0;
    assert max * (8 - step) as real / 8.0 == (thousandths * (8 - step)) as real / 8000.0;
    if step == 8 {
      LastGround(base, toward, max);
    } else {
      FitIsEighth(lin, base, texts, toward, thousandths, step + 1);
    }
  }

  /** Whatever the palette, the deep band is 14 hundredths of the way to the text colour (15 on a dark page), or some eighth
      of 70 thousandths (85); and the tinted one the tint sought, or some eighth of 12 hundredths to the primary colour (18). */
  lemma BandStrengths(lin: Channel, ensure: Ensurer, input: Base)
    requires Scale(lin)
    ensures var t, dark := DeriveColorTokens(lin, ensure, input, None), Luminance(lin, input.background) < 0.5;
      var deep := Mix(input.background, input.text, if dark then 0.15 else 0.14);
      || (t.groundDeep == deep && t.groundTint == Tint(lin, input, deep, Base0(lin, input), 0))
      || (Eighth(input, input.text, if dark then 85 else 70, t.groundDeep) && Eighth(input, input.primary, if dark then 180 else 120, t.groundTint))
  {
    hide Mix, Scale, Luminance, Surface, ReadableOn, Guarded, Tint, BandsFit, Eighth, SurfaceAlt;
    var texts, dark := TextsOf(lin, ensure, input), IsDark(lin, input.background);
    FitIsEighth(lin, input, texts, input.text, if dark then 85 else 70, 0);
    FitIsEighth(lin, input, texts, input.primary, if dark then 180 else 120, 0);
    hide Fit, TextsOf;
  }

  /** A border mixed at 82 hundredths (76 on a dark page) that clears 3 to 1 on the page is kept as it is, by a walk that keeps
      what passes. */
  lemma BorderKept(lin: Channel, ensure: Ensurer, input: Base)
    requires Scale(lin)
    requires var raw := Mix(input.text, input.background, if Luminance(lin, input.background) < 0.5 then 0.76 else 0.82);
      ensure(raw, input.background, 3.0) == Ensure(lin, raw, input.background, 3.0) && ContrastRatio(lin, raw, input.background) >= 3.0
    ensures DeriveColorTokens(lin, ensure, input, None).border ==
      Mix(input.text, input.background, if Luminance(lin, input.background) < 0.5 then 0.76 else 0.82)
  {
    hide Mix, Scale, Luminance, TextsOf, BandsOf, Surface, ReadableOn, SurfaceAlt, Walk, ContrastRatio;
  }
}
