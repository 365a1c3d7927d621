/** Wall clocks: a zone as a step function of offsets, and the instant a wall time names.
    Instants, offsets and wall times are whole milliseconds. */
module Zone {
  import opened Calendar

  const SECOND := 1000

  /** From `at` on, local time is UTC plus `offset`. */
  datatype Step = Step(at: int, offset: int)

  datatype Zone = Zone(first: int, steps: seq<Step>, widest: int) {
    /** Whole-second transitions in order, offsets between zero and `widest`, gaps no shorter than `widest`. */
    ghost predicate Valid() {
      GoodOffset(first) &&
      (forall k :: 0 <= k < |steps| ==> GoodOffset(steps[k].offset) && steps[k].at % SECOND == 0) &&
      (forall k :: 0 < k < |steps| ==> steps[k - 1].at + widest <= steps[k].at)
    }

    predicate GoodOffset(offset: int) { 0 < offset <= widest && offset % SECOND == 0 }

    function OffsetAt(t: int): int { OffsetIn(first, steps, t) }

    function Local(t: int): int { t + OffsetAt(t) }

    /** The offset changes from `a` to `b` at the instant `at`. */
    ghost predicate Jump(at: int, a: int, b: int) { OffsetAt(at - 1) == a != b == OffsetAt(at) }

    ghost predicate WallExists(wall: int) { exists t :: Local(t) == wall }
  }

  function OffsetIn(first: int, steps: seq<Step>, t: int): int {
    if steps == [] then first
    else
      var last := steps[|steps| - 1];
      if last.at <= t then last.offset else OffsetIn(first, steps[..|steps| - 1], t)
  }

  /** Any stretch no longer than the shortest gap sees at most one transition. */
  lemma {:induction false} OneTransition(z: Zone, lo: int, hi: int) returns (at: int, a: int, b: int)
    requires z.Valid() && lo <= hi <= lo + z.widest
    ensures z.GoodOffset(a) && z.GoodOffset(b)
    ensures lo <= at <= hi && (at == lo ==> a == b) && (lo < at ==> at % SECOND == 0)
    ensures forall t :: lo <= t <= hi ==> z.OffsetAt(t) == if t < at then a else b
    decreases |z.steps|
  {
    var n := |z.steps|;
    if n == 0 {
      at, a, b := lo, z.first, z.first;
    } else {
      var last := z.steps[n - 1];
      var before := Zone(z.first, z.steps[..n - 1], z.widest);
      if last.at <= lo {
        at, a, b := lo, last.offset, last.offset;
      } else if hi < last.at {
        at, a, b := OneTransition(before, lo, hi);
        assert forall t :: lo <= t <= hi ==> z.OffsetAt(t) == before.OffsetAt(t);
      } else {
        at, b := last.at, last.offset;
        a := if n == 1 then z.first else z.steps[n - 2].offset;
        assert forall t :: lo <= t < at ==> z.OffsetAt(t) == before.OffsetAt(t);
        assert forall t :: lo <= t < at ==> before.OffsetAt(t) == a;
      }
    }
  }

  lemma OffsetGood(z: Zone, t: int)
    requires z.Valid()
    ensures z.GoodOffset(z.OffsetAt(t))
  {
    var at, a, b := OneTransition(z, t, t);
  }

  // ------------------------------------------------------------------------------------------
  // Calendar fields on a wall clock
  // ------------------------------------------------------------------------------------------

  datatype Parts = Parts(year: int, month: int, day: int, hour: int, minute: int, second: int) {
    function Date(): Civil { Civil(year, month, day) }
    predicate Valid() {
      Date().Valid() && 0 <= hour < 24 && 0 <= minute < 60 && 0 <= second < 60
    }
    function Ordinal(): int { Date().Ordinal() }
    function SecondOfDay(): int { (hour * 60 + minute) * 60 + second }
  }

  /** `Date.UTC(year, month - 1, day, hour, minute, second)`; every field may overflow. */
  function UtcMs(p: Parts): int { MakeDay(p.year, p.month - 1, p.day) * MS_PER_DAY + p.SecondOfDay() * SECOND }

  function FieldsOf(wall: int): (p: Parts)
    ensures p.Valid()
  {
    FromDayIs(wall / MS_PER_DAY);
    var c := FromDay(wall / MS_PER_DAY);
    var s := wall % MS_PER_DAY / SECOND;
    Parts(c.year, c.month, c.day, s / 3600, s / 60 % 60, s % 60)
  }

  /** The fields a zone formatter shows for an instant: the wall clock, cut to whole seconds. */
  function PartsInZone(z: Zone, t: int): (p: Parts)
    ensures p.Valid()
  {
    FieldsOf(z.Local(t))
  }

  lemma ClockFields(s: int)
    ensures s / 3600 * 3600 + s / 60 % 60 * 60 + s % 60 == s
  {
    assert s / 3600 == s / 60 / 60;
  }

  lemma SplitMs(day: int, ms: int)
    requires 0 <= ms < MS_PER_DAY
    ensures (day * MS_PER_DAY + ms) / MS_PER_DAY == day && (day * MS_PER_DAY + ms) % MS_PER_DAY == ms
  {
  }

  lemma CutToSecond(wall: int)
    ensures wall / MS_PER_DAY * MS_PER_DAY + wall % MS_PER_DAY / SECOND * SECOND == wall - wall % SECOND
    ensures 0 <= wall % MS_PER_DAY / SECOND < 86400
  {
    var day, ms := wall / MS_PER_DAY, wall % MS_PER_DAY;
    assert wall == 86400 * day * SECOND + ms;
    assert wall % SECOND == ms % SECOND;
  }

  lemma FieldsRoundTrip(wall: int)
    ensures UtcMs(FieldsOf(wall)) == wall - wall % SECOND
  {
    hide FromDay, MakeDay;
    DayRoundTrip(wall / MS_PER_DAY);
    CutToSecond(wall);
    ClockFields(wall % MS_PER_DAY / SECOND);
    assert ToDay(FieldsOf(wall).Date()) == wall / MS_PER_DAY;
  }

  lemma UtcRoundTrip(p: Parts)
    requires p.Valid()
    ensures FieldsOf(UtcMs(p)) == p && UtcMs(p) % SECOND == 0
  {
    hide FromDay, MakeDay;
    CivilRoundTrip(p.Date());
    var s := p.SecondOfDay();
    assert s / 3600 == p.hour && s / 60 % 60 == p.minute && s % 60 == p.second;
    SplitMs(ToDay(p.Date()), s * SECOND);
    UtcAligned(p);
  }

  // ------------------------------------------------------------------------------------------
  // Wall time to instant
  // ------------------------------------------------------------------------------------------

  function OffsetMs(z: Zone, t: int): int { UtcMs(PartsInZone(z, t)) - t }

  lemma OffsetMsIs(z: Zone, t: int)
    requires z.Valid() && t % SECOND == 0
    ensures OffsetMs(z, t) == z.OffsetAt(t)
  {
    hide FieldsOf, UtcMs;
    OffsetGood(z, t);
    FieldsRoundTrip(z.Local(t));
  }

  /** The fields name a wall time; two passes find the offset in force there. */
  function ZonedTimeToUtc(z: Zone, p: Parts): int {
    var naive := UtcMs(p);
    var first := OffsetMs(z, naive);
    var second := OffsetMs(z, naive - first);
    naive - second
  }

  /** The instant a wall time names. A time the clock shows is read exactly, at the last instant that shows it;
      a time the clock jumps over lands later than asked by exactly the gap. */
  ghost predicate NamedBy(z: Zone, wall: int, r: int) {
    if z.WallExists(wall) then
      z.Local(r) == wall && forall t :: z.Local(t) == wall ==> t <= r
    else
      exists at, a, b :: z.Jump(at, a, b) && at + a <= wall < at + b && at <= r && z.Local(r) == wall + (b - a)
  }

  /** What the two passes compute, for every wall time. */
  lemma ZonedTimeToUtcExact(z: Zone, p: Parts)
    requires z.Valid()
    ensures ZonedTimeToUtc(z, p) % SECOND == 0 && NamedBy(z, UtcMs(p), ZonedTimeToUtc(z, p))
  {
    hide UtcMs, ZonedTimeToUtc, NamedBy;
    UtcAligned(p);
    ZonedTimeToUtcIs(z, p);
    TwoPasses(z, UtcMs(p));
  }

  lemma ZonedTimeToUtcIs(z: Zone, p: Parts)
    requires z.Valid()
    ensures ZonedTimeToUtc(z, p) == UtcMs(p) - z.OffsetAt(UtcMs(p) - z.OffsetAt(UtcMs(p)))
  {
    hide UtcMs, OffsetMs;
    UtcAligned(p);
    OffsetGood(z, UtcMs(p));
    OffsetMsIs(z, UtcMs(p));
    OffsetMsIs(z, UtcMs(p) - z.OffsetAt(UtcMs(p)));
  }

  lemma UtcAligned(p: Parts)
    ensures UtcMs(p) % SECOND == 0
  {
    hide MakeDay;
    assert UtcMs(p) == (MakeDay(p.year, p.month - 1, p.day) * 86400 + p.SecondOfDay()) * SECOND;
  }

  lemma TwoPasses(z: Zone, wall: int)
    requires z.Valid() && wall % SECOND == 0
    ensures var r := wall - z.OffsetAt(wall - z.OffsetAt(wall));
      r % SECOND == 0 && NamedBy(z, wall, r)
  {
    var at, a, b := OneTransition(z, wall - z.widest, wall);
    hide Zone.Valid, OffsetIn;
    var r := wall - z.OffsetAt(wall - z.OffsetAt(wall));
    forall t | z.Local(t) == wall ensures wall - z.widest <= t < wall {
      OffsetGood(z, t);
    }
    if at + a <= wall < at + b {
      assert z.Jump(at, a, b);
      assert !z.WallExists(wall);
    } else {
      assert z.Local(r) == wall;
    }
  }
}
