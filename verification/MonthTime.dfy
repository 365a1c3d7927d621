/** Calendar months on a zone's wall clock: month windows, month keys and month addition. */
module MonthTime {
  import opened Calendar
  import opened Decimal
  import opened Zone

  // ------------------------------------------------------------------------------------------
  // Month keys
  // ------------------------------------------------------------------------------------------

  /** `${year}-${month padded to two}` */
  function KeyText(year: int, month: nat): string {
    (if year < 0 then "-" + Print(-year) else Print(year)) + "-" + Pad2(month)
  }

  /** `s.split('-')` */
  function SplitDash(s: string): (fields: seq<string>)
    ensures fields != []
  {
    if s == "" then [""]
    else
      var more := SplitDash(s[1..]);
      if s[0] == '-' then [""] + more else [[s[0]] + more[0]] + more[1..]
  }

  ghost predicate MonthKey(key: string) {
    var fields := SplitDash(key);
    |fields| >= 2 && Digits(fields[0]) && Digits(fields[1])
  }

  function OrdinalOfKey(key: string): int
    requires MonthKey(key)
  {
    12 * ParseNat(SplitDash(key)[0]) + ParseNat(SplitDash(key)[1]) - 1
  }

  lemma {:induction false} SplitAtDash(a: string, b: string)
    requires Digits(a) && Digits(b)
    ensures SplitDash(a + "-" + b) == [a, b]
  {
    var s := a + "-" + b;
    if a == "" {
      assert s[1..] == b;
      SplitDigits(b);
    } else {
      assert s[1..] == a[1..] + "-" + b;
      SplitAtDash(a[1..], b);
      assert [a[0]] + a[1..] == a;
    }
  }

  lemma {:induction false} SplitDigits(s: string)
    requires Digits(s)
    ensures SplitDash(s) == [s]
  {
    if s != "" {
      SplitDigits(s[1..]);
      assert [s[0]] + s[1..] == s;
    }
  }

  /** A key reads back as the month it was printed from if and only if the year is not negative: the sign of a negative
      one is taken for the separator, and the year for the month. */
  lemma KeyRoundTrip(year: int, month: nat)
    requires 1 <= month <= 12
    ensures MonthKey(KeyText(year, month))
    ensures OrdinalOfKey(KeyText(year, month)) == if year >= 0 then 12 * year + month - 1 else -year - 1
    ensures OrdinalOfKey(KeyText(year, month)) == 12 * year + month - 1 <==> year >= 0
  {
    Pad2Parse(month);
    if year >= 0 {
      SplitAtDash(Print(year), Pad2(month));
      PrintParse(year);
    } else {
      PrintParse(-year);
      SplitSigned(Print(-year), Pad2(month));
    }
  }

  lemma SplitSigned(a: string, b: string)
    requires Digits(a) && Digits(b)
    ensures SplitDash("-" + a + "-" + b) == ["", a, b]
  {
    var s := "-" + a + "-" + b;
    assert s[0] == '-' && s[1..] == a + "-" + b;
    SplitAtDash(a, b);
  }

  // ------------------------------------------------------------------------------------------
  // Month windows
  // ------------------------------------------------------------------------------------------

  datatype MonthWindow = MonthWindow(start: int, end: int, key: string) {
    predicate Contains(t: int) { start <= t < end }
  }

  function FirstOf(year: int, month: int): Parts { Parts(year, month, 1, 0, 0, 0) }

  function MonthWindowOf(z: Zone, now: int): MonthWindow {
    var p := PartsInZone(z, now);
    var start := ZonedTimeToUtc(z, FirstOf(p.year, p.month));
    var nextMonth := if p.month == 12 then 1 else p.month + 1;
    var nextYear := if p.month == 12 then p.year + 1 else p.year;
    var end := ZonedTimeToUtc(z, FirstOf(nextYear, nextMonth));
    MonthWindow(start, end, KeyText(p.year, p.month))
  }

  /** Local midnight on the 1st, as a wall time, and the instant taken for it. */
  function Midnight(ordinal: int): int { MonthStart(ordinal) * MS_PER_DAY }

  function MonthBegin(z: Zone, ordinal: int): int {
    ZonedTimeToUtc(z, FirstOf(ordinal / 12, ordinal % 12 + 1))
  }

  function LocalOrdinal(z: Zone, t: int): int { PartsInZone(z, t).Ordinal() }

  lemma FirstOfIs(ordinal: int)
    ensures UtcMs(FirstOf(ordinal / 12, ordinal % 12 + 1)) == Midnight(ordinal)
  {
    hide MakeDay;
    MakeDayIs(ordinal / 12, ordinal % 12, 1);
  }

  lemma OrdinalOnClock(z: Zone, t: int, ordinal: int)
    ensures LocalOrdinal(z, t) < ordinal <==> z.Local(t) < Midnight(ordinal)
  {
    hide FromDay, MonthStart;
    OrdinalAgainst(z.Local(t) / MS_PER_DAY, ordinal);
  }

  /** Window bounds by ordinal; in particular one month's window ends where the next begins. */
  lemma WindowBounds(z: Zone, now: int)
    ensures var w, o := MonthWindowOf(z, now), LocalOrdinal(z, now);
      w.start == MonthBegin(z, o) && w.end == MonthBegin(z, o + 1)
  {
    hide ZonedTimeToUtc, FieldsOf;
    var p := PartsInZone(z, now);
    OrdinalParts(p.Date());
    if p.month == 12 {
      assert (p.Ordinal() + 1) / 12 == p.year + 1 && (p.Ordinal() + 1) % 12 == 0;
    } else {
      assert (p.Ordinal() + 1) / 12 == p.year && (p.Ordinal() + 1) % 12 == p.month;
    }
  }

  /** No transition jumps strictly over local midnight on the first of the month, and none makes it happen twice. */
  ghost predicate CleanMidnight(z: Zone, ordinal: int) {
    var m := Midnight(ordinal);
    forall at, a, b :: z.Jump(at, a, b) ==> !(at + a < m < at + b) && !(at + b <= m < at + a)
  }

  /** `begin` is the first instant whose wall clock has reached `m`, for good. */
  ghost predicate Boundary(z: Zone, m: int, begin: int) {
    forall t :: begin <= t <==> m <= z.Local(t)
  }

  lemma CleanIsBoundary(z: Zone, m: int)
    requires z.Valid() && m % SECOND == 0
    requires forall at, a, b :: z.Jump(at, a, b) ==> !(at + a < m < at + b) && !(at + b <= m < at + a)
    ensures Boundary(z, m, m - z.OffsetAt(m - z.OffsetAt(m)))
  {
    var at, a, b := OneTransition(z, m - z.widest, m);
    hide Zone.Valid, OffsetIn;
    assert a != b ==> z.Jump(at, a, b);
    forall t ensures m - z.OffsetAt(m - z.OffsetAt(m)) <= t <==> m <= z.Local(t) {
      OffsetGood(z, t);
    }
  }

  /** Conversely a jump over midnight, or a repeated midnight, leaves an instant on the wrong side. */
  lemma DirtyInstant(z: Zone, m: int, at: int, a: int, b: int) returns (t: int)
    requires z.Valid() && m % SECOND == 0
    requires z.Jump(at, a, b) && (at + a < m < at + b || at + b <= m < at + a)
    ensures t < m - z.OffsetAt(m - z.OffsetAt(m)) && m <= z.Local(t) < m + z.widest
  {
    var at', a', b' := OneTransition(z, m - z.widest, m);
    OffsetGood(z, at);
    OffsetGood(z, at - 1);
    hide Zone.Valid, OffsetIn;
    assert at' == at && a' == a && b' == b;
    t := if a < b then at else m - a;
  }

  lemma MidnightAligned(o: int)
    ensures Midnight(o) % SECOND == 0
  {
    hide UtcMs, Midnight;
    FirstOfIs(o);
    UtcAligned(FirstOf(o / 12, o % 12 + 1));
  }

  lemma MonthBeginIs(z: Zone, o: int)
    requires z.Valid()
    ensures MonthBegin(z, o) == Midnight(o) - z.OffsetAt(Midnight(o) - z.OffsetAt(Midnight(o)))
  {
    hide UtcMs, ZonedTimeToUtc, Midnight, Zone.Valid, Zone.OffsetAt;
    FirstOfIs(o);
    ZonedTimeToUtcIs(z, FirstOf(o / 12, o % 12 + 1));
  }

  lemma MonthBoundary(z: Zone, o: int)
    requires z.Valid() && CleanMidnight(z, o)
    ensures Boundary(z, Midnight(o), MonthBegin(z, o))
  {
    hide Midnight, ZonedTimeToUtc;
    MidnightAligned(o);
    MonthBeginIs(z, o);
    CleanIsBoundary(z, Midnight(o));
  }

  ghost predicate InOwnWindow(z: Zone, t: int) {
    MonthWindowOf(z, t).Contains(t)
  }

  lemma CleanPartition(z: Zone, t: int, now: int)
    requires z.Valid() && CleanMidnight(z, LocalOrdinal(z, now)) && CleanMidnight(z, LocalOrdinal(z, now) + 1)
    ensures MonthWindowOf(z, now).Contains(t) <==> LocalOrdinal(z, t) == LocalOrdinal(z, now)
  {
    hide MonthWindowOf, MonthBegin, Midnight, CleanMidnight, LocalOrdinal, PartsInZone;
    WindowBounds(z, now);
    var o := LocalOrdinal(z, now);
    MonthBoundary(z, o);
    MonthBoundary(z, o + 1);
    OrdinalOnClock(z, t, o);
    OrdinalOnClock(z, t, o + 1);
  }

  /** Every instant lies in its own month window exactly when every local midnight on a 1st is clean. */
  lemma PartitionExactly(z: Zone)
    requires z.Valid() && z.widest <= MS_PER_DAY
    ensures (forall t :: InOwnWindow(z, t)) <==> (forall o :: CleanMidnight(z, o))
  {
    if forall o :: CleanMidnight(z, o) {
      forall t ensures InOwnWindow(z, t) {
        CleanPartition(z, t, t);
      }
    } else {
      var o :| !CleanMidnight(z, o);
      DirtyMonth(z, o);
    }
  }

  lemma DirtyMonth(z: Zone, o: int)
    requires z.Valid() && z.widest <= MS_PER_DAY && !CleanMidnight(z, o)
    ensures exists t :: !InOwnWindow(z, t)
  {
    hide Midnight, MonthBegin, MonthWindowOf, PartsInZone;
    MidnightAligned(o);
    MonthBeginIs(z, o);
    var at, a, b :| z.Jump(at, a, b) && (at + a < Midnight(o) < at + b || at + b <= Midnight(o) < at + a);
    var t := DirtyInstant(z, Midnight(o), at, a, b);
    OrdinalOnClock(z, t, o);
    OrdinalOnClock(z, t, o + 1);
    MidnightsApart(o);
    WindowBounds(z, t);
    assert !InOwnWindow(z, t);
  }

  lemma MidnightsApart(o: int)
    ensures Midnight(o) + 28 * MS_PER_DAY <= Midnight(o + 1)
  {
    hide MonthStart;
    MonthStartsAscend(o, o + 1);
  }

  // ------------------------------------------------------------------------------------------
  // Month ordinals through keys
  // ------------------------------------------------------------------------------------------

  function MonthOrdinal(z: Zone, t: int): int {
    KeyRoundTrip(PartsInZone(z, t).year, PartsInZone(z, t).month);
    OrdinalOfKey(MonthWindowOf(z, t).key)
  }

  lemma MonthOrdinalIs(z: Zone, t: int)
    ensures MonthOrdinal(z, t) == LocalOrdinal(z, t) <==> 0 <= PartsInZone(z, t).year
  {
    hide PartsInZone;
    KeyRoundTrip(PartsInZone(z, t).year, PartsInZone(z, t).month);
  }

  /** The two ways of asking whether a payment belongs to a month agree: by the window's instants, and by its key. */
  lemma WindowsAndKeysAgree(z: Zone, t: int, now: int)
    requires z.Valid() && (forall o :: CleanMidnight(z, o))
    requires 0 <= PartsInZone(z, t).year && 0 <= PartsInZone(z, now).year
    ensures MonthKey(MonthWindowOf(z, now).key)
    ensures MonthWindowOf(z, now).Contains(t) <==> MonthOrdinal(z, t) == OrdinalOfKey(MonthWindowOf(z, now).key)
  {
    hide PartsInZone, CleanMidnight;
    CleanPartition(z, t, now);
    KeyRoundTrip(PartsInZone(z, now).year, PartsInZone(z, now).month);
    MonthOrdinalIs(z, t);
  }

  // ------------------------------------------------------------------------------------------
  // Month addition
  // ------------------------------------------------------------------------------------------

  /** The remainder operator of ECMAScript takes the sign of the dividend. */
  function Rem(a: int, b: int): int
    requires b > 0
  {
    if a >= 0 then a % b else -(-a % b)
  }

  /** `new Date(Date.UTC(year, month, 0)).getUTCDate()` */
  function LastDayBefore(year: int, month: int): int { FromDay(MakeDay(year, month, 0)).day }

  /** The wall clock `addMonths` asks for. */
  function MonthsLater(p: Parts, months: int): Parts {
    var total := p.month - 1 + months;
    var year := p.year + total / 12;
    var month := Rem(Rem(total, 12) + 12, 12);
    var lastDay := LastDayBefore(year, month + 1);
    Parts(year, month + 1, if p.day < lastDay then p.day else lastDay, p.hour, p.minute, p.second)
  }

  function AddMonths(z: Zone, t: int, months: int): int {
    ZonedTimeToUtc(z, MonthsLater(PartsInZone(z, t), months))
  }

  /** The day before the first of the next month is the last day of the month. */
  lemma LastDay(year: int, month: int)
    requires 1 <= month <= 12
    ensures LastDayBefore(year, month) == DaysInMonth(year, month)
    ensures 28 <= DaysInMonth(year, month) <= 31
  {
    hide Leap, DayFromYear, FromDay, MonthStart, DaysInMonth;
    var o := 12 * year + month - 1;
    assert o / 12 == year && o % 12 + 1 == month;
    MakeDayIs(year, month, 0);
    MonthLength(o);
    var last := MonthStart(o + 1) - 1;
    OrdinalExactly(last, o);
    DayOfOrdinal(last);
  }

  lemma RemIs(total: int)
    ensures Rem(Rem(total, 12) + 12, 12) == total % 12
  {
  }

  /** The target is `months` calendar months away, at the same time of day, on the same day of the month
      or on the last one when the target month is shorter. */
  lemma MonthsLaterExact(p: Parts, months: int)
    requires p.Valid()
    ensures var q := MonthsLater(p, months);
      q.Valid() && q.Ordinal() == p.Ordinal() + months &&
      q.hour == p.hour && q.minute == p.minute && q.second == p.second &&
      var length := DaysInMonth(q.year, q.month);
      q.day == if p.day <= length then p.day else length
  {
    hide LastDayBefore, DaysInMonth, Rem;
    var total := p.month - 1 + months;
    RemIs(total);
    LastDay(p.year + total / 12, total % 12 + 1);
  }

  /** Adding months, negative counts included: the result's wall clock is the target exactly, whenever the target
      occurs on the clock; a target the clock jumps over is overshot by exactly the gap. */
  lemma AddMonthsExact(z: Zone, t: int, months: int)
    requires z.Valid()
    ensures var p, r := PartsInZone(z, t), AddMonths(z, t, months);
      var q := MonthsLater(p, months);
      NamedBy(z, UtcMs(q), r) &&
      (z.WallExists(UtcMs(q)) ==>
        PartsInZone(z, r) == q && LocalOrdinal(z, r) == LocalOrdinal(z, t) + months)
  {
    hide UtcMs, MonthsLater, PartsInZone, NamedBy, ZonedTimeToUtc;
    var q := MonthsLater(PartsInZone(z, t), months);
    MonthsLaterExact(PartsInZone(z, t), months);
    ZonedTimeToUtcExact(z, q);
    if z.WallExists(UtcMs(q)) {
      ReadBack(z, q, AddMonths(z, t, months));
    }
  }

  lemma ReadBack(z: Zone, q: Parts, r: int)
    requires q.Valid() && z.WallExists(UtcMs(q)) && NamedBy(z, UtcMs(q), r)
    ensures PartsInZone(z, r) == q
  {
    hide FieldsOf, UtcMs;
    UtcRoundTrip(q);
  }

  /** Additive for days that every month has, as long as the intermediate time occurs on the clock. */
  lemma AddMonthsComposes(z: Zone, t: int, a: int, b: int)
    requires z.Valid() && PartsInZone(z, t).day <= 28
    requires z.WallExists(UtcMs(MonthsLater(PartsInZone(z, t), a)))
    ensures AddMonths(z, AddMonths(z, t, a), b) == AddMonths(z, t, a + b)
  {
    hide UtcMs, PartsInZone, NamedBy, ZonedTimeToUtc, MonthsLater;
    var p := PartsInZone(z, t);
    AddMonthsExact(z, t, a);
    MonthsLaterComposes(p, a, b);
  }

  lemma MonthsLaterComposes(p: Parts, a: int, b: int)
    requires p.Valid() && p.day <= 28
    ensures MonthsLater(MonthsLater(p, a), b) == MonthsLater(p, a + b)
  {
    hide MonthsLater, Parts.Valid, Parts.Ordinal, DaysInMonth;
    var q := MonthsLater(p, a);
    ShortDayKept(p, a);
    ShortDayKept(q, b);
    ShortDayKept(p, a + b);
    SameParts(MonthsLater(q, b), MonthsLater(p, a + b));
  }

  /** A day every month has is not clamped. */
  lemma ShortDayKept(p: Parts, months: int)
    requires p.Valid() && p.day <= 28
    ensures var q := MonthsLater(p, months);
      q.Valid() && q.Ordinal() == p.Ordinal() + months && q.day == p.day &&
      q.hour == p.hour && q.minute == p.minute && q.second == p.second
  {
    hide MonthsLater, DaysInMonth;
    MonthsLaterExact(p, months);
    var q := MonthsLater(p, months);
    LastDay(q.year, q.month);
  }

  lemma SameParts(q: Parts, r: Parts)
    requires q.Valid() && r.Valid() && q.Ordinal() == r.Ordinal() && q.day == r.day
    requires q.hour == r.hour && q.minute == r.minute && q.second == r.second
    ensures q == r
  {
    OrdinalParts(q.Date());
    OrdinalParts(r.Date());
  }
}
