/** The overview screen's look-back: which payments it loads, and why that loses nothing. */
module Overview {
  import opened Calendar
  import opened MonthTime
  import opened Options
  import opened Revenue
  import opened Zone

  const REVENUE_LOOKBACK_MONTHS := 13

  /** `date.setUTCMonth(month)`: the day of the month is kept, and rolls over when the month is shorter. */
  function SetUtcMonth(t: int, month: int): int {
    var c := FromDay(t / MS_PER_DAY);
    MakeDay(c.year, month, c.day) * MS_PER_DAY + t % MS_PER_DAY
  }

  function LookBack(start: int, months: int): int {
    SetUtcMonth(start, FromDay(start / MS_PER_DAY).month - 1 - months)
  }

  predicate Selected(p: Payment, since: int) {
    p.status == "paid" && p.paidAt.Some? && since <= p.paidAt.value && p.kind != "order"
  }

  function Loaded(ps: seq<Payment>, since: int): seq<Payment> {
    if ps == [] then []
    else Loaded(ps[..|ps| - 1], since) + if Selected(ps[|ps| - 1], since) then [ps[|ps| - 1]] else []
  }

  method Figures(z: Zone, payments: seq<Payment>, now: int)
    returns (recognised: int, nonRecurring: int, collected: int)
    requires z.Valid() && z.widest <= MS_PER_DAY
    requires Datable(z, payments) && 0 <= PartsInZone(z, now).year
    // the look-back changes none of the three figures
    ensures var w := MonthWindowOf(z, now);
      recognised == Recognised(z, payments, LocalOrdinal(z, now)) &&
      nonRecurring == NonRecurring(payments, w) &&
      collected == Collected(payments, w)
  {
    hide MonthWindowOf, PartsInZone, LookBack, LocalOrdinal, MonthKey, OrdinalOfKey;
    var w := MonthWindowOf(z, now);
    var since := LookBack(w.start, REVENUE_LOOKBACK_MONTHS);
    var loaded := Loaded(payments, since);
    LoadedFrom(payments, since);
    KeyRoundTrip(PartsInZone(z, now).year, PartsInZone(z, now).month);
    KeyIs(z, now);
    recognised := RecognisedRecurring(z, loaded, w);
    nonRecurring := NonRecurringInWindow(loaded, w);
    collected := CollectedInWindow(loaded, w);
    LookBackLosesNothing(z, payments, now, REVENUE_LOOKBACK_MONTHS);
  }

  lemma KeyIs(z: Zone, now: int)
    requires 0 <= PartsInZone(z, now).year
    ensures MonthKey(MonthWindowOf(z, now).key) && OrdinalOfKey(MonthWindowOf(z, now).key) == LocalOrdinal(z, now)
  {
    hide PartsInZone;
    KeyRoundTrip(PartsInZone(z, now).year, PartsInZone(z, now).month);
  }

  lemma {:induction false} LoadedFrom(ps: seq<Payment>, since: int)
    ensures forall p :: p in Loaded(ps, since) ==> p in ps
  {
    if ps != [] { LoadedFrom(ps[..|ps| - 1], since); }
  }

  /** The window starts on the UTC day before local midnight on the 1st. */
  lemma StartsTheDayBefore(z: Zone, now: int)
    requires z.Valid() && z.widest <= MS_PER_DAY
    ensures MonthWindowOf(z, now).start / MS_PER_DAY == MonthStart(LocalOrdinal(z, now)) - 1
  {
    hide MonthWindowOf, MonthBegin, LocalOrdinal, MonthStart, Zone.Valid, Zone.OffsetAt;
    var o := LocalOrdinal(z, now);
    WindowBounds(z, now);
    MonthBeginIs(z, o);
    OffsetGood(z, Midnight(o) - z.OffsetAt(Midnight(o)));
  }

  /** The look-back date keeps the day of the month and the time of day, in the month `months` earlier; a day that month
      lacks rolls over into the next. */
  lemma LookBackIs(start: int, months: int)
    ensures var day := FromDay(start / MS_PER_DAY);
      LookBack(start, months) / MS_PER_DAY == MonthStart(day.Ordinal() - months) + day.day - 1 &&
      LookBack(start, months) % MS_PER_DAY == start % MS_PER_DAY
  {
    hide MonthStart, FromDay, MakeDay;
    var c := FromDay(start / MS_PER_DAY);
    MakeDayIs(c.year, c.month - 1 - months, c.day);
    SplitMs(MakeDay(c.year, c.month - 1 - months, c.day), start % MS_PER_DAY);
  }

  /** Exactly the paid payments since the look-back date that are not orders are loaded. */
  lemma {:induction false} LoadedExactly(ps: seq<Payment>, since: int)
    ensures forall p :: p in Loaded(ps, since) <==>
      p in ps && p.status == "paid" && p.paidAt.Some? && since <= p.paidAt.value && p.kind != "order"
  {
    if ps != [] {
      var n := |ps| - 1;
      LoadedExactly(ps[..n], since);
      assert ps == ps[..n] + [ps[n]];
    }
  }

  /** The look-back date, rolled over or not, lies more than 25 days before the first month still recognised. */
  lemma LookBackBound(start: int, o: int, months: int)
    requires start / MS_PER_DAY == MonthStart(o) - 1 && 12 <= months
    ensures LookBack(start, months) < (MonthStart(o - 11) - 25) * MS_PER_DAY
  {
    hide MonthStart, FromDay, MakeDay;
    var day := start / MS_PER_DAY;
    var c := FromDay(day);
    MonthLength(o - 1);
    OrdinalExactly(day, o - 1);
    DayOfOrdinal(day);
    MakeDayIs(c.year, c.month - 1 - months, c.day);
    MonthStartsAscend(o - 1 - months, o - 13);
    MonthStartsAscend(o - 13, o - 11);
  }

  /** A payment made before the look-back date counts for none of the three figures. */
  lemma TooOld(z: Zone, p: Payment, now: int, months: int)
    requires z.Valid() && z.widest <= MS_PER_DAY && 12 <= months
    requires p.Paid() && p.paidAt.value < LookBack(MonthWindowOf(z, now).start, months)
    ensures LocalOrdinal(z, p.paidAt.value) < LocalOrdinal(z, now) - 11
    ensures p.paidAt.value < MonthWindowOf(z, now).start
  {
    hide MonthWindowOf, LookBack, LocalOrdinal, MonthStart, Zone.Valid, Zone.OffsetAt;
    var t, o, start := p.paidAt.value, LocalOrdinal(z, now), MonthWindowOf(z, now).start;
    StartsTheDayBefore(z, now);
    LookBackBound(start, o, months);
    OffsetGood(z, t);
    OrdinalOnClock(z, t, o - 11);
    MonthStartsAscend(o - 11, o);
  }

  /** Loading only the payments since a look-back of twelve months or more changes none of the figures
      for the current month. */
  lemma {:induction false} LookBackLosesNothing(z: Zone, ps: seq<Payment>, now: int, months: int)
    requires z.Valid() && z.widest <= MS_PER_DAY && 12 <= months
    ensures var w := MonthWindowOf(z, now);
      SameFigures(z, Loaded(ps, LookBack(w.start, months)), ps, w, LocalOrdinal(z, now))
  {
    hide MonthWindowOf, LookBack, LocalOrdinal, Zone.Valid, SameFigures;
    var w, o := MonthWindowOf(z, now), LocalOrdinal(z, now);
    var since := LookBack(w.start, months);
    if ps == [] {
      Reflexive(z, ps, w, o);
    } else {
      var before, p := ps[..|ps| - 1], ps[|ps| - 1];
      LookBackLosesNothing(z, before, now, months);
      assert before + [p] == ps;
      if p.Paid() && p.paidAt.value < since {
        TooOld(z, p, now, months);
      }
      DropOrKeep(z, Loaded(before, since), before, p, Selected(p, since), w, o);
    }
  }
}
