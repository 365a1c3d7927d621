/** Platform revenue: recognised, non-recurring and collected money, month by month. */
module Revenue {
  import opened Calendar
  import opened MonthTime
  import opened Options
  import opened Zone

  datatype BillingPeriod = Monthly | Yearly

  /** Amounts are whole agorot; refunds may make them negative. */
  datatype Payment = Payment(kind: string, status: string, amount: int, paidAt: Option<int>, period: BillingPeriod) {
    predicate Paid() { status == "paid" && paidAt.Some? }
    predicate Recurring() { kind == "subscription" }
    predicate NonRecurring() { kind == "setup_fee" || kind == "change_request_addon" }
    predicate PlatformRevenue() { kind != "order" }
  }

  /** `Math.round(amount / 12)` for a yearly payment: the nearest whole twelfth, halves upwards. */
  function Amortised(amount: int, period: BillingPeriod): int {
    if period.Yearly? then (amount + 6) / 12 else amount
  }

  // ------------------------------------------------------------------------------------------
  // What one payment contributes, and the totals
  // ------------------------------------------------------------------------------------------

  function RecognisedOf(z: Zone, p: Payment, target: int): int {
    if !p.Paid() || !p.Recurring() then 0
    else
      var paid := LocalOrdinal(z, p.paidAt.value);
      if p.period.Yearly? then if paid <= target < paid + 12 then Amortised(p.amount, Yearly) else 0
      else if target == paid then p.amount else 0
  }

  function NonRecurringOf(p: Payment, w: MonthWindow): int {
    if p.Paid() && p.NonRecurring() && w.Contains(p.paidAt.value) then p.amount else 0
  }

  function CollectedOf(p: Payment, w: MonthWindow): int {
    if p.Paid() && p.PlatformRevenue() && w.Contains(p.paidAt.value) then p.amount else 0
  }

  function SubscriptionOf(p: Payment, w: MonthWindow): int {
    if p.Paid() && p.Recurring() && w.Contains(p.paidAt.value) then p.amount else 0
  }

  function Recognised(z: Zone, ps: seq<Payment>, target: int): int {
    if ps == [] then 0 else Recognised(z, ps[..|ps| - 1], target) + RecognisedOf(z, ps[|ps| - 1], target)
  }

  function NonRecurring(ps: seq<Payment>, w: MonthWindow): int {
    if ps == [] then 0 else NonRecurring(ps[..|ps| - 1], w) + NonRecurringOf(ps[|ps| - 1], w)
  }

  function Collected(ps: seq<Payment>, w: MonthWindow): int {
    if ps == [] then 0 else Collected(ps[..|ps| - 1], w) + CollectedOf(ps[|ps| - 1], w)
  }

  function Subscriptions(ps: seq<Payment>, w: MonthWindow): int {
    if ps == [] then 0 else Subscriptions(ps[..|ps| - 1], w) + SubscriptionOf(ps[|ps| - 1], w)
  }

  // ------------------------------------------------------------------------------------------
  // The loops
  // ------------------------------------------------------------------------------------------

  /** Years after 1 BC, so that month keys carry no sign. */
  ghost predicate Datable(z: Zone, ps: seq<Payment>) {
    forall p :: p in ps && p.paidAt.Some? ==> 0 <= PartsInZone(z, p.paidAt.value).year
  }

  /** The same total with each payment's month read from its key, as the code reads it. */
  function ByKeyOf(z: Zone, p: Payment, target: int): int {
    if !p.Paid() || !p.Recurring() then 0
    else
      var paid := MonthOrdinal(z, p.paidAt.value);
      if p.period.Yearly? then if paid <= target < paid + 12 then Amortised(p.amount, Yearly) else 0
      else if target == paid then p.amount else 0
  }

  function ByKey(z: Zone, ps: seq<Payment>, target: int): int {
    if ps == [] then 0 else ByKey(z, ps[..|ps| - 1], target) + ByKeyOf(z, ps[|ps| - 1], target)
  }

  lemma {:induction false} ByKeyIs(z: Zone, ps: seq<Payment>, target: int)
    requires Datable(z, ps)
    ensures ByKey(z, ps, target) == Recognised(z, ps, target)
  {
    hide MonthOrdinal, LocalOrdinal, PartsInZone;
    if ps != [] {
      var n := |ps| - 1;
      assert forall p :: p in ps[..n] ==> p in ps;
      ByKeyIs(z, ps[..n], target);
      assert ps[n] in ps;
      if ps[n].Paid() { MonthOrdinalIs(z, ps[n].paidAt.value); }
    }
  }

  method RecognisedRecurring(z: Zone, payments: seq<Payment>, w: MonthWindow) returns (total: int)
    requires MonthKey(w.key)
    ensures total == ByKey(z, payments, OrdinalOfKey(w.key))
    ensures Datable(z, payments) ==> total == Recognised(z, payments, OrdinalOfKey(w.key))
  {
    hide MonthOrdinal, OrdinalOfKey, MonthKey, LocalOrdinal, PartsInZone;
    var target := OrdinalOfKey(w.key);
    total := 0;
    for n := 0 to |payments|
      invariant total == ByKey(z, payments[..n], target)
    {
      var p := payments[n];
      assert payments[..n + 1][..n] == payments[..n];
      if !p.Paid() { continue; }
      if !p.Recurring() { continue; }
      var paid := MonthOrdinal(z, p.paidAt.value);
      if p.period.Yearly? {
        if target >= paid && target < paid + 12 {
          total := total + Amortised(p.amount, Yearly);
        }
        continue;
      }
      if target == paid { total := total + p.amount; }
    }
    assert payments[..|payments|] == payments;
    if Datable(z, payments) { ByKeyIs(z, payments, target); }
  }

  method NonRecurringInWindow(payments: seq<Payment>, w: MonthWindow) returns (total: int)
    ensures total == NonRecurring(payments, w)
  {
    total := 0;
    for n := 0 to |payments|
      invariant total == NonRecurring(payments[..n], w)
    {
      var p := payments[n];
      assert payments[..n + 1][..n] == payments[..n];
      if !p.Paid() { continue; }
      if !p.NonRecurring() { continue; }
      if w.Contains(p.paidAt.value) { total := total + p.amount; }
    }
    assert payments[..|payments|] == payments;
  }

  method CollectedInWindow(payments: seq<Payment>, w: MonthWindow) returns (total: int)
    ensures total == Collected(payments, w)
  {
    total := 0;
    for n := 0 to |payments|
      invariant total == Collected(payments[..n], w)
    {
      var p := payments[n];
      assert payments[..n + 1][..n] == payments[..n];
      if !p.Paid() { continue; }
      if !p.PlatformRevenue() { continue; }
      if w.Contains(p.paidAt.value) { total := total + p.amount; }
    }
    assert payments[..|payments|] == payments;
  }

  // ------------------------------------------------------------------------------------------
  // Amortisation conserves money
  // ------------------------------------------------------------------------------------------

  /** Recognised recurring money summed over the months `lo` up to `hi`. */
  function RecognisedOver(z: Zone, ps: seq<Payment>, lo: int, hi: int): int
    requires lo <= hi
    decreases hi - lo
  {
    if lo == hi then 0 else RecognisedOver(z, ps, lo, hi - 1) + Recognised(z, ps, hi - 1)
  }

  function PaidSubscriptions(ps: seq<Payment>): int {
    if ps == [] then 0
    else
      var p := ps[|ps| - 1];
      PaidSubscriptions(ps[..|ps| - 1]) + if p.Paid() && p.Recurring() then p.amount else 0
  }

  function YearlyPayments(ps: seq<Payment>): nat {
    if ps == [] then 0
    else
      var p := ps[|ps| - 1];
      YearlyPayments(ps[..|ps| - 1]) + if p.Paid() && p.Recurring() && p.period.Yearly? then 1 else 0
  }

  /** The span holds every month the payments are spread over. */
  ghost predicate Spans(z: Zone, ps: seq<Payment>, lo: int, hi: int) {
    forall p :: p in ps && p.Paid() && p.Recurring() ==>
      var paid := LocalOrdinal(z, p.paidAt.value);
      lo <= paid && paid + (if p.period.Yearly? then 12 else 1) <= hi
  }

  lemma {:induction false} SplitLast(z: Zone, ps: seq<Payment>, lo: int, hi: int)
    requires ps != [] && lo <= hi
    ensures RecognisedOver(z, ps, lo, hi) ==
      RecognisedOver(z, ps[..|ps| - 1], lo, hi) + RecognisedOver(z, [ps[|ps| - 1]], lo, hi)
    decreases hi - lo
  {
    if lo < hi {
      SplitLast(z, ps, lo, hi - 1);
      OneRecognised(z, ps[|ps| - 1], hi - 1);
    }
  }

  lemma OneRecognised(z: Zone, p: Payment, target: int)
    ensures Recognised(z, [p], target) == RecognisedOf(z, p, target)
  {
    assert [p][..0] == [];
    assert Recognised(z, [], target) == 0;
  }

  /** Overlap of two half-open month ranges. */
  function Overlap(a: int, b: int, lo: int, hi: int): nat {
    var from, to := if a < lo then lo else a, if b < hi then b else hi;
    if from < to then to - from else 0
  }

  lemma {:induction false} OnePayment(z: Zone, p: Payment, lo: int, hi: int)
    requires lo <= hi && p.Paid() && p.Recurring()
    ensures var paid := LocalOrdinal(z, p.paidAt.value);
      RecognisedOver(z, [p], lo, hi) ==
      Overlap(paid, paid + (if p.period.Yearly? then 12 else 1), lo, hi) * Amortised(p.amount, p.period)
    decreases hi - lo
  {
    hide LocalOrdinal;
    if lo < hi {
      OnePayment(z, p, lo, hi - 1);
      OneRecognised(z, p, hi - 1);
      var paid := LocalOrdinal(z, p.paidAt.value);
      var end := paid + if p.period.Yearly? then 12 else 1;
      var x := Amortised(p.amount, p.period);
      assert Overlap(paid, end, lo, hi) == Overlap(paid, end, lo, hi - 1) + if paid <= hi - 1 < end then 1 else 0;
      Distribute(Overlap(paid, end, lo, hi - 1), if paid <= hi - 1 < end then 1 else 0, x);
    }
  }

  lemma Distribute(a: int, b: int, x: int)
    ensures (a + b) * x == a * x + b * x
  {
  }

  lemma {:induction false} OtherPayment(z: Zone, p: Payment, lo: int, hi: int)
    requires lo <= hi && !(p.Paid() && p.Recurring())
    ensures RecognisedOver(z, [p], lo, hi) == 0
    decreases hi - lo
  {
    if lo < hi {
      OtherPayment(z, p, lo, hi - 1);
      OneRecognised(z, p, hi - 1);
    }
  }

  lemma {:induction false} NothingPaid(z: Zone, lo: int, hi: int)
    requires lo <= hi
    ensures RecognisedOver(z, [], lo, hi) == 0
    decreases hi - lo
  {
    if lo < hi { NothingPaid(z, lo, hi - 1); }
  }

  lemma TwelveTwelfths(amount: int)
    ensures amount - 5 <= 12 * Amortised(amount, Yearly) <= amount + 6
  {
  }

  /** Over any span holding every month the payments are spread over, recognised recurring revenue is the money paid
      for subscriptions, to within 6 agorot for each yearly payment. */
  lemma {:induction false} RecognitionConserves(z: Zone, ps: seq<Payment>, lo: int, hi: int)
    requires lo <= hi && Spans(z, ps, lo, hi)
    ensures var error := RecognisedOver(z, ps, lo, hi) - PaidSubscriptions(ps);
      -5 * YearlyPayments(ps) <= error <= 6 * YearlyPayments(ps)
  {
    hide LocalOrdinal, Amortised;
    if ps == [] {
      NothingPaid(z, lo, hi);
    } else {
      var before, p := ps[..|ps| - 1], ps[|ps| - 1];
      SplitLast(z, ps, lo, hi);
      RecognitionConserves(z, before, lo, hi);
      LastPayment(z, p, lo, hi);
    }
  }

  lemma LastPayment(z: Zone, p: Payment, lo: int, hi: int)
    requires lo <= hi && Spans(z, [p], lo, hi)
    ensures var error := RecognisedOver(z, [p], lo, hi) - (if p.Paid() && p.Recurring() then p.amount else 0);
      if p.Paid() && p.Recurring() && p.period.Yearly? then -5 <= error <= 6 else error == 0
  {
    hide LocalOrdinal, RecognisedOver;
    if p.Paid() && p.Recurring() {
      assert p in [p];
      OnePayment(z, p, lo, hi);
      TwelveTwelfths(p.amount);
    } else {
      OtherPayment(z, p, lo, hi);
    }
  }

  // ------------------------------------------------------------------------------------------
  // The figures of one window
  // ------------------------------------------------------------------------------------------

  /** Collected money is non-recurring money plus the subscription money of the window. */
  lemma {:induction false} CollectedSplits(ps: seq<Payment>, w: MonthWindow)
    requires forall p :: p in ps ==> p.kind in {"subscription", "setup_fee", "change_request_addon", "order"}
    ensures Collected(ps, w) == NonRecurring(ps, w) + Subscriptions(ps, w)
  {
    if ps != [] {
      CollectedSplits(ps[..|ps| - 1], w);
      assert ps[|ps| - 1] in ps;
    }
  }

  /** What a single payment is worth to each figure, kind by kind: an unpaid one nothing; a subscription its amount in the
      month it was paid in, or a twelfth in that month and each of the eleven after it; a fee or add-on its amount in the
      window; and everything but an order counts as collected in the window. */
  lemma OnePaymentByKind(z: Zone, p: Payment, w: MonthWindow, target: int)
    ensures p.status != "paid" || p.paidAt == None ==>
      Recognised(z, [p], target) == NonRecurring([p], w) == Subscriptions([p], w) == Collected([p], w) == 0
    ensures p.status == "paid" && p.paidAt.Some? ==>
      var inside := w.start <= p.paidAt.value < w.end;
      var month := LocalOrdinal(z, p.paidAt.value);
      NonRecurring([p], w) == (if inside && p.kind in {"setup_fee", "change_request_addon"} then p.amount else 0) &&
      Subscriptions([p], w) == (if inside && p.kind == "subscription" then p.amount else 0) &&
      Collected([p], w) == (if inside && p.kind != "order" then p.amount else 0) &&
      (p.kind != "subscription" ==> Recognised(z, [p], target) == 0) &&
      (p.kind == "subscription" && p.period.Monthly? ==> Recognised(z, [p], target) == if target == month then p.amount else 0) &&
      (p.kind == "subscription" && p.period.Yearly? ==>
        var share := Recognised(z, [p], target);
        if target - month in {0, 1, 2, 3, 4, 5, 6, 7, 8, 9, 10, 11} then -6 <= p.amount - 12 * share <= 5 else share == 0)
  {
    hide LocalOrdinal;
    assert [p][..0] == [];
  }

  /** One more payment adds its own contribution to every figure. */
  lemma OneMore(z: Zone, ps: seq<Payment>, p: Payment, w: MonthWindow, target: int)
    ensures Recognised(z, ps + [p], target) == Recognised(z, ps, target) + RecognisedOf(z, p, target)
    ensures NonRecurring(ps + [p], w) == NonRecurring(ps, w) + NonRecurringOf(p, w)
    ensures Collected(ps + [p], w) == Collected(ps, w) + CollectedOf(p, w)
  {
    assert (ps + [p])[..|ps|] == ps;
  }

  /** Two payment lists give the same three figures. */
  ghost predicate SameFigures(z: Zone, ps: seq<Payment>, qs: seq<Payment>, w: MonthWindow, target: int) {
    Recognised(z, ps, target) == Recognised(z, qs, target) &&
    NonRecurring(ps, w) == NonRecurring(qs, w) &&
    Collected(ps, w) == Collected(qs, w)
  }

  ghost predicate Counts(z: Zone, p: Payment, w: MonthWindow, target: int) {
    RecognisedOf(z, p, target) != 0 || NonRecurringOf(p, w) != 0 || CollectedOf(p, w) != 0
  }

  lemma DropOrKeep(z: Zone, kept: seq<Payment>, ps: seq<Payment>, p: Payment, keep: bool, w: MonthWindow, target: int)
    requires SameFigures(z, kept, ps, w, target)
    requires keep || !Counts(z, p, w, target)
    ensures SameFigures(z, kept + (if keep then [p] else []), ps + [p], w, target)
  {
    hide Recognised, NonRecurring, Collected, RecognisedOf, NonRecurringOf, CollectedOf;
    OneMore(z, ps, p, w, target);
    OneMore(z, kept, p, w, target);
    assert kept + [] == kept;
  }

  function WithoutOrders(ps: seq<Payment>): seq<Payment> {
    if ps == [] then []
    else WithoutOrders(ps[..|ps| - 1]) + if ps[|ps| - 1].kind != "order" then [ps[|ps| - 1]] else []
  }

  /** What a merchant's own customers pay never moves a platform figure. */
  lemma {:induction false} OrdersDoNotCount(z: Zone, ps: seq<Payment>, w: MonthWindow, target: int)
    ensures SameFigures(z, WithoutOrders(ps), ps, w, target)
  {
    hide SameFigures;
    if ps == [] {
      Reflexive(z, ps, w, target);
    } else {
      var before, p := ps[..|ps| - 1], ps[|ps| - 1];
      OrdersDoNotCount(z, before, w, target);
      assert before + [p] == ps;
      DropOrKeep(z, WithoutOrders(before), before, p, p.kind != "order", w, target);
    }
  }

  lemma Reflexive(z: Zone, ps: seq<Payment>, w: MonthWindow, target: int)
    ensures SameFigures(z, ps, ps, w, target)
  {
  }

  /** Monthly money is recognised exactly in the window it was collected in: the key-based figure is the date-based one. */
  lemma {:induction false} MonthlyFiguresAgree(z: Zone, ps: seq<Payment>, now: int)
    requires z.Valid() && (forall o :: CleanMidnight(z, o))
    requires Datable(z, ps) && 0 <= PartsInZone(z, now).year
    requires forall p :: p in ps ==> p.period.Monthly?
    ensures MonthKey(MonthWindowOf(z, now).key)
    ensures Recognised(z, ps, OrdinalOfKey(MonthWindowOf(z, now).key)) == Subscriptions(ps, MonthWindowOf(z, now))
  {
    hide MonthWindowOf, CleanMidnight, PartsInZone, Zone.Valid;
    WindowsAndKeysAgree(z, now, now);
    if ps != [] {
      var before, p := ps[..|ps| - 1], ps[|ps| - 1];
      MonthlyFiguresAgree(z, before, now);
      if p.Paid() {
        WindowsAndKeysAgree(z, p.paidAt.value, now);
        MonthOrdinalIs(z, p.paidAt.value);
      }
    }
  }
}
