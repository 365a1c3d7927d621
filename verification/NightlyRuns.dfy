/** Whole runs of the system, from the first event to the screen. */
module NightlyRuns {
  import opened Calendar
  import opened Counting
  import opened Ingest
  import opened Options
  import opened Retention
  import opened Rollup
  import opened VisitorKey
  import R = Report

  /** The nightly job rolls up days that are over, and never one that pruning has split. */
  predicate Nightly(w: World, step: Step) {
    step.Roll? ==> DayStart(DayOf(step.day) + 1) <= w.now && WholeDays(w.cut, DayOf(step.day))
  }

  ghost predicate AllNightly(host: Host, w: World, steps: seq<Step>) {
    steps == [] || (AllNightly(host, w, steps[..|steps| - 1]) && Nightly(Run(host, w, steps[..|steps| - 1]), steps[|steps| - 1]))
  }

  /** Every day with rows is over and exact. */
  ghost predicate Finished(w: World, d: int) {
    R.Bare(w.tables, d) || (Exact(w.tables, w.log, d) && DayStart(d + 1) <= w.now)
  }

  lemma BareKept(t: Tables, raw: seq<Event>, d: int, other: int)
    requires d != other && R.Bare(t, other)
    ensures R.Bare(RolledUp(t, raw, d), other)
  {
    hide RolledUp;
    forall k
      ensures (other, k) !in RolledUp(t, raw, d).daily && (other, k) !in RolledUp(t, raw, d).sections &&
        (other, k) !in RolledUp(t, raw, d).terms
    {
      OtherDaysKept(t, raw, d, other, k);
    }
  }

  lemma StepFinished(host: Host, w: World, step: Step, d: int)
    requires Inv(w) && Enabled(w, step) && Nightly(w, step) && Finished(w, d)
    ensures Finished(Next(host, w, step), d)
  {
    hide Exact, RolledUp, NormaliseEvent, WorthStoring, Select, Inv;
    if R.Bare(w.tables, d) {
      if step.Roll? {
        if DayOf(step.day) != d {
          BareKept(w.tables, w.raw, DayOf(step.day), d);
        } else {
          FirstRoll(w, d);
        }
      }
    } else {
      StepKeepsExact(host, w, step, d);
    }
  }

  lemma FirstRoll(w: World, d: int)
    requires Inv(w) && WholeDays(w.cut, d)
    ensures Exact(RolledUp(w.tables, w.raw, d), w.log, d) || RolledUp(w.tables, w.raw, d) == w.tables
  {
    hide Exact, RolledUp, Select;
    if w.cut <= DayStart(d) {
      RollMakesExact(w, d);
    } else {
      DayUncut(w.log, w.cut, d);
      PrunedDayKept(w.tables, w.raw, d);
    }
  }

  lemma {:induction false} RunFinished(host: Host, now: nat, steps: seq<Step>, d: int)
    requires Possible(host, Start(now), steps) && AllNightly(host, Start(now), steps)
    ensures Finished(Run(host, Start(now), steps), d)
  {
    hide Finished, Next, Enabled, Nightly, Inv;
    if steps == [] {
      StartFinished(now, d);
    } else {
      var before := steps[..|steps| - 1];
      RunFinished(host, now, before, d);
      RunInv(host, now, before);
      StepFinished(host, Run(host, Start(now), before), steps[|steps| - 1], d);
    }
  }

  lemma StartFinished(now: nat, d: int)
    ensures Finished(Start(now), d)
  {
  }

  /** In every run of nightly rollups, whatever was pruned in between, the screen's totals are counts of the events
      ever stored on the days reported. */
  lemma ScreenCountsEvents(host: Host, now: nat, steps: seq<Step>, rows: seq<R.Row<DailyRow>>, from: int, kind: Kind)
    requires Possible(host, Start(now), steps) && AllNightly(host, Start(now), steps) && Counted(kind)
    requires R.Lists(rows, Run(host, Start(now), steps).tables.daily)
    ensures var w := Run(host, Start(now), steps);
      R.Settled(w.tables, w.log, from) &&
      R.Total(rows, from, kind) == |Select(w.log, R.Seen(w.tables, from, kind, (d, p) => true))|
  {
    var w := Run(host, Start(now), steps);
    hide Exact, Run, Possible, AllNightly, R.Lists, Select, R.Bare;
    RunInv(host, now, steps);
    forall d ensures Exact(w.tables, w.log, d) || R.Bare(w.tables, d) {
      RunFinished(host, now, steps, d);
    }
    forall e | e in w.log ensures e.fields.path != SITE_TOTAL_PATH {
      assert e.fields.path in SHAPES;
      assert e.fields.path[0] == '/' && SITE_TOTAL_PATH[0] == '*';
    }
    R.TotalsAreEvents(w.tables, w.log, rows, from, kind);
  }
}
