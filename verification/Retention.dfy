/** Recording, rolling up and pruning one tenant's events, in any order: aggregates that outlive their source. */
module Retention {
  import opened Calendar
  import opened Counting
  import opened Ingest
  import opened Options
  import opened Rollup
  import opened VisitorKey

  /** `log` is every event ever stored, which the system itself forgets; `cut` is the latest instant pruned up to. */
  datatype World = World(now: int, raw: seq<Event>, tables: Tables, log: seq<Event>, cut: int)

  datatype Step =
    | Tick(ms: nat)
    | Report(event: Reported, maxDwellMs: Option<real>, visitor: string)
    | Roll(day: int)
    | Prune(before: int)

  /** Events strictly older than `before` go; the instant was computed in the past of the pass. */
  predicate Enabled(w: World, step: Step) { step.Prune? ==> step.before <= w.now }

  function Since(before: int): Event -> bool { (e: Event) => e.at >= before }

  function Next(host: Host, w: World, step: Step): World {
    match step
    case Tick(ms) => w.(now := w.now + ms)
    case Report(event, maxDwellMs, visitor) =>
      var fields := NormaliseEvent(host, event, maxDwellMs);
      var e := Event(fields, visitor, w.now);
      if WorthStoring(fields) then w.(raw := w.raw + [e], log := w.log + [e]) else w
    case Roll(day) => w.(tables := RolledUp(w.tables, w.raw, DayOf(day)))
    case Prune(before) => w.(raw := Select(w.raw, Since(before)), cut := if before > w.cut then before else w.cut)
  }

  /** Nothing stored yet, and nothing pruned since the epoch. */
  function Start(now: nat): World { World(now, [], Tables(map[], map[], map[]), [], 0) }

  function Run(host: Host, w: World, steps: seq<Step>): World {
    if steps == [] then w else Next(host, Run(host, w, steps[..|steps| - 1]), steps[|steps| - 1])
  }

  /** Every step of the run was possible when it was taken. */
  ghost predicate Possible(host: Host, w: World, steps: seq<Step>) {
    steps == [] ||
    (Possible(host, w, steps[..|steps| - 1]) && Enabled(Run(host, w, steps[..|steps| - 1]), steps[|steps| - 1]))
  }

  /** The reports of a run that count, each stamped with the instant it came in. */
  ghost function Stored(host: Host, now: int, steps: seq<Step>): seq<Event> {
    if steps == [] then []
    else
      var before, last := steps[..|steps| - 1], steps[|steps| - 1];
      Stored(host, now, before) +
      if last.Report? && Counts(host, last.event)
      then [Event(NormaliseEvent(host, last.event, last.maxDwellMs), last.visitor, now + Elapsed(before))] else []
  }

  function Elapsed(steps: seq<Step>): nat {
    if steps == [] then 0
    else Elapsed(steps[..|steps| - 1]) + if steps[|steps| - 1].Tick? then steps[|steps| - 1].ms else 0
  }

  /** Nothing that counts is lost on its way into the log, and nothing else gets there. */
  lemma {:induction false} LogIsReports(host: Host, w: World, steps: seq<Step>)
    ensures Run(host, w, steps).log == w.log + Stored(host, w.now, steps)
    ensures Run(host, w, steps).now == w.now + Elapsed(steps)
  {
    hide NormaliseEvent, WorthStoring, RolledUp, Select, Counts;
    if steps == [] {
      assert w.log + [] == w.log;
    } else {
      var before, last := steps[..|steps| - 1], steps[|steps| - 1];
      LogIsReports(host, w, before);
      if last.Report? { StoredExactly(host, last.event, last.maxDwellMs); }
      assert Run(host, w, before).log + [] == w.log + (Stored(host, w.now, before) + []);
    }
  }

  // ------------------------------------------------------------------------------------------
  // The invariant
  // ------------------------------------------------------------------------------------------

  function DayStart(d: int): int { d * MS_PER_DAY }

  ghost predicate Inv(w: World) {
    && w.cut <= w.now
    && w.raw == Select(w.log, Since(w.cut))
    && (forall e :: e in w.log ==> e.at <= w.now && e.fields.path in SHAPES)
    && (forall d :: Sound(w.tables, w.log, d))
  }

  lemma StartInv(now: nat)
    ensures Inv(Start(now))
  {
  }

  lemma {:induction false} SelectTwice(log: seq<Event>, a: int, b: int)
    ensures Select(Select(log, Since(a)), Since(b)) == Select(log, Since(if a > b then a else b))
  {
    if log != [] {
      var n := |log| - 1;
      SelectTwice(log[..n], a, b);
      var s := Select(log[..n], Since(a));
      assert (s + [log[n]])[..|s|] == s;
      assert s + [] == s;
    }
  }

  lemma AppendKeeps(log: seq<Event>, e: Event, cut: int)
    requires cut <= e.at
    ensures Select(log + [e], Since(cut)) == Select(log, Since(cut)) + [e]
  {
    assert (log + [e])[..|log|] == log;
  }

  /** Groups only ever gain events. */
  lemma GroupsGrow(log: seq<Event>, e: Event, group: Group)
    ensures forall k :: k in Keys(log, group) ==> k in Keys(log + [e], group)
  {
    assert (log + [e])[..|log|] == log;
  }

  lemma SoundGrows(t: Tables, log: seq<Event>, e: Event, d: int)
    requires Sound(t, log, d)
    ensures Sound(t, log + [e], d)
  {
    GroupsGrow(log, e, ByPath(d));
    GroupsGrow(log, e, BySection(d));
    GroupsGrow(log, e, ByTerm(d));
    hide Keys;
    assert Keys(log, ByPath(d)) != [] ==> Keys(log, ByPath(d))[0] in Keys(log + [e], ByPath(d));
  }

  /** Raw groups are groups of the log. */
  lemma RawGroups(log: seq<Event>, cut: int, group: Group)
    ensures forall k :: k in Keys(Select(log, Since(cut)), group) ==> k in Keys(log, group)
  {
    KeysExact(log, group);
    KeysExact(Select(log, Since(cut)), group);
    SelectIs(log, Since(cut));
    hide Keys, Select;
  }

  lemma SoundRolled(t: Tables, log: seq<Event>, cut: int, d: int, other: int)
    requires Sound(t, log, d) && Sound(t, log, other)
    ensures Sound(RolledUp(t, Select(log, Since(cut)), d), log, other)
  {
    hide Keys, SiteVisitors, PathRow, SectionOf, TermOf, Select;
    var raw := Select(log, Since(cut));
    RawGroups(log, cut, ByPath(d));
    RawGroups(log, cut, BySection(d));
    RawGroups(log, cut, ByTerm(d));
    var t' := RolledUp(t, raw, d);
    if d != other {
      forall k ensures SameAt(t, t', other, k) {
        OtherDaysKept(t, raw, d, other, k);
      }
      SoundByRows(t, t', log, other);
    } else {
      SoundHere(t, log, raw, d);
    }
  }

  ghost predicate SameAt(t: Tables, t': Tables, d: int, k: string) {
    Get(t'.daily, (d, k)) == Get(t.daily, (d, k)) && Get(t'.sections, (d, k)) == Get(t.sections, (d, k)) &&
    Get(t'.terms, (d, k)) == Get(t.terms, (d, k))
  }

  lemma SoundByRows(t: Tables, t': Tables, log: seq<Event>, d: int)
    requires Sound(t, log, d)
    requires forall k :: SameAt(t, t', d, k)
    ensures Sound(t', log, d)
  {
    hide Keys;
    forall k
      ensures ((d, k) in t'.daily <==> (d, k) in t.daily) && ((d, k) in t.daily ==> t'.daily[(d, k)] == t.daily[(d, k)])
      ensures (d, k) in t'.sections <==> (d, k) in t.sections
      ensures (d, k) in t'.terms <==> (d, k) in t.terms
    {
      assert SameAt(t, t', d, k);
    }
  }

  lemma SoundHere(t: Tables, log: seq<Event>, raw: seq<Event>, d: int)
    requires Sound(t, log, d)
    requires forall k :: k in Keys(raw, ByPath(d)) ==> k in Keys(log, ByPath(d))
    requires forall k :: k in Keys(raw, BySection(d)) ==> k in Keys(log, BySection(d))
    requires forall k :: k in Keys(raw, ByTerm(d)) ==> k in Keys(log, ByTerm(d))
    ensures Sound(RolledUp(t, raw, d), log, d)
  {
    hide Keys, SiteVisitors, PathRow, SectionOf, TermOf;
    var t' := RolledUp(t, raw, d);
    var site := UpsertSite(t.daily, d, SiteVisitors(raw, d));
    assert Keys(raw, ByPath(d)) != [] ==> Keys(raw, ByPath(d))[0] in Keys(log, ByPath(d));
    forall k
      ensures (d, k) in t'.daily ==> Keys(log, ByPath(d)) != [] && (k == SITE_TOTAL_PATH || k in Keys(log, ByPath(d)))
      ensures (d, k) in t'.sections ==> k in Keys(log, BySection(d))
      ensures (d, k) in t'.terms ==> k in Keys(log, ByTerm(d))
    {
      PathsAt(site, raw, d, Keys(raw, ByPath(d)), (d, k));
      SectionsAt(t.sections, raw, d, Keys(raw, BySection(d)), (d, k));
      TermsAt(t.terms, raw, d, Keys(raw, ByTerm(d)), (d, k));
      hide UpsertPaths, UpsertSections, UpsertTerms;
    }
    PathsAt(site, raw, d, Keys(raw, ByPath(d)), (d, SITE_TOTAL_PATH));
  }

  lemma StepInv(host: Host, w: World, step: Step)
    requires Inv(w) && Enabled(w, step)
    ensures Inv(Next(host, w, step))
  {
    hide Sound, RolledUp, Select, NormaliseEvent, NormalisePath;
    match step
    case Tick(ms) =>
    case Report(event, maxDwellMs, visitor) =>
      var e := Event(NormaliseEvent(host, event, maxDwellMs), visitor, w.now);
      ReportInv(host, w, event, maxDwellMs, e);
    case Roll(day) =>
      forall d ensures Sound(RolledUp(w.tables, w.raw, DayOf(day)), w.log, d) {
        SoundRolled(w.tables, w.log, w.cut, DayOf(day), d);
      }
    case Prune(before) =>
      SelectTwice(w.log, w.cut, before);
  }

  lemma ReportInv(host: Host, w: World, event: Reported, maxDwellMs: Option<real>, e: Event)
    requires Inv(w) && e.fields == NormaliseEvent(host, event, maxDwellMs) && e.at == w.now
    ensures WorthStoring(e.fields) ==> Inv(w.(raw := w.raw + [e], log := w.log + [e]))
  {
    hide Sound, Select, NormaliseTarget, NormaliseTerm, ClampDwell, NormalisePath, WorthStoring;
    AppendKeeps(w.log, e, w.cut);
    PathIsAShape(host.urlPathname, event.path);
    forall d ensures Sound(w.tables, w.log + [e], d) {
      SoundGrows(w.tables, w.log, e, d);
    }
  }

  lemma {:induction false} RunInv(host: Host, now: nat, steps: seq<Step>)
    requires Possible(host, Start(now), steps)
    ensures Inv(Run(host, Start(now), steps))
  {
    hide Inv, Next, Enabled;
    if steps == [] {
      StartInv(now);
    } else {
      RunInv(host, now, steps[..|steps| - 1]);
      StepInv(host, Run(host, Start(now), steps[..|steps| - 1]), steps[|steps| - 1]);
    }
  }

  lemma {:induction false} CutIsLatest(host: Host, w: World, steps: seq<Step>)
    ensures var cut := Run(host, w, steps).cut;
      && (cut == w.cut || exists s :: s in steps && s.Prune? && s.before == cut)
      && w.cut <= cut && forall s :: s in steps && s.Prune? ==> s.before <= cut
  {
    hide NormaliseEvent, WorthStoring, RolledUp, Select;
    if steps != [] {
      var n := |steps| - 1;
      CutIsLatest(host, w, steps[..n]);
      assert steps == steps[..n] + [steps[n]];
    }
  }

  lemma {:induction false} StoredFrom(host: Host, now: nat, steps: seq<Step>)
    ensures forall e :: e in Stored(host, now, steps) ==> 0 <= e.at
  {
    hide NormaliseEvent, Counts;
    if steps != [] { StoredFrom(host, now, steps[..|steps| - 1]); }
  }

  /** In every run a raw row is still there exactly when no prune of the run was up to an instant after it. */
  lemma PrunedExactly(host: Host, now: nat, steps: seq<Step>, e: Event)
    requires Possible(host, Start(now), steps)
    ensures e in Run(host, Start(now), steps).raw <==>
      e in Stored(host, now, steps) && forall s :: s in steps && s.Prune? ==> s.before <= e.at
  {
    hide Next, Enabled, Possible, Stored, Run;
    RunInv(host, now, steps);
    LogIsReports(host, Start(now), steps);
    CutIsLatest(host, Start(now), steps);
    StoredFrom(host, now, steps);
    var w := Run(host, Start(now), steps);
    assert w.log == Stored(host, now, steps);
    SelectIs(w.log, Since(w.cut));
    hide Select, Sound;
  }

  // ------------------------------------------------------------------------------------------
  // Exactness
  // ------------------------------------------------------------------------------------------

  /** The prune so far has taken the whole day or none of it. */
  predicate WholeDays(cut: int, d: int) { cut <= DayStart(d) || DayStart(d + 1) <= cut }

  lemma OnDayIs(e: Event, d: int)
    ensures OnDay(d)(e) <==> DayStart(d) <= e.at < DayStart(d + 1)
  {
  }

  lemma {:induction false} DayUncut(log: seq<Event>, cut: int, d: int)
    ensures cut <= DayStart(d) ==> Select(Select(log, Since(cut)), OnDay(d)) == Select(log, OnDay(d))
    ensures DayStart(d + 1) <= cut ==> Select(Select(log, Since(cut)), OnDay(d)) == []
  {
    hide OnDay, DayStart;
    if log != [] {
      var n := |log| - 1;
      DayUncut(log[..n], cut, d);
      OnDayIs(log[n], d);
      var s := Select(log[..n], Since(cut));
      assert (s + [log[n]])[..|s|] == s;
      assert s + [] == s;
    }
  }

  lemma RowsNeedEvents(raw: seq<Event>, d: int)
    ensures Keys(raw, ByPath(d)) != [] ==> Select(raw, OnDay(d)) != []
  {
    KeysExact(raw, ByPath(d));
    SelectIs(raw, OnDay(d));
    if Keys(raw, ByPath(d)) != [] {
      var k := Keys(raw, ByPath(d))[0];
      assert k in Keys(raw, ByPath(d));
      var e :| e in raw && ByPath(d)(e) == Some(k);
      assert e in Select(raw, OnDay(d));
    }
  }

  /** A day with no raw events left is not overwritten: neither with zeros nor with anything else. */
  lemma PrunedDayKept(t: Tables, raw: seq<Event>, d: int)
    requires Select(raw, OnDay(d)) == []
    ensures RolledUp(t, raw, d) == t
  {
    RowsNeedEvents(raw, d);
  }

  /** Rolling up a day none of whose events were pruned makes it exact, whatever the tables held. */
  lemma RollMakesExact(w: World, d: int)
    requires Inv(w) && w.cut <= DayStart(d)
    ensures Exact(RolledUp(w.tables, w.raw, d), w.log, d)
  {
    DayUncut(w.log, w.cut, d);
    SoundRaw(w, d);
    hide Sound, Exact, RolledUp, Select;
    RollupIsExact(w.tables, w.raw, d);
    SameDaySameRows(w.raw, w.log, d);
  }

  lemma SoundRaw(w: World, d: int)
    requires Inv(w) && Select(w.raw, OnDay(d)) == Select(w.log, OnDay(d))
    ensures Sound(w.tables, w.raw, d)
  {
    var day := Select(w.log, OnDay(d));
    SelectKeepsCounts(w.log, OnDay(d), ByPath(d), Dwell);
    SelectKeepsCounts(w.log, OnDay(d), BySection(d), Dwell);
    SelectKeepsCounts(w.log, OnDay(d), ByTerm(d), Dwell);
    SelectKeepsCounts(w.raw, OnDay(d), ByPath(d), Dwell);
    SelectKeepsCounts(w.raw, OnDay(d), BySection(d), Dwell);
    SelectKeepsCounts(w.raw, OnDay(d), ByTerm(d), Dwell);
    assert Sound(w.tables, w.log, d);
    hide Keys, CountKey, SumKey, Select, ByPath, BySection, ByTerm;
  }

  /** An exact day that is over stays exact under every step, given that it is not rolled up again half pruned. */
  lemma StepKeepsExact(host: Host, w: World, step: Step, d: int)
    requires Inv(w) && Enabled(w, step) && Exact(w.tables, w.log, d) && DayStart(d + 1) <= w.now
    requires step.Roll? && DayOf(step.day) == d ==> WholeDays(w.cut, d)
    ensures var w' := Next(host, w, step); Exact(w'.tables, w'.log, d)
  {
    hide Exact, RolledUp, Select, NormaliseEvent;
    match step
    case Tick(ms) =>
    case Report(event, maxDwellMs, visitor) =>
      var e := Event(NormaliseEvent(host, event, maxDwellMs), visitor, w.now);
      LaterEvent(w.log, e, d);
      SameDaySameRows(w.log, w.log + [e], d);
    case Roll(day) =>
      if DayOf(day) != d {
        OtherDayExact(w.tables, w.raw, w.log, DayOf(day), d);
      } else if w.cut <= DayStart(d) {
        RollMakesExact(w, d);
      } else {
        DayUncut(w.log, w.cut, d);
        PrunedDayKept(w.tables, w.raw, d);
      }
    case Prune(before) =>
  }

  lemma LaterEvent(log: seq<Event>, e: Event, d: int)
    requires DayStart(d + 1) <= e.at
    ensures Select(log + [e], OnDay(d)) == Select(log, OnDay(d))
  {
    OnDayIs(e, d);
    hide OnDay, DayStart;
    assert (log + [e])[..|log|] == log;
  }

  lemma OtherDayExact(t: Tables, raw: seq<Event>, log: seq<Event>, d: int, other: int)
    requires d != other && Exact(t, log, other)
    ensures Exact(RolledUp(t, raw, d), log, other)
  {
    hide RolledUp, DailyRowOf, SectionRowOf, TermRowOf;
    forall k ensures SameAt(t, RolledUp(t, raw, d), other, k) {
      OtherDaysKept(t, raw, d, other, k);
    }
    forall k
      ensures Get(RolledUp(t, raw, d).daily, (other, k)) == DailyRowOf(log, other, k) &&
        Get(RolledUp(t, raw, d).sections, (other, k)) == SectionRowOf(log, other, k) &&
        Get(RolledUp(t, raw, d).terms, (other, k)) == TermRowOf(log, other, k)
    {
      assert SameAt(t, RolledUp(t, raw, d), other, k);
    }
  }

  /** In every run: a day rolled up after its end, before any of it was pruned, and rolled up again only when the
      pruning so far had taken all of it or nothing, keeps exactly the aggregates of every event ever stored that day. */
  lemma {:induction false} ExactForever(host: Host, now: nat, steps: seq<Step>, i: nat, d: int)
    requires Possible(host, Start(now), steps) && i < |steps|
    requires steps[i].Roll? && DayOf(steps[i].day) == d
    requires var w := Run(host, Start(now), steps[..i]); w.cut <= DayStart(d) && DayStart(d + 1) <= w.now
    requires forall j :: i < j < |steps| && steps[j].Roll? && DayOf(steps[j].day) == d ==>
      WholeDays(Run(host, Start(now), steps[..j]).cut, d)
    ensures var w := Run(host, Start(now), steps); Exact(w.tables, w.log, d)
  {
    hide Exact, Inv, RolledUp, Enabled, WholeDays, DayStart, Possible;
    var n := |steps| - 1;
    PrefixPossible(host, Start(now), steps, n);
    PrefixPossible(host, Start(now), steps, i);
    RunInv(host, now, steps[..n]);
    if i == n {
      RollMakesExact(Run(host, Start(now), steps[..n]), d);
    } else {
      assert steps[..n][..i] == steps[..i];
      forall j | i < j < n ensures steps[..n][..j] == steps[..j] && steps[..n][j] == steps[j] {}
      ExactForever(host, now, steps[..n], i, d);
      ClockAscends(host, Start(now), steps, i, n);
      StepKeepsExact(host, Run(host, Start(now), steps[..n]), steps[n], d);
    }
  }

  lemma {:induction false} PrefixPossible(host: Host, w: World, steps: seq<Step>, i: nat)
    requires i <= |steps| && Possible(host, w, steps)
    ensures Possible(host, w, steps[..i])
    ensures i < |steps| ==> Enabled(Run(host, w, steps[..i]), steps[i])
  {
    hide Enabled, Run;
    if i == |steps| {
      assert steps[..i] == steps;
    } else if i < |steps| - 1 {
      assert steps[..|steps| - 1][..i] == steps[..i];
      PrefixPossible(host, w, steps[..|steps| - 1], i);
    }
  }

  lemma {:induction false} ClockAscends(host: Host, w: World, steps: seq<Step>, i: nat, j: nat)
    requires i <= j <= |steps|
    ensures Run(host, w, steps[..i]).now <= Run(host, w, steps[..j]).now
    decreases j
  {
    if i < j {
      ClockAscends(host, w, steps, i, j - 1);
      assert steps[..j][..j - 1] == steps[..j - 1];
      hide NormaliseEvent, WorthStoring, RolledUp, Select;
    }
  }

  // ------------------------------------------------------------------------------------------
  // When pruning does not take whole days
  // ------------------------------------------------------------------------------------------

  /** The day rolled up, the log pruned to `cut`, and the day rolled up again. */
  ghost predicate Survives(log: seq<Event>, cut: int, d: int) {
    Exact(RolledUp(RolledUp(Tables(map[], map[], map[]), log, d), Select(log, Since(cut)), d), log, d)
  }

  function View(at: int): Event { Event(Normalised(PageView, "/", None, None, None, None), "v", at) }

  lemma HalfAViewLost(cut: int, d: int)
    requires DayStart(d) < cut < DayStart(d + 1)
    ensures !Survives([View(DayStart(d)), View(cut)], cut, d)
  {
    var a, b := View(DayStart(d)), View(cut);
    var t := RolledUp(Tables(map[], map[], map[]), [a, b], d);
    OnDayIs(a, d);
    OnDayIs(b, d);
    HalfLeft(a, b, cut);
    TwoViews(a, b, d);
    hide Keys, Select, DayStart, SiteVisitors;
    PathsAt(UpsertSite(t.daily, d, SiteVisitors([b], d)), [b], d, Keys([b], ByPath(d)), (d, "/"));
    hide UpsertPaths, UpsertSections, UpsertTerms;
    assert RolledUp(t, [b], d).daily[(d, "/")].pageviews == 1;
    assert DailyRowOf([a, b], d, "/").value.pageviews == 2;
    assert Get(RolledUp(t, [b], d).daily, (d, "/")) != DailyRowOf([a, b], d, "/");
  }

  lemma HalfLeft(a: Event, b: Event, cut: int)
    requires a.at < cut <= b.at
    ensures Select([a, b], Since(cut)) == [b]
  {
    assert [a, b][..1] == [a] && [a][..0] == [];
    assert Select([a], Since(cut)) == [];
  }

  lemma TwoViews(a: Event, b: Event, d: int)
    requires a.fields.kind.PageView? && b.fields.kind.PageView? && a.fields.path == b.fields.path == "/"
    requires OnDay(d)(a) && OnDay(d)(b)
    ensures PathRow([b], d, "/").pageviews == 1 && PathRow([a, b], d, "/").pageviews == 2
    ensures "/" in Keys([b], ByPath(d)) && "/" in Keys([a, b], ByPath(d))
  {
    var views := ByPathAndKind(d, PageView);
    assert [a, b][..1] == [a] && [a][..0] == [] && [b][..0] == [];
    assert CountKey([], views, "/") == 0;
    assert CountKey([a], views, "/") == 1 && CountKey([b], views, "/") == 1;
    KeysExact([b], ByPath(d));
    KeysExact([a, b], ByPath(d));
    assert ByPath(d)(b) == Some("/") && b in [b] && b in [a, b];
  }

  /** A second rollup after pruning keeps every day's rows exact if and only if the cutoff splits no day. */
  lemma SurvivesExactly(cut: int, d: int)
    ensures (forall log :: Survives(log, cut, d)) <==> WholeDays(cut, d)
  {
    if WholeDays(cut, d) {
      forall log ensures Survives(log, cut, d) {
        hide Exact, RolledUp, Sound;
        var none := Tables(map[], map[], map[]);
        SoundNone(log, d);
        RollupIsExact(none, log, d);
        DayUncut(log, cut, d);
        AgainExact(RolledUp(none, log, d), log, cut, d);
      }
    } else {
      HalfAViewLost(cut, d);
    }
  }

  lemma SoundNone(log: seq<Event>, d: int)
    ensures Sound(Tables(map[], map[], map[]), log, d)
  {
  }

  lemma AgainExact(t: Tables, log: seq<Event>, cut: int, d: int)
    requires Exact(t, log, d) && WholeDays(cut, d)
    ensures Exact(RolledUp(t, Select(log, Since(cut)), d), log, d)
  {
    var raw := Select(log, Since(cut));
    DayUncut(log, cut, d);
    if cut <= DayStart(d) {
      SameDaySameRows(raw, log, d);
      ExactIsSound(t, raw, d);
      hide Exact, RolledUp, Sound, Select;
      RollupIsExact(t, raw, d);
    } else {
      hide Exact, RolledUp, Select;
      PrunedDayKept(t, raw, d);
    }
  }

  lemma ExactIsSound(t: Tables, log: seq<Event>, d: int)
    requires Exact(t, log, d)
    ensures Sound(t, log, d)
  {
    hide Keys, SiteVisitors, PathRow, SectionOf, TermOf;
    forall k
      ensures Get(t.daily, (d, k)) == DailyRowOf(log, d, k) && Get(t.sections, (d, k)) == SectionRowOf(log, d, k) &&
        Get(t.terms, (d, k)) == TermRowOf(log, d, k)
    {
    }
  }
}
