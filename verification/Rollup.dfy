/** The nightly rollup of one tenant: raw events become permanent daily aggregates, and the raw events are pruned. */
module Rollup {
  import opened Calendar
  import opened Counting
  import opened Ingest
  import opened Options
  import opened VisitorKey

  const SITE_TOTAL_PATH := "*"
  const MAX_INT32 := 2_147_483_647

  /** A row of the raw table. */
  datatype Event = Event(fields: Normalised, visitor: string, at: int)

  datatype DailyRow = DailyRow(visitors: nat, pageviews: nat, productViews: nat, whatsappClicks: nat,
                               addToCarts: nat, checkoutStarts: nat, orders: nat)
  datatype SectionRow = SectionRow(views: nat, totalDwellMs: nat)
  datatype TermRow = TermRow(searches: nat, zeroResults: nat)

  /** The three permanent tables, keyed by day number and group. */
  datatype Tables = Tables(daily: map<(int, string), DailyRow>, sections: map<(int, string), SectionRow>,
                           terms: map<(int, string), TermRow>)

  // ------------------------------------------------------------------------------------------
  // The queries
  // ------------------------------------------------------------------------------------------

  type Group = Event -> Option<string>

  function OnDay(d: int): Event -> bool { (e: Event) => DayOf(e.at) == d }

  function ByPath(d: int): Group { (e: Event) => if DayOf(e.at) == d then Some(e.fields.path) else None }

  function ByPathAndKind(d: int, kind: Kind): Group {
    (e: Event) => if DayOf(e.at) == d && e.fields.kind == kind then Some(e.fields.path) else None
  }

  function WholeSite(d: int): Group { (e: Event) => if DayOf(e.at) == d then Some(SITE_TOTAL_PATH) else None }

  function BySection(d: int): Group {
    (e: Event) => if DayOf(e.at) == d && e.fields.kind.SectionView? then e.fields.target else None
  }

  function ByTerm(d: int): Group {
    (e: Event) => if DayOf(e.at) == d && e.fields.kind.Search? && e.fields.searchTerm != Some("") then e.fields.searchTerm else None
  }

  function ByFailedTerm(d: int): Group {
    (e: Event) => if e.fields.resultCount == Some(0) then ByTerm(d)(e) else None
  }

  function Dwell(e: Event): nat { if e.fields.dwellMs.Some? then e.fields.dwellMs.value else 0 }

  /** `COUNT(DISTINCT visitor_key)` of a group. */
  function Visitors(log: seq<Event>, group: Group, k: string): set<string> {
    set e | e in log && group(e) == Some(k) :: e.visitor
  }

  function Min(a: nat, b: nat): nat { if a < b then a else b }

  function PathRow(log: seq<Event>, d: int, path: string): DailyRow {
    DailyRow(|Visitors(log, ByPath(d), path)|,
      CountKey(log, ByPathAndKind(d, PageView), path),
      CountKey(log, ByPathAndKind(d, ProductView), path),
      CountKey(log, ByPathAndKind(d, WhatsappClick), path),
      CountKey(log, ByPathAndKind(d, AddToCart), path),
      CountKey(log, ByPathAndKind(d, CheckoutStart), path),
      CountKey(log, ByPathAndKind(d, OrderPlaced), path))
  }

  function SiteVisitors(log: seq<Event>, d: int): nat { |Visitors(log, WholeSite(d), SITE_TOTAL_PATH)| }

  function SectionOf(log: seq<Event>, d: int, section: string): SectionRow {
    SectionRow(CountKey(log, BySection(d), section), Min(SumKey(log, BySection(d), Dwell, section), MAX_INT32))
  }

  function TermOf(log: seq<Event>, d: int, term: string): TermRow {
    var searches := CountKey(log, ByTerm(d), term);
    TermRow(searches, Min(CountKey(log, ByFailedTerm(d), term), searches))
  }

  // ------------------------------------------------------------------------------------------
  // The upserts
  // ------------------------------------------------------------------------------------------

  function UpsertSite(daily: map<(int, string), DailyRow>, d: int, visitors: nat): map<(int, string), DailyRow> {
    var key := (d, SITE_TOTAL_PATH);
    daily[key := if key in daily then daily[key].(visitors := visitors) else DailyRow(visitors, 0, 0, 0, 0, 0, 0)]
  }

  function UpsertPaths(daily: map<(int, string), DailyRow>, log: seq<Event>, d: int, paths: seq<string>): map<(int, string), DailyRow> {
    if paths == [] then daily
    else
      var before, path := UpsertPaths(daily, log, d, paths[..|paths| - 1]), paths[|paths| - 1];
      if path == SITE_TOTAL_PATH then before else before[(d, path) := PathRow(log, d, path)]
  }

  function UpsertSections(rows: map<(int, string), SectionRow>, log: seq<Event>, d: int, keys: seq<string>): map<(int, string), SectionRow> {
    if keys == [] then rows
    else UpsertSections(rows, log, d, keys[..|keys| - 1])[(d, keys[|keys| - 1]) := SectionOf(log, d, keys[|keys| - 1])]
  }

  function UpsertTerms(rows: map<(int, string), TermRow>, log: seq<Event>, d: int, keys: seq<string>): map<(int, string), TermRow> {
    if keys == [] then rows
    else UpsertTerms(rows, log, d, keys[..|keys| - 1])[(d, keys[|keys| - 1]) := TermOf(log, d, keys[|keys| - 1])]
  }

  /** The tables after rolling up day number `d` from the raw table. */
  function RolledUp(t: Tables, raw: seq<Event>, d: int): Tables {
    var paths := Keys(raw, ByPath(d));
    if paths == [] then t
    else
      Tables(UpsertPaths(UpsertSite(t.daily, d, SiteVisitors(raw, d)), raw, d, paths),
        UpsertSections(t.sections, raw, d, Keys(raw, BySection(d))),
        UpsertTerms(t.terms, raw, d, Keys(raw, ByTerm(d))))
  }

  /** What the job reports as the number of events. */
  function EventsIn(raw: seq<Event>, d: int, paths: seq<string>): nat {
    if paths == [] then 0
    else
      var row := PathRow(raw, d, paths[|paths| - 1]);
      EventsIn(raw, d, paths[..|paths| - 1]) + row.pageviews + row.productViews + row.whatsappClicks +
      row.addToCarts + row.checkoutStarts + row.orders
  }

  lemma OneMore<T>(s: seq<T>, i: nat)
    requires i < |s|
    ensures s[..i + 1] != [] && s[..i + 1][..|s[..i + 1]| - 1] == s[..i] && s[..i + 1][|s[..i + 1]| - 1] == s[i]
  {
  }

  /** One tenant's tables as the job's transaction sees them. */
  class Warehouse {
    var raw: seq<Event>
    var daily: map<(int, string), DailyRow>
    var sections: map<(int, string), SectionRow>
    var terms: map<(int, string), TermRow>

    function All(): Tables reads this { Tables(daily, sections, terms) }

    constructor (raw: seq<Event>, t: Tables)
      ensures this.raw == raw && All() == t
    {
      this.raw, daily, sections, terms := raw, t.daily, t.sections, t.terms;
    }

    /** `day` is any instant; the rows scanned are those of its UTC day. */
    method RollupTenantDay(day: int) returns (paths: nat, sectionCount: nat, termCount: nat, events: nat)
      modifies this
      ensures raw == old(raw) && All() == RolledUp(old(All()), raw, DayOf(day))
      ensures paths == |Keys(raw, ByPath(DayOf(day)))| && events == EventsIn(raw, DayOf(day), Keys(raw, ByPath(DayOf(day))))
      ensures paths > 0 ==> sectionCount == |Keys(raw, BySection(DayOf(day)))| && termCount == |Keys(raw, ByTerm(DayOf(day)))|
      ensures paths == 0 ==> sectionCount == termCount == 0
    {
      hide PathRow, SectionOf, TermOf, SiteVisitors, Keys, ByPath, BySection, ByTerm, UtcDay;
      var from := UtcDay(day);
      UtcDayIs(day);
      var d := DayOf(from);
      assert d == DayOf(day);
      var pathRows := Keys(raw, ByPath(d));
      if |pathRows| == 0 { return 0, 0, 0, 0; }
      var sectionRows := Keys(raw, BySection(d));
      var termRows := Keys(raw, ByTerm(d));
      daily := UpsertSite(daily, d, SiteVisitors(raw, d));
      events := WritePaths(d, pathRows);
      WriteSections(d, sectionRows);
      WriteTerms(d, termRows);
      return |pathRows|, |sectionRows|, |termRows|, events;
    }

    method WritePaths(d: int, pathRows: seq<string>) returns (events: nat)
      modifies this`daily
      ensures daily == UpsertPaths(old(daily), raw, d, pathRows) && events == EventsIn(raw, d, pathRows)
    {
      hide PathRow;
      events := 0;
      for i := 0 to |pathRows|
        invariant daily == UpsertPaths(old(daily), raw, d, pathRows[..i]) && events == EventsIn(raw, d, pathRows[..i])
      {
        OneMore(pathRows, i);
        var row := PathRow(raw, d, pathRows[i]);
        events := events + row.pageviews + row.productViews + row.whatsappClicks + row.addToCarts +
          row.checkoutStarts + row.orders;
        if pathRows[i] == SITE_TOTAL_PATH { continue; }
        daily := daily[(d, pathRows[i]) := row];
      }
      assert pathRows[..|pathRows|] == pathRows;
    }

    method WriteSections(d: int, sectionRows: seq<string>)
      modifies this`sections
      ensures sections == UpsertSections(old(sections), raw, d, sectionRows)
    {
      hide SectionOf;
      for i := 0 to |sectionRows|
        invariant sections == UpsertSections(old(sections), raw, d, sectionRows[..i])
      {
        OneMore(sectionRows, i);
        sections := sections[(d, sectionRows[i]) := SectionOf(raw, d, sectionRows[i])];
      }
      assert sectionRows[..|sectionRows|] == sectionRows;
    }

    method WriteTerms(d: int, termRows: seq<string>)
      modifies this`terms
      ensures terms == UpsertTerms(old(terms), raw, d, termRows)
    {
      hide TermOf;
      for i := 0 to |termRows|
        invariant terms == UpsertTerms(old(terms), raw, d, termRows[..i])
      {
        OneMore(termRows, i);
        terms := terms[(d, termRows[i]) := TermOf(raw, d, termRows[i])];
      }
      assert termRows[..|termRows|] == termRows;
    }
  }

  // ------------------------------------------------------------------------------------------
  // What a rollup leaves in the tables
  // ------------------------------------------------------------------------------------------

  /** The row the tables should hold for day `d` and group `k`, given every event of that day. */
  function DailyRowOf(log: seq<Event>, d: int, k: string): Option<DailyRow> {
    if Keys(log, ByPath(d)) == [] then None
    else if k == SITE_TOTAL_PATH then Some(DailyRow(SiteVisitors(log, d), 0, 0, 0, 0, 0, 0))
    else if k in Keys(log, ByPath(d)) then Some(PathRow(log, d, k))
    else None
  }

  function SectionRowOf(log: seq<Event>, d: int, k: string): Option<SectionRow> {
    if k in Keys(log, BySection(d)) then Some(SectionOf(log, d, k)) else None
  }

  function TermRowOf(log: seq<Event>, d: int, k: string): Option<TermRow> {
    if k in Keys(log, ByTerm(d)) then Some(TermOf(log, d, k)) else None
  }

  function Get<K, V>(m: map<K, V>, k: K): Option<V> { if k in m then Some(m[k]) else None }

  /** The tables hold exactly the aggregates of `log` for day `d`: every group its row, and no other row. */
  ghost predicate Exact(t: Tables, log: seq<Event>, d: int) {
    && (forall k :: Get(t.daily, (d, k)) == DailyRowOf(log, d, k))
    && (forall k :: Get(t.sections, (d, k)) == SectionRowOf(log, d, k))
    && (forall k :: Get(t.terms, (d, k)) == TermRowOf(log, d, k))
  }

  /** No row of day `d` is for a group the log lacks, and the site row carries visitors and nothing else. */
  ghost predicate Sound(t: Tables, log: seq<Event>, d: int) {
    && (forall k :: (d, k) in t.daily ==> Keys(log, ByPath(d)) != [] && (k == SITE_TOTAL_PATH || k in Keys(log, ByPath(d))))
    && ((d, SITE_TOTAL_PATH) in t.daily ==>
          var r := t.daily[(d, SITE_TOTAL_PATH)]; r == DailyRow(r.visitors, 0, 0, 0, 0, 0, 0))
    && (forall k :: (d, k) in t.sections ==> k in Keys(log, BySection(d)))
    && (forall k :: (d, k) in t.terms ==> k in Keys(log, ByTerm(d)))
  }

  lemma {:induction false} PathsAt(daily: map<(int, string), DailyRow>, log: seq<Event>, d: int, paths: seq<string>, k: (int, string))
    ensures Get(UpsertPaths(daily, log, d, paths), k) ==
      if k.0 == d && k.1 != SITE_TOTAL_PATH && k.1 in paths then Some(PathRow(log, d, k.1)) else Get(daily, k)
  {
    hide PathRow;
    if paths != [] {
      var n := |paths| - 1;
      PathsAt(daily, log, d, paths[..n], k);
      assert paths == paths[..n] + [paths[n]];
    }
  }

  lemma {:induction false} SectionsAt(rows: map<(int, string), SectionRow>, log: seq<Event>, d: int, keys: seq<string>, k: (int, string))
    ensures Get(UpsertSections(rows, log, d, keys), k) ==
      if k.0 == d && k.1 in keys then Some(SectionOf(log, d, k.1)) else Get(rows, k)
  {
    hide SectionOf;
    if keys != [] {
      var n := |keys| - 1;
      SectionsAt(rows, log, d, keys[..n], k);
      assert keys == keys[..n] + [keys[n]];
    }
  }

  lemma {:induction false} TermsAt(rows: map<(int, string), TermRow>, log: seq<Event>, d: int, keys: seq<string>, k: (int, string))
    ensures Get(UpsertTerms(rows, log, d, keys), k) ==
      if k.0 == d && k.1 in keys then Some(TermOf(log, d, k.1)) else Get(rows, k)
  {
    hide TermOf;
    if keys != [] {
      var n := |keys| - 1;
      TermsAt(rows, log, d, keys[..n], k);
      assert keys == keys[..n] + [keys[n]];
    }
  }

  /** A rollup of another day leaves the rows of this one alone. */
  lemma OtherDaysKept(t: Tables, raw: seq<Event>, d: int, other: int, k: string)
    requires d != other
    ensures var t' := RolledUp(t, raw, d);
      Get(t'.daily, (other, k)) == Get(t.daily, (other, k)) &&
      Get(t'.sections, (other, k)) == Get(t.sections, (other, k)) &&
      Get(t'.terms, (other, k)) == Get(t.terms, (other, k))
  {
    hide Keys, SiteVisitors;
    PathsAt(UpsertSite(t.daily, d, SiteVisitors(raw, d)), raw, d, Keys(raw, ByPath(d)), (other, k));
    SectionsAt(t.sections, raw, d, Keys(raw, BySection(d)), (other, k));
    TermsAt(t.terms, raw, d, Keys(raw, ByTerm(d)), (other, k));
    hide UpsertPaths, UpsertSections, UpsertTerms;
  }

  /** With every event of the day still in the raw table, a rollup makes the day exact. */
  lemma RollupIsExact(t: Tables, raw: seq<Event>, d: int)
    requires Sound(t, raw, d)
    ensures Exact(RolledUp(t, raw, d), raw, d)
  {
    hide Keys, SiteVisitors, PathRow, SectionOf, TermOf;
    var t' := RolledUp(t, raw, d);
    forall k
      ensures Get(t'.daily, (d, k)) == DailyRowOf(raw, d, k)
      ensures Get(t'.sections, (d, k)) == SectionRowOf(raw, d, k)
      ensures Get(t'.terms, (d, k)) == TermRowOf(raw, d, k)
    {
      RollupAt(t, raw, d, k);
    }
  }

  lemma RollupAt(t: Tables, raw: seq<Event>, d: int, k: string)
    requires Sound(t, raw, d)
    ensures var t' := RolledUp(t, raw, d);
      Get(t'.daily, (d, k)) == DailyRowOf(raw, d, k) && Get(t'.sections, (d, k)) == SectionRowOf(raw, d, k) &&
      Get(t'.terms, (d, k)) == TermRowOf(raw, d, k)
  {
    hide Keys, SiteVisitors, PathRow, SectionOf, TermOf;
    PathsAt(UpsertSite(t.daily, d, SiteVisitors(raw, d)), raw, d, Keys(raw, ByPath(d)), (d, k));
    SectionsAt(t.sections, raw, d, Keys(raw, BySection(d)), (d, k));
    TermsAt(t.terms, raw, d, Keys(raw, ByTerm(d)), (d, k));
    hide UpsertPaths, UpsertSections, UpsertTerms;
    if Keys(raw, ByPath(d)) == [] { QuietDay(raw, d); }
  }

  /** Every section view and every search is on a page. */
  lemma QuietDay(raw: seq<Event>, d: int)
    ensures Keys(raw, BySection(d)) != [] || Keys(raw, ByTerm(d)) != [] ==> Keys(raw, ByPath(d)) != []
  {
    KeysExact(raw, ByPath(d));
    KeysExact(raw, BySection(d));
    KeysExact(raw, ByTerm(d));
    if Keys(raw, BySection(d)) != [] {
      var e :| e in raw && BySection(d)(e) == Some(Keys(raw, BySection(d))[0]);
      assert ByPath(d)(e) == Some(e.fields.path);
    }
    if Keys(raw, ByTerm(d)) != [] {
      var e :| e in raw && ByTerm(d)(e) == Some(Keys(raw, ByTerm(d))[0]);
      assert ByPath(d)(e) == Some(e.fields.path);
    }
  }

  /** Running the job again writes the same tables. */
  lemma RollupIdempotent(t: Tables, raw: seq<Event>, d: int)
    ensures RolledUp(RolledUp(t, raw, d), raw, d) == RolledUp(t, raw, d)
  {
    hide Keys, SiteVisitors, PathRow, SectionOf, TermOf;
    var once := RolledUp(t, raw, d);
    var twice := RolledUp(once, raw, d);
    forall k: (int, string)
      ensures Get(twice.daily, k) == Get(once.daily, k) && Get(twice.sections, k) == Get(once.sections, k) &&
        Get(twice.terms, k) == Get(once.terms, k)
    {
      AgainAt(t, raw, d, k);
    }
    SameRows(twice.daily, once.daily);
    SameRows(twice.sections, once.sections);
    SameRows(twice.terms, once.terms);
  }

  lemma AgainAt(t: Tables, raw: seq<Event>, d: int, k: (int, string))
    ensures var once := RolledUp(t, raw, d);
      var twice := RolledUp(once, raw, d);
      Get(twice.daily, k) == Get(once.daily, k) && Get(twice.sections, k) == Get(once.sections, k) &&
      Get(twice.terms, k) == Get(once.terms, k)
  {
    hide Keys, SiteVisitors, PathRow, SectionOf, TermOf;
    var once := RolledUp(t, raw, d);
    var n := SiteVisitors(raw, d);
    PathsAt(UpsertSite(t.daily, d, n), raw, d, Keys(raw, ByPath(d)), k);
    SectionsAt(t.sections, raw, d, Keys(raw, BySection(d)), k);
    TermsAt(t.terms, raw, d, Keys(raw, ByTerm(d)), k);
    PathsAt(UpsertSite(once.daily, d, n), raw, d, Keys(raw, ByPath(d)), k);
    SectionsAt(once.sections, raw, d, Keys(raw, BySection(d)), k);
    TermsAt(once.terms, raw, d, Keys(raw, ByTerm(d)), k);
    PathsAt(UpsertSite(t.daily, d, n), raw, d, Keys(raw, ByPath(d)), (d, SITE_TOTAL_PATH));
    hide UpsertPaths, UpsertSections, UpsertTerms;
  }

  lemma SameRows<K, V>(a: map<K, V>, b: map<K, V>)
    requires forall k :: Get(a, k) == Get(b, k)
    ensures a == b
  {
    forall k ensures k in a <==> k in b ensures k in a && k in b ==> a[k] == b[k] {
      assert Get(a, k) == Get(b, k);
    }
  }

  // ------------------------------------------------------------------------------------------
  // A day's rows depend on that day's events alone
  // ------------------------------------------------------------------------------------------

  /** Only the events of the day matter to its rows. */
  lemma RowsFromDay(log: seq<Event>, d: int, k: string)
    ensures var day := Select(log, OnDay(d));
      DailyRowOf(day, d, k) == DailyRowOf(log, d, k) && SectionRowOf(day, d, k) == SectionRowOf(log, d, k) &&
      TermRowOf(day, d, k) == TermRowOf(log, d, k)
  {
    PathsFromDay(log, d, k);
    SelectKeepsCounts(log, OnDay(d), BySection(d), Dwell);
    SelectKeepsCounts(log, OnDay(d), ByTerm(d), Dwell);
    SelectKeepsCounts(log, OnDay(d), ByFailedTerm(d), Dwell);
    hide Keys, CountKey, SumKey, Select;
  }

  lemma PathsFromDay(log: seq<Event>, d: int, k: string)
    ensures DailyRowOf(Select(log, OnDay(d)), d, k) == DailyRowOf(log, d, k)
  {
    SelectKeepsCounts(log, OnDay(d), ByPath(d), Dwell);
    KindsFromDay(log, d, PageView);
    KindsFromDay(log, d, ProductView);
    KindsFromDay(log, d, WhatsappClick);
    KindsFromDay(log, d, AddToCart);
    KindsFromDay(log, d, CheckoutStart);
    KindsFromDay(log, d, OrderPlaced);
    VisitorsFromDay(log, d, ByPath(d), k);
    VisitorsFromDay(log, d, WholeSite(d), SITE_TOTAL_PATH);
    hide Keys, CountKey, SumKey, Select, Visitors, ByPathAndKind;
  }

  lemma KindsFromDay(log: seq<Event>, d: int, kind: Kind)
    ensures forall k :: CountKey(Select(log, OnDay(d)), ByPathAndKind(d, kind), k) == CountKey(log, ByPathAndKind(d, kind), k)
  {
    SelectKeepsCounts(log, OnDay(d), ByPathAndKind(d, kind), Dwell);
  }

  lemma VisitorsFromDay(log: seq<Event>, d: int, group: Group, k: string)
    requires forall e :: group(e).Some? ==> OnDay(d)(e)
    ensures Visitors(Select(log, OnDay(d)), group, k) == Visitors(log, group, k)
  {
    SelectIs(log, OnDay(d));
    hide Select, OnDay;
  }

  /** Logs with the same events on a day make the same rows. */
  lemma SameDaySameRows(a: seq<Event>, b: seq<Event>, d: int)
    requires Select(a, OnDay(d)) == Select(b, OnDay(d))
    ensures forall t :: Exact(t, a, d) <==> Exact(t, b, d)
  {
    hide Select, DailyRowOf, SectionRowOf, TermRowOf;
    forall k
      ensures DailyRowOf(a, d, k) == DailyRowOf(b, d, k) && SectionRowOf(a, d, k) == SectionRowOf(b, d, k) &&
        TermRowOf(a, d, k) == TermRowOf(b, d, k)
    {
      RowsFromDay(a, d, k);
      RowsFromDay(b, d, k);
    }
  }

  // ------------------------------------------------------------------------------------------
  // The count the job reports
  // ------------------------------------------------------------------------------------------

  /** The six kinds that have a counter. */
  predicate Counted(kind: Kind) { !kind.SectionView? && !kind.Search? }

  function ByCounted(d: int): Group {
    (e: Event) => if DayOf(e.at) == d && Counted(e.fields.kind) then Some(e.fields.path) else None
  }

  function CountedOn(d: int): Event -> bool { (e: Event) => DayOf(e.at) == d && Counted(e.fields.kind) }

  lemma {:induction false} KindsAddUp(log: seq<Event>, d: int, path: string)
    ensures CountKey(log, ByPathAndKind(d, PageView), path) + CountKey(log, ByPathAndKind(d, ProductView), path) +
      CountKey(log, ByPathAndKind(d, WhatsappClick), path) + CountKey(log, ByPathAndKind(d, AddToCart), path) +
      CountKey(log, ByPathAndKind(d, CheckoutStart), path) + CountKey(log, ByPathAndKind(d, OrderPlaced), path) ==
      CountKey(log, ByCounted(d), path)
  {
    if log != [] { KindsAddUp(log[..|log| - 1], d, path); }
  }

  lemma {:induction false} EventsBySum(raw: seq<Event>, d: int, paths: seq<string>)
    ensures EventsIn(raw, d, paths) == SumOver(raw, ByCounted(d), paths)
  {
    if paths != [] {
      EventsBySum(raw, d, paths[..|paths| - 1]);
      KindsAddUp(raw, d, paths[|paths| - 1]);
      hide CountKey, Visitors;
    }
  }

  /** The number reported is that of the day's events of the six counted kinds: searches and section views are left out,
      and no event is counted under two paths. */
  lemma EventsReported(raw: seq<Event>, d: int)
    ensures EventsIn(raw, d, Keys(raw, ByPath(d))) == |Select(raw, CountedOn(d))|
  {
    var paths := Keys(raw, ByPath(d));
    KeysExact(raw, ByPath(d));
    forall e | e in raw && OnDay(d)(e) ensures e.fields.path in paths {
      assert ByPath(d)(e) == Some(e.fields.path);
    }
    hide Keys, EventsIn, SumOver, CountIn, CountKey, Select;
    EventsBySum(raw, d, paths);
    GroupsAddUp(raw, ByCounted(d), paths);
    CountInIs(raw, ByCounted(d), paths, CountedOn(d));
  }

  lemma {:induction false} NoneSelected<E(!new)>(s: seq<E>, keep: E -> bool)
    ensures |Select(s, keep)| == 0 <==> forall e :: e in s ==> !keep(e)
  {
    SelectIs(s, keep);
    hide Select;
    if Select(s, keep) != [] { assert Select(s, keep)[0] in Select(s, keep); }
  }

  lemma DayWithEvents(t: Tables, raw: seq<Event>, d: int, e: Event)
    requires e in raw && DayOf(e.at) == d
    ensures (d, SITE_TOTAL_PATH) in RolledUp(t, raw, d).daily
  {
    KeysExact(raw, ByPath(d));
    assert ByPath(d)(e) == Some(e.fields.path);
    hide Keys, UpsertSections, UpsertTerms, SiteVisitors, PathRow;
    assert e.fields.path in Keys(raw, ByPath(d));
    PathsAt(UpsertSite(t.daily, d, SiteVisitors(raw, d)), raw, d, Keys(raw, ByPath(d)), (d, SITE_TOTAL_PATH));
    hide UpsertPaths;
  }

  /** The count is zero exactly when the day holds searches and section views at most; rows are written all the same. */
  lemma ZeroReportedExactly(t: Tables, raw: seq<Event>, d: int)
    ensures EventsIn(raw, d, Keys(raw, ByPath(d))) == 0 <==> forall e :: e in raw && DayOf(e.at) == d ==> !Counted(e.fields.kind)
    ensures (exists e :: e in raw && DayOf(e.at) == d) ==> (d, SITE_TOTAL_PATH) in RolledUp(t, raw, d).daily
  {
    hide Keys, EventsIn, Select, RolledUp;
    EventsReported(raw, d);
    NoneSelected(raw, CountedOn(d));
    forall e | e in raw && DayOf(e.at) == d ensures (d, SITE_TOTAL_PATH) in RolledUp(t, raw, d).daily {
      DayWithEvents(t, raw, d, e);
    }
  }
}
