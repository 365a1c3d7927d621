/** The insights screen, folded from the permanent tables alone. */
module Report {
  import opened Calendar
  import opened Counting
  import opened Ingest
  import opened Options
  import opened Rollup
  import opened VisitorKey

  /** A row as a query returns it: its day and group, and its columns. */
  datatype Row<V> = Row(key: (int, string), columns: V)

  /** The rows of a table in whatever order the database returns them. */
  ghost predicate Lists<V>(rows: seq<Row<V>>, table: map<(int, string), V>) {
    Distinct(KeysOf(rows)) && (forall i :: 0 <= i < |rows| ==> Get(table, rows[i].key) == Some(rows[i].columns)) &&
    (forall k :: k in table ==> k in KeysOf(rows))
  }

  function KeysOf<V>(rows: seq<Row<V>>): (keys: seq<(int, string)>)
    ensures |keys| == |rows| && forall i :: 0 <= i < |rows| ==> keys[i] == rows[i].key
  {
    seq(|rows|, i requires 0 <= i < |rows| => rows[i].key)
  }

  function Sum<V>(rows: seq<Row<V>>, column: V -> nat): nat {
    if rows == [] then 0 else Sum(rows[..|rows| - 1], column) + column(rows[|rows| - 1].columns)
  }

  // ------------------------------------------------------------------------------------------
  // The queries and folds
  // ------------------------------------------------------------------------------------------

  /** The first day of the window, as a day number. */
  function WindowStart(now: int, days: int): int { DayOf(ShiftUtcDate(UtcDay(now), -(days - 1))) }

  /** Today and the days before it, as many as asked for. */
  lemma WindowIs(now: int, days: nat)
    ensures DayOf(now) - WindowStart(now, days) + 1 == days
  {
    hide ShiftUtcDate, UtcDay, NextDay, PreviousUtcDay;
    ShiftIsWholeDays(UtcDay(now), -(days - 1));
    UtcDayIs(now);
    assert (DayOf(now) - (days - 1)) * MS_PER_DAY == DayOf(now) * MS_PER_DAY - (days - 1) * MS_PER_DAY;
  }

  function PathScope(from: int): Row<DailyRow> -> bool { (r: Row<DailyRow>) => from <= r.key.0 && r.key.1 != SITE_TOTAL_PATH }

  function SiteScope(from: int): Row<DailyRow> -> bool { (r: Row<DailyRow>) => from <= r.key.0 && r.key.1 == SITE_TOTAL_PATH }

  function ByDay<V>(): Row<V> -> Option<int> { (r: Row<V>) => Some(r.key.0) }

  function ByGroup<V>(): Row<V> -> Option<string> { (r: Row<V>) => Some(r.key.1) }

  function Column(kind: Kind): DailyRow -> nat {
    (r: DailyRow) =>
      match kind
      case PageView => r.pageviews
      case ProductView => r.productViews
      case WhatsappClick => r.whatsappClicks
      case AddToCart => r.addToCarts
      case CheckoutStart => r.checkoutStarts
      case OrderPlaced => r.orders
      case SectionView => 0
      case Search => 0
  }

  function Weight<V>(column: V -> nat): Row<V> -> nat { (r: Row<V>) => column(r.columns) }

  /** `groupBy` with a sum, then the fold over its rows. */
  function SumGroups<V>(rows: seq<Row<V>>, column: V -> nat, days: seq<int>): nat {
    if days == [] then 0
    else SumGroups(rows, column, days[..|days| - 1]) + SumKey(rows, ByDay<V>(), Weight(column), days[|days| - 1])
  }

  function Total(rows: seq<Row<DailyRow>>, from: int, kind: Kind): nat {
    var scope := Select(rows, PathScope(from));
    SumGroups(scope, Column(kind), Keys(scope, ByDay<DailyRow>()))
  }

  function VisitorDays(rows: seq<Row<DailyRow>>, from: int): nat {
    Sum(Select(rows, SiteScope(from)), (r: DailyRow) => r.visitors)
  }

  /** A point of the series; the day is in the query's result exactly when some page has a row for it. */
  function PointPageviews(rows: seq<Row<DailyRow>>, from: int, day: int): nat {
    SumKey(Select(rows, PathScope(from)), ByDay<DailyRow>(), Weight(Column(PageView)), day)
  }

  /** `new Map(…).get(day) ?? 0`, keyed by the printed date. */
  function LookUp(rows: seq<Row<DailyRow>>, day: int): nat {
    if rows == [] then 0
    else if DaySalt(rows[|rows| - 1].key.0 * MS_PER_DAY) == DaySalt(day * MS_PER_DAY) then rows[|rows| - 1].columns.visitors
    else LookUp(rows[..|rows| - 1], day)
  }

  function PointVisitors(rows: seq<Row<DailyRow>>, from: int, day: int): nat {
    LookUp(Select(rows, SiteScope(from)), day)
  }

  function PagePageviews(rows: seq<Row<DailyRow>>, from: int, path: string): nat {
    SumKey(Select(rows, PathScope(from)), ByGroup<DailyRow>(), Weight(Column(PageView)), path)
  }

  function TermScope(from: int, onlyMissed: bool): Row<TermRow> -> bool {
    (r: Row<TermRow>) => from <= r.key.0 && (onlyMissed ==> r.columns.zeroResults > 0)
  }

  function TermColumn(failed: bool): TermRow -> nat { (r: TermRow) => if failed then r.zeroResults else r.searches }

  /** A row of the term lists, with its clamp. */
  function ToTermRow(rows: seq<Row<TermRow>>, from: int, onlyMissed: bool, term: string): TermRow {
    var scope := Select(rows, TermScope(from, onlyMissed));
    var searches := SumKey(scope, ByGroup<TermRow>(), Weight(TermColumn(false)), term);
    TermRow(searches, Min(SumKey(scope, ByGroup<TermRow>(), Weight(TermColumn(true)), term), searches))
  }

  // ------------------------------------------------------------------------------------------
  // Sums of rows are counts of events
  // ------------------------------------------------------------------------------------------

  lemma {:induction false} SelectDistinct<V(!new)>(rows: seq<Row<V>>, keep: Row<V> -> bool)
    requires Distinct(KeysOf(rows))
    ensures Distinct(KeysOf(Select(rows, keep)))
    ensures forall r :: r in Select(rows, keep) <==> r in rows && keep(r)
  {
    SelectIs(rows, keep);
    if rows != [] {
      var n := |rows| - 1;
      var s := Select(rows[..n], keep);
      SelectIs(rows[..n], keep);
      forall i, j | 0 <= i < j < n ensures KeysOf(rows[..n])[i] != KeysOf(rows[..n])[j] {
        assert KeysOf(rows)[i] != KeysOf(rows)[j];
      }
      SelectDistinct(rows[..n], keep);
      forall i | 0 <= i < |s| ensures KeysOf(s)[i] != rows[n].key {
        assert s[i] in s;
        var j :| 0 <= j < n && rows[..n][j] == s[i];
        assert KeysOf(rows)[j] != KeysOf(rows)[n];
      }
    }
  }

  /** Rows that each hold a count of their own group hold together the count of all their groups. */
  lemma {:induction false} SumIsCount<V>(rows: seq<Row<V>>, column: V -> nat, log: seq<Event>, key: Event -> Option<(int, string)>)
    requires forall i :: 0 <= i < |rows| ==> column(rows[i].columns) == CountKey(log, key, rows[i].key)
    ensures Sum(rows, column) == SumOver(log, key, KeysOf(rows))
  {
    if rows != [] {
      var n := |rows| - 1;
      SumIsCount(rows[..n], column, log, key);
      assert KeysOf(rows)[..n] == KeysOf(rows[..n]);
    }
  }

  lemma {:induction false} SumKeyIsSum<V(!new), K>(rows: seq<Row<V>>, key: Row<V> -> Option<K>, column: V -> nat, k: K, mine: Row<V> -> bool)
    requires forall r :: mine(r) <==> key(r) == Some(k)
    ensures SumKey(rows, key, Weight(column), k) == Sum(Select(rows, mine), column)
  {
    if rows != [] {
      var n := |rows| - 1;
      SumKeyIsSum(rows[..n], key, column, k, mine);
      var s := Select(rows[..n], mine);
      assert (s + [rows[n]])[..|s|] == s;
      assert s + [] == s;
    }
  }

  lemma {:induction false} SelectSelect<E(!new)>(s: seq<E>, p: E -> bool, q: E -> bool, both: E -> bool)
    requires forall e :: both(e) <==> p(e) && q(e)
    ensures Select(Select(s, p), q) == Select(s, both)
  {
    if s != [] {
      var n := |s| - 1;
      SelectSelect(s[..n], p, q, both);
      var t := Select(s[..n], p);
      assert (t + [s[n]])[..|t|] == t;
      assert t + [] == t;
    }
  }

  /** Grouping by day and adding up the groups is adding up the rows. */
  lemma {:induction false} DaysAddUp<V>(rows: seq<Row<V>>, column: V -> nat, days: seq<int>)
    requires Distinct(days) && forall r :: r in rows ==> r.key.0 in days
    ensures SumGroups(rows, column, days) == Sum(rows, column)
  {
    if rows == [] {
      NoRowsNoSum(column, days);
    } else {
      var n := |rows| - 1;
      assert forall r :: r in rows[..n] ==> r in rows;
      DaysAddUp(rows[..n], column, days);
      assert rows[n] in rows;
      OneMoreRow(rows, column, days);
    }
  }

  lemma {:induction false} NoRowsNoSum<V>(column: V -> nat, days: seq<int>)
    ensures SumGroups<V>([], column, days) == 0
  {
    if days != [] { NoRowsNoSum(column, days[..|days| - 1]); }
  }

  lemma {:induction false} OneMoreRow<V>(rows: seq<Row<V>>, column: V -> nat, days: seq<int>)
    requires rows != [] && Distinct(days)
    ensures SumGroups(rows, column, days) == SumGroups(rows[..|rows| - 1], column, days) +
      if rows[|rows| - 1].key.0 in days then column(rows[|rows| - 1].columns) else 0
  {
    if days != [] {
      var n := |days| - 1;
      OneMoreRow(rows, column, days[..n]);
      assert days == days[..n] + [days[n]];
      assert days[n] !in days[..n];
    }
  }

  // ------------------------------------------------------------------------------------------
  // The screen's numbers against every event ever stored
  // ------------------------------------------------------------------------------------------

  /** Days with rows, all of which the nightly job finished. */
  predicate Rolled(t: Tables, d: int) { (d, SITE_TOTAL_PATH) in t.daily }

  ghost predicate Bare(t: Tables, d: int) {
    forall k :: (d, k) !in t.daily && (d, k) !in t.sections && (d, k) !in t.terms
  }

  /** From `from` on, a day is exact or has not been rolled up at all. */
  ghost predicate Settled(t: Tables, log: seq<Event>, from: int) {
    (forall d :: from <= d ==> Exact(t, log, d) || Bare(t, d)) && (forall e :: e in log ==> e.fields.path != SITE_TOTAL_PATH)
  }

  function OfKind(kind: Kind): Event -> Option<(int, string)> {
    (e: Event) => if e.fields.kind == kind then Some((DayOf(e.at), e.fields.path)) else None
  }

  /** The events of a kind on the days reported, on the pages wanted. */
  function Seen(t: Tables, from: int, kind: Kind, want: (int, string) -> bool): Event -> bool {
    (e: Event) => e.fields.kind == kind && from <= DayOf(e.at) && Rolled(t, DayOf(e.at)) && want(DayOf(e.at), e.fields.path)
  }

  lemma {:induction false} SameCount(log: seq<Event>, d: int, kind: Kind, path: string)
    ensures CountKey(log, ByPathAndKind(d, kind), path) == CountKey(log, OfKind(kind), (d, path))
  {
    if log != [] { SameCount(log[..|log| - 1], d, kind, path); }
  }

  lemma ColumnIs(log: seq<Event>, d: int, kind: Kind, path: string)
    requires Counted(kind)
    ensures Column(kind)(PathRow(log, d, path)) == CountKey(log, OfKind(kind), (d, path))
  {
    SameCount(log, d, kind, path);
    hide CountKey, Rollup.Visitors;
  }

  /** Which rows there are, on a settled day. */
  lemma RowAt(t: Tables, log: seq<Event>, from: int, d: int, path: string)
    requires Settled(t, log, from) && from <= d && path != SITE_TOTAL_PATH
    ensures (d, path) in t.daily <==> Rolled(t, d) && path in Keys(log, ByPath(d))
    ensures (d, path) in t.daily ==> t.daily[(d, path)] == PathRow(log, d, path)
  {
    hide Keys, PathRow, SiteVisitors;
    if Exact(t, log, d) {
      assert Get(t.daily, (d, path)) == DailyRowOf(log, d, path);
      assert Get(t.daily, (d, SITE_TOTAL_PATH)) == DailyRowOf(log, d, SITE_TOTAL_PATH);
      if path in Keys(log, ByPath(d)) { assert Keys(log, ByPath(d)) != []; }
    }
  }

  /** Any selection of page rows adds up to the events it stands for. */
  lemma WantedCounts(t: Tables, log: seq<Event>, rows: seq<Row<DailyRow>>, from: int, kind: Kind, want: (int, string) -> bool,
                     keep: Row<DailyRow> -> bool)
    requires Lists(rows, t.daily) && Settled(t, log, from) && Counted(kind)
    requires forall r :: keep(r) <==> PathScope(from)(r) && want(r.key.0, r.key.1)
    ensures Sum(Select(rows, keep), Column(kind)) == |Select(log, Seen(t, from, kind, want))|
  {
    var scope := Select(rows, keep);
    SelectDistinct(rows, keep);
    hide Settled, PathRow, Column, Keys, Select, Sum, CountIn, CountKey, SumOver, Seen;
    forall i | 0 <= i < |scope|
      ensures Column(kind)(scope[i].columns) == CountKey(log, OfKind(kind), scope[i].key)
    {
      assert scope[i] in scope;
      RowIsCount(t, log, rows, from, kind, scope[i]);
    }
    SumIsCount(scope, Column(kind), log, OfKind(kind));
    GroupsAddUp(log, OfKind(kind), KeysOf(scope));
    forall e | e in log
      ensures Seen(t, from, kind, want)(e) <==> OfKind(kind)(e).Some? && OfKind(kind)(e).value in KeysOf(scope)
    {
      SeenIsListed(t, log, rows, from, kind, want, keep, e);
    }
    CountInIs(log, OfKind(kind), KeysOf(scope), Seen(t, from, kind, want));
  }

  lemma RowIsCount(t: Tables, log: seq<Event>, rows: seq<Row<DailyRow>>, from: int, kind: Kind, r: Row<DailyRow>)
    requires Lists(rows, t.daily) && Settled(t, log, from) && Counted(kind) && r in rows && PathScope(from)(r)
    ensures Column(kind)(r.columns) == CountKey(log, OfKind(kind), r.key)
  {
    hide Settled, PathRow, Column, CountKey;
    RowAt(t, log, from, r.key.0, r.key.1);
    ColumnIs(log, r.key.0, kind, r.key.1);
    var j :| 0 <= j < |rows| && rows[j] == r;
    assert Get(t.daily, rows[j].key) == Some(rows[j].columns);
  }

  /** A selection that looks at keys alone lists the table's keys it wants. */
  lemma KeyListed<V(!new)>(table: map<(int, string), V>, rows: seq<Row<V>>, keep: Row<V> -> bool, k: (int, string), wanted: bool)
    requires Lists(rows, table) && forall r: Row<V> :: r.key == k ==> (keep(r) <==> wanted)
    ensures k in KeysOf(Select(rows, keep)) <==> k in table && wanted
  {
    SelectIs(rows, keep);
    hide Select;
    var scope := Select(rows, keep);
    if k in KeysOf(scope) {
      var i :| 0 <= i < |scope| && scope[i].key == k;
      assert scope[i] in scope;
      var j :| 0 <= j < |rows| && rows[j] == scope[i];
      assert Get(table, rows[j].key) == Some(rows[j].columns);
    }
    if k in table && wanted {
      var j :| 0 <= j < |rows| && rows[j].key == k;
      assert rows[j] in scope;
      var i :| 0 <= i < |scope| && scope[i] == rows[j];
      assert KeysOf(scope)[i] == k;
    }
  }

  lemma SeenIsListed(t: Tables, log: seq<Event>, rows: seq<Row<DailyRow>>, from: int, kind: Kind, want: (int, string) -> bool,
                     keep: Row<DailyRow> -> bool, e: Event)
    requires Lists(rows, t.daily) && Settled(t, log, from) && e in log
    requires forall r :: keep(r) <==> PathScope(from)(r) && want(r.key.0, r.key.1)
    ensures Seen(t, from, kind, want)(e) <==>
      OfKind(kind)(e).Some? && OfKind(kind)(e).value in KeysOf(Select(rows, keep))
  {
    var k := (DayOf(e.at), e.fields.path);
    assert k.1 != SITE_TOTAL_PATH;
    KeysExact(log, ByPath(k.0));
    assert ByPath(k.0)(e) == Some(k.1);
    hide Keys, Select, Settled, Lists, KeysOf;
    KeyListed(t.daily, rows, keep, k, from <= k.0 && want(k.0, k.1));
    if from <= k.0 { RowAt(t, log, from, k.0, k.1); }
  }

  /** Each total is the number of events of its kind ever stored on the reported days, though the events themselves
      may be long pruned; the site row adds nothing to it. */
  lemma TotalsAreEvents(t: Tables, log: seq<Event>, rows: seq<Row<DailyRow>>, from: int, kind: Kind)
    requires Lists(rows, t.daily) && Settled(t, log, from) && Counted(kind)
    ensures Total(rows, from, kind) == |Select(log, Seen(t, from, kind, (d, p) => true))|
  {
    var scope := Select(rows, PathScope(from));
    KeysExact(scope, ByDay<DailyRow>());
    forall r | r in scope ensures r.key.0 in Keys(scope, ByDay<DailyRow>()) {
      assert ByDay<DailyRow>()(r) == Some(r.key.0);
    }
    hide Settled, Keys, Select, Sum, SumGroups;
    DaysAddUp(scope, Column(kind), Keys(scope, ByDay<DailyRow>()));
    WantedCounts(t, log, rows, from, kind, (d, p) => true, PathScope(from));
  }

  /** A group of the scoped rows, as a selection of all rows. */
  lemma GroupOfScope<V(!new), K>(rows: seq<Row<V>>, scope: Row<V> -> bool, key: Row<V> -> Option<K>, column: V -> nat, k: K,
                             keep: Row<V> -> bool)
    requires forall r :: keep(r) <==> scope(r) && key(r) == Some(k)
    ensures SumKey(Select(rows, scope), key, Weight(column), k) == Sum(Select(rows, keep), column)
  {
    hide Select, Sum, SumKey;
    var mine := (r: Row<V>) => key(r) == Some(k);
    SumKeyIsSum(Select(rows, scope), key, column, k, mine);
    SelectSelect(rows, scope, mine, keep);
  }

  /** A point of the series counts that day's page views; a row of the page list counts that page's. */
  lemma PointsAndPagesAreEvents(t: Tables, log: seq<Event>, rows: seq<Row<DailyRow>>, from: int, day: int, path: string)
    requires Lists(rows, t.daily) && Settled(t, log, from)
    ensures PointPageviews(rows, from, day) == |Select(log, Seen(t, from, PageView, (d, p) => d == day))|
    ensures PagePageviews(rows, from, path) == |Select(log, Seen(t, from, PageView, (d, p) => p == path))|
  {
    hide Settled, Select, Sum, SumKey, Lists, Column, Seen;
    var onDay := (r: Row<DailyRow>) => PathScope(from)(r) && r.key.0 == day;
    var onPage := (r: Row<DailyRow>) => PathScope(from)(r) && r.key.1 == path;
    WantedCounts(t, log, rows, from, PageView, (d, p) => d == day, onDay);
    WantedCounts(t, log, rows, from, PageView, (d, p) => p == path, onPage);
    GroupOfScope(rows, PathScope(from), ByDay<DailyRow>(), Column(PageView), day, onDay);
    GroupOfScope(rows, PathScope(from), ByGroup<DailyRow>(), Column(PageView), path, onPage);
  }

  // ------------------------------------------------------------------------------------------
  // Visitors
  // ------------------------------------------------------------------------------------------

  /** Distinct visitors of each of the days, added up. */
  function SumOfDays(log: seq<Event>, days: seq<int>): nat {
    if days == [] then 0 else SumOfDays(log, days[..|days| - 1]) + SiteVisitors(log, days[|days| - 1])
  }

  function DaysOf<V>(rows: seq<Row<V>>): (days: seq<int>)
    ensures |days| == |rows| && forall i :: 0 <= i < |rows| ==> days[i] == rows[i].key.0
  {
    seq(|rows|, i requires 0 <= i < |rows| => rows[i].key.0)
  }

  lemma SiteRowAt(t: Tables, log: seq<Event>, from: int, d: int)
    requires Settled(t, log, from) && from <= d && Rolled(t, d)
    ensures t.daily[(d, SITE_TOTAL_PATH)].visitors == SiteVisitors(log, d)
  {
    hide Keys, PathRow, SiteVisitors;
    if Exact(t, log, d) {
      assert Get(t.daily, (d, SITE_TOTAL_PATH)) == DailyRowOf(log, d, SITE_TOTAL_PATH);
    }
  }

  /** The site rows: one for each day reported, holding that day's distinct visitors. */
  lemma SiteRows(t: Tables, log: seq<Event>, rows: seq<Row<DailyRow>>, from: int)
    requires Lists(rows, t.daily) && Settled(t, log, from)
    ensures var site := Select(rows, SiteScope(from));
      Distinct(DaysOf(site)) && (forall r :: r in site ==> r.columns.visitors == SiteVisitors(log, r.key.0)) &&
      (forall d :: d in DaysOf(site) <==> from <= d && Rolled(t, d))
  {
    var site := Select(rows, SiteScope(from));
    SelectDistinct(rows, SiteScope(from));
    hide Settled, Select, SiteVisitors;
    forall i, j | 0 <= i < j < |site| ensures DaysOf(site)[i] != DaysOf(site)[j] {
      assert site[i] in site && site[j] in site && KeysOf(site)[i] != KeysOf(site)[j];
    }
    forall r | r in site ensures r.columns.visitors == SiteVisitors(log, r.key.0) && Rolled(t, r.key.0) {
      var j :| 0 <= j < |rows| && rows[j] == r;
      assert Get(t.daily, rows[j].key) == Some(rows[j].columns);
      SiteRowAt(t, log, from, r.key.0);
    }
    forall d ensures d in DaysOf(site) <==> from <= d && Rolled(t, d) {
      SiteDayListed(t, rows, from, d);
    }
  }

  lemma SiteDayListed(t: Tables, rows: seq<Row<DailyRow>>, from: int, d: int)
    requires Lists(rows, t.daily)
    ensures d in DaysOf(Select(rows, SiteScope(from))) <==> from <= d && Rolled(t, d)
  {
    var site := Select(rows, SiteScope(from));
    SelectIs(rows, SiteScope(from));
    hide Select;
    KeyListed(t.daily, rows, SiteScope(from), (d, SITE_TOTAL_PATH), from <= d);
    if d in DaysOf(site) {
      var i :| 0 <= i < |site| && DaysOf(site)[i] == d;
      assert site[i] in site;
      assert KeysOf(site)[i] == (d, SITE_TOTAL_PATH);
    }
    if (d, SITE_TOTAL_PATH) in KeysOf(site) {
      var i :| 0 <= i < |site| && KeysOf(site)[i] == (d, SITE_TOTAL_PATH);
      assert DaysOf(site)[i] == d;
    }
  }

  lemma {:induction false} SumVisitors(log: seq<Event>, rows: seq<Row<DailyRow>>)
    requires forall r :: r in rows ==> r.columns.visitors == SiteVisitors(log, r.key.0)
    ensures Sum(rows, (r: DailyRow) => r.visitors) == SumOfDays(log, DaysOf(rows))
  {
    hide SiteVisitors;
    if rows != [] {
      var n := |rows| - 1;
      assert rows[n] in rows;
      assert forall r :: r in rows[..n] ==> r in rows;
      SumVisitors(log, rows[..n]);
      assert DaysOf(rows)[..n] == DaysOf(rows[..n]);
    }
  }

  /** The headline is the sum of the daily distinct counts, each as it was on its own day: the days reported, once each. */
  lemma VisitorDaysAreDaily(t: Tables, log: seq<Event>, rows: seq<Row<DailyRow>>, from: int)
    requires Lists(rows, t.daily) && Settled(t, log, from)
    ensures var days := DaysOf(Select(rows, SiteScope(from)));
      VisitorDays(rows, from) == SumOfDays(log, days) && Distinct(days) &&
      (forall d :: d in days <==> from <= d && Rolled(t, d))
  {
    SiteRows(t, log, rows, from);
    hide Settled, Select, SiteVisitors, Lists;
    SumVisitors(log, Select(rows, SiteScope(from)));
  }

  lemma {:induction false} LookUpIs(rows: seq<Row<DailyRow>>, day: int, visitors: nat)
    requires forall r :: r in rows && r.key.0 == day ==> r.columns.visitors == visitors
    ensures LookUp(rows, day) == if day in DaysOf(rows) then visitors else 0
  {
    hide DaySalt;
    if rows != [] {
      var n := |rows| - 1;
      assert rows[n] in rows;
      assert forall r :: r in rows[..n] ==> r in rows;
      LookUpIs(rows[..n], day, visitors);
      assert DaysOf(rows) == DaysOf(rows[..n]) + [rows[n].key.0];
      SaltOfDay(rows[n].key.0, day);
    }
  }

  lemma SaltOfDay(d: int, e: int)
    ensures DaySalt(d * MS_PER_DAY) == DaySalt(e * MS_PER_DAY) <==> d == e
  {
    hide DaySalt, UtcDay, NextDay;
    SaltExactly(d * MS_PER_DAY, e * MS_PER_DAY);
    UtcDayIs(d * MS_PER_DAY);
    assert DayOf(d * MS_PER_DAY) == d;
  }

  /** The series looks a day's visitors up by its printed date, and finds that day's. */
  lemma PointVisitorsAreDaily(t: Tables, log: seq<Event>, rows: seq<Row<DailyRow>>, from: int, day: int)
    requires Lists(rows, t.daily) && Settled(t, log, from)
    ensures PointVisitors(rows, from, day) == if from <= day && Rolled(t, day) then SiteVisitors(log, day) else 0
  {
    SiteRows(t, log, rows, from);
    hide Settled, Select, SiteVisitors, Lists;
    LookUpIs(Select(rows, SiteScope(from)), day, SiteVisitors(log, day));
  }

  // ------------------------------------------------------------------------------------------
  // Search terms
  // ------------------------------------------------------------------------------------------

  function OfTerm(failed: bool): Event -> Option<(int, string)> {
    (e: Event) =>
      if e.fields.kind.Search? && e.fields.searchTerm.Some? && e.fields.searchTerm.value != "" &&
         (failed ==> e.fields.resultCount == Some(0))
      then Some((DayOf(e.at), e.fields.searchTerm.value)) else None
  }

  function Searched(t: Tables, from: int, term: string, failed: bool): Event -> bool {
    (e: Event) =>
      e.fields.kind.Search? && e.fields.searchTerm == Some(term) && term != "" && from <= DayOf(e.at) &&
      Rolled(t, DayOf(e.at)) && (failed ==> e.fields.resultCount == Some(0))
  }

  lemma {:induction false} TermCounts(log: seq<Event>, d: int, term: string)
    ensures CountKey(log, ByTerm(d), term) == CountKey(log, OfTerm(false), (d, term))
    ensures CountKey(log, ByFailedTerm(d), term) == CountKey(log, OfTerm(true), (d, term))
    ensures CountKey(log, ByFailedTerm(d), term) <= CountKey(log, ByTerm(d), term)
  {
    if log != [] { TermCounts(log[..|log| - 1], d, term); }
  }

  /** The rollup's clamp never bites: failed searches are among the searches. */
  lemma TermOfIs(log: seq<Event>, d: int, term: string)
    ensures TermOf(log, d, term) == TermRow(CountKey(log, ByTerm(d), term), CountKey(log, ByFailedTerm(d), term))
    ensures forall failed :: TermColumn(failed)(TermOf(log, d, term)) == CountKey(log, OfTerm(failed), (d, term))
  {
    TermCounts(log, d, term);
    hide CountKey;
  }

  lemma TermRowAt(t: Tables, log: seq<Event>, from: int, d: int, term: string)
    requires Settled(t, log, from) && from <= d
    ensures (d, term) in t.terms <==> Rolled(t, d) && term in Keys(log, ByTerm(d))
    ensures (d, term) in t.terms ==> t.terms[(d, term)] == TermOf(log, d, term)
  {
    QuietDay(log, d);
    hide Keys, TermOf, SiteVisitors, PathRow;
    if Exact(t, log, d) {
      assert Get(t.terms, (d, term)) == TermRowOf(log, d, term);
      assert Get(t.daily, (d, SITE_TOTAL_PATH)) == DailyRowOf(log, d, SITE_TOTAL_PATH);
    }
  }

  lemma TermSum(t: Tables, log: seq<Event>, rows: seq<Row<TermRow>>, from: int, term: string, failed: bool,
                keep: Row<TermRow> -> bool)
    requires Lists(rows, t.terms) && Settled(t, log, from)
    requires forall r :: keep(r) <==> from <= r.key.0 && r.key.1 == term
    ensures Sum(Select(rows, keep), TermColumn(failed)) == |Select(log, Searched(t, from, term, failed))|
  {
    var scope := Select(rows, keep);
    SelectDistinct(rows, keep);
    hide Settled, TermColumn, Keys, Select, Sum, CountIn, CountKey, SumOver, Searched, OfTerm;
    forall i | 0 <= i < |scope|
      ensures TermColumn(failed)(scope[i].columns) == CountKey(log, OfTerm(failed), scope[i].key)
    {
      assert scope[i] in scope;
      TermRowIsCount(t, log, rows, from, failed, scope[i]);
    }
    SumIsCount(scope, TermColumn(failed), log, OfTerm(failed));
    GroupsAddUp(log, OfTerm(failed), KeysOf(scope));
    forall e | e in log
      ensures Searched(t, from, term, failed)(e) <==> OfTerm(failed)(e).Some? && OfTerm(failed)(e).value in KeysOf(scope)
    {
      SearchIsListed(t, log, rows, from, term, failed, keep, e);
    }
    CountInIs(log, OfTerm(failed), KeysOf(scope), Searched(t, from, term, failed));
  }

  lemma TermRowIsCount(t: Tables, log: seq<Event>, rows: seq<Row<TermRow>>, from: int, failed: bool, r: Row<TermRow>)
    requires Lists(rows, t.terms) && Settled(t, log, from) && r in rows && from <= r.key.0
    ensures TermColumn(failed)(r.columns) == CountKey(log, OfTerm(failed), r.key)
  {
    hide Settled, TermOf, TermColumn, CountKey;
    TermRowAt(t, log, from, r.key.0, r.key.1);
    TermOfIs(log, r.key.0, r.key.1);
    var j :| 0 <= j < |rows| && rows[j] == r;
    assert Get(t.terms, rows[j].key) == Some(rows[j].columns);
  }

  lemma SearchIsListed(t: Tables, log: seq<Event>, rows: seq<Row<TermRow>>, from: int, term: string, failed: bool,
                       keep: Row<TermRow> -> bool, e: Event)
    requires Lists(rows, t.terms) && Settled(t, log, from) && e in log
    requires forall r :: keep(r) <==> from <= r.key.0 && r.key.1 == term
    ensures Searched(t, from, term, failed)(e) <==>
      OfTerm(failed)(e).Some? && OfTerm(failed)(e).value in KeysOf(Select(rows, keep))
  {
    if OfTerm(failed)(e).Some? {
      var k := OfTerm(failed)(e).value;
      KeysExact(log, ByTerm(k.0));
      assert ByTerm(k.0)(e) == Some(k.1);
      hide Keys, Select, Settled, Lists, KeysOf;
      KeyListed(t.terms, rows, keep, k, from <= k.0 && k.1 == term);
      if from <= k.0 { TermRowAt(t, log, from, k.0, k.1); }
    }
  }

  /** A term's row counts the searches for it and those that found nothing; its clamp never bites either. */
  lemma TermRowsAreSearches(t: Tables, log: seq<Event>, rows: seq<Row<TermRow>>, from: int, term: string)
    requires Lists(rows, t.terms) && Settled(t, log, from)
    ensures ToTermRow(rows, from, false, term) ==
      TermRow(|Select(log, Searched(t, from, term, false))|, |Select(log, Searched(t, from, term, true))|)
  {
    hide Settled, Select, Sum, SumKey, Lists, Searched;
    var keep := (r: Row<TermRow>) => from <= r.key.0 && r.key.1 == term;
    TermSum(t, log, rows, from, term, false, keep);
    TermSum(t, log, rows, from, term, true, keep);
    TermGroup(rows, from, term, false, keep);
    TermGroup(rows, from, term, true, keep);
    FewerFailed(t, log, from, term);
  }

  lemma TermGroup(rows: seq<Row<TermRow>>, from: int, term: string, failed: bool, keep: Row<TermRow> -> bool)
    requires forall r :: keep(r) <==> from <= r.key.0 && r.key.1 == term
    ensures SumKey(Select(rows, TermScope(from, false)), ByGroup<TermRow>(), Weight(TermColumn(failed)), term) ==
      Sum(Select(rows, keep), TermColumn(failed))
  {
    GroupOfScope(rows, TermScope(from, false), ByGroup<TermRow>(), TermColumn(failed), term, keep);
  }

  lemma {:induction false} FewerFailed(t: Tables, log: seq<Event>, from: int, term: string)
    ensures |Select(log, Searched(t, from, term, true))| <= |Select(log, Searched(t, from, term, false))|
  {
    if log != [] { FewerFailed(t, log[..|log| - 1], from, term); }
  }

  function TermSumIn(rows: seq<Row<TermRow>>, from: int, term: string, onlyMissed: bool, failed: bool): nat {
    SumKey(Select(rows, TermScope(from, onlyMissed)), ByGroup<TermRow>(), Weight(TermColumn(failed)), term)
  }

  /** What the last row adds. */
  lemma TermSumStep(rows: seq<Row<TermRow>>, from: int, term: string, onlyMissed: bool, failed: bool)
    requires rows != []
    ensures var n := |rows| - 1;
      TermSumIn(rows, from, term, onlyMissed, failed) == TermSumIn(rows[..n], from, term, onlyMissed, failed) +
        if TermScope(from, onlyMissed)(rows[n]) && rows[n].key.1 == term then TermColumn(failed)(rows[n].columns) else 0
  {
    var n := |rows| - 1;
    var s := Select(rows[..n], TermScope(from, onlyMissed));
    assert (s + [rows[n]])[..|s|] == s;
    assert s + [] == s;
  }

  lemma {:induction false} MissedSums(rows: seq<Row<TermRow>>, from: int, term: string)
    requires forall r :: r in rows && from <= r.key.0 ==> r.columns.zeroResults <= r.columns.searches
    ensures TermSumIn(rows, from, term, true, true) == TermSumIn(rows, from, term, false, true)
    ensures TermSumIn(rows, from, term, true, true) <= TermSumIn(rows, from, term, true, false) <= TermSumIn(rows, from, term, false, false)
  {
    hide TermSumIn;
    if rows == [] {
      NoTermSum(from, term);
    } else {
      var n := |rows| - 1;
      assert rows[n] in rows && forall r :: r in rows[..n] ==> r in rows;
      MissedSums(rows[..n], from, term);
      TermSumStep(rows, from, term, true, true);
      TermSumStep(rows, from, term, false, true);
      TermSumStep(rows, from, term, true, false);
      TermSumStep(rows, from, term, false, false);
    }
  }

  lemma NoTermSum(from: int, term: string)
    ensures forall onlyMissed, failed :: TermSumIn([], from, term, onlyMissed, failed) == 0
  {
  }

  /** Every row of the term has a failure. */
  ghost predicate AlwaysMissed(rows: seq<Row<TermRow>>, from: int, term: string) {
    forall r :: r in rows && from <= r.key.0 && r.key.1 == term ==> r.columns.zeroResults > 0
  }

  lemma {:induction false} SearchesKept(rows: seq<Row<TermRow>>, from: int, term: string)
    requires forall r :: r in rows && from <= r.key.0 ==> 0 < r.columns.searches && r.columns.zeroResults <= r.columns.searches
    ensures TermSumIn(rows, from, term, true, false) == TermSumIn(rows, from, term, false, false) <==>
      AlwaysMissed(rows, from, term)
  {
    hide TermSumIn;
    if rows == [] {
      NoTermSum(from, term);
    } else {
      var n := |rows| - 1;
      assert rows[n] in rows && forall r :: r in rows[..n] ==> r in rows;
      assert rows == rows[..n] + [rows[n]];
      SearchesKept(rows[..n], from, term);
      MissedSums(rows[..n], from, term);
      TermSumStep(rows, from, term, true, false);
      TermSumStep(rows, from, term, false, false);
    }
  }

  /** A row has a failure exactly when a failed search of its day made it so. */
  lemma FailureBehindRow(t: Tables, log: seq<Event>, rows: seq<Row<TermRow>>, from: int, r: Row<TermRow>)
    requires Lists(rows, t.terms) && Settled(t, log, from) && r in rows && from <= r.key.0
    ensures 0 < r.columns.searches && r.columns.zeroResults <= r.columns.searches
    ensures r.columns.zeroResults > 0 <==> exists e :: e in log && OfTerm(true)(e) == Some(r.key)
    ensures exists e :: e in log && OfTerm(false)(e) == Some(r.key)
  {
    TermRowIsCount(t, log, rows, from, true, r);
    TermRowIsCount(t, log, rows, from, false, r);
    TermCounts(log, r.key.0, r.key.1);
    KeysExact(log, OfTerm(true));
    KeysExact(log, OfTerm(false));
    KeysExact(log, ByTerm(r.key.0));
    TermRowAt(t, log, from, r.key.0, r.key.1);
    var j :| 0 <= j < |rows| && rows[j] == r;
    assert Get(t.terms, rows[j].key) == Some(rows[j].columns);
    hide Keys, CountKey, Settled, OfTerm, ByTerm, TermOf;
  }

  /** On every reported day on which the term was searched, some search for it found nothing. */
  ghost predicate MissedDaily(t: Tables, log: seq<Event>, from: int, term: string) {
    forall e :: e in log && Searched(t, from, term, false)(e) ==>
      exists f :: f in log && DayOf(f.at) == DayOf(e.at) && Searched(t, from, term, true)(f)
  }

  lemma RowsByDay(t: Tables, log: seq<Event>, rows: seq<Row<TermRow>>, from: int, term: string)
    requires Lists(rows, t.terms) && Settled(t, log, from)
    ensures AlwaysMissed(rows, from, term) <==> MissedDaily(t, log, from, term)
  {
    hide Settled;
    if AlwaysMissed(rows, from, term) {
      forall e | e in log && Searched(t, from, term, false)(e)
        ensures exists f :: f in log && DayOf(f.at) == DayOf(e.at) && Searched(t, from, term, true)(f)
      {
        var r := RowOfSearch(t, log, rows, from, term, e);
        FailureBehindRow(t, log, rows, from, r);
        var f :| f in log && OfTerm(true)(f) == Some(r.key);
        assert Searched(t, from, term, true)(f);
      }
    }
    if MissedDaily(t, log, from, term) {
      forall r | r in rows && from <= r.key.0 && r.key.1 == term ensures r.columns.zeroResults > 0 {
        FailureBehindRow(t, log, rows, from, r);
        var e :| e in log && OfTerm(false)(e) == Some(r.key);
        RowIsRolled(t, log, rows, from, r);
        assert Searched(t, from, term, false)(e);
        var f :| f in log && DayOf(f.at) == DayOf(e.at) && Searched(t, from, term, true)(f);
        assert OfTerm(true)(f) == Some(r.key);
      }
    }
  }

  lemma RowIsRolled(t: Tables, log: seq<Event>, rows: seq<Row<TermRow>>, from: int, r: Row<TermRow>)
    requires Lists(rows, t.terms) && Settled(t, log, from) && r in rows && from <= r.key.0
    ensures Rolled(t, r.key.0)
  {
    TermRowAt(t, log, from, r.key.0, r.key.1);
    var j :| 0 <= j < |rows| && rows[j] == r;
    assert Get(t.terms, rows[j].key) == Some(rows[j].columns);
    hide Keys, Settled;
  }

  lemma RowOfSearch(t: Tables, log: seq<Event>, rows: seq<Row<TermRow>>, from: int, term: string, e: Event) returns (r: Row<TermRow>)
    requires Lists(rows, t.terms) && Settled(t, log, from) && e in log && Searched(t, from, term, false)(e)
    ensures r in rows && r.key == (DayOf(e.at), term)
  {
    var k := (DayOf(e.at), term);
    KeysExact(log, ByTerm(k.0));
    assert ByTerm(k.0)(e) == Some(k.1);
    TermRowAt(t, log, from, k.0, k.1);
    hide Keys, Settled;
    assert k in t.terms;
    var j :| 0 <= j < |rows| && KeysOf(rows)[j] == k;
    r := rows[j];
  }

  /** The list of missed terms reports the same failures as the list of all terms. It reports the same searches if and
      only if the term failed on every reported day on which it was searched; otherwise it reports fewer. */
  lemma MissedRowsAgree(t: Tables, log: seq<Event>, rows: seq<Row<TermRow>>, from: int, term: string)
    requires Lists(rows, t.terms) && Settled(t, log, from)
    ensures var all, missed := ToTermRow(rows, from, false, term), ToTermRow(rows, from, true, term);
      missed.zeroResults == all.zeroResults && missed.searches <= all.searches &&
      (missed.searches == all.searches <==> MissedDaily(t, log, from, term))
  {
    RowsByDay(t, log, rows, from, term);
    hide Settled, Select, SumKey, MissedDaily, AlwaysMissed, Lists;
    forall r | r in rows && from <= r.key.0 ensures 0 < r.columns.searches && r.columns.zeroResults <= r.columns.searches {
      FailureBehindRow(t, log, rows, from, r);
    }
    MissedSums(rows, from, term);
    SearchesKept(rows, from, term);
  }

  function SearchEvent(at: int, results: nat): Event {
    Event(Normalised(Search, "/search", None, None, Some("x"), Some(results)), "v", at)
  }

  /** One search that finds something and, a day later, one that does not: the list of all terms reports two searches and
      the list of missed terms one. */
  lemma MissedShowsFewer()
    ensures var hit, miss := SearchEvent(0, 1), SearchEvent(MS_PER_DAY, 0);
      var t := RolledUp(RolledUp(Tables(map[], map[], map[]), [hit, miss], 0), [hit, miss], 1);
      var rows := [Row((0, "x"), TermRow(1, 0)), Row((1, "x"), TermRow(1, 1))];
      Lists(rows, t.terms) && ToTermRow(rows, 0, false, "x") == TermRow(2, 1) && ToTermRow(rows, 0, true, "x") == TermRow(1, 1)
  {
    var hit, miss := SearchEvent(0, 1), SearchEvent(MS_PER_DAY, 0);
    TwoSearchDays(hit, miss);
    MissedExample();
  }

  lemma MissedExample()
    ensures var rows := [Row((0, "x"), TermRow(1, 0)), Row((1, "x"), TermRow(1, 1))];
      ToTermRow(rows, 0, false, "x") == TermRow(2, 1) && ToTermRow(rows, 0, true, "x") == TermRow(1, 1)
  {
    var first, second := Row((0, "x"), TermRow(1, 0)), Row((1, "x"), TermRow(1, 1));
    var rows := [first, second];
    assert rows[..1] == [first] && [first][..0] == [] && [second][..0] == [];
    forall onlyMissed, failed
      ensures TermSumIn(rows, 0, "x", onlyMissed, failed) ==
        (if onlyMissed then 0 else if failed then 0 else 1) + 1
    {
      NoTermSum(0, "x");
      TermSumStep([first], 0, "x", onlyMissed, failed);
      TermSumStep(rows, 0, "x", onlyMissed, failed);
    }
    hide SumKey, Select;
    assert ToTermRow(rows, 0, false, "x") ==
      TermRow(TermSumIn(rows, 0, "x", false, false), Min(TermSumIn(rows, 0, "x", false, true), TermSumIn(rows, 0, "x", false, false)));
    assert ToTermRow(rows, 0, true, "x") ==
      TermRow(TermSumIn(rows, 0, "x", true, false), Min(TermSumIn(rows, 0, "x", true, true), TermSumIn(rows, 0, "x", true, false)));
  }

  lemma TwoSearchDays(hit: Event, miss: Event)
    requires hit == SearchEvent(0, 1) && miss == SearchEvent(MS_PER_DAY, 0)
    ensures var none := Tables(map[], map[], map[]);
      Lists([Row((0, "x"), TermRow(1, 0)), Row((1, "x"), TermRow(1, 1))], RolledUp(RolledUp(none, [hit, miss], 0), [hit, miss], 1).terms)
  {
    var log := [hit, miss];
    var once := RolledUp(Tables(map[], map[], map[]), log, 0);
    var t := RolledUp(once, log, 1);
    DayTerms(hit, miss);
    hide RolledUp, Keys, TermOf, ByPath, ByTerm;
    forall k ensures Get(t.terms, k) == if k == (0, "x") then Some(TermRow(1, 0)) else if k == (1, "x") then Some(TermRow(1, 1)) else None {
      RolledTerms(Tables(map[], map[], map[]), log, 0, k);
      RolledTerms(once, log, 1, k);
    }
    TwoRows(t.terms, (0, "x"), TermRow(1, 0), (1, "x"), TermRow(1, 1));
  }

  lemma TwoRows<V>(table: map<(int, string), V>, a: (int, string), v: V, b: (int, string), w: V)
    requires a != b && forall k :: Get(table, k) == if k == a then Some(v) else if k == b then Some(w) else None
    ensures Lists([Row(a, v), Row(b, w)], table)
  {
    var rows := [Row(a, v), Row(b, w)];
    assert KeysOf(rows) == [a, b];
    forall k | k in table ensures k in KeysOf(rows) {
      assert Get(table, k).Some?;
    }
  }

  lemma RolledTerms(t: Tables, log: seq<Event>, d: int, k: (int, string))
    requires Keys(log, ByPath(d)) != []
    ensures Get(RolledUp(t, log, d).terms, k) ==
      if k.0 == d && k.1 in Keys(log, ByTerm(d)) then Some(TermOf(log, d, k.1)) else Get(t.terms, k)
  {
    hide Keys, TermOf;
    TermsAt(t.terms, log, d, Keys(log, ByTerm(d)), k);
    hide UpsertTerms, UpsertPaths, UpsertSections;
  }

  lemma DayTerms(hit: Event, miss: Event)
    requires hit == SearchEvent(0, 1) && miss == SearchEvent(MS_PER_DAY, 0)
    ensures var log := [hit, miss];
      Keys(log, ByPath(0)) != [] && Keys(log, ByPath(1)) != [] &&
      (forall k :: k in Keys(log, ByTerm(0)) <==> k == "x") && (forall k :: k in Keys(log, ByTerm(1)) <==> k == "x") &&
      TermOf(log, 0, "x") == TermRow(1, 0) && TermOf(log, 1, "x") == TermRow(1, 1)
  {
    DayOfSearch(hit, miss, 0);
    DayOfSearch(hit, miss, 1);
    hide Keys, CountKey;
  }

  lemma DayOfSearch(hit: Event, miss: Event, d: nat)
    requires hit == SearchEvent(0, 1) && miss == SearchEvent(MS_PER_DAY, 0) && d < 2
    ensures var log := [hit, miss];
      && Keys(log, ByPath(d)) != [] && (forall k :: k in Keys(log, ByTerm(d)) <==> k == "x")
      && CountKey(log, ByTerm(d), "x") == 1 && CountKey(log, ByFailedTerm(d), "x") == d
  {
    hide Keys, CountKey;
    var log := [hit, miss];
    KeysExact(log, ByPath(d));
    KeysExact(log, ByTerm(d));
    var e := log[d];
    assert DayOf(hit.at) == 0 && DayOf(miss.at) == 1;
    assert e in log && ByPath(d)(e) == Some("/search") && ByTerm(d)(e) == Some("x");
    CountTwo(hit, miss, ByTerm(d), "x");
    CountTwo(hit, miss, ByFailedTerm(d), "x");
  }

  lemma CountTwo(a: Event, b: Event, group: Group, k: string)
    ensures CountKey([a, b], group, k) == (if group(a) == Some(k) then 1 else 0) + if group(b) == Some(k) then 1 else 0
  {
    assert [a, b][..1] == [a] && [a][..0] == [];
    assert CountKey([a], group, k) == if group(a) == Some(k) then 1 else 0;
  }

  // ------------------------------------------------------------------------------------------
  // Sections
  // ------------------------------------------------------------------------------------------

  function SectionScope(from: int): Row<SectionRow> -> bool { (r: Row<SectionRow>) => from <= r.key.0 }

  function SectionViews(rows: seq<Row<SectionRow>>, from: int, section: string): nat {
    SumKey(Select(rows, SectionScope(from)), ByGroup<SectionRow>(), Weight((r: SectionRow) => r.views), section)
  }

  /** `Math.round(total / views)`, and zero without views. */
  function AverageDwell(views: nat, totalDwellMs: nat): int {
    if views > 0 then Round(totalDwellMs as real / views as real) else 0
  }

  /** The average times the views is the total, to within half a millisecond a view. */
  lemma AverageIs(views: nat, total: nat)
    ensures views == 0 ==> AverageDwell(views, total) == 0
    ensures views > 0 ==> -(views as int) <= 2 * (AverageDwell(views, total) * views - total) <= views
  {
    if views > 0 {
      var q, a := total as real / views as real, AverageDwell(views, total);
      assert q * views as real == total as real;
      assert a as real - 0.5 <= q <= a as real + 0.5;
      Scaled(q, a, views);
    }
  }

  lemma Scaled(q: real, a: int, views: nat)
    requires a as real - 0.5 <= q <= a as real + 0.5
    ensures (a * views) as real - 0.5 * views as real <= q * views as real <= (a * views) as real + 0.5 * views as real
  {
    var v := views as real;
    assert (a * views) as real == a as real * v;
    Product(q - (a as real - 0.5), v);
    Product((a as real + 0.5) - q, v);
  }

  lemma Product(x: real, y: real)
    requires x >= 0.0 && y >= 0.0
    ensures x * y >= 0.0
  {
  }

  function OfSection(): Event -> Option<(int, string)> {
    (e: Event) =>
      if e.fields.kind.SectionView? && e.fields.target.Some? then Some((DayOf(e.at), e.fields.target.value)) else None
  }

  function Viewed(t: Tables, from: int, section: string): Event -> bool {
    (e: Event) =>
      e.fields.kind.SectionView? && e.fields.target == Some(section) && from <= DayOf(e.at) && Rolled(t, DayOf(e.at))
  }

  lemma {:induction false} SectionCount(log: seq<Event>, d: int, section: string)
    ensures SectionOf(log, d, section).views == CountKey(log, OfSection(), (d, section))
  {
    hide SumKey;
    if log != [] { SectionCount(log[..|log| - 1], d, section); }
  }

  lemma SectionRowAt(t: Tables, log: seq<Event>, from: int, d: int, section: string)
    requires Settled(t, log, from) && from <= d
    ensures (d, section) in t.sections <==> Rolled(t, d) && section in Keys(log, BySection(d))
    ensures (d, section) in t.sections ==> t.sections[(d, section)] == SectionOf(log, d, section)
  {
    QuietDay(log, d);
    hide Keys, SectionOf, SiteVisitors, PathRow;
    if Exact(t, log, d) {
      assert Get(t.sections, (d, section)) == SectionRowOf(log, d, section);
      assert Get(t.daily, (d, SITE_TOTAL_PATH)) == DailyRowOf(log, d, SITE_TOTAL_PATH);
    }
  }

  lemma SectionRowIsCount(t: Tables, log: seq<Event>, rows: seq<Row<SectionRow>>, from: int, r: Row<SectionRow>)
    requires Lists(rows, t.sections) && Settled(t, log, from) && r in rows && from <= r.key.0
    ensures r.columns.views == CountKey(log, OfSection(), r.key)
  {
    hide Settled, SectionOf, CountKey;
    SectionRowAt(t, log, from, r.key.0, r.key.1);
    SectionCount(log, r.key.0, r.key.1);
    var j :| 0 <= j < |rows| && rows[j] == r;
    assert Get(t.sections, rows[j].key) == Some(rows[j].columns);
  }

  lemma ViewIsListed(t: Tables, log: seq<Event>, rows: seq<Row<SectionRow>>, from: int, section: string,
                     keep: Row<SectionRow> -> bool, e: Event)
    requires Lists(rows, t.sections) && Settled(t, log, from) && e in log
    requires forall r :: keep(r) <==> from <= r.key.0 && r.key.1 == section
    ensures Viewed(t, from, section)(e) <==> OfSection()(e).Some? && OfSection()(e).value in KeysOf(Select(rows, keep))
  {
    if OfSection()(e).Some? {
      var k := OfSection()(e).value;
      KeysExact(log, BySection(k.0));
      assert BySection(k.0)(e) == Some(k.1);
      hide Keys, Select, Settled, Lists, KeysOf;
      KeyListed(t.sections, rows, keep, k, from <= k.0 && k.1 == section);
      if from <= k.0 { SectionRowAt(t, log, from, k.0, k.1); }
    }
  }

  /** A section's views on the screen are the section views ever stored for it on the days reported. */
  lemma SectionsAreViews(t: Tables, log: seq<Event>, rows: seq<Row<SectionRow>>, from: int, section: string)
    requires Lists(rows, t.sections) && Settled(t, log, from)
    ensures SectionViews(rows, from, section) == |Select(log, Viewed(t, from, section))|
  {
    var keep := (r: Row<SectionRow>) => from <= r.key.0 && r.key.1 == section;
    var views := (r: SectionRow) => r.views;
    var scope := Select(rows, keep);
    SelectDistinct(rows, keep);
    GroupOfScope(rows, SectionScope(from), ByGroup<SectionRow>(), views, section, keep);
    hide Settled, Keys, Select, Sum, SumKey, CountIn, CountKey, SumOver, Viewed, OfSection;
    forall i | 0 <= i < |scope| ensures views(scope[i].columns) == CountKey(log, OfSection(), scope[i].key) {
      assert scope[i] in scope;
      SectionRowIsCount(t, log, rows, from, scope[i]);
    }
    SumIsCount(scope, views, log, OfSection());
    GroupsAddUp(log, OfSection(), KeysOf(scope));
    forall e | e in log
      ensures Viewed(t, from, section)(e) <==> OfSection()(e).Some? && OfSection()(e).value in KeysOf(scope)
    {
      ViewIsListed(t, log, rows, from, section, keep, e);
    }
    CountInIs(log, OfSection(), KeysOf(scope), Viewed(t, from, section));
  }

  function SectionDwell(rows: seq<Row<SectionRow>>, from: int, section: string): nat {
    SumKey(Select(rows, SectionScope(from)), ByGroup<SectionRow>(), Weight((r: SectionRow) => r.totalDwellMs), section)
  }

  /** Dwell on a section on one day, before it is fitted into its column. */
  function DayDwell(log: seq<Event>, d: int, section: string): nat { SumKey(log, BySection(d), Dwell, section) }

  /** The days' totals, each cut off at the largest number its column holds. */
  function CappedOver(log: seq<Event>, section: string, days: seq<int>): nat {
    if days == [] then 0
    else CappedOver(log, section, days[..|days| - 1]) + Min(DayDwell(log, days[|days| - 1], section), MAX_INT32)
  }

  lemma {:induction false} SameDwell(log: seq<Event>, d: int, section: string)
    ensures DayDwell(log, d, section) == SumKey(log, OfSection(), Dwell, (d, section))
  {
    if log != [] { SameDwell(log[..|log| - 1], d, section); }
  }

  /** Fitting the days' totals into their columns loses something exactly when some day overflows. */
  lemma {:induction false} CappedIs(log: seq<Event>, section: string, rows: seq<Row<SectionRow>>)
    requires forall r :: r in rows ==> r.key.1 == section && r.columns.totalDwellMs == Min(DayDwell(log, r.key.0, section), MAX_INT32)
    ensures var capped, whole := CappedOver(log, section, DaysOf(rows)), WeightOver(log, OfSection(), Dwell, KeysOf(rows));
      Sum(rows, (r: SectionRow) => r.totalDwellMs) == capped <= whole &&
      (capped == whole <==> forall r :: r in rows ==> DayDwell(log, r.key.0, section) <= MAX_INT32)
  {
    hide DayDwell;
    if rows != [] {
      var n := |rows| - 1;
      assert rows[n] in rows && forall r :: r in rows[..n] ==> r in rows;
      CappedIs(log, section, rows[..n]);
      CappedStep(log, section, rows);
      hide CappedOver, WeightOver, Sum;
      assert rows == rows[..n] + [rows[n]];
    }
  }

  lemma CappedStep(log: seq<Event>, section: string, rows: seq<Row<SectionRow>>)
    requires rows != [] && rows[|rows| - 1].key.1 == section
    ensures var n := |rows| - 1;
      var whole := DayDwell(log, rows[n].key.0, section);
      CappedOver(log, section, DaysOf(rows)) == CappedOver(log, section, DaysOf(rows[..n])) + Min(whole, MAX_INT32) &&
      WeightOver(log, OfSection(), Dwell, KeysOf(rows)) == WeightOver(log, OfSection(), Dwell, KeysOf(rows[..n])) + whole &&
      Sum(rows, (r: SectionRow) => r.totalDwellMs) ==
        Sum(rows[..n], (r: SectionRow) => r.totalDwellMs) + rows[n].columns.totalDwellMs
  {
    var n := |rows| - 1;
    assert KeysOf(rows)[..n] == KeysOf(rows[..n]) && DaysOf(rows)[..n] == DaysOf(rows[..n]);
    SameDwell(log, rows[n].key.0, section);
    assert KeysOf(rows)[n] == (rows[n].key.0, section);
    hide DayDwell, SumKey;
  }

  lemma SectionDwellRow(t: Tables, log: seq<Event>, rows: seq<Row<SectionRow>>, from: int, section: string, r: Row<SectionRow>)
    requires Lists(rows, t.sections) && Settled(t, log, from) && r in rows && from <= r.key.0 && r.key.1 == section
    ensures r.columns.totalDwellMs == Min(DayDwell(log, r.key.0, section), MAX_INT32) && Rolled(t, r.key.0)
  {
    hide Settled, SumKey, Keys;
    SectionRowAt(t, log, from, r.key.0, r.key.1);
    var j :| 0 <= j < |rows| && rows[j] == r;
    assert Get(t.sections, rows[j].key) == Some(rows[j].columns);
  }

  lemma QuietSection(t: Tables, log: seq<Event>, rows: seq<Row<SectionRow>>, from: int, section: string, d: int)
    requires Lists(rows, t.sections) && Settled(t, log, from) && from <= d && Rolled(t, d) && (d, section) !in KeysOf(rows)
    ensures DayDwell(log, d, section) == 0
  {
    KeysExact(log, BySection(d));
    SectionRowAt(t, log, from, d, section);
    hide Keys, Settled;
    NoGroupNoSum(log, BySection(d), Dwell, section);
  }

  /** A day's dwell for a section: nothing at first, and one more event adds its own, if it is a view of that section on that
      day and reports one. */
  lemma OneMoreDwell(log: seq<Event>, e: Event, d: int, section: string)
    ensures DayDwell([], d, section) == 0
    ensures DayDwell(log + [e], d, section) == DayDwell(log, d, section) +
      if DayOf(e.at) == d && e.fields.kind.SectionView? && e.fields.target == Some(section) && e.fields.dwellMs.Some?
      then e.fields.dwellMs.value else 0
  {
    assert (log + [e])[..|log|] == log;
  }

  /** The dwell total on the screen is the sum over the reported days of each day's dwell cut off at the largest 32-bit
      number: at most the dwell of all the section views ever stored on those days, and all of it if and only if no
      reported day overflows. */
  lemma SectionDwellIs(t: Tables, log: seq<Event>, rows: seq<Row<SectionRow>>, from: int, section: string,
                       keep: Row<SectionRow> -> bool)
    requires Lists(rows, t.sections) && Settled(t, log, from)
    requires forall r :: keep(r) <==> from <= r.key.0 && r.key.1 == section
    ensures var shown, stored := SectionDwell(rows, from, section), TotalOf(Select(log, Viewed(t, from, section)), Dwell);
      shown == CappedOver(log, section, DaysOf(Select(rows, keep))) <= stored &&
      (shown == stored <==> forall d :: from <= d && Rolled(t, d) ==> DayDwell(log, d, section) <= 2_147_483_647)
  {
    var dwell := (r: SectionRow) => r.totalDwellMs;
    var scope := Select(rows, keep);
    SelectDistinct(rows, keep);
    GroupOfScope(rows, SectionScope(from), ByGroup<SectionRow>(), dwell, section, keep);
    hide Settled, Keys, Select, Sum, SumKey, SumIn, TotalOf, WeightOver, Viewed, OfSection, DayDwell, CappedOver, Rolled;
    forall r | r in scope
      ensures r.key.1 == section && r.columns.totalDwellMs == Min(DayDwell(log, r.key.0, section), MAX_INT32) && Rolled(t, r.key.0)
    {
      SectionDwellRow(t, log, rows, from, section, r);
    }
    CappedIs(log, section, scope);
    WeightsAddUp(log, OfSection(), Dwell, KeysOf(scope));
    forall e | e in log
      ensures Viewed(t, from, section)(e) <==> OfSection()(e).Some? && OfSection()(e).value in KeysOf(scope)
    {
      ViewIsListed(t, log, rows, from, section, keep, e);
    }
    SumInIs(log, OfSection(), Dwell, KeysOf(scope), Viewed(t, from, section));
    OverflowingDays(t, log, rows, from, section, scope);
  }

  lemma OverflowingDays(t: Tables, log: seq<Event>, rows: seq<Row<SectionRow>>, from: int, section: string, scope: seq<Row<SectionRow>>)
    requires Lists(rows, t.sections) && Settled(t, log, from)
    requires forall r :: r in scope <==> r in rows && from <= r.key.0 && r.key.1 == section
    requires forall r :: r in scope ==> Rolled(t, r.key.0)
    ensures (forall r :: r in scope ==> DayDwell(log, r.key.0, section) <= MAX_INT32) <==>
      (forall d :: from <= d && Rolled(t, d) ==> DayDwell(log, d, section) <= MAX_INT32)
  {
    hide Settled, DayDwell, Rolled;
    if forall r :: r in scope ==> DayDwell(log, r.key.0, section) <= MAX_INT32 {
      forall d | from <= d && Rolled(t, d) ensures DayDwell(log, d, section) <= MAX_INT32 {
        if (d, section) in KeysOf(rows) {
          var i :| 0 <= i < |rows| && KeysOf(rows)[i] == (d, section);
          assert rows[i] in scope;
        } else {
          QuietSection(t, log, rows, from, section, d);
        }
      }
    }
  }
}
