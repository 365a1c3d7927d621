/** How the daily distinct counts relate to one another and to the people behind them. */
module Visitors {
  import opened Calendar
  import opened Counting
  import opened Options
  import opened Rollup
  import opened VisitorKey

  lemma {:induction false} SubsetCard<T>(a: set<T>, b: set<T>)
    requires a <= b
    ensures |a| <= |b|
  {
    if a != {} {
      var x :| x in a;
      SubsetCard(a - {x}, b - {x});
    }
  }

  /** No page has more visitors than the site. */
  lemma PathAtMostSite(log: seq<Event>, d: int, path: string)
    ensures PathRow(log, d, path).visitors <= SiteVisitors(log, d)
  {
    SubsetCard(Rollup.Visitors(log, ByPath(d), path), Rollup.Visitors(log, WholeSite(d), SITE_TOTAL_PATH));
    hide CountKey;
  }

  function SumVisitors(log: seq<Event>, d: int, paths: seq<string>): nat {
    if paths == [] then 0 else SumVisitors(log, d, paths[..|paths| - 1]) + |Rollup.Visitors(log, ByPath(d), paths[|paths| - 1])|
  }

  function Union(log: seq<Event>, d: int, paths: seq<string>): set<string> {
    if paths == [] then {} else Union(log, d, paths[..|paths| - 1]) + Rollup.Visitors(log, ByPath(d), paths[|paths| - 1])
  }

  lemma {:induction false} UnionBound(log: seq<Event>, d: int, paths: seq<string>)
    ensures |Union(log, d, paths)| <= SumVisitors(log, d, paths)
    ensures forall p :: p in paths ==> Rollup.Visitors(log, ByPath(d), p) <= Union(log, d, paths)
  {
    hide Rollup.Visitors;
    if paths != [] {
      var n := |paths| - 1;
      UnionBound(log, d, paths[..n]);
      UnionCard(Union(log, d, paths[..n]), Rollup.Visitors(log, ByPath(d), paths[n]));
      assert paths == paths[..n] + [paths[n]];
    }
  }

  lemma UnionCard<T>(a: set<T>, b: set<T>)
    ensures |a + b| <= |a| + |b|
  {
    assert a + b == a + (b - a);
    SubsetCard(b - a, b);
  }

  /** The site's visitors are at most the sum over its pages: somebody reading two pages is in two groups. */
  lemma SiteAtMostSum(log: seq<Event>, d: int)
    ensures SiteVisitors(log, d) <= SumVisitors(log, d, Keys(log, ByPath(d)))
  {
    var paths := Keys(log, ByPath(d));
    KeysExact(log, ByPath(d));
    UnionBound(log, d, paths);
    var site := Rollup.Visitors(log, WholeSite(d), SITE_TOTAL_PATH);
    forall v | v in site ensures v in Union(log, d, paths) {
      var e :| e in log && WholeSite(d)(e) == Some(SITE_TOTAL_PATH) && e.visitor == v;
      assert ByPath(d)(e) == Some(e.fields.path);
      assert v in Rollup.Visitors(log, ByPath(d), e.fields.path);
    }
    hide Union;
    SubsetCard(site, Union(log, d, paths));
  }

  type Client = (Option<string>, Option<string>)

  function ClientsOn(log: seq<Event>, clients: seq<Client>, d: int): set<Client>
    requires |clients| == |log|
  {
    set i | 0 <= i < |log| && OnDay(d)(log[i]) :: clients[i]
  }

  lemma {:induction false} ImageCard<A, B>(from: set<A>, to: set<B>, f: A -> B)
    requires forall b :: b in to ==> exists a :: a in from && f(a) == b
    ensures |to| <= |from|
    decreases |from|
  {
    if from == {} {
      assert forall b :: b !in to;
    } else {
      var a :| a in from;
      ImageCard(from - {a}, to - {f(a)}, f);
      assert to <= (to - {f(a)}) + {f(a)};
      UnionCard(to - {f(a)}, {f(a)});
      SubsetCard(to, (to - {f(a)}) + {f(a)});
    }
  }

  /** A day's visitors are at most the distinct (address, browser) pairs seen that UTC day: the salt turns over at
      exactly the midnight the scan does, so nobody is counted twice within one day's row. */
  lemma SiteAtMostClients(hash: string -> string, log: seq<Event>, clients: seq<Client>, d: int)
    requires |clients| == |log|
    requires forall i :: 0 <= i < |log| ==> log[i].visitor == KeyOf(hash, clients[i].0, clients[i].1, log[i].at)
    ensures SiteVisitors(log, d) <= |ClientsOn(log, clients, d)|
  {
    hide KeyOf, DaySalt, UtcDay;
    var midnight := d * MS_PER_DAY;
    var key := (c: Client) => KeyOf(hash, c.0, c.1, midnight);
    var site := Rollup.Visitors(log, WholeSite(d), SITE_TOTAL_PATH);
    forall v | v in site ensures exists c :: c in ClientsOn(log, clients, d) && key(c) == v {
      var e :| e in log && WholeSite(d)(e) == Some(SITE_TOTAL_PATH) && e.visitor == v;
      var i :| 0 <= i < |log| && log[i] == e;
      SameDaySameKey(hash, clients[i].0, clients[i].1, e.at, midnight);
      assert clients[i] in ClientsOn(log, clients, d);
    }
    ImageCard(ClientsOn(log, clients, d), site, key);
  }

  lemma SameDaySameKey(hash: string -> string, ip: Option<string>, ua: Option<string>, t: int, u: int)
    requires DayOf(t) == DayOf(u)
    ensures KeyOf(hash, ip, ua, t) == KeyOf(hash, ip, ua, u)
  {
    hide DaySalt, UtcDay;
    UtcDayIs(t);
    SaltExactly(t, u);
  }

  // ------------------------------------------------------------------------------------------
  // What a distinct count is
  // ------------------------------------------------------------------------------------------

  /** Some event of the day, of any kind, is by this visitor. */
  ghost predicate SeenOnDay(log: seq<Event>, d: int, visitor: string) {
    exists e :: e in log && DayOf(e.at) == d && e.visitor == visitor
  }

  ghost predicate SeenOnPage(log: seq<Event>, d: int, path: string, visitor: string) {
    exists e :: e in log && DayOf(e.at) == d && e.fields.path == path && e.visitor == visitor
  }

  /** The site's count is the length of any list that names, once each, exactly the visitors with an event that day; and a
      page's that of any such list of the visitors with an event on it. */
  lemma CountsVisitors(log: seq<Event>, d: int, path: string, site: seq<string>, page: seq<string>)
    requires Distinct(site) && forall v :: v in site <==> SeenOnDay(log, d, v)
    requires Distinct(page) && forall v :: v in page <==> SeenOnPage(log, d, path, v)
    ensures SiteVisitors(log, d) == |site| && PathRow(log, d, path).visitors == |page|
  {
    hide CountKey;
    DistinctCard(site);
    DistinctCard(page);
    var onSite, onPage := Rollup.Visitors(log, WholeSite(d), SITE_TOTAL_PATH), Rollup.Visitors(log, ByPath(d), path);
    forall v ensures v in onSite <==> SeenOnDay(log, d, v) {
      if e :| e in log && DayOf(e.at) == d && e.visitor == v { assert WholeSite(d)(e) == Some(SITE_TOTAL_PATH); }
    }
    forall v ensures v in onPage <==> SeenOnPage(log, d, path, v) {
      if e :| e in log && DayOf(e.at) == d && e.fields.path == path && e.visitor == v { assert ByPath(d)(e) == Some(path); }
    }
    assert onSite == (set v | v in site) && onPage == (set v | v in page);
  }

  lemma {:induction false} DistinctCard<T>(s: seq<T>)
    requires Distinct(s)
    ensures |set x | x in s| == |s|
  {
    if s != [] {
      var n := |s| - 1;
      DistinctCard(s[..n]);
      assert s[n] !in s[..n];
      assert (set x | x in s) == (set x | x in s[..n]) + {s[n]};
    }
  }

  /** One more event adds one to the day's count exactly when it is of that day and its visitor has no event there yet; and
      to its page's count exactly when the visitor has none on that page yet. */
  lemma OneMoreEvent(log: seq<Event>, e: Event, d: int, path: string)
    ensures SiteVisitors([], d) == 0 && PathRow([], d, path).visitors == 0
    ensures SiteVisitors(log + [e], d) ==
      SiteVisitors(log, d) + if DayOf(e.at) == d && !SeenOnDay(log, d, e.visitor) then 1 else 0
    ensures PathRow(log + [e], d, path).visitors ==
      PathRow(log, d, path).visitors + if DayOf(e.at) == d && e.fields.path == path && !SeenOnPage(log, d, path, e.visitor) then 1 else 0
  {
    OneMoreOnSite(log, e, d);
    OneMoreOnPage(log, e, d, path);
    hide Rollup.Visitors, CountKey;
  }

  lemma OneMoreOnSite(log: seq<Event>, e: Event, d: int)
    ensures SiteVisitors([], d) == 0
    ensures SiteVisitors(log + [e], d) == SiteVisitors(log, d) + if DayOf(e.at) == d && !SeenOnDay(log, d, e.visitor) then 1 else 0
  {
    OneMoreIn(log, e, WholeSite(d), SITE_TOTAL_PATH);
    InGroup(log, d, SITE_TOTAL_PATH, e.visitor);
    OneMoreCard(Rollup.Visitors(log, WholeSite(d), SITE_TOTAL_PATH), e.visitor);
    hide Rollup.Visitors, SeenOnDay;
  }

  lemma OneMoreOnPage(log: seq<Event>, e: Event, d: int, path: string)
    ensures PathRow([], d, path).visitors == 0
    ensures PathRow(log + [e], d, path).visitors ==
      PathRow(log, d, path).visitors + if DayOf(e.at) == d && e.fields.path == path && !SeenOnPage(log, d, path, e.visitor) then 1 else 0
  {
    OneMoreIn(log, e, ByPath(d), path);
    InGroup(log, d, path, e.visitor);
    OneMoreCard(Rollup.Visitors(log, ByPath(d), path), e.visitor);
    hide Rollup.Visitors, SeenOnPage, CountKey;
  }

  lemma OneMoreCard<T>(s: set<T>, x: T)
    ensures |s + {x}| == |s| + (if x in s then 0 else 1) && |s + {}| == |s|
  {
    assert x in s ==> s + {x} == s;
    assert s + {} == s;
  }

  lemma InGroup(log: seq<Event>, d: int, path: string, v: string)
    ensures v in Rollup.Visitors(log, WholeSite(d), SITE_TOTAL_PATH) <==> SeenOnDay(log, d, v)
    ensures v in Rollup.Visitors(log, ByPath(d), path) <==> SeenOnPage(log, d, path, v)
  {
    if e :| e in log && DayOf(e.at) == d && e.visitor == v { assert WholeSite(d)(e) == Some(SITE_TOTAL_PATH); }
    if e :| e in log && DayOf(e.at) == d && e.fields.path == path && e.visitor == v { assert ByPath(d)(e) == Some(path); }
  }

  lemma OneMoreIn(log: seq<Event>, e: Event, group: Group, k: string)
    ensures Rollup.Visitors([], group, k) == {}
    ensures Rollup.Visitors(log + [e], group, k) ==
      Rollup.Visitors(log, group, k) + if group(e) == Some(k) then {e.visitor} else {}
  {
    assert forall f :: f in log + [e] <==> f in log || f == e;
    if group(e) == Some(k) {
      assert e in log + [e];
    }
  }

  // ------------------------------------------------------------------------------------------
  // Exactly as many visitors as clients
  // ------------------------------------------------------------------------------------------

  /** What a client shows of itself. */
  function Face(c: Client): (string, string) { (ShownIp(c.0), ShownAgent(c.1)) }

  function FacesOn(log: seq<Event>, clients: seq<Client>, d: int): set<(string, string)>
    requires |clients| == |log|
  {
    set i | 0 <= i < |log| && OnDay(d)(log[i]) :: Face(clients[i])
  }

  /** Where the hash does not collide on what it is given that day, the day's visitors are exactly the different clients,
      told apart by what they show of address and browser. */
  lemma SiteIsClients(hash: string -> string, log: seq<Event>, clients: seq<Client>, d: int)
    requires |clients| == |log|
    requires forall i :: 0 <= i < |log| ==> log[i].visitor == KeyOf(hash, clients[i].0, clients[i].1, log[i].at)
    requires forall i :: 0 <= i < |log| ==> '|' !in ShownIp(clients[i].0)
    requires forall i, j :: 0 <= i < |log| && 0 <= j < |log| && OnDay(d)(log[i]) && OnDay(d)(log[j]) && log[i].visitor == log[j].visitor ==>
      KeyInput(clients[i].0, clients[i].1, log[i].at) == KeyInput(clients[j].0, clients[j].1, log[j].at)
    ensures SiteVisitors(log, d) == |FacesOn(log, clients, d)|
  {
    hide KeyInput, ShownIp, ShownAgent, DaySalt;
    var site, faces := Rollup.Visitors(log, WholeSite(d), SITE_TOTAL_PATH), FacesOn(log, clients, d);
    forall i, j | 0 <= i < |log| && 0 <= j < |log| && OnDay(d)(log[i]) && OnDay(d)(log[j])
      ensures log[i].visitor == log[j].visitor <==> Face(clients[i]) == Face(clients[j])
    {
      SameInputExactly(clients[i].0, clients[i].1, log[i].at, clients[j].0, clients[j].1, log[j].at);
    }
    var pairs := set i | 0 <= i < |log| && OnDay(d)(log[i]) :: (log[i].visitor, Face(clients[i]));
    forall p, q | p in pairs && q in pairs ensures p.0 == q.0 <==> p.1 == q.1 {
      var i :| 0 <= i < |log| && OnDay(d)(log[i]) && p == (log[i].visitor, Face(clients[i]));
      var j :| 0 <= j < |log| && OnDay(d)(log[j]) && q == (log[j].visitor, Face(clients[j]));
    }
    PairCard(pairs);
    SitePairs(log, clients, d, pairs);
    assert faces == (set p | p in pairs :: p.1) by { FacePairs(log, clients, d, pairs); }
  }

  lemma SitePairs(log: seq<Event>, clients: seq<Client>, d: int, pairs: set<(string, (string, string))>)
    requires |clients| == |log| && pairs == set i | 0 <= i < |log| && OnDay(d)(log[i]) :: (log[i].visitor, Face(clients[i]))
    ensures Rollup.Visitors(log, WholeSite(d), SITE_TOTAL_PATH) == set p | p in pairs :: p.0
  {
    hide Face;
    var site, firsts := Rollup.Visitors(log, WholeSite(d), SITE_TOTAL_PATH), set p | p in pairs :: p.0;
    forall v | v in site ensures v in firsts {
      var e :| e in log && WholeSite(d)(e) == Some(SITE_TOTAL_PATH) && e.visitor == v;
      var i :| 0 <= i < |log| && log[i] == e;
      assert (v, Face(clients[i])) in pairs;
    }
    forall v | v in firsts ensures v in site {
      var p :| p in pairs && p.0 == v;
      var i :| 0 <= i < |log| && OnDay(d)(log[i]) && p == (log[i].visitor, Face(clients[i]));
      assert log[i] in log && WholeSite(d)(log[i]) == Some(SITE_TOTAL_PATH);
    }
  }

  lemma FacePairs(log: seq<Event>, clients: seq<Client>, d: int, pairs: set<(string, (string, string))>)
    requires |clients| == |log| && pairs == set i | 0 <= i < |log| && OnDay(d)(log[i]) :: (log[i].visitor, Face(clients[i]))
    ensures FacesOn(log, clients, d) == set p | p in pairs :: p.1
  {
    hide Face;
    var faces, seconds := FacesOn(log, clients, d), set p | p in pairs :: p.1;
    forall f | f in faces ensures f in seconds {
      var i :| 0 <= i < |log| && OnDay(d)(log[i]) && Face(clients[i]) == f;
      assert (log[i].visitor, f) in pairs;
    }
    forall f | f in seconds ensures f in faces {
      var p :| p in pairs && p.1 == f;
    }
  }

  /** Pairs that determine each other are as many as their first parts, and as their second. */
  lemma {:induction false} PairCard<A, B>(pairs: set<(A, B)>)
    requires forall p, q :: p in pairs && q in pairs ==> (p.0 == q.0 <==> p.1 == q.1)
    ensures |set p | p in pairs :: p.0| == |pairs| == |set p | p in pairs :: p.1|
    decreases |pairs|
  {
    if pairs != {} {
      var p :| p in pairs;
      var rest := pairs - {p};
      PairCard(rest);
      var a, b := (set q | q in rest :: q.0), (set q | q in rest :: q.1);
      assert (set q | q in pairs :: q.0) == a + {p.0} by { Split0(pairs, p); }
      assert (set q | q in pairs :: q.1) == b + {p.1} by { Split1(pairs, p); }
      assert p.0 !in a && p.1 !in b;
    }
  }

  lemma Split0<A, B>(pairs: set<(A, B)>, p: (A, B))
    requires p in pairs
    ensures (set q | q in pairs :: q.0) == (set q | q in pairs - {p} :: q.0) + {p.0}
  {
    var all, rest := (set q | q in pairs :: q.0), (set q | q in pairs - {p} :: q.0);
    forall x | x in all ensures x in rest + {p.0} {
      var q :| q in pairs && q.0 == x;
      assert q == p || q in pairs - {p};
    }
  }

  lemma Split1<A, B>(pairs: set<(A, B)>, p: (A, B))
    requires p in pairs
    ensures (set q | q in pairs :: q.1) == (set q | q in pairs - {p} :: q.1) + {p.1}
  {
    var all, rest := (set q | q in pairs :: q.1), (set q | q in pairs - {p} :: q.1);
    forall x | x in all ensures x in rest + {p.1} {
      var q :| q in pairs && q.1 == x;
      assert q == p || q in pairs - {p};
    }
  }
}
