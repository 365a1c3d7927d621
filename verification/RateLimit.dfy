/** The fixed-window limiter: a counter script in Redis, and an in-process map when Redis is away. */
module RateLimit {
  import opened Options

  const MAX_MEMORY_WINDOWS := 10_000

  /** A window open until the instant `until`, in milliseconds. */
  datatype Window = Window(count: int, until: int)

  datatype Decision = Decision(allowed: bool, remaining: int)

  datatype Request = Request(key: string, limit: int, windowSeconds: int, now: int) {
    function Span(): int { windowSeconds * 1_000 }
  }

  function Counted(count: int, limit: int): Decision {
    Decision(count <= limit, if 0 < limit - count then limit - count else 0)
  }

  // ------------------------------------------------------------------------------------------
  // INCR, and EXPIRE on the first hit, as one operation
  // ------------------------------------------------------------------------------------------

  /** A key is gone once its time to live has run out. */
  function LuaLive(store: map<string, Window>, key: string, now: int): Option<Window> {
    if key in store && now < store[key].until then Some(store[key]) else None
  }

  function LuaConsume(store: map<string, Window>, r: Request): (map<string, Window>, Decision) {
    var w := match LuaLive(store, r.key, r.now)
      case Some(w) => w.(count := w.count + 1)
      case None => Window(1, r.now + r.Span());
    (store[r.key := w], Counted(w.count, r.limit))
  }

  // ------------------------------------------------------------------------------------------
  // The in-process map, in insertion order
  // ------------------------------------------------------------------------------------------

  datatype Entry = Entry(key: string, window: Window)

  ghost predicate Distinct(entries: seq<Entry>) {
    forall i, j :: 0 <= i < j < |entries| ==> entries[i].key != entries[j].key
  }

  function Find(entries: seq<Entry>, key: string): (i: int)
    ensures i == -1 ==> forall k :: 0 <= k < |entries| ==> entries[k].key != key
    ensures i != -1 ==> 0 <= i < |entries| && entries[i].key == key
  {
    if entries == [] then -1
    else if entries[|entries| - 1].key == key then |entries| - 1
    else Find(entries[..|entries| - 1], key)
  }

  function MemoryLive(entries: seq<Entry>, key: string, now: int): Option<Window> {
    var i := Find(entries, key);
    if i != -1 && now < entries[i].window.until then Some(entries[i].window) else None
  }

  function Live(entries: seq<Entry>, now: int): seq<Entry> {
    if entries == [] then []
    else
      var last := entries[|entries| - 1];
      Live(entries[..|entries| - 1], now) + if last.window.until <= now then [] else [last]
  }

  /** How many live windows a prune drops, the oldest first. */
  function Excess(entries: seq<Entry>, now: int): nat {
    var live := |Live(entries, now)|;
    if live > MAX_MEMORY_WINDOWS then live - MAX_MEMORY_WINDOWS else 0
  }

  function Pruned(entries: seq<Entry>, now: int): seq<Entry> { Live(entries, now)[Excess(entries, now)..] }

  function MemoryConsume(entries: seq<Entry>, r: Request): (seq<Entry>, Decision) {
    match MemoryLive(entries, r.key, r.now)
    case None =>
      (Pruned(entries, r.now) + [Entry(r.key, Window(1, r.now + r.Span()))], Decision(true, r.limit - 1))
    case Some(w) =>
      var w' := w.(count := w.count + 1);
      (entries[Find(entries, r.key) := Entry(r.key, w')], Counted(w'.count, r.limit))
  }

  /** One process: its own map, and the counters every process shares. */
  class Limiter {
    var windows: seq<Entry>
    var store: map<string, Window>

    constructor (shared: map<string, Window>)
      ensures windows == [] && store == shared
    {
      windows, store := [], shared;
    }

    /** The script answers when Redis does, and the process answers for itself when it does not. */
    method ConsumeSlot(r: Request, redisAnswers: bool) returns (d: Decision)
      requires Distinct(windows)
      modifies this
      ensures Distinct(windows)
      ensures redisAnswers ==> (store, d) == LuaConsume(old(store), r) && windows == old(windows)
      ensures !redisAnswers ==> (windows, d) == MemoryConsume(old(windows), r) && store == old(store)
    {
      if redisAnswers {
        var next := LuaConsume(store, r);
        store := next.0;
        return next.1;
      }
      d := ConsumeInMemory(r);
    }

    method PruneMemoryWindows(now: int)
      modifies `windows
      ensures windows == Pruned(old(windows), now)
    {
      ghost var before := windows;
      var i := 0;
      ghost var seen := 0;
      while i < |windows|
        invariant seen <= |before| && i <= |windows|
        invariant windows[..i] == Live(before[..seen], now) && windows[i..] == before[seen..]
        decreases |windows| - i
      {
        assert windows[i] == windows[i..][0] == before[seen];
        assert before[..seen + 1][..seen] == before[..seen];
        if windows[i].window.until <= now {
          windows := windows[..i] + windows[i + 1..];
        } else {
          i := i + 1;
        }
        seen := seen + 1;
      }
      assert before[..seen] == before;
      ghost var live := windows;
      if |windows| > MAX_MEMORY_WINDOWS {
        var excess := |windows| - MAX_MEMORY_WINDOWS;
        var dropped := 0;
        while true
          invariant dropped < excess && windows == live[dropped..]
          decreases excess - dropped
        {
          windows := windows[1..];
          dropped := dropped + 1;
          if dropped >= excess { break; }
        }
      }
    }

    method ConsumeInMemory(r: Request) returns (d: Decision)
      requires Distinct(windows)
      modifies `windows
      ensures Distinct(windows)
      ensures (windows, d) == MemoryConsume(old(windows), r)
    {
      hide Live, Find, Pruned;
      KeepsDistinct(windows, r);
      var i := Find(windows, r.key);
      if i == -1 || windows[i].window.until <= r.now {
        GoneWhenDead(windows, r.key, r.now);
        PruneMemoryWindows(r.now);
        windows := windows + [Entry(r.key, Window(1, r.now + r.Span()))];
        d := Decision(true, r.limit - 1);
      } else {
        var w := windows[i].window.(count := windows[i].window.count + 1);
        windows := windows[i := Entry(r.key, w)];
        d := Counted(w.count, r.limit);
      }
    }
  }

  // ------------------------------------------------------------------------------------------
  // What a prune keeps
  // ------------------------------------------------------------------------------------------

  ghost predicate Has(entries: seq<Entry>, key: string, w: Window) {
    exists k :: 0 <= k < |entries| && entries[k] == Entry(key, w)
  }

  lemma HasOneMore(entries: seq<Entry>, e: Entry, key: string, w: Window)
    ensures Has(entries + [e], key, w) <==> Has(entries, key, w) || e == Entry(key, w)
  {
    assert (entries + [e])[|entries|] == e;
    forall k | 0 <= k < |entries| ensures (entries + [e])[k] == entries[k] {
    }
  }

  lemma FoundIs(entries: seq<Entry>, key: string, now: int, w: Window)
    requires Distinct(entries)
    ensures MemoryLive(entries, key, now) == Some(w) <==> Has(entries, key, w) && now < w.until
  {
  }

  lemma {:induction false} LiveIs(entries: seq<Entry>, now: int)
    requires Distinct(entries)
    ensures Distinct(Live(entries, now))
    ensures forall key, w :: Has(Live(entries, now), key, w) <==> Has(entries, key, w) && now < w.until
    ensures forall e :: e in Live(entries, now) ==> e in entries
    ensures |Live(entries, now)| <= |entries|
  {
    if entries != [] {
      var n := |entries| - 1;
      var last, before := entries[n], Live(entries[..n], now);
      LiveIs(entries[..n], now);
      assert Live(entries, now) == before + if last.window.until <= now then [] else [last];
      forall e | e in before ensures e.key != last.key {
        assert e in entries[..n];
      }
      forall key, w ensures Has(Live(entries, now), key, w) <==> Has(entries, key, w) && now < w.until {
        HasOneMore(entries[..n], last, key, w);
        HasOneMore(before, last, key, w);
        assert entries[..n] + [last] == entries && before + [] == before;
      }
    }
  }

  lemma GoneWhenDead(entries: seq<Entry>, key: string, now: int)
    requires Distinct(entries) && MemoryLive(entries, key, now) == None
    ensures Find(Pruned(entries, now), key) == -1
  {
    LiveIs(entries, now);
    var live := Live(entries, now);
    if k :| 0 <= k < |live| && live[k].key == key {
      var w := live[k].window;
      assert Has(live, key, w);
      FoundIs(entries, key, now, w);
    }
  }

  /** Keys stay distinct, and the map never holds more than 10,001 windows. */
  lemma KeepsDistinct(entries: seq<Entry>, r: Request)
    requires Distinct(entries)
    ensures var entries' := MemoryConsume(entries, r).0;
      Distinct(entries') && (|entries| <= MAX_MEMORY_WINDOWS + 1 ==> |entries'| <= MAX_MEMORY_WINDOWS + 1)
  {
    LiveIs(entries, r.now);
    if MemoryLive(entries, r.key, r.now) == None {
      GoneWhenDead(entries, r.key, r.now);
    }
  }

  /** A prune drops no live window while at most 10,000 are live; beyond that it drops exactly the excess. */
  lemma PruneDropsOnlyExcess(entries: seq<Entry>, now: int)
    requires Distinct(entries)
    ensures |Live(entries, now)| <= 10_000 ==>
      forall key, w :: Has(Pruned(entries, now), key, w) <==> Has(entries, key, w) && now < w.until
    ensures |Pruned(entries, now)| == if |Live(entries, now)| <= 10_000 then |Live(entries, now)| else 10_000
  {
    LiveIs(entries, now);
    assert Live(entries, now)[0..] == Live(entries, now);
  }

  // ------------------------------------------------------------------------------------------
  // The two limiters, run side by side
  // ------------------------------------------------------------------------------------------

  ghost predicate MonotoneClock(reqs: seq<Request>) {
    forall i, j :: 0 <= i <= j < |reqs| ==> reqs[i].now <= reqs[j].now
  }

  function MemoryAfter(reqs: seq<Request>): seq<Entry> {
    if reqs == [] then [] else MemoryConsume(MemoryAfter(reqs[..|reqs| - 1]), reqs[|reqs| - 1]).0
  }

  /** Whatever the requests, the clock and the evictions, the map holds each key once and never more than 10,001 windows. */
  lemma {:induction false} MapBounded(reqs: seq<Request>)
    ensures Distinct(MemoryAfter(reqs)) && |MemoryAfter(reqs)| <= MAX_MEMORY_WINDOWS + 1
  {
    hide MemoryConsume, Distinct;
    if reqs == [] {
      NoneDistinct();
    } else {
      MapBounded(reqs[..|reqs| - 1]);
      KeepsDistinct(MemoryAfter(reqs[..|reqs| - 1]), reqs[|reqs| - 1]);
    }
  }

  lemma NoneDistinct()
    ensures Distinct([])
  {
  }

  function LuaAfter(reqs: seq<Request>): map<string, Window> {
    if reqs == [] then map[] else LuaConsume(LuaAfter(reqs[..|reqs| - 1]), reqs[|reqs| - 1]).0
  }

  function MemoryDecision(reqs: seq<Request>, i: nat): Decision
    requires i < |reqs|
  {
    MemoryConsume(MemoryAfter(reqs[..i]), reqs[i]).1
  }

  function LuaDecision(reqs: seq<Request>, i: nat): Decision
    requires i < |reqs|
  {
    LuaConsume(LuaAfter(reqs[..i]), reqs[i]).1
  }

  /** Serving `r` drops the live window of `key` for lack of room. */
  ghost predicate Evicts(entries: seq<Entry>, r: Request, key: string) {
    MemoryLive(entries, r.key, r.now) == None &&
    exists k :: 0 <= k < Excess(entries, r.now) && Live(entries, r.now)[k].key == key
  }

  ghost predicate NeverEvicted(reqs: seq<Request>, key: string) {
    forall i :: 0 <= i < |reqs| ==> !Evicts(MemoryAfter(reqs[..i]), reqs[i], key)
  }

  ghost predicate Agree(entries: seq<Entry>, store: map<string, Window>, key: string, now: int) {
    MemoryLive(entries, key, now) == LuaLive(store, key, now)
  }

  lemma PrunedKeeps(entries: seq<Entry>, r: Request, key: string, w: Window)
    requires Distinct(entries) && MemoryLive(entries, r.key, r.now) == None && !Evicts(entries, r, key)
    ensures Has(Pruned(entries, r.now), key, w) <==> Has(entries, key, w) && r.now < w.until
  {
    LiveIs(entries, r.now);
    var live, drop := Live(entries, r.now), Excess(entries, r.now);
    if k :| 0 <= k < |live| && live[k] == Entry(key, w) {
      assert Has(live, key, w) && drop <= k;
      assert live[drop..][k - drop] == live[k];
    }
    if k :| 0 <= k < |live[drop..]| && live[drop..][k] == Entry(key, w) {
      assert live[k + drop] == Entry(key, w);
      assert Has(live, key, w);
    }
  }

  lemma AgreeStep(entries: seq<Entry>, store: map<string, Window>, r: Request, key: string)
    requires Distinct(entries) && Agree(entries, store, key, r.now) && !Evicts(entries, r, key)
    ensures Agree(MemoryConsume(entries, r).0, LuaConsume(store, r).0, key, r.now)
  {
    var entries' := MemoryConsume(entries, r).0;
    KeepsDistinct(entries, r);
    if MemoryLive(entries, r.key, r.now) == None {
      var entry := Entry(r.key, Window(1, r.now + r.Span()));
      var pruned := Pruned(entries, r.now);
      hide MemoryLive, Pruned, Excess;
      forall w ensures MemoryLive(entries', key, r.now) == Some(w) <==>
          if key == r.key then w == entry.window && r.now < w.until else MemoryLive(entries, key, r.now) == Some(w)
      {
        FoundIs(entries', key, r.now, w);
        FoundIs(entries, key, r.now, w);
        PrunedKeeps(entries, r, key, w);
        HasOneMore(pruned, entry, key, w);
      }
      var m, l := MemoryLive(entries', key, r.now), LuaLive(LuaConsume(store, r).0, key, r.now);
      assert m.Some? ==> MemoryLive(entries', key, r.now) == Some(m.value);
      assert l.Some? ==> MemoryLive(entries', key, r.now) == Some(l.value);
    } else {
      hide Find;
      assert Find(entries', r.key) == Find(entries, r.key) by { FindUnique(entries', r.key, Find(entries, r.key)); }
      if key != r.key {
        var i := Find(entries, key);
        if i != -1 { FindUnique(entries', key, i); }
      }
    }
  }

  lemma FindUnique(entries: seq<Entry>, key: string, i: nat)
    requires Distinct(entries) && i < |entries| && entries[i].key == key
    ensures Find(entries, key) == i
  {
  }

  lemma NeverEvictedBefore(reqs: seq<Request>, key: string, n: nat)
    requires n <= |reqs| && NeverEvicted(reqs, key)
    ensures NeverEvicted(reqs[..n], key)
  {
    hide Evicts;
    forall i | 0 <= i < n ensures !Evicts(MemoryAfter(reqs[..n][..i]), reqs[..n][i], key) {
      assert reqs[..n][..i] == reqs[..i];
    }
  }

  lemma {:induction false} AgreeAfter(reqs: seq<Request>, key: string, now: int)
    requires MonotoneClock(reqs) && NeverEvicted(reqs, key)
    requires reqs != [] ==> reqs[|reqs| - 1].now <= now
    ensures Distinct(MemoryAfter(reqs)) && |MemoryAfter(reqs)| <= MAX_MEMORY_WINDOWS + 1
    ensures Agree(MemoryAfter(reqs), LuaAfter(reqs), key, now)
  {
    if reqs != [] {
      var n := |reqs| - 1;
      var r := reqs[n];
      NeverEvictedBefore(reqs, key, n);
      assert !Evicts(MemoryAfter(reqs[..n]), r, key);
      hide Evicts, NeverEvicted, MemoryConsume, LuaConsume, MemoryLive;
      AgreeAfter(reqs[..n], key, r.now);
      AgreeStep(MemoryAfter(reqs[..n]), LuaAfter(reqs[..n]), r, key);
      KeepsDistinct(MemoryAfter(reqs[..n]), r);
    }
  }

  /** With a monotone clock and no eviction of the key, the in-process map decides as the counter script does,
      exactly when the limit admits at least one request or the window is already open. */
  lemma LimitersAgree(reqs: seq<Request>, i: nat)
    requires i < |reqs| && MonotoneClock(reqs) && NeverEvicted(reqs, reqs[i].key)
    ensures MemoryDecision(reqs, i) == LuaDecision(reqs, i) <==>
      reqs[i].limit >= 1 || LuaLive(LuaAfter(reqs[..i]), reqs[i].key, reqs[i].now).Some?
  {
    var key := reqs[i].key;
    NeverEvictedBefore(reqs, key, i);
    AgreeAfter(reqs[..i], key, reqs[i].now);
  }

  // ------------------------------------------------------------------------------------------
  // At most twice the limit in any interval of one window length
  // ------------------------------------------------------------------------------------------

  /** Every request for `key` asks for the same limit and window. */
  ghost predicate Uniform(reqs: seq<Request>, key: string, limit: int, span: int) {
    forall i :: 0 <= i < |reqs| && reqs[i].key == key ==> reqs[i].limit == limit && reqs[i].Span() == span
  }

  /** Requests for `key` allowed between `x` and `x + span`, both ends included. */
  function AllowedWithin(reqs: seq<Request>, key: string, x: int, span: int): nat {
    if reqs == [] then 0
    else
      var n := |reqs| - 1;
      AllowedWithin(reqs[..n], key, x, span) +
      if reqs[n].key == key && x <= reqs[n].now <= x + span && LuaDecision(reqs, n).allowed then 1 else 0
  }

  function Min(a: int, b: int): int { if a < b then a else b }

  /** What is known about the counter of `key` when the last request was at `last` and `allowed` were let through. */
  ghost predicate Budget(w: Option<Window>, last: int, allowed: int, limit: int, x: int, span: int) {
    match w
    case None => allowed == 0
    case Some(w) =>
      var start := w.until - span;
      start <= last && 1 <= w.count && (last < x ==> allowed == 0) &&
      (start < x && 0 < allowed ==> x < w.until) &&
      (start <= x ==> allowed <= Min(w.count, limit)) &&
      (x < start <= x + span ==> allowed <= limit + Min(w.count, limit)) &&
      allowed <= 2 * limit
  }

  lemma {:induction false} BudgetKept(reqs: seq<Request>, key: string, limit: nat, x: int, span: int, last: int)
    requires MonotoneClock(reqs) && Uniform(reqs, key, limit, span) && 0 < span
    requires reqs != [] ==> reqs[|reqs| - 1].now <= last
    ensures var store := LuaAfter(reqs);
      Budget(if key in store then Some(store[key]) else None, last, AllowedWithin(reqs, key, x, span), limit, x, span)
  {
    if reqs != [] {
      var n := |reqs| - 1;
      var before, r := reqs[..n], reqs[n];
      BudgetKept(before, key, limit, x, span, r.now);
      var store := LuaAfter(before);
      if r.key == key {
        BudgetStep(if key in store then Some(store[key]) else None, r.now, last,
          AllowedWithin(before, key, x, span), limit, x, span);
      } else {
        BudgetLater(if key in store then Some(store[key]) else None, r.now, last,
          AllowedWithin(before, key, x, span), limit, x, span);
      }
    }
  }

  lemma BudgetLater(w: Option<Window>, last: int, last': int, allowed: nat, limit: nat, x: int, span: int)
    requires Budget(w, last, allowed, limit, x, span) && last <= last'
    ensures Budget(w, last', allowed, limit, x, span)
  {
  }

  lemma BudgetStep(w: Option<Window>, now: int, last: int, allowed: nat, limit: nat, x: int, span: int)
    requires Budget(w, now, allowed, limit, x, span) && 0 < span && now <= last
    ensures var w' := if w.Some? && now < w.value.until then Window(w.value.count + 1, w.value.until) else Window(1, now + span);
      var hit := if x <= now <= x + span && w'.count <= limit then 1 else 0;
      Budget(Some(w'), last, allowed + hit, limit, x, span)
  {
  }

  /** The counter script allows at most twice the limit in any interval of one window length. */
  lemma AtMostTwice(reqs: seq<Request>, key: string, limit: nat, x: int, span: int)
    requires MonotoneClock(reqs) && Uniform(reqs, key, limit, span) && 0 < span
    ensures AllowedWithin(reqs, key, x, span) <= 2 * limit
  {
    BudgetKept(reqs, key, limit, x, span, if reqs == [] then 0 else reqs[|reqs| - 1].now);
  }

  function AllowedInMemory(reqs: seq<Request>, key: string, x: int, span: int): nat {
    if reqs == [] then 0
    else
      var n := |reqs| - 1;
      AllowedInMemory(reqs[..n], key, x, span) +
      if reqs[n].key == key && x <= reqs[n].now <= x + span && MemoryDecision(reqs, n).allowed then 1 else 0
  }

  /** So does the in-process map, for a limit of at least one and a key that is never evicted. */
  lemma {:induction false} AtMostTwiceInMemory(reqs: seq<Request>, key: string, limit: nat, x: int, span: int)
    requires MonotoneClock(reqs) && Uniform(reqs, key, limit, span) && 0 < span && 1 <= limit
    requires NeverEvicted(reqs, key)
    ensures AllowedInMemory(reqs, key, x, span) == AllowedWithin(reqs, key, x, span) <= 2 * limit
  {
    AtMostTwice(reqs, key, limit, x, span);
    if reqs != [] {
      var n := |reqs| - 1;
      NeverEvictedBefore(reqs, key, n);
      hide Evicts, NeverEvicted, MemoryConsume, LuaConsume, LuaLive, Request.Span;
      AtMostTwiceInMemory(reqs[..n], key, limit, x, span);
      if reqs[n].key == key {
        LimitersAgree(reqs, n);
      }
    }
  }

  // ------------------------------------------------------------------------------------------
  // Exactly which requests are allowed
  // ------------------------------------------------------------------------------------------

  /** Start and end of the window `key` was last counted in, from the requests' times alone: a request that finds no window
      open opens one. */
  function LastWindow(reqs: seq<Request>, key: string): Option<(int, int)> {
    if reqs == [] then None
    else
      var before, r := LastWindow(reqs[..|reqs| - 1], key), reqs[|reqs| - 1];
      if r.key != key || (before.Some? && r.now < before.value.1) then before else Some((r.now, r.now + 1_000 * r.windowSeconds))
  }

  /** Requests for `key` from the instant `start` on. */
  function HitsSince(reqs: seq<Request>, key: string, start: int): nat {
    if reqs == [] then 0
    else
      var r := reqs[|reqs| - 1];
      HitsSince(reqs[..|reqs| - 1], key, start) + if r.key == key && start <= r.now then 1 else 0
  }

  ghost predicate Lasting(reqs: seq<Request>, key: string) {
    forall i :: 0 <= i < |reqs| && reqs[i].key == key ==> 0 < reqs[i].Span()
  }

  lemma {:induction false} NoLaterHits(reqs: seq<Request>, key: string, start: int)
    requires forall i :: 0 <= i < |reqs| && reqs[i].key == key ==> reqs[i].now < start
    ensures HitsSince(reqs, key, start) == 0
  {
    if reqs != [] { NoLaterHits(reqs[..|reqs| - 1], key, start); }
  }

  /** The counter is the number of requests since the window opened. */
  lemma {:induction false} CountIs(reqs: seq<Request>, key: string)
    requires MonotoneClock(reqs) && Lasting(reqs, key)
    ensures key in LuaAfter(reqs) <==> LastWindow(reqs, key).Some?
    ensures LastWindow(reqs, key).Some? ==>
      var (start, end) := LastWindow(reqs, key).value;
      LuaAfter(reqs)[key] == Window(HitsSince(reqs, key, start), end) &&
      (forall i :: 0 <= i < |reqs| && reqs[i].key == key ==> reqs[i].now < end) &&
      reqs != [] && start <= reqs[|reqs| - 1].now
  {
    if reqs != [] {
      var n := |reqs| - 1;
      var before, r := reqs[..n], reqs[n];
      CountIs(before, key);
      assert before != [] ==> before[n - 1] == reqs[n - 1];
      if r.key == key && !(LastWindow(before, key).Some? && r.now < LastWindow(before, key).value.1) {
        if LastWindow(before, key).None? {
          NeverAsked(before, key);
        }
        NoLaterHits(before, key, r.now);
      }
    }
  }

  lemma {:induction false} NeverAsked(reqs: seq<Request>, key: string)
    requires LastWindow(reqs, key).None?
    ensures forall i :: 0 <= i < |reqs| ==> reqs[i].key != key
  {
    if reqs != [] { NeverAsked(reqs[..|reqs| - 1], key); }
  }

  /** A request is allowed exactly when fewer than its limit came before it in the window it is counted in, and is told how
      many are left. */
  lemma ExactCount(reqs: seq<Request>, i: nat)
    requires i < |reqs| && MonotoneClock(reqs) && Lasting(reqs, reqs[i].key)
    ensures LastWindow(reqs[..i + 1], reqs[i].key).Some?
    ensures var r := reqs[i];
      var (start, end) := LastWindow(reqs[..i + 1], r.key).value;
      var earlier := HitsSince(reqs[..i], r.key, start);
      start <= r.now < end &&
      (LuaDecision(reqs, i).allowed <==> earlier < r.limit) &&
      LuaDecision(reqs, i).remaining == if earlier + 1 < r.limit then r.limit - earlier - 1 else 0
  {
    var r, before := reqs[i], reqs[..i];
    assert reqs[..i + 1][..i] == before && reqs[..i + 1][i] == r;
    CountIs(before, r.key);
    CountIs(reqs[..i + 1], r.key);
    if LastWindow(before, r.key).None? || LastWindow(before, r.key).value.1 <= r.now {
      if LastWindow(before, r.key).None? { NeverAsked(before, r.key); }
      NoLaterHits(before, r.key, r.now);
    }
  }

  /** Once a window has ended, or before there is one, the next request opens a new one and is the first in it. */
  lemma WindowReopens(reqs: seq<Request>, i: nat)
    requires i < |reqs| && MonotoneClock(reqs) && Lasting(reqs, reqs[i].key)
    requires var w := LastWindow(reqs[..i], reqs[i].key); w.None? || w.value.1 <= reqs[i].now
    ensures var r := reqs[i];
      LastWindow(reqs[..i + 1], r.key) == Some((r.now, r.now + 1_000 * r.windowSeconds)) && HitsSince(reqs[..i], r.key, r.now) == 0 &&
      (LuaDecision(reqs, i).allowed <==> 1 <= r.limit)
  {
    var r := reqs[i];
    assert reqs[..i + 1][..i] == reqs[..i] && reqs[..i + 1][i] == r;
    CountIs(reqs[..i], r.key);
    if LastWindow(reqs[..i], r.key).None? { NeverAsked(reqs[..i], r.key); }
    NoLaterHits(reqs[..i], r.key, r.now);
    ExactCount(reqs, i);
  }

  /** The in-process map allows exactly the same, for a limit of at least one and a key that is never evicted. */
  lemma ExactCountInMemory(reqs: seq<Request>, i: nat)
    requires i < |reqs| && MonotoneClock(reqs) && Lasting(reqs, reqs[i].key)
    requires NeverEvicted(reqs, reqs[i].key) && 1 <= reqs[i].limit
    ensures LastWindow(reqs[..i + 1], reqs[i].key).Some?
    ensures var r := reqs[i];
      var earlier := HitsSince(reqs[..i], r.key, LastWindow(reqs[..i + 1], r.key).value.0);
      (MemoryDecision(reqs, i).allowed <==> earlier < r.limit) &&
      MemoryDecision(reqs, i).remaining == if earlier + 1 < r.limit then r.limit - earlier - 1 else 0
  {
    hide MemoryDecision, LuaDecision, HitsSince, LastWindow;
    ExactCount(reqs, i);
    LimitersAgree(reqs, i);
  }

  /** Of two live windows the prune keeps the younger whenever it keeps the older. */
  lemma {:induction false} OldestGoFirst(entries: seq<Entry>, now: int, i: nat, j: nat)
    requires Distinct(entries) && i < j < |entries| && now < entries[i].window.until && now < entries[j].window.until
    requires entries[i] in Pruned(entries, now)
    ensures entries[j] in Pruned(entries, now)
  {
    var a, b := LiveOrder(entries, now, i, j);
    LiveIs(entries, now);
    var live, drop := Live(entries, now), Excess(entries, now);
    var k :| 0 <= k < |live[drop..]| && live[drop..][k] == entries[i];
    assert live[drop + k] == entries[i] == live[a];
    assert drop + k == a;
    assert live[drop..][b - drop] == entries[j];
  }

  lemma {:induction false} LiveOrder(entries: seq<Entry>, now: int, i: nat, j: nat) returns (a: nat, b: nat)
    requires i < j < |entries| && now < entries[i].window.until && now < entries[j].window.until
    ensures a < b < |Live(entries, now)| && Live(entries, now)[a] == entries[i] && Live(entries, now)[b] == entries[j]
    decreases |entries|
  {
    var n := |entries| - 1;
    if j < n {
      a, b := LiveOrder(entries[..n], now, i, j);
    } else {
      a := LiveAt(entries[..n], now, i);
      b := |Live(entries[..n], now)|;
    }
  }

  lemma {:induction false} LiveAt(entries: seq<Entry>, now: int, i: nat) returns (a: nat)
    requires i < |entries| && now < entries[i].window.until
    ensures a < |Live(entries, now)| && Live(entries, now)[a] == entries[i]
    decreases |entries|
  {
    var n := |entries| - 1;
    if i < n { a := LiveAt(entries[..n], now, i); } else { a := |Live(entries[..n], now)|; }
  }
}
