/** The platform settings singleton behind its cache: interleaved readers and writers over a store whose every call may
    fail, and whose entries live for a fixed time. */
module PlatformSettings {
  import opened Options

  datatype Row = Row(orderEditWindowMaxMinutes: int, brandingBarEnabled: bool,
                     brandingBarName: Option<string>, brandingBarUrl: Option<string>)

  /** The two cache keys. */
  datatype Key = Cap | Branding

  /** What is cached and returned: the cap, a credit bar, or `{ off: true }`. */
  datatype Payload = Minutes(n: int) | Bar(name: string, url: string) | Off

  const DEFAULT_ORDER_EDIT_WINDOW_MAX_MINUTES := 60
  const CACHE_TTL_MS := 300_000
  const BRANDING_CACHE_TTL_MS := 60_000

  function Ttl(key: Key): nat { if key.Cap? then CACHE_TTL_MS else BRANDING_CACHE_TTL_MS }

  /** What a reader makes of the row. */
  function Answer(row: Option<Row>, key: Key): Payload {
    match key
    case Cap => Minutes(if row.Some? then row.value.orderEditWindowMaxMinutes else DEFAULT_ORDER_EDIT_WINDOW_MAX_MINUTES)
    case Branding =>
      if row.Some? && row.value.brandingBarEnabled && Given(row.value.brandingBarName) && Given(row.value.brandingBarUrl)
      then Bar(row.value.brandingBarName.value, row.value.brandingBarUrl.value)
      else Off
  }

  predicate Given(s: Option<string>) { s.Some? && s.value != "" }

  datatype Edit = SetCap(minutes: int) | SetBar(enabled: bool, name: Option<string>, url: Option<string>) {
    function Touches(): Key { if SetCap? then Cap else Branding }

    /** The upsert; a created row takes the column defaults for what the edit does not name. */
    function Upsert(row: Option<Row>): Row {
      var before := if row.Some? then row.value
                    else Row(DEFAULT_ORDER_EDIT_WINDOW_MAX_MINUTES, false, None, None);
      match this
      case SetCap(minutes) => before.(orderEditWindowMaxMinutes := minutes)
      case SetBar(enabled, name, url) =>
        before.(brandingBarEnabled := enabled, brandingBarName := name, brandingBarUrl := url)
    }
  }

  // ------------------------------------------------------------------------------------------
  // The protocol
  // ------------------------------------------------------------------------------------------

  /** The row as it stood from `at` until the next version. */
  datatype Version = Version(at: int, row: Option<Row>)

  /** A value read from the row at `readAt`, when it had `version`. */
  datatype Reading = Reading(payload: Payload, version: nat, readAt: int)

  datatype Entry = Entry(reading: Reading, setAt: int)

  datatype Reader =
    | Asking(key: Key)
    | Missed(key: Key)
    | Holding(key: Key, reading: Reading)
    | Returned(key: Key, reading: Reading, setAt: int, at: int)  // the answer, when it was cached, when it was returned

  datatype Writer = Editing(edit: Edit) | Written(key: Key, version: nat) | Finished

  datatype State = State(now: int, history: seq<Version>, cache: map<Key, Entry>,
                         readers: map<nat, Reader>, writers: map<nat, Writer>) {
    function Row(): Option<Row>
      requires history != []
    {
      history[|history| - 1].row
    }

    /** A live entry; expiry is the store's. */
    predicate Hit(key: Key) { key in cache && now < cache[key].setAt + Ttl(key) }
  }

  const INITIAL := State(0, [Version(0, None)], map[], map[], map[])

  /** `reached` says whether a call to the store took effect; callers swallow every failure. */
  datatype Step =
    | Tick(elapsed: nat)
    | Ask(c: nat, key: Key)
    | Get(c: nat, reached: bool)
    | ReadRow(c: nat)
    | Set(c: nat, reached: bool)
    | Edit(w: nat, edit: Edit)
    | WriteRow(w: nat)
    | Del(w: nat, reached: bool)
    | Evict(key: Key)

  function DoGet(s: State, c: nat, reached: bool): State {
    if c !in s.readers || !s.readers[c].Asking? then s
    else
      var key := s.readers[c].key;
      if reached && s.Hit(key) then
        var e := s.cache[key];
        s.(readers := s.readers[c := Returned(key, e.reading, e.setAt, s.now)])
      else s.(readers := s.readers[c := Missed(key)])
  }

  function DoReadRow(s: State, c: nat): State {
    if c !in s.readers || !s.readers[c].Missed? || s.history == [] then s
    else
      var key := s.readers[c].key;
      s.(readers := s.readers[c := Holding(key, Reading(Answer(s.Row(), key), |s.history| - 1, s.now))])
  }

  function DoSet(s: State, c: nat, reached: bool): State {
    if c !in s.readers || !s.readers[c].Holding? then s
    else
      var Holding(key, reading) := s.readers[c];
      s.(readers := s.readers[c := Returned(key, reading, s.now, s.now)],
         cache := if reached then s.cache[key := Entry(reading, s.now)] else s.cache)
  }

  function DoWriteRow(s: State, w: nat): State {
    if w !in s.writers || !s.writers[w].Editing? || s.history == [] then s
    else
      var edit := s.writers[w].edit;
      s.(history := s.history + [Version(s.now, Some(edit.Upsert(s.Row())))],
         writers := s.writers[w := Written(edit.Touches(), |s.history|)])
  }

  function DoDel(s: State, w: nat, reached: bool): State {
    if w !in s.writers || !s.writers[w].Written? then s
    else
      s.(cache := if reached then s.cache - {s.writers[w].key} else s.cache, writers := s.writers[w := Finished])
  }

  /** A step that is not enabled leaves the state alone. */
  function Next(s: State, step: Step): State {
    match step
    case Tick(elapsed) => s.(now := s.now + elapsed)
    case Ask(c, key) => if c in s.readers then s else s.(readers := s.readers[c := Asking(key)])
    case Get(c, reached) => DoGet(s, c, reached)
    case ReadRow(c) => DoReadRow(s, c)
    case Set(c, reached) => DoSet(s, c, reached)
    case Edit(w, edit) => if w in s.writers then s else s.(writers := s.writers[w := Editing(edit)])
    case WriteRow(w) => DoWriteRow(s, w)
    case Del(w, reached) => DoDel(s, w, reached)
    case Evict(key) => s.(cache := s.cache - {key})
  }

  function Run(s: State, steps: seq<Step>): State {
    if steps == [] then s else Next(Run(s, steps[..|steps| - 1]), steps[|steps| - 1])
  }

  // ------------------------------------------------------------------------------------------
  // Bounded staleness
  // ------------------------------------------------------------------------------------------

  /** The row answered `r.payload` at the instant `r.readAt`. */
  ghost predicate Held(history: seq<Version>, key: Key, r: Reading) {
    r.version < |history| && r.payload == Answer(history[r.version].row, key) &&
    history[r.version].at <= r.readAt && (r.version + 1 < |history| ==> r.readAt <= history[r.version + 1].at)
  }

  ghost predicate ReaderInv(s: State, reader: Reader) {
    match reader
    case Holding(key, r) => Held(s.history, key, r) && r.readAt <= s.now
    case Returned(key, r, setAt, at) =>
      Held(s.history, key, r) && r.readAt <= setAt <= at <= s.now && at <= setAt + Ttl(key)
    case _ => true
  }

  /** The reader whose cache write, at `setAt`, an answer came from. */
  ghost predicate SetBySome(s: State, key: Key, r: Reading, setAt: int) {
    exists d :: d in s.readers && s.readers[d] == Returned(key, r, setAt, setAt)
  }

  /** Every cached and returned value was written by a reader, and every written version exists. */
  ghost predicate Sourced(s: State) {
    (forall key :: key in s.cache ==> SetBySome(s, key, s.cache[key].reading, s.cache[key].setAt)) &&
    (forall c :: c in s.readers && s.readers[c].Returned? ==>
      SetBySome(s, s.readers[c].key, s.readers[c].reading, s.readers[c].setAt)) &&
    (forall w :: w in s.writers && s.writers[w].Written? ==> s.writers[w].version < |s.history|)
  }

  ghost predicate Inv(s: State) { Truthful(s) && Sourced(s) }

  /** Every cached and held value is one the row gave, within its time. */
  ghost predicate Truthful(s: State) {
    s.history != [] &&
    (forall k :: 0 <= k < |s.history| ==> s.history[k].at <= s.now) &&
    (forall key :: key in s.cache ==>
      Held(s.history, key, s.cache[key].reading) && s.cache[key].reading.readAt <= s.cache[key].setAt <= s.now) &&
    (forall c :: c in s.readers ==> ReaderInv(s, s.readers[c]))
  }

  lemma HeldKept(history: seq<Version>, v: Version, key: Key, r: Reading)
    requires Held(history, key, r) && r.readAt <= v.at
    ensures Held(history + [v], key, r)
  {
  }

  lemma WriteKeeps(s: State, w: nat)
    requires Truthful(s)
    ensures Truthful(DoWriteRow(s, w))
  {
    if w in s.writers && s.writers[w].Editing? {
      var v := Version(s.now, Some(s.writers[w].edit.Upsert(s.Row())));
      hide Held, Edit.Upsert;
      forall key, r | Held(s.history, key, r) && r.readAt <= s.now ensures Held(s.history + [v], key, r) {
        HeldKept(s.history, v, key, r);
      }
    }
  }

  lemma GetKeeps(s: State, c: nat, reached: bool)
    requires Truthful(s)
    ensures Truthful(DoGet(s, c, reached))
  {
    hide Held;
  }

  lemma SetKeeps(s: State, c: nat, reached: bool)
    requires Truthful(s)
    ensures Truthful(DoSet(s, c, reached))
  {
    hide Held;
  }

  lemma ReadRowKeeps(s: State, c: nat)
    requires Truthful(s)
    ensures Truthful(DoReadRow(s, c))
  {
    hide Answer;
  }

  lemma TruthfulKept(s: State, step: Step)
    requires Truthful(s)
    ensures Truthful(Next(s, step))
  {
    hide DoWriteRow, DoGet, DoSet, DoReadRow, Held;
    match step
    case WriteRow(w) => WriteKeeps(s, w);
    case Get(c, reached) => GetKeeps(s, c, reached);
    case Set(c, reached) => SetKeeps(s, c, reached);
    case ReadRow(c) => ReadRowKeeps(s, c);
    case _ =>
  }

  lemma SetByKept(s: State, step: Step, key: Key, r: Reading, setAt: int)
    requires SetBySome(s, key, r, setAt)
    ensures SetBySome(Next(s, step), key, r, setAt)
  {
    hide Next;
    var d :| d in s.readers && s.readers[d] == Returned(key, r, setAt, setAt);
    ReturnedStays(s, step, d);
  }

  lemma SourcedKept(s: State, step: Step)
    requires Sourced(s)
    ensures Sourced(Next(s, step))
  {
    forall key, r, setAt | SetBySome(s, key, r, setAt) ensures SetBySome(Next(s, step), key, r, setAt) {
      SetByKept(s, step, key, r, setAt);
    }
    hide SetBySome, Answer, Edit.Upsert;
    match step
    case Set(c, reached) => if c in s.readers && s.readers[c].Holding? { SetSources(s, c, reached); }
    case _ =>
  }

  lemma SetSources(s: State, c: nat, reached: bool)
    requires c in s.readers && s.readers[c].Holding?
    ensures SetBySome(DoSet(s, c, reached), s.readers[c].key, s.readers[c].reading, s.now)
  {
    assert DoSet(s, c, reached).readers[c] == Returned(s.readers[c].key, s.readers[c].reading, s.now, s.now);
  }

  lemma InvKept(s: State, step: Step)
    requires Inv(s)
    ensures Inv(Next(s, step))
  {
    hide Truthful, Sourced, Next;
    TruthfulKept(s, step);
    SourcedKept(s, step);
  }

  lemma {:induction false} InvAlways(s: State, steps: seq<Step>)
    requires Inv(s)
    ensures Inv(Run(s, steps))
  {
    if steps != [] {
      InvAlways(s, steps[..|steps| - 1]);
      InvKept(Run(s, steps[..|steps| - 1]), steps[|steps| - 1]);
    }
  }

  /** In every interleaving, with any call to the store free to fail, a returned answer is one the row gave no longer ago
      than the time to live plus the delay of the reader `d` that read it from the row: from that read to its cache write,
      which is when `d` itself returned it. */
  lemma BoundedStaleness(steps: seq<Step>, c: nat)
    requires var s := Run(INITIAL, steps); c in s.readers && s.readers[c].Returned?
    ensures var s := Run(INITIAL, steps);
      var Returned(key, r, setAt, at) := s.readers[c];
      Held(s.history, key, r) && r.readAt <= at && at - r.readAt <= Ttl(key) + (setAt - r.readAt) &&
      exists d :: d in s.readers && s.readers[d] == Returned(key, r, setAt, setAt)
  {
    InvAlways(INITIAL, steps);
  }

  // ------------------------------------------------------------------------------------------
  // Freshness after a successful delete
  // ------------------------------------------------------------------------------------------

  /** Some reader read the row before version `k` and has not yet written the cache. */
  ghost predicate OldReaderInFlight(s: State, key: Key, k: nat) {
    exists c :: c in s.readers && s.readers[c].Holding? && s.readers[c].key == key && s.readers[c].reading.version < k
  }

  /** Nothing that can still be answered for `key` is older than version `k`. */
  ghost predicate Fresh(s: State, key: Key, k: nat) {
    k < |s.history| && !OldReaderInFlight(s, key, k) && (key in s.cache ==> k <= s.cache[key].reading.version)
  }

  /** A successful delete after the write of version `k` leaves nothing old, unless an old reader is in flight. */
  lemma DeleteFreshens(s: State, w: nat)
    requires Inv(s) && w in s.writers && s.writers[w].Written?
    ensures var Written(key, k) := s.writers[w];
      key !in Next(s, Del(w, true)).cache &&
      (Fresh(Next(s, Del(w, true)), key, k) <==> !OldReaderInFlight(s, key, k))
  {
    var Written(key, k) := s.writers[w];
    var s' := Next(s, Del(w, true));
    assert s'.readers == s.readers;
    assert OldReaderInFlight(s', key, k) <==> OldReaderInFlight(s, key, k);
  }

  lemma FreshKept(s: State, step: Step, key: Key, k: nat)
    requires Fresh(s, key, k)
    ensures Fresh(Next(s, step), key, k)
    ensures forall c :: ReturnsNow(s, Next(s, step), c, key) ==> k <= Next(s, step).readers[c].reading.version
  {
    hide Answer, Edit.Upsert;
  }

  /** Reader `c` is answered between `s` and `s'`. */
  ghost predicate ReturnsNow(s: State, s': State, c: nat, key: Key) {
    c in s'.readers && s'.readers[c].Returned? && s'.readers[c].key == key && !(c in s.readers && s.readers[c].Returned?)
  }

  lemma ReturnedStays(s: State, step: Step, c: nat)
    requires c in s.readers && s.readers[c].Returned?
    ensures c in Next(s, step).readers && Next(s, step).readers[c] == s.readers[c]
  {
    hide Answer, Edit.Upsert;
  }

  lemma {:induction false} StaysFresh(s: State, steps: seq<Step>, key: Key, k: nat)
    requires Fresh(s, key, k)
    ensures Fresh(Run(s, steps), key, k)
    ensures forall c :: ReturnsNow(s, Run(s, steps), c, key) ==> k <= Run(s, steps).readers[c].reading.version
  {
    if steps != [] {
      var before, step := steps[..|steps| - 1], steps[|steps| - 1];
      var s1 := Run(s, before);
      StaysFresh(s, before, key, k);
      FreshKept(s1, step, key, k);
      hide Next, Fresh;
      forall c | ReturnsNow(s, Next(s1, step), c, key)
        ensures k <= Next(s1, step).readers[c].reading.version
      {
        if c in s1.readers && s1.readers[c].Returned? { ReturnedStays(s1, step, c); }
      }
    }
  }

  /** After a writer's delete of version `k` has succeeded, no reader that starts from then on is answered with anything
      older, in any continuation, exactly when no reader that read the row before `k` is still in flight; and then no
      reader at all is. */
  lemma FreshExactly(s: State, w: nat)
    requires Inv(s) && w in s.writers && s.writers[w].Written?
    ensures var Written(key, k) := s.writers[w];
      var s' := Next(s, Del(w, true));
      ((forall steps, c :: c !in s.readers ==> NotOlder(s', Run(s', steps), c, key, k)) <==> !OldReaderInFlight(s, key, k)) &&
      (!OldReaderInFlight(s, key, k) ==> forall steps, c :: NotOlder(s', Run(s', steps), c, key, k))
  {
    var Written(key, k) := s.writers[w];
    var s' := Next(s, Del(w, true));
    DeleteFreshens(s, w);
    if OldReaderInFlight(s, key, k) {
      var c :| c in s.readers && s.readers[c].Holding? && s.readers[c].key == key && s.readers[c].reading.version < k;
      assert s'.readers == s.readers;
      var n := FreshId(s'.readers);
      var steps := OldAnswer(s', key, c, n);
      assert !NotOlder(s', Run(s', steps), n, key, k);
    } else {
      hide Next, Run;
      forall steps, c ensures NotOlder(s', Run(s', steps), c, key, k) {
        StaysFresh(s', steps, key, k);
      }
    }
  }

  ghost predicate NotOlder(s: State, s': State, c: nat, key: Key, k: nat) {
    ReturnsNow(s, s', c, key) ==> k <= s'.readers[c].reading.version
  }

  /** A reader in flight can put its old value back, where a new reader finds it. */
  lemma OldAnswer(s: State, key: Key, c: nat, n: nat) returns (steps: seq<Step>)
    requires c in s.readers && s.readers[c].Holding? && s.readers[c].key == key && n !in s.readers
    ensures var s' := Run(s, steps);
      ReturnsNow(s, s', n, key) && s'.readers[n].reading == s.readers[c].reading
  {
    steps := [Set(c, true), Ask(n, key), Get(n, true)];
    var r := s.readers[c].reading;
    var s1 := Next(s, Set(c, true));
    assert s1.cache[key] == Entry(r, s.now) && n !in s1.readers;
    var s2 := Next(s1, Ask(n, key));
    var s3 := Next(s2, Get(n, true));
    assert s3.readers[n] == Returned(key, r, s.now, s.now);
    assert steps[..2] == [Set(c, true), Ask(n, key)];
    assert steps[..2][..1] == [Set(c, true)];
    assert [Set(c, true)][..0] == [];
    assert Run(s, []) == s;
    assert Run(s, [Set(c, true)]) == s1;
    assert Run(s, steps[..2]) == s2;
    assert Run(s, steps) == s3;
  }

  /** The steps up to a successful delete with an old reader in flight, and what can follow. */
  const BEFORE_DELETE: seq<Step> :=
    [Ask(0, Cap), Get(0, false), ReadRow(0), Step.Edit(1, SetCap(5)), WriteRow(1)]
  const AFTER_DELETE: seq<Step> := [Set(0, true), Ask(2, Cap), Get(2, true)]

  /** From the start: a reader misses and reads the default cap, a writer sets the cap to five and deletes the key, the
      reader writes the cache, and a new reader is answered with the default. */
  lemma OldAnswerHappens()
    ensures var s := Run(INITIAL, BEFORE_DELETE);
      Inv(s) && 1 in s.writers && s.writers[1] == Written(Cap, 1) && OldReaderInFlight(s, Cap, 1)
    ensures var s := Run(INITIAL, BEFORE_DELETE + [Del(1, true)] + AFTER_DELETE);
      s.history != [] && s.Row() == Some(Row(5, false, None, None)) && 2 in s.readers &&
      s.readers[2] == Returned(Cap, Reading(Minutes(DEFAULT_ORDER_EDIT_WINDOW_MAX_MINUTES), 0, 0), 0, 0)
  {
    InvAlways(INITIAL, BEFORE_DELETE);
    var read := Reading(Minutes(60), 0, 0);
    var row := Row(5, false, None, None);
    var history := [Version(0, None), Version(0, Some(row))];
    assert Run(INITIAL, []) == INITIAL;
    var s := State(0, history, map[], map[0 := Holding(Cap, read)], map[1 := Written(Cap, 1)]);
    assert Run(INITIAL, BEFORE_DELETE) == s by { UpToWrite(row, history, read); }
    assert s.readers[0].reading.version < 1;
    hide Run;
    AfterWrite(s, row, history, read);
  }

  lemma OneMoreStep(s: State, steps: seq<Step>, step: Step)
    ensures Run(s, steps + [step]) == Next(Run(s, steps), step)
  {
    assert (steps + [step])[..|steps|] == steps;
  }

  lemma UpToWrite(row: Row, history: seq<Version>, read: Reading)
    requires row == Row(5, false, None, None) && read == Reading(Minutes(60), 0, 0)
    requires history == [Version(0, None), Version(0, Some(row))]
    ensures Run(INITIAL, BEFORE_DELETE) == State(0, history, map[], map[0 := Holding(Cap, read)], map[1 := Written(Cap, 1)])
  {
    var a: seq<Step> := [Ask(0, Cap)];
    var b, c := a + [Get(0, false)], a + [Get(0, false)] + [ReadRow(0)];
    var d := c + [Step.Edit(1, SetCap(5))];
    assert BEFORE_DELETE == d + [WriteRow(1)];
    assert [] + a == a && Run(INITIAL, []) == INITIAL;
    OneMoreStep(INITIAL, [], Ask(0, Cap));
    OneMoreStep(INITIAL, a, Get(0, false));
    OneMoreStep(INITIAL, b, ReadRow(0));
    OneMoreStep(INITIAL, c, Step.Edit(1, SetCap(5)));
    OneMoreStep(INITIAL, d, WriteRow(1));
    hide Run;
    assert Run(INITIAL, b).readers == map[0 := Missed(Cap)];
    assert Run(INITIAL, c) == State(0, [Version(0, None)], map[], map[0 := Holding(Cap, read)], map[]);
    assert Run(INITIAL, d) == State(0, [Version(0, None)], map[], map[0 := Holding(Cap, read)], map[1 := Editing(SetCap(5))]);
  }

  lemma AfterWrite(s: State, row: Row, history: seq<Version>, read: Reading)
    requires Run(INITIAL, BEFORE_DELETE) == s
    requires s == State(0, history, map[], map[0 := Holding(Cap, read)], map[1 := Written(Cap, 1)])
    requires history == [Version(0, None), Version(0, Some(row))]
    ensures var t := Run(INITIAL, BEFORE_DELETE + [Del(1, true)] + AFTER_DELETE);
      t.history == history && 2 in t.readers && t.readers[2] == Returned(Cap, read, 0, 0)
  {
    var a := BEFORE_DELETE + [Del(1, true)];
    var b := a + [Set(0, true)];
    var c := b + [Ask(2, Cap)];
    assert a + AFTER_DELETE == c + [Get(2, true)];
    OneMoreStep(INITIAL, BEFORE_DELETE, Del(1, true));
    OneMoreStep(INITIAL, a, Set(0, true));
    OneMoreStep(INITIAL, b, Ask(2, Cap));
    OneMoreStep(INITIAL, c, Get(2, true));
    hide Run, BEFORE_DELETE, AFTER_DELETE;
    assert Run(INITIAL, a) == State(0, history, map[], map[0 := Holding(Cap, read)], map[1 := Finished]);
    assert Run(INITIAL, b).cache == map[Cap := Entry(read, 0)];
    assert Run(INITIAL, c).readers == map[0 := Returned(Cap, read, 0, 0), 2 := Asking(Cap)];
  }

  ghost function Above(ids: set<nat>): (n: nat)
    ensures forall i :: i in ids ==> i < n
  {
    if ids == {} then 0
    else
      var i :| i in ids;
      var rest := Above(ids - {i});
      assert forall j :: j in ids ==> j == i || j in ids - {i};
      if i < rest then rest else i + 1
  }

  lemma FreshId(readers: map<nat, Reader>) returns (n: nat)
    ensures n !in readers
  {
    n := Above(readers.Keys);
  }

  // ------------------------------------------------------------------------------------------
  // What is written is what is read
  // ------------------------------------------------------------------------------------------

  /** A cap edit sets the cap and leaves the bar, whatever row there was or none. */
  lemma CapEdited(row: Option<Row>, minutes: int)
    ensures var after := Some(SetCap(minutes).Upsert(row));
      Answer(after, Cap) == Minutes(minutes) && Answer(after, Branding) == Answer(row, Branding)
  {
  }

  /** A bar edit shows the bar exactly when it is enabled and both its texts are there and not empty, and leaves the cap. */
  lemma BarEdited(row: Option<Row>, enabled: bool, name: Option<string>, url: Option<string>)
    ensures var after := Some(SetBar(enabled, name, url).Upsert(row));
      Answer(after, Branding) == (if enabled && name.Some? && name.value != "" && url.Some? && url.value != ""
                                  then Bar(name.value, url.value) else Off) &&
      Answer(after, Cap) == Answer(row, Cap)
  {
  }

  /** With no row yet, the cap is an hour and there is no bar. */
  lemma NothingStored()
    ensures Answer(None, Cap) == Minutes(60) && Answer(None, Branding) == Off
  {
  }

  function AfterWriting(s: State, w: nat, edit: Edit): State { Next(Next(Next(s, Step.Edit(w, edit)), WriteRow(w)), Del(w, true)) }

  function AfterReading(s: State, c: nat, key: Key, getReached: bool, setReached: bool): State {
    Next(Next(Next(Next(s, Ask(c, key)), Get(c, getReached)), ReadRow(c)), Set(c, setReached))
  }

  lemma WrittenRow(s: State, w: nat, edit: Edit)
    requires s.history != [] && w !in s.writers
    ensures var s' := AfterWriting(s, w, edit);
      s'.history != [] && s'.Row() == Some(edit.Upsert(s.Row())) && s'.readers == s.readers &&
      s'.cache == s.cache - {edit.Touches()} && s'.now == s.now
  {
    hide Edit.Upsert;
    var s1 := Next(s, Step.Edit(w, edit));
    assert s1.writers[w] == Editing(edit);
    var s2 := Next(s1, WriteRow(w));
    assert s2.writers[w] == Written(edit.Touches(), |s.history|);
  }

  /** A reader that finds nothing live in the cache is answered from the row, whether or not its own calls get through. */
  lemma MissReadsRow(s: State, c: nat, key: Key, getReached: bool, setReached: bool)
    requires s.history != [] && c !in s.readers && !(getReached && s.Hit(key))
    ensures var s' := AfterReading(s, c, key, getReached, setReached);
      c in s'.readers && s'.readers[c].Returned? && s'.readers[c].reading.payload == Answer(s.Row(), key)
  {
    hide Answer;
    var s1 := Next(s, Ask(c, key));
    assert s1.Hit(key) == s.Hit(key);
    var s2 := Next(s1, Get(c, getReached));
    assert s2.readers[c] == Missed(key);
    var s3 := Next(s2, ReadRow(c));
    assert s3.readers[c] == Holding(key, Reading(Answer(s.Row(), key), |s.history| - 1, s.now));
  }

  /** Write, then read with nobody in between: the reader of the edited key gets what was written, and a reader of the
      other key what the row held for it before, unless an older answer of that key is still cached. */
  lemma WriteThenRead(s: State, w: nat, edit: Edit, c: nat, key: Key, getReached: bool, setReached: bool)
    requires s.history != [] && w !in s.writers && c !in s.readers
    requires key == edit.Touches() || !(getReached && s.Hit(key))
    ensures var s' := AfterReading(AfterWriting(s, w, edit), c, key, getReached, setReached);
      c in s'.readers && s'.readers[c].Returned? &&
      var answer := s'.readers[c].reading.payload;
      match (edit, key)
      case (SetCap(n), Cap) => answer == Minutes(n)
      case (SetBar(enabled, name, url), Branding) =>
        answer == if enabled && name.Some? && name.value != "" && url.Some? && url.value != "" then Bar(name.value, url.value) else Off
      case _ => answer == Answer(s.Row(), key)
  {
    WrittenRow(s, w, edit);
    var written := AfterWriting(s, w, edit);
    assert !(getReached && written.Hit(key));
    hide AfterWriting, AfterReading, Answer, Edit.Upsert;
    MissReadsRow(written, c, key, getReached, setReached);
    match edit
    case SetCap(n) => CapEdited(s.Row(), n);
    case SetBar(enabled, name, url) => BarEdited(s.Row(), enabled, name, url);
  }

  /** A value cached now is served, unless removed, to every reader that reaches the store within five minutes for the cap
      and one minute for the bar, and to none after that. */
  lemma ServedForItsTime(s: State, key: Key, r: Reading, elapsed: nat, c: nat)
    requires key in s.cache && s.cache[key] == Entry(r, s.now) && c !in s.readers
    ensures var s' := Next(Next(Next(s, Tick(elapsed)), Ask(c, key)), Get(c, true));
      c in s'.readers &&
      s'.readers[c] == if elapsed < (if key == Cap then 300_000 else 60_000) then Returned(key, r, s.now, s.now + elapsed) else Missed(key)
  {
    hide Answer;
    var s1 := Next(s, Tick(elapsed));
    var s2 := Next(s1, Ask(c, key));
    assert s2.readers[c] == Asking(key) && s2.cache == s.cache && s2.now == s.now + elapsed;
  }

  // ------------------------------------------------------------------------------------------
  // One call at a time
  // ------------------------------------------------------------------------------------------

  /** The module's functions as one process runs them; each is the protocol's steps in order. */
  class Settings {
    var s: State

    constructor ()
      ensures s == INITIAL
    {
      s := INITIAL;
    }

    /** `getOrderEditWindowMaxMinutes` and `getBrandingBar`, which differ in the key alone. */
    method Read(c: nat, key: Key, getReached: bool, setReached: bool) returns (answer: Payload)
      requires s.history != [] && c !in s.readers
      modifies this
      ensures var asked := Next(Next(old(s), Ask(c, key)), Get(c, getReached));
        s == if asked.readers[c].Returned? then asked else Next(Next(asked, ReadRow(c)), Set(c, setReached))
      ensures c in s.readers && s.readers[c].Returned? && answer == s.readers[c].reading.payload
      ensures !(getReached && old(s).Hit(key)) ==> answer == Answer(old(s).Row(), key)
    {
      hide Answer, Ttl;
      ghost var s0 := s;
      s := s.(readers := s.readers[c := Asking(key)]);
      assert s == Next(s0, Ask(c, key));
      ghost var s1 := s;
      if getReached && s.Hit(key) {
        answer := s.cache[key].reading.payload;
        s := s.(readers := s.readers[c := Returned(key, s.cache[key].reading, s.cache[key].setAt, s.now)]);
        assert s == Next(s1, Get(c, getReached));
        return;
      }
      s := s.(readers := s.readers[c := Missed(key)]);
      assert s == Next(s1, Get(c, getReached));
      ghost var s2 := s;
      var r := Reading(Answer(s.Row(), key), |s.history| - 1, s.now);
      s := s.(readers := s.readers[c := Holding(key, r)]);
      assert s == Next(s2, ReadRow(c));
      hide State.Row;
      if setReached {
        s := s.(cache := s.cache[key := Entry(r, s.now)]);
      }
      s := s.(readers := s.readers[c := Returned(key, r, s.now, s.now)]);
      answer := r.payload;
    }

    /** `setOrderEditWindowMaxMinutes` and `setBrandingBar`: upsert the row, then delete the one key it touches. */
    method Write(w: nat, edit: Edit, delReached: bool)
      requires s.history != [] && w !in s.writers
      modifies this
      ensures s == Next(Next(Next(old(s), Step.Edit(w, edit)), WriteRow(w)), Del(w, delReached))
      ensures s.Row() == Some(edit.Upsert(old(s).Row()))
      ensures delReached ==> s.cache == old(s).cache - {edit.Touches()}
    {
      hide Edit.Upsert;
      s := s.(writers := s.writers[w := Editing(edit)]);
      s := s.(history := s.history + [Version(s.now, Some(edit.Upsert(s.Row())))],
              writers := s.writers[w := Written(edit.Touches(), |s.history|)]);
      if delReached {
        s := s.(cache := s.cache - {edit.Touches()});
      }
      s := s.(writers := s.writers[w := Finished]);
    }
  }
}
