/** Restoring a backup, and purging again the tenants it brought back. */
module PurgeReplay {
  import opened Options

  // ------------------------------------------------------------------------------------------
  // The subscription state machine
  // ------------------------------------------------------------------------------------------

  datatype Status = Active | Suspended

  datatype Action = Activate | Extend | RecordPayment | Suspend | Reactivate | ExtendRetention | ReissueExportLink | Purge

  function Allowed(action: Action): set<Status> {
    match action
    case Activate => {Active}
    case Extend => {Active}
    case RecordPayment => {Active, Suspended}
    case Suspend => {Active}
    case Reactivate => {Suspended}
    case ExtendRetention => {Suspended}
    case ReissueExportLink => {Suspended}
    case Purge => {Suspended}
  }

  predicate CanTransition(action: Action, from: Status) { from in Allowed(action) }

  // ------------------------------------------------------------------------------------------
  // Databases
  // ------------------------------------------------------------------------------------------

  type Id = string

  /** `status` is `None` for a tenant without a subscription. */
  datatype Tenant = Tenant(slug: string, status: Option<Status>)

  datatype Tombstone = Tombstone(purgedAt: int, purgedById: Option<string>, reason: string)

  /** One tombstone to a tenant: the column is unique. */
  datatype Db = Db(tenants: map<Id, Tenant>, tombstones: map<Id, Tombstone>) {
    /** The last transaction of a purge: the tombstone, unless there is one, and the cascade. */
    function Purged(id: Id, tombstone: Tombstone): Db {
      Db(tenants - {id}, if id in tombstones then tombstones else tombstones[id := tombstone])
    }
  }

  // ------------------------------------------------------------------------------------------
  // Production
  // ------------------------------------------------------------------------------------------

  /** `pending` holds the purges whose last transaction has started but not committed, with the time it started,
      which is the time the tombstone will carry. Ids are never used again. */
  datatype World = World(now: int, db: Db, pending: map<Id, int>, used: set<Id>)

  const EMPTY := World(0, Db(map[], map[]), map[], {})

  datatype Event =
    | Tick(elapsed: nat)
    | Create(id: Id, tenant: Tenant)
    | Act(id: Id, action: Action)                 // suspensions and reactivations
    | BeginPurge(id: Id)
    | CommitPurge(id: Id, admin: Option<string>, reason: string)
    | AbortPurge(id: Id)
    | CloseDemo(id: Id)                           // deletes without a tombstone
    | Forget(id: Id)                              // a tombstone past its retention

  /** An event that is not enabled leaves the world alone; a tenant being purged refuses all other work. */
  function Next(w: World, e: Event): World {
    var free := (id: Id) => id in w.db.tenants && id !in w.pending;
    match e
    case Tick(elapsed) => w.(now := w.now + elapsed)
    case Create(id, tenant) =>
      if id in w.used then w else w.(db := w.db.(tenants := w.db.tenants[id := tenant]), used := w.used + {id})
    case Act(id, action) =>
      if free(id) && w.db.tenants[id].status.Some? && CanTransition(action, w.db.tenants[id].status.value)
         && (action.Suspend? || action.Reactivate?) then
        var status := Some(if action.Suspend? then Suspended else Active);
        w.(db := w.db.(tenants := w.db.tenants[id := w.db.tenants[id].(status := status)]))
      else w
    case BeginPurge(id) =>
      if free(id) && w.db.tenants[id].status.Some? && CanTransition(Purge, w.db.tenants[id].status.value) then
        w.(pending := w.pending[id := w.now])
      else w
    case CommitPurge(id, admin, reason) =>
      if id in w.pending && id in w.db.tenants then
        w.(db := w.db.Purged(id, Tombstone(w.pending[id], admin, reason)), pending := w.pending - {id})
      else w
    case AbortPurge(id) => w.(pending := w.pending - {id})
    case CloseDemo(id) => if free(id) then w.(db := w.db.(tenants := w.db.tenants - {id})) else w
    case Forget(id) => w.(db := w.db.(tombstones := w.db.tombstones - {id}))
  }

  function Run(w: World, events: seq<Event>): World {
    if events == [] then w else Next(Run(w, events[..|events| - 1]), events[|events| - 1])
  }

  // ------------------------------------------------------------------------------------------
  // Capture and replay
  // ------------------------------------------------------------------------------------------

  datatype CapturedTombstone = CapturedTombstone(tenantId: Id, tombstone: Tombstone)

  /** The captured file lists the tombstones of `db`, each at least once. */
  ghost predicate Captures(captured: seq<CapturedTombstone>, db: Db) {
    (forall row :: row in captured ==> row.tenantId in db.tombstones && db.tombstones[row.tenantId] == row.tombstone) &&
    (forall id :: id in db.tombstones ==> CapturedTombstone(id, db.tombstones[id]) in captured)
  }

  function Resurrectable(captured: seq<CapturedTombstone>, restorePoint: int): seq<CapturedTombstone> {
    if captured == [] then []
    else
      var row := captured[|captured| - 1];
      Resurrectable(captured[..|captured| - 1], restorePoint) + if row.tombstone.purgedAt > restorePoint then [row] else []
  }

  /** Whatever else happens around the replay: subscriptions changed by others before row `i`, and whether the
      purge of row `i` fails on the way. */
  datatype Environment = Environment(changes: nat -> map<Id, Option<Status>>, fails: nat -> bool, now: int) {
    function Meanwhile(db: Db, i: nat): Db {
      db.(tenants := map id | id in db.tenants ::
        if id in changes(i) then db.tenants[id].(status := changes(i)[id]) else db.tenants[id])
    }
  }

  /** The state of a replay: the restored database, the counts, and every tenant removed with the status it had. */
  datatype Tally = Tally(db: Db, purged: nat, absent: nat, blocked: seq<Id>, failed: seq<Id>, removed: seq<(Id, Option<Status>)>)

  /** `purgeTenant`: refuses a missing tenant, and any tenant that is not suspended at that moment. */
  function PurgeTenant(t: Tally, row: CapturedTombstone, env: Environment, i: nat): Tally {
    var db := env.Meanwhile(t.db, i);
    var id := row.tenantId;
    if id !in db.tenants || db.tenants[id].status.None? || !CanTransition(Purge, db.tenants[id].status.value) || env.fails(i) then
      t.(db := db, failed := t.failed + [id])
    else
      t.(db := db.Purged(id, Tombstone(env.now, row.tombstone.purgedById, Renamed(row.tombstone.reason))),
         purged := t.purged + 1, removed := t.removed + [(id, db.tenants[id].status)])
  }

  function Renamed(reason: string): string { "purge replay after restore (originally: " + reason + ")" }

  /** One row; `present` was read once, before the first row. */
  function OnRow(present: map<Id, Tenant>, t: Tally, row: CapturedTombstone, env: Environment, i: nat): Tally {
    if row.tenantId !in present then t.(absent := t.absent + 1)
    else if present[row.tenantId].status != Some(Suspended) then t.(blocked := t.blocked + [row.tenantId])
    else PurgeTenant(t, row, env, i)
  }

  function OnRows(present: map<Id, Tenant>, t: Tally, rows: seq<CapturedTombstone>, env: Environment): Tally {
    if rows == [] then t
    else
      var n := |rows| - 1;
      OnRow(present, OnRows(present, t, rows[..n], env), rows[n], env, n)
  }

  function Start(db: Db): Tally { Tally(db, 0, 0, [], [], []) }

  function Present(db: Db, rows: seq<CapturedTombstone>): map<Id, Tenant> {
    map row | row in rows && row.tenantId in db.tenants :: row.tenantId := db.tenants[row.tenantId]
  }

  function Replayed(db: Db, captured: seq<CapturedTombstone>, restorePoint: int, env: Environment): Tally {
    var rows := Resurrectable(captured, restorePoint);
    OnRows(Present(db, rows), Start(db), rows, env)
  }

  /** The restored database a replay runs against. */
  class Restored {
    var db: Db

    constructor (snapshot: Db)
      ensures db == snapshot
    {
      db := snapshot;
    }

    method Replay(captured: seq<CapturedTombstone>, restorePoint: int, dryRun: bool, env: Environment)
      returns (purged: nat, absent: nat, blocked: seq<Id>, failures: seq<Id>, exitCode: nat)
      modifies this
      ensures dryRun ==> db == old(db) && exitCode == 0
      ensures !dryRun ==> var t := Replayed(old(db), captured, restorePoint, env);
        (db, purged, absent, blocked, failures) == (t.db, t.purged, t.absent, t.blocked, t.failed) &&
        (exitCode == 0 <==> t.blocked == [] && t.failed == [])
    {
      purged, absent, blocked, failures, exitCode := 0, 0, [], [], 0;
      var rows := Resurrectable(captured, restorePoint);
      if |rows| == 0 || dryRun { return; }
      var present := Present(db, rows);
      var removed: seq<(Id, Option<Status>)> := [];
      for i := 0 to |rows|
        invariant Tally(db, purged, absent, blocked, failures, removed) == OnRows(present, Start(old(db)), rows[..i], env)
      {
        var row := rows[i];
        assert rows[..i + 1][..i] == rows[..i];
        if row.tenantId !in present {
          absent := absent + 1;
          continue;
        }
        if present[row.tenantId].status != Some(Suspended) {
          blocked := blocked + [row.tenantId];
          continue;
        }
        var t := PurgeTenant(Tally(db, purged, absent, blocked, failures, removed), row, env, i);
        db, purged, failures, removed := t.db, t.purged, t.failed, t.removed;
      }
      assert rows[..|rows|] == rows;
      if |blocked| > 0 || |failures| > 0 { exitCode := 1; }
    }
  }

  // ------------------------------------------------------------------------------------------
  // What a replay does, whatever happens around it
  // ------------------------------------------------------------------------------------------

  predicate Removed(t: Tally, id: Id) { exists k :: 0 <= k < |t.removed| && t.removed[k].0 == id }

  /** Every row is accounted for once, duplicates included. */
  lemma {:induction false} RowsAddUp(present: map<Id, Tenant>, db: Db, rows: seq<CapturedTombstone>, env: Environment)
    ensures var t := OnRows(present, Start(db), rows, env);
      t.purged + t.absent + |t.blocked| + |t.failed| == |rows| && |t.removed| == t.purged
  {
    if rows != [] {
      RowsAddUp(present, db, rows[..|rows| - 1], env);
    }
  }

  /** Only suspended tenants were removed, only listed ones, and nobody else came or went. */
  ghost predicate OnlySuspendedWent(db: Db, rows: seq<CapturedTombstone>, t: Tally) {
    && (forall k :: 0 <= k < |t.removed| ==> t.removed[k].1 == Some(Suspended))
    && (forall id :: Removed(t, id) ==> exists n :: 0 <= n < |rows| && rows[n].tenantId == id)
    && (forall id :: id in t.db.tenants <==> id in db.tenants && !Removed(t, id))
  }

  /** Only suspended tenants are removed, only ones on the list, and nothing else goes or comes. */
  lemma {:induction false} OnlySuspendedGo(present: map<Id, Tenant>, db: Db, rows: seq<CapturedTombstone>, env: Environment)
    ensures OnlySuspendedWent(db, rows, OnRows(present, Start(db), rows, env))
  {
    if rows == [] {
      assert OnRows(present, Start(db), rows, env).removed == [];
    } else {
      hide OnRow, OnlySuspendedWent;
      var n := |rows| - 1;
      var before := OnRows(present, Start(db), rows[..n], env);
      OnlySuspendedGo(present, db, rows[..n], env);
      RowRemoves(present, before, rows[n], env, n);
      OneMoreWent(db, rows, before, OnRow(present, before, rows[n], env, n));
    }
  }

  lemma OneMoreWent(db: Db, rows: seq<CapturedTombstone>, before: Tally, t: Tally)
    requires rows != [] && OnlySuspendedWent(db, rows[..|rows| - 1], before)
    requires var row := rows[|rows| - 1];
      || (t.removed == before.removed && t.db.tenants.Keys == before.db.tenants.Keys)
      || (t.removed == before.removed + [(row.tenantId, Some(Suspended))] && t.db.tenants.Keys == before.db.tenants.Keys - {row.tenantId})
    requires forall id :: Removed(t, id) <==> Removed(before, id) || (t.removed != before.removed && id == rows[|rows| - 1].tenantId)
    ensures OnlySuspendedWent(db, rows, t)
  {
    var n := |rows| - 1;
    hide Removed;
    forall id | Removed(t, id) ensures exists m :: 0 <= m < |rows| && rows[m].tenantId == id {
      if Removed(before, id) {
        var m :| 0 <= m < n && rows[..n][m].tenantId == id;
        assert rows[m].tenantId == id;
      } else {
        assert rows[n].tenantId == id;
      }
    }
    forall id ensures id in t.db.tenants <==> id in db.tenants && !Removed(t, id) {
      assert id in t.db.tenants <==> id in t.db.tenants.Keys;
      assert id in before.db.tenants <==> id in before.db.tenants.Keys;
    }
  }

  lemma RowRemoves(present: map<Id, Tenant>, t: Tally, row: CapturedTombstone, env: Environment, i: nat)
    ensures var t' := OnRow(present, t, row, env, i);
      (t'.removed == t.removed && t'.db.tenants.Keys == t.db.tenants.Keys) ||
      (t'.removed == t.removed + [(row.tenantId, Some(Suspended))] && row.tenantId in t.db.tenants &&
        t'.db.tenants.Keys == t.db.tenants.Keys - {row.tenantId})
    ensures var t' := OnRow(present, t, row, env, i);
      forall id :: Removed(t', id) <==> Removed(t, id) || (t'.removed != t.removed && id == row.tenantId)
  {
    var t' := OnRow(present, t, row, env, i);
    if t'.removed != t.removed {
      assert t'.removed[|t.removed|].0 == row.tenantId;
      forall k | 0 <= k < |t.removed| ensures t'.removed[k] == t.removed[k] {
      }
    }
  }

  /** If no row was blocked and none failed, no listed tenant is left. */
  lemma {:induction false} NoneLeft(present: map<Id, Tenant>, db: Db, rows: seq<CapturedTombstone>, env: Environment)
    requires forall n :: 0 <= n < |rows| && rows[n].tenantId in db.tenants ==> rows[n].tenantId in present
    requires var t := OnRows(present, Start(db), rows, env); t.blocked == [] && t.failed == []
    ensures forall n :: 0 <= n < |rows| ==> rows[n].tenantId !in OnRows(present, Start(db), rows, env).db.tenants
  {
    if rows != [] {
      var n := |rows| - 1;
      var before := OnRows(present, Start(db), rows[..n], env);
      NothingTakenBack(present, before, rows[n], env, n);
      hide OnRow;
      NoneLeft(present, db, rows[..n], env);
      OnlySuspendedGo(present, db, rows[..n], env);
      RowRemoves(present, before, rows[n], env, n);
      RowGone(present, before, rows[n], env, n);
      hide OnRows, Removed;
      forall m | 0 <= m < n ensures rows[m].tenantId !in OnRow(present, before, rows[n], env, n).db.tenants {
        assert rows[m] == rows[..n][m];
      }
    }
  }

  /** What is blocked or has failed stays on its list. */
  lemma NothingTakenBack(present: map<Id, Tenant>, t: Tally, row: CapturedTombstone, env: Environment, i: nat)
    ensures var t' := OnRow(present, t, row, env, i); t.blocked <= t'.blocked && t.failed <= t'.failed
  {
  }

  lemma RowGone(present: map<Id, Tenant>, t: Tally, row: CapturedTombstone, env: Environment, i: nat)
    requires row.tenantId in t.db.tenants ==> row.tenantId in present
    requires var t' := OnRow(present, t, row, env, i); t'.blocked == [] && t'.failed == []
    ensures row.tenantId !in OnRow(present, t, row, env, i).db.tenants
  {
  }

  // ------------------------------------------------------------------------------------------
  // What becomes of each row
  // ------------------------------------------------------------------------------------------

  /** Rows whose tenant is not in the restored database. */
  function Absentees(db: Db, rows: seq<CapturedTombstone>): nat {
    if rows == [] then 0
    else Absentees(db, rows[..|rows| - 1]) + if rows[|rows| - 1].tenantId !in db.tenants then 1 else 0
  }

  /** Rows whose tenant is there, and not suspended. */
  ghost predicate Blocks(db: Db, row: CapturedTombstone) {
    row.tenantId in db.tenants && db.tenants[row.tenantId].status != Some(Suspended)
  }

  ghost function Blockers(db: Db, rows: seq<CapturedTombstone>): seq<Id> {
    if rows == [] then []
    else
      var row := rows[|rows| - 1];
      Blockers(db, rows[..|rows| - 1]) + if Blocks(db, row) then [row.tenantId] else []
  }

  lemma {:induction false} BlockersAre(db: Db, rows: seq<CapturedTombstone>)
    ensures forall id :: id in Blockers(db, rows) <==> exists row :: row in rows && row.tenantId == id && Blocks(db, row)
  {
    if rows != [] {
      var n := |rows| - 1;
      BlockersAre(db, rows[..n]);
      assert rows == rows[..n] + [rows[n]];
    }
  }

  /** `present` holds the listed tenants the restored database has. */
  ghost predicate ReadOnce(present: map<Id, Tenant>, db: Db, rows: seq<CapturedTombstone>) {
    forall row :: row in rows ==>
      (row.tenantId in present <==> row.tenantId in db.tenants) &&
      (row.tenantId in present ==> present[row.tenantId] == db.tenants[row.tenantId])
  }

  /** Whatever happens around the replay, a row is blocked exactly when the restored database holds its tenant in another
      status than suspended, and absent exactly when it does not hold it. */
  lemma {:induction false} BlockedExactly(present: map<Id, Tenant>, db: Db, rows: seq<CapturedTombstone>, env: Environment)
    requires ReadOnce(present, db, rows)
    ensures var t := OnRows(present, Start(db), rows, env);
      t.blocked == Blockers(db, rows) && t.absent == Absentees(db, rows)
    ensures forall id :: id in OnRows(present, Start(db), rows, env).blocked <==>
      exists row :: row in rows && row.tenantId == id && Blocks(db, row)
  {
    BlockersAre(db, rows);
    if rows != [] {
      var n := |rows| - 1;
      assert forall row :: row in rows[..n] ==> row in rows;
      BlockedExactly(present, db, rows[..n], env);
      assert rows[n] in rows;
      RowBlocked(present, OnRows(present, Start(db), rows[..n], env), rows[n], env, n);
    }
  }

  lemma RowBlocked(present: map<Id, Tenant>, t: Tally, row: CapturedTombstone, env: Environment, i: nat)
    ensures var t' := OnRow(present, t, row, env, i);
      t'.absent == t.absent + (if row.tenantId in present then 0 else 1) &&
      t'.blocked == t.blocked +
        if row.tenantId in present && present[row.tenantId].status != Some(Suspended) then [row.tenantId] else []
  {
  }

  /** The same of the whole replay, over the restored database and the rows it selects. */
  lemma ReplayBlocksExactly(db: Db, captured: seq<CapturedTombstone>, restorePoint: int, env: Environment)
    ensures var rows := Resurrectable(captured, restorePoint);
      var t := Replayed(db, captured, restorePoint, env);
      t.absent == Absentees(db, rows) &&
      forall id :: id in t.blocked <==> exists row :: row in captured && row.tombstone.purgedAt > restorePoint && row.tenantId == id && Blocks(db, row)
  {
    SelectedIs(captured, restorePoint);
    var rows := Resurrectable(captured, restorePoint);
    BlockedExactly(Present(db, rows), db, rows, env);
    hide OnRows, Resurrectable, Blocks;
  }

  /** Ids listed once each. */
  ghost predicate OnceEach(rows: seq<CapturedTombstone>) {
    forall i, j :: 0 <= i < j < |rows| ==> rows[i].tenantId != rows[j].tenantId
  }

  predicate Listed(rows: seq<CapturedTombstone>, id: Id) { exists n :: 0 <= n < |rows| && rows[n].tenantId == id }

  ghost predicate Suspends(db: Db, id: Id) { id in db.tenants && db.tenants[id].status == Some(Suspended) }

  /** A row lists the tenant, which is there and suspended, and its purge fails or does not. */
  ghost predicate Tried(db: Db, rows: seq<CapturedTombstone>, env: Environment, id: Id, failing: bool) {
    exists n :: 0 <= n < |rows| && rows[n].tenantId == id && Suspends(db, id) && env.fails(n) == failing
  }

  /** The tombstone a purge by this row leaves, where there was none. */
  ghost predicate Stamped(db: Db, row: CapturedTombstone, env: Environment, t: Tally) {
    row.tenantId in db.tombstones ||
    (row.tenantId in t.db.tombstones &&
     t.db.tombstones[row.tenantId] == Tombstone(env.now, row.tombstone.purgedById, Renamed(row.tombstone.reason)))
  }

  /** What becomes of the tenants when nobody changes subscriptions meanwhile. */
  ghost predicate Cleared(db: Db, rows: seq<CapturedTombstone>, env: Environment, t: Tally) {
    (forall id :: id in t.db.tenants <==> id in db.tenants && !Tried(db, rows, env, id, false)) &&
    (forall id :: id in t.db.tenants ==> t.db.tenants[id] == db.tenants[id]) &&
    (forall id :: id in t.failed <==> Tried(db, rows, env, id, true))
  }

  /** And what of the tombstones. */
  ghost predicate Engraved(db: Db, rows: seq<CapturedTombstone>, env: Environment, t: Tally) {
    (forall id :: id in t.db.tombstones ==> id in db.tombstones || Listed(rows, id)) &&
    (forall n :: 0 <= n < |rows| && Suspends(db, rows[n].tenantId) && !env.fails(n) ==> Stamped(db, rows[n], env, t))
  }

  /** With nobody changing subscriptions meanwhile and each id listed once: exactly the suspended tenants whose purge does
      not fail are removed, every other tenant is left as it was, a fresh tombstone names who ordered the first purge, and
      exactly the failing ones are reported as failed. */
  lemma {:induction false} UndisturbedExactly(present: map<Id, Tenant>, db: Db, rows: seq<CapturedTombstone>, env: Environment)
    requires ReadOnce(present, db, rows) && OnceEach(rows) && forall i :: env.changes(i) == map[]
    ensures var t := OnRows(present, Start(db), rows, env); Cleared(db, rows, env, t) && Engraved(db, rows, env, t)
  {
    if rows != [] {
      var n := |rows| - 1;
      var before := rows[..n];
      FewerRows(present, db, rows);
      hide OnceEach, ReadOnce, OnRow;
      UndisturbedExactly(present, db, before, env);
      var t := OnRows(present, Start(db), before, env);
      hide OnRows, Cleared, Engraved;
      UndisturbedStep(present, db, rows, env, t);
    }
  }

  lemma FewerRows(present: map<Id, Tenant>, db: Db, rows: seq<CapturedTombstone>)
    requires rows != [] && ReadOnce(present, db, rows) && OnceEach(rows)
    ensures ReadOnce(present, db, rows[..|rows| - 1]) && OnceEach(rows[..|rows| - 1])
  {
  }

  lemma TriedStep(db: Db, rows: seq<CapturedTombstone>, env: Environment, id: Id, failing: bool)
    requires rows != []
    ensures var n := |rows| - 1;
      Tried(db, rows, env, id, failing) <==>
      Tried(db, rows[..n], env, id, failing) || (rows[n].tenantId == id && Suspends(db, id) && env.fails(n) == failing)
  {
    var n := |rows| - 1;
    var before := rows[..n];
    hide Suspends;
    if m :| 0 <= m < |before| && before[m].tenantId == id && Suspends(db, id) && env.fails(m) == failing {
      assert rows[m].tenantId == id;
    }
    if m :| 0 <= m < |rows| && rows[m].tenantId == id && Suspends(db, id) && env.fails(m) == failing {
      if m < n { assert before[m].tenantId == id; }
    }
  }

  lemma ListedStep(rows: seq<CapturedTombstone>, id: Id)
    requires rows != []
    ensures Listed(rows, id) <==> Listed(rows[..|rows| - 1], id) || rows[|rows| - 1].tenantId == id
  {
    var n := |rows| - 1;
    if m :| 0 <= m < n && rows[..n][m].tenantId == id { assert rows[m].tenantId == id; }
    if m :| 0 <= m < |rows| && rows[m].tenantId == id {
      if m < n { assert rows[..n][m].tenantId == id; }
    }
  }

  lemma NotListedBefore(db: Db, rows: seq<CapturedTombstone>, env: Environment)
    requires rows != [] && OnceEach(rows)
    ensures var n := |rows| - 1;
      !Listed(rows[..n], rows[n].tenantId) && !Tried(db, rows[..n], env, rows[n].tenantId, false)
  {
    var n := |rows| - 1;
    forall m | 0 <= m < n ensures rows[..n][m].tenantId != rows[n].tenantId {
      assert rows[m].tenantId != rows[n].tenantId;
    }
  }

  lemma UndisturbedStep(present: map<Id, Tenant>, db: Db, rows: seq<CapturedTombstone>, env: Environment, t: Tally)
    requires rows != [] && ReadOnce(present, db, rows) && OnceEach(rows) && forall i :: env.changes(i) == map[]
    requires Cleared(db, rows[..|rows| - 1], env, t) && Engraved(db, rows[..|rows| - 1], env, t)
    ensures var t' := OnRow(present, t, rows[|rows| - 1], env, |rows| - 1); Cleared(db, rows, env, t') && Engraved(db, rows, env, t')
  {
    var n := |rows| - 1;
    var row := rows[n];
    assert row in rows;
    NotListedBefore(db, rows, env);
    Unchanged(t.db, env, n);
    RowUndisturbed(present, db, t, row, env, n);
    hide OnRow, Environment.Meanwhile, Renamed, Tried, Listed, OnceEach, ReadOnce, Suspends, Cleared, Engraved;
    TenantsStep(db, rows, env, t, OnRow(present, t, row, env, n));
    StonesStep(db, rows, env, t, OnRow(present, t, row, env, n));
  }

  /** What one undisturbed row does. */
  ghost predicate OneRow(db: Db, row: CapturedTombstone, fails: bool, env: Environment, t: Tally, t': Tally) {
    var id := row.tenantId;
    t'.failed == (if Suspends(db, id) && fails then t.failed + [id] else t.failed) &&
    t'.db == (if Suspends(db, id) && !fails
              then t.db.Purged(id, Tombstone(env.now, row.tombstone.purgedById, Renamed(row.tombstone.reason))) else t.db)
  }

  lemma TenantsStep(db: Db, rows: seq<CapturedTombstone>, env: Environment, t: Tally, t': Tally)
    requires rows != [] && Cleared(db, rows[..|rows| - 1], env, t)
    requires OneRow(db, rows[|rows| - 1], env.fails(|rows| - 1), env, t, t')
    ensures Cleared(db, rows, env, t')
  {
    var n := |rows| - 1;
    hide Tried, Renamed, Suspends;
    forall id
      ensures Tried(db, rows, env, id, true) <==> Tried(db, rows[..n], env, id, true) || (rows[n].tenantId == id && Suspends(db, id) && env.fails(n))
      ensures Tried(db, rows, env, id, false) <==> Tried(db, rows[..n], env, id, false) || (rows[n].tenantId == id && Suspends(db, id) && !env.fails(n))
    {
      TriedStep(db, rows, env, id, true);
      TriedStep(db, rows, env, id, false);
    }
  }

  lemma StonesStep(db: Db, rows: seq<CapturedTombstone>, env: Environment, t: Tally, t': Tally)
    requires rows != [] && Engraved(db, rows[..|rows| - 1], env, t) && !Listed(rows[..|rows| - 1], rows[|rows| - 1].tenantId)
    requires OneRow(db, rows[|rows| - 1], env.fails(|rows| - 1), env, t, t')
    ensures Engraved(db, rows, env, t')
  {
    var n := |rows| - 1;
    hide Renamed, Suspends, Listed;
    forall id ensures Listed(rows, id) <==> Listed(rows[..n], id) || rows[n].tenantId == id {
      ListedStep(rows, id);
    }
    forall m | 0 <= m < |rows| && Suspends(db, rows[m].tenantId) && !env.fails(m) ensures Stamped(db, rows[m], env, t') {
      if m < n { assert rows[..n][m] == rows[m] && Stamped(db, rows[..n][m], env, t); }
    }
  }

  lemma Unchanged(db: Db, env: Environment, i: nat)
    requires env.changes(i) == map[]
    ensures env.Meanwhile(db, i) == db
  {
    assert env.Meanwhile(db, i).tenants == db.tenants;
  }

  lemma RowUndisturbed(present: map<Id, Tenant>, db: Db, t: Tally, row: CapturedTombstone, env: Environment, n: nat)
    requires env.Meanwhile(t.db, n) == t.db
    requires row.tenantId in present <==> row.tenantId in db.tenants
    requires row.tenantId in present ==> present[row.tenantId] == db.tenants[row.tenantId]
    requires row.tenantId in t.db.tenants <==> row.tenantId in db.tenants
    requires row.tenantId in t.db.tenants ==> t.db.tenants[row.tenantId] == db.tenants[row.tenantId]
    ensures OneRow(db, row, env.fails(n), env, t, OnRow(present, t, row, env, n))
  {
    hide Environment.Meanwhile, Renamed;
  }

  ghost predicate AllSuspended(db: Db, rows: seq<CapturedTombstone>) {
    forall row :: row in rows && row.tenantId in db.tenants ==> db.tenants[row.tenantId].status == Some(Suspended)
  }

  lemma AllTried(db: Db, rows: seq<CapturedTombstone>, env: Environment, id: Id)
    requires AllSuspended(db, rows) && forall i :: !env.fails(i)
    ensures !Tried(db, rows, env, id, true) && (Tried(db, rows, env, id, false) <==> Listed(rows, id) && id in db.tenants)
  {
    if id in db.tenants && Listed(rows, id) {
      var n :| 0 <= n < |rows| && rows[n].tenantId == id;
      assert rows[n] in rows && Suspends(db, id);
    }
  }

  lemma NoneIn(ids: seq<Id>)
    ensures (forall id :: id !in ids) ==> ids == []
  {
    assert ids != [] ==> ids[0] in ids;
  }

  /** The case the script is for: every listed tenant that came back is suspended, nothing interferes and nothing fails.
      Then all of them are purged, none is blocked, and none is left. */
  lemma AllPurged(db: Db, captured: seq<CapturedTombstone>, restorePoint: int, env: Environment)
    requires OnceEach(Resurrectable(captured, restorePoint)) && AllSuspended(db, Resurrectable(captured, restorePoint))
    requires forall i :: env.changes(i) == map[] && !env.fails(i)
    ensures var rows := Resurrectable(captured, restorePoint);
      var t := Replayed(db, captured, restorePoint, env);
      t.blocked == [] && t.failed == [] && t.absent == Absentees(db, rows) && t.purged == |rows| - Absentees(db, rows) &&
      (forall id :: id in t.db.tenants <==> id in db.tenants && !Listed(rows, id)) &&
      (forall id :: id in t.db.tenants ==> t.db.tenants[id] == db.tenants[id])
  {
    var rows := Resurrectable(captured, restorePoint);
    var present := Present(db, rows);
    var t := Replayed(db, captured, restorePoint, env);
    UndisturbedExactly(present, db, rows, env);
    BlockedExactly(present, db, rows, env);
    RowsAddUp(present, db, rows, env);
    hide OnRows, Resurrectable, Engraved, Absentees, Blockers;
    forall row | row in rows ensures !Blocks(db, row) {
    }
    forall id ensures !Tried(db, rows, env, id, true) && (Tried(db, rows, env, id, false) <==> Listed(rows, id) && id in db.tenants) {
      AllTried(db, rows, env, id);
    }
    hide Tried, Listed, AllSuspended, OnceEach, Present;
    NoneIn(t.blocked);
    NoneIn(t.failed);
  }

  // ------------------------------------------------------------------------------------------
  // The whole story: production, a snapshot, a later capture, and a replay into the restored snapshot
  // ------------------------------------------------------------------------------------------

  lemma {:induction false} SelectedIs(captured: seq<CapturedTombstone>, restorePoint: int)
    ensures forall row :: row in Resurrectable(captured, restorePoint) <==>
      row in captured && row.tombstone.purgedAt > restorePoint
  {
    if captured != [] {
      var n := |captured| - 1;
      SelectedIs(captured[..n], restorePoint);
      assert captured == captured[..n] + [captured[n]];
    }
  }

  /** The purge is stamped no later than the restore point, and yet the snapshot still holds the tenant. */
  ghost predicate Straddles(snapshot: World, restorePoint: int, row: CapturedTombstone) {
    row.tombstone.purgedAt <= restorePoint && row.tenantId in snapshot.db.tenants
  }

  /** A snapshot taken in production, a capture of production taken later, and a replay into the restored snapshot,
      with any restore point; the backup stamps it before its dump, so usually an earlier instant than the snapshot's.
      When the replay reports nothing blocked and nothing failed, no tenant with a captured tombstone is present,
      exactly when no captured purge straddles the two; and in every case only suspended tenants were removed,
      only tenants purged after the restore point, and every selected row is counted exactly once. */
  lemma ReplayCompletes(before: seq<Event>, after: seq<Event>, captured: seq<CapturedTombstone>, restorePoint: int,
                        env: Environment)
    requires Captures(captured, Run(Run(EMPTY, before), after).db)
    ensures var snapshot := Run(EMPTY, before);
      var rows := Resurrectable(captured, restorePoint);
      var t := Replayed(snapshot.db, captured, restorePoint, env);
      t.purged + t.absent + |t.blocked| + |t.failed| == |rows| &&
      (forall k :: 0 <= k < |t.removed| ==> t.removed[k].1 == Some(Suspended)) &&
      (forall id :: id in snapshot.db.tenants && id !in t.db.tenants ==> exists row :: row in rows && row.tenantId == id) &&
      (t.blocked == [] && t.failed == [] ==>
        ((forall row :: row in captured ==> row.tenantId !in t.db.tenants) <==>
         (forall row :: row in captured ==> !Straddles(snapshot, restorePoint, row))))
  {
    var snapshot := Run(EMPTY, before);
    var production := Run(snapshot, after);
    hide Run;
    var rows := Resurrectable(captured, restorePoint);
    var present := Present(snapshot.db, rows);
    var t := Replayed(snapshot.db, captured, restorePoint, env);
    SelectedIs(captured, restorePoint);
    RowsAddUp(present, snapshot.db, rows, env);
    OnlySuspendedGo(present, snapshot.db, rows, env);
    hide Resurrectable, OnRows;
    forall id | id in snapshot.db.tenants && id !in t.db.tenants ensures exists row :: row in rows && row.tenantId == id {
      var n :| 0 <= n < |rows| && rows[n].tenantId == id;
      assert rows[n] in rows;
    }
    if t.blocked == [] && t.failed == [] {
      NoneLeft(present, snapshot.db, rows, env);
      forall row | row in captured ensures row.tenantId in t.db.tenants <==> Straddles(snapshot, restorePoint, row) {
        if row in rows {
          var n :| 0 <= n < |rows| && rows[n] == row;
        }
      }
    }
  }

  /** Stamps given out since the snapshot are later than the restore point, except for purges under way with an earlier one. */
  ghost predicate StampsAfter(snapshot: World, restorePoint: int, w: World) {
    restorePoint < w.now && snapshot.used <= w.used &&
    forall id :: id in snapshot.db.tenants && InTime(snapshot, restorePoint, id) ==>
      (id in w.db.tombstones ==> restorePoint < w.db.tombstones[id].purgedAt) &&
      (id in w.pending ==> restorePoint < w.pending[id])
  }

  /** No purge of the tenant was under way when the snapshot was taken, or one stamped after the restore point. */
  predicate InTime(snapshot: World, restorePoint: int, id: Id) { id in snapshot.pending ==> restorePoint < snapshot.pending[id] }

  lemma {:induction false} StampsStayAfter(snapshot: World, restorePoint: int, w: World, events: seq<Event>)
    requires StampsAfter(snapshot, restorePoint, w)
    ensures StampsAfter(snapshot, restorePoint, Run(w, events))
  {
    hide InTime, Next, StampsAfter;
    if events != [] {
      StampsStayAfter(snapshot, restorePoint, w, events[..|events| - 1]);
      StampsStep(snapshot, restorePoint, Run(w, events[..|events| - 1]), events[|events| - 1]);
    }
  }

  lemma StampsStep(snapshot: World, restorePoint: int, w: World, e: Event)
    requires StampsAfter(snapshot, restorePoint, w)
    ensures StampsAfter(snapshot, restorePoint, Next(w, e))
  {
    hide InTime, CanTransition;
  }

  /** A live tenant has no tombstone, for ids are never used again; and only live tenants are being purged. */
  ghost predicate NoTombstoneYet(w: World) {
    (forall id :: id in w.db.tenants ==> id in w.used && id !in w.db.tombstones) &&
    (forall id :: id in w.db.tombstones ==> id in w.used) &&
    (forall id :: id in w.pending ==> id in w.db.tenants)
  }

  lemma {:induction false} NoTombstoneAlways(events: seq<Event>)
    ensures NoTombstoneYet(Run(EMPTY, events))
  {
    hide NoTombstoneYet, Next;
    if events == [] {
      NothingYet();
    } else {
      NoTombstoneAlways(events[..|events| - 1]);
      NoTombstoneKept(Run(EMPTY, events[..|events| - 1]), events[|events| - 1]);
    }
  }

  lemma NothingYet()
    ensures NoTombstoneYet(EMPTY)
  {
  }

  lemma NoTombstoneKept(w: World, e: Event)
    requires NoTombstoneYet(w)
    ensures NoTombstoneYet(Next(w, e))
  {
    hide CanTransition;
  }

  /** What production can become after the snapshot, once the clock is past the restore point, leaves nothing straddling. */
  ghost predicate NeverStraddled(snapshot: World, restorePoint: int, elapsed: nat) {
    forall after, captured, row ::
      Captures(captured, Run(Next(snapshot, Tick(elapsed)), after).db) && row in captured ==> !Straddles(snapshot, restorePoint, row)
  }

  /** Whatever happens after it, a snapshot is never straddled if and only if every purge under way when it was taken was
      stamped after the restore point. */
  lemma NeverStraddledExactly(before: seq<Event>, restorePoint: int, elapsed: nat)
    requires restorePoint < Run(EMPTY, before).now + elapsed
    ensures NeverStraddled(Run(EMPTY, before), restorePoint, elapsed) <==>
      forall id :: id in Run(EMPTY, before).pending ==> restorePoint < Run(EMPTY, before).pending[id]
  {
    var snapshot := Run(EMPTY, before);
    NoTombstoneAlways(before);
    var later := Next(snapshot, Tick(elapsed));
    hide Run;
    if forall id :: id in snapshot.pending ==> restorePoint < snapshot.pending[id] {
      forall after, captured, row | Captures(captured, Run(later, after).db) && row in captured
        ensures !Straddles(snapshot, restorePoint, row)
      {
        StampsStayAfter(snapshot, restorePoint, later, after);
        assert row.tenantId in snapshot.db.tenants ==> InTime(snapshot, restorePoint, row.tenantId);
      }
    } else {
      var id :| id in snapshot.pending && snapshot.pending[id] <= restorePoint;
      Straddling(snapshot, later, restorePoint, id);
    }
  }

  /** In particular a snapshot with no purge under way is never straddled. */
  lemma QuietSnapshot(before: seq<Event>, restorePoint: int, elapsed: nat, after: seq<Event>, captured: seq<CapturedTombstone>)
    requires restorePoint < Run(EMPTY, before).now + elapsed && Run(EMPTY, before).pending == map[]
    requires Captures(captured, Run(Next(Run(EMPTY, before), Tick(elapsed)), after).db)
    ensures forall row :: row in captured ==> !Straddles(Run(EMPTY, before), restorePoint, row)
  {
    NeverStraddledExactly(before, restorePoint, elapsed);
    hide Run, Straddles, Captures;
    assert NeverStraddled(Run(EMPTY, before), restorePoint, elapsed);
  }

  lemma Straddling(snapshot: World, later: World, restorePoint: int, id: Id)
    requires NoTombstoneYet(snapshot) && id in snapshot.pending && snapshot.pending[id] <= restorePoint
    requires later.db == snapshot.db && later.pending == snapshot.pending
    ensures exists after, captured, row :: Captures(captured, Run(later, after).db) && row in captured && Straddles(snapshot, restorePoint, row)
  {
    var after := [CommitPurge(id, None, "")];
    assert after[..0] == [] && Run(later, []) == later;
    var production := Run(later, after);
    assert production == Next(later, CommitPurge(id, None, ""));
    assert id in production.db.tombstones && production.db.tombstones[id].purgedAt == snapshot.pending[id];
    hide Run;
    var captured := ListAll(production.db.tombstones);
    var row := CapturedTombstone(id, production.db.tombstones[id]);
    assert Captures(captured, Run(later, after).db) && row in captured && Straddles(snapshot, restorePoint, row);
  }

  /** Some listing of a table of tombstones. */
  ghost function ListAll(tombstones: map<Id, Tombstone>): (rows: seq<CapturedTombstone>)
    ensures forall row :: row in rows <==> row.tenantId in tombstones && tombstones[row.tenantId] == row.tombstone
  {
    if tombstones == map[] then []
    else
      var id :| id in tombstones;
      ListAll(tombstones - {id}) + [CapturedTombstone(id, tombstones[id])]
  }

  /** A purge that has begun when the snapshot is taken and commits afterwards is missed by the replay. */
  lemma StraddlingPurgeIsMissed(tenant: Tenant, env: Environment)
    requires tenant.status == Some(Suspended)
    ensures var snapshot := Run(EMPTY, [Create("t", tenant), BeginPurge("t")]);
      var production := Run(snapshot, [CommitPurge("t", None, "")]);
      var captured := [CapturedTombstone("t", Tombstone(0, None, ""))];
      var replay := Replayed(snapshot.db, captured, snapshot.now, env);
      Captures(captured, production.db) && replay.blocked == [] && replay.failed == [] && "t" in replay.db.tenants
  {
    var before := [Create("t", tenant), BeginPurge("t")];
    assert before[..1] == [Create("t", tenant)] && before[..1][..0] == [];
    assert Run(EMPTY, before[..1]) == Next(EMPTY, Create("t", tenant));
    assert Run(EMPTY, before) == Next(Run(EMPTY, before[..1]), BeginPurge("t"));
    var snapshot := Run(EMPTY, before);
    assert snapshot.pending == map["t" := 0] && snapshot.db.tenants == map["t" := tenant] && snapshot.now == 0;
    assert [CommitPurge("t", None, "")][..0] == [];
    assert Run(snapshot, []) == snapshot;
    var production := Run(snapshot, [CommitPurge("t", None, "")]);
    assert production == Next(snapshot, CommitPurge("t", None, ""));
    var row := CapturedTombstone("t", Tombstone(0, None, ""));
    assert production.db.tombstones == map["t" := row.tombstone];
    assert Resurrectable([row][..0], 0) == [];
    assert Resurrectable([row], 0) == [];
  }
}
