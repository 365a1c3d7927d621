/** The single-use impersonation handoff, as the steps of any number of interleaved consumers. */
module Impersonation {
  import opened Options

  const HANDOFF_TTL_MS := 60_000

  /** A parked record; `cookies` is `None` when the stored text is not a JSON array. */
  datatype Record = Record(token: string, cookies: Option<seq<string>>, expiresAt: int)

  /** How far one call of the consume function has come. */
  datatype Consumer =
    | Waiting(token: string)
    | Found(id: nat, record: Record)              // looked the record up
    | Deleted(id: nat, record: Record)            // its own delete removed the row
    | Refused                                     // returned null
    | Threw                                       // its delete found no row
    | Obtained(id: nat, record: Record, at: int)  // returned the cookies, checked against the clock `at`

  /** `table` is what the database holds; `parked` remembers every record ever created. */
  datatype State = State(now: int, table: map<nat, Record>, parked: map<nat, Record>, consumers: map<nat, Consumer>)

  datatype Step =
    | Tick(elapsed: nat)
    | Park(id: nat, token: string, cookies: Option<seq<string>>)
    | Arrive(c: nat, token: string)
    | Find(c: nat, choice: nat)
    | Delete(c: nat)
    | Trust(c: nat)
    | Clean(id: nat)                              // an expired record removed by housekeeping

  const INITIAL := State(0, map[], map[], map[])

  // A step that is not enabled leaves the state alone.

  /** Ids and tokens are fresh. */
  function DoPark(s: State, id: nat, token: string, cookies: Option<seq<string>>): State {
    if id in s.parked || token == "" || exists i :: i in s.parked && s.parked[i].token == token then s
    else
      var r := Record(token, cookies, s.now + HANDOFF_TTL_MS);
      s.(table := s.table[id := r], parked := s.parked[id := r])
  }

  function DoFind(s: State, c: nat, choice: nat): State {
    if c !in s.consumers || !s.consumers[c].Waiting? then s
    else
      var token := s.consumers[c].token;
      if forall i :: i in s.table ==> s.table[i].token != token then s.(consumers := s.consumers[c := Refused])
      else if choice in s.table && s.table[choice].token == token then
        s.(consumers := s.consumers[c := Found(choice, s.table[choice])])
      else s
  }

  /** Deleting a row that is no longer there fails. */
  function DoDelete(s: State, c: nat): State {
    if c !in s.consumers || !s.consumers[c].Found? then s
    else
      var Found(id, record) := s.consumers[c];
      if id in s.table then s.(table := s.table - {id}, consumers := s.consumers[c := Deleted(id, record)])
      else s.(consumers := s.consumers[c := Threw])
  }

  function DoTrust(s: State, c: nat): State {
    if c !in s.consumers || !s.consumers[c].Deleted? then s
    else
      var Deleted(id, record) := s.consumers[c];
      var refused := record.expiresAt < s.now || record.cookies.None?;
      s.(consumers := s.consumers[c := if refused then Refused else Obtained(id, record, s.now)])
  }

  function Next(s: State, step: Step): State {
    match step
    case Tick(elapsed) => s.(now := s.now + elapsed)
    case Park(id, token, cookies) => DoPark(s, id, token, cookies)
    case Arrive(c, token) =>
      if c in s.consumers then s
      else s.(consumers := s.consumers[c := if token == "" then Refused else Waiting(token)])
    case Find(c, choice) => DoFind(s, c, choice)
    case Delete(c) => DoDelete(s, c)
    case Trust(c) => DoTrust(s, c)
    case Clean(id) => if id in s.table && s.table[id].expiresAt < s.now then s.(table := s.table - {id}) else s
  }

  function Run(steps: seq<Step>): State {
    if steps == [] then INITIAL else Next(Run(steps[..|steps| - 1]), steps[|steps| - 1])
  }

  /** The consumer's own delete removed the row. */
  predicate Owns(consumer: Consumer, id: nat) {
    (consumer.Deleted? || consumer.Obtained?) && consumer.id == id
  }

  /** Rows are what was parked, one row to a token. */
  ghost predicate TableInv(s: State) {
    (forall i :: i in s.table ==> i in s.parked && s.parked[i] == s.table[i]) &&
    (forall i, j :: i in s.parked && j in s.parked && s.parked[i].token == s.parked[j].token ==> i == j)
  }

  /** What a consumer holds is what was parked, not expired when it was trusted, and its row is gone. */
  ghost predicate ConsumerInv(s: State, consumer: Consumer) {
    (consumer.Found? || consumer.Deleted? || consumer.Obtained? ==>
      consumer.id in s.parked && s.parked[consumer.id] == consumer.record) &&
    (consumer.Deleted? || consumer.Obtained? ==> consumer.id !in s.table) &&
    (consumer.Obtained? ==> consumer.record.cookies.Some? && consumer.at <= consumer.record.expiresAt)
  }

  ghost predicate Inv(s: State) {
    TableInv(s) &&
    (forall c :: c in s.consumers ==> ConsumerInv(s, s.consumers[c])) &&
    (forall c, d, id :: c in s.consumers && d in s.consumers && Owns(s.consumers[c], id) && Owns(s.consumers[d], id) ==> c == d)
  }

  lemma ParkKeeps(s: State, id: nat, token: string, cookies: Option<seq<string>>)
    requires Inv(s)
    ensures Inv(DoPark(s, id, token, cookies))
  {
  }

  lemma FindKeeps(s: State, c: nat, choice: nat)
    requires Inv(s)
    ensures Inv(DoFind(s, c, choice))
  {
  }

  lemma DeleteKeeps(s: State, c: nat)
    requires Inv(s)
    ensures Inv(DoDelete(s, c))
  {
  }

  lemma TrustKeeps(s: State, c: nat)
    requires Inv(s)
    ensures Inv(DoTrust(s, c))
  {
  }

  lemma InvKept(s: State, step: Step)
    requires Inv(s)
    ensures Inv(Next(s, step))
  {
    hide DoPark, DoFind, DoDelete, DoTrust;
    match step
    case Park(id, token, cookies) => ParkKeeps(s, id, token, cookies);
    case Find(c, choice) => FindKeeps(s, c, choice);
    case Delete(c) => DeleteKeeps(s, c);
    case Trust(c) => TrustKeeps(s, c);
    case _ =>
  }

  lemma {:induction false} InvAlways(steps: seq<Step>)
    ensures Inv(Run(steps))
  {
    if steps != [] {
      InvAlways(steps[..|steps| - 1]);
      InvKept(Run(steps[..|steps| - 1]), steps[|steps| - 1]);
    }
  }

  /** In every interleaving, one token yields its cookies to at most one consumer, those are the cookies parked for it,
      and nobody obtains them once the record has expired. */
  lemma SingleUse(steps: seq<Step>, c: nat, d: nat)
    requires var s := Run(steps); c in s.consumers && s.consumers[c].Obtained?
    ensures var s := Run(steps);
      var o := s.consumers[c];
      o.id in s.parked && s.parked[o.id] == o.record && o.record.cookies.Some? && o.at <= o.record.expiresAt &&
      (d in s.consumers && s.consumers[d].Obtained? && s.consumers[d].record.token == o.record.token ==> c == d)
  {
    InvAlways(steps);
    var s := Run(steps);
    hide Run;
    var id := s.consumers[c].id;
    assert Owns(s.consumers[c], id);
    if d in s.consumers && s.consumers[d].Obtained? && s.consumers[d].record.token == s.consumers[c].record.token {
      assert Owns(s.consumers[d], id);
    }
  }

  /** A consumer that nobody interferes with, in time, does get the cookies. */
  lemma UncontendedUse(s: State, c: nat, id: nat, waited: nat)
    requires TableInv(s) && c !in s.consumers && id in s.table
    requires s.table[id].token != "" && s.table[id].cookies.Some? && s.now + waited <= s.table[id].expiresAt
    ensures var r := s.table[id];
      var end := Next(Next(Next(Next(Next(s, Tick(waited)), Arrive(c, r.token)), Find(c, id)), Delete(c)), Trust(c));
      end.consumers[c] == Obtained(id, r, s.now + waited) && id !in end.table
  {
    var r := s.table[id];
    var s1 := Next(Next(s, Tick(waited)), Arrive(c, r.token));
    assert s1.consumers[c] == Waiting(r.token);
    var s2 := Next(s1, Find(c, id));
    assert s2.consumers[c] == Found(id, r);
    var s3 := Next(s2, Delete(c));
    assert s3.consumers[c] == Deleted(id, r);
  }

  /** A token parked now and presented once, `waited` later and in nobody's way, yields its cookies if and only if a minute
      has not passed and there are cookies; either way it is used up. */
  lemma ParkThenUse(s: State, id: nat, token: string, cookies: Option<seq<string>>, waited: nat, c: nat)
    requires TableInv(s) && c !in s.consumers && token != "" && id !in s.parked
    requires forall i :: i in s.parked ==> s.parked[i].token != token
    ensures var parked := Next(s, Park(id, token, cookies));
      var end := Next(Next(Next(Next(Next(parked, Tick(waited)), Arrive(c, token)), Find(c, id)), Delete(c)), Trust(c));
      id in parked.table && parked.table[id].token == token && id !in end.table && c in end.consumers &&
      (end.consumers[c].Obtained? <==> waited <= 60_000 && cookies.Some?) &&
      (end.consumers[c].Obtained? ==> end.consumers[c].record.cookies == cookies)
  {
    var parked := DoPark(s, id, token, cookies);
    assert parked.table == s.table[id := Record(token, cookies, s.now + 60_000)];
    var arrived := Next(Next(parked, Tick(waited)), Arrive(c, token));
    var found := Next(arrived, Find(c, id));
    assert found.consumers[c] == Found(id, parked.table[id]);
    var deleted := Next(found, Delete(c));
    assert deleted.consumers[c] == Deleted(id, parked.table[id]);
  }
}
