// First in, first out: over any use of the store, older work is claimed before newer.
module BacklogOrder {
  import opened Wrappers
  import opened Assets
  import opened Backlog

  // One call of the store, or the clock going on.
  datatype Action =
    | Tick(seconds: nat)
    | Enqueue(t: AssetType, eid: EntityId)
    | EnqueueDone(t: AssetType, eid: EntityId)
    | Claim(t: AssetType, n: int, owner: string, ids: seq<EntityId>)
    | Ack(eid: EntityId, owner: string)
    | Release(eid: EntityId, owner: string)
    | Delete(eid: EntityId)

  datatype State = State(rows: Rows, now: int)

  // What the contracts of the store's methods promise.
  ghost predicate Step(s: State, a: Action, s': State) {
    match a
    case Tick(d) => s' == State(s.rows, s.now + d)
    case Enqueue(t, e) => e != "" && s' == State(Upsert(s.rows, s.now, t, e, Queued), s.now)
    case EnqueueDone(t, e) => e != "" && s' == State(Upsert(s.rows, s.now, t, e, Done), s.now)
    case Claim(t, n, owner, ids) => OldestFirst(s.rows, t, n, ids) && s' == State(LeaseAll(s.rows, ids, owner), s.now)
    case Ack(e, owner) => s' == State(Acked(s.rows, e, owner), s.now)
    case Release(e, owner) => s' == State(Released(s.rows, e, owner), s.now)
    case Delete(e) => s' == State(s.rows - {e}, s.now)
  }

  // A run from an empty store: states[i] is the state before action i.
  ghost predicate Run(acts: seq<Action>, states: seq<State>) {
    && |states| == |acts| + 1 && states[0].rows == map[]
    && forall i :: 0 <= i < |acts| ==> Step(states[i], acts[i], states[i + 1])
  }

  // The actions that put an entity into the store.
  predicate Inserts(a: Action, e: EntityId) {
    (a.Enqueue? || a.EnqueueDone?) && a.eid == e
  }

  // When e was inserted and as what, told from the actions and the clock alone: by the
  // first action that inserts it, since it was deleted last.
  function Inserted(acts: seq<Action>, states: seq<State>, i: nat, e: EntityId): Option<(int, AssetType)>
    requires i <= |acts| < |states|
  {
    if i == 0 then None
    else
      var before, a := Inserted(acts, states, i - 1, e), acts[i - 1];
      if a == Delete(e) then None
      else if before.None? && Inserts(a, e) then Some((states[i - 1].now, a.t))
      else before
  }

  lemma StepKeeps(s: State, a: Action, s': State, e: EntityId)
    requires Step(s, a, s')
    ensures e in s'.rows <==> (e in s.rows && a != Delete(e)) || Inserts(a, e)
    ensures e in s.rows && e in s'.rows ==>
              s'.rows[e].created == s.rows[e].created && s'.rows[e].etype == s.rows[e].etype
    ensures e !in s.rows && e in s'.rows ==> s'.rows[e].created == s.now && s'.rows[e].etype == a.t
  {
    match a
    case Enqueue(t, x) => UpsertRow(s.rows, s.now, t, x, Queued);
    case EnqueueDone(t, x) => UpsertRow(s.rows, s.now, t, x, Done);
    case Claim(t, n, owner, ids) => LeasedRow(s.rows, ids, owner);
    case Ack(x, owner) => AckedRow(s.rows, x, owner);
    case Release(x, owner) => ReleasedRow(s.rows, x, owner);
    case _ =>
    hide Upsert, LeaseAll, Acked, Released, OldestFirst;
  }

  lemma {:induction false} RowsTell(acts: seq<Action>, states: seq<State>, i: nat, e: EntityId)
    requires Run(acts, states) && i <= |acts|
    ensures e in states[i].rows <==> Inserted(acts, states, i, e).Some?
    ensures e in states[i].rows ==>
              (states[i].rows[e].created, states[i].rows[e].etype) == Inserted(acts, states, i, e).value
  {
    if i > 0 {
      RowsTell(acts, states, i - 1, e);
      StepKeeps(states[i - 1], acts[i - 1], states[i], e);
      hide Step;
    }
  }

  // No entity is claimed while another of its type, inserted in an earlier second and
  // queued, is left behind.
  lemma FirstInFirstOut(acts: seq<Action>, states: seq<State>, i: nat, x: EntityId, u: EntityId)
    requires Run(acts, states) && i < |acts| && acts[i].Claim? && x in acts[i].ids
    requires u in states[i].rows && states[i].rows[u].st == Queued
    ensures var a, b := Inserted(acts, states, i, x), Inserted(acts, states, i, u);
            && a.Some? && b.Some? && a.value.1 == acts[i].t
            && (b.value.1 == acts[i].t && b.value.0 < a.value.0 ==> u in acts[i].ids)
  {
    RowsTell(acts, states, i, x);
    RowsTell(acts, states, i, u);
    assert Step(states[i], acts[i], states[i + 1]);
    var k :| 0 <= k < |acts[i].ids| && acts[i].ids[k] == x;
    hide Run, Inserted;
  }

  // A claimed entity was queued, is leased to the owner, and nothing else changes.
  lemma ClaimLeases(acts: seq<Action>, states: seq<State>, i: nat, x: EntityId)
    requires Run(acts, states) && i < |acts| && acts[i].Claim? && x in states[i].rows
    ensures var a, was, now := acts[i], states[i].rows[x], states[i + 1].rows;
            && x in now
            && (x in a.ids ==> was.st == Queued && now[x].st == Leased && now[x].owner == Some(a.owner))
            && (x !in a.ids ==> now[x] == was)
  {
    var s, a := states[i], acts[i];
    assert Step(s, a, states[i + 1]);
    LeasedRow(s.rows, a.ids, a.owner);
    if x in a.ids {
      var k :| 0 <= k < |a.ids| && a.ids[k] == x;
      assert x in Claimable(s.rows, a.t);
    }
    hide Run, LeaseAll;
  }

  // The clock of a run never goes back, so what was inserted first has no later second.
  lemma {:induction false} ClockGoesOn(acts: seq<Action>, states: seq<State>, i: nat, j: nat)
    requires Run(acts, states) && i <= j <= |acts|
    ensures states[i].now <= states[j].now
    decreases j
  {
    if i < j {
      ClockGoesOn(acts, states, i, j - 1);
      assert Step(states[j - 1], acts[j - 1], states[j]);
    }
  }
}
