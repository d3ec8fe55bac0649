// The dispatcher's own steps on one session: dispatching and resubmitting events,
// one pump visit, and the completion callback.
module Dispatcher {
  import opened Wrappers
  import opened Assets
  import opened Backlog

  type Meta = string

  datatype DispatchError = BadEvent | NotInBacklog | EmptyIds | StoreError(e: BacklogError)

  // The data element of one claimed entity.
  datatype Element = Element(sid: nat, entity: Entity, meta: Option<Meta>)

  // How many elements a Data call takes: those of finished sessions, and the first other one.
  function Taken(q: seq<Element>, finished: set<nat>): (n: nat)
    ensures n <= |q|
    ensures forall i :: 0 <= i < n - 1 ==> q[i].sid in finished
    ensures n < |q| ==> n > 0 && q[n - 1].sid !in finished
  {
    if q == [] then 0 else if q[0].sid !in finished then 1 else 1 + Taken(q[1..], finished)
  }

  class PipelineQueue {
    var draining: bool
    var q: seq<Element>

    constructor ()
      ensures !draining && q == []
    {
      draining, q := false, [];
    }

    method Append(e: Element) returns (ok: bool)
      modifies this`q
      ensures ok <==> !draining
      ensures q == if ok then old(q) + [e] else old(q)
    {
      ok := !draining;
      if ok { q := q + [e]; }
    }

    method Drain()
      modifies this`draining
      ensures draining
    {
      draining := true;
    }

    // The next element of a session that is not finished; earlier ones are dropped.
    method Data(finished: set<nat>) returns (e: Option<Element>)
      modifies this`q
      ensures q == old(q)[Taken(old(q), finished)..]
      ensures e.Some? ==> 0 < Taken(old(q), finished) && e.value == old(q)[Taken(old(q), finished) - 1]
      ensures e.Some? <==> exists x :: x in old(q) && x.sid !in finished
      ensures e.Some? ==> e.value.sid !in finished
    {
      ghost var n := 0;
      while q != []
        invariant n <= |old(q)| && q == old(q)[n..]
        invariant Taken(old(q), finished) == n + Taken(q, finished)
        invariant forall i :: 0 <= i < n ==> old(q)[i].sid in finished
        decreases |q|
      {
        var x := q[0];
        q := q[1..];
        n := n + 1;
        if x.sid !in finished { return Some(x); }
      }
      e := None;
    }
  }

  class Session {
    const id: nat
    const backlog: SessionBacklog
    const queues: map<AssetType, PipelineQueue>

    constructor (id: nat, backlog: SessionBacklog, queues: map<AssetType, PipelineQueue>)
      ensures this.id == id && this.backlog == backlog && this.queues == queues
    {
      this.id, this.backlog, this.queues := id, backlog, queues;
    }

    function Pipe(t: AssetType): PipelineQueue
      requires t in queues
    {
      queues[t]
    }

    // The counters shown to clients, summed over the asset types.
    method CalculateStats(types: seq<AssetType>) returns (completed: nat, total: nat)
      requires backlog.db.Valid()
      ensures completed == SumOf(backlog.db.rows, types, {Done})
      ensures total == SumOf(backlog.db.rows, types, {Queued, Leased, Done})
      ensures completed == total <==>
                forall t <- types :: InState(backlog.db.rows, t, Queued) == {} == InState(backlog.db.rows, t, Leased)
    {
      completed, total := 0, 0;
      for i := 0 to |types|
        invariant completed == SumOf(backlog.db.rows, types[..i], {Done})
        invariant total == SumOf(backlog.db.rows, types[..i], {Queued, Leased, Done})
        invariant completed <= total
        invariant completed == total <==>
          forall j :: 0 <= j < i ==>
            InState(backlog.db.rows, types[j], Queued) == {} == InState(backlog.db.rows, types[j], Leased)
      {
        var queued, leased, done := backlog.db.Counts(types[i]);
        assert types[..i + 1][..i] == types[..i];
        completed, total := completed + done, total + done + queued + leased;
      }
      assert types[..|types|] == types;
    }
  }

  function SizeIf(b: bool, n: nat): nat { if b then n else 0 }

  // Rows of the listed types in one of the states.
  function SumOf(rows: Rows, types: seq<AssetType>, states: set<RowState>): nat {
    if types == [] then 0
    else
      var t := types[|types| - 1];
      SumOf(rows, types[..|types| - 1], states)
      + SizeIf(Queued in states, |InState(rows, t, Queued)|)
      + SizeIf(Leased in states, |InState(rows, t, Leased)|)
      + SizeIf(Done in states, |InState(rows, t, Done)|)
  }

  datatype Event = Event(entity: Option<Entity>, session: Option<Session>, meta: Meta)

  predicate GoodEvent(e: Option<Event>) {
    e.Some? && e.value.entity.Some? && e.value.session.Some?
  }

  // What the event's entity needs so that scheduling can look up its pipeline.
  predicate HasPipeline(e: Option<Event>) {
    GoodEvent(e) && Enqueueable(e.value.entity) ==>
      e.value.entity.value.asset.value in e.value.session.value.queues
  }

  function Elements(sid: nat, es: seq<Entity>, meta: map<(nat, EntityId), Meta>): (r: seq<Element>)
    ensures |r| == |es|
    ensures forall i :: 0 <= i < |es| ==>
      r[i] == Element(sid, es[i], if (sid, es[i].id) in meta then Some(meta[(sid, es[i].id)]) else None)
  {
    seq(|es|, i requires 0 <= i < |es| =>
      Element(sid, es[i], if (sid, es[i].id) in meta then Some(meta[(sid, es[i].id)]) else None))
  }

  // The leased rows of es queued again, every other row as it was.
  function Requeued(rows: Rows, es: seq<Entity>): Rows {
    map e | e in rows ::
      if rows[e].st == Leased && exists x <- es :: x.id == e then rows[e].(st := Queued, owner := None) else rows[e]
  }

  lemma RequeuedOne(rows: Rows, es: seq<Entity>, i: nat)
    requires i < |es|
    ensures Requeued(rows, es[..i + 1]) == Released(Requeued(rows, es[..i]), es[i].id, "")
  {
    assert es[..i + 1] == es[..i] + [es[i]];
  }

  // A visit to a draining queue: every claimed entity that was loaded is queued again,
  // the missing ones are done, every other row is as it was.
  function GivenBack(rows: Rows, claims: seq<EntityId>, assets: map<EntityId, Entity>): Rows {
    map e | e in rows ::
      if e !in claims then rows[e]
      else rows[e].(st := if e in assets then Queued else Done, owner := None)
  }

  lemma {:induction false} LoadedHas(claims: seq<EntityId>, assets: map<EntityId, Entity>, e: EntityId)
    requires forall k <- assets :: assets[k].id == k
    ensures (exists x <- Loaded(claims, assets) :: x.id == e) <==> e in claims && e in assets
  {
    if claims != [] {
      LoadedHas(claims[1..], assets, e);
      assert claims == [claims[0]] + claims[1..];
      var rest := Loaded(claims[1..], assets);
      if claims[0] in assets {
        var x := assets[claims[0]];
        assert Loaded(claims, assets) == [x] + rest;
        assert x in [x] + rest && forall y <- rest :: y in [x] + rest;
      } else {
        assert Loaded(claims, assets) == rest;
      }
    }
  }

  lemma VisitGivesBack(rows: Rows, t: AssetType, n: int, claims: seq<EntityId>, assets: map<EntityId, Entity>,
                       owner: string)
    requires forall k <- assets :: assets[k].id == k
    requires OldestFirst(rows, t, n, claims)
    ensures Requeued(ClaimResult(rows, claims, assets, owner), Loaded(claims, assets)) ==
            GivenBack(rows, claims, assets)
  {
    var done := ClaimResult(rows, claims, assets, owner);
    forall e | e in rows
      ensures Requeued(done, Loaded(claims, assets))[e] == GivenBack(rows, claims, assets)[e]
    {
      LoadedHas(claims, assets, e);
      if e in claims { assert e in Claimable(rows, t); }
      hide OldestFirst, Loaded;
    }
  }

  class Dispatcher {
    var meta: map<(nat, EntityId), Meta>
    var wake: Option<AssetType>

    constructor ()
      ensures meta == map[] && wake == None
    {
      meta, wake := map[], None;
    }

    // The wake channel holds one asset type; a second request is dropped.
    method WakePump(t: AssetType)
      modifies this`wake
      ensures wake == if old(wake) == None then Some(t) else old(wake)
    {
      if wake == None { wake := Some(t); }
    }

    method SignalScheduling(s: Session, t: AssetType)
      requires t in s.queues
      modifies this`wake
      ensures wake == if old(wake) == None && |s.Pipe(t).q| <= LimitsOf(t).lowWater then Some(t) else old(wake)
    {
      if |s.Pipe(t).q| <= LimitsOf(t).lowWater { WakePump(t); }
    }

    // The part DispatchEvent and ResubmitEvent share once Has has been decided.
    method Submit(s: Session, ent: Entity, m: Meta) returns (err: Option<DispatchError>)
      requires s.backlog.db.Valid()
      requires Enqueueable(Some(ent)) ==> ent.asset.value in s.queues
      modifies this, s.backlog.db
      ensures s.backlog.db.Valid()
      ensures Enqueueable(Some(ent)) ==>
                err == None
                && meta == old(meta)[(s.id, ent.id) := m]
                && s.backlog.db.rows ==
                   Upsert(old(s.backlog.db.rows), old(s.backlog.db.now), ent.asset.value, ent.id, Queued)
                && (|s.Pipe(ent.asset.value).q| <= LimitsOf(ent.asset.value).lowWater ==> wake.Some?)
      ensures !Enqueueable(Some(ent)) ==>
                && (err == if ent.id == "" then Some(EmptyIds) else Some(StoreError(EnqueueError(Some(ent)).value)))
                && wake == old(wake) && s.backlog.db.rows == old(s.backlog.db.rows)
                && meta == if ent.id == "" then old(meta) else old(meta) - {(s.id, ent.id)}
    {
      if ent.id == "" { return Some(EmptyIds); }
      meta := meta[(s.id, ent.id) := m];
      var e := s.backlog.Enqueue(Some(ent));
      if e.Some? {
        meta := meta - {(s.id, ent.id)};
        return Some(StoreError(e.value));
      }
      SignalScheduling(s, ent.asset.value);
      err := None;
    }

    // An entity is scheduled at most once per session.
    method DispatchEvent(e: Option<Event>) returns (err: Option<DispatchError>)
      requires GoodEvent(e) ==> e.value.session.value.backlog.db.Valid()
      requires HasPipeline(e)
      modifies this, if GoodEvent(e) then {e.value.session.value.backlog.db} else {}
      ensures GoodEvent(e) ==> e.value.session.value.backlog.db.Valid()
      ensures err == Some(BadEvent) <==> e.None? || e.value.entity.None? || e.value.session.None?
      ensures !GoodEvent(e) ==> meta == old(meta)
      ensures GoodEvent(e) && e.value.entity.value.id in old(e.value.session.value.backlog.db.rows) ==>
                err == None && unchanged(this) && unchanged(e.value.session.value.backlog.db)
      ensures GoodEvent(e) && Enqueueable(e.value.entity)
              && e.value.entity.value.id !in old(e.value.session.value.backlog.db.rows) ==>
                var db, ent := e.value.session.value.backlog.db, e.value.entity.value;
                err == None
                && db.rows == Upsert(old(db.rows), old(db.now), ent.asset.value, ent.id, Queued)
                && db.rows.Keys == old(db.rows).Keys + {ent.id}
                && db.rows[ent.id] == Row(old(db.now), ent.asset.value, Queued, None)
                && (forall k :: k in old(db.rows) ==> db.rows[k] == old(db.rows)[k])
                && meta == old(meta)[(e.value.session.value.id, ent.id) := e.value.meta]
      ensures GoodEvent(e) && !Enqueueable(e.value.entity)
              && e.value.entity.value.id !in old(e.value.session.value.backlog.db.rows) ==>
                var ent := e.value.entity.value;
                && err != None && e.value.session.value.backlog.db.rows == old(e.value.session.value.backlog.db.rows)
                && meta == if ent.id == "" then old(meta) else old(meta) - {(e.value.session.value.id, ent.id)}
    {
      if !GoodEvent(e) { return Some(BadEvent); }
      var s := e.value.session.value;
      var has := s.backlog.Has(e.value.entity);
      if has { return None; }
      err := Submit(s, e.value.entity.value, e.value.meta);
    }

    // An entity that already has a row is forced back to queued, whatever its state.
    method ResubmitEvent(e: Option<Event>) returns (err: Option<DispatchError>)
      requires GoodEvent(e) ==> e.value.session.value.backlog.db.Valid()
      requires HasPipeline(e)
      modifies this, if GoodEvent(e) then {e.value.session.value.backlog.db} else {}
      ensures GoodEvent(e) ==> e.value.session.value.backlog.db.Valid()
      ensures err == Some(BadEvent) <==> e.None? || e.value.entity.None? || e.value.session.None?
      ensures !GoodEvent(e) ==> meta == old(meta)
      ensures GoodEvent(e) && e.value.entity.value.id !in old(e.value.session.value.backlog.db.rows) ==>
                err == Some(NotInBacklog) && unchanged(this) && unchanged(e.value.session.value.backlog.db)
      ensures GoodEvent(e) && Enqueueable(e.value.entity)
              && e.value.entity.value.id in old(e.value.session.value.backlog.db.rows) ==>
                var db, ent := e.value.session.value.backlog.db, e.value.entity.value;
                err == None
                && db.rows == old(db.rows)[ent.id := old(db.rows)[ent.id].(st := Queued, owner := None)]
                && meta == old(meta)[(e.value.session.value.id, ent.id) := e.value.meta]
    {
      if !GoodEvent(e) { return Some(BadEvent); }
      var s := e.value.session.value;
      var has := s.backlog.Has(e.value.entity);
      if !has { return Some(NotInBacklog); }
      err := Submit(s, e.value.entity.value, e.value.meta);
    }

    // Appends the claimed entities to the queue; a draining queue gets none of
    // them and their rows go back to queued.
    method AppendAll(s: Session, t: AssetType, entities: seq<Entity>)
      requires t in s.queues && s.backlog.db.Valid()
      requires forall e <- entities :: e.id != ""
      modifies s.Pipe(t)`q, s.backlog.db`rows
      ensures s.backlog.db.Valid()
      ensures !s.Pipe(t).draining ==>
                s.Pipe(t).q == old(s.Pipe(t).q) + Elements(s.id, entities, meta)
                && s.backlog.db.rows == old(s.backlog.db.rows)
      ensures s.Pipe(t).draining ==>
                s.Pipe(t).q == old(s.Pipe(t).q)
                && s.backlog.db.rows == Requeued(old(s.backlog.db.rows), entities)
    {
      var pipe := s.Pipe(t);
      var i := 0;
      while i < |entities|
        invariant 0 <= i <= |entities| && s.backlog.db.Valid()
        invariant !pipe.draining ==>
          pipe.q == old(pipe.q) + Elements(s.id, entities, meta)[..i]
          && s.backlog.db.rows == old(s.backlog.db.rows)
        invariant pipe.draining ==>
          pipe.q == old(pipe.q) && s.backlog.db.rows == Requeued(old(s.backlog.db.rows), entities[..i])
      {
        hide Requeued;
        var ent := entities[i];
        var key := (s.id, ent.id);
        RequeuedOne(old(s.backlog.db.rows), entities, i);
        var ok := pipe.Append(Element(s.id, ent, if key in meta then Some(meta[key]) else None));
        if !ok {
          var _ := s.backlog.Release(Some(ent), t, false);
        }
        i := i + 1;
      }
      assert entities[..i] == entities;
    }

    // One session's turn in pumpOnce; queued is the count in the snapshot.
    method PumpVisit(s: Session, t: AssetType, queued: nat, assets: map<EntityId, Entity>)
      returns (ghost claims: seq<EntityId>)
      requires t in s.queues && s.backlog.db.Valid()
      requires forall k <- assets :: assets[k].id == k && k != ""
      modifies s.Pipe(t)`q, s.backlog.db
      ensures s.backlog.db.Valid()
      ensures OldestFirst(old(s.backlog.db.rows), t,
                          if queued == 0 then 0 else VisitSize(|old(s.Pipe(t).q)|, t), claims)
      ensures |claims| == if queued == 0 then 0
                          else Max(0, Min(|Claimable(old(s.backlog.db.rows), t)|,
                                          Min(LimitsOf(t).maxQueued - |old(s.Pipe(t).q)|, LimitsOf(t).perSessBurst)))
      ensures !s.Pipe(t).draining ==>
                s.Pipe(t).q == old(s.Pipe(t).q) + Elements(s.id, Loaded(claims, assets), meta)
                && s.backlog.db.rows ==
                   ClaimResult(old(s.backlog.db.rows), claims, assets, OwnerName(s.backlog.owner, t))
      ensures s.Pipe(t).draining ==>
                s.Pipe(t).q == old(s.Pipe(t).q)
                && s.backlog.db.rows == GivenBack(old(s.backlog.db.rows), claims, assets)
      ensures |s.Pipe(t).q| <= Max(|old(s.Pipe(t).q)|, LimitsOf(t).maxQueued)
      ensures |s.Pipe(t).q| <= |old(s.Pipe(t).q)| + LimitsOf(t).perSessBurst
    {
      claims := [];
      if queued == 0 { return; }
      var room := LimitsOf(t).maxQueued - |s.Pipe(t).q|;
      if room <= 0 { return; }
      hide OldestFirst, ClaimResult, GivenBack, Loaded, Elements, TableOk;
      claims := ClaimAndAppend(s, t, Min(room, LimitsOf(t).perSessBurst), assets);
      ClaimCount(old(s.backlog.db.rows), t, Min(room, LimitsOf(t).perSessBurst), claims, assets);
    }

    // What a visit does when there is room for n.
    method ClaimAndAppend(s: Session, t: AssetType, n: nat, assets: map<EntityId, Entity>)
      returns (ghost claims: seq<EntityId>)
      requires t in s.queues && s.backlog.db.Valid()
      requires forall k <- assets :: assets[k].id == k && k != ""
      modifies s.Pipe(t)`q, s.backlog.db
      ensures s.backlog.db.Valid() && OldestFirst(old(s.backlog.db.rows), t, n, claims)
      ensures !s.Pipe(t).draining ==>
                s.Pipe(t).q == old(s.Pipe(t).q) + Elements(s.id, Loaded(claims, assets), meta)
                && s.backlog.db.rows ==
                   ClaimResult(old(s.backlog.db.rows), claims, assets, OwnerName(s.backlog.owner, t))
      ensures s.Pipe(t).draining ==>
                s.Pipe(t).q == old(s.Pipe(t).q)
                && s.backlog.db.rows == GivenBack(old(s.backlog.db.rows), claims, assets)
    {
      hide Requeued, GivenBack, OldestFirst, ClaimResult, Loaded, TableOk;
      var entities, _, got := s.backlog.ClaimNext(t, n, assets);
      claims := got;
      LoadedIds(got, assets);
      VisitGivesBack(old(s.backlog.db.rows), t, n, got, assets, OwnerName(s.backlog.owner, t));
      AppendAll(s, t, entities);
    }

    method CompletedCallback(s: Session, e: Element)
      requires e.entity.id != "" && e.entity.asset.Some? && e.entity.asset.value in s.queues
      requires s.backlog.db.Valid()
      modifies this, s.backlog.db`rows
      ensures s.backlog.db.Valid()
      ensures s.backlog.db.rows == Acked(old(s.backlog.db.rows), e.entity.id, "")
      ensures meta == old(meta) - {(s.id, e.entity.id)}
      ensures |s.Pipe(e.entity.asset.value).q| <= LimitsOf(e.entity.asset.value).lowWater ==> wake.Some?
    {
      var err := s.backlog.Ack(Some(e.entity), false);
      if err == None { meta := meta - {(s.id, e.entity.id)}; }
      SignalScheduling(s, e.entity.asset.value);
    }
  }

  lemma ClaimCount(rows: Rows, t: AssetType, n: nat, claims: seq<EntityId>, assets: map<EntityId, Entity>)
    requires OldestFirst(rows, t, n, claims) && forall k <- assets :: assets[k].id == k && k != ""
    ensures |claims| == Min(n, |Claimable(rows, t)|) && |Loaded(claims, assets)| <= n
  {
    LoadedIds(claims, assets);
    hide Loaded;
  }

  lemma {:induction false} LoadedIds(claims: seq<EntityId>, assets: map<EntityId, Entity>)
    requires forall k <- assets :: assets[k].id == k && k != ""
    ensures |Loaded(claims, assets)| <= |claims|
    ensures forall e <- Loaded(claims, assets) :: e.id in claims && e.id != ""
  {
    if claims != [] { LoadedIds(claims[1..], assets); }
  }
}
