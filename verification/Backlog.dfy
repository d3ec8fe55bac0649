// The durable backlog: one table of rows per session, moved between queued,
// leased and done. The session runs it with a lease TTL of zero, so a lease
// never expires. A session that is alive never sees a store error.
module Backlog {
  import opened Wrappers
  import opened Assets

  type EntityId = string

  datatype RowState = Queued | Leased | Done

  // created is the second a row was inserted in; older rows are claimed first.
  datatype Row = Row(created: int, etype: AssetType, st: RowState, owner: Option<string>)

  type Rows = map<EntityId, Row>

  datatype BacklogError =
    | EmptyEntityId
    | NoEntity
    | NoAsset
    | EmptyAssetType
    | NoEntitiesClaimed
    | OwnerMismatch

  // ---- What each statement does to the table ----

  function Upsert(rows: Rows, now: int, t: AssetType, eid: EntityId, st: RowState): Rows {
    rows[eid := if eid in rows then rows[eid].(st := st, owner := None) else Row(now, t, st, None)]
  }

  function Claimable(rows: Rows, t: AssetType): set<EntityId> {
    set e | e in rows && rows[e].etype == t && rows[e].st == Queued
  }

  function LeaseAll(rows: Rows, ids: seq<EntityId>, owner: string): Rows {
    map e | e in rows :: if e in ids then rows[e].(st := Leased, owner := Some(owner)) else rows[e]
  }

  predicate OwnedBy(rows: Rows, eid: EntityId, owner: string) {
    eid in rows && rows[eid].st == Leased && rows[eid].owner == Some(owner)
  }

  function Acked(rows: Rows, eid: EntityId, owner: string): Rows {
    if eid in rows && (owner == "" || OwnedBy(rows, eid, owner)) then
      rows[eid := rows[eid].(st := Done, owner := None)]
    else rows
  }

  function Released(rows: Rows, eid: EntityId, owner: string): Rows {
    if eid in rows && rows[eid].st == Leased && (owner == "" || OwnedBy(rows, eid, owner)) then
      rows[eid := rows[eid].(st := Queued, owner := None)]
    else rows
  }

  function InState(rows: Rows, t: AssetType, st: RowState): set<EntityId> {
    set e | e in rows && rows[e].etype == t && rows[e].st == st
  }

  // ids are n oldest claimable rows, oldest first, in any order within one second.
  ghost predicate OldestFirst(rows: Rows, t: AssetType, n: int, ids: seq<EntityId>) {
    && |ids| == Max(0, Min(n, |Claimable(rows, t)|))
    && (forall i :: 0 <= i < |ids| ==> ids[i] in Claimable(rows, t))
    && (forall i, j :: 0 <= i < j < |ids| ==> ids[i] != ids[j] && rows[ids[i]].created <= rows[ids[j]].created)
    && (forall i, u :: 0 <= i < |ids| && u in Claimable(rows, t) && u !in ids ==>
                         rows[ids[i]].created <= rows[u].created)
  }

  // ---- The same, row by row ----

  lemma UpsertRow(rows: Rows, now: int, t: AssetType, eid: EntityId, st: RowState)
    ensures var r := Upsert(rows, now, t, eid, st);
            && r.Keys == rows.Keys + {eid}
            && (eid !in rows ==> r[eid] == Row(now, t, st, None))
            && (eid in rows ==> r[eid] == Row(rows[eid].created, rows[eid].etype, st, None))
            && forall e :: e in rows && e != eid ==> r[e] == rows[e]
  {}

  lemma LeasedRow(rows: Rows, ids: seq<EntityId>, owner: string)
    ensures var r := LeaseAll(rows, ids, owner);
            && r.Keys == rows.Keys
            && (forall e :: e in rows && e in ids ==> r[e] == Row(rows[e].created, rows[e].etype, Leased, Some(owner)))
            && forall e :: e in rows && e !in ids ==> r[e] == rows[e]
  {}

  // With an owner only the row it has leased is acknowledged, without one any row.
  lemma AckedRow(rows: Rows, eid: EntityId, owner: string)
    ensures var r := Acked(rows, eid, owner);
            && r.Keys == rows.Keys
            && (eid in rows && (owner == "" || (rows[eid].st == Leased && rows[eid].owner == Some(owner))) ==>
                  r[eid] == Row(rows[eid].created, rows[eid].etype, Done, None))
            && (eid in rows && owner != "" && !(rows[eid].st == Leased && rows[eid].owner == Some(owner)) ==>
                  r[eid] == rows[eid])
            && forall e :: e in rows && e != eid ==> r[e] == rows[e]
  {}

  // Only a leased row, of the owner if there is one, is released.
  lemma ReleasedRow(rows: Rows, eid: EntityId, owner: string)
    ensures var r := Released(rows, eid, owner);
            && r.Keys == rows.Keys
            && (eid in rows && rows[eid].st == Leased && (owner == "" || rows[eid].owner == Some(owner)) ==>
                  r[eid] == Row(rows[eid].created, rows[eid].etype, Queued, None))
            && (eid in rows && !(rows[eid].st == Leased && (owner == "" || rows[eid].owner == Some(owner))) ==>
                  r[eid] == rows[eid])
            && forall e :: e in rows && e != eid ==> r[e] == rows[e]
  {}

  predicate TableOk(rows: Rows) {
    "" !in rows
  }

  // claims are the oldest claimable rows in order, left are the other ones.
  ghost predicate Picked(rows: Rows, t: AssetType, left: set<EntityId>, claims: seq<EntityId>) {
    && left <= Claimable(rows, t)
    && |claims| + |left| == |Claimable(rows, t)|
    && (forall e :: e in Claimable(rows, t) <==> e in left || e in claims)
    && (forall i :: 0 <= i < |claims| ==> claims[i] in Claimable(rows, t) && claims[i] !in left)
    && (forall i, j :: 0 <= i < j < |claims| ==>
                         claims[i] != claims[j] && rows[claims[i]].created <= rows[claims[j]].created)
    && (forall i, u :: 0 <= i < |claims| && u in left ==> rows[claims[i]].created <= rows[u].created)
  }

  lemma PickNone(rows: Rows, t: AssetType)
    ensures Picked(rows, t, Claimable(rows, t), [])
  {}

  lemma PickedSome(rows: Rows, t: AssetType, left: set<EntityId>, claims: seq<EntityId>)
    requires Picked(rows, t, left, claims)
    ensures left <= rows.Keys
  {}

  lemma PickOne(rows: Rows, t: AssetType, left: set<EntityId>, claims: seq<EntityId>, e: EntityId)
    requires Picked(rows, t, left, claims) && e in left && left <= rows.Keys
    requires forall u :: u in left ==> rows[e].created <= rows[u].created
    ensures Picked(rows, t, left - {e}, claims + [e])
  {
    var claims' := claims + [e];
    forall i | 0 <= i < |claims'|
      ensures claims'[i] in Claimable(rows, t) && claims'[i] !in left - {e}
    {
      if i < |claims| { assert claims'[i] == claims[i]; }
    }
  }

  lemma PickedOldest(rows: Rows, t: AssetType, n: int, left: set<EntityId>, claims: seq<EntityId>)
    requires Picked(rows, t, left, claims)
    requires |claims| <= Max(0, n) && (|claims| >= n || left == {})
    ensures OldestFirst(rows, t, n, claims)
  {}

  class BacklogDB {
    var rows: Rows
    // The clock, in seconds, set from outside.
    var now: int

    ghost predicate Valid()
      reads this
    {
      TableOk(rows)
    }

    constructor ()
      ensures Valid() && rows == map[]
    {
      rows, now := map[], 0;
    }

    method Has(eid: EntityId) returns (ok: bool)
      requires Valid()
      ensures ok <==> eid in rows
    {
      ok := eid != "" && eid in rows;
    }

    // Inserts a queued row; an existing row is forced back to queued.
    method Enqueue(t: AssetType, eid: EntityId) returns (err: Option<BacklogError>)
      requires Valid()
      modifies this`rows
      ensures Valid()
      ensures eid == "" ==> err == Some(EmptyEntityId) && rows == old(rows)
      ensures eid != "" ==> err == None && rows == Upsert(old(rows), now, t, eid, Queued)
      ensures eid != "" ==>
                && rows.Keys == old(rows).Keys + {eid} && rows[eid].st == Queued && rows[eid].owner == None
                && (eid !in old(rows) ==> rows[eid].created == now && rows[eid].etype == t)
                && (eid in old(rows) ==>
                      rows[eid].created == old(rows)[eid].created && rows[eid].etype == old(rows)[eid].etype)
                && forall e :: e in old(rows) && e != eid ==> rows[e] == old(rows)[e]
    {
      if eid == "" { return Some(EmptyEntityId); }
      rows := Upsert(rows, now, t, eid, Queued);
      err := None;
    }

    method EnqueueDone(t: AssetType, eid: EntityId) returns (err: Option<BacklogError>)
      requires Valid()
      modifies this`rows
      ensures Valid()
      ensures eid == "" ==> err == Some(EmptyEntityId) && rows == old(rows)
      ensures eid != "" ==> err == None && rows == Upsert(old(rows), now, t, eid, Done)
      ensures eid != "" ==>
                && rows.Keys == old(rows).Keys + {eid} && rows[eid].st == Done && rows[eid].owner == None
                && (eid !in old(rows) ==> rows[eid].created == now && rows[eid].etype == t)
                && (eid in old(rows) ==>
                      rows[eid].created == old(rows)[eid].created && rows[eid].etype == old(rows)[eid].etype)
                && forall e :: e in old(rows) && e != eid ==> rows[e] == old(rows)[e]
    {
      if eid == "" { return Some(EmptyEntityId); }
      rows := Upsert(rows, now, t, eid, Done);
      err := None;
    }

    // The oldest row among left.
    method Oldest(left: set<EntityId>) returns (oldest: EntityId)
      requires Valid() && left != {} && left <= rows.Keys
      ensures oldest in left
      ensures forall u :: u in left ==> rows[oldest].created <= rows[u].created
    {
      oldest :| oldest in left;
      var rest := left - {oldest};
      while rest != {}
        invariant rest <= left && oldest in left && oldest !in rest
        invariant forall u :: u in left && u !in rest ==> rows[oldest].created <= rows[u].created
        decreases rest
      {
        var u :| u in rest;
        rest := rest - {u};
        if rows[u].created < rows[oldest].created { oldest := u; }
      }
    }

    // Selects the oldest n queued rows of the type, then leases them all.
    method ClaimNext(t: AssetType, owner: string, n: int) returns (claims: seq<EntityId>)
      requires Valid()
      modifies this`rows
      ensures Valid()
      ensures OldestFirst(old(rows), t, n, claims)
      ensures rows == LeaseAll(old(rows), claims, if owner == "" then "default" else owner)
    {
      claims := [];
      var left := Claimable(rows, t);
      PickNone(rows, t);
      while |claims| < n && left != {}
        invariant unchanged(this)
        invariant Picked(rows, t, left, claims)
        invariant |claims| <= Max(0, n)
        decreases left
      {
        hide Picked, TableOk;
        PickedSome(rows, t, left, claims);
        var oldest := Oldest(left);
        PickOne(rows, t, left, claims, oldest);
        claims, left := claims + [oldest], left - {oldest};
      }
      PickedOldest(rows, t, n, left, claims);
      hide OldestFirst, Picked;
      rows := LeaseAll(rows, claims, if owner == "" then "default" else owner);
    }

    method Ack(eid: EntityId, owner: string) returns (err: Option<BacklogError>)
      requires Valid()
      modifies this`rows
      ensures Valid()
      ensures rows == Acked(old(rows), eid, owner)
      ensures err == if eid == "" then Some(EmptyEntityId)
                     else if owner != "" && !OwnedBy(old(rows), eid, owner) then Some(OwnerMismatch)
                     else None
    {
      if eid == "" { return Some(EmptyEntityId); }
      var hit := owner == "" || OwnedBy(rows, eid, owner);
      rows := Acked(rows, eid, owner);
      err := if hit then None else Some(OwnerMismatch);
    }

    method Release(eid: EntityId, owner: string) returns (err: Option<BacklogError>)
      requires Valid()
      modifies this`rows
      ensures Valid()
      ensures rows == Released(old(rows), eid, owner)
      ensures err == if eid == "" then Some(EmptyEntityId) else None
    {
      if eid == "" { return Some(EmptyEntityId); }
      rows := Released(rows, eid, owner);
      err := None;
    }

    method Delete(eid: EntityId) returns (err: Option<BacklogError>)
      requires Valid()
      modifies this`rows
      ensures Valid()
      ensures rows == old(rows) - {eid}
      ensures err == if eid == "" then Some(EmptyEntityId) else None
    {
      if eid == "" { return Some(EmptyEntityId); }
      rows := rows - {eid};
      err := None;
    }

    method Counts(t: AssetType) returns (queued: nat, leased: nat, done: nat)
      requires Valid()
      ensures queued == |InState(rows, t, Queued)|
      ensures leased == |InState(rows, t, Leased)|
      ensures done == |InState(rows, t, Done)|
    {
      queued, leased, done := 0, 0, 0;
      var left := rows;
      while left != map[]
        invariant left.Keys <= rows.Keys && forall e <- left :: left[e] == rows[e]
        invariant queued + |InState(left, t, Queued)| == |InState(rows, t, Queued)|
        invariant leased + |InState(left, t, Leased)| == |InState(rows, t, Leased)|
        invariant done + |InState(left, t, Done)| == |InState(rows, t, Done)|
        decreases left.Keys
      {
        var e :| e in left;
        var rest := left - {e};
        CountOne(left, rest, e, t, Queued);
        CountOne(left, rest, e, t, Leased);
        CountOne(left, rest, e, t, Done);
        if left[e].etype == t {
          match left[e].st {
            case Queued => queued := queued + 1;
            case Leased => leased := leased + 1;
            case Done => done := done + 1;
          }
        }
        left := rest;
      }
    }
  }

  lemma InStateWithout(rows: Rows, rest: Rows, e: EntityId, t: AssetType, st: RowState)
    requires e in rows && rest == rows - {e}
    ensures InState(rows, t, st) ==
            InState(rest, t, st) + if rows[e].etype == t && rows[e].st == st then {e} else {}
  {}

  lemma CountOne(rows: Rows, rest: Rows, e: EntityId, t: AssetType, st: RowState)
    requires e in rows && rest == rows - {e}
    ensures |InState(rows, t, st)| ==
              |InState(rest, t, st)| + (if rows[e].etype == t && rows[e].st == st then 1 else 0)
  {
    InStateWithout(rows, rest, e, t, st);
    assert e !in InState(rest, t, st);
    hide InState;
  }

  // ---- The session's view of its backlog ----

  // An entity as the asset database returns it; asset is its type, if it has one.
  datatype Entity = Entity(id: EntityId, asset: Option<AssetType>)

  predicate Enqueueable(e: Option<Entity>) {
    e.Some? && e.value.id != "" && e.value.asset.Some? && e.value.asset.value != Other("")
  }

  // The error Enqueue returns before it touches the store.
  function EnqueueError(e: Option<Entity>): (err: Option<BacklogError>)
    ensures err == None <==> Enqueueable(e)
    ensures err == Some(NoEntity) <==> e.None?
    ensures err == Some(EmptyEntityId) <==> e.Some? && e.value.id == ""
    ensures err == Some(NoAsset) <==> e.Some? && e.value.id != "" && e.value.asset.None?
    ensures err == Some(EmptyAssetType) <==> e.Some? && e.value.id != "" && e.value.asset == Some(Other(""))
  {
    if e.None? then Some(NoEntity)
    else if e.value.id == "" then Some(EmptyEntityId)
    else if e.value.asset.None? then Some(NoAsset)
    else if e.value.asset.value == Other("") then Some(EmptyAssetType)
    else None
  }

  function TypeName(t: AssetType): string {
    match t
    case FQDN => "FQDN"
    case IPAddress => "IPAddress"
    case Service => "Service"
    case TLSCertificate => "TLSCertificate"
    case URL => "URL"
    case Other(name) => name
  }

  // The lease owner of one asset type.
  function OwnerName(owner: string, t: AssetType): (name: string)
    ensures name != "" && |name| > |owner| && name[..|owner|] == owner && name[|owner|] == ':'
    ensures match t
            case FQDN => name[|owner| + 1..] == "FQDN"
            case IPAddress => name[|owner| + 1..] == "IPAddress"
            case Service => name[|owner| + 1..] == "Service"
            case TLSCertificate => name[|owner| + 1..] == "TLSCertificate"
            case URL => name[|owner| + 1..] == "URL"
            case Other(n) => name[|owner| + 1..] == n
  {
    var name := owner + ":" + TypeName(t);
    assert name[|owner|] == ':' && name[..|owner|] == owner && name[|owner| + 1..] == TypeName(t);
    name
  }

  // The claimed entities the asset database knows, in claim order.
  function Loaded(claims: seq<EntityId>, assets: map<EntityId, Entity>): seq<Entity> {
    if claims == [] then []
    else (if claims[0] in assets then [assets[claims[0]]] else []) + Loaded(claims[1..], assets)
  }

  // Claimed rows without an entity end up done, the others leased.
  function ClaimResult(rows: Rows, claims: seq<EntityId>, assets: map<EntityId, Entity>, owner: string): Rows {
    map e | e in rows ::
      if e !in claims then rows[e]
      else if e in assets then rows[e].(st := Leased, owner := Some(owner))
      else rows[e].(st := Done, owner := None)
  }

  class SessionBacklog {
    const db: BacklogDB
    const owner: string

    constructor (db: BacklogDB, owner: string)
      ensures this.db == db && this.owner == owner
    {
      this.db, this.owner := db, owner;
    }

    method Has(e: Option<Entity>) returns (ok: bool)
      requires db.Valid()
      ensures ok <==> e.Some? && e.value.id in db.rows
    {
      if e.None? || e.value.id == "" { return false; }
      ok := db.Has(e.value.id);
    }

    method Enqueue(e: Option<Entity>) returns (err: Option<BacklogError>)
      requires db.Valid()
      modifies db
      ensures db.Valid()
      ensures err == EnqueueError(e)
      ensures db.rows == if Enqueueable(e)
                         then Upsert(old(db.rows), old(db.now), e.value.asset.value, e.value.id, Queued)
                         else old(db.rows)
    {
      err := EnqueueError(e);
      if err == None {
        err := db.Enqueue(e.value.asset.value, e.value.id);
      }
    }

    // Loads the entities of freshly leased rows, in order; a row whose entity is
    // missing from the asset database is acknowledged on the spot.
    method Load(claims: seq<EntityId>, assets: map<EntityId, Entity>, name: string, ghost before: Rows)
      returns (results: seq<Entity>)
      requires db.Valid() && name != ""
      requires db.rows == LeaseAll(before, claims, name)
      requires forall i :: 0 <= i < |claims| ==> claims[i] in before && claims[i] !in claims[..i]
      modifies db`rows
      ensures db.Valid()
      ensures results == Loaded(claims, assets)
      ensures db.rows == ClaimResult(before, claims, assets, name)
    {
      ClaimBounds(before, claims, assets, name);
      hide Acked, AckedSoFar, LeaseAll, ClaimResult, TableOk;
      results := [];
      var i := 0;
      while i < |claims|
        invariant 0 <= i <= |claims| && db.Valid()
        invariant results + Loaded(claims[i..], assets) == Loaded(claims, assets)
        invariant db.rows == AckedSoFar(before, claims, i, assets, name)
      {
        var c := claims[i];
        assert claims[i..][1..] == claims[i + 1..];
        AckStep(before, claims, i, assets, name);
        if c in assets {
          results := results + [assets[c]];
        } else {
          var _ := db.Ack(c, name);
        }
        i := i + 1;
      }
    }

    // Claims up to num rows of the type and loads their entities.
    method ClaimNext(t: AssetType, num: int, assets: map<EntityId, Entity>)
      returns (results: seq<Entity>, err: Option<BacklogError>, ghost claims: seq<EntityId>)
      requires db.Valid()
      modifies db
      ensures db.Valid()
      ensures OldestFirst(old(db.rows), t, num, claims)
      ensures results == Loaded(claims, assets)
      ensures err == if results == [] then Some(NoEntitiesClaimed) else None
      ensures db.rows == ClaimResult(old(db.rows), claims, assets, OwnerName(owner, t))
    {
      if num <= 0 { return [], Some(NoEntitiesClaimed), []; }
      var got := db.ClaimNext(t, OwnerName(owner, t), num);
      claims := got;
      ClaimsDiffer(old(db.rows), t, num, got);
      results := Load(got, assets, OwnerName(owner, t), old(db.rows));
      err := if results == [] then Some(NoEntitiesClaimed) else None;
    }

    method Ack(e: Option<Entity>, enforceOwner: bool) returns (err: Option<BacklogError>)
      requires db.Valid()
      modifies db`rows
      ensures db.Valid()
      ensures e.None? || e.value.id == "" ==> err == Some(NoEntity) && db.rows == old(db.rows)
      ensures e.Some? && e.value.id != "" && (!enforceOwner || e.value.asset.None?) ==>
                err == None && db.rows == Acked(old(db.rows), e.value.id, "")
      ensures e.Some? && e.value.id != "" && enforceOwner && e.value.asset.Some? ==>
                var o := OwnerName(owner, e.value.asset.value);
                && db.rows == Acked(old(db.rows), e.value.id, o)
                && err == if OwnedBy(old(db.rows), e.value.id, o) then None else Some(OwnerMismatch)
    {
      if e.None? || e.value.id == "" { return Some(NoEntity); }
      var o := if enforceOwner && e.value.asset.Some? then OwnerName(owner, e.value.asset.value) else "";
      err := db.Ack(e.value.id, o);
    }

    method Release(e: Option<Entity>, t: AssetType, enforceOwner: bool) returns (err: Option<BacklogError>)
      requires db.Valid()
      modifies db`rows
      ensures db.Valid()
      ensures e.Some? && e.value.id != "" ==>
                err == None &&
                db.rows == Released(old(db.rows), e.value.id, if enforceOwner then OwnerName(owner, t) else "")
      ensures e.None? || e.value.id == "" ==> err != None && db.rows == old(db.rows)
    {
      if e.None? || e.value.id == "" { return Some(NoEntity); }
      err := db.Release(e.value.id, if enforceOwner then OwnerName(owner, t) else "");
    }
  }

  // The table after the first i claims have been loaded.
  ghost function AckedSoFar(rows: Rows, claims: seq<EntityId>, i: nat, assets: map<EntityId, Entity>,
                            owner: string): Rows
    requires i <= |claims|
  {
    map e | e in rows ::
      if e !in claims then rows[e]
      else if e in assets || e !in claims[..i] then rows[e].(st := Leased, owner := Some(owner))
      else rows[e].(st := Done, owner := None)
  }

  lemma ClaimsDiffer(rows: Rows, t: AssetType, n: int, ids: seq<EntityId>)
    requires OldestFirst(rows, t, n, ids)
    ensures forall i :: 0 <= i < |ids| ==> ids[i] in rows && ids[i] !in ids[..i]
  {}

  lemma ClaimBounds(rows: Rows, ids: seq<EntityId>, assets: map<EntityId, Entity>, owner: string)
    ensures AckedSoFar(rows, ids, 0, assets, owner) == LeaseAll(rows, ids, owner)
    ensures AckedSoFar(rows, ids, |ids|, assets, owner) == ClaimResult(rows, ids, assets, owner)
  {
    assert ids[..|ids|] == ids;
  }

  lemma AckStep(rows: Rows, claims: seq<EntityId>, i: nat, assets: map<EntityId, Entity>, owner: string)
    requires i < |claims| && owner != ""
    requires claims[i] in rows && claims[i] !in claims[..i]
    ensures AckedSoFar(rows, claims, i + 1, assets, owner) ==
            if claims[i] in assets then AckedSoFar(rows, claims, i, assets, owner)
            else Acked(AckedSoFar(rows, claims, i, assets, owner), claims[i], owner)
  {
    assert claims[..i + 1] == claims[..i] + [claims[i]];
  }
}
