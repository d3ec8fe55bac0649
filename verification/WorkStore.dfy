// The rows of the protocol are the rows of the store: each statement of the
// backlog table is the protocol's own step on the rows of that session.
module WorkStore {
  import opened Wrappers
  import opened Assets
  import opened Backlog
  import opened WorkProtocol

  // prows restricted to session sid is rows, up to lease owners and claim serials.
  ghost predicate Represents(prows: map<Key, PRow>, sid: nat, rows: Rows) {
    forall e ::
      && (Key(sid, e) in prows <==> e in rows)
      && (e in rows ==> prows[Key(sid, e)].atype == rows[e].etype && prows[Key(sid, e)].st == rows[e].st)
  }

  lemma EnqueueMatches(prows: map<Key, PRow>, sid: nat, rows: Rows, now: int, t: AssetType, e: EntityId)
    requires Represents(prows, sid, rows)
    ensures Represents(Enqueue(prows, Key(sid, e), t), sid, Upsert(rows, now, t, e, Queued))
  {}

  lemma AckMatches(prows: map<Key, PRow>, sid: nat, rows: Rows, e: EntityId)
    requires Represents(prows, sid, rows)
    ensures Represents(Ack(prows, Key(sid, e)), sid, Acked(rows, e, ""))
  {}

  lemma OwnedAckMatches(prows: map<Key, PRow>, sid: nat, rows: Rows, e: EntityId, owner: string)
    requires Represents(prows, sid, rows) && owner != ""
    requires Is(prows, Key(sid, e), Leased) ==> rows[e].owner == Some(owner)
    ensures Represents(OwnedAck(prows, Key(sid, e)), sid, Acked(rows, e, owner))
  {}

  lemma ReleaseMatches(prows: map<Key, PRow>, sid: nat, rows: Rows, e: EntityId)
    requires Represents(prows, sid, rows)
    ensures Represents(Release(prows, Key(sid, e)), sid, Released(rows, e, ""))
  {}

  function Keys(sid: nat, ids: seq<EntityId>): (ks: seq<Key>)
    ensures |ks| == |ids| && forall i :: 0 <= i < |ids| ==> ks[i] == Key(sid, ids[i])
  {
    seq(|ids|, i requires 0 <= i < |ids| => Key(sid, ids[i]))
  }

  // What ClaimNext picks is a claim the pump may make, and leases the same rows.
  lemma ClaimMatches(s: State, rows: Rows, ids: seq<EntityId>, owner: string)
    requires s.flow.pump.Sized?
    requires Represents(s.rows, s.flow.pump.pipe.sid, rows)
    requires OldestFirst(rows, s.flow.pump.pipe.atype, s.flow.pump.n, ids)
    ensures
      var sid := s.flow.pump.pipe.sid;
      && Enabled(s, PumpClaim(Keys(sid, ids)))
      && Represents(Lease(s.rows, Keys(sid, ids), s.next), sid, LeaseAll(rows, ids, owner))
  {
    var p := s.flow.pump.pipe;
    var ks := Keys(p.sid, ids);
    forall i, j | 0 <= i < j < |ks| ensures ks[i] != ks[j] {
      assert ids[i] != ids[j];
    }
    forall k <- ks
      ensures Is(s.rows, k, Queued) && Pipe(k.sid, s.rows[k].atype) == p
    {
      var i :| 0 <= i < |ks| && ks[i] == k;
      assert ids[i] in Claimable(rows, p.atype);
    }
    forall e
      ensures Key(p.sid, e) in ks <==> e in ids
    {
      if e in ids {
        var i :| 0 <= i < |ids| && ids[i] == e;
        assert ks[i] == Key(p.sid, e);
      }
    }
    hide OldestFirst, Enabled;
  }
}
