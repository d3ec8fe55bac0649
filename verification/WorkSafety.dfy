// Safety of the work protocol over every run: no lease is stranded, queues stay
// bounded, claims are paid for, and exactly which runs keep one element per lease.
module WorkSafety {
  import opened Wrappers
  import opened Assets
  import opened Backlog
  import opened WorkProtocol
  import opened WorkElements

  // The element made by the row's last claim.
  function Current(rows: map<Key, PRow>, k: Key): Elem
    requires k in rows
  {
    Elem(k, rows[k].atype, rows[k].serial)
  }

  predicate Live(s: State, k: Key) {
    k.sid !in s.killed
  }

  // A leased row of a live session has its element somewhere on the way to an Ack.
  ghost predicate NoStrandedLease(s: State) {
    forall k :: Live(s, k) && Is(s.rows, k, Leased) ==> Outstanding(s.flow, Current(s.rows, k)) >= 1
  }

  lemma DistinctCount<T(!new)>(s: seq<T>, x: T)
    requires Distinct(s)
    ensures multiset(s)[x] == One(x in s)
  {
    if s != [] {
      DistinctCount(s[1..], x);
      Uncons(s);
    }
  }

  lemma BatchSerials(p: Pipe, ids: seq<Key>, next: nat, e: Elem)
    requires Distinct(ids)
    ensures multiset(Batch(p, ids, next))[e] ==
            One(e.key in ids && e == Elem(e.key, p.atype, next + IndexIn(ids, e.key)))
  {
    var es := Batch(p, ids, next);
    DistinctCount(es, e);
    if e.key in ids {
      var i := IndexIn(ids, e.key);
      assert es[i] in es;
    }
  }

  // Outside a claim, a row that ends up leased was leased by the same claim before.
  lemma LeaseKept(s: State, a: Action, k: Key)
    requires Enabled(s, a) && Is(RowsAfter(s, a), k, Leased)
    requires a.PumpClaim? ==> k !in a.ids
    ensures Is(s.rows, k, Leased) && RowsAfter(s, a)[k] == s.rows[k]
    ensures Live(s, k) ==> Gain(s, a, Current(s.rows, k)) >= 0
  {}

  lemma NoStrandedStep(s: State, a: Action)
    requires Placed(s.flow) && Enabled(s, a) && NoStrandedLease(s)
    ensures NoStrandedLease(Apply(s, a))
  {
    var s' := Apply(s, a);
    forall k | Live(s', k) && Is(s'.rows, k, Leased)
      ensures Outstanding(s'.flow, Current(s'.rows, k)) >= 1
    {
      hide Outstanding, Placed, FlowAfter, PendingAfter, LedgerAfter;
      var e := Current(s'.rows, k);
      Conserves(s, a, e);
      if a.PumpClaim? && k in a.ids {
        BatchSerials(s.flow.pump.pipe, a.ids, s.next, e);
      } else {
        hide Gain, RowsAfter;
        LeaseKept(s, a, k);
      }
    }
  }

  // ---- Bounded queues ----

  function Reserved(p: Pump): nat {
    match p
    case Idle => 0
    case Sized(_, n) => n
    case Loading(_, todo, found) => |todo| + |found|
    case Appending(_, todo, _) => |todo|
  }

  // Elements of this visit already in the queue.
  function Added(p: Pump): nat {
    if p.Appending? then p.added else 0
  }

  function RoomTaken(f: Flow, p: Pipe): nat {
    |QueueOf(f, p)| + (if !f.pump.Idle? && f.pump.pipe == p then Reserved(f.pump) else 0)
  }

  // No queue outgrows its limit, even with what the pump still has to append,
  // and one visit adds at most the burst of its asset type.
  ghost predicate Bounded(f: Flow) {
    && (forall p :: RoomTaken(f, p) <= LimitsOf(p.atype).maxQueued)
    && (!f.pump.Idle? ==> Added(f.pump) + Reserved(f.pump) <= LimitsOf(f.pump.pipe.atype).perSessBurst)
  }

  lemma BoundedPump(s: State, a: Action)
    requires Enabled(s, a) && PumpEnabled(s, a) && Bounded(s.flow)
    ensures Bounded(FlowAfter(s, a))
  {
    forall p
      ensures RoomTaken(FlowAfter(s, a), p) <= LimitsOf(p.atype).maxQueued
    {
      assert RoomTaken(s.flow, p) <= LimitsOf(p.atype).maxQueued;
    }
  }

  lemma BoundedStep(s: State, a: Action)
    requires Enabled(s, a) && Bounded(s.flow)
    ensures Bounded(FlowAfter(s, a))
  {
    if PumpEnabled(s, a) {
      BoundedPump(s, a);
    } else {
      var f' := FlowAfter(s, a);
      assert f'.pump == s.flow.pump;
      forall p
        ensures RoomTaken(f', p) <= LimitsOf(p.atype).maxQueued
      {
        assert RoomTaken(f', p) <= RoomTaken(s.flow, p);
      }
    }
  }

  // ---- Every claim is paid for by an enqueue or a release ----

  ghost predicate Paid(s: State) {
    forall k :: Get(s.ledger.claims, k) + One(Is(s.rows, k, Queued))
                <= Get(s.ledger.enqueues, k) + Get(s.ledger.releases, k)
  }

  lemma PaidStep(s: State, a: Action)
    requires Enabled(s, a) && Paid(s)
    ensures Paid(Apply(s, a))
  {
    var s' := Apply(s, a);
    forall k
      ensures Get(s'.ledger.claims, k) + One(Is(s'.rows, k, Queued))
              <= Get(s'.ledger.enqueues, k) + Get(s'.ledger.releases, k)
    {
      hide FlowAfter, PendingAfter;
      assert Get(s.ledger.claims, k) + One(Is(s.rows, k, Queued))
             <= Get(s.ledger.enqueues, k) + Get(s.ledger.releases, k);
    }
  }

  // ---- The safety theorem ----

  ghost predicate Safe(s: State) {
    Placed(s.flow) && NoStrandedLease(s) && Bounded(s.flow) && Paid(s)
  }

  lemma {:induction false} SafeFrom(s: State, acts: seq<Action>)
    requires Safe(s) && Executes(s, acts)
    ensures Safe(After(s, acts))
    decreases |acts|
  {
    if acts != [] {
      var a := acts[0];
      Conserves(s, a, Elem(Key(0, ""), FQDN, 0));
      NoStrandedStep(s, a);
      BoundedStep(s, a);
      PaidStep(s, a);
      hide NoStrandedLease, Bounded, Paid, Placed, Enabled, FlowAfter, RowsAfter, LedgerAfter, PendingAfter;
      SafeFrom(Apply(s, a), acts[1..]);
    }
  }

  // Whatever the interleaving of dispatchers, resubmitters, the pump, the
  // pipelines, the completion goroutine and killed sessions.
  lemma EveryRunIsSafe(acts: seq<Action>)
    requires Executes(INIT, acts)
    ensures Safe(After(INIT, acts))
  {
    SafeFrom(INIT, acts);
  }

  // ---- Exactly one element per lease ----

  // A live session's elements are exactly its leased rows, one each.
  ghost predicate OnePerLease(s: State) {
    forall e: Elem :: Live(s, e.key) ==>
      Outstanding(s.flow, e) == One(Is(s.rows, e.key, Leased) && e == Current(s.rows, e.key))
  }

  // Rows of live sessions are re-enqueued only when not leased, and every
  // element leaves its stage once.
  predicate Disciplined(s: State, a: Action) {
    match a
    case FinishEnqueue(k, _) => Live(s, k) ==> !Is(s.rows, k, Leased)
    case StageExit(e, again) => Live(s, e.key) ==> !again
    case _ => true
  }

  lemma HeadPresent(s: State, a: Action)
    requires Placed(s.flow) && Enabled(s, a)
    ensures a.PumpLoad? || a.PumpAppend? ==> Outstanding(s.flow, s.flow.pump.todo[0]) >= 1
    ensures a.DirectAck? || (a.StageExit? && a.e in s.flow.staged) ==> Outstanding(s.flow, a.e) >= 1
    ensures a.Complete? ==> Outstanding(s.flow, s.flow.comp.e) >= 1
  {}

  // The step keeps the one-per-lease equation of a single element.
  lemma OnePerLeaseClaim(s: State, a: Action, e: Elem)
    requires Placed(s.flow) && Enabled(s, a) && OnePerLease(s) && a.PumpClaim? && Live(s, e.key)
    ensures Outstanding(FlowAfter(s, a), e) ==
            One(Is(RowsAfter(s, a), e.key, Leased) && e == Current(RowsAfter(s, a), e.key))
  {
    hide Outstanding, Placed, FlowAfter;
    Conserves(s, a, e);
    BatchSerials(s.flow.pump.pipe, a.ids, s.next, e);
  }

  // The steps that can end an element's life.
  predicate Retires(a: Action) {
    a.PumpLoad? || a.PumpAppend? || a.DirectAck? || a.Complete?
  }

  ghost function Retired(s: State, a: Action): Elem
    requires Enabled(s, a) && Retires(a)
  {
    if a.DirectAck? then a.e else if a.Complete? then s.flow.comp.e else s.flow.pump.todo[0]
  }

  // Whether it does: the entity is missing, the queue refuses it, or it is acked.
  ghost predicate EndsLife(s: State, a: Action)
    requires Enabled(s, a) && Retires(a)
  {
    match a
    case PumpLoad(there) => !there
    case PumpAppend => s.flow.pump.pipe in s.draining
    case DirectAck(_, ok) => ok
    case Complete(ok) => ok
  }

  lemma RetireEffect(s: State, a: Action, e: Elem)
    requires Enabled(s, a) && Retires(a) && Live(s, e.key)
    ensures Gain(s, a, e) == -One(EndsLife(s, a) && e == Retired(s, a))
    ensures !EndsLife(s, a) ==> RowsAfter(s, a) == s.rows
    ensures EndsLife(s, a) && e.key == Retired(s, a).key ==> !Is(RowsAfter(s, a), e.key, Leased)
    ensures e.key != Retired(s, a).key && e.key in s.rows ==>
              e.key in RowsAfter(s, a) && RowsAfter(s, a)[e.key] == s.rows[e.key]
    ensures e.key in RowsAfter(s, a) <==> e.key in s.rows
  {}

  // While leases are one per element, whatever acknowledges or releases a row
  // does so for the claim that leased it: no pass is cut short.
  lemma RetiresOwnLease(s: State, a: Action)
    requires Placed(s.flow) && Enabled(s, a) && OnePerLease(s) && Retires(a)
    ensures
      var x := Retired(s, a);
      Live(s, x.key) ==> Is(s.rows, x.key, Leased) && x == Current(s.rows, x.key)
  {
    HeadPresent(s, a);
    assert Outstanding(s.flow, Retired(s, a)) >= 1;
    hide Outstanding, Enabled;
  }

  lemma OnePerLeaseRetire(s: State, a: Action, e: Elem)
    requires Placed(s.flow) && Enabled(s, a) && OnePerLease(s) && Retires(a) && Live(s, e.key)
    ensures Outstanding(FlowAfter(s, a), e) ==
            One(Is(RowsAfter(s, a), e.key, Leased) && e == Current(RowsAfter(s, a), e.key))
  {
    RetiresOwnLease(s, a);
    hide Outstanding, Placed, FlowAfter, Enabled, RowsAfter, Gain, Retired, EndsLife;
    RetireEffect(s, a, e);
    Conserves(s, a, e);
  }

  lemma OnePerLeaseOther(s: State, a: Action, e: Elem)
    requires Placed(s.flow) && Enabled(s, a) && OnePerLease(s) && Disciplined(s, a)
    requires !a.PumpClaim? && !Retires(a) && Live(s, e.key)
    ensures Outstanding(FlowAfter(s, a), e) ==
            One(Is(RowsAfter(s, a), e.key, Leased) && e == Current(RowsAfter(s, a), e.key))
  {
    hide Outstanding, Placed, FlowAfter;
    Conserves(s, a, e);
  }

  lemma OnePerLeaseStep(s: State, a: Action)
    requires Placed(s.flow) && Enabled(s, a) && OnePerLease(s) && Disciplined(s, a)
    ensures OnePerLease(Apply(s, a))
  {
    var s' := Apply(s, a);
    forall e: Elem | Live(s', e.key)
      ensures Outstanding(s'.flow, e) == One(Is(s'.rows, e.key, Leased) && e == Current(s'.rows, e.key))
    {
      hide Outstanding, OnePerLease, Placed, FlowAfter, RowsAfter, PendingAfter, LedgerAfter, Enabled, Disciplined;
      if a.PumpClaim? {
        OnePerLeaseClaim(s, a, e);
      } else if Retires(a) {
        OnePerLeaseRetire(s, a, e);
      } else {
        OnePerLeaseOther(s, a, e);
      }
    }
  }

  lemma OnePerLeaseBroken(s: State, a: Action)
    requires Placed(s.flow) && Enabled(s, a) && OnePerLease(s) && !Disciplined(s, a)
    ensures !OnePerLease(Apply(s, a))
  {
    var s' := Apply(s, a);
    HeadPresent(s, a);
    var e := if a.StageExit? then a.e else Current(s.rows, a.k);
    hide Outstanding, Placed, FlowAfter, PendingAfter, LedgerAfter;
    Conserves(s, a, e);
    assert Outstanding(s.flow, e) == 1;
  }

  ghost predicate AlwaysDisciplined(s: State, acts: seq<Action>)
    requires Executes(s, acts)
    decreases |acts|
  {
    acts == [] || (Disciplined(s, acts[0]) && AlwaysDisciplined(Apply(s, acts[0]), acts[1..]))
  }

  ghost predicate AlwaysOnePerLease(s: State, acts: seq<Action>)
    requires Executes(s, acts)
    decreases |acts|
  {
    OnePerLease(s) && (acts == [] || AlwaysOnePerLease(Apply(s, acts[0]), acts[1..]))
  }

  lemma {:induction false} OnePerLeaseFrom(s: State, acts: seq<Action>)
    requires Placed(s.flow) && OnePerLease(s) && Executes(s, acts)
    ensures AlwaysOnePerLease(s, acts) <==> AlwaysDisciplined(s, acts)
    decreases |acts|
  {
    if acts != [] {
      var a := acts[0];
      var s' := Apply(s, a);
      Conserves(s, a, Elem(Key(0, ""), FQDN, 0));
      if Disciplined(s, a) {
        OnePerLeaseStep(s, a);
        hide OnePerLease, Placed, Enabled, FlowAfter, RowsAfter, LedgerAfter, PendingAfter, Disciplined;
        OnePerLeaseFrom(s', acts[1..]);
      } else {
        OnePerLeaseBroken(s, a);
      }
    }
  }

  // A run keeps exactly one element per lease at every point iff it never
  // re-enqueues a leased row and never lets an element out of a stage twice.
  lemma OnePerLeaseIffDisciplined(acts: seq<Action>)
    requires Executes(INIT, acts)
    ensures AlwaysOnePerLease(INIT, acts) <==> AlwaysDisciplined(INIT, acts)
  {
    OnePerLeaseFrom(INIT, acts);
  }
}
