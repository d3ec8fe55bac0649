// The work protocol as a transition system: entities are enqueued, claimed by
// the single pump, appended to bounded pipeline queues, run through stages and
// acknowledged by the completion goroutine (or by the stage itself when the
// completion channel is full). Every action is one atomic step of one goroutine,
// so a run is an arbitrary interleaving of all of them.
module WorkProtocol {
  import opened Wrappers
  import opened Assets
  import opened Backlog

  // A row of the backlog of session sid.
  datatype Key = Key(sid: nat, eid: EntityId)

  datatype Pipe = Pipe(sid: nat, atype: AssetType)

  // The data element made for one claim; serial numbers the claims.
  datatype Elem = Elem(key: Key, atype: AssetType, serial: nat)

  datatype PRow = PRow(atype: AssetType, st: RowState, serial: nat)

  // Where the pump goroutine is inside one visit.
  datatype Pump =
    | Idle
    | Sized(pipe: Pipe, n: nat)
    | Loading(pipe: Pipe, todo: seq<Elem>, found: seq<Elem>)
    | Appending(pipe: Pipe, todo: seq<Elem>, added: nat)

  // What the completion goroutine holds.
  datatype Completion = Waiting | Moving(e: Elem) | Acking(e: Elem)

  // Every place an element can be between its claim and its Ack.
  datatype Flow = Flow(
    queues: map<Pipe, seq<Elem>>,
    staged: multiset<Elem>,
    exiting: multiset<Elem>,
    cchan: seq<Elem>,
    cqueue: seq<Elem>,
    pump: Pump,
    comp: Completion)

  // How often each row was enqueued, released and claimed.
  datatype Ledger = Ledger(enqueues: map<Key, nat>, releases: map<Key, nat>, claims: map<Key, nat>)

  datatype State = State(
    rows: map<Key, PRow>,
    pending: multiset<(Key, AssetType)>,
    flow: Flow,
    draining: set<Pipe>,
    killed: set<nat>,
    next: nat,
    ledger: Ledger)

  const CCHAN_CAP: nat := 1000

  const EMPTY_FLOW := Flow(map[], multiset{}, multiset{}, [], [], Idle, Waiting)

  const INIT := State(map[], multiset{}, EMPTY_FLOW, {}, {}, 0, Ledger(map[], map[], map[]))

  datatype Action =
    | BeginDispatch(k: Key, t: AssetType)
    | BeginResubmit(k: Key)
    | FinishEnqueue(k: Key, t: AssetType)
    | PumpSize(pipe: Pipe)
    | PumpClaim(ids: seq<Key>)
    | PumpLoad(there: bool)
    | PumpStart
    | PumpAppend
    | PumpEnd
    | Pop(pipe: Pipe)
    | StageExit(e: Elem, again: bool)
    | DirectAck(e: Elem, ok: bool)
    | Receive
    | MoveIn
    | TakeCompleted
    | Complete(ok: bool)
    | Drain(pipe: Pipe)
    | Kill(sid: nat)

  function QueueOf(f: Flow, p: Pipe): seq<Elem> {
    if p in f.queues then f.queues[p] else []
  }

  function Get(m: map<Key, nat>, k: Key): nat {
    if k in m then m[k] else 0
  }

  function PipeOf(e: Elem): Pipe {
    Pipe(e.key.sid, e.atype)
  }

  // The elements made for a batch of claimed rows of one pipeline.
  function Batch(p: Pipe, ids: seq<Key>, next: nat): (es: seq<Elem>)
    ensures |es| == |ids|
    ensures forall i :: 0 <= i < |ids| ==> es[i] == Elem(ids[i], p.atype, next + i)
  {
    seq(|ids|, i requires 0 <= i < |ids| => Elem(ids[i], p.atype, next + i))
  }

  // The position of k in ids, when it is there.
  function IndexIn(ids: seq<Key>, k: Key): (i: nat)
    requires k in ids
    ensures i < |ids| && ids[i] == k
  {
    if ids[0] == k then 0 else 1 + IndexIn(ids[1..], k)
  }

  predicate Is(rows: map<Key, PRow>, k: Key, st: RowState) {
    k in rows && rows[k].st == st
  }

  // ---- What the steps do to the rows ----

  // Enqueue inserts a queued row, or forces an existing one back to queued.
  function Enqueue(rows: map<Key, PRow>, k: Key, t: AssetType): map<Key, PRow> {
    rows[k := if k in rows then rows[k].(st := Queued) else PRow(t, Queued, 0)]
  }

  function Lease(rows: map<Key, PRow>, ids: seq<Key>, next: nat): map<Key, PRow> {
    map k | k in rows ::
      if k in ids then rows[k].(st := Leased, serial := next + IndexIn(ids, k)) else rows[k]
  }

  // An ownerless Ack marks the row done whatever its state is.
  function Ack(rows: map<Key, PRow>, k: Key): map<Key, PRow> {
    if k in rows then rows[k := rows[k].(st := Done)] else rows
  }

  // An Ack with the lease's owner, and a Release, touch a leased row only.
  function OwnedAck(rows: map<Key, PRow>, k: Key): map<Key, PRow> {
    if Is(rows, k, Leased) then Ack(rows, k) else rows
  }

  function Release(rows: map<Key, PRow>, k: Key): map<Key, PRow> {
    if Is(rows, k, Leased) then rows[k := rows[k].(st := Queued)] else rows
  }

  // ---- What the steps do to the elements ----

  function PopFlow(f: Flow, p: Pipe, dead: bool): Flow
    requires QueueOf(f, p) != []
  {
    var q := QueueOf(f, p);
    Flow(f.queues[p := q[1..]], if dead then f.staged else f.staged + multiset{q[0]},
         f.exiting, f.cchan, f.cqueue, f.pump, f.comp)
  }

  function ExitFlow(f: Flow, e: Elem, again: bool): Flow {
    var full := |f.cchan| >= CCHAN_CAP;
    Flow(f.queues,
         if again then f.staged else f.staged - multiset{e},
         if full then f.exiting + multiset{e} else f.exiting,
         if full then f.cchan else f.cchan + [e],
         f.cqueue, f.pump, f.comp)
  }

  function AppendFlow(f: Flow, accept: bool): Flow
    requires f.pump.Appending? && f.pump.todo != []
  {
    var p := f.pump.pipe;
    Flow(if accept then f.queues[p := QueueOf(f, p) + [f.pump.todo[0]]] else f.queues,
         f.staged, f.exiting, f.cchan, f.cqueue,
         Appending(p, f.pump.todo[1..], if accept then f.pump.added + 1 else f.pump.added),
         f.comp)
  }

  function LoadFlow(f: Flow, there: bool): Flow
    requires f.pump.Loading? && f.pump.todo != []
  {
    f.(pump := Loading(f.pump.pipe, f.pump.todo[1..],
                       if there then f.pump.found + [f.pump.todo[0]] else f.pump.found))
  }

  // ---- The transition system ----

  ghost predicate PumpEnabled(s: State, a: Action) {
    var pump := s.flow.pump;
    match a
    case PumpSize(p) => pump.Idle? && VisitSize(|QueueOf(s.flow, p)|, p.atype) > 0
    case PumpClaim(ids) =>
      && pump.Sized?
      && |ids| <= pump.n
      && Distinct(ids)
      && forall k <- ids :: Is(s.rows, k, Queued) && Pipe(k.sid, s.rows[k].atype) == pump.pipe
    case PumpLoad(_) => pump.Loading? && pump.todo != []
    case PumpStart => pump.Loading? && pump.todo == []
    case PumpAppend => pump.Appending? && pump.todo != []
    case PumpEnd => pump.Appending? && pump.todo == []
    case _ => false
  }

  ghost predicate Enabled(s: State, a: Action) {
    match a
    case BeginDispatch(k, _) => k !in s.rows
    case BeginResubmit(k) => k in s.rows
    case FinishEnqueue(k, t) => (k, t) in s.pending
    case Pop(p) => QueueOf(s.flow, p) != []
    case StageExit(e, _) => e in s.flow.staged
    case DirectAck(e, ok) => e in s.flow.exiting && (ok || e.key.sid in s.killed)
    case Receive => s.flow.comp.Waiting? && s.flow.cchan != []
    case MoveIn => s.flow.comp.Moving?
    case TakeCompleted => s.flow.comp.Waiting? && s.flow.cqueue != []
    case Complete(ok) => s.flow.comp.Acking? && (ok || s.flow.comp.e.key.sid in s.killed)
    case Drain(_) => true
    case Kill(_) => true
    case _ => PumpEnabled(s, a)
  }

  ghost function FlowAfter(s: State, a: Action): Flow
    requires Enabled(s, a)
  {
    var f := s.flow;
    match a
    case PumpSize(p) => f.(pump := Sized(p, VisitSize(|QueueOf(f, p)|, p.atype)))
    case PumpClaim(ids) => f.(pump := Loading(f.pump.pipe, Batch(f.pump.pipe, ids, s.next), []))
    case PumpLoad(there) => LoadFlow(f, there)
    case PumpStart => f.(pump := Appending(f.pump.pipe, f.pump.found, 0))
    case PumpAppend => AppendFlow(f, f.pump.pipe !in s.draining)
    case PumpEnd => f.(pump := Idle)
    case Pop(p) => PopFlow(f, p, QueueOf(f, p)[0].key.sid in s.killed)
    case StageExit(e, again) => ExitFlow(f, e, again)
    case DirectAck(e, _) => f.(exiting := f.exiting - multiset{e})
    case Receive => f.(cchan := f.cchan[1..], comp := Moving(f.cchan[0]))
    case MoveIn => f.(cqueue := f.cqueue + [f.comp.e], comp := Waiting)
    case TakeCompleted => f.(cqueue := f.cqueue[1..], comp := Acking(f.cqueue[0]))
    case Complete(_) => f.(comp := Waiting)
    case _ => f
  }

  ghost function RowsAfter(s: State, a: Action): map<Key, PRow>
    requires Enabled(s, a)
  {
    match a
    case FinishEnqueue(k, t) => Enqueue(s.rows, k, t)
    case PumpClaim(ids) => Lease(s.rows, ids, s.next)
    case PumpLoad(there) => if there then s.rows else OwnedAck(s.rows, s.flow.pump.todo[0].key)
    case PumpAppend =>
      if s.flow.pump.pipe in s.draining then Release(s.rows, s.flow.pump.todo[0].key) else s.rows
    case DirectAck(e, ok) => if ok then Ack(s.rows, e.key) else s.rows
    case Complete(ok) => if ok then Ack(s.rows, s.flow.comp.e.key) else s.rows
    case _ => s.rows
  }

  ghost function LedgerAfter(s: State, a: Action): Ledger
    requires Enabled(s, a)
  {
    var l := s.ledger;
    match a
    case FinishEnqueue(k, _) => l.(enqueues := l.enqueues[k := Get(l.enqueues, k) + 1])
    case PumpClaim(ids) =>
      l.(claims := map k | k in l.claims.Keys + (set x | x in ids) ::
           Get(l.claims, k) + (if k in ids then 1 else 0))
    case PumpAppend =>
      var k := s.flow.pump.todo[0].key;
      if s.flow.pump.pipe in s.draining && Is(s.rows, k, Leased) then
        l.(releases := l.releases[k := Get(l.releases, k) + 1])
      else l
    case _ => l
  }

  ghost function PendingAfter(s: State, a: Action): multiset<(Key, AssetType)>
    requires Enabled(s, a)
  {
    match a
    case BeginDispatch(k, t) => s.pending + multiset{(k, t)}
    case BeginResubmit(k) => s.pending + multiset{(k, s.rows[k].atype)}
    case FinishEnqueue(k, t) => s.pending - multiset{(k, t)}
    case _ => s.pending
  }

  ghost function Apply(s: State, a: Action): State
    requires Enabled(s, a)
  {
    State(RowsAfter(s, a), PendingAfter(s, a), FlowAfter(s, a),
          if a.Drain? then s.draining + {a.pipe} else s.draining,
          if a.Kill? then s.killed + {a.sid} else s.killed,
          if a.PumpClaim? then s.next + |a.ids| else s.next,
          LedgerAfter(s, a))
  }

  // acts can be taken one after the other from s.
  ghost predicate Executes(s: State, acts: seq<Action>)
    decreases |acts|
  {
    acts == [] || (Enabled(s, acts[0]) && Executes(Apply(s, acts[0]), acts[1..]))
  }

  ghost function After(s: State, acts: seq<Action>): State
    requires Executes(s, acts)
    decreases |acts|
  {
    if acts == [] then s else After(Apply(s, acts[0]), acts[1..])
  }

  // A stage hands an element to the completion channel while that holds fewer than a
  // thousand, and acknowledges it itself otherwise.
  lemma ExitIs(f: Flow, e: Elem, again: bool)
    ensures var g := ExitFlow(f, e, again);
            && (|f.cchan| < 1000 ==> g.cchan == f.cchan + [e] && g.exiting == f.exiting)
            && (|f.cchan| >= 1000 ==> g.cchan == f.cchan && g.exiting == f.exiting + multiset{e})
            && (!again ==> g.staged == f.staged - multiset{e})
  {}
}
