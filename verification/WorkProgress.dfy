// The protocol never gets stuck: from every state a run can reach, the goroutines that
// are already at work can bring a session to idle by themselves.
module WorkProgress {
  import opened Wrappers
  import opened Assets
  import opened Backlog
  import opened WorkProtocol
  import opened WorkElements
  import opened WorkSafety
  import opened WorkIdle

  // A step that works off what is there: nothing is enqueued, drained, killed or lost,
  // and no element stays in a stage it has left.
  predicate WorksOff(a: Action) {
    match a
    case BeginDispatch(_, _) | BeginResubmit(_) | FinishEnqueue(_, _) | Drain(_) | Kill(_) => false
    case PumpLoad(there) => there
    case StageExit(_, again) => !again
    case DirectAck(_, ok) => ok
    case Complete(ok) => ok
    case _ => true
  }

  // The session is alive and none of its queues refuses elements.
  ghost predicate Open(s: State, sid: nat) {
    sid !in s.killed && forall p <- s.draining :: p.sid != sid
  }

  ghost predicate IsIdle(s: State, sid: nat) {
    Completed(s, sid) == Total(s, sid)
  }

  // ---- How much work is left ----

  ghost function Lengths(queues: map<Pipe, seq<Elem>>): nat {
    if queues == map[] then 0
    else
      var p := SomePipe(queues);
      |queues[p]| + Lengths(queues - {p})
  }

  ghost function SomePipe(queues: map<Pipe, seq<Elem>>): (p: Pipe)
    requires queues != map[]
    ensures p in queues
  {
    assert queues.Keys != {};
    var p :| p in queues;
    p
  }

  lemma {:induction false} LengthsWithout(queues: map<Pipe, seq<Elem>>, p: Pipe)
    requires p in queues
    ensures Lengths(queues) == |queues[p]| + Lengths(queues - {p})
    decreases |queues|
  {
    var q := SomePipe(queues);
    if q != p {
      LengthsWithout(queues - {q}, p);
      LengthsWithout(queues - {p}, q);
      assert queues - {q} - {p} == queues - {p} - {q};
    }
  }

  lemma LengthsUpdate(queues: map<Pipe, seq<Elem>>, p: Pipe, q: seq<Elem>)
    ensures Lengths(queues[p := q]) == Lengths(queues) + |q| - if p in queues then |queues[p]| else 0
  {
    var now := queues[p := q];
    LengthsWithout(now, p);
    assert now - {p} == queues - {p};
    if p in queues { LengthsWithout(queues, p); } else { assert queues - {p} == queues; }
  }

  // Each place counts for the steps an element there is away from its Ack.
  function PumpWork(p: Pump): nat {
    match p
    case Idle => 0
    case Sized(_, _) => 3
    case Loading(_, todo, found) => 2 + 9 * |todo| + 8 * |found|
    case Appending(_, todo, _) => 1 + 8 * |todo|
  }

  ghost function FlowWork(f: Flow): nat {
    7 * Lengths(f.queues) + 6 * |f.staged| + |f.exiting| + 5 * |f.cchan| + 3 * |f.cqueue|
    + PumpWork(f.pump) + (match f.comp case Waiting => 0 case Moving(_) => 4 case Acking(_) => 2)
  }

  ghost function Work(s: State, sid: nat): nat {
    20 * |RowsIn(s, sid, Queued)| + FlowWork(s.flow)
  }

  // ---- There is always a step, and it leaves less work ----

  // Nothing is in the hands of any goroutine.
  ghost predicate AtRest(f: Flow) {
    && f.pump.Idle? && f.comp.Waiting? && f.cchan == [] && f.cqueue == []
    && f.staged == multiset{} && f.exiting == multiset{}
    && forall p <- f.queues :: f.queues[p] == []
  }

  lemma SomeStep(s: State) returns (a: Action)
    requires !AtRest(s.flow)
    ensures Enabled(s, a) && WorksOff(a) && !a.PumpSize? && (a.PumpClaim? ==> a.ids == [])
  {
    var f := s.flow;
    if f.comp.Moving? { a := MoveIn; }
    else if f.comp.Acking? { a := Complete(true); }
    else if f.cqueue != [] { a := TakeCompleted; }
    else if f.cchan != [] { a := Receive; }
    else if f.exiting != multiset{} { var e :| e in f.exiting; a := DirectAck(e, true); }
    else if f.staged != multiset{} { var e :| e in f.staged; a := StageExit(e, false); }
    else if !f.pump.Idle? { a := PumpOn(f.pump); }
    else { var p :| p in f.queues && f.queues[p] != []; a := Pop(p); }
  }

  // A stage never waits to let an element go: when the completion channel is full, it
  // acknowledges the element itself, and nothing else has to happen first.
  lemma StagesNeverWait(s: State, e: Elem)
    requires e in s.flow.staged
    ensures Enabled(s, StageExit(e, false))
    ensures |s.flow.cchan| >= 1000 ==> Enabled(Apply(s, StageExit(e, false)), DirectAck(e, true))
    ensures |s.flow.cchan| < 1000 ==> e in Apply(s, StageExit(e, false)).flow.cchan
  {}

  // What the pump does next when every claimed entity is found.
  function PumpOn(p: Pump): Action
    requires !p.Idle?
  {
    match p
    case Sized(_, _) => PumpClaim([])
    case Loading(_, todo, _) => if todo == [] then PumpStart else PumpLoad(true)
    case Appending(_, todo, _) => if todo == [] then PumpEnd else PumpAppend
  }

  lemma LessPop(s: State, p: Pipe)
    requires Enabled(s, Pop(p))
    ensures FlowWork(FlowAfter(s, Pop(p))) < FlowWork(s.flow)
  {
    LengthsUpdate(s.flow.queues, p, QueueOf(s.flow, p)[1..]);
    hide Lengths, PumpWork;
  }

  lemma LessAppend(s: State)
    requires Enabled(s, PumpAppend)
    ensures FlowWork(FlowAfter(s, PumpAppend)) < FlowWork(s.flow)
  {
    var p := s.flow.pump.pipe;
    LengthsUpdate(s.flow.queues, p, QueueOf(s.flow, p) + [s.flow.pump.todo[0]]);
    hide Lengths;
  }

  lemma LessElsewhere(s: State, a: Action)
    requires Enabled(s, a) && WorksOff(a) && !a.PumpSize? && (a.PumpClaim? ==> a.ids == [])
    requires !a.Pop? && !a.PumpAppend?
    ensures FlowWork(FlowAfter(s, a)) < FlowWork(s.flow)
  {
    hide Lengths;
  }

  lemma LessFlow(s: State, a: Action)
    requires Enabled(s, a) && WorksOff(a) && !a.PumpSize? && (a.PumpClaim? ==> a.ids == [])
    ensures FlowWork(FlowAfter(s, a)) < FlowWork(s.flow)
  {
    hide FlowWork, FlowAfter, Enabled;
    match a
    case Pop(p) => LessPop(s, p);
    case PumpAppend => LessAppend(s);
    case _ => LessElsewhere(s, a);
  }

  lemma NoNewRows(s: State, a: Action, sid: nat)
    requires Enabled(s, a) && WorksOff(a) && Open(s, sid)
    requires s.flow.pump.Appending? ==> AllOf(s.flow.pump.todo, s.flow.pump.pipe)
    ensures RowsIn(Apply(s, a), sid, Queued) <= RowsIn(s, sid, Queued)
  {
    hide FlowAfter, PendingAfter, LedgerAfter;
    if a.PumpAppend? { assert PipeOf(s.flow.pump.todo[0]) == s.flow.pump.pipe; }
  }

  lemma StillOpen(s: State, a: Action, sid: nat)
    requires Enabled(s, a) && WorksOff(a) && Open(s, sid)
    ensures Open(Apply(s, a), sid)
  {}

  lemma LessWork(s: State, a: Action, sid: nat)
    requires Enabled(s, a) && WorksOff(a) && !a.PumpSize? && (a.PumpClaim? ==> a.ids == [])
    requires Open(s, sid) && Placed(s.flow)
    ensures Work(Apply(s, a), sid) < Work(s, sid)
  {
    LessFlow(s, a);
    NoNewRows(s, a, sid);
    hide FlowWork, FlowAfter, RowsAfter, Enabled, RowsIn, Open;
    Fewer(RowsIn(Apply(s, a), sid, Queued), RowsIn(s, sid, Queued));
  }

  lemma Fewer<T>(a: set<T>, b: set<T>)
    requires a <= b
    ensures |a| <= |b|
  {
    var rest := b - a;
    assert b == a + rest;
  }

  // ---- The claim of one row ----

  // A pump at rest can size a visit for any empty queue and claim a queued row.
  lemma ClaimOne(s: State, k: Key)
    requires AtRest(s.flow) && Is(s.rows, k, Queued)
    ensures
      var visit := PumpSize(Pipe(k.sid, s.rows[k].atype));
      Enabled(s, visit) && Enabled(Apply(s, visit), PumpClaim([k]))
  {
    var p := Pipe(k.sid, s.rows[k].atype);
    assert QueueOf(s.flow, p) == [];
  }

  lemma ClaimedWork(s: State, k: Key)
    requires AtRest(s.flow) && Is(s.rows, k, Queued)
    requires
      var visit := PumpSize(Pipe(k.sid, s.rows[k].atype));
      Enabled(s, visit) && Enabled(Apply(s, visit), PumpClaim([k]))
    ensures
      var visit := PumpSize(Pipe(k.sid, s.rows[k].atype));
      Work(Apply(Apply(s, visit), PumpClaim([k])), k.sid) + 2 <= Work(s, k.sid)
  {
    var visit := PumpSize(Pipe(k.sid, s.rows[k].atype));
    var t := Apply(Apply(s, visit), PumpClaim([k]));
    hide Lengths, LedgerAfter, PendingAfter;
    assert RowsIn(t, k.sid, Queued) == RowsIn(s, k.sid, Queued) - {k};
    assert FlowWork(t.flow) <= FlowWork(s.flow) + 11;
  }

  // ---- Down to idle ----

  ghost predicate Sound(s: State) {
    Placed(s.flow) && NoStrandedLease(s)
  }

  lemma SoundStep(s: State, a: Action)
    requires Sound(s) && Enabled(s, a)
    ensures Sound(Apply(s, a))
  {
    NoStrandedStep(s, a);
    Conserves(s, a, Elem(Key(0, ""), FQDN, 0));
  }

  lemma RestIsIdle(s: State, sid: nat)
    requires Sound(s) && AtRest(s.flow) && Open(s, sid) && RowsIn(s, sid, Queued) == {}
    ensures IsIdle(s, sid)
  {
    forall k | k in s.rows && k.sid == sid
      ensures s.rows[k].st != Leased
    {
      NoneOutstanding(s.flow, Current(s.rows, k));
    }
    assert RowsIn(s, sid, Leased) == {};
  }

  lemma NoneOutstanding(f: Flow, e: Elem)
    requires AtRest(f)
    ensures Outstanding(f, e) == 0
  {
    assert QueueOf(f, PipeOf(e)) == [];
  }

  lemma {:induction false} ToIdle(s: State, sid: nat) returns (acts: seq<Action>)
    requires Sound(s) && Open(s, sid)
    ensures Executes(s, acts) && IsIdle(After(s, acts), sid)
    ensures |acts| <= Work(s, sid) && forall a <- acts :: WorksOff(a)
    decreases Work(s, sid), 1
  {
    if !AtRest(s.flow) {
      var a := SomeStep(s);
      acts := ThenIdle(s, a, sid);
    } else if RowsIn(s, sid, Queued) != {} {
      acts := ClaimThenIdle(s, sid);
    } else {
      RestIsIdle(s, sid);
      acts := [];
    }
  }

  lemma {:induction false} ClaimThenIdle(s: State, sid: nat) returns (acts: seq<Action>)
    requires Sound(s) && Open(s, sid) && AtRest(s.flow) && RowsIn(s, sid, Queued) != {}
    ensures Executes(s, acts) && IsIdle(After(s, acts), sid)
    ensures |acts| <= Work(s, sid) && forall a <- acts :: WorksOff(a)
    decreases Work(s, sid), 0
  {
    var k :| k in RowsIn(s, sid, Queued);
    var visit, claim := PumpSize(Pipe(sid, s.rows[k].atype)), PumpClaim([k]);
    ClaimOne(s, k);
    ClaimedWork(s, k);
    SoundStep(s, visit);
    StillOpen(s, visit, sid);
    var t := Apply(s, visit);
    hide FlowAfter, RowsAfter, LedgerAfter, PendingAfter, Sound, Open, Work, Enabled, RowsIn, IsIdle, AtRest;
    SoundStep(t, claim);
    StillOpen(t, claim, sid);
    var rest := ToIdle(Apply(t, claim), sid);
    Prepend(t, claim, rest);
    Prepend(s, visit, [claim] + rest);
    acts := [visit] + ([claim] + rest);
  }

  lemma {:induction false} ThenIdle(s: State, a: Action, sid: nat) returns (acts: seq<Action>)
    requires Sound(s) && Open(s, sid) && Enabled(s, a)
    requires WorksOff(a) && !a.PumpSize? && (a.PumpClaim? ==> a.ids == [])
    ensures Executes(s, acts) && IsIdle(After(s, acts), sid)
    ensures |acts| <= Work(s, sid) && forall x <- acts :: WorksOff(x)
    decreases Work(s, sid), 0
  {
    LessWork(s, a, sid);
    SoundStep(s, a);
    StillOpen(s, a, sid);
    hide Sound, Open, Work, Enabled, IsIdle;
    var rest := ToIdle(Apply(s, a), sid);
    Prepend(s, a, rest);
    acts := [a] + rest;
  }

  lemma Prepend(s: State, a: Action, acts: seq<Action>)
    requires Enabled(s, a) && Executes(Apply(s, a), acts)
    ensures Executes(s, [a] + acts) && After(s, [a] + acts) == After(Apply(s, a), acts)
  {
    hide Enabled, Apply;
    assert ([a] + acts)[1..] == acts;
  }

  // From every state a run reaches, the steps already under way bring an open session
  // to idle: no element waits for ever, whatever else was going on.
  lemma CanBecomeIdle(acts: seq<Action>, sid: nat) returns (more: seq<Action>)
    requires Executes(INIT, acts) && Open(After(INIT, acts), sid)
    ensures Executes(After(INIT, acts), more) && IsIdle(After(After(INIT, acts), more), sid)
    ensures |more| <= Work(After(INIT, acts), sid) && forall a <- more :: WorksOff(a)
  {
    EveryRunIsSafe(acts);
    more := ToIdle(After(INIT, acts), sid);
  }
}
