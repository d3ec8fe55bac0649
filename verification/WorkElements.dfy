// Conservation of data elements: which steps make or lose a copy of one.
module WorkElements {
  import opened Wrappers
  import opened WorkProtocol

  ghost function Held(p: Pump, e: Elem): nat {
    match p
    case Loading(_, todo, found) => multiset(todo)[e] + multiset(found)[e]
    case Appending(_, todo, _) => multiset(todo)[e]
    case _ => 0
  }

  ghost function InCompletion(c: Completion, e: Elem): nat {
    if c.Waiting? then 0 else if c.e == e then 1 else 0
  }

  // How many copies of e are anywhere between its claim and its Ack.
  ghost function Outstanding(f: Flow, e: Elem): nat {
    multiset(QueueOf(f, PipeOf(e)))[e] + f.staged[e] + f.exiting[e]
    + multiset(f.cchan)[e] + multiset(f.cqueue)[e] + Held(f.pump, e) + InCompletion(f.comp, e)
  }

  ghost predicate AllOf(es: seq<Elem>, p: Pipe) {
    forall e <- es :: PipeOf(e) == p
  }

  // Elements sit in the queue and the visit of their own pipeline.
  ghost predicate Placed(f: Flow) {
    && (forall p <- f.queues :: AllOf(f.queues[p], p))
    && match f.pump
       case Loading(p, todo, found) => AllOf(todo, p) && AllOf(found, p)
       case Appending(p, todo, _) => AllOf(todo, p)
       case _ => true
  }

  lemma Uncons<T>(q: seq<T>)
    requires q != []
    ensures multiset(q) == multiset{q[0]} + multiset(q[1..])
  {
    assert q == [q[0]] + q[1..];
  }

  lemma PopMoves(f: Flow, p: Pipe, dead: bool, e: Elem)
    requires Placed(f) && QueueOf(f, p) != []
    ensures Placed(PopFlow(f, p, dead))
    ensures Outstanding(PopFlow(f, p, dead), e) == Outstanding(f, e) - One(dead && QueueOf(f, p)[0] == e)
  {
    Uncons(QueueOf(f, p));
  }

  lemma ExitMoves(f: Flow, x: Elem, again: bool, e: Elem)
    requires Placed(f) && x in f.staged
    ensures Placed(ExitFlow(f, x, again))
    ensures Outstanding(ExitFlow(f, x, again), e) == Outstanding(f, e) + One(again && x == e)
  {}

  lemma DirectMoves(f: Flow, x: Elem, e: Elem)
    requires Placed(f) && x in f.exiting
    ensures Placed(f.(exiting := f.exiting - multiset{x}))
    ensures Outstanding(f.(exiting := f.exiting - multiset{x}), e) == Outstanding(f, e) - One(x == e)
  {}

  lemma AppendMoves(f: Flow, accept: bool, e: Elem)
    requires Placed(f) && f.pump.Appending? && f.pump.todo != []
    ensures Placed(AppendFlow(f, accept))
    ensures Outstanding(AppendFlow(f, accept), e) == Outstanding(f, e) - One(!accept && f.pump.todo[0] == e)
  {
    Uncons(f.pump.todo);
  }

  lemma LoadMoves(f: Flow, there: bool, e: Elem)
    requires Placed(f) && f.pump.Loading? && f.pump.todo != []
    ensures Placed(LoadFlow(f, there))
    ensures Outstanding(LoadFlow(f, there), e) == Outstanding(f, e) - One(!there && f.pump.todo[0] == e)
  {
    Uncons(f.pump.todo);
  }

  lemma ReceiveMoves(f: Flow, e: Elem)
    requires Placed(f) && f.comp.Waiting? && f.cchan != []
    ensures Placed(f.(cchan := f.cchan[1..], comp := Moving(f.cchan[0])))
    ensures Outstanding(f.(cchan := f.cchan[1..], comp := Moving(f.cchan[0])), e) == Outstanding(f, e)
  {
    Uncons(f.cchan);
  }

  lemma MoveInMoves(f: Flow, e: Elem)
    requires Placed(f) && f.comp.Moving?
    ensures Placed(f.(cqueue := f.cqueue + [f.comp.e], comp := Waiting))
    ensures Outstanding(f.(cqueue := f.cqueue + [f.comp.e], comp := Waiting), e) == Outstanding(f, e)
  {}

  lemma TakeMoves(f: Flow, e: Elem)
    requires Placed(f) && f.comp.Waiting? && f.cqueue != []
    ensures Placed(f.(cqueue := f.cqueue[1..], comp := Acking(f.cqueue[0])))
    ensures Outstanding(f.(cqueue := f.cqueue[1..], comp := Acking(f.cqueue[0])), e) == Outstanding(f, e)
  {
    Uncons(f.cqueue);
  }

  lemma CompleteMoves(f: Flow, e: Elem)
    requires Placed(f) && f.comp.Acking?
    ensures Placed(f.(comp := Waiting))
    ensures Outstanding(f.(comp := Waiting), e) == Outstanding(f, e) - One(f.comp.e == e)
  {}

  // The steps that make or lose a copy of e, and by how much.
  ghost function Gain(s: State, a: Action, e: Elem): int
    requires Enabled(s, a)
  {
    var f := s.flow;
    match a
    case PumpClaim(ids) => multiset(Batch(f.pump.pipe, ids, s.next))[e]
    case PumpLoad(there) => -One(!there && f.pump.todo[0] == e)
    case PumpAppend => -One(f.pump.pipe in s.draining && f.pump.todo[0] == e)
    case Pop(p) => -One(QueueOf(f, p)[0] == e && e.key.sid in s.killed)
    case StageExit(x, again) => One(again && x == e)
    case DirectAck(x, _) => -One(x == e)
    case Complete(_) => -One(f.comp.e == e)
    case _ => 0
  }

  lemma PumpConserves(s: State, a: Action, e: Elem)
    requires Placed(s.flow) && Enabled(s, a) && PumpEnabled(s, a)
    ensures Placed(FlowAfter(s, a))
    ensures Outstanding(FlowAfter(s, a), e) == Outstanding(s.flow, e) + Gain(s, a, e)
  {
    var f := s.flow;
    match a {
      case PumpClaim(ids) =>
        var es := Batch(f.pump.pipe, ids, s.next);
        forall x <- es ensures PipeOf(x) == f.pump.pipe {
          var i :| 0 <= i < |es| && es[i] == x;
          assert ids[i] in ids;
        }
      case PumpLoad(there) => LoadMoves(f, there, e);
      case PumpAppend => AppendMoves(f, f.pump.pipe !in s.draining, e);
      case _ =>
    }
  }

  predicate IsCompletion(a: Action) {
    a.Receive? || a.MoveIn? || a.TakeCompleted? || a.Complete?
  }

  lemma CompletionConserves(s: State, a: Action, e: Elem)
    requires Placed(s.flow) && Enabled(s, a) && IsCompletion(a)
    ensures Placed(FlowAfter(s, a))
    ensures Outstanding(FlowAfter(s, a), e) == Outstanding(s.flow, e) + Gain(s, a, e)
  {
    hide Outstanding, Placed;
    match a {
      case Receive => ReceiveMoves(s.flow, e);
      case MoveIn => MoveInMoves(s.flow, e);
      case TakeCompleted => TakeMoves(s.flow, e);
      case Complete(_) => CompleteMoves(s.flow, e);
    }
  }

  lemma StageConserves(s: State, a: Action, e: Elem)
    requires Placed(s.flow) && Enabled(s, a) && !PumpEnabled(s, a) && !IsCompletion(a)
    ensures Placed(FlowAfter(s, a))
    ensures Outstanding(FlowAfter(s, a), e) == Outstanding(s.flow, e) + Gain(s, a, e)
  {
    hide Outstanding, Placed;
    var f := s.flow;
    match a {
      case Pop(p) => PopMoves(f, p, QueueOf(f, p)[0].key.sid in s.killed, e);
      case StageExit(x, again) => ExitMoves(f, x, again, e);
      case DirectAck(x, _) => DirectMoves(f, x, e);
      case _ =>
    }
  }

  // Conservation: a copy of an element is made only by its claim (or by a stage
  // that lets it out twice) and lost only by an Ack, a Release or a killed session.
  lemma Conserves(s: State, a: Action, e: Elem)
    requires Placed(s.flow) && Enabled(s, a)
    ensures Placed(Apply(s, a).flow)
    ensures Outstanding(Apply(s, a).flow, e) == Outstanding(s.flow, e) + Gain(s, a, e)
  {
    if PumpEnabled(s, a) {
      PumpConserves(s, a, e);
    } else if IsCompletion(a) {
      CompletionConserves(s, a, e);
    } else {
      StageConserves(s, a, e);
    }
  }
}
