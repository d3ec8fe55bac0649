// Order in the work protocol: elements leave a queue, and are completed, in the order
// in which they came.
module WorkOrder {
  import opened Assets
  import opened Backlog
  import opened WorkProtocol

  // ---- Pipeline queues ----

  // The elements the pump's visit has still to append to the queue of p.
  function Ahead(pump: Pump, p: Pipe): seq<Elem> {
    match pump
    case Loading(q, todo, found) => if q == p then found + todo else []
    case Appending(q, todo, _) => if q == p then todo else []
    case _ => []
  }

  // What is on its way to the stages of p, the next one first.
  function Line(f: Flow, p: Pipe): seq<Elem> {
    QueueOf(f, p) + Ahead(f.pump, p)
  }

  // The element the step takes from the queue of p, if any.
  ghost function Taken(s: State, a: Action, p: Pipe): seq<Elem>
    requires Enabled(s, a)
  {
    if a == Pop(p) then [QueueOf(s.flow, p)[0]] else []
  }

  // Everything a run takes from the queue of p, in order.
  ghost function AllTaken(s: State, acts: seq<Action>, p: Pipe): seq<Elem>
    requires Executes(s, acts)
    decreases |acts|
  {
    if acts == [] then [] else Taken(s, acts[0], p) + AllTaken(Apply(s, acts[0]), acts[1..], p)
  }

  // The claims that made the elements follow one another, all before next.
  ghost predicate InClaimOrder(es: seq<Elem>, next: nat) {
    && (forall i, j :: 0 <= i < j < |es| ==> es[i].serial < es[j].serial)
    && (forall i :: 0 <= i < |es| ==> es[i].serial < next)
  }

  // All of was but at most one.
  ghost predicate Kept(was: seq<Elem>, left: seq<Elem>) {
    left == was || exists k :: 0 <= k < |was| && left == was[..k] + was[k + 1..]
  }

  lemma KeptOrder(before: seq<Elem>, was: seq<Elem>, left: seq<Elem>, next: nat)
    requires InClaimOrder(before + was, next) && Kept(was, left)
    ensures InClaimOrder(before + left, next)
  {
    if left != was {
      var k :| 0 <= k < |was| && left == was[..k] + was[k + 1..];
      var n := |before| + k;
      assert forall i :: 0 <= i < |before + left| ==>
        (before + left)[i] == (before + was)[if i < n then i else i + 1];
    }
  }

  lemma BatchOrder(es: seq<Elem>, p: Pipe, ids: seq<Key>, next: nat)
    requires InClaimOrder(es, next)
    ensures InClaimOrder(es + Batch(p, ids, next), next + |ids|)
  {}

  // The step takes the first of the line, adds a batch at its end, or drops one.
  lemma LineStep(s: State, a: Action, p: Pipe)
    requires Enabled(s, a)
    ensures var was, left := Line(s.flow, p), Taken(s, a, p) + Line(FlowAfter(s, a), p);
            if a.PumpClaim? && s.flow.pump.pipe == p then left == was + Batch(p, a.ids, s.next)
            else Kept(was, left)
  {
    hide Kept, Enabled;
    KeptAll(Line(s.flow, p));
    if !a.Pop? { assert Taken(s, a, p) + Line(FlowAfter(s, a), p) == Line(FlowAfter(s, a), p); }
    hide FlowAfter, Line, Taken;
    match a
    case PumpLoad(there) => LoadStep(s, there, p);
    case PumpAppend => AppendStep(s, p);
    case PumpClaim(ids) => ClaimStep(s, ids, p);
    case Pop(q) => PopStep(s, q, p);
    case _ => StillStep(s, a, p);
  }

  lemma ClaimStep(s: State, ids: seq<Key>, p: Pipe)
    requires Enabled(s, PumpClaim(ids))
    ensures Line(FlowAfter(s, PumpClaim(ids)), p) ==
            Line(s.flow, p) + if s.flow.pump.pipe == p then Batch(p, ids, s.next) else []
  {}

  lemma StillStep(s: State, a: Action, p: Pipe)
    requires Enabled(s, a) && !a.PumpLoad? && !a.PumpAppend? && !a.PumpClaim? && !a.Pop?
    ensures Line(FlowAfter(s, a), p) == Line(s.flow, p)
  {
    if a.PumpStart? { assert s.flow.pump.found + [] == s.flow.pump.found; }
  }

  lemma KeptAll(was: seq<Elem>)
    ensures Kept(was, was)
  {}

  lemma PopStep(s: State, q: Pipe, p: Pipe)
    requires Enabled(s, Pop(q))
    ensures Taken(s, Pop(q), p) + Line(FlowAfter(s, Pop(q)), p) == Line(s.flow, p)
  {
    var was := QueueOf(s.flow, p);
    if q == p { assert was == [was[0]] + was[1..]; }
  }

  lemma LoadStep(s: State, there: bool, p: Pipe)
    requires Enabled(s, PumpLoad(there))
    ensures Kept(Line(s.flow, p), Line(FlowAfter(s, PumpLoad(there)), p))
  {
    var f := s.flow;
    var was, left := Line(f, p), Line(LoadFlow(f, there), p);
    if f.pump.pipe == p {
      var k := |QueueOf(f, p)| + |f.pump.found|;
      if there { assert left == was; } else { assert left == was[..k] + was[k + 1..]; }
    }
  }

  lemma AppendStep(s: State, p: Pipe)
    requires Enabled(s, PumpAppend)
    ensures Kept(Line(s.flow, p), Line(FlowAfter(s, PumpAppend), p))
  {
    var was, left := Line(s.flow, p), Line(FlowAfter(s, PumpAppend), p);
    var q, todo := QueueOf(s.flow, p), s.flow.pump.todo;
    if s.flow.pump.pipe != p {
      assert left == was;
    } else if p in s.draining {
      assert was == q + todo && left == q + todo[1..];
      FirstDropped(q, todo);
    } else {
      assert was == q + todo && left == (q + [todo[0]]) + todo[1..];
      FirstMoved(q, todo);
    }
  }

  lemma FirstDropped(q: seq<Elem>, todo: seq<Elem>)
    requires todo != []
    ensures Kept(q + todo, q + todo[1..])
  {
    var was, k := q + todo, |q|;
    assert q + todo[1..] == was[..k] + was[k + 1..];
  }

  lemma FirstMoved(q: seq<Elem>, todo: seq<Elem>)
    requires todo != []
    ensures (q + [todo[0]]) + todo[1..] == q + todo
    ensures Kept(q + todo, (q + [todo[0]]) + todo[1..])
  {}


  lemma OrderStep(s: State, a: Action, p: Pipe, before: seq<Elem>)
    requires Enabled(s, a) && InClaimOrder(before + Line(s.flow, p), s.next)
    ensures InClaimOrder(before + Taken(s, a, p) + Line(FlowAfter(s, a), p), Apply(s, a).next)
  {
    hide Apply, FlowAfter, Enabled, Line, Taken, InClaimOrder, Kept;
    NextIs(s, a);
    LineStep(s, a, p);
    var was, taken, rest := Line(s.flow, p), Taken(s, a, p), Line(FlowAfter(s, a), p);
    assert before + taken + rest == before + (taken + rest);
    if a.PumpClaim? && s.flow.pump.pipe == p {
      ClaimOrder(before, was, taken + rest, p, a.ids, s.next);
    } else {
      KeptOrder(before, was, taken + rest, s.next);
      if a.PumpClaim? { LaterNext(before + (taken + rest), s.next, s.next + |a.ids|); }
    }
  }

  lemma NextIs(s: State, a: Action)
    requires Enabled(s, a)
    ensures Apply(s, a).next == s.next + if a.PumpClaim? then |a.ids| else 0
    ensures a.PumpClaim? ==> s.flow.pump.Sized?
  {}

  lemma ClaimOrder(before: seq<Elem>, was: seq<Elem>, left: seq<Elem>, p: Pipe, ids: seq<Key>, next: nat)
    requires InClaimOrder(before + was, next) && left == was + Batch(p, ids, next)
    ensures InClaimOrder(before + left, next + |ids|)
  {
    BatchOrder(before + was, p, ids, next);
    hide InClaimOrder, Batch;
    assert before + left == (before + was) + Batch(p, ids, next);
  }

  lemma LaterNext(es: seq<Elem>, next: nat, later: nat)
    requires InClaimOrder(es, next) && next <= later
    ensures InClaimOrder(es, later)
  {}

  lemma {:induction false} OrderFrom(s: State, acts: seq<Action>, p: Pipe, before: seq<Elem>)
    requires Executes(s, acts) && InClaimOrder(before + Line(s.flow, p), s.next)
    ensures InClaimOrder(before + AllTaken(s, acts, p) + Line(After(s, acts).flow, p), After(s, acts).next)
    decreases |acts|
  {
    hide InClaimOrder, Line, Taken, FlowAfter, RowsAfter, LedgerAfter, PendingAfter, Enabled;
    if acts == [] {
      assert before + [] == before;
    } else {
      var a := acts[0];
      OrderStep(s, a, p, before);
      OrderFrom(Apply(s, a), acts[1..], p, before + Taken(s, a, p));
      assert before + AllTaken(s, acts, p) ==
             before + Taken(s, a, p) + AllTaken(Apply(s, a), acts[1..], p);
    }
  }

  // In every run the elements a pipeline takes from its queue, then those in the queue,
  // then those the pump has still to append, are in the order of their claims.
  lemma StagesSeeClaimOrder(acts: seq<Action>, p: Pipe)
    requires Executes(INIT, acts)
    ensures InClaimOrder(AllTaken(INIT, acts, p) + Line(After(INIT, acts).flow, p), After(INIT, acts).next)
  {
    OrderFrom(INIT, acts, p, []);
    var all := AllTaken(INIT, acts, p);
    assert [] + all == all;
  }

  // ---- Completions ----

  // What is on its way to the completion callback, the next one first.
  function Completing(f: Flow): seq<Elem> {
    (if f.comp.Acking? then [f.comp.e] else []) + f.cqueue
    + (if f.comp.Moving? then [f.comp.e] else []) + f.cchan
  }

  // The element the step sends into the completion channel, and the one it completes.
  ghost function Sent(s: State, a: Action): seq<Elem> {
    if a.StageExit? && |s.flow.cchan| < 1000 then [a.e] else []
  }

  ghost function Completed(s: State, a: Action): seq<Elem>
    requires Enabled(s, a)
  {
    if a.Complete? then [s.flow.comp.e] else []
  }

  ghost function AllSent(s: State, acts: seq<Action>): seq<Elem>
    requires Executes(s, acts)
    decreases |acts|
  {
    if acts == [] then [] else Sent(s, acts[0]) + AllSent(Apply(s, acts[0]), acts[1..])
  }

  ghost function AllCompleted(s: State, acts: seq<Action>): seq<Elem>
    requires Executes(s, acts)
    decreases |acts|
  {
    if acts == [] then [] else Completed(s, acts[0]) + AllCompleted(Apply(s, acts[0]), acts[1..])
  }

  lemma CompletingStep(s: State, a: Action)
    requires Enabled(s, a)
    ensures Completing(s.flow) + Sent(s, a) == Completed(s, a) + Completing(FlowAfter(s, a))
  {
    match a
    case StageExit(e, again) => SendStep(s, e, again);
    case Receive => Uncons(s.flow.cchan);
    case TakeCompleted => Uncons(s.flow.cqueue);
    case _ =>
  }

  lemma Uncons(es: seq<Elem>)
    requires es != []
    ensures es == [es[0]] + es[1..]
  {}

  lemma SendStep(s: State, e: Elem, again: bool)
    requires Enabled(s, StageExit(e, again))
    ensures Completing(FlowAfter(s, StageExit(e, again))) == Completing(s.flow) + Sent(s, StageExit(e, again))
  {}

  lemma {:induction false} CompletionsFrom(s: State, acts: seq<Action>)
    requires Executes(s, acts)
    ensures Completing(s.flow) + AllSent(s, acts) == AllCompleted(s, acts) + Completing(After(s, acts).flow)
    decreases |acts|
  {
    if acts != [] {
      var a := acts[0];
      CompletingStep(s, a);
      hide Completing, Sent, Completed, FlowAfter, RowsAfter, LedgerAfter, PendingAfter, Enabled;
      var t := Apply(s, a);
      CompletionsFrom(t, acts[1..]);
      Relay(Completing(s.flow), Sent(s, a), Completed(s, a), Completing(t.flow),
            AllSent(t, acts[1..]), AllCompleted(t, acts[1..]), Completing(After(s, acts).flow));
    }
  }

  lemma Relay(line: seq<Elem>, came: seq<Elem>, went: seq<Elem>, line': seq<Elem>,
              more: seq<Elem>, rest: seq<Elem>, end: seq<Elem>)
    requires line + came == went + line' && line' + more == rest + end
    ensures line + (came + more) == (went + rest) + end
  {
    assert line + (came + more) == (line + came) + more == went + (line' + more);
  }

  // In every run the elements sent into the completion channel are completed in that
  // order, and none is lost or doubled on the way.
  lemma CompletionsInOrder(acts: seq<Action>)
    requires Executes(INIT, acts)
    ensures AllSent(INIT, acts) == AllCompleted(INIT, acts) + Completing(After(INIT, acts).flow)
  {
    CompletionsFrom(INIT, acts);
    assert Completing(INIT.flow) == [];
  }
}
