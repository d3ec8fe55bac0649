// The log fan-out never gets stuck: until Close is called, whatever has been accepted
// can still reach every reader.
module LogProgress {
  import opened Wrappers
  import opened LogFanout
  import opened LogSafety

  // A step of a goroutine or a call that is already under way.
  predicate GoesOn(a: Action) {
    match a
    case SubscribeEnd | UnsubscribeCount | UnsubscribeEnd => true
    case CasterWakes | CasterTakes | CasterLocks | CasterSends | CasterUnlocks => true
    case Do(_, step) => !step.Return? && !step.CloseChannel?
    case _ => false
  }

  // Everybody has got everything.
  ghost predicate AllRead(s: State) {
    && s.lock.Free? && s.q == [] && !s.caster.Holding? && !s.caster.Delivering?
    && forall id :: 0 <= id < |s.subs| && s.subs[id].ended.None? ==> Emptied(s.subs[id])
  }

  predicate Emptied(c: Sub) {
    c.ch == [] && c.hand == [] && c.q == []
  }

  // ---- How much work is left ----

  function SubWork(c: Sub): nat {
    4 * |c.q| + 3 * |c.hand| + 2 * |c.ch|
    + match c.pump case Unstarted => 2 case Waiting => 1 case _ => 0
  }

  function SubsWork(subs: seq<Sub>): nat {
    if subs == [] then 0 else SubsWork(subs[..|subs| - 1]) + SubWork(subs[|subs| - 1])
  }

  lemma {:induction false} SubsWorkUpdate(subs: seq<Sub>, i: nat, c: Sub)
    requires i < |subs|
    ensures SubsWork(subs[i := c]) == SubsWork(subs) - SubWork(subs[i]) + SubWork(c)
  {
    var n := |subs| - 1;
    hide SubWork;
    if i < n {
      SubsWorkUpdate(subs[..n], i, c);
      assert subs[i := c][..n] == subs[..n][i := c];
    } else {
      assert subs[i := c][..n] == subs[..n];
    }
  }

  // A message still to be broadcast costs some steps for each of n subscriptions.
  function Cost(n: nat): nat {
    5 * n + 4
  }

  function CasterWork(s: State): nat {
    |s.q| * Cost(|s.list|)
    + match s.caster case Parked => 1 case Holding(_) => Cost(|s.list|) - 1 case _ => 0
  }

  function LockWork(s: State): nat {
    match s.lock
    case Joining(_) => 1
    case Leaving(_) => 2
    case Uncounted(_) => 1
    case Sending(_, next) => 1 + 5 * (if next <= |s.list| then |s.list| - next else 0)
    case _ => 0
  }

  function Work(s: State): nat {
    SubsWork(s.subs) + CasterWork(s) + LockWork(s)
  }

  // ---- There is always a step, and it leaves less work ----

  // The step does not find an empty queue.
  predicate Moves(s: State, a: Action) {
    && GoesOn(a)
    && (a.CasterTakes? ==> s.q != [])
    && (a.Do? && a.step.Next? ==> a.id < |s.subs| && s.subs[a.id].q != [])
  }

  lemma LockStep(s: State) returns (a: Action)
    requires Listed(s) && Locked(s) && !s.closed && !s.lock.Free?
    ensures Enabled(s, a) && Moves(s, a)
  {
    match s.lock
    case Joining(id) =>
      assert id in s.list;
      a := SubscribeEnd;
    case Leaving(_) => a := UnsubscribeCount;
    case Uncounted(_) => a := UnsubscribeEnd;
    case Sending(_, next) =>
      if next < |s.list| {
        assert s.list[next] in s.list;
        a := CasterSends;
      } else {
        a := CasterUnlocks;
      }
    case _ => assert false;
  }

  lemma SubStep(c: Sub) returns (step: LocalStep)
    requires Sane(c) && c.ended.None? && !Emptied(c)
    ensures CanDo(c, step) && !step.Return? && !step.CloseChannel? && (step.Next? ==> c.q != [])
  {
    step := if c.ch != [] then Read
            else match c.pump
              case Unstarted => Start
              case Waiting => Wake
              case Working => Next
              case _ => Send;
  }

  lemma SomeStep(s: State) returns (a: Action)
    requires Safe(s) && !s.closed && !AllRead(s)
    ensures Enabled(s, a) && Moves(s, a)
  {
    hide Listed, Counted, Published, Sane, CanDo, Emptied;
    if !s.lock.Free? {
      a := LockStep(s);
    } else if s.caster.Holding? {
      a := CasterLocks;
    } else if s.q != [] {
      a := if s.caster.Parked? then CasterWakes else CasterTakes;
    } else {
      var id :| 0 <= id < |s.subs| && s.subs[id].ended.None? && !Emptied(s.subs[id]);
      assert Delivered(s, id);
      var step := SubStep(s.subs[id]);
      a := Do(id, step);
    }
  }

  lemma LessLocal(c: Sub, step: LocalStep)
    requires CanDo(c, step) && !step.Return? && !step.CloseChannel? && (step.Next? ==> c.q != [])
    requires Sane(c)
    ensures SubWork(Local(c, step)) < SubWork(c)
  {}

  lemma LessDo(s: State, id: nat, step: LocalStep)
    requires Enabled(s, Do(id, step)) && Moves(s, Do(id, step)) && Sane(s.subs[id])
    ensures Work(Apply(s, Do(id, step))) < Work(s)
  {
    LessLocal(s.subs[id], step);
    SubsWorkUpdate(s.subs, id, Local(s.subs[id], step));
    hide SubsWork, SubWork, Local, CanDo, Cost;
  }

  lemma LessSend(s: State)
    requires Enabled(s, CasterSends)
    ensures Work(Apply(s, CasterSends)) < Work(s)
  {
    var id := s.list[s.lock.next];
    SubsWorkUpdate(s.subs, id, s.subs[id].(q := s.subs[id].q + [s.lock.msg]));
    hide SubsWork, Cost;
  }

  lemma LessUnsubscribeEnd(s: State)
    requires Enabled(s, UnsubscribeEnd)
    ensures Work(Apply(s, UnsubscribeEnd)) < Work(s)
  {
    var id := s.lock.id;
    SubsWorkUpdate(s.subs, id, s.subs[id].(ended := Some(|s.broadcast|)));
    hide SubsWork, Cost;
  }

  lemma LessTake(s: State)
    requires Enabled(s, CasterTakes) && s.q != []
    ensures Work(Apply(s, CasterTakes)) < Work(s)
  {
    var n, c := |s.q|, Cost(|s.list|);
    hide SubsWork, Cost;
    assert n * c == (n - 1) * c + c;
  }

  lemma LessOther(s: State, a: Action)
    requires Enabled(s, a) && Moves(s, a)
    requires !a.Do? && !a.CasterSends? && !a.CasterTakes? && !a.UnsubscribeEnd?
    ensures Work(Apply(s, a)) < Work(s)
  {
    hide SubsWork;
  }

  lemma LessWork(s: State, a: Action)
    requires Enabled(s, a) && Moves(s, a) && AllDelivered(s)
    ensures Work(Apply(s, a)) < Work(s)
  {
    hide Work, Apply, Delivered;
    match a
    case Do(id, step) =>
      assert Delivered(s, id);
      SaneOf(s, id);
      LessDo(s, id, step);
    case CasterSends => LessSend(s);
    case CasterTakes => LessTake(s);
    case UnsubscribeEnd => LessUnsubscribeEnd(s);
    case _ => LessOther(s, a);
  }

  lemma SaneOf(s: State, id: nat)
    requires id < |s.subs| && Delivered(s, id)
    ensures Sane(s.subs[id])
  {}

  // ---- Down to nothing ----

  // Nobody calls Close, Subscribe, Unsubscribe or Publish in longer after run.
  ghost predicate Continues(run: seq<Action>, longer: seq<Action>) {
    && |run| <= |longer| && longer[..|run|] == run
    && forall i :: |run| <= i < |longer| ==> GoesOn(longer[i])
  }

  lemma Onward(run: seq<Action>, a: Action, longer: seq<Action>)
    requires GoesOn(a) && Continues(run + [a], longer)
    ensures Continues(run, longer)
  {
    assert longer[..|run|] == longer[..|run| + 1][..|run|] == run;
    assert longer[|run|] == longer[..|run| + 1][|run|] == a;
  }

  lemma OneMore(run: seq<Action>, a: Action)
    requires Executes(run) && Enabled(After(run), a)
    ensures Executes(run + [a]) && After(run + [a]) == Apply(After(run), a)
  {
    hide Enabled, Apply;
    assert (run + [a])[..|run|] == run;
  }

  lemma StaysOpen(s: State, a: Action)
    requires Enabled(s, a) && GoesOn(a)
    ensures Apply(s, a).closed == s.closed && Apply(s, a).accepted == s.accepted
    ensures |Apply(s, a).subs| == |s.subs|
  {
    hide Local;
  }

  // A subscription that nobody is ending stays.
  ghost predicate Stays(s: State, id: nat) {
    id < |s.subs| && s.subs[id].ended.None? && !Limbo(s, id)
  }

  lemma StaysLive(s: State, a: Action, id: nat)
    requires Enabled(s, a) && GoesOn(a) && Stays(s, id)
    ensures Stays(Apply(s, a), id)
  {}

  lemma {:induction false} ReadOn(run: seq<Action>) returns (longer: seq<Action>)
    requires Executes(run) && !After(run).closed
    ensures Executes(longer) && Continues(run, longer) && AllRead(After(longer))
    ensures !After(longer).closed && After(longer).accepted == After(run).accepted
    ensures forall id: nat :: Stays(After(run), id) ==> Stays(After(longer), id)
    decreases Work(After(run))
  {
    var s := After(run);
    EveryRunIsSafe(run);
    if AllRead(s) {
      longer := run;
    } else {
      var a := SomeStep(s);
      OneMore(run, a);
      LessWork(s, a);
      StaysOpen(s, a);
      forall id: nat | Stays(s, id) ensures Stays(Apply(s, a), id) { StaysLive(s, a, id); }
      hide AllRead, Executes, After, Enabled, Apply, Work, Stays, Continues, Safe;
      longer := ReadOn(run + [a]);
      Onward(run, a, longer);
    }
  }

  lemma ReadIsAccepted(run: seq<Action>)
    requires Executes(run) && !After(run).closed && AllRead(After(run))
    ensures var s := After(run);
            forall id :: 0 <= id < |s.subs| && s.subs[id].ended.None? ==>
              s.subs[id].from <= |s.accepted| && s.subs[id].read == s.accepted[s.subs[id].from..]
  {
    var s := After(run);
    EveryRunIsSafe(run);
    hide Listed, Counted, Executes, After;
    NothingOnTheWay(s);
    forall id | 0 <= id < |s.subs| && s.subs[id].ended.None?
      ensures s.subs[id].from <= |s.accepted| && s.subs[id].read == s.accepted[s.subs[id].from..]
    {
      assert Delivered(s, id);
      var c := s.subs[id];
      assert Stream(c) == c.read;
    }
  }

  lemma NothingOnTheWay(s: State)
    requires Published(s) && !s.closed && AllRead(s)
    ensures s.accepted == s.broadcast
  {}

  // From every state a run reaches before Close is called, the goroutines at work can
  // bring all accepted messages to the reader of every subscription that nobody is
  // ending, from the first broadcast after it began on: no lock, channel or wait is in
  // the way for ever.
  lemma EveryMessageCanBeRead(run: seq<Action>) returns (longer: seq<Action>)
    requires Executes(run) && !After(run).closed
    ensures Executes(longer) && Continues(run, longer)
    ensures var s := After(longer);
            && s.accepted == After(run).accepted
            && forall id: nat :: Stays(After(run), id) ==>
                 && id < |s.subs| && s.subs[id].from <= |s.accepted|
                 && s.subs[id].read == s.accepted[s.subs[id].from..]
  {
    longer := ReadOn(run);
    ReadIsAccepted(longer);
    hide AllRead, Executes, After, Continues;
  }
}
