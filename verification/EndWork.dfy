// The session manager's run-once hook, as the class that holds it and as interleaved
// steps of any number of calls.
module EndWork {
  import opened Wrappers
  import opened WaitLoop

  type Id = string

  // The manager's own fields; hookRuns counts what the hook has done.
  class Manager {
    var sessions: set<Id>
    var hookSet: bool
    var endWork: set<Id>
    var endWorkDone: set<Id>
    ghost var hookRuns: multiset<Id>

    // Marks outlive their sessions; the hook ran at most once for a marked id, never for others.
    ghost predicate Valid()
      reads this
    {
      endWorkDone == endWork && forall id :: hookRuns[id] <= if id in endWork then 1 else 0
    }

    constructor ()
      ensures Valid() && sessions == {} && !hookSet
    {
      sessions, hookSet, endWork, endWorkDone, hookRuns := {}, false, {}, {}, multiset{};
    }

    method SetShutdownHook(on: bool)
      modifies this`hookSet
      ensures hookSet == on
    {
      hookSet := on;
    }

    method AddSession(id: Id)
      modifies this`sessions
      ensures sessions == old(sessions) + {id}
    {
      sessions := sessions + {id};
    }

    // Cancelling never runs the hook.
    method CancelSession(id: Id)
      modifies this`sessions
      ensures sessions == old(sessions) - {id}
    {
      if id in sessions { sessions := sessions - {id}; }
    }

    method RunEndWork(id: Id)
      requires Valid()
      modifies this`endWork, this`endWorkDone, this`hookRuns
      ensures Valid() && (id in sessions ==> EndWorkDone(id))
      ensures endWork == if id in sessions then old(endWork) + {id} else old(endWork)
      ensures hookRuns == if id in sessions && id !in old(endWork) && hookSet
                          then old(hookRuns) + multiset{id} else old(hookRuns)
    {
      if id !in sessions || id in endWork { return; }
      endWork := endWork + {id};
      if hookSet { hookRuns := hookRuns + multiset{id}; }
      endWorkDone := endWorkDone + {id};
    }

    function EndWorkDone(id: Id): bool
      reads this
    {
      id in endWorkDone
    }
  }

  // ---- Calls that overlap ----

  // How far a call of RunEndWork has got.
  datatype Phase = Found | Won | InHook | Leaving

  datatype Call = Call(id: Id, phase: Phase)

  // entered and left count starts and returns of the hook per session. events are what
  // one client's wait loop, for the session token, has met so far.
  datatype State = State(sessions: set<Id>, hookSet: bool, started: set<Id>, done: set<Id>,
                         calls: multiset<Call>, entered: multiset<Id>, left: multiset<Id>,
                         events: seq<Event>)

  datatype Action =
    | SetHook(on: bool)
    | Add(id: Id)
    | Cancel(id: Id)
    | Ask(id: Id)
    | LoadOrStore(id: Id)
    | Begin(id: Id)
    | HookReturns(id: Id)
    | Store(id: Id)
    | Client(e: Event)

  predicate Enabled(s: State, token: Id, a: Action) {
    match a
    case SetHook(_) => true
    case Add(_) => true
    case Cancel(_) => true
    case Ask(id) => id in s.sessions
    case LoadOrStore(id) => Call(id, Found) in s.calls
    case Begin(id) => Call(id, Won) in s.calls
    case HookReturns(id) => Call(id, InHook) in s.calls
    case Store(id) => Call(id, Leaving) in s.calls
    case Client(e) =>
      && (e.Tick? && e.hook.Some? ==> e.hook.value == (token in s.done))
      && forall k :: 0 <= k < |s.events| ==> s.events[k].now <= e.now
  }

  function Move(calls: multiset<Call>, id: Id, from: Phase, to: Phase): multiset<Call> {
    calls - multiset{Call(id, from)} + multiset{Call(id, to)}
  }

  function Apply(s: State, a: Action): State {
    match a
    case SetHook(on) => s.(hookSet := on)
    case Add(id) => s.(sessions := s.sessions + {id})
    case Cancel(id) => s.(sessions := s.sessions - {id})
    case Ask(id) => s.(calls := s.calls + multiset{Call(id, Found)})
    case LoadOrStore(id) =>
      if id in s.started then s.(calls := s.calls - multiset{Call(id, Found)})
      else s.(started := s.started + {id}, calls := Move(s.calls, id, Found, Won))
    case Begin(id) =>
      if s.hookSet then s.(entered := s.entered + multiset{id}, calls := Move(s.calls, id, Won, InHook))
      else s.(calls := Move(s.calls, id, Won, Leaving))
    case HookReturns(id) => s.(left := s.left + multiset{id}, calls := Move(s.calls, id, InHook, Leaving))
    case Store(id) => s.(done := s.done + {id}, calls := s.calls - multiset{Call(id, Leaving)})
    case Client(e) => s.(events := s.events + [e])
  }

  const INIT := State({}, false, {}, {}, multiset{}, multiset{}, multiset{}, [])

  ghost predicate Executes(token: Id, run: seq<Action>)
    decreases |run|, 0
  {
    run == [] || (Executes(token, run[..|run| - 1]) && Enabled(After(token, run[..|run| - 1]), token, run[|run| - 1]))
  }

  ghost function After(token: Id, run: seq<Action>): State
    requires Executes(token, run)
    decreases |run|, 1
  {
    if run == [] then INIT else Apply(After(token, run[..|run| - 1]), run[|run| - 1])
  }

  // The call that won, if any, is on exactly one of its stretches until the id is done.
  ghost predicate OnceFor(s: State, id: Id) {
    var won, inside, leaving := s.calls[Call(id, Won)], s.calls[Call(id, InHook)], s.calls[Call(id, Leaving)];
    && won + inside + leaving + One(id in s.done) == One(id in s.started)
    && s.entered[id] == s.left[id] + inside
    && s.entered[id] + won <= One(id in s.started)
  }

  // A client told that the hook is done was told the truth.
  ghost predicate Truthful(s: State, token: Id) {
    && Ordered(s.events)
    && forall k :: 0 <= k < |s.events| && HookDone(s.events[k]) ==> token in s.done
  }

  ghost predicate Safe(s: State, token: Id) {
    Truthful(s, token) && forall id :: OnceFor(s, id)
  }

  lemma Moved(calls: multiset<Call>, id: Id, from: Phase, to: Phase, x: Id, p: Phase)
    requires Call(id, from) in calls && from != to
    ensures Move(calls, id, from, to)[Call(x, p)] ==
            calls[Call(x, p)] - One(x == id && p == from) + One(x == id && p == to)
  {}

  lemma OnceMoved(s: State, a: Action, from: Phase, to: Phase, id: Id)
    requires OnceFor(s, id) && !a.SetHook? && !a.Client? && Call(a.id, from) in s.calls && from != to
    requires (a.LoadOrStore? && from == Found && to == Won && a.id !in s.started) ||
             (a.Begin? && from == Won && to == (if s.hookSet then InHook else Leaving)) ||
             (a.HookReturns? && from == InHook && to == Leaving)
    ensures OnceFor(Apply(s, a), id)
  {
    Moved(s.calls, a.id, from, to, id, Won);
    Moved(s.calls, a.id, from, to, id, InHook);
    Moved(s.calls, a.id, from, to, id, Leaving);
    assert Apply(s, a).calls == Move(s.calls, a.id, from, to);
    hide Move;
  }

  lemma OnceStep(s: State, token: Id, a: Action, id: Id)
    requires OnceFor(s, id) && Enabled(s, token, a)
    ensures OnceFor(Apply(s, a), id)
  {
    if a.LoadOrStore? && a.id !in s.started {
      OnceMoved(s, a, Found, Won, id);
    } else if a.Begin? {
      OnceMoved(s, a, Won, if s.hookSet then InHook else Leaving, id);
    } else if a.HookReturns? {
      OnceMoved(s, a, InHook, Leaving, id);
    } else if a.Store? {
      OnceStored(s, a.id, id);
    } else {
      hide Move, Ordered, HookDone;
    }
  }

  lemma OnceStored(s: State, x: Id, id: Id)
    requires OnceFor(s, id) && Call(x, Leaving) in s.calls
    ensures OnceFor(Apply(s, Store(x)), id)
  {}

  lemma TruthfulStep(s: State, token: Id, a: Action)
    requires Truthful(s, token) && Enabled(s, token, a)
    ensures Truthful(Apply(s, a), token)
  {}

  lemma {:induction false} EveryRunIsSafe(token: Id, run: seq<Action>)
    requires Executes(token, run)
    ensures Safe(After(token, run), token)
  {
    if run != [] {
      var s, a := After(token, run[..|run| - 1]), run[|run| - 1];
      EveryRunIsSafe(token, run[..|run| - 1]);
      hide OnceFor, Truthful, Apply, Enabled;
      TruthfulStep(s, token, a);
      forall id ensures OnceFor(Apply(s, a), id) { OnceStep(s, token, a, id); }
    }
  }

  // However often the work is requested, the hook starts at most once per session, and
  // the session counts as done only after the hook has returned.
  lemma HookRunsOnce(token: Id, run: seq<Action>, id: Id)
    requires Executes(token, run)
    ensures var s := After(token, run);
            && s.left[id] <= s.entered[id] <= 1
            && (id in s.done ==> s.entered[id] == s.left[id])
            && (id in s.done ==> Call(id, InHook) !in s.calls && Call(id, Won) !in s.calls)
  {
    EveryRunIsSafe(token, run);
    assert OnceFor(After(token, run), id);
  }

  // ---- Nothing but the hook is waited for ----

  // How many steps the winning call still has to take.
  function StepsLeft(s: State, id: Id): nat {
    if id in s.done then 0
    else if Call(id, Won) in s.calls then 3
    else if Call(id, InHook) in s.calls then 2
    else 1
  }

  lemma WinnerStep(s: State, token: Id, id: Id) returns (a: Action)
    requires OnceFor(s, id) && id in s.started && id !in s.done
    ensures a in {Begin(id), HookReturns(id), Store(id)} && Enabled(s, token, a)
    ensures id in Apply(s, a).started && StepsLeft(Apply(s, a), id) < StepsLeft(s, id)
  {
    hide Ordered;
    if Call(id, Won) in s.calls {
      a := Begin(id);
    } else if Call(id, InHook) in s.calls {
      a := HookReturns(id);
    } else {
      a := Store(id);
    }
  }

  lemma OneMore(token: Id, run: seq<Action>, a: Action)
    requires Executes(token, run) && Enabled(After(token, run), token, a)
    ensures Executes(token, run + [a]) && After(token, run + [a]) == Apply(After(token, run), a)
  {
    hide Enabled, Apply;
    assert (run + [a])[..|run|] == run;
  }

  lemma WinnerMoves(token: Id, run: seq<Action>, id: Id) returns (a: Action)
    requires Executes(token, run) && id in After(token, run).started && id !in After(token, run).done
    ensures a in {Begin(id), HookReturns(id), Store(id)} && Executes(token, run + [a])
    ensures id in After(token, run + [a]).started
    ensures StepsLeft(After(token, run + [a]), id) < StepsLeft(After(token, run), id)
  {
    EveryRunIsSafe(token, run);
    hide StepsLeft, Executes, After, OnceFor, Apply, Enabled, Truthful;
    assert OnceFor(After(token, run), id);
    a := WinnerStep(After(token, run), token, id);
    OneMore(token, run, a);
  }

  lemma {:induction false} WinnerFinishes(token: Id, run: seq<Action>, id: Id) returns (more: seq<Action>)
    requires Executes(token, run) && id in After(token, run).started
    ensures Executes(token, run + more) && id in After(token, run + more).done
    ensures |more| <= StepsLeft(After(token, run), id)
    ensures forall a <- more :: a in {Begin(id), HookReturns(id), Store(id)}
    decreases StepsLeft(After(token, run), id)
  {
    hide StepsLeft, Executes, After, Apply, Enabled;
    if id in After(token, run).done {
      more := [];
      assert run + more == run;
    } else {
      var a := WinnerMoves(token, run, id);
      var rest := WinnerFinishes(token, run + [a], id);
      more := [a] + rest;
      assert run + more == run + [a] + rest;
    }
  }

  // Once the work has been requested, the session counts as done after at most three
  // more steps of the winning call: nothing but the hook itself is waited for.
  lemma StartedCanBeDone(token: Id, run: seq<Action>, id: Id) returns (more: seq<Action>)
    requires Executes(token, run) && id in After(token, run).started
    ensures Executes(token, run + more) && id in After(token, run + more).done
    ensures |more| <= 3 && forall a <- more :: a in {Begin(id), HookReturns(id), Store(id)}
  {
    more := WinnerFinishes(token, run, id);
  }

  // The wait loop closes done at event j only after the hook has returned.
  lemma ClosedAfterHook(token: Id, run: seq<Action>, start: nat, j: nat)
    requires Executes(token, run)
    requires start < j < |After(token, run).events| && ClosesAt(After(token, run).events, start, j)
    ensures var s := After(token, run);
            token in s.done && s.entered[token] == s.left[token] <= 1
  {
    EveryRunIsSafe(token, run);
    HookRunsOnce(token, run, token);
    var s := After(token, run);
    assert Part(s.events, start + 1, j + 1)[j - start - 1] == s.events[j];
  }
}
