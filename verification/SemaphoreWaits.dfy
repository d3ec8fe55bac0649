// Callers that wait on a semaphore reference they read before a resize: which of them
// can still get a slot, whatever happens afterwards.
module SemaphoreWaits {
  import opened Wrappers
  import opened SessionSemaphore
  import opened SemaphoreRuns

  // No caller can read the reference any more: it is replaced, or about to be.
  predicate Retired(s: State, ref: nat)
    requires s.sems != []
  {
    ref < Cur(s) || (ref == Cur(s) && s.resize.Filling?)
  }

  // The tokens that are in a retired semaphore, or can still get there.
  function Supply(s: State, ref: nat): nat
    requires s.sems != [] && ref < |s.sems|
  {
    s.sems[ref].free + s.releasing[ref] + if ref == Cur(s) && s.resize.Filling? then s.resize.left else 0
  }

  ghost predicate Extends(run: seq<Action>, longer: seq<Action>) {
    |run| <= |longer| && longer[..|run|] == run
  }

  // Some continuation of the run serves everyone who waits on ref.
  ghost predicate CanServeAll(limit: nat, run: seq<Action>, ref: nat) {
    exists longer :: Extends(run, longer) && Executes(limit, longer) && After(limit, longer).acquiring[ref] == 0
  }

  // ---- No step brings more tokens ----

  lemma ShortageStep(s: State, a: Action, ref: nat)
    requires Formed(s) && Enabled(s, a) && Retired(s, ref)
    ensures
      var t := Apply(s, a);
      Retired(t, ref) && t.acquiring[ref] - Supply(t, ref) >= s.acquiring[ref] - Supply(s, ref)
  {
    hide Sound;
  }

  lemma {:induction false} ShortageStays(limit: nat, run: seq<Action>, longer: seq<Action>, ref: nat)
    requires Extends(run, longer) && Executes(limit, run) && Executes(limit, longer)
    requires Retired(After(limit, run), ref)
    ensures
      var s, t := After(limit, run), After(limit, longer);
      Retired(t, ref) && t.acquiring[ref] - Supply(t, ref) >= s.acquiring[ref] - Supply(s, ref)
    decreases |longer|
  {
    if longer == run { return; }
    var init, a := longer[..|longer| - 1], longer[|longer| - 1];
    assert init[..|run|] == run;
    ShortageStays(limit, run, init, ref);
    EveryRun(limit, init);
    ShortageStep(After(limit, init), a, ref);
  }

  // ---- And as many as there are can be used ----

  ghost predicate Roomy(s: State) {
    && (forall i :: 0 <= i < |s.sems| ==> s.sems[i].cap > 0)
    && (s.resize.Filling? ==> s.resize.next.cap > 0)
  }

  lemma RoomyStep(s: State, a: Action)
    requires s.sems != [] && Enabled(s, a) && Roomy(s)
    ensures Roomy(Apply(s, a))
  {}

  lemma {:induction false} AlwaysRoomy(limit: nat, run: seq<Action>)
    requires limit > 0 && Executes(limit, run)
    ensures Roomy(After(limit, run))
  {
    if run != [] {
      AlwaysRoomy(limit, run[..|run| - 1]);
      RoomyStep(After(limit, run[..|run| - 1]), run[|run| - 1]);
      hide Roomy, Apply, Enabled;
    }
  }

  // How far the supply is from being used up.
  function Distance(s: State, ref: nat): int
    requires s.sems != [] && ref < |s.sems|
  {
    2 * Supply(s, ref) - s.sems[ref].free
  }

  // The step that brings a waiter nearer to a slot.
  lemma NextStep(s: State, ref: nat) returns (a: Action)
    requires Formed(s) && Roomy(s) && Retired(s, ref) && s.acquiring[ref] > 0 && Supply(s, ref) > 0
    ensures Enabled(s, a)
    ensures
      var t := Apply(s, a);
      && Retired(t, ref)
      && t.acquiring[ref] - Supply(t, ref) == s.acquiring[ref] - Supply(s, ref)
      && 0 <= Distance(t, ref) < Distance(s, ref)
  {
    assert s.sems[ref].cap > 0;
    if s.sems[ref].free > 0 {
      a := Take(ref);
    } else if s.releasing[ref] > 0 {
      a := Put(ref);
    } else {
      a := Carry;
    }
  }

  lemma ServeNext(limit: nat, run: seq<Action>, ref: nat) returns (next: seq<Action>)
    requires limit > 0 && Executes(limit, run) && Retired(After(limit, run), ref)
    requires After(limit, run).acquiring[ref] > 0 && Supply(After(limit, run), ref) > 0
    ensures |next| == |run| + 1 && next[..|run|] == run && Executes(limit, next)
    ensures
      var s, t := After(limit, run), After(limit, next);
      && Retired(t, ref)
      && t.acquiring[ref] - Supply(t, ref) == s.acquiring[ref] - Supply(s, ref)
      && 0 <= Distance(t, ref) < Distance(s, ref)
  {
    EveryRun(limit, run);
    AlwaysRoomy(limit, run);
    var a := NextStep(After(limit, run), ref);
    Extend(limit, run, a);
    hide Executes, After, Apply, Enabled, Roomy, Formed;
    next := run + [a];
  }

  lemma {:induction false} ServeSome(limit: nat, run: seq<Action>, ref: nat) returns (longer: seq<Action>)
    requires limit > 0 && Executes(limit, run) && Retired(After(limit, run), ref)
    ensures Extends(run, longer) && Executes(limit, longer)
    ensures
      var s := After(limit, run);
      After(limit, longer).acquiring[ref] == Max(0, s.acquiring[ref] - Supply(s, ref))
    decreases Distance(After(limit, run), ref)
  {
    var s := After(limit, run);
    if s.acquiring[ref] == 0 || Supply(s, ref) == 0 {
      longer := run;
    } else {
      hide Executes, After, Supply, Retired, Distance;
      var next := ServeNext(limit, run, ref);
      longer := ServeSome(limit, next, ref);
      assert longer[..|run|] == longer[..|next|][..|run|] == run;
    }
  }

  lemma BeginServes(s: State, ref: nat)
    requires s.sems != [] && ref == Cur(s) && s.resize.Idle? && s.acquiring[ref] > 0
    ensures Enabled(s, BeginResize(s.acquiring[ref]))
    ensures
      var t := Apply(s, BeginResize(s.acquiring[ref]));
      ref < |t.sems| && Retired(t, ref) && t.acquiring[ref] == s.acquiring[ref] <= Supply(t, ref)
  {}

  // A resize serves everyone who waits on the current semaphore.
  lemma ServeCurrent(limit: nat, run: seq<Action>, ref: nat) returns (longer: seq<Action>)
    requires limit > 0 && Executes(limit, run)
    requires var s := After(limit, run); ref == Cur(s) && s.resize.Idle? && s.acquiring[ref] > 0
    ensures Extends(run, longer) && Executes(limit, longer) && After(limit, longer).acquiring[ref] == 0
  {
    var begin := BeginResize(After(limit, run).acquiring[ref]);
    Extend(limit, run, begin);
    BeginServes(After(limit, run), ref);
    hide Executes, After, Apply, Enabled, Supply, Retired;
    longer := ServeSome(limit, run + [begin], ref);
    assert longer[..|run|] == longer[..|run| + 1][..|run|] == run;
  }

  // Of those who wait on a retired semaphore, all but its supply wait for ever: never
  // fewer, whatever comes after the run, and with some continuation no more.
  lemma LeftBehind(limit: nat, run: seq<Action>, ref: nat)
    requires limit > 0 && Executes(limit, run) && Retired(After(limit, run), ref)
    ensures
      var s := After(limit, run);
      var least := Max(0, s.acquiring[ref] - Supply(s, ref));
      && (forall longer :: Extends(run, longer) && Executes(limit, longer) ==>
            After(limit, longer).acquiring[ref] >= least)
      && (exists longer :: Extends(run, longer) && Executes(limit, longer)
            && After(limit, longer).acquiring[ref] == least)
  {
    var s := After(limit, run);
    var least := Max(0, s.acquiring[ref] - Supply(s, ref));
    hide Executes, After, Supply, Retired, Extends;
    forall longer | Extends(run, longer) && Executes(limit, longer)
      ensures After(limit, longer).acquiring[ref] >= least
    {
      ShortageStays(limit, run, longer, ref);
    }
    var best := ServeSome(limit, run, ref);
  }

  // Everyone who waits on a reference can be served exactly when it is the current one
  // and no resize is under way, or as many tokens are left for it as there are waiters.
  lemma AllServedIff(limit: nat, run: seq<Action>, ref: nat)
    requires limit > 0 && Executes(limit, run) && ref < |After(limit, run).sems|
    ensures
      var s := After(limit, run);
      CanServeAll(limit, run, ref) <==> !Retired(s, ref) || s.acquiring[ref] <= Supply(s, ref)
  {
    var s := After(limit, run);
    if Retired(s, ref) {
      LeftBehind(limit, run, ref);
    } else if s.acquiring[ref] > 0 {
      var longer := ServeCurrent(limit, run, ref);
    } else {
      assert Extends(run, run);
    }
  }

  // ---- A caller that waits for ever ----

  ghost predicate Steps(s: State, a: Action, t: State) {
    s.sems != [] && Enabled(s, a) && Apply(s, a) == t
  }

  ghost predicate Comes(run: seq<Action>, s: State) {
    Executes(1, run) && After(1, run) == s
  }

  lemma Next(run: seq<Action>, s: State, a: Action, t: State) returns (longer: seq<Action>)
    requires Comes(run, s) && Steps(s, a, t)
    ensures Comes(longer, t)
  {
    Extend(1, run, a);
    longer := run + [a];
  }

  const FIRST := Tokens(1, 0)

  lemma TwoWaiters() returns (run: seq<Action>)
    ensures Comes(run, State([FIRST], Idle, 1, multiset{0, 0}, multiset{}, 0, 0, 0))
  {
    run := OneHolder(1);
    var none := State([FIRST], Idle, 1, multiset{}, multiset{}, 0, 0, 0);
    var one := State([FIRST], Idle, 1, multiset{0}, multiset{}, 0, 0, 0);
    var two := State([FIRST], Idle, 1, multiset{0, 0}, multiset{}, 0, 0, 0);
    assert Steps(none, ReadForAcquire, one) && Steps(one, ReadForAcquire, two);
    hide Executes, After, Steps;
    run := Next(run, none, ReadForAcquire, one);
    run := Next(run, one, ReadForAcquire, two);
  }

  // The state while m slots are being filled.
  function Resizing(first: Tokens, m: nat, free: nat, left: nat): State {
    State([first], Filling(Tokens(m, free), left), 1, multiset{0, 0}, multiset{}, 0, 0, 0)
  }

  // The state once they are: how many hold a slot, who still waits, who releases.
  function Resized(first: nat, m: nat, free: nat, holders: nat, waiting: multiset<nat>, releasing: multiset<nat>,
                   uncounted: nat, wasted: nat): State {
    State([Tokens(1, first), Tokens(m, free)], Idle, holders, waiting, releasing, 0, uncounted, wasted)
  }

  lemma ResizeSteps(m: nat)
    requires m > 0
    ensures Steps(State([FIRST], Idle, 1, multiset{0, 0}, multiset{}, 0, 0, 0), BeginResize(m),
                  Resizing(FIRST, m, m, m))
    ensures Steps(Resizing(FIRST, m, m, m), Carry, Resizing(Tokens(1, 1), m, m - 1, m - 1))
    ensures Steps(Resizing(Tokens(1, 1), m, m - 1, m - 1), FoundFull, Resizing(Tokens(1, 1), m, m - 1, 0))
  {}

  lemma SwapSteps(m: nat)
    requires m > 0
    ensures Steps(Resizing(Tokens(1, 1), m, m - 1, 0), Swap,
                  Resized(1, m, m - 1, 1, multiset{0, 0}, multiset{}, 0, 0))
    ensures Steps(Resized(1, m, m - 1, 1, multiset{0, 0}, multiset{}, 0, 0), Take(0),
                  Resized(0, m, m - 1, 2, multiset{0}, multiset{}, 1, 0))
  {
    assert multiset{0, 0} - multiset{0} == multiset{0};
    assert [Tokens(1, 1), Tokens(m, m - 1)][0 := FIRST] == [FIRST, Tokens(m, m - 1)];
  }

  // The resize hands the old semaphore one token, which one of the two takes.
  lemma OneWaiterServed(m: nat) returns (run: seq<Action>)
    requires m > 0
    ensures Comes(run, Resized(0, m, m - 1, 2, multiset{0}, multiset{}, 1, 0))
  {
    run := TwoWaiters();
    ResizeSteps(m);
    SwapSteps(m);
    hide Executes, After, Steps, Comes, Resizing, Resized;
    run := Next(run, State([FIRST], Idle, 1, multiset{0, 0}, multiset{}, 0, 0, 0), BeginResize(m),
                Resizing(FIRST, m, m, m));
    run := Next(run, Resizing(FIRST, m, m, m), Carry, Resizing(Tokens(1, 1), m, m - 1, m - 1));
    run := Next(run, Resizing(Tokens(1, 1), m, m - 1, m - 1), FoundFull, Resizing(Tokens(1, 1), m, m - 1, 0));
    run := Next(run, Resizing(Tokens(1, 1), m, m - 1, 0), Swap,
                Resized(1, m, m - 1, 1, multiset{0, 0}, multiset{}, 0, 0));
    run := Next(run, Resized(1, m, m - 1, 1, multiset{0, 0}, multiset{}, 0, 0), Take(0),
                Resized(0, m, m - 1, 2, multiset{0}, multiset{}, 1, 0));
  }

  // The first release fills the new semaphore, the second one finds it full.
  lemma ReleaseSteps(m: nat)
    requires m > 0
    ensures Steps(Resized(0, m, m - 1, 2, multiset{0}, multiset{}, 1, 0), ReadForRelease,
                  Resized(0, m, m - 1, 1, multiset{0}, multiset{1}, 1, 0))
    ensures Steps(Resized(0, m, m - 1, 1, multiset{0}, multiset{1}, 1, 0), Put(1),
                  Resized(0, m, m, 1, multiset{0}, multiset{}, 1, 0))
    ensures Steps(Resized(0, m, m, 1, multiset{0}, multiset{}, 1, 0), ReadForRelease,
                  Resized(0, m, m, 0, multiset{0}, multiset{1}, 1, 0))
    ensures Steps(Resized(0, m, m, 0, multiset{0}, multiset{1}, 1, 0), Put(1),
                  Resized(0, m, m, 0, multiset{0}, multiset{}, 1, 1))
  {
    assert multiset{} + multiset{1} == multiset{1} && multiset{1} - multiset{1} == multiset{};
    assert [FIRST, Tokens(m, m - 1)][1 := Tokens(m, m)] == [FIRST, Tokens(m, m)];
    assert [FIRST, Tokens(m, m)][1 := Tokens(m, m)] == [FIRST, Tokens(m, m)];
  }

  lemma AllReleased(m: nat) returns (run: seq<Action>)
    requires m > 0
    ensures Comes(run, Resized(0, m, m, 0, multiset{0}, multiset{}, 1, 1))
  {
    run := OneWaiterServed(m);
    ReleaseSteps(m);
    hide Executes, After, Steps, Comes, Resized;
    run := Next(run, Resized(0, m, m - 1, 2, multiset{0}, multiset{}, 1, 0), ReadForRelease,
                Resized(0, m, m - 1, 1, multiset{0}, multiset{1}, 1, 0));
    run := Next(run, Resized(0, m, m - 1, 1, multiset{0}, multiset{1}, 1, 0), Put(1),
                Resized(0, m, m, 1, multiset{0}, multiset{}, 1, 0));
    run := Next(run, Resized(0, m, m, 1, multiset{0}, multiset{}, 1, 0), ReadForRelease,
                Resized(0, m, m, 0, multiset{0}, multiset{1}, 1, 0));
    run := Next(run, Resized(0, m, m, 0, multiset{0}, multiset{1}, 1, 0), Put(1),
                Resized(0, m, m, 0, multiset{0}, multiset{}, 1, 1));
  }

  // Two callers wait when a resize begins: in the end every slot is free and nobody
  // holds one, but one of the two still waits on the old semaphore, for ever.
  lemma WaiterForgotten(m: nat) returns (run: seq<Action>)
    requires m > 0
    ensures Executes(1, run)
    ensures
      var s := After(1, run);
      && s.resize.Idle? && s.holders == 0 && s.releasing == multiset{} && Current(s) == Tokens(m, m)
      && s.acquiring == multiset{0} && !CanServeAll(1, run, 0)
  {
    run := AllReleased(m);
    hide Executes, After, CanServeAll;
    AllServedIff(1, run, 0);
  }
}
