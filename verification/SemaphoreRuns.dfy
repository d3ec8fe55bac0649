// Callers of the session semaphore interleaved with its resizing. Acquire and
// Release read the current reference first and use it later; resizing holds the
// lock, so while it runs no caller reads the reference, but late calls still act
// on the one they have.
module SemaphoreRuns {
  import opened Wrappers
  import opened SessionSemaphore

  // While a resize runs, the semaphore being filled and the rounds left.
  datatype Resize = Idle | Filling(next: Tokens, left: nat)

  // sems are all semaphores so far, the current one last; acquiring and releasing
  // hold the references that calls have read and not used yet.
  // straddled: releases in flight when a resize began.
  // uncounted: slots taken from an old semaphore too late, or left behind in one.
  // wasted: tokens put into a full channel, or into one that is no longer current.
  datatype State = State(sems: seq<Tokens>, resize: Resize, holders: nat,
                         acquiring: multiset<nat>, releasing: multiset<nat>,
                         straddled: nat, uncounted: nat, wasted: nat)

  datatype Action =
    | ReadForAcquire
    | Take(ref: nat)
    | ReadForRelease
    | Put(ref: nat)
    | BeginResize(limit: nat)
    | Carry
    | FoundFull
    | Swap

  function Cur(s: State): nat
    requires s.sems != []
  {
    |s.sems| - 1
  }

  function Current(s: State): Tokens
    requires s.sems != []
  {
    s.sems[|s.sems| - 1]
  }

  // Slots carried over so far by the resize under way.
  function Carried(s: State): int {
    if s.resize.Filling? then Used(s.resize.next) else 0
  }

  predicate Enabled(s: State, a: Action)
    requires s.sems != []
  {
    match a
    case ReadForAcquire => s.resize.Idle?
    case Take(ref) => ref in s.acquiring && ref < |s.sems| && s.sems[ref].free > 0
    case ReadForRelease => s.resize.Idle? && s.holders > 0
    case Put(ref) => ref in s.releasing && ref < |s.sems|
    case BeginResize(limit) => s.resize.Idle? && limit >= 1
    case Carry => s.resize.Filling? && s.resize.left > 0 && Current(s).free < Current(s).cap && s.resize.next.free > 0
    case FoundFull => s.resize.Filling? && Current(s).free == Current(s).cap
    case Swap => s.resize.Filling? && s.resize.left == 0
  }

  function Apply(s: State, a: Action): (t: State)
    requires s.sems != [] && Enabled(s, a)
    ensures t.sems != []
  {
    match a
    case ReadForAcquire => s.(acquiring := s.acquiring + multiset{Cur(s)})
    case Take(ref) =>
      s.(sems := s.sems[ref := Less(s.sems[ref])], acquiring := s.acquiring - multiset{ref}, holders := s.holders + 1,
      uncounted := s.uncounted + if ref == Cur(s) then 0 else 1)
    case ReadForRelease => s.(holders := s.holders - 1, releasing := s.releasing + multiset{Cur(s)})
    case Put(ref) =>
      s.(sems := s.sems[ref := More(s.sems[ref])], releasing := s.releasing - multiset{ref},
      wasted := s.wasted + if ref == Cur(s) && Current(s).free < Current(s).cap then 0 else 1)
    case BeginResize(limit) =>
      s.(resize := Filling(Tokens(limit, limit), limit), straddled := s.straddled + s.releasing[Cur(s)])
    case Carry =>
      s.(sems := s.sems[Cur(s) := More(Current(s))], resize := Filling(Less(s.resize.next), s.resize.left - 1))
    case FoundFull => s.(resize := Filling(s.resize.next, 0))
    case Swap =>
      s.(sems := s.sems + [s.resize.next], resize := Idle,
      uncounted := s.uncounted + if Used(Current(s)) >= 0 then Used(Current(s)) else 0)
  }

  function Initial(limit: nat): State {
    State([Tokens(limit, limit)], Idle, 0, multiset{}, multiset{}, 0, 0, 0)
  }

  predicate Executes(limit: nat, run: seq<Action>)
    decreases |run|, 0
  {
    run == [] || (Executes(limit, run[..|run| - 1]) && Enabled(After(limit, run[..|run| - 1]), run[|run| - 1]))
  }

  function After(limit: nat, run: seq<Action>): (s: State)
    requires Executes(limit, run)
    ensures s.sems != []
    decreases |run|, 1
  {
    if run == [] then Initial(limit) else Apply(After(limit, run[..|run| - 1]), run[|run| - 1])
  }

  // No channel holds more tokens than fit, and every reference read is one of the semaphores.
  ghost predicate Formed(s: State) {
    && s.sems != []
    && (forall i :: 0 <= i < |s.sems| ==> Sound(s.sems[i]))
    && (forall r :: r in s.acquiring || r in s.releasing ==> r < |s.sems|)
    && (s.resize.Filling? ==> Sound(s.resize.next) && s.resize.left <= s.resize.next.free)
  }

  // A slot in use has a holder, a release on its way, or a release that straddled a resize.
  ghost predicate Explained(s: State)
    requires s.sems != []
  {
    Used(Current(s)) + Carried(s) <= s.holders + (if s.resize.Idle? then s.releasing[Cur(s)] else 0) + s.straddled
  }

  // A holder has a slot in use, except those an old semaphore admitted or a smaller one cannot count.
  ghost predicate Limited(s: State)
    requires s.sems != []
  {
    s.holders + s.releasing[Cur(s)] <= Used(Current(s)) + Carried(s) + s.uncounted
  }

  // Every slot in use is held, on its way back, or was wasted; every holder has one,
  // except the uncounted.
  ghost predicate Balanced(s: State)
    requires s.sems != []
  {
    Used(Current(s)) + Carried(s) + s.uncounted == s.holders + |s.releasing| + s.wasted
  }

  lemma FormedStep(s: State, a: Action)
    requires Formed(s) && Enabled(s, a)
    ensures Formed(Apply(s, a))
  {
    SoundStep(s, a);
    KnownStep(s, a);
    FillingStep(s, a);
    hide Apply, Enabled, Sound;
  }

  lemma SoundStep(s: State, a: Action)
    requires Formed(s) && Enabled(s, a)
    ensures forall i :: 0 <= i < |Apply(s, a).sems| ==> Sound(Apply(s, a).sems[i])
  {
    var t := Apply(s, a);
    forall i | 0 <= i < |t.sems| ensures Sound(t.sems[i]) {
      if i < |s.sems| { assert Sound(s.sems[i]); }
    }
  }

  lemma KnownStep(s: State, a: Action)
    requires Formed(s) && Enabled(s, a)
    ensures var t := Apply(s, a); forall r :: r in t.acquiring || r in t.releasing ==> r < |t.sems|
  {
    hide Sound, Used, Less, More;
  }

  lemma FillingStep(s: State, a: Action)
    requires Formed(s) && Enabled(s, a)
    ensures var t := Apply(s, a); t.resize.Filling? ==> Sound(t.resize.next) && t.resize.left <= t.resize.next.free
  {}

  lemma ExplainedStep(s: State, a: Action)
    requires Formed(s) && Enabled(s, a) && Explained(s)
    ensures Explained(Apply(s, a))
  {
    match a
    case Take(ref) => ExplainedTake(s, ref);
    case Put(ref) => ExplainedPut(s, ref);
    case Swap => ExplainedSwap(s);
    case _ =>
  }

  lemma ExplainedTake(s: State, ref: nat)
    requires Formed(s) && Enabled(s, Take(ref)) && Explained(s)
    ensures Explained(Apply(s, Take(ref)))
  {}

  lemma ExplainedPut(s: State, ref: nat)
    requires Formed(s) && Enabled(s, Put(ref)) && Explained(s)
    ensures Explained(Apply(s, Put(ref)))
  {
    var t := Apply(s, Put(ref));
    assert t.releasing[Cur(s)] == s.releasing[Cur(s)] - if ref == Cur(s) then 1 else 0;
  }

  lemma ExplainedSwap(s: State)
    requires Formed(s) && Enabled(s, Swap) && Explained(s)
    ensures Explained(Apply(s, Swap))
  {}

  lemma LimitedStep(s: State, a: Action)
    requires Formed(s) && Enabled(s, a) && Limited(s)
    ensures Limited(Apply(s, a))
  {
  }

  lemma BalancedStep(s: State, a: Action)
    requires Formed(s) && Enabled(s, a) && Balanced(s)
    ensures Balanced(Apply(s, a))
  {}

  lemma {:induction false} EveryRun(limit: nat, run: seq<Action>)
    requires Executes(limit, run)
    ensures var s := After(limit, run); Formed(s) && Explained(s) && Limited(s) && Balanced(s)
  {
    if run != [] {
      var s, a := After(limit, run[..|run| - 1]), run[|run| - 1];
      EveryRun(limit, run[..|run| - 1]);
      FormedStep(s, a);
      ExplainedStep(s, a);
      LimitedStep(s, a);
      BalancedStep(s, a);
    }
  }

  // Slots in use never exceed the capacity, nor the holders, the releases on their
  // way and the straddled ones together.
  lemma InUseIsBounded(limit: nat, run: seq<Action>)
    requires Executes(limit, run)
    ensures var s := After(limit, run);
            && 0 <= Used(Current(s)) <= Current(s).cap
            && Used(Current(s)) <= s.holders + s.releasing[Cur(s)] + s.straddled
  {
    EveryRun(limit, run);
  }

  // Over every run, the slots in use, those being carried over and the uncounted ones
  // together are the holders, the releases on their way and the wasted tokens. So the
  // limit is kept exactly while no more slots are uncounted than wasted or free.
  lemma SlotsBalance(limit: nat, run: seq<Action>)
    requires Executes(limit, run)
    ensures var s := After(limit, run);
            && Used(Current(s)) + Carried(s) + s.uncounted == s.holders + |s.releasing| + s.wasted
            && (s.resize.Idle? ==>
                  (s.holders + |s.releasing| <= Current(s).cap <==> s.uncounted <= s.wasted + Current(s).free))
  {
    EveryRun(limit, run);
  }

  // Once all calls have ended, every slot is free again exactly when as many tokens were
  // wasted as slots went uncounted.
  lemma AllFreeAtRest(limit: nat, run: seq<Action>)
    requires Executes(limit, run)
    requires var s := After(limit, run); s.resize.Idle? && s.holders == 0 && s.releasing == multiset{}
    ensures var s := After(limit, run); Current(s).free == Current(s).cap <==> s.wasted == s.uncounted
  {
    EveryRun(limit, run);
  }

  // Without a straddled release they are.
  lemma AllFreeUnlessStraddled(limit: nat, run: seq<Action>)
    requires Executes(limit, run)
    requires var s := After(limit, run);
             s.resize.Idle? && s.holders == 0 && s.releasing[Cur(s)] == 0 && s.straddled == 0
    ensures var s := After(limit, run); Current(s).free == Current(s).cap
  {
    EveryRun(limit, run);
  }

  // As long as no slot was left behind or taken too late, the limit is kept.
  lemma HoldersWithinCapacity(limit: nat, run: seq<Action>)
    requires Executes(limit, run)
    requires After(limit, run).resize.Idle? && After(limit, run).uncounted == 0
    ensures var s := After(limit, run); s.holders + s.releasing[Cur(s)] <= Current(s).cap
  {
    EveryRun(limit, run);
  }

  // ---- A resize that nothing interrupts ----

  function Finished(s: State): (t: State)
    requires Formed(s) && s.resize.Filling?
    ensures t.sems != []
    decreases s.resize.left
  {
    if s.resize.left == 0 then Apply(s, Swap)
    else if Current(s).free == Current(s).cap then Apply(Apply(s, FoundFull), Swap)
    else Finished(Apply(s, Carry))
  }

  lemma {:induction false} FinishedIs(s: State)
    requires Formed(s) && s.resize.Filling?
    ensures var n := Min(Used(Current(s)), s.resize.left);
            && Finished(s).sems == s.sems[Cur(s) := Tokens(Current(s).cap, Current(s).free + n)]
                                   + [Tokens(s.resize.next.cap, s.resize.next.free - n)]
            && Finished(s) == s.(sems := Finished(s).sems, resize := Idle,
                                 uncounted := s.uncounted + Used(Current(s)) - n)
    decreases s.resize.left
  {
    if s.resize.left > 0 && Current(s).free < Current(s).cap {
      FormedStep(s, Carry);
      FinishedIs(Apply(s, Carry));
      assert s.sems[Cur(s) := More(Current(s))][Cur(s) := Tokens(Current(s).cap, Finished(s).sems[Cur(s)].free)]
             == s.sems[Cur(s) := Tokens(Current(s).cap, Finished(s).sems[Cur(s)].free)];
    } else {
      assert s.sems[Cur(s) := Current(s)] == s.sems;
    }
  }

  // It takes over as many slots as fit; what does not fit is no longer counted.
  lemma ResizeCarriesOver(s: State, limit: nat)
    requires Formed(s) && Enabled(s, BeginResize(limit))
    ensures Formed(Apply(s, BeginResize(limit)))
    ensures var t := Finished(Apply(s, BeginResize(limit)));
            && Current(t).cap == limit
            && Used(Current(t)) == Min(Used(Current(s)), limit)
            && t.uncounted - s.uncounted == Max(0, Used(Current(s)) - limit)
            && t.holders == s.holders
  {
    FormedStep(s, BeginResize(limit));
    FinishedIs(Apply(s, BeginResize(limit)));
  }

  // ---- A straddled release may cost a slot ----

  lemma Extend(limit: nat, run: seq<Action>, a: Action)
    requires Executes(limit, run) && Enabled(After(limit, run), a)
    ensures Executes(limit, run + [a]) && After(limit, run + [a]) == Apply(After(limit, run), a)
  {
    assert (run + [a])[..|run|] == run;
  }

  lemma OneHolder(limit: nat) returns (run: seq<Action>)
    requires limit > 0
    ensures Executes(limit, run)
    ensures After(limit, run) == State([Tokens(limit, limit - 1)], Idle, 1, multiset{}, multiset{}, 0, 0, 0)
  {
    var start := Initial(limit);
    assert Executes(limit, []) && After(limit, []) == start;
    hide Executes, After;
    run := Then(limit, [], ReadForAcquire,
                State([Tokens(limit, limit)], Idle, 0, multiset{0}, multiset{}, 0, 0, 0));
    run := Then(limit, run, Take(0),
                State([Tokens(limit, limit - 1)], Idle, 1, multiset{}, multiset{}, 0, 0, 0));
  }

  // One caller, whose release read the old reference just before a resize: all
  // calls have ended, and one slot of the new semaphore stays taken.
  lemma StraddledReleaseLeaks(limit: nat, m: nat) returns (run: seq<Action>)
    requires limit > 0 && m > 0
    ensures Executes(limit, run)
    ensures var s := After(limit, run);
            && s.resize.Idle? && s.holders == 0 && s.acquiring == multiset{} == s.releasing
            && s.straddled == 1 && Current(s) == Tokens(m, m - 1)
  {
    hide Executes, After;
    run := OneHolder(limit);
    var full := Tokens(limit, limit);
    run := Then(limit, run, ReadForRelease,
                State([Tokens(limit, limit - 1)], Idle, 0, multiset{}, multiset{0}, 0, 0, 0));
    run := Then(limit, run, BeginResize(m),
                State([Tokens(limit, limit - 1)], Filling(Tokens(m, m), m), 0, multiset{}, multiset{0}, 1, 0, 0));
    run := Then(limit, run, Carry,
                State([full], Filling(Tokens(m, m - 1), m - 1), 0, multiset{}, multiset{0}, 1, 0, 0));
    run := Then(limit, run, FoundFull,
                State([full], Filling(Tokens(m, m - 1), 0), 0, multiset{}, multiset{0}, 1, 0, 0));
    run := Then(limit, run, Swap,
                State([full, Tokens(m, m - 1)], Idle, 0, multiset{}, multiset{0}, 1, 0, 0));
    run := Then(limit, run, Put(0),
                State([full, Tokens(m, m - 1)], Idle, 0, multiset{}, multiset{}, 1, 0, 1));
  }

  // The same release, its token back before the first slot is carried over: nothing is lost.
  lemma StraddledReleaseInTime(limit: nat, m: nat) returns (run: seq<Action>)
    requires limit > 0 && m > 0
    ensures Executes(limit, run)
    ensures var s := After(limit, run);
            && s.resize.Idle? && s.holders == 0 && s.acquiring == multiset{} == s.releasing
            && s.straddled == 1 && Current(s) == Tokens(m, m)
  {
    hide Executes, After;
    run := OneHolder(limit);
    var full := Tokens(limit, limit);
    run := Then(limit, run, ReadForRelease,
                State([Tokens(limit, limit - 1)], Idle, 0, multiset{}, multiset{0}, 0, 0, 0));
    run := Then(limit, run, BeginResize(m),
                State([Tokens(limit, limit - 1)], Filling(Tokens(m, m), m), 0, multiset{}, multiset{0}, 1, 0, 0));
    run := Then(limit, run, Put(0),
                State([full], Filling(Tokens(m, m), m), 0, multiset{}, multiset{}, 1, 0, 0));
    run := Then(limit, run, FoundFull,
                State([full], Filling(Tokens(m, m), 0), 0, multiset{}, multiset{}, 1, 0, 0));
    run := Then(limit, run, Swap,
                State([full, Tokens(m, m)], Idle, 0, multiset{}, multiset{}, 1, 0, 0));
  }

  lemma Then(limit: nat, run: seq<Action>, a: Action, t: State) returns (longer: seq<Action>)
    requires Executes(limit, run) && Enabled(After(limit, run), a) && Apply(After(limit, run), a) == t
    ensures Executes(limit, longer) && After(limit, longer) == t
  {
    Extend(limit, run, a);
    longer := run + [a];
  }
}
