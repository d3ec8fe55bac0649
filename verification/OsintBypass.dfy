// One element on its way through a pipeline, and why the OSINT gate changes nothing
// but the route.
module OsintBypass {
  import opened Wrappers
  import opened AssetPipeline

  // An element: its event, the errors and the effective callbacks so far, and how
  // often it was handed to the completion side.
  datatype Elem = Elem(event: Event, errors: seq<string>, trace: seq<string>, exits: nat)

  // What a walk meets: configuration, configured domains, the position from which on
  // the session (or the pipeline's context) is found ended, whether the gate finds it
  // ended, and the order in which the handlers of one position get to the event.
  datatype Env = Env(ts: seq<Transformation>, domains: seq<string>, ends: int, gateSeesEnd: bool,
                     arrange: seq<Handler> -> seq<Handler>)

  ghost predicate FairOrder(env: Env) {
    forall hs: seq<Handler> :: multiset(env.arrange(hs)) == multiset(hs)
  }

  function Exit(e: Elem): Elem {
    e.(exits := e.exits + 1)
  }

  // An element and whether it goes on to the next stage.
  datatype Step = Step(e: Elem, on: bool)

  // handlerTask: an ended session or a panic hands the element over and stops it.
  ghost function Task(h: Handler, env: Env, p: int, e: Elem): Step {
    if env.ends <= p then Step(Exit(e), false)
    else if !Chosen(env.ts, e.event.etype, h) then Step(e, true)
    else
      match h.callback(e.event)
      case Returned(ev) =>
        var trace := if ev == e.event then e.trace else e.trace + [h.name];
        Step(Elem(ev, e.errors, trace, e.exits), true)
      case Failed(ev, err) => Step(Elem(ev, e.errors + [err], e.trace + [h.name], e.exits), true)
      case Panicked(ev, err) => Step(Exit(Elem(ev, e.errors + [err], e.trace + [h.name], e.exits)), false)
  }

  // All handlers of a stage get the same element; it goes on when each lets it.
  ghost function Tasks(hs: seq<Handler>, env: Env, p: int, e: Elem): Step {
    if hs == [] then Step(e, true)
    else
      var first := Task(hs[0], env, p, e);
      var rest := Tasks(hs[1..], env, p, first.e);
      Step(rest.e, first.on && rest.on)
  }

  ghost function StageStep(s: Stage, env: Env, e: Elem): Step {
    Tasks(env.arrange(HandlersOf(s)), env, Position(s), e)
  }

  // The index of the stage registered for a position.
  function Find(stages: seq<Stage>, p: int): Option<nat> {
    if stages == [] then None
    else if !stages[0].Gate? && stages[0].p == p then Some(0)
    else match Find(stages[1..], p)
      case None => None
      case Some(i) => Some(i + 1)
  }

  predicate GatesAhead(stages: seq<Stage>) {
    forall i :: 0 <= i < |stages| && stages[i].Gate? ==>
                  match Find(stages, stages[i].resume) case None => true case Some(j) => i < j < |stages|
  }

  // A configured domain is flagged at the gate.
  ghost function Mark(env: Env, e: Elem): Elem {
    if !env.gateSeesEnd && ExactScopeDomain(e.event, env.domains) && !HasSLDInScope(e.event)
    then e.(event := AddSLDInScope(e.event)) else e
  }

  // From stage i on, to the sink. At the gate a configured domain and a flagged name go
  // on; any other name is put on the queue of the resume stage.
  ghost function Run(stages: seq<Stage>, i: nat, env: Env, e: Elem): Elem
    requires i <= |stages| && GatesAhead(stages)
    decreases |stages| - i
  {
    if i == |stages| then Exit(e)
    else if stages[i].Gate? then
      if env.gateSeesEnd then Exit(e)
      else if ExactScopeDomain(e.event, env.domains) || HasSLDInScope(e.event)
      then Run(stages, i + 1, env, Mark(env, e))
      else
        match Find(stages, stages[i].resume)
        case None => Run(stages, i + 1, env, e)
        case Some(j) => Run(stages, j, env, e)
    else
      var s := StageStep(stages[i], env, e);
      if s.on then Run(stages, i + 1, env, s.e) else s.e
  }

  // ---- Stages without a gate ----

  ghost function Through(stages: seq<Stage>, env: Env, e: Elem): Step {
    if stages == [] then Step(e, true)
    else
      var s := StageStep(stages[0], env, e);
      if s.on then Through(stages[1..], env, s.e) else s
  }

  ghost function Finish(s: Step): Elem {
    if s.on then Exit(s.e) else s.e
  }

  ghost predicate Gateless(stages: seq<Stage>) {
    forall s <- stages :: !s.Gate?
  }

  // Up to stage k there is no gate: a walk is the walk up to k, continued.
  lemma {:induction false} RunUpTo(stages: seq<Stage>, i: nat, k: nat, env: Env, e: Elem)
    requires i <= k <= |stages| && GatesAhead(stages) && Gateless(stages[i..k])
    ensures var s := Through(stages[i..k], env, e);
            Run(stages, i, env, e) == if s.on then Run(stages, k, env, s.e) else s.e
    decreases k - i
  {
    if i < k {
      assert stages[i] in stages[i..k];
      assert stages[i..k][1..] == stages[i + 1..k];
      assert forall s <- stages[i + 1..k] :: s in stages[i..k];
      var s := StageStep(stages[i], env, e);
      if s.on { RunUpTo(stages, i + 1, k, env, s.e); }
    }
  }

  lemma RunToEnd(stages: seq<Stage>, i: nat, env: Env, e: Elem)
    requires i <= |stages| && GatesAhead(stages) && Gateless(stages[i..])
    ensures Run(stages, i, env, e) == Finish(Through(stages[i..], env, e))
  {
    assert stages[i..|stages|] == stages[i..];
    RunUpTo(stages, i, |stages|, env, e);
  }

  lemma {:induction false} ThroughBoth(a: seq<Stage>, b: seq<Stage>, env: Env, e: Elem)
    ensures var s := Through(a, env, e);
            Through(a + b, env, e) == if s.on then Through(b, env, s.e) else s
  {
    if a == [] {
      assert a + b == b;
    } else {
      assert (a + b)[0] == a[0] && (a + b)[1..] == a[1..] + b;
      var s := StageStep(a[0], env, e);
      if s.on { ThroughBoth(a[1..], b, env, s.e); }
    }
  }

  // ---- Positions ----

  lemma {:induction false} StagesWithin(hs: Handlers, lo: int, hi: int)
    ensures forall s <- Stages(hs, lo, hi) :: !s.Gate? && lo <= s.p < hi && At(hs, s.p) != [] && s == StageAt(hs, s.p)
    decreases hi - lo
  {
    if lo < hi { StagesWithin(hs, lo + 1, hi); }
  }

  lemma {:induction false} FindSkips(a: seq<Stage>, b: seq<Stage>, p: int)
    requires forall s <- a :: s.Gate? || s.p != p
    requires b != [] && !b[0].Gate? && b[0].p == p
    ensures Find(a + b, p) == Some(|a|)
  {
    if a == [] {
      assert a + b == b;
    } else {
      assert (a + b)[0] == a[0] && (a + b)[1..] == a[1..] + b;
      assert a[0] in a && forall s <- a[1..] :: s in a;
      FindSkips(a[1..], b, p);
    }
  }

  // The stages in front of the resume stage, without the gate's position.
  function Lower(hs: Handlers): seq<Stage> { Stages(hs, 1, OSINT_FIRST) }
  function Osint(hs: Handlers): seq<Stage> { Stages(hs, OSINT_FIRST, OSINT_LAST + 1) }
  function Upper(hs: Handlers): seq<Stage> { Stages(hs, OSINT_LAST + 1, LAST_PRIORITY + 1) }

  lemma PartsJoin(hs: Handlers)
    ensures Stages(hs, OSINT_FIRST, LAST_PRIORITY + 1) == Osint(hs) + Upper(hs)
    ensures Stages(hs, 1, LAST_PRIORITY + 1) == Lower(hs) + (Osint(hs) + Upper(hs))
  {
    hide Stages;
    StagesJoin(hs, 1, OSINT_FIRST, LAST_PRIORITY + 1);
    StagesJoin(hs, OSINT_FIRST, OSINT_LAST + 1, LAST_PRIORITY + 1);
  }

  lemma PartsWithin(hs: Handlers)
    ensures forall s <- Lower(hs) :: !s.Gate? && s.p < OSINT_FIRST
    ensures forall s <- Osint(hs) :: !s.Gate? && OSINT_FIRST <= s.p <= OSINT_LAST
    ensures forall s <- Upper(hs) :: !s.Gate? && OSINT_LAST < s.p
  {
    hide Stages;
    StagesWithin(hs, 1, OSINT_FIRST);
    StagesWithin(hs, OSINT_FIRST, OSINT_LAST + 1);
    StagesWithin(hs, OSINT_LAST + 1, LAST_PRIORITY + 1);
  }

  lemma FindResumeStage(a: seq<Stage>, b: seq<Stage>, c: seq<Stage>, resume: int)
    requires forall s <- a :: !s.Gate? && s.p != resume
    requires forall s <- b :: !s.Gate? && s.p != resume
    requires c != [] && !c[0].Gate? && c[0].p == resume
    ensures Find(a + [Gate(resume)] + b + c, resume) == Some(|a| + 1 + |b|)
  {
    hide Find;
    var front := a + [Gate(resume)] + b;
    forall s <- front ensures s.Gate? || s.p != resume {
      assert s in a || s == Gate(resume) || s in b;
    }
    FindSkips(front, c, resume);
  }

  // The parts of a gated pipeline, and where its resume stage is.
  lemma Parts(hs: Handlers, resume: int)
    requires IsResume(hs, Some(resume))
    ensures Gated(hs, resume) == Lower(hs) + [Gate(resume)] + Osint(hs) + Upper(hs)
    ensures Stages(hs, 1, LAST_PRIORITY + 1) == Lower(hs) + (Osint(hs) + Upper(hs))
    ensures Gateless(Lower(hs)) && Gateless(Osint(hs)) && Gateless(Upper(hs))
    ensures Upper(hs) != [] && Upper(hs)[0] == StageAt(hs, resume)
    ensures Find(Gated(hs, resume), resume) == Some(|Lower(hs)| + 1 + |Osint(hs)|)
  {
    hide Stages, Find, Osint, Upper, StageAt;
    PartsJoin(hs);
    PartsWithin(hs);
    UpperStart(hs, resume);
    FindResumeStage(Lower(hs), Osint(hs), Upper(hs), resume);
    assert Gated(hs, resume) == Lower(hs) + [Gate(resume)] + (Osint(hs) + Upper(hs));
  }

  lemma UpperStart(hs: Handlers, resume: int)
    requires IsResume(hs, Some(resume))
    ensures Upper(hs) != [] && Upper(hs)[0] == StageAt(hs, resume)
  {
    StagesJoin(hs, OSINT_LAST + 1, resume, LAST_PRIORITY + 1);
    NoStages(hs, OSINT_LAST + 1, resume);
  }

  lemma Cuts(a: seq<Stage>, x: Stage, b: seq<Stage>, c: seq<Stage>)
    ensures var s := a + [x] + b + c;
            && |s| == |a| + 1 + |b| + |c| && s[..|a|] == a && s[|a|] == x
            && s[|a| + 1..] == b + c && s[|a| + 1 + |b|..] == c
  {}

  lemma OnlyGate(a: seq<Stage>, x: Stage, b: seq<Stage>, c: seq<Stage>)
    requires Gateless(a) && Gateless(b) && Gateless(c)
    ensures var s := a + [x] + b + c; forall i :: 0 <= i < |s| && s[i].Gate? ==> i == |a|
  {
    var s := a + [x] + b + c;
    forall i | 0 <= i < |s|
      ensures i != |a| ==> s[i] in a || s[i] in b || s[i] in c
    {}
  }

  // The gate is there once, in front of the resume stage; without it the pipeline is
  // the plain one.
  lemma GateOnce(hs: Handlers, resume: int)
    requires IsResume(hs, Some(resume))
    ensures var g, k := Gated(hs, resume), |Lower(hs)|;
            && k < |g| && g[k] == Gate(resume)
            && (forall i :: 0 <= i < |g| && g[i].Gate? ==> i == k)
            && g[..k] + g[k + 1..] == Stages(hs, 1, LAST_PRIORITY + 1)
            && (forall s <- g[..k] :: s.p < 20) && (forall s <- g[k + 1..] :: s.p >= 20)
  {
    hide IsResume;
    Parts(hs, resume);
    PartsWithin(hs);
    hide Stages, Find, Gated, Gateless;
    Cuts(Lower(hs), Gate(resume), Osint(hs), Upper(hs));
    OnlyGate(Lower(hs), Gate(resume), Osint(hs), Upper(hs));
  }

  // So a walk never goes back.
  lemma GateGoesAhead(hs: Handlers, resume: int)
    requires IsResume(hs, Some(resume))
    ensures GatesAhead(Gated(hs, resume))
  {
    hide IsResume;
    Parts(hs, resume);
    GateOnce(hs, resume);
    hide Stages, Find, Gated, Gateless;
    Cuts(Lower(hs), Gate(resume), Osint(hs), Upper(hs));
    hide Lower, Osint, Upper;
  }

  // ---- The bypass ----

  // Handlers in the range do nothing for a name that is not flagged.
  ghost predicate RangeIsIdle(hs: Handlers) {
    forall p :: OSINT_FIRST <= p <= OSINT_LAST ==>
                  forall h <- At(hs, p) :: forall ev :: !HasSLDInScope(ev) ==> h.callback(ev) == Returned(ev)
  }

  // Equal up to the number of hand-overs.
  predicate SameResult(a: Elem, b: Elem) {
    a.event == b.event && a.errors == b.errors && a.trace == b.trace
  }

  lemma {:induction false} IdleTasks(hs: seq<Handler>, env: Env, p: int, e: Elem)
    requires forall h <- hs :: forall ev :: !HasSLDInScope(ev) ==> h.callback(ev) == Returned(ev)
    requires !HasSLDInScope(e.event)
    ensures var s := Tasks(hs, env, p, e);
            && SameResult(s.e, e)
            && (s.on <==> hs == [] || p < env.ends)
            && (s.on ==> s.e == e)
  {
    if hs != [] {
      assert hs[0] in hs && forall h <- hs[1..] :: h in hs;
      IdleTasks(hs[1..], env, p, Task(hs[0], env, p, e).e);
    }
  }

  lemma Arranged(env: Env, hs: seq<Handler>)
    requires FairOrder(env)
    ensures |env.arrange(hs)| == |hs| && forall h <- env.arrange(hs) :: h in hs
  {
    var a := env.arrange(hs);
    assert multiset(a) == multiset(hs);
    assert |a| == |multiset(a)| == |hs|;
    forall h | h in a ensures h in hs { assert h in multiset(a); }
  }

  lemma IdleStage(hs: Handlers, p: int, env: Env, e: Elem)
    requires FairOrder(env) && RangeIsIdle(hs) && !HasSLDInScope(e.event)
    requires OSINT_FIRST <= p <= OSINT_LAST && At(hs, p) != []
    ensures var s := StageStep(StageAt(hs, p), env, e);
            SameResult(s.e, e) && (if s.on then s.e == e else env.ends <= p)
  {
    hide Tasks, FairOrder, HasSLDInScope, SameResult;
    Arranged(env, At(hs, p));
    IdleTasks(env.arrange(At(hs, p)), env, p, e);
  }

  lemma StagesHead(hs: Handlers, lo: int, hi: int)
    requires lo < hi
    ensures Stages(hs, lo, hi) == (if At(hs, lo) != [] then [StageAt(hs, lo)] else []) + Stages(hs, lo + 1, hi)
  {}

  // An unflagged name comes out of the range as it went in, unless the session ends there.
  lemma {:induction false} IdleRange(hs: Handlers, lo: int, env: Env, e: Elem)
    requires FairOrder(env) && RangeIsIdle(hs) && !HasSLDInScope(e.event) && OSINT_FIRST <= lo <= OSINT_LAST + 1
    ensures var s := Through(Stages(hs, lo, OSINT_LAST + 1), env, e);
            SameResult(s.e, e) && (if s.on then s.e == e else env.ends <= OSINT_LAST)
    decreases OSINT_LAST + 1 - lo
  {
    hide FairOrder, RangeIsIdle, HasSLDInScope, StageStep, StageAt;
    if lo <= OSINT_LAST {
      StagesHead(hs, lo, OSINT_LAST + 1);
      IdleRange(hs, lo + 1, env, e);
      hide Stages;
      if At(hs, lo) == [] {
        assert Stages(hs, lo, OSINT_LAST + 1) == Stages(hs, lo + 1, OSINT_LAST + 1);
      } else {
        IdleStage(hs, lo, env, e);
        assert Stages(hs, lo, OSINT_LAST + 1)[1..] == Stages(hs, lo + 1, OSINT_LAST + 1);
      }
    }
  }

  lemma {:induction false} EndedTasks(hs: seq<Handler>, env: Env, p: int, e: Elem)
    requires env.ends <= p
    ensures SameResult(Tasks(hs, env, p, e).e, e) && (hs != [] ==> !Tasks(hs, env, p, e).on)
  {
    if hs != [] { EndedTasks(hs[1..], env, p, Task(hs[0], env, p, e).e); }
  }

  // A session that has ended stops an element at the next stage.
  lemma EndedStage(stages: seq<Stage>, env: Env, e: Elem)
    requires FairOrder(env) && stages != [] && HandlersOf(stages[0]) != [] && env.ends <= Position(stages[0])
    ensures var s := Through(stages, env, e); !s.on && SameResult(s.e, e)
  {
    Arranged(env, HandlersOf(stages[0]));
    EndedTasks(env.arrange(HandlersOf(stages[0])), env, Position(stages[0]), e);
  }

  // What the pipeline without a gate does to an element that, on reaching the gate's
  // place, gets the flag there if it is a configured domain.
  ghost function WithoutGate(hs: Handlers, env: Env, e: Elem): Elem {
    var s := Through(Lower(hs), env, e);
    if s.on then Finish(Through(Osint(hs) + Upper(hs), env, Mark(env, s.e))) else s.e
  }

  lemma GatelessBoth(a: seq<Stage>, b: seq<Stage>)
    requires Gateless(a) && Gateless(b)
    ensures Gateless(a + b)
  {}

  lemma RunGate(g: seq<Stage>, k: nat, j: nat, env: Env, e: Elem)
    requires k < j < |g| && g[k].Gate? && GatesAhead(g) && Find(g, g[k].resume) == Some(j)
    ensures Run(g, k, env, e) ==
            if env.gateSeesEnd then Exit(e)
            else if ExactScopeDomain(e.event, env.domains) || HasSLDInScope(e.event)
            then Run(g, k + 1, env, Mark(env, e))
            else Run(g, j, env, e)
  {
    hide Find, ExactScopeDomain, HasSLDInScope, Mark, GatesAhead, StageStep, Exit;
  }

  // From a gate on, j being the index of the resume stage.
  lemma RunAtGate(g: seq<Stage>, k: nat, j: nat, env: Env, e: Elem)
    requires k < j < |g| && g[k].Gate? && GatesAhead(g) && Find(g, g[k].resume) == Some(j)
    requires Gateless(g[k + 1..]) && Gateless(g[j..])
    ensures Run(g, k, env, e) ==
            if env.gateSeesEnd then Exit(e)
            else if ExactScopeDomain(e.event, env.domains) || HasSLDInScope(e.event)
            then Finish(Through(g[k + 1..], env, Mark(env, e)))
            else Finish(Through(g[j..], env, e))
  {
    hide *;
    RunGate(g, k, j, env, e);
    RunToEnd(g, k + 1, env, Mark(env, e));
    RunToEnd(g, j, env, e);
  }

  lemma FromGate(hs: Handlers, resume: int, env: Env, e: Elem)
    requires IsResume(hs, Some(resume)) && RangeIsIdle(hs) && FairOrder(env)
    requires env.gateSeesEnd ==> forall p :: OSINT_FIRST <= p && At(hs, p) != [] ==> env.ends <= p
    requires GatesAhead(Gated(hs, resume)) && |Lower(hs)| <= |Gated(hs, resume)|
    ensures SameResult(Run(Gated(hs, resume), |Lower(hs)|, env, e),
                       Finish(Through(Osint(hs) + Upper(hs), env, Mark(env, e))))
  {
    hide *;
    Parts(hs, resume);
    Cuts(Lower(hs), Gate(resume), Osint(hs), Upper(hs));
    GatelessBoth(Osint(hs), Upper(hs));
    RunAtGate(Gated(hs, resume), |Lower(hs)|, |Lower(hs)| + 1 + |Osint(hs)|, env, e);
    if env.gateSeesEnd {
      EndedAtGate(hs, resume, env, e);
      NoMark(env, e);
    } else if ExactScopeDomain(e.event, env.domains) || HasSLDInScope(e.event) {
      Same(Finish(Through(Osint(hs) + Upper(hs), env, Mark(env, e))));
    } else {
      AroundTheRange(hs, resume, env, e);
      NoMark(env, e);
    }
  }

  lemma NoMark(env: Env, e: Elem)
    requires env.gateSeesEnd || !ExactScopeDomain(e.event, env.domains)
    ensures Mark(env, e) == e
  {}

  lemma Same(a: Elem)
    ensures SameResult(a, a)
  {}

  lemma EndedAtGate(hs: Handlers, resume: int, env: Env, e: Elem)
    requires IsResume(hs, Some(resume)) && FairOrder(env)
    requires forall p :: OSINT_FIRST <= p && At(hs, p) != [] ==> env.ends <= p
    ensures SameResult(Exit(e), Finish(Through(Osint(hs) + Upper(hs), env, e)))
  {
    Parts(hs, resume);
    StagesWithin(hs, OSINT_FIRST, OSINT_LAST + 1);
    hide Stages;
    var back := Osint(hs) + Upper(hs);
    assert back[0] == if Osint(hs) != [] then Osint(hs)[0] else Upper(hs)[0];
    if Osint(hs) != [] { assert Osint(hs)[0] in Osint(hs); }
    EndedStage(back, env, e);
  }

  lemma AroundTheRange(hs: Handlers, resume: int, env: Env, e: Elem)
    requires IsResume(hs, Some(resume)) && RangeIsIdle(hs) && FairOrder(env) && !HasSLDInScope(e.event)
    ensures SameResult(Finish(Through(Upper(hs), env, e)), Finish(Through(Osint(hs) + Upper(hs), env, e)))
  {
    Parts(hs, resume);
    ThroughBoth(Osint(hs), Upper(hs), env, e);
    IdleRange(hs, OSINT_FIRST, env, e);
    hide Stages;
    var s := Through(Osint(hs), env, e);
    if !s.on { EndedStage(Upper(hs), env, e); }
  }

  // With the gate, an element ends up as it would without it: same event, same errors,
  // same callbacks that had an effect.
  lemma BypassChangesNothing(hs: Handlers, resume: int, env: Env, e: Elem)
    requires IsResume(hs, Some(resume)) && RangeIsIdle(hs) && FairOrder(env)
    requires env.gateSeesEnd ==> forall p :: OSINT_FIRST <= p && At(hs, p) != [] ==> env.ends <= p
    ensures GatesAhead(Gated(hs, resume))
    ensures SameResult(Run(Gated(hs, resume), 0, env, e), WithoutGate(hs, env, e))
  {
    GateGoesAhead(hs, resume);
    Parts(hs, resume);
    var g, k := Gated(hs, resume), |Lower(hs)|;
    hide Stages, Find, Gated;
    assert g[0..k] == Lower(hs);
    RunUpTo(g, 0, k, env, e);
    var s := Through(Lower(hs), env, e);
    if s.on { FromGate(hs, resume, env, s.e); }
  }

  // When there is nothing to flag, that is the plain pipeline itself.
  lemma PlainPipeline(hs: Handlers, env: Env, e: Elem)
    requires var s := Through(Lower(hs), env, e); s.on ==> Mark(env, s.e) == s.e
    ensures GatesAhead(Stages(hs, 1, LAST_PRIORITY + 1))
    ensures WithoutGate(hs, env, e) == Run(Stages(hs, 1, LAST_PRIORITY + 1), 0, env, e)
  {
    var all := Stages(hs, 1, LAST_PRIORITY + 1);
    PlainIsGateless(hs);
    PartsJoin(hs);
    hide *;
    assert all[0..] == all;
    RunToEnd(all, 0, env, e);
    ThroughBoth(Lower(hs), Osint(hs) + Upper(hs), env, e);
    WithoutGateIs(hs, env, e);
  }

  lemma PlainIsGateless(hs: Handlers)
    ensures Gateless(Stages(hs, 1, LAST_PRIORITY + 1)) && GatesAhead(Stages(hs, 1, LAST_PRIORITY + 1))
  {
    StagesWithin(hs, 1, LAST_PRIORITY + 1);
    hide Stages, Find;
  }

  lemma WithoutGateIs(hs: Handlers, env: Env, e: Elem)
    requires var s := Through(Lower(hs), env, e); s.on ==> Mark(env, s.e) == s.e
    ensures var s := Through(Lower(hs), env, e);
            WithoutGate(hs, env, e) == Finish(if s.on then Through(Osint(hs) + Upper(hs), env, s.e) else s)
  {
    hide Through, Mark, Lower, Osint, Upper;
  }

  // ---- No element leaves unnoticed ----

  lemma {:induction false} TasksExit(hs: seq<Handler>, env: Env, p: int, e: Elem)
    ensures var s := Tasks(hs, env, p, e); if s.on then s.e.exits == e.exits else s.e.exits > e.exits
  {
    if hs != [] { TasksExit(hs[1..], env, p, Task(hs[0], env, p, e).e); }
  }

  // Whatever happens on the way, the element is handed over at least once, so its row
  // does not stay leased.
  lemma {:induction false} EveryElementExits(stages: seq<Stage>, i: nat, env: Env, e: Elem)
    requires i <= |stages| && GatesAhead(stages)
    ensures Run(stages, i, env, e).exits > e.exits
    decreases |stages| - i
  {
    if i < |stages| && stages[i].Gate? {
      if !env.gateSeesEnd {
        var found := Find(stages, stages[i].resume);
        if ExactScopeDomain(e.event, env.domains) || HasSLDInScope(e.event) {
          EveryElementExits(stages, i + 1, env, Mark(env, e));
        } else if found.None? {
          EveryElementExits(stages, i + 1, env, e);
        } else {
          EveryElementExits(stages, found.value, env, e);
        }
      }
    } else if i < |stages| {
      var s := StageStep(stages[i], env, e);
      TasksExit(env.arrange(HandlersOf(stages[i])), env, Position(stages[i]), e);
      if s.on { EveryElementExits(stages, i + 1, env, s.e); }
    }
  }

  // ---- What a run does, callback by callback ----

  // The event, the errors, the names of the callbacks that had an effect, and the number
  // of panics after the handlers in hs, one after the other. Only selected ones are called.
  datatype Effects = Effects(event: Event, errors: seq<string>, names: seq<string>, panics: nat)

  ghost function CallAll(hs: seq<Handler>, ts: seq<Transformation>, ev: Event): Effects {
    if hs == [] then Effects(ev, [], [], 0)
    else
      var before, h := CallAll(hs[..|hs| - 1], ts, ev), hs[|hs| - 1];
      if !Selects(ts, before.event.etype, h) then before
      else
        match h.callback(before.event)
        case Returned(e) =>
          Effects(e, before.errors, if e == before.event then before.names else before.names + [h.name], before.panics)
        case Failed(e, err) => Effects(e, before.errors + [err], before.names + [h.name], before.panics)
        case Panicked(e, err) => Effects(e, before.errors + [err], before.names + [h.name], before.panics + 1)
  }

  // The handlers an event meets: those of the stages in order, up to and including the
  // first stage in which one panics.
  ghost function Met(stages: seq<Stage>, env: Env, ev: Event): seq<Handler> {
    if stages == [] then []
    else
      var before, next := Met(stages[..|stages| - 1], env, ev), stages[|stages| - 1];
      if CallAll(before, env.ts, ev).panics > 0 then before else before + env.arrange(HandlersOf(next))
  }

  ghost predicate SessionStays(stages: seq<Stage>, env: Env) {
    forall s <- stages :: Position(s) < env.ends
  }

  // e as the effects change it.
  ghost function Changed(e: Elem, c: Effects): Elem {
    Elem(c.event, e.errors + c.errors, e.trace + c.names, e.exits + c.panics)
  }

  lemma {:induction false} TasksCall(before: seq<Handler>, hs: seq<Handler>, env: Env, p: int, e: Elem)
    requires p < env.ends
    ensures var a, b := CallAll(before, env.ts, e.event), CallAll(before + hs, env.ts, e.event);
            var s := Tasks(hs, env, p, Changed(e, a));
            s.e == Changed(e, b) && (s.on <==> b.panics == a.panics) && b.panics >= a.panics
    decreases |hs|
  {
    if hs == [] {
      assert before + hs == before;
    } else {
      var next := before + [hs[0]];
      assert next[..|next| - 1] == before && before + hs == next + hs[1..];
      OneTask(before, hs[0], env, p, e);
      TasksCall(next, hs[1..], env, p, e);
      hide CallAll, Task;
    }
  }

  lemma OneTask(before: seq<Handler>, h: Handler, env: Env, p: int, e: Elem)
    requires p < env.ends
    ensures var a, b := CallAll(before, env.ts, e.event), CallAll(before + [h], env.ts, e.event);
            var s := Task(h, env, p, Changed(e, a));
            s.e == Changed(e, b) && (s.on <==> b.panics == a.panics) && b.panics >= a.panics
  {
    assert (before + [h])[..|before|] == before;
    ChosenIff(env.ts, CallAll(before, env.ts, e.event).event.etype, h);
    hide Chosen, Selects;
  }

  lemma {:induction false} ThroughCalls(stages: seq<Stage>, env: Env, e: Elem)
    requires SessionStays(stages, env)
    ensures var c := CallAll(Met(stages, env, e.event), env.ts, e.event);
            var s := Through(stages, env, e);
            s.e == Changed(e, c) && (s.on <==> c.panics == 0)
    decreases |stages|
  {
    if stages == [] {
      assert Changed(e, CallAll([], env.ts, e.event)) == e;
    } else {
      var n := |stages| - 1;
      var init, last := stages[..n], stages[n];
      assert stages == init + [last] && last in stages && forall s <- init :: s in stages;
      ThroughCalls(init, env, e);
      ThroughBoth(init, [last], env, e);
      OneStage(last, env, Through(init, env, e).e);
      TasksCall(Met(init, env, e.event), env.arrange(HandlersOf(last)), env, Position(last), e);
      hide CallAll, Tasks, Through;
    }
  }

  lemma OneStage(s: Stage, env: Env, e: Elem)
    ensures Through([s], env, e) == StageStep(s, env, e)
  {
    assert [s][1..] == [];
    hide Tasks;
  }

  // Over every pipeline without a gate, in a session that does not end: the final event
  // is what the callbacks of the selected handlers make of it in order, the errors are
  // those of the failing ones, the trace lists the ones with an effect. A panic hands the
  // element over and nothing behind its stage is called; otherwise the sink hands it over.
  lemma RunCalls(stages: seq<Stage>, env: Env, e: Elem)
    requires Gateless(stages) && SessionStays(stages, env)
    ensures GatesAhead(stages)
    ensures var c := CallAll(Met(stages, env, e.event), env.ts, e.event);
            var r := Run(stages, 0, env, e);
            && r.event == c.event && r.errors == e.errors + c.errors && r.trace == e.trace + c.names
            && r.exits == e.exits + if c.panics == 0 then 1 else c.panics
  {
    assert stages[0..] == stages;
    RunToEnd(stages, 0, env, e);
    ThroughCalls(stages, env, e);
    hide Through, CallAll, Met, Run;
  }

  // The same for what a gated run amounts to: at the gate's place a configured domain
  // gets the flag.
  lemma WithoutGateCalls(hs: Handlers, env: Env, e: Elem)
    requires Gateless(Lower(hs)) && SessionStays(Lower(hs), env) && SessionStays(Osint(hs) + Upper(hs), env)
    requires !env.gateSeesEnd
    ensures var a := CallAll(Met(Lower(hs), env, e.event), env.ts, e.event);
            var flagged := if ExactScopeDomain(a.event, env.domains) then AddSLDInScope(a.event) else a.event;
            var b := CallAll(Met(Osint(hs) + Upper(hs), env, flagged), env.ts, flagged);
            var r := WithoutGate(hs, env, e);
            if a.panics > 0 then r.event == a.event && r.errors == e.errors + a.errors && r.trace == e.trace + a.names
            else
              && r.event == b.event && r.errors == e.errors + a.errors + b.errors
              && r.trace == e.trace + a.names + b.names
  {
    ThroughCalls(Lower(hs), env, e);
    var s := Through(Lower(hs), env, e);
    FlagIsSet(s.e.event);
    ThroughCalls(Osint(hs) + Upper(hs), env, Mark(env, s.e));
    if HasSLDInScope(s.e.event) { AlreadyFlagged(s.e.event); }
    hide Through, CallAll, Met, ExactScopeDomain, HasSLDInScope, AddSLDInScope, Lower, Osint, Upper;
  }

  lemma AlreadyFlagged(e: Event)
    requires HasSLDInScope(e)
    ensures AddSLDInScope(e) == e
  {}
}
