// What the row counts of an idle session mean, and the run in which they mislead.
module WorkIdle {
  import opened Assets
  import opened Backlog
  import opened WorkProtocol
  import opened WorkElements
  import opened WorkSafety

  function RowsIn(s: State, sid: nat, st: RowState): set<Key> {
    set k | k in s.rows && k.sid == sid && s.rows[k].st == st
  }

  // What calculateStats stores: done rows, and done plus queued plus leased rows.
  function Completed(s: State, sid: nat): nat {
    |RowsIn(s, sid, Done)|
  }

  function Total(s: State, sid: nat): nat {
    |RowsIn(s, sid, Done)| + |RowsIn(s, sid, Queued)| + |RowsIn(s, sid, Leased)|
  }

  ghost predicate NothingOutstanding(s: State, sid: nat) {
    forall e: Elem :: e.key.sid == sid ==> Outstanding(s.flow, e) == 0
  }

  // In every run: a session with no queued row and no element on the way is idle.
  lemma DrainedIsIdle(acts: seq<Action>, sid: nat)
    requires Executes(INIT, acts)
    ensures
      var s := After(INIT, acts);
      sid !in s.killed && RowsIn(s, sid, Queued) == {} && NothingOutstanding(s, sid) ==>
        Completed(s, sid) == Total(s, sid)
  {
    EveryRunIsSafe(acts);
    hide Outstanding, Bounded, Paid, Placed, Enabled, Apply;
    var s := After(INIT, acts);
    if sid !in s.killed && NothingOutstanding(s, sid) {
      forall k | k in s.rows && k.sid == sid
        ensures s.rows[k].st != Leased
      {
        assert Outstanding(s.flow, Current(s.rows, k)) == 0;
      }
      assert RowsIn(s, sid, Leased) == {};
    }
  }

  lemma {:induction false} DisciplinedState(s: State, acts: seq<Action>)
    requires Executes(s, acts) && AlwaysOnePerLease(s, acts)
    ensures OnePerLease(After(s, acts))
    decreases |acts|
  {
    if acts != [] {
      hide OnePerLease, Apply, Enabled;
      DisciplinedState(Apply(s, acts[0]), acts[1..]);
    }
  }

  // In a disciplined run the counts agree exactly when nothing is queued and no
  // element is outstanding.
  lemma IdleIffDrained(acts: seq<Action>, sid: nat)
    requires Executes(INIT, acts) && AlwaysDisciplined(INIT, acts)
    requires sid !in After(INIT, acts).killed
    ensures
      var s := After(INIT, acts);
      Completed(s, sid) == Total(s, sid) <==>
        RowsIn(s, sid, Queued) == {} && NothingOutstanding(s, sid)
  {
    DrainedIsIdle(acts, sid);
    OnePerLeaseIffDisciplined(acts);
    DisciplinedState(INIT, acts);
    hide Outstanding, Apply, Enabled, AlwaysDisciplined, AlwaysOnePerLease;
    var s := After(INIT, acts);
    if Completed(s, sid) == Total(s, sid) {
      assert RowsIn(s, sid, Leased) == {};
      forall e: Elem | e.key.sid == sid
        ensures Outstanding(s.flow, e) == 0
      {
        assert e.key !in RowsIn(s, sid, Leased);
      }
    }
  }

  // ---- Acks that come late ----

  // The step is an ownerless Ack of k, by a stage or by the completion goroutine.
  ghost predicate AcksRow(s: State, a: Action, k: Key)
    requires Enabled(s, a)
  {
    (a.DirectAck? && a.ok && a.e.key == k) || (a.Complete? && a.ok && s.flow.comp.e.key == k)
  }

  // Such an Ack changes nothing exactly when the row is gone or done already.
  lemma LateAckIsNoOpIff(s: State, a: Action, k: Key)
    requires Enabled(s, a) && AcksRow(s, a, k)
    ensures Apply(s, a).rows == s.rows <==> k !in s.rows || Is(s.rows, k, Done)
  {
    hide FlowAfter, PendingAfter, LedgerAfter, PumpEnabled;
    if k in s.rows { assert Apply(s, a).rows[k].st == Done; }
  }

  // A step drops a queued row, so that no claim pays for its last enqueue, exactly when
  // it is an ownerless Ack of it.
  lemma LateAckDropsQueuedRow(s: State, a: Action, k: Key)
    requires Enabled(s, a) && Is(s.rows, k, Queued)
    ensures Is(Apply(s, a).rows, k, Done) <==> AcksRow(s, a, k)
    ensures AcksRow(s, a, k) ==> Apply(s, a).ledger == s.ledger
  {
    hide FlowAfter, PendingAfter, PumpEnabled;
  }

  // No step of the run turns a queued row of a live session into a done one.
  ghost predicate KeepsQueuedRows(s: State, acts: seq<Action>)
    requires Executes(s, acts)
    decreases |acts|
  {
    acts == []
    || (&& (forall k :: Live(s, k) && Is(s.rows, k, Queued) ==> !Is(Apply(s, acts[0]).rows, k, Done))
        && KeepsQueuedRows(Apply(s, acts[0]), acts[1..]))
  }

  lemma QueuedRowsKept(s: State, a: Action, k: Key)
    requires Placed(s.flow) && Enabled(s, a) && OnePerLease(s) && Live(s, k) && Is(s.rows, k, Queued)
    ensures !Is(Apply(s, a).rows, k, Done)
  {
    LateAckDropsQueuedRow(s, a, k);
    if AcksRow(s, a, k) { RetiresOwnLease(s, a); }
  }

  lemma {:induction false} KeepsQueuedFrom(s: State, acts: seq<Action>)
    requires Placed(s.flow) && OnePerLease(s) && Executes(s, acts) && AlwaysDisciplined(s, acts)
    ensures KeepsQueuedRows(s, acts)
    decreases |acts|
  {
    if acts != [] {
      var a := acts[0];
      forall k | Live(s, k) && Is(s.rows, k, Queued) ensures !Is(Apply(s, a).rows, k, Done) {
        QueuedRowsKept(s, a, k);
      }
      Conserves(s, a, Elem(Key(0, ""), FQDN, 0));
      OnePerLeaseStep(s, a);
      hide OnePerLease, Placed, Enabled, Disciplined, Apply;
      KeepsQueuedFrom(Apply(s, a), acts[1..]);
    }
  }

  // In a disciplined run no pass of a row is lost that way.
  lemma DisciplinedKeepsQueuedRows(acts: seq<Action>)
    requires Executes(INIT, acts) && AlwaysDisciplined(INIT, acts)
    ensures KeepsQueuedRows(INIT, acts)
  {
    KeepsQueuedFrom(INIT, acts);
  }

  // ---- A run in which it happens ----

  const K := Key(0, "host")
  const P := Pipe(0, IPAddress)
  const E := Elem(K, IPAddress, 0)

  ghost predicate Steps(s: State, a: Action, t: State) {
    Enabled(s, a) && Apply(s, a) == t
  }

  ghost predicate Reaches(acts: seq<Action>, s: State) {
    Executes(INIT, acts) && After(INIT, acts) == s
  }

  lemma {:induction false} Extend(s: State, acts: seq<Action>, a: Action)
    requires Executes(s, acts) && Enabled(After(s, acts), a)
    ensures Executes(s, acts + [a]) && After(s, acts + [a]) == Apply(After(s, acts), a)
    decreases |acts|
  {
    hide Apply, Enabled;
    if acts == [] {
      assert acts + [a] == [a];
      assert [a][1..] == [];
    } else {
      assert (acts + [a])[1..] == acts[1..] + [a];
      Extend(Apply(s, acts[0]), acts[1..], a);
    }
  }

  lemma Next(acts: seq<Action>, s: State, a: Action, t: State) returns (acts': seq<Action>)
    requires Reaches(acts, s) && Steps(s, a, t)
    ensures Reaches(acts', t)
  {
    hide Apply, Enabled;
    Extend(INIT, acts, a);
    acts' := acts + [a];
  }

  // The host's row, claimed once, with its element at f.
  function At(st: RowState, f: Flow, enqueued: nat): State {
    State(map[K := PRow(IPAddress, st, 0)], multiset{}, f, {}, {}, 1,
          Ledger(map[K := enqueued], map[], map[K := 1]))
  }

  const ASKED := INIT.(pending := multiset{(K, IPAddress)})
  const QUEUED := INIT.(rows := map[K := PRow(IPAddress, Queued, 0)],
                        ledger := Ledger(map[K := 1], map[], map[]))
  const SIZED := QUEUED.(flow := EMPTY_FLOW.(pump := Sized(P, 10)))
  const CLAIMED := EMPTY_FLOW.(pump := Loading(P, [E], []))
  const LOADED := EMPTY_FLOW.(pump := Loading(P, [], [E]))
  const APPENDING := EMPTY_FLOW.(pump := Appending(P, [E], 0))
  const VISITED := EMPTY_FLOW.(pump := Appending(P, [], 1), queues := map[P := [E]])
  const WAITING := EMPTY_FLOW.(queues := map[P := [E]])
  const STAGED := EMPTY_FLOW.(queues := map[P := []], staged := multiset{E})
  const SENT := EMPTY_FLOW.(queues := map[P := []], cchan := [E])
  const MOVING := EMPTY_FLOW.(queues := map[P := []], comp := Moving(E))
  const MOVED := EMPTY_FLOW.(queues := map[P := []], cqueue := [E])
  const ACKING := EMPTY_FLOW.(queues := map[P := []], comp := Acking(E))
  const RESUBMITTED := At(Leased, STAGED, 1).(pending := multiset{(K, IPAddress)})

  lemma StepsToQueued()
    ensures Steps(INIT, BeginDispatch(K, IPAddress), ASKED)
    ensures Steps(ASKED, FinishEnqueue(K, IPAddress), QUEUED)
    ensures Steps(QUEUED, PumpSize(P), SIZED)
  {}

  lemma StepsToClaimed()
    ensures Steps(SIZED, PumpClaim([K]), At(Leased, CLAIMED, 1))
  {
    assert Batch(P, [K], 0) == [E];
  }

  lemma StepsToAppending()
    ensures Steps(At(Leased, CLAIMED, 1), PumpLoad(true), At(Leased, LOADED, 1))
    ensures Steps(At(Leased, LOADED, 1), PumpStart, At(Leased, APPENDING, 1))
  {
    assert [E][1..] == [] && [] + [E] == [E];
  }

  lemma StepsToWaiting()
    ensures Steps(At(Leased, APPENDING, 1), PumpAppend, At(Leased, VISITED, 1))
    ensures Steps(At(Leased, VISITED, 1), PumpEnd, At(Leased, WAITING, 1))
  {
    assert [E][1..] == [] && [] + [E] == [E];
  }

  lemma StepsToStaged()
    ensures Steps(At(Leased, WAITING, 1), Pop(P), At(Leased, STAGED, 1))
  {
    assert [E][1..] == [];
  }

  lemma StepsToResubmitted()
    ensures Steps(At(Leased, STAGED, 1), BeginResubmit(K), RESUBMITTED)
    ensures Steps(RESUBMITTED, FinishEnqueue(K, IPAddress), At(Queued, STAGED, 2))
  {}

  lemma StepsToMoving()
    ensures Steps(At(Queued, STAGED, 2), StageExit(E, false), At(Queued, SENT, 2))
    ensures Steps(At(Queued, SENT, 2), Receive, At(Queued, MOVING, 2))
  {
    assert [E][1..] == [] && [] + [E] == [E];
  }

  lemma StepsToAcking()
    ensures Steps(At(Queued, MOVING, 2), MoveIn, At(Queued, MOVED, 2))
    ensures Steps(At(Queued, MOVED, 2), TakeCompleted, At(Queued, ACKING, 2))
  {
    assert [E][1..] == [] && [] + [E] == [E];
  }

  lemma ToStaged() returns (acts: seq<Action>)
    ensures Reaches(acts, At(Leased, STAGED, 1))
  {
    StepsToQueued();
    StepsToClaimed();
    StepsToAppending();
    StepsToWaiting();
    StepsToStaged();
    hide *;
    acts := ReachesInit();
    acts := Next(acts, INIT, BeginDispatch(K, IPAddress), ASKED);
    acts := Next(acts, ASKED, FinishEnqueue(K, IPAddress), QUEUED);
    acts := Next(acts, QUEUED, PumpSize(P), SIZED);
    acts := Next(acts, SIZED, PumpClaim([K]), At(Leased, CLAIMED, 1));
    acts := Next(acts, At(Leased, CLAIMED, 1), PumpLoad(true), At(Leased, LOADED, 1));
    acts := Next(acts, At(Leased, LOADED, 1), PumpStart, At(Leased, APPENDING, 1));
    acts := Next(acts, At(Leased, APPENDING, 1), PumpAppend, At(Leased, VISITED, 1));
    acts := Next(acts, At(Leased, VISITED, 1), PumpEnd, At(Leased, WAITING, 1));
    acts := Next(acts, At(Leased, WAITING, 1), Pop(P), At(Leased, STAGED, 1));
  }

  lemma ReachesInit() returns (acts: seq<Action>)
    ensures Reaches(acts, INIT)
  {
    acts := [];
  }

  // The host is resubmitted while its element is in a stage; the element's Ack
  // then finds the row queued.
  lemma ResubmittedWhileLeased() returns (acts: seq<Action>)
    ensures Reaches(acts, At(Queued, ACKING, 2))
  {
    StepsToResubmitted();
    StepsToMoving();
    StepsToAcking();
    hide *;
    acts := ToStaged();
    acts := Next(acts, At(Leased, STAGED, 1), BeginResubmit(K), RESUBMITTED);
    acts := Next(acts, RESUBMITTED, FinishEnqueue(K, IPAddress), At(Queued, STAGED, 2));
    acts := Next(acts, At(Queued, STAGED, 2), StageExit(E, false), At(Queued, SENT, 2));
    acts := Next(acts, At(Queued, SENT, 2), Receive, At(Queued, MOVING, 2));
    acts := Next(acts, At(Queued, MOVING, 2), MoveIn, At(Queued, MOVED, 2));
    acts := Next(acts, At(Queued, MOVED, 2), TakeCompleted, At(Queued, ACKING, 2));
  }

  // So a run exists after which the session counts as idle although the second
  // of the host's two enqueues was never claimed.
  lemma ResubmissionLost() returns (acts: seq<Action>)
    ensures Reaches(acts, At(Done, ACKING.(comp := Waiting), 2))
    ensures Completed(At(Done, ACKING.(comp := Waiting), 2), 0) ==
            Total(At(Done, ACKING.(comp := Waiting), 2), 0)
  {
    acts := ResubmittedWhileLeased();
    assert Steps(At(Queued, ACKING, 2), Complete(true), At(Done, ACKING.(comp := Waiting), 2));
    hide Reaches;
    acts := Next(acts, At(Queued, ACKING, 2), Complete(true), At(Done, ACKING.(comp := Waiting), 2));
  }
}
