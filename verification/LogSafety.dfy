// What every run of the log fan-out keeps.
module LogSafety {
  import opened LogFanout

  // Between leaving the list and being ended.
  predicate Limbo(s: State, id: nat) {
    s.lock == Leaving(id) || s.lock == Uncounted(id)
  }

  // The list holds the subscriptions that have not ended, each once.
  ghost predicate Listed(s: State) {
    && (forall i, j :: 0 <= i < j < |s.list| ==> s.list[i] != s.list[j])
    && (forall id :: id in s.list ==> id < |s.subs| && (s.lock.Ending? || s.subs[id].ended.None?))
    && (forall id :: 0 <= id < |s.subs| && s.subs[id].ended.None? && !Limbo(s, id) ==> id in s.list)
    && (s.lock.Ending? ==>
          forall i :: 0 <= i < |s.list| && s.list[i] < |s.subs| ==>
                        (s.subs[s.list[i]].ended.Some? <==> i < s.lock.next))
    && (s.lock.Leaving? || s.lock.Uncounted? ==>
          s.lock.id < |s.subs| && s.lock.id !in s.list && s.subs[s.lock.id].ended.None?)
  }

  // Who holds the lock agrees with the broadcaster and the closer.
  ghost predicate Locked(s: State) {
    && (s.lock.Joining? ==> s.list != [] && s.lock.id == s.list[|s.list| - 1])
    && (s.lock.Sending? || s.lock.Ending? ==> s.lock.next <= |s.list|)
    && (s.lock.Sending? <==> s.caster.Delivering?)
    && (s.lock.Ending? || s.lock.Cleared? <==> s.closer.HasLock?)
    && (s.closed <==> !s.closer.NotCalled?) && (s.caster.Stopped? ==> s.closed)
    && (s.lock.Cleared? || s.closer.Returned? ==> s.list == [] && !s.lock.Leaving? && !s.lock.Uncounted?)
    && (s.lock.Sending? ==> s.broadcast != [] && s.broadcast[|s.broadcast| - 1] == s.lock.msg)
  }

  ghost predicate Counted(s: State) {
    s.lock.Cleared? || s.count == |s.list| + (if s.lock.Leaving? then 1 else if s.lock.Joining? then -1 else 0)
  }

  // Everything accepted before Close has been broadcast, is in the broadcaster's hand, or
  // waits. Close drops some of it; the rest keeps its order.
  ghost predicate Published(s: State) {
    && (!s.closed ==> s.accepted == InTransit(s))
    && Subsequence(InTransit(s), s.accepted)
  }

  ghost predicate Subsequence<T>(a: seq<T>, b: seq<T>)
    decreases |b|
  {
    || a == []
    || (b != [] && a[|a| - 1] == b[|b| - 1] && Subsequence(a[..|a| - 1], b[..|b| - 1]))
    || (b != [] && Subsequence(a, b[..|b| - 1]))
  }

  lemma BothGrow<T>(a: seq<T>, b: seq<T>, x: T)
    requires Subsequence(a, b)
    ensures Subsequence(a + [x], b + [x])
  {
    assert (a + [x])[..|a|] == a && (b + [x])[..|b|] == b;
  }

  lemma {:induction false} OneDropped<T>(a: seq<T>, i: nat, b: seq<T>)
    requires i < |a| && Subsequence(a, b)
    ensures Subsequence(a[..i] + a[i + 1..], b)
    decreases |b|
  {
    var c, n := a[..i] + a[i + 1..], |a| - 1;
    if Subsequence(a, b[..|b| - 1]) {
      OneDropped(a, i, b[..|b| - 1]);
    } else if i == n {
      assert c == a[..n];
    } else {
      OneDropped(a[..n], i, b[..|b| - 1]);
      assert c[..|c| - 1] == a[..n][..i] + a[..n][i + 1..];
    }
  }

  function Held(s: State): seq<Msg> {
    if s.caster.Holding? then [s.caster.msg] else []
  }

  // How many broadcasts have reached a subscription's queue, or went by before it began.
  function Due(s: State, id: nat): int
    requires id < |s.subs|
  {
    if s.subs[id].ended.Some? then s.subs[id].ended.value
    else if s.lock.Sending? && s.lock.next <= |s.list| && id in s.list[s.lock.next..] then |s.broadcast| - 1
    else |s.broadcast|
  }

  ghost predicate Delivered(s: State, id: nat)
    requires id < |s.subs|
  {
    && Sane(s.subs[id])
    && s.subs[id].from <= Due(s, id) <= |s.broadcast|
    && Stream(s.subs[id]) == s.broadcast[s.subs[id].from..Due(s, id)]
  }

  ghost predicate AllDelivered(s: State) {
    forall id :: 0 <= id < |s.subs| ==> Delivered(s, id)
  }

  ghost predicate Safe(s: State) {
    Listed(s) && Locked(s) && Counted(s) && Published(s) && AllDelivered(s)
  }

  lemma WithoutIs(list: seq<nat>, id: nat)
    requires id in list && forall i, j :: 0 <= i < j < |list| ==> list[i] != list[j]
    ensures |Without(list, id)| == |list| - 1
    ensures forall x :: x in Without(list, id) <==> x in list && x != id
    ensures var r := Without(list, id); forall i, j :: 0 <= i < j < |r| ==> r[i] != r[j]
  {
    if list[0] == id {
      assert forall x :: x in list <==> x == id || x in list[1..];
    } else {
      WithoutIs(list[1..], id);
      assert forall x :: x in list <==> x == list[0] || x in list[1..];
      assert list[0] !in list[1..];
    }
  }

  // ---- Listed ----

  lemma ListedSubscribe(s: State)
    requires Listed(s) && Locked(s) && s.lock.Free?
    ensures Listed(Apply(s, Subscribe))
  {
    assert forall i :: 0 <= i < |s.list| ==> s.list[i] in s.list;
  }

  lemma ListedUnsubscribe(s: State, id: nat)
    requires Listed(s) && Locked(s) && s.lock.Free?
    ensures Listed(Apply(s, Unsubscribe(id)))
  {
    if id in s.list { WithoutIs(s.list, id); }
    hide Without;
  }

  lemma ListedUnsubscribeEnd(s: State)
    requires Listed(s) && Locked(s) && s.lock.Uncounted? && s.lock.id < |s.subs|
    ensures Listed(Apply(s, UnsubscribeEnd))
  {}

  lemma ListedCasterSends(s: State)
    requires Listed(s) && Locked(s) && Enabled(s, CasterSends)
    ensures Listed(Apply(s, CasterSends))
  {}

  lemma ListedCloseEnds(s: State)
    requires Listed(s) && Locked(s) && Enabled(s, CloseEnds)
    ensures Listed(Apply(s, CloseEnds))
  {}

  lemma ListedCloseClears(s: State)
    requires Listed(s) && Locked(s) && Enabled(s, CloseClears)
    ensures Listed(Apply(s, CloseClears))
  {}

  lemma ListedDo(s: State, id: nat, step: LocalStep)
    requires Listed(s) && Enabled(s, Do(id, step))
    ensures Listed(Apply(s, Do(id, step)))
  {
    var t := s.subs[id];
    assert Local(t, step).ended == t.ended;
    hide Local;
  }

  predicate Restructures(a: Action) {
    a.Subscribe? || a.Unsubscribe? || a.UnsubscribeEnd? || a.CasterSends? || a.CloseEnds? || a.CloseClears? || a.Do?
  }

  lemma ListedOther(s: State, a: Action)
    requires Listed(s) && Locked(s) && Enabled(s, a) && !Restructures(a)
    ensures Listed(Apply(s, a))
  {
    hide Ended, Without, Local;
    var t := Apply(s, a);
    assert t.subs == s.subs && t.list == s.list && (t.lock.Ending? ==> s.lock == t.lock || t.lock.next == 0);
  }

  lemma ListedStep(s: State, a: Action)
    requires Listed(s) && Locked(s) && Enabled(s, a)
    ensures Listed(Apply(s, a))
  {
    hide Listed, Locked, Apply;
    match a
    case Subscribe => ListedSubscribe(s);
    case Unsubscribe(id) => ListedUnsubscribe(s, id);
    case UnsubscribeEnd => ListedUnsubscribeEnd(s);
    case CasterSends => ListedCasterSends(s);
    case CloseEnds => ListedCloseEnds(s);
    case CloseClears => ListedCloseClears(s);
    case Do(id, step) => ListedDo(s, id, step);
    case _ => ListedOther(s, a);
  }

  lemma LockedStep(s: State, a: Action)
    requires Listed(s) && Locked(s) && Enabled(s, a)
    ensures Locked(Apply(s, a))
  {
    hide Listed;
    if a.Unsubscribe? && a.id in s.list { hide Without; }
  }

  lemma CountedStep(s: State, a: Action)
    requires Listed(s) && Locked(s) && Counted(s) && Enabled(s, a)
    ensures Counted(Apply(s, a))
  {
    if a.Unsubscribe? && a.id in s.list { WithoutIs(s.list, a.id); }
    hide Listed, Without;
  }

  function InTransit(s: State): seq<Msg> {
    s.broadcast + Held(s) + s.q
  }

  lemma TransitKept(s: State, a: Action)
    requires Locked(s) && Enabled(s, a) && !a.Append? && !a.CloseDrains?
    ensures InTransit(Apply(s, a)) == InTransit(s) && Apply(s, a).accepted == s.accepted
  {
    hide Ended, Without, Local;
    var t := Apply(s, a);
    assert t.accepted == s.accepted;
    if a.CasterTakes? && s.q != [] {
      assert s.broadcast + Held(s) == s.broadcast && s.q == [s.q[0]] + s.q[1..];
    } else if a.CasterLocks? {
      assert t.broadcast == s.broadcast + Held(s);
    } else {
      assert t.broadcast == s.broadcast && t.q == s.q && Held(t) == Held(s);
    }
  }

  lemma TransitGrows(s: State, m: Msg)
    requires m in s.pending && Subsequence(InTransit(s), s.accepted)
    ensures var t := Apply(s, Append(m));
            InTransit(t) == InTransit(s) + [m] && Subsequence(InTransit(t), t.accepted)
  {
    BothGrow(InTransit(s), s.accepted, m);
    assert InTransit(Apply(s, Append(m))) == InTransit(s) + [m];
  }

  lemma TransitDrains(s: State)
    requires s.closer.Emptying? && Subsequence(InTransit(s), s.accepted)
    ensures Subsequence(InTransit(Apply(s, CloseDrains)), s.accepted)
  {
    if s.q != [] {
      var n := |s.broadcast + Held(s)|;
      OneDropped(InTransit(s), n, s.accepted);
      assert InTransit(Apply(s, CloseDrains)) == InTransit(s)[..n] + InTransit(s)[n + 1..];
    }
  }

  lemma ClosedStays(s: State, a: Action)
    requires Locked(s) && Enabled(s, a) && !Apply(s, a).closed
    ensures !s.closed && !a.CloseDrains?
    ensures a.Append? ==> Apply(s, a).accepted == s.accepted + [a.m]
  {}

  lemma PublishedStep(s: State, a: Action)
    requires Locked(s) && Published(s) && Enabled(s, a)
    ensures Published(Apply(s, a))
  {
    hide Locked, Apply, Subsequence, InTransit;
    if !Apply(s, a).closed { ClosedStays(s, a); }
    if a.Append? {
      TransitGrows(s, a.m);
    } else if a.CloseDrains? {
      TransitDrains(s);
      DrainAccepts(s);
    } else {
      TransitKept(s, a);
    }
  }

  lemma DrainAccepts(s: State)
    requires s.closer.Emptying?
    ensures Apply(s, CloseDrains).accepted == s.accepted
  {}

  // ---- Delivered ----

  // Steps that leave the subscriptions and the broadcast history alone.
  predicate LeavesAlone(a: Action) {
    !a.Subscribe? && !a.UnsubscribeEnd? && !a.CasterLocks? && !a.CasterSends? && !a.CloseEnds? && !a.Do?
  }

  lemma DueKept(s: State, a: Action, id: nat)
    requires Locked(s) && Enabled(s, a) && LeavesAlone(a) && id < |s.subs|
    ensures var t := Apply(s, a); t.subs == s.subs && t.broadcast == s.broadcast && Due(t, id) == Due(s, id)
  {
    hide Ended, Without, Local;
  }

  lemma DeliveredOther(s: State, a: Action)
    requires Locked(s) && AllDelivered(s) && Enabled(s, a) && LeavesAlone(a)
    ensures AllDelivered(Apply(s, a))
  {
    hide Apply, Due, Stream, Locked, Sane, Enabled;
    var t := Apply(s, a);
    forall id: nat | id < |s.subs| ensures id < |t.subs| && Delivered(t, id) {
      assert Delivered(s, id);
      DueKept(s, a, id);
    }
    if s.subs != [] { DueKept(s, a, 0); } else { SubsKept(s, a); }
  }

  lemma SubsKept(s: State, a: Action)
    requires Enabled(s, a) && LeavesAlone(a)
    ensures Apply(s, a).subs == s.subs
  {
    hide Ended, Without, Local;
  }

  lemma DeliveredSubscribe(s: State)
    requires Listed(s) && AllDelivered(s) && s.lock.Free?
    ensures AllDelivered(Apply(s, Subscribe))
  {
    var t := Apply(s, Subscribe);
    forall id | 0 <= id < |t.subs| ensures Delivered(t, id) {
      if id < |s.subs| { assert Delivered(s, id); }
    }
  }

  lemma DeliveredUnsubscribeEnd(s: State)
    requires Listed(s) && AllDelivered(s) && Enabled(s, UnsubscribeEnd)
    ensures AllDelivered(Apply(s, UnsubscribeEnd))
  {
    var t := Apply(s, UnsubscribeEnd);
    forall id | 0 <= id < |t.subs| ensures Delivered(t, id) { assert Delivered(s, id); }
  }

  lemma DeliveredCloseEnds(s: State)
    requires Listed(s) && AllDelivered(s) && Enabled(s, CloseEnds)
    ensures AllDelivered(Apply(s, CloseEnds))
  {
    var t := Apply(s, CloseEnds);
    forall id | 0 <= id < |t.subs| ensures Delivered(t, id) { assert Delivered(s, id); }
  }

  lemma DeliveredDo(s: State, id: nat, step: LocalStep)
    requires AllDelivered(s) && Enabled(s, Do(id, step))
    ensures AllDelivered(Apply(s, Do(id, step)))
  {
    var t := Apply(s, Do(id, step));
    assert Delivered(s, id);
    LocalKeeps(s.subs[id], step);
    hide Local, Stream, Sane;
    forall x | 0 <= x < |t.subs| ensures Delivered(t, x) { assert Delivered(s, x); }
  }

  // Every listed subscription now waits for the new message.
  lemma DeliveredCasterLocks(s: State)
    requires Listed(s) && AllDelivered(s) && Enabled(s, CasterLocks)
    ensures AllDelivered(Apply(s, CasterLocks))
  {
    var t := Apply(s, CasterLocks);
    assert t.list[0..] == s.list;
    forall id | 0 <= id < |t.subs| ensures Delivered(t, id) {
      assert Delivered(s, id);
      assert Due(t, id) == Due(s, id);
      assert t.broadcast[s.subs[id].from..Due(s, id)] == s.broadcast[s.subs[id].from..Due(s, id)];
    }
  }

  // The next one on the list gets it.
  lemma DeliveredCasterSends(s: State)
    requires Listed(s) && Locked(s) && AllDelivered(s) && Enabled(s, CasterSends)
    ensures AllDelivered(Apply(s, CasterSends))
  {
    var t, n := Apply(s, CasterSends), s.lock.next;
    var k := s.list[n];
    assert s.list[n..] == [k] + s.list[n + 1..];
    assert k !in s.list[n + 1..];
    forall id | 0 <= id < |t.subs| ensures Delivered(t, id) {
      assert Delivered(s, id);
      if id == k { Appended(s, t, k); }
    }
  }

  lemma Appended(s: State, t: State, k: nat)
    requires k < |s.subs| && k < |t.subs| && t.broadcast == s.broadcast != []
    requires t.subs[k] == s.subs[k].(q := s.subs[k].q + [s.broadcast[|s.broadcast| - 1]])
    requires Delivered(s, k) && Due(s, k) == |s.broadcast| - 1 && Due(t, k) == |s.broadcast|
    ensures Delivered(t, k)
  {
    hide Due;
    var b := s.broadcast;
    assert b[s.subs[k].from..] == b[s.subs[k].from..|b| - 1] + [b[|b| - 1]];
    assert Stream(t.subs[k]) == Stream(s.subs[k]) + [b[|b| - 1]];
  }

  lemma DeliveredStep(s: State, a: Action)
    requires Listed(s) && Locked(s) && AllDelivered(s) && Enabled(s, a)
    ensures AllDelivered(Apply(s, a))
  {
    hide Listed, Locked, Apply, AllDelivered;
    match a
    case Subscribe => DeliveredSubscribe(s);
    case UnsubscribeEnd => DeliveredUnsubscribeEnd(s);
    case CasterLocks => DeliveredCasterLocks(s);
    case CasterSends => DeliveredCasterSends(s);
    case CloseEnds => DeliveredCloseEnds(s);
    case Do(id, step) => DeliveredDo(s, id, step);
    case _ => DeliveredOther(s, a);
  }

  // ---- Every run ----

  lemma {:induction false} EveryRunIsSafe(run: seq<Action>)
    requires Executes(run)
    ensures Safe(After(run))
  {
    if run != [] {
      var s, a := After(run[..|run| - 1]), run[|run| - 1];
      EveryRunIsSafe(run[..|run| - 1]);
      hide Listed, Locked, Counted, Published, AllDelivered, Apply, Enabled;
      ListedStep(s, a);
      LockedStep(s, a);
      CountedStep(s, a);
      PublishedStep(s, a);
      DeliveredStep(s, a);
    }
  }

  // A subscription sees every message broadcast from its start to its end, in order,
  // none twice and none missing; what is read is a prefix of that.
  lemma NoGapNoDuplicate(run: seq<Action>, id: nat)
    requires Executes(run) && id < |After(run).subs|
    ensures var s := After(run);
            && s.subs[id].from <= Due(s, id) <= |s.broadcast|
            && Stream(s.subs[id]) == s.broadcast[s.subs[id].from..Due(s, id)]
            && (s.lock.Free? && s.subs[id].ended.None? ==> Due(s, id) == |s.broadcast|)
  {
    EveryRunIsSafe(run);
    assert Delivered(After(run), id);
  }

  // Whatever Close drops, the broadcasts are accepted messages, in order, each once.
  lemma BroadcastsWereAccepted(run: seq<Action>)
    requires Executes(run)
    ensures Subsequence(InTransit(After(run)), After(run).accepted)
  {
    EveryRunIsSafe(run);
  }

  // How many calls of Publish with m met a subscriber.
  function LetThrough(run: seq<Action>, m: Msg): nat
    requires Executes(run)
  {
    if run == [] then 0
    else
      var init, a := run[..|run| - 1], run[|run| - 1];
      LetThrough(init, m) + if a == Check(m) && After(init).count > 0 then 1 else 0
  }

  // Each of them appends its message once.
  lemma {:induction false} AcceptedOnce(run: seq<Action>, m: Msg)
    requires Executes(run)
    ensures multiset(After(run).accepted)[m] + After(run).pending[m] == LetThrough(run, m)
  {
    if run != [] {
      var init, a := run[..|run| - 1], run[|run| - 1];
      AcceptedOnce(init, m);
      AcceptedStep(After(init), a, m);
      hide Apply, Enabled;
    }
  }

  lemma AcceptedStep(s: State, a: Action, m: Msg)
    requires Enabled(s, a)
    ensures var t := Apply(s, a);
            multiset(t.accepted)[m] + t.pending[m] ==
            multiset(s.accepted)[m] + s.pending[m] + if a == Check(m) && s.count > 0 then 1 else 0
  {
    hide Ended, Without, Local;
  }

  // Nothing accepted before Close starts is lost on its way to the broadcasts.
  lemma NothingLostBeforeClose(run: seq<Action>)
    requires Executes(run) && After(run).closer.NotCalled?
    ensures var s := After(run); s.accepted == s.broadcast + Held(s) + s.q
  {
    EveryRunIsSafe(run);
    hide Listed, AllDelivered;
  }

  // With the lock free the counter is the number of subscriptions that have not ended.
  lemma CountIsExact(run: seq<Action>)
    requires Executes(run) && After(run).lock.Free?
    ensures var s := After(run);
            && s.count == |s.list|
            && (forall i, j :: 0 <= i < j < |s.list| ==> s.list[i] != s.list[j])
            && forall id :: id in s.list <==> 0 <= id < |s.subs| && s.subs[id].ended.None?
  {
    EveryRunIsSafe(run);
    hide AllDelivered;
  }

  // A channel is closed at most once, not before its subscription ended, and never
  // sent on afterwards.
  lemma ChannelsCloseOnce(run: seq<Action>, id: nat)
    requires Executes(run) && id < |After(run).subs|
    ensures var c := After(run).subs[id];
            c.closes <= 1 && !c.sentLate && (c.closes == 1 ==> c.ended.Some?) && |c.ch| <= 100
  {
    EveryRunIsSafe(run);
    assert Delivered(After(run), id);
  }

  // Ending a subscription a second time, or after Close, changes nothing.
  lemma UnsubscribeAgain(run: seq<Action>, id: nat)
    requires Executes(run) && After(run).lock.Free?
    requires id < |After(run).subs| && After(run).subs[id].ended.Some?
    ensures Apply(After(run), Unsubscribe(id)) == After(run)
  {
    CountIsExact(run);
  }

  // Once Close has returned no subscription is live, and none can start.
  lemma ClosedForGood(run: seq<Action>, id: nat)
    requires Executes(run) && After(run).closer.Returned?
    ensures var s := After(run); s.list == [] && (s.lock.Free? ==> s.count == 0)
    ensures id < |After(run).subs| ==> After(run).subs[id].ended.Some?
  {
    EveryRunIsSafe(run);
    hide AllDelivered;
  }

  lemma LateSubscribeIsRefused(run: seq<Action>)
    requires Executes(run) && After(run).closer.Returned? && After(run).lock.Free?
    ensures var s := Apply(After(run), Subscribe);
            var c := s.subs[|s.subs| - 1];
            s.list == [] && s.count == 0 && c.closes == 1 && c.ended.Some? && c.ch == []
  {
    EveryRunIsSafe(run);
    hide AllDelivered, Listed;
  }
}
