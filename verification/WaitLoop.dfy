// The client's wait loop: when it asks for the session-end work, and when it stops.
module WaitLoop {
  import opened Wrappers

  // Work items completed and in total, as polled.
  datatype Stats = Stats(completed: int, total: int)

  // A tick carries the polled counters and the answer to "is the hook done?", each None
  // when the poll failed; Expired is the no-progress timer.
  datatype Event =
    | Tick(now: int, stats: Option<Stats>, hook: Option<bool>)
    | Expired(now: int)

  const ROUNDS := 5
  const GRACE := 120

  predicate Polled(e: Event) {
    e.Tick? && e.stats.Some?
  }

  predicate Idle(e: Event) {
    Polled(e) && e.stats.value.completed == e.stats.value.total
  }

  predicate HookDone(e: Event) {
    Polled(e) && e.hook == Some(true)
  }

  predicate Ordered(events: seq<Event>) {
    forall i, j :: 0 <= i < j < |events| ==> events[i].now <= events[j].now
  }

  // ---- When the loop acts, told from the events alone ----

  function Polls(events: seq<Event>): seq<Event> {
    if events == [] then []
    else Polls(events[..|events| - 1]) + if Polled(events[|events| - 1]) then [events[|events| - 1]] else []
  }

  // The last five successful polls are all idle.
  ghost predicate FiveIdle(events: seq<Event>) {
    var p := Polls(events);
    |p| >= 5 && forall k :: |p| - 5 <= k < |p| ==> Idle(p[k])
  }

  ghost predicate FiveIdleAndDone(events: seq<Event>) {
    var p := Polls(events);
    |p| >= 5 && forall k :: |p| - 5 <= k < |p| ==> Idle(p[k]) && HookDone(p[k])
  }

  // The first pass ends with this event: the timer, or the fifth idle poll in a row.
  ghost predicate Starts(events: seq<Event>) {
    events != [] && (events[|events| - 1].Expired? || (Polled(events[|events| - 1]) && FiveIdle(events)))
  }

  // The events since the start end with the one that closes done.
  ghost predicate Closes(events: seq<Event>) {
    events != []
    && var e := events[|events| - 1];
       && HookDone(e)
       && if Idle(e) then FiveIdleAndDone(events)
          else exists i :: 0 <= i < |events| && HookDone(events[i]) && e.now - events[i].now >= 120
  }

  // Failed asks for the hook's state, each of which repeats the request.
  function Retries(events: seq<Event>): nat {
    if events == [] then 0
    else
      var e := events[|events| - 1];
      Retries(events[..|events| - 1]) + if Polled(e) && e.hook.None? then 1 else 0
  }

  // ---- The counter the loop keeps ----

  predicate Good(e: Event, second: bool) {
    Idle(e) && (second ==> HookDone(e))
  }

  // Successful polls that are good, counted back from the end; failed ones are passed over.
  function Trail(events: seq<Event>, second: bool): nat {
    if events == [] then 0
    else
      var init, e := events[..|events| - 1], events[|events| - 1];
      if !Polled(e) then Trail(init, second) else if Good(e, second) then Trail(init, second) + 1 else 0
  }

  // The last n of p are good.
  ghost predicate EndsGood(p: seq<Event>, second: bool, n: nat) {
    |p| >= n && forall k :: |p| - n <= k < |p| ==> Good(p[k], second)
  }

  lemma {:induction false} TrailIs(events: seq<Event>, second: bool, n: nat)
    ensures Trail(events, second) >= n <==> EndsGood(Polls(events), second, n)
    decreases |events|
  {
    if events != [] && n > 0 {
      var init, e := events[..|events| - 1], events[|events| - 1];
      if Polled(e) {
        TrailIs(init, second, n - 1);
        OneMorePoll(Polls(init), e, second, n);
      } else {
        assert Polls(events) == Polls(init);
        TrailIs(init, second, n);
      }
    }
  }

  lemma OneMorePoll(p: seq<Event>, e: Event, second: bool, n: nat)
    requires n > 0
    ensures EndsGood(p + [e], second, n) <==> Good(e, second) && EndsGood(p, second, n - 1)
  {
    var q := p + [e];
    assert q[|q| - 1] == e;
    if EndsGood(q, second, n) {
      forall k | |p| - (n - 1) <= k < |p| ensures Good(p[k], second) { assert q[k] == p[k]; }
    }
  }

  lemma TrailSays(events: seq<Event>)
    ensures FiveIdle(events) <==> Trail(events, false) >= ROUNDS
    ensures FiveIdleAndDone(events) <==> Trail(events, true) >= ROUNDS
  {
    TrailIs(events, false, ROUNDS);
    TrailIs(events, true, ROUNDS);
    hide Polls, Trail;
    var p := Polls(events);
    assert forall k :: 0 <= k < |p| ==> (Good(p[k], false) <==> Idle(p[k]));
    assert forall k :: 0 <= k < |p| ==> (Good(p[k], true) <==> Idle(p[k]) && HookDone(p[k]));
  }

  // When the hook was first seen done.
  ghost predicate SeenAt(events: seq<Event>, at: Option<int>) {
    match at
    case None => forall k :: 0 <= k < |events| ==> !HookDone(events[k])
    case Some(t) => exists i :: 0 <= i < |events| && HookDone(events[i]) && events[i].now == t
                                && forall k :: 0 <= k < i ==> !HookDone(events[k])
  }

  lemma FirstRound(was: seq<Event>, e: Event)
    requires Trail(was, false) < ROUNDS
    ensures Starts(was + [e]) <==> e.Expired? || (Idle(e) && Trail(was, false) + 1 == ROUNDS)
    ensures Trail(was + [e], false) ==
            if !Polled(e) then Trail(was, false) else if Idle(e) then Trail(was, false) + 1 else 0
  {
    assert (was + [e])[..|was|] == was;
    TrailSays(was + [e]);
  }

  lemma SecondRound(was: seq<Event>, e: Event)
    requires Trail(was, true) < ROUNDS
    ensures Trail(was + [e], true) ==
            if !Polled(e) then Trail(was, true) else if Good(e, true) then Trail(was, true) + 1 else 0
    ensures Idle(e) ==> (Closes(was + [e]) <==> HookDone(e) && Trail(was, true) + 1 == ROUNDS)
    ensures !HookDone(e) ==> !Closes(was + [e])
    ensures Retries(was + [e]) == Retries(was) + if Polled(e) && e.hook.None? then 1 else 0
  {
    assert (was + [e])[..|was|] == was;
    TrailSays(was + [e]);
  }

  // The poll that first saw the hook done is the one furthest back.
  lemma FirstSeen(was: seq<Event>, e: Event, at: Option<int>)
    requires SeenAt(was, at) && Ordered(was + [e])
    ensures var first := if HookDone(e) && at.None? then Some(e.now) else at;
            && SeenAt(was + [e], first)
            && (HookDone(e) && !Idle(e) ==> (Closes(was + [e]) <==> e.now - first.value >= GRACE))
  {
    var es := was + [e];
    assert es[|was|] == e && forall k :: 0 <= k < |was| ==> es[k] == was[k];
    hide FiveIdleAndDone, HookDone, Idle, Polled;
    if HookDone(e) && at.None? {
      assert HookDone(es[|was|]) && es[|was|].now == e.now;
    } else if at.Some? {
      var i :| 0 <= i < |was| && HookDone(was[i]) && was[i].now == at.value
               && forall k :: 0 <= k < i ==> !HookDone(was[k]);
      assert HookDone(es[i]) && es[i].now == at.value;
    }
  }

  function Part(events: seq<Event>, lo: nat, hi: nat): seq<Event>
    requires lo <= hi <= |events|
  {
    events[lo..hi]
  }

  ghost predicate StartsAt(events: seq<Event>, i: nat)
    requires i < |events|
  {
    Starts(Part(events, 0, i + 1))
  }

  ghost predicate ClosesAt(events: seq<Event>, start: nat, i: nat)
    requires start < i < |events|
  {
    Closes(Part(events, start + 1, i + 1))
  }

  ghost predicate NoStart(events: seq<Event>, n: nat)
    requires n <= |events|
  {
    forall k: nat :: k < n ==> !StartsAt(events, k)
  }

  ghost predicate NoClose(events: seq<Event>, start: nat, n: nat)
    requires n <= |events|
  {
    forall k: nat :: start < k < n ==> !ClosesAt(events, start, k)
  }

  // Requests made once event n - 1 has been handled, the first one included.
  function Asked(events: seq<Event>, start: nat, n: nat): nat
    requires start < n <= |events|
  {
    1 + Retries(Part(events, start + 1, n))
  }

  // The loop's variables agree with the events before i, in either pass.
  ghost predicate InFirst(events: seq<Event>, i: nat, finished: int)
    requires i <= |events|
  {
    finished < ROUNDS && finished == Trail(Part(events, 0, i), false)
  }

  ghost predicate InSecond(events: seq<Event>, start: nat, i: nat, finished: int, at: Option<int>, requests: int)
    requires start < i <= |events|
  {
    && finished < ROUNDS && finished == Trail(Part(events, start + 1, i), true)
    && SeenAt(Part(events, start + 1, i), at)
    && requests == Asked(events, start, i)
  }

  // One event of the first pass.
  method First(ghost events: seq<Event>, ghost i: nat, e: Event, finished0: int) returns (finished: int, starts: bool)
    requires i < |events| && events[i] == e && InFirst(events, i, finished0)
    ensures starts <==> StartsAt(events, i)
    ensures if starts then InSecond(events, i, i + 1, finished, None, 1) else InFirst(events, i + 1, finished)
  {
    NextInFirst(events, i);
    Fresh(events, i);
    hide Part, Trail, StartsAt, SeenAt, Retries;
    finished, starts := finished0, false;
    match e
    case Tick(now, None, _) =>
    case Tick(now, Some(stats), _) =>
      if stats.completed == stats.total {
        finished := finished + 1;
        if finished == ROUNDS { finished, starts := 0, true; }
      } else {
        finished := 0;
      }
    case Expired(now) => finished, starts := 0, true;
  }

  // One event of the second pass.
  method Second(ghost events: seq<Event>, ghost start: nat, ghost i: nat, e: Event,
                finished0: int, at0: Option<int>, requests0: nat)
    returns (finished: int, at: Option<int>, requests: nat, closes: bool)
    requires start < i < |events| && events[i] == e && Ordered(events)
    requires InSecond(events, start, i, finished0, at0, requests0)
    ensures closes <==> ClosesAt(events, start, i)
    ensures !closes ==> InSecond(events, start, i + 1, finished, at, requests)
    ensures requests == Asked(events, start, i + 1)
  {
    NextInSecond(events, start, i, at0);
    hide Part, Trail, ClosesAt, SeenAt, Retries, Ordered;
    finished, at, requests, closes := finished0, at0, requests0, false;
    match e
    case Tick(now, None, _) =>
    case Tick(now, Some(stats), hook) =>
      var idle := stats.completed == stats.total;
      if hook == Some(true) {
        if at.None? { at := Some(now); }
        if idle {
          finished := finished + 1;
          if finished == ROUNDS { return finished, at, requests, true; }
        } else if now - at.value >= GRACE {
          return finished, at, requests, true;
        } else {
          finished := 0;
        }
      } else {
        finished := 0;
      }
      if hook.None? { requests := requests + 1; }
    case Expired(now) =>
  }

  // The index at which the second pass starts, and the one at which done is closed:
  // each the first that meets its condition. requests counts the calls that ask for the
  // session-end work.
  method Wait(events: seq<Event>) returns (start: Option<nat>, close: Option<nat>, requests: nat)
    requires Ordered(events)
    ensures start.None? ==> close.None? && NoStart(events, |events|) && requests == 0
    ensures start.Some? ==> start.value < |events| && StartsAt(events, start.value) && NoStart(events, start.value)
    ensures start.Some? && close.None? ==>
              NoClose(events, start.value, |events|) && requests == Asked(events, start.value, |events|)
    ensures start.Some? && close.Some? ==>
              && start.value < close.value < |events|
              && ClosesAt(events, start.value, close.value) && NoClose(events, start.value, close.value)
              && requests == Asked(events, start.value, close.value + 1)
  {
    start, close, requests := None, None, 0;
    var finished, endWork := 0, false;
    var hookDoneAt: Option<int> := None;
    assert InFirst(events, 0, 0);
    for i := 0 to |events|
      invariant close.None? && (endWork <==> start.Some?)
      invariant !endWork ==> NoStart(events, i) && InFirst(events, i, finished) && hookDoneAt.None? && requests == 0
      invariant endWork ==> start.value < i && StartsAt(events, start.value) && NoStart(events, start.value)
      invariant endWork ==> NoClose(events, start.value, i)
      invariant endWork ==> InSecond(events, start.value, i, finished, hookDoneAt, requests)
    {
      hide Part, InFirst, InSecond, StartsAt, ClosesAt, Ordered, Asked;
      var e := events[i];
      if endWork {
        var closes;
        finished, hookDoneAt, requests, closes := Second(events, start.value, i, e, finished, hookDoneAt, requests);
        if closes {
          close := Some(i);
          return;
        }
      } else {
        finished, endWork := First(events, i, e, finished);
        if endWork { start, requests := Some(i), 1; }
      }
    }
    if endWork { AskedSoFar(events, start.value, |events|, finished, hookDoneAt, requests); }
  }

  lemma AskedSoFar(events: seq<Event>, start: nat, i: nat, finished: int, at: Option<int>, requests: int)
    requires start < i <= |events| && InSecond(events, start, i, finished, at, requests)
    ensures requests == Asked(events, start, i)
  {}

  lemma NextInFirst(events: seq<Event>, i: nat)
    requires i < |events| && Trail(Part(events, 0, i), false) < ROUNDS
    ensures var was, e := Part(events, 0, i), events[i];
            && (StartsAt(events, i) <==> e.Expired? || (Idle(e) && Trail(was, false) + 1 == ROUNDS))
            && Trail(Part(events, 0, i + 1), false) ==
               if !Polled(e) then Trail(was, false) else if Idle(e) then Trail(was, false) + 1 else 0
  {
    hide Trail, Starts;
    assert Part(events, 0, i + 1) == Part(events, 0, i) + [events[i]];
    FirstRound(Part(events, 0, i), events[i]);
  }

  lemma NextInSecond(events: seq<Event>, start: nat, i: nat, at: Option<int>)
    requires start < i < |events| && Trail(Part(events, start + 1, i), true) < ROUNDS
    requires SeenAt(Part(events, start + 1, i), at) && Ordered(events)
    ensures var was, e := Part(events, start + 1, i), events[i];
            var first := if HookDone(e) && at.None? then Some(e.now) else at;
            && Trail(Part(events, start + 1, i + 1), true) ==
               (if !Polled(e) then Trail(was, true) else if Good(e, true) then Trail(was, true) + 1 else 0)
            && Retries(Part(events, start + 1, i + 1)) == Retries(was) + (if Polled(e) && e.hook.None? then 1 else 0)
            && SeenAt(Part(events, start + 1, i + 1), first)
            && (HookDone(e) ==> first.Some?)
            && (ClosesAt(events, start, i) <==>
                  HookDone(e) && if Idle(e) then Trail(was, true) + 1 == ROUNDS else e.now - first.value >= GRACE)
  {
    var was, e := Part(events, start + 1, i), events[i];
    assert Part(events, start + 1, i + 1) == was + [e];
    hide Trail, Closes, SeenAt, Retries;
    SecondRound(was, e);
    FirstSeen(was, e, at);
  }

  lemma Fresh(events: seq<Event>, i: nat)
    requires i < |events|
    ensures Trail(Part(events, i + 1, i + 1), true) == 0 == Retries(Part(events, i + 1, i + 1))
    ensures SeenAt(Part(events, i + 1, i + 1), None)
  {}
}
