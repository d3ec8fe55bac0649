// The log fan-out as interleaved steps: publishers, the broadcaster, one pump per
// subscription, readers, and calls of Subscribe, Unsubscribe and Close, which hold
// the lock for several steps.
module LogFanout {
  import opened Wrappers

  type Msg = string

  const CHANNEL_SIZE := 100

  datatype Pump = Unstarted | Waiting | Working | Offering | Returning | Gone

  // One subscription. hand is the message the pump has taken from q and not sent.
  // from and ended are the numbers of broadcasts before it began and before it ended.
  // closes counts how often ch was closed, sentLate whether it was sent on after that.
  datatype Sub = Sub(ch: seq<Msg>, hand: seq<Msg>, q: seq<Msg>, read: seq<Msg>, pump: Pump,
                     from: nat, ended: Option<nat>, closes: nat, sentLate: bool)

  datatype LocalStep = Start | Wake | Next | Send | Return | CloseChannel | Read

  predicate CanDo(s: Sub, a: LocalStep) {
    match a
    case Start => s.pump.Unstarted?
    case Wake => s.pump.Waiting?
    case Next => s.pump.Working?
    case Send => s.pump.Offering? && s.hand != [] && |s.ch| < CHANNEL_SIZE
    case Return => s.ended.Some? && (s.pump.Waiting? || s.pump.Offering?)
    case CloseChannel => s.pump.Returning?
    case Read => s.ch != []
  }

  // The steps of a pump and of the reader of its channel.
  function Local(s: Sub, a: LocalStep): Sub
    requires CanDo(s, a)
  {
    match a
    case Start => s.(pump := Waiting)
    case Wake => s.(pump := Working)
    case Next => if s.q == [] then s.(pump := Waiting) else s.(hand := [s.q[0]], q := s.q[1..], pump := Offering)
    case Send => s.(ch := s.ch + [s.hand[0]], hand := [], pump := Working, sentLate := s.sentLate || s.closes > 0)
    case Return => s.(pump := Returning)
    case CloseChannel => s.(pump := Gone, closes := s.closes + 1)
    case Read => s.(ch := s.ch[1..], read := s.read + [s.ch[0]])
  }

  // What was read, and what is still under way, oldest first.
  function Stream(s: Sub): seq<Msg> {
    s.read + s.ch + s.hand + s.q
  }

  predicate Sane(s: Sub) {
    && |s.ch| <= CHANNEL_SIZE && !s.sentLate
    && s.closes == (if s.pump.Gone? then 1 else 0)
    && (s.pump.Offering? ==> |s.hand| == 1)
    && (s.pump.Unstarted? || s.pump.Waiting? || s.pump.Working? ==> s.hand == [])
    && (s.pump.Returning? || s.pump.Gone? ==> s.ended.Some?)
  }

  // A pump with a message in hand waits exactly while its channel holds a hundred.
  lemma SendWaits(s: Sub)
    requires s.pump.Offering? && s.hand != []
    ensures CanDo(s, Send) <==> |s.ch| < 100
    ensures CanDo(s, Send) ==> Local(s, Send).ch == s.ch + [s.hand[0]] && Local(s, Send).hand == []
  {}

  lemma LocalKeeps(s: Sub, a: LocalStep)
    requires CanDo(s, a) && Sane(s)
    ensures Stream(Local(s, a)) == Stream(s) && Sane(Local(s, a))
    ensures Local(s, a).from == s.from && Local(s, a).ended == s.ended
  {}

  datatype Broadcaster = Parked | Draining | Holding(msg: Msg) | Delivering | Stopped

  datatype Closer = NotCalled | Emptying | WantsLock | HasLock | Returned

  // Who holds the lock, and how far it got.
  datatype Lock =
    | Free
    | Joining(id: nat)
    | Leaving(id: nat)
    | Uncounted(id: nat)
    | Sending(msg: Msg, next: nat)
    | Ending(next: nat)
    | Cleared

  // subs are all subscriptions ever, list the current ones by index. broadcast and
  // accepted are histories; pending are publishers that saw a subscriber and have not
  // appended yet.
  datatype State = State(subs: seq<Sub>, list: seq<nat>, count: nat, lock: Lock, q: seq<Msg>,
                         pending: multiset<Msg>, caster: Broadcaster, closer: Closer, closed: bool,
                         broadcast: seq<Msg>, accepted: seq<Msg>)

  const INIT := State([], [], 0, Free, [], multiset{}, Parked, NotCalled, false, [], [])

  datatype Action =
    | Check(m: Msg)
    | Append(m: Msg)
    | Subscribe
    | SubscribeEnd
    | Unsubscribe(id: nat)
    | UnsubscribeCount
    | UnsubscribeEnd
    | CasterWakes
    | CasterTakes
    | CasterLocks
    | CasterSends
    | CasterUnlocks
    | CasterStops
    | CloseDone
    | CloseDrains
    | CloseLocks
    | CloseEnds
    | CloseClears
    | CloseUnlocks
    | Do(id: nat, step: LocalStep)

  predicate Enabled(s: State, a: Action) {
    match a
    case Check(m) => true
    case Append(m) => m in s.pending
    case Subscribe => s.lock.Free?
    case SubscribeEnd => s.lock.Joining? && s.lock.id < |s.subs|
    case Unsubscribe(id) => s.lock.Free?
    case UnsubscribeCount => s.lock.Leaving?
    case UnsubscribeEnd => s.lock.Uncounted? && s.lock.id < |s.subs|
    case CasterWakes => s.caster.Parked?
    case CasterTakes => s.caster.Draining?
    case CasterLocks => s.caster.Holding? && s.lock.Free?
    case CasterSends => s.lock.Sending? && s.lock.next < |s.list| && s.list[s.lock.next] < |s.subs|
    case CasterUnlocks => s.lock.Sending? && s.lock.next == |s.list|
    case CasterStops => s.caster.Parked? && s.closed
    case CloseDone => s.closer.NotCalled?
    case CloseDrains => s.closer.Emptying?
    case CloseLocks => s.closer.WantsLock? && s.lock.Free?
    case CloseEnds => s.lock.Ending? && s.lock.next < |s.list| && s.list[s.lock.next] < |s.subs|
    case CloseClears => s.lock.Ending? && s.lock.next == |s.list|
    case CloseUnlocks => s.lock.Cleared?
    case Do(id, step) => id < |s.subs| && CanDo(s.subs[id], step) && (step.Start? ==> s.lock != Joining(id))
  }

  function Without(list: seq<nat>, id: nat): seq<nat> {
    if list == [] then [] else if list[0] == id then list[1..] else [list[0]] + Without(list[1..], id)
  }

  function Ended(s: State, id: nat): seq<Sub>
    requires id < |s.subs|
  {
    if s.subs[id].ended.Some? then s.subs else s.subs[id := s.subs[id].(ended := Some(|s.broadcast|))]
  }

  function Apply(s: State, a: Action): State
    requires Enabled(s, a)
  {
    match a
    case Check(m) => if s.count > 0 then s.(pending := s.pending + multiset{m}) else s
    case Append(m) => s.(pending := s.pending - multiset{m}, q := s.q + [m], accepted := s.accepted + [m])
    case Subscribe =>
      var n := |s.broadcast|;
      if s.closed then s.(subs := s.subs + [Sub([], [], [], [], Gone, n, Some(n), 1, false)])
      else s.(subs := s.subs + [Sub([], [], [], [], Unstarted, n, None, 0, false)],
              list := s.list + [|s.subs|], lock := Joining(|s.subs|))
    case SubscribeEnd => s.(count := |s.list|, lock := Free)
    case Unsubscribe(id) => if id in s.list then s.(list := Without(s.list, id), lock := Leaving(id)) else s
    case UnsubscribeCount => s.(count := |s.list|, lock := Uncounted(s.lock.id))
    case UnsubscribeEnd => s.(subs := Ended(s, s.lock.id), lock := Free)
    case CasterWakes => s.(caster := Draining)
    case CasterTakes =>
      if s.q == [] then s.(caster := Parked) else s.(caster := Holding(s.q[0]), q := s.q[1..])
    case CasterLocks =>
      s.(caster := Delivering, lock := Sending(s.caster.msg, 0), broadcast := s.broadcast + [s.caster.msg])
    case CasterSends =>
      var id := s.list[s.lock.next];
      s.(subs := s.subs[id := s.subs[id].(q := s.subs[id].q + [s.lock.msg])],
      lock := Sending(s.lock.msg, s.lock.next + 1))
    case CasterUnlocks => s.(lock := Free, caster := Draining)
    case CasterStops => s.(caster := Stopped)
    case CloseDone => s.(closed := true, closer := Emptying)
    case CloseDrains => if s.q == [] then s.(closer := WantsLock) else s.(q := s.q[1..])
    case CloseLocks => s.(closer := HasLock, lock := Ending(0))
    case CloseEnds => s.(subs := Ended(s, s.list[s.lock.next]), lock := Ending(s.lock.next + 1))
    case CloseClears => s.(list := [], lock := Cleared)
    case CloseUnlocks => s.(count := 0, lock := Free, closer := Returned)
    case Do(id, step) => s.(subs := s.subs[id := Local(s.subs[id], step)])
  }

  predicate Executes(run: seq<Action>)
    decreases |run|, 0
  {
    run == [] || (Executes(run[..|run| - 1]) && Enabled(After(run[..|run| - 1]), run[|run| - 1]))
  }

  function After(run: seq<Action>): State
    requires Executes(run)
    decreases |run|, 1
  {
    if run == [] then INIT else Apply(After(run[..|run| - 1]), run[|run| - 1])
  }

  // A message is let through exactly when there is a subscriber at that moment.
  lemma PublishAsks(s: State, m: Msg)
    ensures s.count == 0 ==> Apply(s, Check(m)) == s
    ensures s.count > 0 ==> m in Apply(s, Check(m)).pending
  {}
}
