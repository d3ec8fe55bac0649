// The logger's own methods, each run with the lock held from start to end.
module Logger {
  type Msg = string

  class Channel {
    var closed: bool

    constructor ()
      ensures !closed
    {
      closed := false;
    }
  }

  class Subscriber {
    const ch: Channel
    var q: seq<Msg>
    var done: bool

    constructor ()
      ensures fresh(ch) && !ch.closed && q == [] && !done
    {
      ch := new Channel();
      q, done := [], false;
    }

    method End()
      modifies this`done
      ensures done
    {
      if !done { done := true; }
    }
  }

  class Logger {
    var closed: bool
    var q: seq<Msg>
    var subscribed: seq<Subscriber>
    var count: nat

    // One channel per subscription, and a counter that agrees with the list.
    ghost predicate Valid()
      reads this, subscribed
    {
      && count == |subscribed|
      && (forall i, j :: 0 <= i < j < |subscribed| ==> subscribed[i].ch != subscribed[j].ch)
      && (forall s :: s in subscribed ==> !s.done)
    }

    constructor ()
      ensures Valid() && !closed && q == [] && subscribed == []
    {
      closed, q, subscribed, count := false, [], [], 0;
    }

    method Publish(msg: Msg)
      requires Valid()
      modifies this`q
      ensures q == if subscribed != [] then old(q) + [msg] else old(q)
    {
      if count > 0 { q := q + [msg]; }
    }

    method Subscribe() returns (ch: Channel)
      requires Valid()
      modifies this`subscribed, this`count
      ensures Valid() && fresh(ch) && ch.closed == closed
      ensures closed ==> subscribed == old(subscribed)
      ensures !closed ==>
                && |subscribed| == |old(subscribed)| + 1 && subscribed[..|old(subscribed)|] == old(subscribed)
                && subscribed[|old(subscribed)|].ch == ch && subscribed[|old(subscribed)|].q == []
    {
      var s := new Subscriber();
      if closed {
        s.ch.closed := true;
      } else {
        subscribed := subscribed + [s];
        count := |subscribed|;
      }
      ch := s.ch;
    }

    // At most one subscription has the channel; the others stay, in order.
    method Unsubscribe(ch: Channel)
      requires Valid()
      modifies this`subscribed, this`count, subscribed
      ensures Valid()
      ensures forall s :: s in subscribed <==> s in old(subscribed) && s.ch != ch
      ensures forall s :: s in old(subscribed) ==> s.q == old(s.q) && (s.done <==> s.ch == ch)
      ensures subscribed == old(subscribed) || exists i ::
                0 <= i < |old(subscribed)| && subscribed == old(subscribed)[..i] + old(subscribed)[i + 1..]
    {
      for i := 0 to |subscribed|
        invariant subscribed == old(subscribed) && Valid()
        invariant forall k :: 0 <= k < i ==> subscribed[k].ch != ch
      {
        var s := subscribed[i];
        if s.ch == ch {
          var was := subscribed;
          subscribed := subscribed[..i] + subscribed[i + 1..];
          count := |subscribed|;
          s.End();
          assert forall k :: 0 <= k < |subscribed| ==> subscribed[k] == was[if k < i then k else k + 1];
          assert forall k :: 0 <= k < |was| && k != i ==> was[k] == subscribed[if k < i then k else k - 1];
          return;
        }
      }
    }

    // What Close does once the lock is its own.
    method EndAll()
      requires Valid() && closed
      modifies this`subscribed, this`count, subscribed
      ensures Valid() && subscribed == [] && count == 0
      ensures forall s :: s in old(subscribed) ==> s.done && s.q == old(s.q)
    {
      for i := 0 to |subscribed|
        invariant subscribed == old(subscribed)
        invariant forall k :: 0 <= k < i ==> subscribed[k].done
        invariant forall s :: s in subscribed ==> s.q == old(s.q)
      {
        subscribed[i].End();
      }
      subscribed, count := [], 0;
    }

    method MsgToSubscribers(msg: Msg)
      requires Valid()
      modifies subscribed`q
      ensures Valid() && forall s :: s in subscribed ==> s.q == old(s.q) + [msg]
    {
      for i := 0 to |subscribed|
        invariant forall k :: 0 <= k < i ==> subscribed[k].q == old(subscribed[k].q) + [msg]
        invariant forall k :: i <= k < |subscribed| ==> subscribed[k].q == old(subscribed[k].q)
      {
        subscribed[i].q := subscribed[i].q + [msg];
      }
    }
  }
}
