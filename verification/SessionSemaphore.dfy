// The counting semaphore of a session, as the two classes that hold it.
module SessionSemaphore {
  import opened Wrappers

  // A pre-filled token channel: its capacity and the tokens left in it.
  datatype Tokens = Tokens(cap: nat, free: nat)

  predicate Sound(s: Tokens) {
    s.free <= s.cap
  }

  function Used(s: Tokens): int {
    s.cap - s.free
  }

  function Less(s: Tokens): Tokens
    requires s.free > 0
  {
    Tokens(s.cap, s.free - 1)
  }

  // A token that finds the channel full is dropped.
  function More(s: Tokens): Tokens {
    if s.free < s.cap then Tokens(s.cap, s.free + 1) else s
  }

  const MAX_NETWORK_CONNS := 500

  // Every session gets an equal share.
  function LimitFor(numOfSess: int): nat
    requires numOfSess > 0
  {
    MAX_NETWORK_CONNS / numOfSess
  }

  // The shares of all sessions together fit into 500, and no larger ones would.
  lemma LimitIs(numOfSess: int)
    requires numOfSess > 0
    ensures numOfSess * LimitFor(numOfSess) <= 500 < numOfSess * (LimitFor(numOfSess) + 1)
  {
    var q, r := LimitFor(numOfSess), MAX_NETWORK_CONNS % numOfSess;
    assert MAX_NETWORK_CONNS == q * numOfSess + r && 0 <= r < numOfSess;
    assert numOfSess * (q + 1) == q * numOfSess + numOfSess;
  }

  class Semaphore {
    const cap: nat
    var tokens: nat

    ghost predicate Valid()
      reads this
    {
      tokens <= cap
    }

    function View(): Tokens
      reads this
    {
      Tokens(cap, tokens)
    }

    constructor (cap: nat)
      ensures Valid() && View() == Tokens(cap, cap)
    {
      this.cap, tokens := cap, 0;
      new;
      for i := 0 to cap
        invariant tokens == i
      {
        tokens := tokens + 1;
      }
    }

    // Blocks until there is a token to take.
    method Acquire()
      requires Valid() && tokens > 0
      modifies this
      ensures Valid() && View() == Less(old(View()))
    {
      tokens := tokens - 1;
    }

    method Release() returns (sent: bool)
      requires Valid()
      modifies this
      ensures Valid() && View() == More(old(View()))
      ensures sent <==> Used(old(View())) > 0
    {
      sent := tokens < cap;
      if sent { tokens := tokens + 1; }
    }

    function InUse(): (n: int)
      requires Valid()
      reads this
      ensures 0 <= n <= cap && n == Used(View())
    {
      cap - tokens
    }
  }

  class SessSemaphore {
    var sem: Semaphore

    constructor (limit: nat)
      ensures fresh(sem) && sem.Valid() && sem.View() == Tokens(limit, limit)
    {
      sem := new Semaphore(limit);
    }

    // The new semaphore starts with as many slots taken as the old one had, up to
    // its own capacity; every one carried over is given back to the old one.
    method BuildNewSessionSemaphore(numOfSess: int)
      requires sem.Valid() && numOfSess > 0
      modifies this, sem
      ensures fresh(sem) && sem.Valid() && old(sem).Valid()
      ensures sem.cap == LimitFor(numOfSess)
      ensures Used(sem.View()) == Min(Used(old(sem.View())), sem.cap)
      ensures Used(old(sem).View()) + Used(sem.View()) == Used(old(sem.View()))
    {
      hide LimitFor;
      var limit := LimitFor(numOfSess);
      var next := new Semaphore(limit);
      for i := 0 to limit
        invariant sem == old(sem) && sem != next && fresh(next) && sem.Valid() && next.Valid() && next.cap == limit
        invariant next.InUse() == i
        invariant sem.InUse() + i == old(sem.InUse())
      {
        var sent := sem.Release();
        if !sent { break; }
        if next.tokens == 0 { break; }
        next.Acquire();
      }
      sem := next;
    }
  }
}
