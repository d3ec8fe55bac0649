// The search back along aliases for a name in scope, which has no memory of where it
// has been.
module ScopeSearch {
  import opened Wrappers

  type Id = string

  // Per name, the names with an alias record to it, in order; scope holds the names the
  // search looks for.
  datatype Aliases = Aliases(back: map<Id, seq<Id>>, scope: set<Id>)

  function BackOf(g: Aliases, a: Id): seq<Id> {
    if a in g.back then g.back[a] else []
  }

  // The search with at most depth nested calls; None when that is not enough.
  function FollowBack(g: Aliases, a: Id, depth: nat): Option<bool>
    decreases depth, 1, 0
  {
    if depth == 0 then None else TryEach(g, BackOf(g, a), depth)
  }

  function TryEach(g: Aliases, names: seq<Id>, depth: nat): Option<bool>
    requires depth > 0
    decreases depth, 0, |names|
  {
    if names == [] then Some(false)
    else if names[0] in g.scope then Some(true)
    else
      match FollowBack(g, names[0], depth - 1)
      case None => None
      case Some(true) => Some(true)
      case Some(false) => TryEach(g, names[1..], depth)
  }

  // A chain of aliases from a name in scope down to a.
  ghost predicate Chain(g: Aliases, p: seq<Id>) {
    && |p| >= 2 && p[|p| - 1] in g.scope
    && forall i :: 0 <= i < |p| - 1 ==> p[i + 1] in BackOf(g, p[i])
  }

  ghost predicate HasChain(g: Aliases, a: Id) {
    exists p :: Chain(g, p) && p[0] == a
  }

  lemma Prepend(g: Aliases, a: Id, p: seq<Id>)
    requires Chain(g, p) && p[0] in BackOf(g, a)
    ensures HasChain(g, a)
  {
    var q := [a] + p;
    assert Chain(g, q) && q[0] == a;
  }

  lemma Split(g: Aliases, a: Id, p: seq<Id>)
    requires Chain(g, p) && p[0] == a
    ensures p[1] in BackOf(g, a) && (p[1] in g.scope || HasChain(g, p[1]))
  {
    assert p[1] in BackOf(g, p[0]);
    if |p| > 2 {
      assert Chain(g, p[1..]);
    } else {
      assert p[1] == p[|p| - 1];
    }
  }

  // When the search comes back, its answer is right.
  lemma {:induction false} AnswerIsRight(g: Aliases, a: Id, depth: nat)
    requires FollowBack(g, a, depth).Some?
    ensures FollowBack(g, a, depth).value <==> HasChain(g, a)
    decreases depth, 1, 0
  {
    EachIsRight(g, a, BackOf(g, a), depth);
    if p :| Chain(g, p) && p[0] == a { Split(g, a, p); }
  }

  lemma {:induction false} EachIsRight(g: Aliases, a: Id, names: seq<Id>, depth: nat)
    requires depth > 0 && TryEach(g, names, depth).Some? && forall x <- names :: x in BackOf(g, a)
    ensures TryEach(g, names, depth).value ==> HasChain(g, a)
    ensures !TryEach(g, names, depth).value ==> forall x <- names :: x !in g.scope && !HasChain(g, x)
    decreases depth, 0, |names|
  {
    if names != [] {
      var x := names[0];
      assert x in names && names == [x] + names[1..];
      if x in g.scope {
        assert Chain(g, [a, x]) && [a, x][0] == a;
      } else {
        AnswerIsRight(g, x, depth - 1);
        if FollowBack(g, x, depth - 1).value {
          var p :| Chain(g, p) && p[0] == x;
          Prepend(g, a, p);
        } else {
          assert forall y <- names[1..] :: y in names;
          EachIsRight(g, a, names[1..], depth);
        }
      }
    }
  }

  // Steps back from a, wherever they lead.
  predicate Walk(g: Aliases, p: seq<Id>) {
    p != [] && forall i :: 0 <= i < |p| - 1 ==> p[i + 1] in BackOf(g, p[i])
  }

  // No walk from a takes n steps: what a cycle reachable from a rules out.
  ghost predicate Bounded(g: Aliases, a: Id, n: nat) {
    forall p :: Walk(g, p) && p[0] == a ==> |p| - 1 < n
  }

  lemma BoundedNext(g: Aliases, a: Id, x: Id, n: nat)
    requires Bounded(g, a, n) && x in BackOf(g, a)
    ensures n > 1 && Bounded(g, x, n - 1)
  {
    assert Walk(g, [a, x]) && [a, x][0] == a;
    forall p | Walk(g, p) && p[0] == x ensures |p| - 1 < n - 1 {
      var q := [a] + p;
      assert Walk(g, q) && q[0] == a;
    }
  }

  lemma {:induction false} ComesBack(g: Aliases, a: Id, n: nat)
    requires Bounded(g, a, n)
    ensures FollowBack(g, a, n).Some?
    decreases n, 1, 0
  {
    assert Walk(g, [a]) && [a][0] == a;
    EachComesBack(g, a, BackOf(g, a), n);
  }

  lemma {:induction false} EachComesBack(g: Aliases, a: Id, names: seq<Id>, n: nat)
    requires Bounded(g, a, n) && n > 0 && forall x <- names :: x in BackOf(g, a)
    ensures TryEach(g, names, n).Some?
    decreases n, 0, |names|
  {
    if names != [] {
      var x := names[0];
      assert x in names && forall y <- names[1..] :: y in names;
      BoundedNext(g, a, x, n);
      ComesBack(g, x, n - 1);
      EachComesBack(g, a, names[1..], n);
    }
  }

  // A search that fails has been everywhere.
  lemma {:induction false} FailureIsThorough(g: Aliases, a: Id, depth: nat, p: seq<Id>)
    requires FollowBack(g, a, depth) == Some(false) && Walk(g, p) && p[0] == a
    ensures |p| - 1 < depth
    decreases depth
  {
    if |p| > 1 {
      assert p[1] in BackOf(g, p[0]);
      FailedEach(g, BackOf(g, a), depth, p[1]);
      assert Walk(g, p[1..]) by {
        forall i | 0 <= i < |p| - 2 ensures p[1..][i + 1] in BackOf(g, p[1..][i]) {
          assert p[i + 2] in BackOf(g, p[i + 1]);
        }
      }
      FailureIsThorough(g, p[1], depth - 1, p[1..]);
    }
  }

  lemma {:induction false} FailedEach(g: Aliases, names: seq<Id>, depth: nat, x: Id)
    requires depth > 0 && TryEach(g, names, depth) == Some(false) && x in names
    ensures FollowBack(g, x, depth - 1) == Some(false)
    decreases |names|
  {
    if x != names[0] { FailedEach(g, names[1..], depth, x); }
  }

  // For a name without a chain from the scope, the search comes back exactly when the
  // walks from it are bounded, that is, when they meet no cycle.
  lemma ComesBackIffBounded(g: Aliases, a: Id)
    requires !HasChain(g, a)
    ensures (exists depth :: FollowBack(g, a, depth).Some?) <==> exists n :: Bounded(g, a, n)
  {
    if depth :| FollowBack(g, a, depth).Some? {
      AnswerIsRight(g, a, depth);
      forall p | Walk(g, p) && p[0] == a ensures |p| - 1 < depth { FailureIsThorough(g, a, depth, p); }
      assert Bounded(g, a, depth);
    }
    if n :| Bounded(g, a, n) { ComesBack(g, a, n); }
  }

  lemma {:induction false} Deeper(g: Aliases, a: Id, d: nat, e: nat)
    requires d <= e && FollowBack(g, a, d).Some?
    ensures FollowBack(g, a, e) == FollowBack(g, a, d)
    decreases d, 1, 0
  {
    EachDeeper(g, BackOf(g, a), d, e);
  }

  lemma {:induction false} EachDeeper(g: Aliases, names: seq<Id>, d: nat, e: nat)
    requires 0 < d <= e && TryEach(g, names, d).Some?
    ensures TryEach(g, names, e) == TryEach(g, names, d)
    decreases d, 0, |names|
  {
    if names != [] && names[0] !in g.scope {
      Deeper(g, names[0], d - 1, e - 1);
      if FollowBack(g, names[0], d - 1) == Some(false) { EachDeeper(g, names[1..], d, e); }
    }
  }

  // ---- When the search comes back ----

  // What a search from the name cannot settle by failing.
  ghost predicate Undecided(g: Aliases, a: Id) {
    HasChain(g, a) || forall n :: !Bounded(g, a, n)
  }

  // The first undecided name the search tries, if it gets to one before a name in scope.
  ghost function FirstUndecided(g: Aliases, names: seq<Id>): Option<Id> {
    if names == [] || names[0] in g.scope then None
    else if Undecided(g, names[0]) then Some(names[0])
    else FirstUndecided(g, names[1..])
  }

  // From undecided name to undecided name, each with a chain, the way ends.
  ghost predicate TrailEnds(g: Aliases, a: Id, steps: nat)
    decreases steps
  {
    steps > 0
    && match FirstUndecided(g, BackOf(g, a))
       case None => true
       case Some(x) => HasChain(g, x) && TrailEnds(g, x, steps - 1)
  }

  lemma {:induction false} TrailOfSearch(g: Aliases, a: Id, depth: nat)
    requires FollowBack(g, a, depth).Some?
    ensures TrailEnds(g, a, depth)
    decreases depth, 1, 0
  {
    TrailOfEach(g, BackOf(g, a), depth);
  }

  lemma {:induction false} TrailOfEach(g: Aliases, names: seq<Id>, depth: nat)
    requires depth > 0 && TryEach(g, names, depth).Some?
    ensures match FirstUndecided(g, names)
            case None => true
            case Some(x) => HasChain(g, x) && TrailEnds(g, x, depth - 1)
    decreases depth, 0, |names|
  {
    if names != [] && names[0] !in g.scope {
      var x := names[0];
      AnswerIsRight(g, x, depth - 1);
      if HasChain(g, x) {
        TrailOfSearch(g, x, depth - 1);
      } else {
        ComesBackIffBounded(g, x);
        TrailOfEach(g, names[1..], depth);
      }
    }
  }

  lemma {:induction false} SearchOfTrail(g: Aliases, a: Id, steps: nat) returns (depth: nat)
    requires TrailEnds(g, a, steps)
    ensures FollowBack(g, a, depth).Some?
    decreases steps, 1, 0
  {
    depth := SearchOfEach(g, BackOf(g, a), steps);
  }

  lemma {:induction false} SearchOfEach(g: Aliases, names: seq<Id>, steps: nat) returns (depth: nat)
    requires steps > 0
    requires match FirstUndecided(g, names)
             case None => true
             case Some(x) => HasChain(g, x) && TrailEnds(g, x, steps - 1)
    ensures depth > 0 && TryEach(g, names, depth).Some?
    decreases steps, 0, |names|
  {
    depth := 1;
    if names != [] && names[0] !in g.scope {
      var x := names[0];
      if Undecided(g, x) {
        var d := SearchOfTrail(g, x, steps - 1);
        AnswerIsRight(g, x, d);
        depth := d + 1;
      } else {
        ComesBackIffBounded(g, x);
        var d :| FollowBack(g, x, d).Some?;
        AnswerIsRight(g, x, d);
        var rest := SearchOfEach(g, names[1..], steps);
        depth := d + 1 + rest;
        Deeper(g, x, d, depth - 1);
        EachDeeper(g, names[1..], rest, depth);
      }
    }
  }

  // For every name: the search comes back exactly when that trail ends.
  lemma ComesBackIffTrailEnds(g: Aliases, a: Id)
    ensures (exists depth :: FollowBack(g, a, depth).Some?) <==> exists steps :: TrailEnds(g, a, steps)
  {
    if depth :| FollowBack(g, a, depth).Some? {
      TrailOfSearch(g, a, depth);
      assert exists steps :: TrailEnds(g, a, steps);
    }
    if steps :| TrailEnds(g, a, steps) {
      var depth := SearchOfTrail(g, a, steps);
      assert exists d :: FollowBack(g, a, d).Some?;
    }
  }

  // ---- How deep a search gets that comes back ----

  function StuckAt(g: Aliases, depth: nat): set<Id> {
    set x | x in g.back && FollowBack(g, x, depth).None?
  }

  predicate SameNext(g: Aliases, x: Id, depth: nat) {
    FollowBack(g, x, depth + 1) == FollowBack(g, x, depth)
  }

  // More depth changes nothing.
  ghost predicate Settled(g: Aliases, depth: nat) {
    forall x :: SameNext(g, x, depth)
  }

  lemma {:induction false} EachSettled(g: Aliases, names: seq<Id>, depth: nat)
    requires Settled(g, depth)
    ensures TryEach(g, names, depth + 2) == TryEach(g, names, depth + 1)
    decreases |names|
  {
    if names != [] {
      EachSettled(g, names[1..], depth);
      assert SameNext(g, names[0], depth);
    }
  }

  lemma {:induction false} StaysSettled(g: Aliases, a: Id, depth: nat, more: nat)
    requires Settled(g, depth) && depth <= more
    ensures FollowBack(g, a, more) == FollowBack(g, a, depth)
    decreases more - depth
  {
    if depth < more {
      assert SameNext(g, a, depth);
      var next := depth + 1;
      forall x ensures SameNext(g, x, next) {
        EachSettled(g, BackOf(g, x), depth);
      }
      StaysSettled(g, a, depth + 1, more);
    }
  }

  lemma StuckShrinks(g: Aliases, depth: nat)
    requires depth > 0
    ensures StuckAt(g, depth + 1) <= StuckAt(g, depth)
    ensures StuckAt(g, depth + 1) == StuckAt(g, depth) ==> Settled(g, depth)
  {
    forall x ensures FollowBack(g, x, depth).Some? ==> SameNext(g, x, depth) {
      if FollowBack(g, x, depth).Some? { Deeper(g, x, depth, depth + 1); }
    }
    forall x ensures FollowBack(g, x, depth).None? ==> x in StuckAt(g, depth) {
      if x !in g.back { assert TryEach(g, BackOf(g, x), depth) == Some(false); }
    }
    hide FollowBack;
    if StuckAt(g, depth + 1) == StuckAt(g, depth) {
      forall x ensures SameNext(g, x, depth) {
        if FollowBack(g, x, depth).None? { assert x in StuckAt(g, depth + 1); }
      }
    }
    forall x | x in StuckAt(g, depth + 1) ensures x in StuckAt(g, depth) {
      assert FollowBack(g, x, depth).Some? ==> SameNext(g, x, depth);
    }
  }

  lemma {:induction false} SettlesSoon(g: Aliases, depth: nat) returns (d: nat)
    requires depth > 0 && |StuckAt(g, depth)| + depth <= |g.back| + 1
    ensures d <= |g.back| + 1 && Settled(g, d)
    decreases |StuckAt(g, depth)|
  {
    StuckShrinks(g, depth);
    if StuckAt(g, depth + 1) == StuckAt(g, depth) {
      d := depth;
    } else {
      var x :| x in StuckAt(g, depth) && x !in StuckAt(g, depth + 1);
      Smaller(StuckAt(g, depth + 1), StuckAt(g, depth), x);
      d := SettlesSoon(g, depth + 1);
    }
  }

  // A search that needs more nested calls than there are names never comes back.
  lemma EnoughDepth(g: Aliases, a: Id, depth: nat)
    requires FollowBack(g, a, |g.back| + 1).None?
    ensures FollowBack(g, a, depth).None?
  {
    SubsetSize(StuckAt(g, 1), g.back.Keys);
    var d := SettlesSoon(g, 1);
    StaysSettled(g, a, d, |g.back| + 1);
    if FollowBack(g, a, depth).Some? {
      Deeper(g, a, depth, depth + d);
      StaysSettled(g, a, d, depth + d);
    }
  }

  // ---- A search that does not ----

  // Two aliases of each other, neither in scope: no depth is enough.
  lemma {:induction false} AliasLoop(g: Aliases, a: Id, b: Id, depth: nat)
    requires BackOf(g, a) == [b] && BackOf(g, b) == [a] && a !in g.scope && b !in g.scope
    ensures FollowBack(g, a, depth).None?
    decreases depth
  {
    if depth > 0 { AliasLoop(g, b, a, depth - 1); }
  }

  // Nor is it for a name that one of the two is an alias of.
  lemma NeverComesBack(g: Aliases, x: Id, a: Id, b: Id, depth: nat)
    requires BackOf(g, x) == [a] && BackOf(g, a) == [b] && BackOf(g, b) == [a]
    requires a !in g.scope && b !in g.scope
    ensures FollowBack(g, x, depth).None?
  {
    if depth > 0 { AliasLoop(g, a, b, depth - 1); }
  }
}
