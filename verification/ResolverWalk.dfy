// The bounded walk from a name to the addresses it resolves to, on any finite graph.
module ResolverWalk {
  import opened Wrappers

  type Id = string

  datatype Kind = IPAddress | FQDN | Other

  // Outgoing record edges per entity, in order; None where the edge has no target.
  // An entity without an entry is one whose edges cannot be read. kinds holds the
  // entities that can be found.
  datatype Graph = Graph(edges: map<Id, seq<Option<Id>>>, kinds: map<Id, Kind>)

  const MAX_HOPS := 5

  predicate Edge(g: Graph, a: Id, b: Id) {
    a in g.edges && Some(b) in g.edges[a] && b in g.kinds
  }

  predicate IsKind(g: Graph, x: Id, k: Kind) {
    x in g.kinds && g.kinds[x] == k
  }

  // A path of at least one edge whose interior nodes are names.
  ghost predicate Walk(g: Graph, p: seq<Id>) {
    && |p| >= 2
    && (forall i :: 0 <= i < |p| - 1 ==> Edge(g, p[i], p[i + 1]))
    && (forall i :: 0 < i < |p| - 1 ==> IsKind(g, p[i], FQDN))
  }

  ghost predicate Reaches(g: Graph, a: Id, b: Id, hops: nat) {
    exists p :: Walk(g, p) && p[0] == a && p[|p| - 1] == b && |p| - 1 <= hops
  }

  function Targets(g: Graph, from: set<Id>): set<Id> {
    set b | b in g.kinds && exists c <- from :: Edge(g, c, b)
  }

  function Names(g: Graph, s: set<Id>): set<Id> {
    set x | x in s && IsKind(g, x, FQDN)
  }

  // The nodes reached in at most h hops.
  function Within(g: Graph, a: Id, h: nat): set<Id> {
    if h == 0 then {}
    else Within(g, a, h - 1) + Targets(g, {a} + Names(g, Within(g, a, h - 1)))
  }

  lemma Longer(g: Graph, q: seq<Id>, x: Id) returns (p: seq<Id>)
    requires Walk(g, q) && IsKind(g, q[|q| - 1], FQDN) && Edge(g, q[|q| - 1], x)
    ensures Walk(g, p) && p[0] == q[0] && p[|p| - 1] == x && |p| == |q| + 1
  {
    p := q + [x];
    hide Edge, IsKind;
    forall i | 0 <= i < |p| - 1 ensures Edge(g, p[i], p[i + 1]) {
      if i < |q| - 1 { assert Edge(g, q[i], q[i + 1]); }
    }
  }

  lemma {:induction false} WithinToWalk(g: Graph, a: Id, h: nat, x: Id) returns (p: seq<Id>)
    requires x in Within(g, a, h)
    ensures Walk(g, p) && p[0] == a && p[|p| - 1] == x && |p| - 1 <= h
  {
    var before := Within(g, a, h - 1);
    if x in before {
      p := WithinToWalk(g, a, h - 1, x);
    } else if Edge(g, a, x) {
      p := [a, x];
    } else {
      var c :| c in Names(g, before) && Edge(g, c, x);
      var q := WithinToWalk(g, a, h - 1, c);
      hide Within;
      p := Longer(g, q, x);
    }
  }

  lemma {:induction false} WalkToWithin(g: Graph, p: seq<Id>, h: nat)
    requires Walk(g, p) && |p| - 1 <= h
    ensures p[|p| - 1] in Within(g, p[0], h)
    decreases h
  {
    var n := |p| - 1;
    assert Edge(g, p[n - 1], p[n]);
    if n > 1 {
      WalkToWithin(g, p[..n], h - 1);
      assert p[..n][|p[..n]| - 1] == p[n - 1] && IsKind(g, p[n - 1], FQDN);
    }
  }

  lemma WithinIffReaches(g: Graph, a: Id, h: nat, x: Id)
    ensures x in Within(g, a, h) <==> Reaches(g, a, x, h)
  {
    if x in Within(g, a, h) { var p := WithinToWalk(g, a, h, x); }
    if p :| Walk(g, p) && p[0] == a && p[|p| - 1] == x && |p| - 1 <= h { WalkToWithin(g, p, h); }
  }

  // What has been seen after h hops, and where the walk still has to look.
  ghost predicate Explored(g: Graph, a: Id, h: nat, seen: set<Id>, frontier: seq<Id>) {
    && seen == Within(g, a, h)
    && (forall c <- frontier :: c == a || c in Names(g, seen))
    && (forall c :: (c == a || c in Names(g, seen)) && c !in frontier ==> Targets(g, {c}) <= seen)
  }

  // ips lists the addresses seen.
  ghost predicate Collected(g: Graph, seen: set<Id>, ips: seq<Id>) {
    Distinct(ips) && forall x :: x in ips <==> x in seen && IsKind(g, x, IPAddress)
  }

  // Within one hop: the targets of done have joined was, and next lists the new names.
  ghost predicate Hop(g: Graph, was: set<Id>, targets: set<Id>, seen: set<Id>, next: seq<Id>) {
    && seen == was + targets
    && forall x :: x in next <==> x in seen - was && IsKind(g, x, FQDN)
  }

  method ResolvedIPsForFQDN(g: Graph, ent: Id) returns (ips: seq<Id>)
    ensures Distinct(ips)
    ensures forall x :: x in ips <==> IsKind(g, x, IPAddress) && Reaches(g, ent, x, 5)
  {
    var seen: set<Id>, frontier, hop := {}, [ent], 0;
    ips := [];
    assert Explored(g, ent, 0, seen, frontier);
    while hop < MAX_HOPS && frontier != []
      invariant 0 <= hop <= MAX_HOPS
      invariant Explored(g, ent, hop, seen, frontier) && Collected(g, seen, ips)
    {
      hide Explored, Collected, Hop, Edge, Within;
      ghost var was := seen;
      var next: seq<Id> := [];
      NoTargets(g, seen, frontier);
      for i := 0 to |frontier|
        invariant Hop(g, was, Targets(g, Elems(frontier[..i])), seen, next) && Collected(g, seen, ips)
      {
        seen, next, ips := Follow(g, frontier[i], was, Targets(g, Elems(frontier[..i])), seen, next, ips);
        OneMore(g, frontier, i);
      }
      assert frontier[..|frontier|] == frontier;
      Advance(g, ent, hop, was, frontier, seen, next);
      frontier, hop := next, hop + 1;
    }
    StandsStill(g, ent, hop, MAX_HOPS, seen, frontier);
    forall x ensures x in ips <==> IsKind(g, x, IPAddress) && Reaches(g, ent, x, MAX_HOPS) {
      WithinIffReaches(g, ent, MAX_HOPS, x);
    }
  }

  function TargetSet(g: Graph, es: seq<Option<Id>>): set<Id> {
    set e | e in es && e.Some? && e.value in g.kinds :: e.value
  }

  lemma NoTargets(g: Graph, seen: set<Id>, frontier: seq<Id>)
    ensures Hop(g, seen, Targets(g, Elems(frontier[..0])), seen, [])
  {}

  lemma OneMore(g: Graph, frontier: seq<Id>, i: nat)
    requires i < |frontier|
    ensures Targets(g, Elems(frontier[..i + 1])) ==
            Targets(g, Elems(frontier[..i])) + if frontier[i] in g.edges then TargetSet(g, g.edges[frontier[i]]) else {}
  {
    var c := frontier[i];
    assert Elems(frontier[..i + 1]) == Elems(frontier[..i]) + {c};
    forall b
      ensures Edge(g, c, b) <==> c in g.edges && b in TargetSet(g, g.edges[c])
    {
      if c in g.edges && Some(b) in g.edges[c] { assert Some(b).value == b; }
    }
  }

  // The edges of one node of the frontier.
  method Follow(g: Graph, cur: Id, ghost was: set<Id>, ghost targets: set<Id>,
                seen0: set<Id>, next0: seq<Id>, ips0: seq<Id>)
    returns (seen: set<Id>, next: seq<Id>, ips: seq<Id>)
    requires Hop(g, was, targets, seen0, next0) && Collected(g, seen0, ips0)
    ensures Hop(g, was, targets + if cur in g.edges then TargetSet(g, g.edges[cur]) else {}, seen, next)
    ensures Collected(g, seen, ips)
  {
    seen, next, ips := seen0, next0, ips0;
    if cur !in g.edges { return; }
    var edges := g.edges[cur];
    for k := 0 to |edges|
      invariant Hop(g, was, targets + TargetSet(g, edges[..k]), seen, next) && Collected(g, seen, ips)
    {
      ghost var sofar := targets + TargetSet(g, edges[..k]);
      var e := edges[k];
      NextEdge(g, edges, k);
      if e.Some? && e.value in g.kinds && e.value !in seen {
        var to := e.value;
        seen := seen + {to};
        match g.kinds[to]
        case IPAddress => ips := ips + [to];
        case FQDN => next := next + [to];
        case Other =>
      }
    }
    assert edges[..|edges|] == edges;
  }

  lemma NextEdge(g: Graph, edges: seq<Option<Id>>, k: nat)
    requires k < |edges|
    ensures TargetSet(g, edges[..k + 1]) == TargetSet(g, edges[..k])
              + if edges[k].Some? && edges[k].value in g.kinds then {edges[k].value} else {}
  {}

  lemma Advance(g: Graph, a: Id, h: nat, was: set<Id>, frontier: seq<Id>, seen: set<Id>, next: seq<Id>)
    requires Explored(g, a, h, was, frontier) && Hop(g, was, Targets(g, Elems(frontier)), seen, next)
    ensures Explored(g, a, h + 1, seen, next)
  {
  }

  // With nothing left to look at, more hops reach nothing new.
  lemma {:induction false} StandsStill(g: Graph, a: Id, h: nat, k: nat, seen: set<Id>, frontier: seq<Id>)
    requires Explored(g, a, h, seen, frontier) && h <= k && (frontier == [] || h == k)
    ensures Within(g, a, k) == seen
    decreases k - h
  {
    if h < k {
      StandsStill(g, a, h, k - 1, seen, frontier);
    }
  }
}
