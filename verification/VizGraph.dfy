// The visualisation walk: a worklist over the asset graph that numbers labels densely.
module VizGraph {
  import opened Wrappers
  import opened ScopeSearch

  datatype Kind =
    | Account | AutnumRecord | AutonomousSystem | ContactRecord | DomainRecord | FQDN | FundsTransfer
    | Identifier | IPAddress | IPNetRecord | Location | Netblock | Organization | Person | Phone
    | Service | TLSCertificate | URL | OtherKind

  // text is the label, None for an entity no node is made of. inScope is what the test
  // of a name against the configured domains says.
  datatype Entity = Entity(text: Option<string>, kind: Kind, inScope: bool)

  // alias is false for a DNS relation of a record type that names no alias.
  datatype Relation = Relation(name: string, id: Id, alias: bool)

  // Relations out of and into each entity, with the entity at the other end.
  datatype Graph = Graph(entities: map<Id, Entity>, outgoing: map<Id, seq<Relation>>, incoming: map<Id, seq<Relation>>)

  datatype Node = Node(id: nat, kind: Kind, text: string)

  datatype Edge = Edge(from: nat, to: nat, relation: string)

  datatype Viz = Viz(nodes: seq<Node>, edges: seq<Edge>, index: map<string, nat>)

  function LabelOf(g: Graph, a: Id): Option<string> {
    if a in g.entities then g.entities[a].text else None
  }

  // ---- The scope of a name that is not in scope itself ----

  predicate IsRecord(r: Relation) {
    r.name == "dns_record" || r.name == "node"
  }

  function Records(rels: seq<Relation>): seq<Relation> {
    if rels == [] then [] else (if IsRecord(rels[0]) then [rels[0]] else []) + Records(rels[1..])
  }

  function OutRecords(g: Graph, a: Id): seq<Relation> {
    if a in g.outgoing then Records(g.outgoing[a]) else []
  }

  predicate InScope(g: Graph, a: Id) {
    a in g.entities && g.entities[a].kind.FQDN? && g.entities[a].inScope
  }

  // The entities that can be found at the other ends of alias records.
  function AliasNames(g: Graph, rels: seq<Relation>): seq<Id> {
    if rels == [] then []
    else
      (if IsRecord(rels[0]) && rels[0].alias && rels[0].id in g.entities then [rels[0].id] else [])
      + AliasNames(g, rels[1..])
  }

  // The part of the graph the search back sees.
  function AliasesOf(g: Graph): Aliases {
    Aliases(map x | x in g.incoming :: AliasNames(g, g.incoming[x]), set x | x in g.entities && InScope(g, x))
  }

  // Whether a name is associated with the scope: by its own records when it has any,
  // otherwise by the search back. None when that does not come back.
  function Associated(g: Graph, a: Id): Option<bool> {
    if OutRecords(g, a) != [] then Some(exists r <- OutRecords(g, a) :: InScope(g, r.id))
    else FollowBack(AliasesOf(g), a, |AliasesOf(g).back| + 1)
  }

  // A name out of scope, with a node of its own and no records that lead on.
  predicate SearchedBack(g: Graph, a: Id) {
    LabelOf(g, a).Some? && g.entities[a].kind.FQDN? && !g.entities[a].inScope && OutRecords(g, a) == []
  }

  // The search from it takes more than any depth.
  ghost predicate Hangs(g: Graph, a: Id) {
    SearchedBack(g, a) && forall depth :: FollowBack(AliasesOf(g), a, depth).None?
  }

  predicate Unassociated(g: Graph, a: Id) {
    LabelOf(g, a).Some? && g.entities[a].kind.FQDN? && !g.entities[a].inScope && Associated(g, a).None?
  }

  lemma HangsIff(g: Graph, a: Id)
    ensures Hangs(g, a) <==> Unassociated(g, a)
  {
    hide FollowBack, LabelOf;
    if Unassociated(g, a) {
      forall depth ensures FollowBack(AliasesOf(g), a, depth).None? {
        EnoughDepth(AliasesOf(g), a, depth);
      }
    }
  }

  // What rules it out beforehand: bounded walks back along the aliases.
  lemma BoundedNeverHangs(g: Graph, a: Id, n: nat)
    requires Bounded(AliasesOf(g), a, n)
    ensures !Hangs(g, a)
  {
    ComesBack(AliasesOf(g), a, n);
  }

  // ---- What is followed ----

  // Which relations are followed: None for a direction not taken, otherwise the names
  // asked for, all of them when none is given.
  function OutNames(e: Entity, associated: bool): Option<set<string>> {
    match e.kind
    case AutonomousSystem | Netblock => Some({"registration"})
    case FQDN => if e.inScope || associated then Some({}) else None
    case OtherKind => None
    case _ => Some({})
  }

  function InNames(e: Entity): Option<set<string>> {
    match e.kind
    case Account => Some({"sender", "recipient"})
    case FQDN => if e.inScope then Some({}) else None
    case IPAddress => Some({"contains"})
    case Netblock => Some({"announces"})
    case Organization => Some({"subsidiary"})
    case _ => None
  }

  function Select(rels: seq<Relation>, names: set<string>): seq<Relation> {
    if rels == [] then []
    else (if names == {} || rels[0].name in names then [rels[0]] else []) + Select(rels[1..], names)
  }

  function Followed(g: Graph, a: Id, inward: bool): seq<Relation> {
    if a !in g.entities then []
    else
      var names := if inward then InNames(g.entities[a]) else OutNames(g.entities[a], Associated(g, a) == Some(true));
      var rels := if inward then g.incoming else g.outgoing;
      if names.None? || a !in rels then [] else Select(rels[a], names.value)
  }

  // ---- What the result is worth ----

  // Node i has number i, labels are unique, and the index is the inverse.
  ghost predicate Numbered(v: Viz) {
    && (forall i :: 0 <= i < |v.nodes| ==> v.nodes[i].id == i)
    && (forall i :: 0 <= i < |v.nodes| ==> v.nodes[i].text in v.index && v.index[v.nodes[i].text] == i)
    && (forall l :: l in v.index ==> v.index[l] < |v.nodes| && v.nodes[v.index[l]].text == l)
  }

  function Ends(id: nat, other: nat, name: string, inward: bool): Edge {
    if inward then Edge(other, id, name) else Edge(id, other, name)
  }

  // An edge comes from a followed relation of the graph, its ends being the numbers of
  // the two labels.
  ghost predicate Genuine(g: Graph, v: Viz, e: Edge) {
    exists a, r, inward ::
      && r in Followed(g, a, inward) && LabelOf(g, a).Some? && LabelOf(g, r.id).Some?
      && LabelOf(g, a).value in v.index && LabelOf(g, r.id).value in v.index
      && e == Ends(v.index[LabelOf(g, a).value], v.index[LabelOf(g, r.id).value], r.name, inward)
  }

  ghost predicate AllGenuine(g: Graph, v: Viz) {
    forall e :: e in v.edges ==> Genuine(g, v, e)
  }

  // A relation that leads to a label has its edge.
  ghost predicate Drawn(g: Graph, v: Viz, a: Id, r: Relation, inward: bool) {
    LabelOf(g, a).Some? && LabelOf(g, r.id).Some? ==>
      && LabelOf(g, a).value in v.index && LabelOf(g, r.id).value in v.index
      && Ends(v.index[LabelOf(g, a).value], v.index[LabelOf(g, r.id).value], r.name, inward) in v.edges
  }

  // An entity that was visited has its node, and all relations it is followed along.
  ghost predicate Covered(g: Graph, v: Viz, a: Id) {
    && (LabelOf(g, a).Some? ==> LabelOf(g, a).value in v.index)
    && forall r, inward :: r in Followed(g, a, inward) ==> Drawn(g, v, a, r, inward)
  }

  // A label is that of an entity in ids, or was met looking back from one along a
  // pointer record.
  ghost predicate FoundFrom(g: Graph, l: string, ids: set<Id>) {
    || (exists a :: a in ids && LabelOf(g, a) == Some(l))
    || (exists a, r :: a in ids && r in Followed(g, a, true) && r.name == "ptr_record" && LabelOf(g, r.id) == Some(l))
  }

  // A followed relation leads from a to b, and both have nodes.
  ghost predicate Leads(g: Graph, a: Id, b: Id) {
    && LabelOf(g, a).Some? && LabelOf(g, b).Some?
    && exists r, inward :: r in Followed(g, a, inward) && r.id == b
  }

  ghost predicate Route(g: Graph, p: seq<Id>) {
    p != [] && forall i :: 0 <= i < |p| - 1 ==> Leads(g, p[i], p[i + 1])
  }

  ghost predicate Reached(g: Graph, start: set<Id>, a: Id) {
    exists p :: Route(g, p) && p[0] in start && p[|p| - 1] == a
  }

  ghost predicate AllFound(g: Graph, v: Viz, ids: set<Id>) {
    forall l :: l in v.index ==> FoundFrom(g, l, ids)
  }

  // A node has the kind of an entity with its label.
  ghost predicate Typed(g: Graph, v: Viz) {
    forall i :: 0 <= i < |v.nodes| ==> HasKind(g, v.nodes[i].text, v.nodes[i].kind)
  }

  ghost predicate HasKind(g: Graph, l: string, k: Kind) {
    exists a :: LabelOf(g, a) == Some(l) && g.entities[a].kind == k
  }

  ghost predicate Good(g: Graph, v: Viz) {
    Numbered(v) && AllGenuine(g, v) && Typed(g, v)
  }

  ghost predicate Extends(v: Viz, w: Viz) {
    && v.nodes <= w.nodes && v.edges <= w.edges
    && forall l :: l in v.index ==> l in w.index && w.index[l] == v.index[l]
  }

  // ---- Termination ----

  function Labels(g: Graph): set<string> {
    set a | a in g.entities && g.entities[a].text.Some? :: g.entities[a].text.value
  }

  // Labels not used yet. Every entity that is queued again has used one up.
  function Room(g: Graph, v: Viz): nat {
    |Labels(g) - v.index.Keys|
  }

  lemma RoomShrinks(g: Graph, v: Viz, w: Viz, l: string)
    requires l in Labels(g) && l !in v.index && w.index.Keys == v.index.Keys + {l}
    ensures Room(g, w) == Room(g, v) - 1
  {
    assert Labels(g) - w.index.Keys == (Labels(g) - v.index.Keys) - {l};
  }

  // ---- Steps ----

  // The number of a label, a new one when it has none.
  method Place(g: Graph, v: Viz, a: Id) returns (w: Viz, id: nat, isNew: bool)
    requires Good(g, v) && LabelOf(g, a).Some?
    ensures Good(g, w) && Extends(v, w) && w.edges == v.edges && id < |w.nodes|
    ensures Numbers(w, LabelOf(g, a).value, id) && (isNew <==> LabelOf(g, a).value !in v.index)
    ensures w.index.Keys == v.index.Keys + {LabelOf(g, a).value}
    ensures Room(g, w) == Room(g, v) - if isNew then 1 else 0
  {
    hide *;
    var l := LabelOf(g, a).value;
    isNew := l !in v.index;
    if isNew {
      id := |v.nodes|;
      w := Viz(v.nodes + [Node(id, KindOf(g, a), l)], v.edges, v.index[l := id]);
      PlacedNew(g, v, w, a);
    } else {
      id, w := v.index[l], v;
      PlacedOld(g, v, l);
    }
    NumbersIs(w, l, id);
  }

  function KindOf(g: Graph, a: Id): Kind
    requires LabelOf(g, a).Some?
  {
    g.entities[a].kind
  }

  lemma NumbersIs(v: Viz, l: string, id: nat)
    ensures Numbers(v, l, id) <==> l in v.index && v.index[l] == id
  {}

  lemma PlacedOld(g: Graph, v: Viz, l: string)
    requires Good(g, v) && l in v.index
    ensures Extends(v, v) && v.index[l] < |v.nodes| && v.index.Keys + {l} == v.index.Keys
  {
    hide AllGenuine, Typed;
  }

  predicate Numbers(v: Viz, l: string, id: nat) {
    l in v.index && v.index[l] == id
  }

  lemma Added(v: Viz, w: Viz, l: string)
    requires Numbered(v) && l !in v.index
    requires |w.nodes| == |v.nodes| + 1 && w.nodes[..|v.nodes|] == v.nodes
    requires w.nodes[|v.nodes|].id == |v.nodes| && w.nodes[|v.nodes|].text == l
    requires w.edges == v.edges && w.index == v.index[l := |v.nodes|]
    ensures Numbered(w) && Extends(v, w)
  {
    forall i | 0 <= i < |v.nodes| ensures w.nodes[i] == v.nodes[i] {
      assert w.nodes[..|v.nodes|][i] == w.nodes[i];
    }
  }

  lemma TypedOn(g: Graph, v: Viz, w: Viz, a: Id)
    requires Typed(g, v) && LabelOf(g, a).Some?
    requires w.nodes == v.nodes + [Node(|v.nodes|, g.entities[a].kind, LabelOf(g, a).value)]
    ensures Typed(g, w)
  {
    assert HasKind(g, LabelOf(g, a).value, g.entities[a].kind);
    hide LabelOf, HasKind;
  }

  lemma PlacedNew(g: Graph, v: Viz, w: Viz, a: Id)
    requires Good(g, v) && LabelOf(g, a).Some? && LabelOf(g, a).value !in v.index
    requires var l := LabelOf(g, a).value;
             w == Viz(v.nodes + [Node(|v.nodes|, KindOf(g, a), l)], v.edges, v.index[l := |v.nodes|])
    ensures Good(g, w) && Extends(v, w) && Room(g, w) == Room(g, v) - 1
    ensures w.index.Keys == v.index.Keys + {LabelOf(g, a).value}
  {
    var l := LabelOf(g, a).value;
    assert l in Labels(g);
    hide Typed, Numbered, AllGenuine, LabelOf, Labels, Room, Extends;
    Added(v, w, l);
    GenuineStay(g, v, w);
    RoomShrinks(g, v, w, l);
    TypedOn(g, v, w, a);
  }

  lemma GenuineStay(g: Graph, v: Viz, w: Viz)
    requires AllGenuine(g, v) && v.edges == w.edges
    requires forall l :: l in v.index ==> l in w.index && w.index[l] == v.index[l]
    ensures AllGenuine(g, w)
  {
    hide Followed, LabelOf;
    forall e | e in w.edges ensures Genuine(g, w, e) { assert Genuine(g, v, e); }
  }

  lemma CoveredStays(g: Graph, v: Viz, w: Viz, a: Id)
    requires Covered(g, v, a) && Extends(v, w)
    ensures Covered(g, w, a)
  {
    hide Followed, LabelOf;
    forall r, inward | r in Followed(g, a, inward) ensures Drawn(g, w, a, r, inward) {
      assert Drawn(g, v, a, r, inward);
    }
  }

  lemma DrawnStays(g: Graph, v: Viz, w: Viz, a: Id, r: Relation, inward: bool)
    requires Drawn(g, v, a, r, inward) && Extends(v, w)
    ensures Drawn(g, w, a, r, inward)
  {
    hide LabelOf;
  }

  lemma ExtendsOn(u: Viz, v: Viz, w: Viz)
    requires Extends(u, v) && Extends(v, w)
    ensures Extends(u, w)
  {}

  // The edge between a visited entity and the other end of one of its relations.
  method Draw(g: Graph, v: Viz, a: Id, id: nat, r: Relation, other: nat, inward: bool) returns (w: Viz)
    requires Good(g, v) && LabelOf(g, a).Some? && LabelOf(g, r.id).Some? && r in Followed(g, a, inward)
    requires Numbers(v, LabelOf(g, a).value, id) && Numbers(v, LabelOf(g, r.id).value, other)
    ensures Good(g, w) && Extends(v, w) && w.index == v.index && Room(g, w) == Room(g, v)
    ensures Drawn(g, w, a, r, inward)
  {
    var e := Ends(id, other, r.name, inward);
    w := Viz(v.nodes, v.edges + [e], v.index);
    hide *;
    NumbersIs(v, LabelOf(g, a).value, id);
    NumbersIs(v, LabelOf(g, r.id).value, other);
    DrawnGood(g, v, w, a, r, inward);
    DrawnSame(g, v, w);
  }

  lemma DrawnGood(g: Graph, v: Viz, w: Viz, a: Id, r: Relation, inward: bool)
    requires Good(g, v) && LabelOf(g, a).Some? && LabelOf(g, r.id).Some? && r in Followed(g, a, inward)
    requires LabelOf(g, a).value in v.index && LabelOf(g, r.id).value in v.index
    requires var e := Ends(v.index[LabelOf(g, a).value], v.index[LabelOf(g, r.id).value], r.name, inward);
             w == Viz(v.nodes, v.edges + [e], v.index)
    ensures AllGenuine(g, w) && Drawn(g, w, a, r, inward)
  {
    hide Followed, LabelOf, Ends, Numbered, Typed;
    forall x | x in w.edges ensures Genuine(g, w, x) {
      if x in v.edges { assert Genuine(g, v, x); }
    }
  }

  lemma DrawnSame(g: Graph, v: Viz, w: Viz)
    requires Good(g, v) && AllGenuine(g, w) && w.nodes == v.nodes && v.edges <= w.edges && w.index == v.index
    ensures Good(g, w) && Extends(v, w) && Room(g, w) == Room(g, v)
  {
    hide AllGenuine, HasKind;
  }

  // What has been done about the first relations of a.
  ghost predicate FollowedUp(g: Graph, v: Viz, a: Id, rels: seq<Relation>, inward: bool) {
    forall r :: r in rels ==> Drawn(g, v, a, r, inward)
  }

  // Labels that were not there before are those of more, or were met along a pointer record.
  ghost predicate NewFrom(g: Graph, v: Viz, w: Viz, a: Id, more: set<Id>) {
    && (forall l :: l in w.index && l !in v.index ==> FoundFrom(g, l, {a} + more))
    && (forall b :: b in more ==> Leads(g, a, b))
  }

  // The relations of a in one direction.
  method Follow(g: Graph, v: Viz, a: Id, id: nat, inward: bool) returns (w: Viz, more: seq<Id>)
    requires Good(g, v) && LabelOf(g, a).Some? && Numbers(v, LabelOf(g, a).value, id)
    ensures Good(g, w) && Extends(v, w)
    ensures FollowedUp(g, w, a, Followed(g, a, inward), inward)
    ensures NewFrom(g, v, w, a, Elems(more))
    ensures Room(g, w) + |more| <= Room(g, v)
  {
    hide *;
    var rels := Followed(g, a, inward);
    w, more := v, [];
    NothingFollowed(g, v, a, rels, inward);
    for i := 0 to |rels|
      invariant Good(g, w) && Extends(v, w)
      invariant FollowedUp(g, w, a, rels[..i], inward)
      invariant NewFrom(g, v, w, a, Elems(more))
      invariant Room(g, w) + |more| <= Room(g, v)
    {
      w, more := FollowOne(g, v, w, a, id, rels, i, inward, more);
    }
    assert rels[..|rels|] == rels;
  }

  lemma NothingFollowed(g: Graph, v: Viz, a: Id, rels: seq<Relation>, inward: bool)
    ensures Extends(v, v) && FollowedUp(g, v, a, rels[..0], inward) && NewFrom(g, v, v, a, Elems([]))
  {}

  method FollowOne(g: Graph, ghost v: Viz, u: Viz, a: Id, id: nat, rels: seq<Relation>, i: nat, inward: bool,
                   more0: seq<Id>)
    returns (w: Viz, more: seq<Id>)
    requires Good(g, u) && Extends(v, u) && LabelOf(g, a).Some? && Numbers(v, LabelOf(g, a).value, id)
    requires rels == Followed(g, a, inward) && i < |rels|
    requires FollowedUp(g, u, a, rels[..i], inward) && NewFrom(g, v, u, a, Elems(more0))
    ensures Good(g, w) && Extends(v, w) && FollowedUp(g, w, a, rels[..i + 1], inward)
    ensures NewFrom(g, v, w, a, Elems(more))
    ensures Room(g, w) + |more| <= Room(g, u) + |more0|
  {
    hide Good, LabelOf, Followed, Room, FoundFrom, FollowedUp, NewFrom;
    var r := rels[i];
    w, more := u, more0;
    if LabelOf(g, r.id).None? {
      NothingToDraw(g, u, a, rels, i, inward);
      return;
    }
    var other, isNew;
    w, other, isNew := Place(g, u, r.id);
    if isNew && (!inward || r.name != "ptr_record") { more := more + [r.id]; }
    ghost var placed := w;
    w := Draw(g, w, a, id, r, other, inward);
    ExtendsOn(u, placed, w);
    ExtendsOn(v, u, w);
    OneMoreDrawn(g, u, w, a, rels, i, inward);
    OneMoreFound(g, v, u, w, a, r, inward, more0, more);
  }

  lemma NothingToDraw(g: Graph, v: Viz, a: Id, rels: seq<Relation>, i: nat, inward: bool)
    requires i < |rels| && LabelOf(g, rels[i].id).None? && FollowedUp(g, v, a, rels[..i], inward)
    ensures FollowedUp(g, v, a, rels[..i + 1], inward)
  {
    assert rels[..i + 1] == rels[..i] + [rels[i]];
  }

  lemma OneMoreDrawn(g: Graph, u: Viz, w: Viz, a: Id, rels: seq<Relation>, i: nat, inward: bool)
    requires i < |rels| && FollowedUp(g, u, a, rels[..i], inward) && Extends(u, w) && Drawn(g, w, a, rels[i], inward)
    ensures FollowedUp(g, w, a, rels[..i + 1], inward)
  {
    hide Drawn;
    assert rels[..i + 1] == rels[..i] + [rels[i]];
    forall r | r in rels[..i + 1] ensures Drawn(g, w, a, r, inward) {
      if r in rels[..i] { DrawnStays(g, u, w, a, r, inward); }
    }
  }

  lemma OneMoreFound(g: Graph, v: Viz, u: Viz, w: Viz, a: Id, r: Relation, inward: bool, more0: seq<Id>, more: seq<Id>)
    requires NewFrom(g, v, u, a, Elems(more0)) && r in Followed(g, a, inward)
    requires LabelOf(g, a).Some? && LabelOf(g, r.id).Some?
    requires w.index.Keys == u.index.Keys + {LabelOf(g, r.id).value}
    requires more == if LabelOf(g, r.id).value !in u.index && (!inward || r.name != "ptr_record")
                     then more0 + [r.id] else more0
    ensures NewFrom(g, v, w, a, Elems(more))
  {
    hide Followed, LabelOf;
    assert Leads(g, a, r.id);
    forall l | l in w.index && l !in v.index ensures FoundFrom(g, l, {a} + Elems(more)) {
      if l in u.index {
        FoundStays(g, l, {a} + Elems(more0), {a} + Elems(more));
      } else if r.id in Elems(more) {
        assert LabelOf(g, r.id) == Some(l);
      }
    }
  }

  lemma FoundStays(g: Graph, l: string, ids: set<Id>, more: set<Id>)
    requires FoundFrom(g, l, ids) && ids <= more
    ensures FoundFrom(g, l, more)
  {}

  // One entity of the worklist. It hangs exactly when the search back from it does.
  method Visit(g: Graph, v: Viz, a: Id) returns (w: Viz, more: seq<Id>, hung: bool)
    requires Good(g, v)
    ensures hung <==> Hangs(g, a)
    ensures !hung ==> Good(g, w) && Extends(v, w) && Covered(g, w, a) && NewFrom(g, v, w, a, Elems(more))
    ensures !hung ==> Room(g, w) + |more| <= Room(g, v)
  {
    hide *;
    HangsIff(g, a);
    hung := Unassociated(g, a);
    if hung {
      w, more := v, [];
      return;
    }
    if LabelOf(g, a).None? {
      w, more := v, [];
      NothingToCover(g, v, a);
      return;
    }
    var l := LabelOf(g, a).value;
    var placed, id, _ := Place(g, v, a);
    OwnLabel(g, v, placed, a);
    var half, there := Follow(g, placed, a, id, false);
    NumbersStay(placed, half, l, id);
    var back;
    w, back := Follow(g, half, a, id, true);
    more := there + back;
    ExtendsOn(v, placed, half);
    ExtendsOn(v, half, w);
    CoveredNow(g, half, w, a, id);
    NewFromOn(g, v, placed, half, a, [], there);
    assert [] + there == there;
    NewFromOn(g, v, half, w, a, there, back);
  }

  lemma NumbersStay(v: Viz, w: Viz, l: string, id: nat)
    requires Numbers(v, l, id) && Extends(v, w)
    ensures Numbers(w, l, id)
  {}

  lemma NothingToCover(g: Graph, v: Viz, a: Id)
    requires LabelOf(g, a).None?
    ensures Covered(g, v, a) && Extends(v, v) && NewFrom(g, v, v, a, Elems([]))
  {
    hide LabelOf, Followed;
  }

  lemma OwnLabel(g: Graph, v: Viz, w: Viz, a: Id)
    requires LabelOf(g, a).Some? && w.index.Keys == v.index.Keys + {LabelOf(g, a).value}
    ensures NewFrom(g, v, w, a, Elems([]))
  {
    hide LabelOf, Followed;
  }

  lemma NewFromOn(g: Graph, u: Viz, v: Viz, w: Viz, a: Id, before: seq<Id>, more: seq<Id>)
    requires NewFrom(g, u, v, a, Elems(before)) && NewFrom(g, v, w, a, Elems(more))
    ensures NewFrom(g, u, w, a, Elems(before + more))
  {
    hide FoundFrom, Leads;
    forall l | l in w.index && l !in u.index ensures FoundFrom(g, l, {a} + Elems(before + more)) {
      FoundStaysIf(g, l, {a} + Elems(before), {a} + Elems(before + more));
      FoundStaysIf(g, l, {a} + Elems(more), {a} + Elems(before + more));
    }
  }

  lemma FoundStaysIf(g: Graph, l: string, ids: set<Id>, more: set<Id>)
    requires ids <= more
    ensures FoundFrom(g, l, ids) ==> FoundFrom(g, l, more)
  {}

  lemma CoveredNow(g: Graph, v: Viz, w: Viz, a: Id, id: nat)
    requires LabelOf(g, a).Some? && Numbers(v, LabelOf(g, a).value, id) && Extends(v, w)
    requires FollowedUp(g, v, a, Followed(g, a, false), false) && FollowedUp(g, w, a, Followed(g, a, true), true)
    ensures Covered(g, w, a)
  {
    hide LabelOf, Followed, Drawn;
    forall r, inward | r in Followed(g, a, inward) ensures Drawn(g, w, a, r, inward) {
      if !inward { DrawnStays(g, v, w, a, r, inward); }
    }
  }

  // The visited entities have come back and are covered; they and the waiting ones have
  // been reached from the start, and account for every label.
  ghost predicate Explored(g: Graph, start: set<Id>, v: Viz, visited: set<Id>, waiting: set<Id>) {
    && (forall a :: a in visited ==> Covered(g, v, a) && !Hangs(g, a))
    && (forall a :: a in visited + waiting ==> Reached(g, start, a))
    && AllFound(g, v, visited + waiting)
  }

  lemma RouteOn(g: Graph, p: seq<Id>, b: Id)
    requires Route(g, p) && Leads(g, p[|p| - 1], b)
    ensures Route(g, p + [b])
  {
    hide Leads;
    var q := p + [b];
    forall i | 0 <= i < |q| - 1 ensures Leads(g, q[i], q[i + 1]) {
      if i < |p| - 1 { assert Leads(g, p[i], p[i + 1]); }
    }
  }

  lemma ReachedOn(g: Graph, start: set<Id>, a: Id, b: Id)
    requires Reached(g, start, a) && Leads(g, a, b)
    ensures Reached(g, start, b)
  {
    hide Leads;
    var p :| Route(g, p) && p[0] in start && p[|p| - 1] == a;
    RouteOn(g, p, b);
    var q := p + [b];
    assert q[0] == p[0] && q[|q| - 1] == b;
  }

  lemma ExploredOn(g: Graph, start: set<Id>, v: Viz, w: Viz, visited: set<Id>, a: Id, more: set<Id>,
                   waiting: set<Id>, rest: set<Id>)
    requires Explored(g, start, v, visited, waiting) && a in waiting && !Hangs(g, a)
    requires Extends(v, w) && Covered(g, w, a) && NewFrom(g, v, w, a, more)
    requires waiting <= rest + {a} && rest <= waiting + more && more <= rest
    ensures Explored(g, start, w, visited + {a}, rest)
  {
    hide Covered, FoundFrom, Leads, Hangs, Reached;
    forall b | b in visited ensures Covered(g, w, b) { CoveredStays(g, v, w, b); }
    forall b | b in more ensures Reached(g, start, b) { ReachedOn(g, start, a, b); }
    forall l | l in w.index ensures FoundFrom(g, l, visited + {a} + rest) {
      FoundStaysIf(g, l, visited + waiting, visited + {a} + rest);
      FoundStaysIf(g, l, {a} + more, visited + {a} + rest);
    }
  }

  datatype VizResult = Done(v: Viz) | Hung(at: Id)

  // The walk is done exactly when the search back comes back for every entity it visits;
  // otherwise it hangs at one it has reached. Where labels tell entities apart it hangs
  // exactly when an entity that hangs can be reached at all. When done, its nodes are numbered densely,
  // its edges are genuine, and the visited entities, the starting ones among them,
  // account for all of it.
  method VizData(g: Graph, start: seq<Id>) returns (r: VizResult)
    ensures r.Hung? ==> Reached(g, Elems(start), r.at) && Hangs(g, r.at)
    ensures Distinguished(g) ==> (r.Hung? <==> exists a :: Reached(g, Elems(start), a) && Hangs(g, a))
    ensures r.Done? ==> Good(g, r.v)
    ensures r.Done? ==>
              exists visited :: Elems(start) <= visited && Explored(g, Elems(start), r.v, visited, {})
  {
    hide *;
    var v := EMPTY;
    var next := start;
    ghost var visited: set<Id> := {};
    Nothing(g, start);
    while next != []
      invariant Good(g, v) && Explored(g, Elems(start), v, visited, Elems(next))
      invariant Elems(start) <= visited + Elems(next)
      decreases Room(g, v), |next|
    {
      var hung;
      v, next, hung, visited := Round(g, Elems(start), v, next, visited);
      if hung.Some? { return Hung(hung.value); }
    }
    NoElems();
    assert Explored(g, Elems(start), v, visited, {});
    if Distinguished(g) {
      forall a | Reached(g, Elems(start), a) ensures !Hangs(g, a) {
        NothingReachedHangs(g, Elems(start), v, visited, a);
      }
    }
    r := Done(v);
  }

  // No two entities share a label, and looking back meets no pointer record.
  ghost predicate Distinguished(g: Graph) {
    && (forall a, b :: LabelOf(g, a).Some? && LabelOf(g, a) == LabelOf(g, b) ==> a == b)
    && (forall a, r :: r in Followed(g, a, true) ==> r.name != "ptr_record")
  }

  // Then a walk that is done has visited all that can be reached.
  lemma NextVisited(g: Graph, start: set<Id>, v: Viz, visited: set<Id>, a: Id, b: Id)
    requires Distinguished(g) && Explored(g, start, v, visited, {}) && a in visited && Leads(g, a, b)
    ensures b in visited
  {
    hide Followed, LabelOf, Reached, Hangs;
    var r, inward :| r in Followed(g, a, inward) && r.id == b;
    assert Drawn(g, v, a, r, inward);
    var l := LabelOf(g, b).value;
    assert FoundFrom(g, l, visited + {});
  }

  lemma {:induction false} RouteVisited(g: Graph, start: set<Id>, v: Viz, visited: set<Id>, p: seq<Id>)
    requires Distinguished(g) && Explored(g, start, v, visited, {}) && start <= visited
    requires Route(g, p) && p[0] in start
    ensures p[|p| - 1] in visited
    decreases |p|
  {
    hide Explored, Leads, Distinguished;
    var n := |p| - 1;
    if n > 0 {
      assert Route(g, p[..n]);
      RouteVisited(g, start, v, visited, p[..n]);
      NextVisited(g, start, v, visited, p[n - 1], p[n]);
    }
  }

  lemma NothingReachedHangs(g: Graph, start: set<Id>, v: Viz, visited: set<Id>, a: Id)
    requires Distinguished(g) && Explored(g, start, v, visited, {}) && start <= visited && Reached(g, start, a)
    ensures !Hangs(g, a)
  {
    hide Hangs, Distinguished;
    var p :| Route(g, p) && p[0] in start && p[|p| - 1] == a;
    RouteVisited(g, start, v, visited, p);
  }

  const EMPTY := Viz([], [], map[])

  lemma Nothing(g: Graph, start: seq<Id>)
    ensures Good(g, EMPTY) && Explored(g, Elems(start), EMPTY, {}, Elems(start))
  {
    forall a | a in start ensures Reached(g, Elems(start), a) {
      assert Route(g, [a]) && [a][0] in Elems(start);
    }
  }

  lemma NoElems()
    ensures Elems<Id>([]) == {}
  {}

  // One round over the worklist, which yields the next one.
  method Round(g: Graph, ghost start: set<Id>, v: Viz, assets: seq<Id>, ghost visited0: set<Id>)
    returns (w: Viz, next: seq<Id>, hung: Option<Id>, ghost visited: set<Id>)
    requires Good(g, v) && Explored(g, start, v, visited0, Elems(assets))
    ensures hung.Some? ==> Reached(g, start, hung.value) && Hangs(g, hung.value)
    ensures hung.None? ==> Good(g, w) && Explored(g, start, w, visited, Elems(next))
    ensures hung.None? ==> visited0 + Elems(assets) <= visited && Room(g, w) + |next| <= Room(g, v)
  {
    hide *;
    w, next, hung, visited := v, [], None, visited0;
    NoElems();
    ghost var waiting := Elems(assets);
    assert waiting + {} == waiting && assets[0..] == assets;
    for i := 0 to |assets|
      invariant waiting == Elems(assets[i..])
      invariant Good(g, w) && Explored(g, start, w, visited, waiting + Elems(next))
      invariant visited0 + Elems(assets) <= visited + waiting
      invariant Room(g, w) + |next| <= Room(g, v)
    {
      var a := assets[i];
      TailElems(assets, i);
      var u, more, stuck := Visit(g, w, a);
      if stuck {
        WaitingIsReached(g, start, w, visited, waiting + Elems(next), a);
        return w, next, Some(a), visited;
      }
      BothElems(next, more);
      ghost var rest := Elems(assets[i + 1..]);
      ExploredOn(g, start, w, u, visited, a, Elems(more), waiting + Elems(next), rest + Elems(next + more));
      w, next, visited, waiting := u, next + more, visited + {a}, rest;
    }
    assert assets[|assets|..] == [];
    assert waiting + Elems(next) == Elems(next);
  }

  lemma WaitingIsReached(g: Graph, start: set<Id>, v: Viz, visited: set<Id>, waiting: set<Id>, a: Id)
    requires Explored(g, start, v, visited, waiting) && a in waiting
    ensures Reached(g, start, a)
  {
    hide Reached;
  }

  function NameOf(l: string, inScope: bool): Entity {
    Entity(Some(l), FQDN, inScope)
  }

  // A name s in scope with a record, not an alias, that leads to a name x out of scope.
  // x has no records of its own; one of a and b, aliases of each other, is an alias of x.
  const LOOP := Graph(
    map["s" := NameOf("s", true), "x" := NameOf("x", false), "a" := NameOf("a", false), "b" := NameOf("b", false)],
    map["s" := [Relation("dns_record", "x", false)],
        "a" := [Relation("dns_record", "x", true), Relation("dns_record", "b", true)],
        "b" := [Relation("dns_record", "a", true)]],
    map["x" := [Relation("dns_record", "s", false), Relation("dns_record", "a", true)],
        "a" := [Relation("dns_record", "b", true)],
        "b" := [Relation("dns_record", "a", true)]])

  // The walk from s hangs at x.
  method WalkThatHangs() returns (r: VizResult)
    ensures r == Hung("x")
  {
    r := VizData(LOOP, ["s"]);
    LoopDistinguished();
    LoopReached();
    LoopHangs();
    OnlyXHangs(if r.Hung? then r.at else "");
    hide *;
  }

  lemma LoopDistinguished()
    ensures Distinguished(LOOP)
  {
    forall a ensures Followed(LOOP, a, true) == [] { NothingInward(a); }
    LoopLabels();
    hide Followed, LabelOf, LOOP;
  }

  lemma NothingInward(a: Id)
    ensures Followed(LOOP, a, true) == []
  {}

  lemma LoopLabels()
    ensures forall a :: LabelOf(LOOP, a).Some? ==> LabelOf(LOOP, a) == Some(a)
  {}

  lemma LoopReached()
    ensures Reached(LOOP, Elems(["s"]), "x")
  {
    var r := Relation("dns_record", "x", false);
    assert Select([r], {}) == [r];
    assert r in Followed(LOOP, "s", false);
    var p := ["s", "x"];
    assert Leads(LOOP, p[0], p[1]);
    assert Route(LOOP, p) && p[0] in Elems(["s"]);
  }

  // Every other name is in scope or has records of its own.
  lemma OnlyXHangs(a: Id)
    ensures Hangs(LOOP, a) ==> a == "x"
  {
    var r := Relation("dns_record", "x", true);
    assert IsRecord(LOOP.outgoing["a"][0]) && IsRecord(LOOP.outgoing["b"][0]);
  }

  lemma LoopHangs()
    ensures Hangs(LOOP, "x")
  {
    var al := AliasesOf(LOOP);
    var s := Relation("dns_record", "s", false);
    var a, b := Relation("dns_record", "a", true), Relation("dns_record", "b", true);
    assert AliasNames(LOOP, [a]) == ["a"] && AliasNames(LOOP, [b]) == ["b"];
    assert [s, a][1..] == [a] && AliasNames(LOOP, [s, a]) == ["a"];
    assert BackOf(al, "x") == ["a"] && BackOf(al, "a") == ["b"] && BackOf(al, "b") == ["a"];
    assert "a" !in al.scope && "b" !in al.scope;
    hide FollowBack, AliasesOf;
    forall depth ensures FollowBack(al, "x", depth).None? { NeverComesBack(al, "x", "a", "b", depth); }
  }

  // ---- The same, from the graph itself ----

  lemma {:induction false} SelectHas(rels: seq<Relation>, names: set<string>, r: Relation)
    ensures r in Select(rels, names) <==> r in rels && (names == {} || r.name in names)
  {
    if rels != [] {
      SelectHas(rels[1..], names, r);
      assert rels == [rels[0]] + rels[1..];
    }
  }

  // Which relations out of an entity are followed.
  lemma FollowedOut(g: Graph, a: Id, r: Relation)
    ensures r in Followed(g, a, false) <==>
            && a in g.entities && a in g.outgoing && r in g.outgoing[a]
            && match g.entities[a].kind
               case AutonomousSystem | Netblock => r.name == "registration"
               case FQDN => g.entities[a].inScope || Associated(g, a) == Some(true)
               case OtherKind => false
               case _ => true
  {
    hide Associated;
    if a in g.entities && a in g.outgoing {
      SelectHas(g.outgoing[a], {"registration"}, r);
      SelectHas(g.outgoing[a], {}, r);
    }
    hide Select;
  }

  // And which into it.
  lemma FollowedIn(g: Graph, a: Id, r: Relation)
    ensures r in Followed(g, a, true) <==>
            && a in g.entities && a in g.incoming && r in g.incoming[a]
            && match g.entities[a].kind
               case Account => r.name == "sender" || r.name == "recipient"
               case FQDN => g.entities[a].inScope
               case IPAddress => r.name == "contains"
               case Netblock => r.name == "announces"
               case Organization => r.name == "subsidiary"
               case _ => false
  {
    hide Associated;
    if a in g.entities && a in g.incoming {
      var rels := g.incoming[a];
      SelectHas(rels, {"sender", "recipient"}, r);
      SelectHas(rels, {}, r);
      SelectHas(rels, {"contains"}, r);
      SelectHas(rels, {"announces"}, r);
      SelectHas(rels, {"subsidiary"}, r);
    }
    hide Select;
  }

  lemma {:induction false} RecordsHas(rels: seq<Relation>, r: Relation)
    ensures r in Records(rels) <==> r in rels && (r.name == "dns_record" || r.name == "node")
  {
    if rels != [] {
      RecordsHas(rels[1..], r);
      assert rels == [rels[0]] + rels[1..];
    }
  }

  lemma {:induction false} AliasNamesHas(g: Graph, rels: seq<Relation>, y: Id)
    ensures y in AliasNames(g, rels) <==>
            && y in g.entities
            && exists r :: r in rels && (r.name == "dns_record" || r.name == "node") && r.alias && r.id == y
  {
    if rels != [] {
      AliasNamesHas(g, rels[1..], y);
      assert rels == [rels[0]] + rels[1..];
    }
  }

  // y is an alias of x that can be found.
  ghost predicate AliasOf(g: Graph, y: Id, x: Id) {
    && y in g.entities && x in g.incoming
    && exists r :: r in g.incoming[x] && (r.name == "dns_record" || r.name == "node") && r.alias && r.id == y
  }

  predicate NameInScope(g: Graph, a: Id) {
    a in g.entities && g.entities[a].kind == FQDN && g.entities[a].inScope
  }

  // From a name in scope, alias by alias, to a.
  ghost predicate AliasChain(g: Graph, p: seq<Id>) {
    |p| >= 2 && NameInScope(g, p[|p| - 1]) && forall i :: 0 <= i < |p| - 1 ==> AliasOf(g, p[i + 1], p[i])
  }

  lemma AliasesAre(g: Graph, x: Id, y: Id)
    ensures y in BackOf(AliasesOf(g), x) <==> AliasOf(g, y, x)
    ensures y in AliasesOf(g).scope <==> NameInScope(g, y)
  {
    if x in g.incoming { AliasNamesHas(g, g.incoming[x], y); }
    hide AliasNames;
  }

  lemma ChainsAre(g: Graph, p: seq<Id>)
    ensures Chain(AliasesOf(g), p) <==> AliasChain(g, p)
  {
    hide AliasesOf, AliasOf, NameInScope, BackOf;
    forall i | 0 <= i < |p| - 1 ensures p[i + 1] in BackOf(AliasesOf(g), p[i]) <==> AliasOf(g, p[i + 1], p[i]) {
      AliasesAre(g, p[i], p[i + 1]);
    }
    if p != [] { AliasesAre(g, "", p[|p| - 1]); }
  }

  function OwnRecords(g: Graph, a: Id): set<Relation> {
    if a in g.outgoing then set r | r in g.outgoing[a] && (r.name == "dns_record" || r.name == "node") else {}
  }

  // A name with records of its own is associated with the scope exactly when one leads to
  // a name in scope; one without, when the search comes back, exactly when a chain of
  // aliases leads to it from a name in scope.
  lemma AssociatedIs(g: Graph, a: Id)
    ensures var own := OwnRecords(g, a);
            && (own != {} ==> Associated(g, a) == Some(exists r :: r in own && NameInScope(g, r.id)))
            && (own == {} && Associated(g, a).Some? ==>
                  (Associated(g, a).value <==> exists p :: AliasChain(g, p) && p[0] == a))
  {
    OwnRecordsAre(g, a);
    ChainStarts(g, a);
    var al := AliasesOf(g);
    if OutRecords(g, a) != [] {
      var r := OutRecords(g, a)[0];
      assert r in OutRecords(g, a) && r in OwnRecords(g, a);
    }
    hide AliasesOf, AliasChain, FollowBack, HasChain, OutRecords;
    if OutRecords(g, a) == [] && Associated(g, a).Some? { AnswerIsRight(al, a, |al.back| + 1); }
  }

  lemma ChainStarts(g: Graph, a: Id)
    ensures HasChain(AliasesOf(g), a) <==> exists p :: AliasChain(g, p) && p[0] == a
  {
    var al := AliasesOf(g);
    hide AliasesOf, AliasOf, NameInScope, BackOf;
    if p :| |p| >= 2 && Chain(al, p) && p[0] == a { ChainsAre(g, p); }
    if p :| |p| >= 2 && AliasChain(g, p) && p[0] == a { ChainsAre(g, p); }
  }

  lemma OwnRecordsAre(g: Graph, a: Id)
    ensures forall r :: r in OutRecords(g, a) <==> r in OwnRecords(g, a)
    ensures forall x :: InScope(g, x) <==> NameInScope(g, x)
  {
    if a in g.outgoing {
      var rels := g.outgoing[a];
      forall r ensures r in Records(rels) <==> r in rels && (r.name == "dns_record" || r.name == "node") {
        RecordsHas(rels, r);
      }
    }
    hide Records;
  }

  // An arrow points from the entity a relation leaves to the one it enters, whichever of
  // the two was visited; every such relation has its arrow, and there are no others.
  lemma ArrowsPointForward(g: Graph, start: set<Id>, v: Viz, visited: set<Id>)
    requires Good(g, v) && Explored(g, start, v, visited, {})
    ensures forall a, r, i: nat, j: nat ::
              (a in visited && r in Followed(g, a, false)
               && i < |v.nodes| && LabelOf(g, a) == Some(v.nodes[i].text)
               && j < |v.nodes| && LabelOf(g, r.id) == Some(v.nodes[j].text)) ==> Edge(i, j, r.name) in v.edges
    ensures forall a, r, i: nat, j: nat ::
              (a in visited && r in Followed(g, a, true)
               && i < |v.nodes| && LabelOf(g, a) == Some(v.nodes[i].text)
               && j < |v.nodes| && LabelOf(g, r.id) == Some(v.nodes[j].text)) ==> Edge(j, i, r.name) in v.edges
    ensures forall e :: e in v.edges ==> ArrowFor(g, v, e)
  {
  }

  // The arrow comes from a followed relation between the labels of its two ends.
  ghost predicate ArrowFor(g: Graph, v: Viz, e: Edge) {
    && e.from < |v.nodes| && e.to < |v.nodes|
    && var l, m := v.nodes[e.from].text, v.nodes[e.to].text;
       || (exists a, r :: r in Followed(g, a, false) && LabelOf(g, a) == Some(l) && LabelOf(g, r.id) == Some(m)
                          && r.name == e.relation)
       || (exists a, r :: r in Followed(g, a, true) && LabelOf(g, a) == Some(m) && LabelOf(g, r.id) == Some(l)
                          && r.name == e.relation)
  }

  lemma TailElems(s: seq<Id>, i: nat)
    requires i < |s|
    ensures Elems(s[i..]) == Elems(s[i + 1..]) + {s[i]}
  {
    assert s[i..] == [s[i]] + s[i + 1..];
  }

  lemma BothElems(s: seq<Id>, t: seq<Id>)
    ensures Elems(s + t) == Elems(s) + Elems(t)
  {}

  // Nodes and labels match one to one, and edges point at nodes.
  lemma EndpointsAreNodes(g: Graph, v: Viz)
    requires Good(g, v)
    ensures forall e :: e in v.edges ==> e.from < |v.nodes| && e.to < |v.nodes|
    ensures forall i, j :: 0 <= i < j < |v.nodes| ==> v.nodes[i].text != v.nodes[j].text
    ensures |v.index| == |v.nodes|
  {
    hide Followed, LabelOf;
    forall e | e in v.edges ensures e.from < |v.nodes| && e.to < |v.nodes| { assert Genuine(g, v, e); }
    hide Genuine, AllGenuine;
    SameSize(v, |v.nodes|);
    assert v.index.Keys == Texts(v, |v.nodes|);
  }

  function Texts(v: Viz, n: nat): set<string>
    requires n <= |v.nodes|
  {
    set i | 0 <= i < n :: v.nodes[i].text
  }

  lemma {:induction false} SameSize(v: Viz, n: nat)
    requires Numbered(v) && n <= |v.nodes|
    ensures |Texts(v, n)| == n
  {
    if n > 0 {
      SameSize(v, n - 1);
      assert Texts(v, n) == Texts(v, n - 1) + {v.nodes[n - 1].text};
      assert v.nodes[n - 1].text !in Texts(v, n - 1);
    }
  }
}
