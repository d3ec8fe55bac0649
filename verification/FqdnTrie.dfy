// The contents of an FQDN filter as two sets of paths: inner ones, which hold a
// nested map, and leaves. What inserting and pruning mean, path by path.
module FqdnTrie {
  import opened Wrappers
  import opened FqdnNames

  datatype Trie = Trie(inner: set<Path>, leaves: set<Path>)

  const EMPTY := Trie({[]}, {})

  function Parent(p: Path): Path
    requires p != []
  {
    p[..|p| - 1]
  }

  predicate Has(t: Trie, p: Path) {
    p in t.inner || p in t.leaves
  }

  // Paths are one or the other, hang off inner paths, and no nested map is empty.
  ghost predicate WellFormed(t: Trie) {
    && [] in t.inner && [] !in t.leaves && t.inner !! t.leaves
    && (forall p :: Has(t, p) && p != [] ==> Parent(p) in t.inner)
    && (forall p :: p in t.inner && p != [] ==> exists l :: Has(t, p + [l]))
  }

  // ---- Insert ----

  // The prefixes of p of length at most i.
  function Prefixes(p: Path, i: nat): set<Path>
    requires i <= |p|
  {
    set k | 0 <= k <= i :: p[..k]
  }

  // One iteration of Insert, for the path q: an inner one, or the last one.
  function Step(t: Trie, q: Path, last: bool): Trie {
    if last then (if Has(t, q) then t else t.(leaves := t.leaves + {q}))
    else if q in t.inner then t
    else Trie(t.inner + {q}, t.leaves - {q})
  }

  function InsertUpTo(t: Trie, p: Path, i: nat): Trie
    requires i <= |p|
  {
    if i == 0 then t else Step(InsertUpTo(t, p, i - 1), p[..i], i == |p|)
  }

  function Insert(t: Trie, p: Path): Trie {
    InsertUpTo(t, p, |p|)
  }

  lemma InsertStarts(t: Trie, p: Path)
    ensures InsertUpTo(t, p, 0) == t && p[..0] == []
  {}

  lemma InsertNext(t: Trie, p: Path, i: nat)
    requires i < |p|
    ensures InsertUpTo(t, p, i + 1) == Step(InsertUpTo(t, p, i), p[..i] + [p[i]], i + 1 == |p|)
    ensures p[..i + 1] == p[..i] + [p[i]]
  {
    assert p[..i + 1] == p[..i] + [p[i]];
  }

  lemma InsertEnds(t: Trie, p: Path)
    ensures InsertUpTo(t, p, |p|) == Insert(t, p)
  {}

  // Before the last label, the prefixes seen so far are inner and nothing else changed.
  lemma {:induction false} InsertMid(t: Trie, p: Path, i: nat)
    requires [] in t.inner && [] !in t.leaves && t.inner !! t.leaves && i < |p|
    ensures InsertUpTo(t, p, i) == Trie(t.inner + Prefixes(p, i), t.leaves - Prefixes(p, i))
  {
    if i == 0 {
      assert Prefixes(p, 0) == {[]};
    } else {
      InsertMid(t, p, i - 1);
      assert Prefixes(p, i) == Prefixes(p, i - 1) + {p[..i]};
    }
  }

  lemma {:induction false} PrefixClosed(t: Trie, p: Path, k: nat)
    requires WellFormed(t) && Has(t, p) && k < |p|
    ensures p[..k] in t.inner
    decreases |p|
  {
    if k < |p| - 1 {
      PrefixClosed(t, Parent(p), k);
      assert Parent(p)[..k] == p[..k];
    }
  }

  // A path that is there already changes nothing; a new one becomes a leaf and
  // its proper prefixes become inner.
  lemma InsertEffect(t: Trie, p: Path)
    requires WellFormed(t) && p != []
    ensures Insert(t, p) ==
            if Has(t, p) then t
            else Trie(t.inner + Prefixes(p, |p| - 1), t.leaves - Prefixes(p, |p| - 1) + {p})
  {
    var n := |p| - 1;
    InsertMid(t, p, n);
    assert p[..|p|] == p;
    assert p !in Prefixes(p, n);
    assert Insert(t, p) == Step(InsertUpTo(t, p, n), p, true);
    hide InsertUpTo, Insert;
    if Has(t, p) {
      forall q | q in Prefixes(p, n) ensures q in t.inner {
        PrefixClosed(t, p, |q|);
      }
      assert InsertUpTo(t, p, n) == t;
    }
  }

  // The filter holds exactly the inserted paths s: the inner ones are their
  // proper prefixes, the leaves the paths no other one extends.
  ghost predicate Represents(t: Trie, s: set<Path>) {
    && (forall p :: p in t.inner <==> p == [] || exists q :: q in s && ProperPrefix(p, q))
    && (forall p :: p in t.leaves <==> p in s && !exists q :: q in s && ProperPrefix(p, q))
  }

  lemma PrefixesAre(p: Path, q: Path)
    requires p != []
    ensures q in Prefixes(p, |p| - 1) <==> ProperPrefix(q, p)
  {
    if ProperPrefix(q, p) { assert q == p[..|q|]; }
  }

  lemma InsertRepresents(t: Trie, s: set<Path>, p: Path)
    requires WellFormed(t) && Represents(t, s) && p != []
    ensures Represents(Insert(t, p), s + {p})
  {
    InsertEffect(t, p);
    var t', s' := Insert(t, p), s + {p};
    forall q
      ensures q in t'.inner <==> q == [] || exists x :: x in s' && ProperPrefix(q, x)
      ensures q in t'.leaves <==> q in s' && !exists x :: x in s' && ProperPrefix(q, x)
    {
      PrefixesAre(p, q);
      if x :| x in s && ProperPrefix(q, x) { assert x in s'; }
      if ProperPrefix(q, p) { assert p in s'; }
      if p in t.inner && ProperPrefix(q, p) { Longer(t, s, p, q); }
    }
  }

  lemma Longer(t: Trie, s: set<Path>, p: Path, q: Path)
    requires Represents(t, s) && p in t.inner && ProperPrefix(q, p)
    ensures exists x :: x in s && ProperPrefix(q, x)
  {
    var x :| x in s && ProperPrefix(p, x);
    assert x[..|q|] == p[..|q|];
  }

  lemma InsertWellFormed(t: Trie, p: Path)
    requires WellFormed(t) && p != []
    ensures WellFormed(Insert(t, p))
  {
    InsertEffect(t, p);
    var t' := Insert(t, p);
    if !Has(t, p) {
      forall q | Has(t', q) && q != [] ensures Parent(q) in t'.inner {
        PrefixesAre(p, q);
        PrefixesAre(p, Parent(q));
        if ProperPrefix(q, p) { assert Parent(q) == p[..|q| - 1]; }
      }
      forall q | q in t'.inner && q != [] ensures exists l :: Has(t', q + [l]) {
        PrefixesAre(p, q);
        if ProperPrefix(q, p) {
          var l := p[|q|];
          assert q + [l] == p[..|q| + 1];
          PrefixesAre(p, q + [l]);
          assert Has(t', q + [l]);
        } else {
          var l :| Has(t, q + [l]);
          PrefixesAre(p, q + [l]);
          assert Has(t', q + [l]);
        }
      }
    }
  }

  function InsertAll(t: Trie, ps: seq<Path>): Trie {
    if ps == [] then t else Insert(InsertAll(t, ps[..|ps| - 1]), ps[|ps| - 1])
  }

  function PathSet(ps: seq<Path>): set<Path> {
    set p | p in ps
  }

  // Whatever the order, the leaves are the inserted paths that no other inserted
  // path extends.
  lemma {:induction false} InsertAllRepresents(ps: seq<Path>)
    requires forall p <- ps :: p != []
    ensures WellFormed(InsertAll(EMPTY, ps)) && Represents(InsertAll(EMPTY, ps), PathSet(ps))
  {
    if ps != [] {
      var init, p := ps[..|ps| - 1], ps[|ps| - 1];
      assert p in ps && forall x <- init :: x in ps;
      InsertAllRepresents(init);
      InsertRepresents(InsertAll(EMPTY, init), PathSet(init), p);
      InsertWellFormed(InsertAll(EMPTY, init), p);
      assert PathSet(ps) == PathSet(init) + {p} by { assert ps == init + [p]; }
    }
  }

  // ---- Prune ----

  // The labels of the entries of the nested map at p.
  function Kids(t: Trie, p: Path): set<Label> {
    set q | q in t.inner + t.leaves && |q| == |p| + 1 && Parent(q) == p :: q[|p|]
  }

  lemma KidsAre(t: Trie, p: Path, l: Label)
    ensures l in Kids(t, p) <==> Has(t, p + [l])
  {
    var q := p + [l];
    assert Parent(q) == p && q[|p|] == l;
    if l in Kids(t, p) {
      var x :| x in t.inner + t.leaves && |x| == |p| + 1 && Parent(x) == p && x[|p|] == l;
      assert x == q;
    }
  }

  // A nested map below the root with limit entries or more.
  predicate Big(t: Trie, p: Path, limit: int) {
    p in t.inner && p != [] && |Kids(t, p)| >= limit
  }

  // No big map on the way from base to p, ends excluded and included.
  ghost predicate OpenTo(t: Trie, base: Path, p: Path, limit: int) {
    forall i :: |base| < i < |p| ==> !Big(t, p[..i], limit)
  }

  // p lies below base, through one of the labels in done.
  predicate Below(base: Path, done: set<Label>, p: Path) {
    ProperPrefix(base, p) && p[|base|] in done
  }

  // Pruning below base through the labels in done: the topmost big maps there
  // become leaves and everything under them goes.
  ghost function PruneKids(t: Trie, base: Path, done: set<Label>, limit: int): Trie {
    Trie(
      set p | p in t.inner && (Below(base, done, p) ==> OpenTo(t, base, p, limit) && !Big(t, p, limit)),
      set p | p in t.inner + t.leaves && (Below(base, done, p) ==> OpenTo(t, base, p, limit))
              && (p in t.leaves || (Below(base, done, p) && Big(t, p, limit))))
  }

  ghost function Prune(t: Trie, limit: int): Trie {
    PruneKids(t, [], Kids(t, []), limit)
  }

  // Replacing the nested map at p by a leaf.
  function Collapse(t: Trie, p: Path): Trie {
    Trie(set q | q in t.inner && !Prefix(p, q),
         (set q | q in t.leaves && !Prefix(p, q)) + {p})
  }

  lemma PruneNothing(t: Trie, base: Path, limit: int)
    ensures PruneKids(t, base, {}, limit) == t
  {}

  lemma BelowOne(base: Path, done: set<Label>, k: Label, p: Path)
    ensures Below(base, done + {k}, p) <==> Below(base, done, p) || Prefix(base + [k], p)
  {
    if Below(base, done + {k}, p) { assert p[..|base| + 1] == base + [p[|base|]]; }
    if Prefix(base + [k], p) {
      assert (base + [k])[|base|] == k && (base + [k])[..|base|] == base;
      assert p[..|base| + 1][..|base|] == p[..|base|];
    }
  }

  // The next label leads to a leaf: nothing to do.
  lemma PruneLeaf(t: Trie, base: Path, done: set<Label>, k: Label, limit: int)
    requires WellFormed(t) && base + [k] in t.leaves
    ensures PruneKids(t, base, done + {k}, limit) == PruneKids(t, base, done, limit)
  {
    forall p | Has(t, p) && Prefix(base + [k], p) ensures p == base + [k] {
      if p != base + [k] { PrefixClosed(t, p, |base| + 1); }
    }
    forall p { BelowOne(base, done, k, p); }
  }

  // Paths under base + [k] are not below base through done, so they are still as they were.
  lemma Untouched(t: Trie, base: Path, done: set<Label>, k: Label, limit: int, q: Path)
    requires k !in done && Prefix(base + [k], q)
    ensures !Below(base, done, q)
    ensures var t1 := PruneKids(t, base, done, limit);
            && (q in t1.inner <==> q in t.inner) && (q in t1.leaves <==> q in t.leaves)
            && Kids(t1, q) == Kids(t, q)
            && (Big(t1, q, limit) <==> Big(t, q, limit))
  {
    var t1 := PruneKids(t, base, done, limit);
    NotBelow(base, done, k, q);
    forall l
      ensures l in Kids(t1, q) <==> l in Kids(t, q)
    {
      KidsAre(t1, q, l);
      KidsAre(t, q, l);
      assert (q + [l])[..|base| + 1] == q[..|base| + 1];
      NotBelow(base, done, k, q + [l]);
    }
  }

  lemma NotBelow(base: Path, done: set<Label>, k: Label, q: Path)
    requires k !in done && Prefix(base + [k], q)
    ensures !Below(base, done, q)
  {
    assert (base + [k])[|base|] == q[|base|];
  }

  // The next label leads to a big map: it becomes a leaf.
  lemma PruneBig(t: Trie, base: Path, done: set<Label>, k: Label, limit: int)
    requires k !in done && Big(t, base + [k], limit)
    ensures PruneKids(t, base, done + {k}, limit) == Collapse(PruneKids(t, base, done, limit), base + [k])
  {
    var b := base + [k];
    forall p
      ensures Below(base, done + {k}, p) <==> Below(base, done, p) || Prefix(b, p)
      ensures Prefix(b, p) ==> !Below(base, done, p)
      ensures Prefix(b, p) && p != b ==> !OpenTo(t, base, p, limit)
      ensures OpenTo(t, base, b, limit)
    {
      BelowOne(base, done, k, p);
      if Prefix(b, p) {
        NotBelow(base, done, k, p);
        if p != b { assert p[..|base| + 1] == b; }
      }
    }
    hide Big, OpenTo;
  }

  // The next label leads to a small map: prune below that one.
  lemma PruneInner(t: Trie, base: Path, done: set<Label>, k: Label, limit: int)
    requires WellFormed(t) && k !in done && base + [k] in t.inner && !Big(t, base + [k], limit)
    ensures var t1 := PruneKids(t, base, done, limit);
            PruneKids(t, base, done + {k}, limit)
            == PruneKids(t1, base + [k], Kids(t1, base + [k]), limit)
  {
    var b := base + [k];
    var t1 := PruneKids(t, base, done, limit);
    var t2 := PruneKids(t, base, done + {k}, limit);
    var t3 := PruneKids(t1, b, Kids(t1, b), limit);
    forall p
      ensures p in t2.inner <==> p in t3.inner
      ensures p in t2.leaves <==> p in t3.leaves
    {
      BelowOne(base, done, k, p);
      if Prefix(b, p) {
        Untouched(t, base, done, k, limit, p);
        OpenBoth(t, base, done, k, limit, p);
        if Has(t, p) { BelowBoth(t, base, done, k, limit, p); }
      } else {
        assert !Below(b, Kids(t1, b), p);
      }
      hide OpenTo, Big, Kids, WellFormed, Prefix;
    }
  }

  lemma BelowBoth(t: Trie, base: Path, done: set<Label>, k: Label, limit: int, p: Path)
    requires WellFormed(t) && k !in done && Prefix(base + [k], p) && Has(t, p)
    ensures var t1, b := PruneKids(t, base, done, limit), base + [k];
            Below(b, Kids(t1, b), p) <==> p != b
  {
    var b := base + [k];
    if p != b {
      var l := p[|b|];
      assert p[..|b| + 1] == b + [l];
      if |p| > |b| + 1 {
        PrefixClosed(t, p, |b| + 1);
      } else {
        assert p == b + [l];
      }
      KidsAre(t, b, l);
      Untouched(t, base, done, k, limit, b);
      hide PruneKids, Kids, WellFormed;
    }
  }

  lemma OpenBoth(t: Trie, base: Path, done: set<Label>, k: Label, limit: int, p: Path)
    requires k !in done && !Big(t, base + [k], limit) && Prefix(base + [k], p)
    ensures var t1, b := PruneKids(t, base, done, limit), base + [k];
            OpenTo(t, base, p, limit) <==> OpenTo(t1, b, p, limit)
  {
    hide PruneKids, Big, Below;
    var b := base + [k];
    var t1 := PruneKids(t, base, done, limit);
    forall i | |base| < i < |p|
      ensures Big(t, p[..i], limit) <==> (i > |b| && Big(t1, p[..i], limit))
    {
      if i == |b| {
        assert p[..i] == b;
      } else {
        assert Prefix(b, p[..i]) by { assert p[..i][..|b|] == p[..|b|]; }
        Untouched(t, base, done, k, limit, p[..i]);
      }
    }
  }

  lemma BelowRoot(t: Trie, p: Path)
    requires WellFormed(t) && Has(t, p) && p != []
    ensures Below([], Kids(t, []), p)
  {
    if |p| > 1 { PrefixClosed(t, p, 1); }
    hide WellFormed, Kids;
    assert [] + [p[0]] == p[..1];
    if |p| == 1 { assert p == p[..1]; }
    KidsAre(t, [], p[0]);
  }

  // Pruning from the root, path by path.
  lemma PruneIs(t: Trie, limit: int, p: Path)
    requires WellFormed(t)
    ensures p in Prune(t, limit).inner <==>
              p in t.inner && (p == [] || (OpenTo(t, [], p, limit) && !Big(t, p, limit)))
    ensures p in Prune(t, limit).leaves <==>
              Has(t, p) && p != [] && OpenTo(t, [], p, limit) && (p in t.leaves || Big(t, p, limit))
  {
    assert [] !in t.leaves;
    if Has(t, p) && p != [] { BelowRoot(t, p); }
    hide OpenTo, Big, Kids, WellFormed;
  }

  lemma OpenExtends(t: Trie, base: Path, p: Path, l: Label, limit: int)
    requires |p| > |base|
    ensures OpenTo(t, base, p + [l], limit) <==> OpenTo(t, base, p, limit) && !Big(t, p, limit)
  {
    assert (p + [l])[..|p|] == p;
    forall i | |base| < i <= |p| ensures (p + [l])[..i] == p[..i] {}
    hide Big;
  }

  // A map that survives keeps all its entries.
  lemma SurvivorHas(t: Trie, base: Path, done: set<Label>, limit: int, p: Path, l: Label)
    requires p in PruneKids(t, base, done, limit).inner
    ensures Has(PruneKids(t, base, done, limit), p + [l]) <==> Has(t, p + [l])
  {
    var q := p + [l];
    if Below(base, done, q) {
      assert q[..|base|] == base;
      if |p| > |base| {
        assert q[..|base|] == p[..|base|] && q[|base|] == p[|base|];
        OpenExtends(t, base, p, l, limit);
      }
    }
    hide Big, OpenTo;
  }

  lemma SurvivorKeepsKids(t: Trie, base: Path, done: set<Label>, limit: int, p: Path)
    requires p in PruneKids(t, base, done, limit).inner
    ensures Kids(PruneKids(t, base, done, limit), p) == Kids(t, p)
  {
    var t' := PruneKids(t, base, done, limit);
    forall l
      ensures l in Kids(t', p) <==> l in Kids(t, p)
    {
      KidsAre(t', p, l);
      KidsAre(t, p, l);
      SurvivorHas(t, base, done, limit, p, l);
      hide Kids, PruneKids;
    }
  }

  lemma ParentSurvives(t: Trie, base: Path, done: set<Label>, limit: int, p: Path)
    requires WellFormed(t) && Has(PruneKids(t, base, done, limit), p) && p != []
    ensures Parent(p) in PruneKids(t, base, done, limit).inner
  {
    var q, l := Parent(p), p[|p| - 1];
    assert p == q + [l];
    if Below(base, done, q) {
      assert p[..|base|] == q[..|base|] && p[|base|] == q[|base|];
      OpenExtends(t, base, q, l, limit);
    }
    hide Big, OpenTo;
  }

  lemma PruneKidsWellFormed(t: Trie, base: Path, done: set<Label>, limit: int)
    requires WellFormed(t)
    ensures WellFormed(PruneKids(t, base, done, limit))
  {
    var t' := PruneKids(t, base, done, limit);
    forall p
      ensures Has(t', p) && p != [] ==> Parent(p) in t'.inner
      ensures p in t'.inner && p != [] ==> exists l :: Has(t', p + [l])
    {
      if Has(t', p) && p != [] { ParentSurvives(t, base, done, limit, p); }
      if p in t'.inner && p != [] {
        var l :| Has(t, p + [l]);
        SurvivorHas(t, base, done, limit, p, l);
      }
      hide Big, OpenTo;
    }
  }

  // Below the root every map that is left has fewer than limit entries.
  lemma PruneBounds(t: Trie, limit: int, p: Path)
    requires WellFormed(t) && p in Prune(t, limit).inner && p != []
    ensures |Kids(Prune(t, limit), p)| < limit
  {
    SurvivorKeepsKids(t, [], Kids(t, []), limit, p);
    PruneIs(t, limit, p);
  }

  lemma PruneIdempotent(t: Trie, limit: int)
    requires WellFormed(t)
    ensures Prune(Prune(t, limit), limit) == Prune(t, limit)
  {
    var t' := Prune(t, limit);
    PruneKidsWellFormed(t, [], Kids(t, []), limit);
    forall p ensures !Big(t', p, limit) {
      if p in t'.inner && p != [] { PruneBounds(t, limit, p); }
    }
    forall p
      ensures p in Prune(t', limit).inner <==> p in t'.inner
      ensures p in Prune(t', limit).leaves <==> p in t'.leaves
    {
      PruneIs(t', limit, p);
      hide Big, Prune, Kids;
    }
  }

  // The shortest prefix of p that is big, or p itself.
  lemma {:induction false} FirstBig(t: Trie, p: Path, limit: int, i: nat) returns (j: nat)
    requires 0 < i <= |p|
    requires forall k :: 0 < k < i ==> !Big(t, p[..k], limit)
    ensures i <= j <= |p| && (j == |p| || Big(t, p[..j], limit))
    ensures forall k :: 0 < k < j ==> !Big(t, p[..k], limit)
    decreases |p| - i
  {
    if i == |p| || Big(t, p[..i], limit) { j := i; } else { j := FirstBig(t, p, limit, i + 1); }
  }

  // Every old leaf has a new leaf on its path.
  lemma PruneCovers(t: Trie, limit: int, p: Path)
    requires WellFormed(t) && p in t.leaves
    ensures exists q :: q in Prune(t, limit).leaves && Prefix(q, p)
  {
    var j := FirstBig(t, p, limit, 1);
    var q := p[..j];
    assert p[..|p|] == p;
    if j < |p| { PrefixClosed(t, p, j); }
    forall k | 0 < k < j ensures q[..k] == p[..k] {}
    PruneIs(t, limit, q);
    assert Prefix(q, p);
  }

  // And only one: no leaf lies on the way to another.
  lemma LeavesApart(t: Trie, q: Path, r: Path, p: Path)
    requires WellFormed(t) && q in t.leaves && r in t.leaves && Prefix(q, p) && Prefix(r, p)
    ensures q == r
  {
    if |q| < |r| {
      assert r[..|q|] == q;
      PrefixClosed(t, r, |q|);
    } else if |r| < |q| {
      assert q[..|r|] == r;
      PrefixClosed(t, q, |r|);
    }
  }

  function InnerUnder(t: Trie, q: Path): set<Path> {
    set x | x in t.inner && Prefix(q, x)
  }

  // Fewer nested maps lie below an entry of a map than below the map itself.
  lemma InnerShrinks(t: Trie, t1: Trie, p: Path, k: Label)
    requires t1.inner <= t.inner && p in t.inner
    ensures |InnerUnder(t1, p + [k])| < |InnerUnder(t, p)|
  {
    forall x | x in InnerUnder(t1, p + [k]) ensures x in InnerUnder(t, p) {
      assert x[..|p| + 1][..|p|] == x[..|p|] == (p + [k])[..|p|];
    }
    Smaller(InnerUnder(t1, p + [k]), InnerUnder(t, p), p);
  }

  // Below any path there is a leaf, since no nested map is empty.
  lemma {:induction false} LeafBelow(t: Trie, q: Path) returns (p: Path)
    requires WellFormed(t) && Has(t, q) && q != []
    ensures p in t.leaves && Prefix(q, p)
    decreases |InnerUnder(t, q)|
  {
    if q in t.leaves { return q; }
    var l :| Has(t, q + [l]);
    hide WellFormed, InnerUnder;
    InnerShrinks(t, t, q, l);
    p := LeafBelow(t, q + [l]);
    assert p[..|q| + 1][..|q|] == p[..|q|] == (q + [l])[..|q|];
  }

  // Pruning is a cut: every old leaf has exactly one new leaf on its path, and
  // every new leaf is on the path of an old one.
  lemma PruneIsCut(t: Trie, limit: int)
    requires WellFormed(t)
    ensures forall p :: p in t.leaves ==> exists q :: q in Prune(t, limit).leaves && Prefix(q, p)
    ensures forall p, q, r ::
              (q in Prune(t, limit).leaves && r in Prune(t, limit).leaves && Prefix(q, p) && Prefix(r, p)) ==> q == r
    ensures forall q :: q in Prune(t, limit).leaves ==> exists p :: p in t.leaves && Prefix(q, p)
  {
    var t' := Prune(t, limit);
    PruneKidsWellFormed(t, [], Kids(t, []), limit);
    forall p | p in t.leaves
      ensures exists q :: q in t'.leaves && Prefix(q, p)
    {
      PruneCovers(t, limit, p);
    }
    forall p, q, r | q in t'.leaves && r in t'.leaves && Prefix(q, p) && Prefix(r, p)
      ensures q == r
    {
      LeavesApart(t', q, r, p);
    }
    forall q | q in t'.leaves
      ensures exists p :: p in t.leaves && Prefix(q, p)
    {
      PruneIs(t, limit, q);
      var p := LeafBelow(t, q);
    }
  }
}
