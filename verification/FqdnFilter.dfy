// The filter itself: nested maps updated in place. A ghost table of its maps by
// path ties the heap to the value-level trie.
module FqdnFilter {
  import opened FqdnNames
  import opened FqdnTrie

  // One nested map; null stands for the empty struct of a leaf.
  class FQDNMap {
    var kids: map<Label, FQDNMap?>

    constructor ()
      ensures kids == map[]
    {
      kids := map[];
    }
  }

  // paths lists the members of s, each once.
  ghost predicate Lists(paths: seq<Path>, s: set<Path>) {
    && (forall p :: p in paths <==> p in s)
    && (forall i, j :: 0 <= i < j < |paths| ==> paths[i] != paths[j])
  }

  function Names(paths: seq<Path>): (r: seq<string>)
    ensures |r| == |paths|
    ensures forall i :: 0 <= i < |r| ==> r[i] == Name(paths[i])
  {
    seq(|paths|, i requires 0 <= i < |paths| => Name(paths[i]))
  }

  // names are those of the paths in s, each path once.
  ghost predicate Spells(names: seq<string>, paths: seq<Path>, s: set<Path>) {
    Lists(paths, s) && names == Names(paths)
  }

  lemma SpellsBoth(ns: seq<string>, ps: seq<Path>, a: set<Path>, ms: seq<string>, qs: seq<Path>, b: set<Path>)
    requires Spells(ns, ps, a) && Spells(ms, qs, b) && a !! b
    ensures Spells(ns + ms, ps + qs, a + b)
  {
    forall i, j | 0 <= i < j < |ps + qs|
      ensures (ps + qs)[i] != (ps + qs)[j]
    {
      if i < |ps| <= j { assert ps[i] in a && qs[j - |ps|] in b; }
    }
  }

  // The leaves at or below q, and those below p through one of the labels in done.
  function Under(leaves: set<Path>, q: Path): set<Path> {
    set x | x in leaves && Prefix(q, x)
  }

  function Through(leaves: set<Path>, p: Path, done: set<Label>): set<Path> {
    set x | x in leaves && Below(p, done, x)
  }

  lemma LeafAlone(t: Trie, q: Path)
    requires WellFormed(t) && q in t.leaves
    ensures Under(t.leaves, q) == {q}
  {
    forall x | x in t.leaves && Prefix(q, x) ensures x == q {
      if x != q {
        PrefixClosed(t, x, |q|);
      }
      hide WellFormed;
      assert x[..|x|] == x;
    }
  }

  lemma UnderInner(t: Trie, q: Path)
    requires t.inner !! t.leaves && q in t.inner
    ensures Under(t.leaves, q) - {q} == Under(t.leaves, q)
  {}

  lemma OnlyLeaf(t: Trie, q: Path, name: string)
    requires WellFormed(t) && q in t.leaves && name == Name(q)
    ensures Spells([name], [q], Under(t.leaves, q))
  {
    LeafAlone(t, q);
    hide WellFormed;
    assert Names([q]) == [name];
  }

  lemma NothingYet(leaves: set<Path>, p: Path)
    ensures Spells([], [], Through(leaves, p, {}))
  {
    assert Names([]) == [];
  }

  lemma NameOfKid(p: Path, k: Label)
    ensures Name(p + [k]) == if Name(p) != "" then k + "." + Name(p) else k
  {
    assert (p + [k])[..|p|] == p;
  }

  lemma Grows(leaves: set<Path>, p: Path, k: Label, done: set<Label>)
    requires k !in done
    ensures Through(leaves, p, done + {k}) == Through(leaves, p, done) + Under(leaves, p + [k])
    ensures Through(leaves, p, done) !! Under(leaves, p + [k])
  {
    forall q
      ensures Below(p, done + {k}, q) <==> Below(p, done, q) || Prefix(p + [k], q)
      ensures Prefix(p + [k], q) ==> !Below(p, done, q)
    {
      BelowOne(p, done, k, q);
      if Prefix(p + [k], q) { NotBelow(p, done, k, q); }
    }
  }

  lemma AllThrough(t: Trie, p: Path)
    requires WellFormed(t) && p in t.inner
    ensures Through(t.leaves, p, Kids(t, p)) == Under(t.leaves, p) - {p}
  {
    forall q | q in t.leaves && ProperPrefix(p, q)
      ensures q[|p|] in Kids(t, p)
    {
      var l := q[|p|];
      assert q[..|p| + 1] == p + [l];
      if |q| > |p| + 1 { PrefixClosed(t, q, |p| + 1); } else { assert q == p + [l]; }
      KidsAre(t, p, l);
      hide WellFormed, Kids;
    }
    hide WellFormed, Kids;
    assert forall q :: Prefix(p, q) && q != p ==> ProperPrefix(p, q) by {
      forall q | Prefix(p, q) && |q| == |p| ensures q == p { assert q[..|q|] == q; }
    }
  }

  // The maps by path: each once, the root at the empty path, parents before children.
  ghost predicate RootedAt(root: FQDNMap, tree: map<Path, FQDNMap>, leaves: set<Path>) {
    && [] in tree && tree[[]] == root && [] !in leaves && tree.Keys !! leaves
    && (forall p :: (p in tree || p in leaves) && p != [] ==> Parent(p) in tree)
    && (forall p, q :: p in tree && q in tree && p != q ==> tree[p] != tree[q])
  }

  // The entry under l of a map at p holds what tree and leaves say about p + [l].
  ghost predicate EntryIs(kids: map<Label, FQDNMap?>, tree: map<Path, FQDNMap>, leaves: set<Path>, p: Path, l: Label) {
    var q := p + [l];
    && (l in kids <==> q in tree || q in leaves)
    && (l in kids ==> (kids[l] == null <==> q in leaves) && (q in tree ==> kids[l] == tree[q]))
  }

  lemma SameChild(p: Path, l: Label, x: Path, k: Label)
    ensures x + [k] == p + [l] <==> x == p && k == l
    ensures Parent(x + [k]) == x
  {
    assert Parent(x + [k]) == x && (x + [k])[|x|] == k;
    assert Parent(p + [l]) == p && (p + [l])[|p|] == l;
  }

  lemma OpenRooted(root: FQDNMap, tree: map<Path, FQDNMap>, leaves: set<Path>, p: Path, l: Label, m: FQDNMap)
    requires RootedAt(root, tree, leaves) && p in tree && p + [l] !in tree && m !in tree.Values
    ensures RootedAt(root, tree[p + [l] := m], leaves - {p + [l]})
  {
    SameChild(p, l, p, l);
  }

  lemma OpenEntry(kids: map<Label, FQDNMap?>, tree: map<Path, FQDNMap>, leaves: set<Path>,
                  p: Path, l: Label, m: FQDNMap, x: Path, k: Label)
    requires EntryIs(kids, tree, leaves, x, k)
    ensures EntryIs(if x == p then kids[l := m] else kids, tree[p + [l] := m], leaves - {p + [l]}, x, k)
  {
    SameChild(p, l, x, k);
  }

  lemma OpenedEmpty(root: FQDNMap, tree: map<Path, FQDNMap>, leaves: set<Path>, p: Path, l: Label, m: FQDNMap, k: Label)
    requires RootedAt(root, tree, leaves) && p in tree && p + [l] !in tree
    ensures EntryIs(map[], tree[p + [l] := m], leaves - {p + [l]}, p + [l], k)
  {
    SameChild(p, l, p + [l], k);
    assert |p + [l] + [k]| > |p + [l]|;
  }

  lemma LeafEntry(kids: map<Label, FQDNMap?>, tree: map<Path, FQDNMap>, leaves: set<Path>,
                  p: Path, l: Label, x: Path, k: Label)
    requires EntryIs(kids, tree, leaves, x, k) && p + [l] !in tree
    ensures EntryIs(if x == p then kids[l := null] else kids, tree, leaves + {p + [l]}, x, k)
  {
    SameChild(p, l, x, k);
  }

  function Outside(tree: map<Path, FQDNMap>, q: Path): map<Path, FQDNMap> {
    map x | x in tree && !Prefix(q, x) :: tree[x]
  }

  function LeavesOutside(leaves: set<Path>, q: Path): set<Path> {
    (set x | x in leaves && !Prefix(q, x)) + {q}
  }

  lemma PrefixOfChild(q: Path, x: Path, k: Label)
    ensures Prefix(q, x + [k]) <==> Prefix(q, x) || q == x + [k]
  {
    if |q| <= |x| { assert (x + [k])[..|q|] == x[..|q|]; }
    if |q| == |x| + 1 { assert (x + [k])[..|q|] == x + [k]; }
  }

  lemma CutRooted(root: FQDNMap, tree: map<Path, FQDNMap>, leaves: set<Path>, p: Path, l: Label)
    requires RootedAt(root, tree, leaves) && p in tree
    ensures RootedAt(root, Outside(tree, p + [l]), LeavesOutside(leaves, p + [l])) && p in Outside(tree, p + [l])
  {
    var q := p + [l];
    SameChild(p, l, p, l);
    forall x | x != []
      ensures Prefix(q, x) <==> Prefix(q, Parent(x)) || q == x
    {
      assert Parent(x) + [x[|x| - 1]] == x;
      PrefixOfChild(q, Parent(x), x[|x| - 1]);
    }
    hide Prefix;
    assert !Prefix(q, []) && !Prefix(q, p) by { assert |q| > |p|; }
  }

  lemma CutEntry(kids: map<Label, FQDNMap?>, tree: map<Path, FQDNMap>, leaves: set<Path>,
                 p: Path, l: Label, x: Path, k: Label)
    requires EntryIs(kids, tree, leaves, x, k) && x in Outside(tree, p + [l])
    ensures EntryIs(if x == p then kids[l := null] else kids,
                    Outside(tree, p + [l]), LeavesOutside(leaves, p + [l]), x, k)
  {
    SameChild(p, l, x, k);
    PrefixOfChild(p + [l], x, k);
    assert !Prefix(p + [l], x);
    hide Prefix;
  }

  class FQDNFilter {
    const root: FQDNMap
    ghost var tree: map<Path, FQDNMap>
    ghost var leaves: set<Path>

    ghost function View(): Trie
      reads this
    {
      Trie(tree.Keys, leaves)
    }

    ghost predicate Linked()
      reads this, tree.Values
    {
      && RootedAt(root, tree, leaves)
      && forall p, l :: p in tree ==> EntryIs(tree[p].kids, tree, leaves, p, l)
    }

    ghost predicate Valid()
      reads this, tree.Values
    {
      Linked() && WellFormed(View())
    }

    lemma KidsOf(p: Path)
      requires Linked() && p in tree
      ensures Kids(View(), p) == tree[p].kids.Keys
    {
      forall l
        ensures l in Kids(View(), p) <==> l in tree[p].kids
      {
        KidsAre(View(), p, l);
        assert EntryIs(tree[p].kids, tree, leaves, p, l);
      }
    }

    constructor ()
      ensures Valid() && View() == EMPTY && fresh(tree.Values)
    {
      root := new FQDNMap();
      new;
      tree, leaves := map[[] := root], {};
      assert View().inner == {[]};
    }

    // A new nested map under label l of the map at p.
    method Open(cur: FQDNMap, ghost p: Path, l: Label) returns (m: FQDNMap)
      requires Linked() && p in tree && tree[p] == cur && p + [l] !in tree
      modifies this, cur
      ensures Linked() && fresh(m) && tree == old(tree)[p + [l] := m]
      ensures View() == Trie(old(View()).inner + {p + [l]}, old(View()).leaves - {p + [l]})
    {
      hide RootedAt, EntryIs;
      ghost var q := p + [l];
      m := new FQDNMap();
      Apart();
      OpenRooted(root, tree, leaves, p, l, m);
      cur.kids := cur.kids[l := m];
      tree, leaves := tree[q := m], leaves - {q};
      forall x, k | x in tree
        ensures EntryIs(tree[x].kids, tree, leaves, x, k)
      {
        if x == q {
          OpenedEmpty(root, old(tree), old(leaves), p, l, m, k);
        } else {
          OpenEntry(old(tree[x].kids), old(tree), old(leaves), p, l, m, x, k);
        }
      }
    }

    lemma Apart()
      requires RootedAt(root, tree, leaves)
      ensures forall p, q :: p in tree && q in tree && p != q ==> tree[p] != tree[q]
      ensures tree.Keys !! leaves
    {}

    method AddLeaf(cur: FQDNMap, ghost p: Path, l: Label)
      requires Linked() && p in tree && tree[p] == cur && !Has(View(), p + [l])
      modifies this, cur
      ensures Linked() && tree == old(tree)
      ensures View() == Trie(old(View()).inner, old(View()).leaves + {p + [l]})
    {
      hide EntryIs;
      SameChild(p, l, p, l);
      cur.kids := cur.kids[l := null];
      leaves := leaves + {p + [l]};
      forall x, k | x in tree
        ensures EntryIs(tree[x].kids, tree, leaves, x, k)
      {
        LeafEntry(old(tree[x].kids), tree, old(leaves), p, l, x, k);
      }
    }

    method Insert(fqdn: string)
      requires Valid()
      modifies this, tree.Values
      ensures Valid() && fresh(tree.Values - old(tree.Values))
      ensures View() == FqdnTrie.Insert(old(View()), Labels(fqdn))
    {
      hide InsertUpTo, RootedAt, Labels;
      var labels := Labels(fqdn);
      var cur := root;
      var n := |labels|;
      InsertStarts(View(), labels);
      RootIsThere();
      for i := 0 to n
        invariant Linked() && fresh(tree.Values - old(tree.Values))
        invariant View() == InsertUpTo(old(View()), labels, i)
        invariant i < n ==> labels[..i] in tree && tree[labels[..i]] == cur
      {
        var l := labels[i];
        ghost var p := labels[..i];
        InsertNext(old(View()), labels, i);
        assert EntryIs(tree[p].kids, tree, leaves, p, l);
        if i < n - 1 {
          if l !in cur.kids || cur.kids[l] == null {
            Apart();
            cur := Open(cur, p, l);
          } else {
            cur := cur.kids[l];
            Apart();
          }
        } else if l !in cur.kids {
          AddLeaf(cur, p, l);
        }
      }
      InsertWellFormed(old(View()), labels);
      InsertEnds(old(View()), labels);
    }

    lemma RootIsThere()
      requires RootedAt(root, tree, leaves)
      ensures [] in tree && tree[[]] == root
    {}

    method Prune(limit: int)
      requires Valid()
      modifies this, tree.Values
      ensures Valid() && tree.Values <= old(tree.Values)
      ensures View() == FqdnTrie.Prune(old(View()), limit)
    {
      PruneAt(root, [], limit);
    }

    // The map at p, and everything below it.
    method PruneAt(node: FQDNMap, ghost p: Path, limit: int)
      requires Valid() && p in tree && tree[p] == node
      modifies this, tree.Values
      ensures Valid() && forall q :: q in tree ==> q in old(tree) && tree[q] == old(tree)[q]
      ensures View() == PruneKids(old(View()), p, Kids(old(View()), p), limit)
      decreases |InnerUnder(View(), p)|, 1
    {
      ghost var t, done: set<Label> := View(), {};
      var todo := node.kids.Keys;
      KidsOf(p);
      PruneNothing(t, p, limit);
      while todo != {}
        invariant Valid() && p in tree && tree[p] == node
        invariant forall q :: q in tree ==> q in old(tree) && tree[q] == old(tree)[q]
        invariant View() == PruneKids(t, p, done, limit)
        invariant todo !! done && todo + done == Kids(t, p)
        decreases todo
      {
        var k :| k in todo;
        PruneEntry(node, p, k, limit, t, done);
        todo, done := todo - {k}, done + {k};
      }
      assert done == Kids(t, p);
    }

    // One round of the loop over the entries.
    method PruneEntry(node: FQDNMap, ghost p: Path, k: Label, limit: int, ghost t: Trie, ghost done: set<Label>)
      requires Valid() && p in tree && tree[p] == node && WellFormed(t)
      requires View() == PruneKids(t, p, done, limit) && k in Kids(t, p) && k !in done
      modifies this, tree.Values
      ensures Valid() && p in tree
      ensures forall q :: q in tree ==> q in old(tree) && tree[q] == old(tree)[q]
      ensures View() == PruneKids(t, p, done + {k}, limit)
      decreases |InnerUnder(t, p)|, 0
    {
      ghost var q := p + [k];
      ghost var t1 := View();
      KidsAre(t, p, k);
      Untouched(t, p, done, k, limit, q);
      assert EntryIs(tree[p].kids, tree, leaves, p, k);
      var v := node.kids[k];
      if v == null {
        PruneLeaf(t, p, done, k, limit);
      } else {
        KidsOf(q);
        if |v.kids| >= limit {
          PruneBig(t, p, done, k, limit);
          Cut(node, p, k);
          PruneKidsWellFormed(t, p, done + {k}, limit);
        } else {
          PruneInner(t, p, done, k, limit);
          InnerShrinks(t, t1, p, k);
          PruneAt(v, q, limit);
        }
      }
    }

    // The nested map under k gives way to a leaf.
    method Cut(node: FQDNMap, ghost p: Path, k: Label)
      requires Linked() && p in tree && tree[p] == node
      modifies this, node
      ensures Linked() && p in tree
      ensures forall q :: q in tree ==> q in old(tree) && tree[q] == old(tree)[q]
      ensures View() == Collapse(old(View()), p + [k])
    {
      hide RootedAt, EntryIs, Prefix;
      ghost var q := p + [k];
      CutRooted(root, tree, leaves, p, k);
      Apart();
      node.kids := node.kids[k := null];
      tree, leaves := Outside(tree, q), LeavesOutside(leaves, q);
      forall x, l | x in tree
        ensures EntryIs(tree[x].kids, tree, leaves, x, l)
      {
        CutEntry(old(tree[x].kids), old(tree), old(leaves), p, k, x, l);
      }
    }

    method Slice() returns (names: seq<string>)
      requires Valid()
      ensures exists paths :: Spells(names, paths, View().leaves)
    {
      ghost var paths;
      names, paths := ProcessMap(root, [], "");
      assert Under(leaves, []) - {[]} == leaves;
      assert Spells(names, paths, View().leaves);
    }

    // The names of the leaves below the map at p, whose own name is prefix.
    method ProcessMap(node: FQDNMap, ghost p: Path, prefix: string)
      returns (names: seq<string>, ghost paths: seq<Path>)
      requires Valid() && p in tree && tree[p] == node && prefix == Name(p)
      ensures Spells(names, paths, Under(leaves, p) - {p})
      decreases |InnerUnder(View(), p)|
    {
      hide Spells, WellFormed, Under, Through, Kids, InnerUnder, Prefix, Name;
      names, paths := [], [];
      var todo := node.kids.Keys;
      ghost var done: set<Label> := {};
      KidsOf(p);
      NothingYet(leaves, p);
      while todo != {}
        invariant Spells(names, paths, Through(leaves, p, done))
        invariant todo !! done && todo + done == node.kids.Keys
        decreases todo
      {
        var k :| k in todo;
        assert EntryIs(tree[p].kids, tree, leaves, p, k);
        var name := k;
        if prefix != "" { name := name + "." + prefix; }
        NameOfKid(p, k);
        ghost var more;
        var v := node.kids[k];
        var ns;
        if v == null {
          ns, more := [name], [p + [k]];
          OnlyLeaf(View(), p + [k], name);
        } else {
          InnerShrinks(View(), View(), p, k);
          ns, more := ProcessMap(v, p + [k], name);
          assert Under(leaves, p + [k]) - {p + [k]} == Under(leaves, p + [k]) by {
            hide *;
            UnderInner(View(), p + [k]);
          }
        }
        Grows(leaves, p, k, done);
        SpellsBoth(names, paths, Through(leaves, p, done), ns, more, Under(leaves, p + [k]));
        names, paths, todo, done := names + ns, paths + more, todo - {k}, done + {k};
      }
      assert done == node.kids.Keys;
      AllThrough(View(), p);
    }

    method Close()
      requires Valid()
      modifies this, root
      ensures Valid() && View() == EMPTY
    {
      root.kids := map[];
      tree, leaves := map[[] := root], {};
      assert View().inner == {[]};
    }
  }
}
