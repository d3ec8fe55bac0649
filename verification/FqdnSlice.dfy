// What Slice returns, in terms of the names that went in.
module FqdnSlice {
  import opened FqdnNames
  import opened FqdnTrie
  import opened FqdnFilter

  // s is a proper label-suffix of x: "b.c" of "a.b.c".
  ghost predicate LabelSuffix(s: string, x: string) {
    exists u: string :: x == u + "." + s
  }

  predicate EndsInLabel(s: string) {
    s != "" && s[|s| - 1] != '.'
  }

  lemma {:induction false} SplitAtDot(u: string, s: string)
    ensures Split(u + "." + s) == Split(u) + Split(s)
  {
    hide Split;
    var x := u + "." + s;
    SplitHead(x);
    if u == "" {
      SplitNothing();
      assert x[0] == '.' && x[1..] == s;
    } else {
      assert x[1..] == u[1..] + "." + s && x[0] == u[0];
      SplitAtDot(u[1..], s);
      SplitHead(u);
      var rest := Split(u[1..]);
      if u[0] != '.' {
        assert (rest + Split(s))[1..] == rest[1..] + Split(s);
      }
    }
  }

  lemma SplitNothing()
    ensures Split("") == [""]
  {}

  lemma SplitHead(s: string)
    requires s != ""
    ensures Split(s) == if s[0] == '.' then [""] + Split(s[1..])
                        else [[s[0]] + Split(s[1..])[0]] + Split(s[1..])[1..]
  {}

  lemma {:induction false} JoinBoth(a: seq<Label>, b: seq<Label>)
    requires |a| >= 1 && |b| >= 1
    ensures Join(a + b) == Join(a) + "." + Join(b)
  {
    if |a| == 1 {
      assert (a + b)[1..] == b;
    } else {
      assert (a + b)[1..] == a[1..] + b;
      JoinBoth(a[1..], b);
    }
  }

  lemma ReversedSplits(p: Path, q: Path)
    requires ProperPrefix(q, p)
    ensures Reversed(p) == Reversed(p)[..|p| - |q|] + Reversed(q)
  {
    forall i | 0 <= i < |q| ensures q[i] == p[i] { assert p[..|q|][i] == p[i]; }
  }

  lemma ReversedBoth(a: Path, b: Path)
    ensures Reversed(a + b) == Reversed(b) + Reversed(a)
  {}

  lemma PrefixOfSuffix(u: string, s: string)
    ensures ProperPrefix(Labels(s), Labels(u + "." + s))
  {
    SplitAtDot(u, s);
    hide Split;
    ReversedBoth(Split(u), Split(s));
  }

  lemma SuffixOfPrefix(s: string, x: string) returns (u: string)
    requires ProperPrefix(Labels(s), Labels(x))
    ensures x == u + "." + s
  {
    var a, b := Split(s), Split(x);
    JoinSplit(s);
    JoinSplit(x);
    hide Split, Join;
    ReversedSplits(Labels(x), Labels(s));
    var front := b[..|b| - |a|];
    assert Reversed(Labels(x)) == b && Reversed(Labels(s)) == a;
    assert b == front + a;
    JoinBoth(front, a);
    u := Join(front);
  }

  // In the trie, a label-suffix is a shorter path.
  lemma SuffixIffPrefix(s: string, x: string)
    ensures LabelSuffix(s, x) <==> ProperPrefix(Labels(s), Labels(x))
  {
    if u: string :| x == u + "." + s { PrefixOfSuffix(u, s); }
    if ProperPrefix(Labels(s), Labels(x)) {
      var u := SuffixOfPrefix(s, x);
      assert x == u + "." + s;
    }
  }

  lemma {:induction false} LastLabelOf(s: string)
    ensures Split(s)[|Split(s)| - 1] != "" <==> EndsInLabel(s)
  {
    if s != "" { LastLabelOf(s[1..]); }
  }

  lemma SameLabels(s: string, x: string)
    requires Labels(s) == Labels(x)
    ensures s == x
  {
    assert Reversed(Labels(s)) == Split(s) && Reversed(Labels(x)) == Split(x);
    JoinSplit(s);
    JoinSplit(x);
  }

  function AllLabels(inserted: seq<string>): (r: seq<Path>)
    ensures |r| == |inserted|
  {
    seq(|inserted|, i requires 0 <= i < |inserted| => Labels(inserted[i]))
  }

  lemma NameComesBack(s: string)
    requires EndsInLabel(s)
    ensures Name(Labels(s)) == s
  {
    LastLabelOf(s);
    NameRoundTrip(s);
  }

  // A leaf is the path of an inserted name that is no suffix of another one.
  lemma LeafIs(inserted: seq<string>, s: string)
    ensures Labels(s) in InsertAll(EMPTY, AllLabels(inserted)).leaves <==>
            s in inserted && forall x <- inserted :: !LabelSuffix(s, x)
  {
    var ps := AllLabels(inserted);
    InsertAllRepresents(ps);
    hide InsertAll;
    assert Labels(s) in ps <==> s in inserted by {
      if Labels(s) in ps {
        var i :| 0 <= i < |ps| && ps[i] == Labels(s);
        SameLabels(s, inserted[i]);
      }
      if s in inserted {
        var i :| 0 <= i < |inserted| && inserted[i] == s;
        assert ps[i] == Labels(s);
      }
    }
    SuffixedBy(inserted, s);
  }

  lemma SuffixedBy(inserted: seq<string>, s: string)
    ensures (exists q :: q in PathSet(AllLabels(inserted)) && ProperPrefix(Labels(s), q))
            <==> exists x <- inserted :: LabelSuffix(s, x)
  {
    var ps := AllLabels(inserted);
    hide LabelSuffix, ProperPrefix;
    if q :| q in PathSet(ps) && ProperPrefix(Labels(s), q) {
      var i :| 0 <= i < |ps| && ps[i] == q;
      SuffixIffPrefix(s, inserted[i]);
      assert inserted[i] in inserted;
    }
    if x :| x in inserted && LabelSuffix(s, x) {
      var i :| 0 <= i < |inserted| && inserted[i] == x;
      SuffixIffPrefix(s, x);
      assert ps[i] in PathSet(ps);
    }
  }

  lemma LeafHasName(inserted: seq<string>, p: Path)
    requires forall s <- inserted :: EndsInLabel(s)
    requires p in InsertAll(EMPTY, AllLabels(inserted)).leaves
    ensures Name(p) in inserted && Labels(Name(p)) == p
  {
    var ps := AllLabels(inserted);
    InsertAllRepresents(ps);
    hide InsertAll;
    var i :| 0 <= i < |ps| && ps[i] == p;
    NameComesBack(inserted[i]);
  }

  // The names come back each once, and they are exactly the inserted ones that are
  // not a proper label-suffix of another: the order of insertion plays no part.
  lemma SliceOfInserted(inserted: seq<string>, names: seq<string>, paths: seq<Path>)
    requires forall s <- inserted :: EndsInLabel(s)
    requires Spells(names, paths, InsertAll(EMPTY, AllLabels(inserted)).leaves)
    ensures forall i, j :: 0 <= i < j < |names| ==> names[i] != names[j]
    ensures forall s :: s in names <==> s in inserted && forall x <- inserted :: !LabelSuffix(s, x)
  {
    var leaves := InsertAll(EMPTY, AllLabels(inserted)).leaves;
    hide InsertAll, LabelSuffix;
    forall i | 0 <= i < |names|
      ensures Labels(names[i]) == paths[i] && names[i] in inserted && paths[i] in leaves
    {
      LeafHasName(inserted, paths[i]);
    }
    forall s
      ensures s in names <==> s in inserted && forall x <- inserted :: !LabelSuffix(s, x)
    {
      LeafIs(inserted, s);
      if s in inserted && Labels(s) in leaves {
        var i :| 0 <= i < |paths| && paths[i] == Labels(s);
        NameComesBack(s);
        assert names[i] == s;
      }
    }
  }
}
