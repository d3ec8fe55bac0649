// Domain names as label paths, top-level label first.
module FqdnNames {
  type Label = string
  type Path = seq<Label>

  // strings.Split on dots.
  function Split(s: string): (parts: seq<Label>)
    ensures |parts| >= 1
  {
    if s == "" then [""]
    else if s[0] == '.' then [""] + Split(s[1..])
    else var rest := Split(s[1..]); [[s[0]] + rest[0]] + rest[1..]
  }

  function Join(parts: seq<Label>): string
    requires |parts| >= 1
  {
    if |parts| == 1 then parts[0] else parts[0] + "." + Join(parts[1..])
  }

  lemma {:induction false} JoinSplit(s: string)
    ensures Join(Split(s)) == s
  {
    if s != "" {
      var rest := Split(s[1..]);
      JoinSplit(s[1..]);
      if s[0] == '.' {
        assert Split(s)[1..] == rest;
      } else {
        assert Split(s)[1..] == rest[1..];
      }
      assert s == [s[0]] + s[1..];
    }
  }

  function Reversed(p: Path): (r: Path)
    ensures |r| == |p|
    ensures forall i :: 0 <= i < |p| ==> r[i] == p[|p| - 1 - i]
  {
    seq(|p|, i requires 0 <= i < |p| => p[|p| - 1 - i])
  }

  // The labels of a name, last one first.
  function Labels(s: string): (p: Path)
    ensures |p| >= 1
  {
    Reversed(Split(s))
  }

  // The name Slice builds for a path: a dot is put before the longer part only
  // when that part is not empty.
  function Name(p: Path): string {
    if p == [] then ""
    else
      var prefix, k := Name(p[..|p| - 1]), p[|p| - 1];
      if prefix != "" then k + "." + prefix else k
  }

  lemma {:induction false} NameOfRooted(p: Path)
    requires p != [] && p[0] != ""
    ensures Name(p) == Join(Reversed(p)) != ""
  {
    if |p| > 1 {
      var init := p[..|p| - 1];
      NameOfRooted(init);
      assert Reversed(p)[1..] == Reversed(init);
    } else {
      assert p[..0] == [];
    }
  }

  lemma {:induction false} NameOfUnrooted(p: Path)
    requires |p| >= 1 && p[0] == ""
    ensures |p| == 1 ==> Name(p) == Join(Reversed(p)) == ""
    ensures |p| > 1 ==> |Name(p)| < |Join(Reversed(p))|
  {
    var init := p[..|p| - 1];
    if |p| > 1 {
      NameOfUnrooted(init);
      assert Reversed(p)[1..] == Reversed(init);
    } else {
      assert init == [];
    }
  }

  // A name survives the trip through its labels exactly when it is empty or its
  // last label is not.
  lemma NameRoundTrip(s: string)
    ensures Name(Labels(s)) == s <==> s == "" || Labels(s)[0] != ""
  {
    JoinSplit(s);
    var p := Labels(s);
    assert Reversed(p) == Split(s);
    if p[0] != "" { NameOfRooted(p); } else { NameOfUnrooted(p); }
    if s == "" { assert Split(s) == [""]; }
    if |p| == 1 && p[0] == "" { assert s == ""; }
  }

  // q is p cut short.
  predicate ProperPrefix(q: Path, p: Path) {
    |q| < |p| && p[..|q|] == q
  }

  predicate Prefix(q: Path, p: Path) {
    |q| <= |p| && p[..|q|] == q
  }
}
