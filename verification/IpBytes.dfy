// IP addresses as big-endian byte strings, stepped in place with carry and borrow.
module IpBytes {
  newtype byte = x: int | 0 <= x < 256

  function Pow256(n: nat): (p: nat)
    ensures p > 0
  {
    if n == 0 then 1 else 256 * Pow256(n - 1)
  }

  // The number a big-endian byte string denotes.
  function Value(s: seq<byte>): nat {
    if s == [] then 0 else Value(s[..|s| - 1]) * 256 + s[|s| - 1] as int
  }

  lemma {:induction false} ValueBound(s: seq<byte>)
    ensures Value(s) < Pow256(|s|)
  {
    if s != [] { ValueBound(s[..|s| - 1]); }
  }

  lemma {:induction false} ValueInjective(a: seq<byte>, b: seq<byte>)
    requires |a| == |b| && Value(a) == Value(b)
    ensures a == b
  {
    if a != [] {
      var n := |a| - 1;
      ValueInjective(a[..n], b[..n]);
      assert a == a[..n] + [a[n]] && b == b[..n] + [b[n]];
    }
  }

  lemma {:induction false} ValueConcat(a: seq<byte>, b: seq<byte>)
    ensures Value(a + b) == Value(a) * Pow256(|b|) + Value(b)
  {
    if b == [] {
      assert a + b == a;
    } else {
      var n := |b| - 1;
      ValueConcat(a, b[..n]);
      assert (a + b)[..|a + b| - 1] == a + b[..n];
      assert Value(a) * Pow256(|b|) == Value(a) * Pow256(n) * 256;
    }
  }

  lemma ValueOf4(a: byte, b: byte, c: byte, d: byte)
    ensures Value([a, b, c, d]) == ((a as int * 256 + b as int) * 256 + c as int) * 256 + d as int
  {
    ValueSnoc([a, b, c], d);
    ValueSnoc([a, b], c);
    ValueSnoc([a], b);
    ValueSnoc([], a);
    hide Value;
    assert [a, b, c] + [d] == [a, b, c, d] && [a, b] + [c] == [a, b, c] && [a] + [b] == [a, b] && [] + [a] == [a];
  }

  lemma ValueSnoc(s: seq<byte>, b: byte)
    ensures Value(s + [b]) == Value(s) * 256 + b as int
    ensures Value([]) == 0
  {
    assert (s + [b])[..|s|] == s;
  }

  // ---- Comparison ----

  // bytes.Compare on strings of the same length.
  function Compare(a: seq<byte>, b: seq<byte>): int
    requires |a| == |b|
  {
    if a == [] then 0
    else if a[0] < b[0] then -1
    else if a[0] > b[0] then 1
    else Compare(a[1..], b[1..])
  }

  lemma HeadValue(s: seq<byte>)
    requires s != []
    ensures Value(s) == s[0] as int * Pow256(|s| - 1) + Value(s[1..])
  {
    var head := [s[0]];
    assert s == head + s[1..];
    ValueConcat(head, s[1..]);
    assert head[..0] == [];
    assert Value(head) == s[0] as int;
  }

  lemma {:induction false} Scale(x: int, y: int, p: nat)
    requires x < y
    ensures x * p + p <= y * p
    decreases y - x
  {
    if x + 1 < y { Scale(x, y - 1, p); }
    assert (y - 1) * p + p == y * p;
  }

  lemma HeadLess(x: int, y: int, p: nat, u: nat, v: nat)
    requires x < y && u < p
    ensures x * p + u < y * p + v
  {
    Scale(x, y, p);
  }

  lemma {:induction false} CompareIsOrder(a: seq<byte>, b: seq<byte>)
    requires |a| == |b|
    ensures Compare(a, b) < 0 <==> Value(a) < Value(b)
    ensures Compare(a, b) == 0 <==> a == b
  {
    if a != [] {
      hide Value, Pow256;
      HeadValue(a);
      HeadValue(b);
      ValueBound(a[1..]);
      ValueBound(b[1..]);
      CompareIsOrder(a[1..], b[1..]);
      if a[0] < b[0] {
        HeadLess(a[0] as int, b[0] as int, Pow256(|a| - 1), Value(a[1..]), Value(b[1..]));
      } else if b[0] < a[0] {
        HeadLess(b[0] as int, a[0] as int, Pow256(|a| - 1), Value(b[1..]), Value(a[1..]));
      } else {
        assert a == [a[0]] + a[1..] && b == [b[0]] + b[1..];
      }
    }
  }

  // ---- Plus and minus one ----

  // The carry ripples from the last byte.
  function Successor(s: seq<byte>): (r: seq<byte>)
    ensures |r| == |s|
  {
    if s == [] then []
    else
      var n := |s| - 1;
      if s[n] == 255 then Successor(s[..n]) + [0] else s[..n] + [s[n] + 1]
  }

  function Predecessor(s: seq<byte>): (r: seq<byte>)
    ensures |r| == |s|
  {
    if s == [] then []
    else
      var n := |s| - 1;
      if s[n] == 0 then Predecessor(s[..n]) + [255] else s[..n] + [s[n] - 1]
  }

  // v modulo 256^n, for a v one step outside or inside the range.
  function Wrap(v: int, n: nat): int {
    if v == Pow256(n) then 0 else if v == -1 then Pow256(n) - 1 else v
  }

  lemma {:induction false} SuccessorValue(s: seq<byte>)
    ensures Value(Successor(s)) == Wrap(Value(s) + 1, |s|)
  {
    ValueBound(s);
    if s != [] {
      var n := |s| - 1;
      SuccessorValue(s[..n]);
      ValueBound(s[..n]);
      assert Successor(s)[..n] == if s[n] == 255 then Successor(s[..n]) else s[..n];
    }
  }

  lemma {:induction false} PredecessorUndoesSuccessor(s: seq<byte>)
    ensures Predecessor(Successor(s)) == s
  {
    if s != [] {
      var n := |s| - 1;
      PredecessorUndoesSuccessor(s[..n]);
      assert Successor(s)[..n] == if s[n] == 255 then Successor(s[..n]) else s[..n];
      assert s == s[..n] + [s[n]];
    }
  }

  lemma {:induction false} SuccessorUndoesPredecessor(s: seq<byte>)
    ensures Successor(Predecessor(s)) == s
  {
    if s != [] {
      var n := |s| - 1;
      SuccessorUndoesPredecessor(s[..n]);
      assert Predecessor(s)[..n] == if s[n] == 0 then Predecessor(s[..n]) else s[..n];
      assert s == s[..n] + [s[n]];
    }
  }

  lemma PredecessorValue(s: seq<byte>)
    ensures Value(Predecessor(s)) == Wrap(Value(s) - 1, |s|)
  {
    hide Value, Predecessor, Successor, Pow256;
    SuccessorUndoesPredecessor(s);
    SuccessorValue(Predecessor(s));
    ValueBound(Predecessor(s));
    ValueBound(s);
  }

  // The carry stops at j: every later byte is 255, and byte j, if any, is not.
  lemma {:induction false} CarryStops(s: seq<byte>, j: int)
    requires -1 <= j < |s|
    requires forall k :: j < k < |s| ==> s[k] == 255
    requires j >= 0 ==> s[j] != 255
    ensures forall k :: 0 <= k < |s| ==>
              Successor(s)[k] == if k < j then s[k] else if k == j then s[k] + 1 else 0
  {
    if s != [] && j < |s| - 1 { CarryStops(s[..|s| - 1], j); }
  }

  lemma {:induction false} BorrowStops(s: seq<byte>, j: int)
    requires -1 <= j < |s|
    requires forall k :: j < k < |s| ==> s[k] == 0
    requires j >= 0 ==> s[j] != 0
    ensures forall k :: 0 <= k < |s| ==>
              Predecessor(s)[k] == if k < j then s[k] else if k == j then s[k] - 1 else 255
  {
    if s != [] && j < |s| - 1 { BorrowStops(s[..|s| - 1], j); }
  }

  // ip := ip + 1 modulo 256^len, in place.
  method IPInc(ip: array<byte>)
    modifies ip
    ensures ip[..] == Successor(old(ip[..]))
  {
    hide Successor;
    ghost var s := ip[..];
    var j := ip.Length - 1;
    while j >= 0
      invariant -1 <= j < ip.Length
      invariant forall k :: 0 <= k <= j ==> ip[k] == s[k]
      invariant forall k :: j < k < ip.Length ==> ip[k] == 0 && s[k] == 255
    {
      ip[j] := if ip[j] == 255 then 0 else ip[j] + 1;
      if ip[j] > 0 { break; }
      j := j - 1;
    }
    CarryStops(s, j);
  }

  // ip := ip - 1 modulo 256^len, in place.
  method IPDec(ip: array<byte>)
    modifies ip
    ensures ip[..] == Predecessor(old(ip[..]))
  {
    hide Predecessor;
    ghost var s := ip[..];
    var j := ip.Length - 1;
    while j >= 0
      invariant -1 <= j < ip.Length
      invariant forall k :: 0 <= k <= j ==> ip[k] == s[k]
      invariant forall k :: j < k < ip.Length ==> ip[k] == 255 && s[k] == 0
    {
      if ip[j] > 0 {
        ip[j] := ip[j] - 1;
        break;
      }
      ip[j] := 255;
      j := j - 1;
    }
    BorrowStops(s, j);
  }
}
