// Enumerations of addresses: ranges, all hosts of a network, the window around
// an address, and the usable hosts of an owned block.
module IpHosts {
  import opened IpBytes
  import opened IpNets

  const MAX16: nat := 0xFFFF_FFFF_FFFF_FFFF_FFFF_FFFF_FFFF_FFFF

  lemma Space16()
    ensures Pow256(16) == MAX16 + 1
  {
    PrefixValue();
    Pow2Bytes(4);
    Pow2Bytes(16);
    Pow2Sum(32, 32);
    Pow2Sum(64, 64);
  }

  // Fresh slices of 16 bytes holding the count numbers from first on, in order.
  ghost predicate Holds(ips: seq<array?<byte>>, first: nat, count: nat)
    reads ips
  {
    |ips| == count
    && forall i :: 0 <= i < count ==>
         ips[i] != null && ips[i].Length == 16 && Value(ips[i][..]) == first + i
  }

  // net.ParseIP of the text of an address: its 16-byte form, newly allocated.
  method ParseText(ip: seq<byte>) returns (r: array<byte>)
    requires IsAddress(ip)
    ensures fresh(r) && r[..] == To16(ip)
  {
    r := CopyOf(To16(ip));
  }

  method CopyOf(s: seq<byte>) returns (r: array<byte>)
    ensures fresh(r) && r[..] == s
  {
    r := new byte[|s|](i requires 0 <= i < |s| => s[i]);
  }

  // One step of an enumeration: the next number, or zero after the last one.
  method Step(ip: array<byte>)
    modifies ip
    ensures Value(ip[..]) == Wrap(Value(old(ip[..])) + 1, ip.Length)
  {
    IPInc(ip);
    SuccessorValue(old(ip[..]));
  }

  lemma Numbers(a: seq<byte>, b: seq<byte>)
    requires IsAddress(a) && IsAddress(b)
    ensures Compare(To16(b), To16(a)) < 0 <==> Number(b) < Number(a)
    ensures Compare(To16(b), To16(a)) == 0 <==> Number(b) == Number(a)
    ensures To16(a) == To16(b) <==> Number(a) == Number(b)
    ensures Number(a) <= MAX16 && Number(b) <= MAX16
  {
    Space16();
    hide Pow256;
    ValueBound(To16(a));
    ValueBound(To16(b));
    CompareIsOrder(To16(b), To16(a));
    if Number(a) == Number(b) { ValueInjective(To16(a), To16(b)); }
  }

  // Every address from start to end inclusive. The two exceptions: a one-address
  // range returns the caller's own slice, and the whole IPv6 space, whose stop
  // address wraps around to the first one, returns nothing.
  method RangeHosts(start: array?<byte>, end: array?<byte>) returns (ips: seq<array<byte>>)
    requires start != null ==> IsAddress(start[..])
    requires end != null ==> IsAddress(end[..])
    ensures start == null || end == null ==> ips == []
    ensures start != null && end != null ==>
              var a, b := Number(start[..]), Number(end[..]);
              && (b < a ==> ips == [])
              && (a == b ==> ips == [start])
              && (a < b && a == 0 && b == MAX16 ==> ips == [])
              && (a < b && !(a == 0 && b == MAX16) ==>
                    Holds(ips, a, b - a + 1) && forall i :: 0 <= i < |ips| ==> fresh(ips[i]))
  {
    hide Value, Pow256, Compare, IsMapped;
    if start == null || end == null { return []; }
    Numbers(start[..], end[..]);
    var cmp := Compare(To16(end[..]), To16(start[..]));
    if cmp < 0 { return []; }
    if cmp == 0 { return [start]; }
    ghost var a, b := Number(start[..]), Number(end[..]);
    var stop := ParseText(end[..]);
    Step(stop);
    var ip := ParseText(start[..]);
    ips := Walk(ip, stop[..], a, b);
  }

  // The loop of RangeHosts: up to, and without, the stop address.
  method Walk(ip: array<byte>, stop: seq<byte>, ghost a: nat, ghost b: nat) returns (ips: seq<array<byte>>)
    requires ip.Length == 16 && |stop| == 16
    requires a < b <= MAX16 && Value(ip[..]) == a && Value(stop) == Wrap(b + 1, 16)
    modifies ip
    ensures forall i :: 0 <= i < |ips| ==> fresh(ips[i])
    ensures Holds(ips, a, if a == 0 && b == MAX16 then 0 else b - a + 1)
  {
    Space16();
    hide Pow256, Value;
    ghost var count := if a == 0 && b == MAX16 then 0 else b - a + 1;
    ips := [];
    if Value(ip[..]) == Value(stop) { ValueInjective(ip[..], stop); }
    while ip[..] != stop
      invariant |ips| <= count
      invariant Value(ip[..]) == Wrap(a + |ips|, 16)
      invariant forall i :: 0 <= i < |ips| ==> fresh(ips[i]) && ips[i] != ip
      invariant Holds(ips, a, |ips|)
      invariant ip[..] == stop <==> |ips| == count
      decreases count - |ips|
    {
      var addr := ParseText(ip[..]);
      ips := ips + [addr];
      Step(ip);
      if ip[..] != stop && Value(ip[..]) == Value(stop) { ValueInjective(ip[..], stop); }
    }
  }

  // ---- All hosts of a network ----

  // An IPv6 network whose prefix covers the mapped addresses, which it does not contain.
  predicate Straddles(n: IPNet)
    requires WellFormed(n)
  {
    |n.ip| == 16 && !IsMapped(n.ip) && Number(n.ip) < MAPPED_FIRST < Number(n.ip) + Size(n)
  }

  // How many addresses the enumeration sees before it first leaves the network.
  function HostCount(n: IPNet): nat
    requires WellFormed(n)
  {
    if Straddles(n) then MAPPED_FIRST - Number(n.ip) else Size(n)
  }

  // The enumeration misses addresses of the block exactly when the gap lies in it.
  lemma AllOrGap(n: IPNet)
    requires WellFormed(n)
    ensures HostCount(n) == Size(n) <==> !Straddles(n)
  {}

  lemma BlockFits(n: IPNet)
    requires WellFormed(n)
    ensures Value(n.ip) + Size(n) <= Pow256(|n.ip|)
    ensures n.ones >= 1 ==> 2 * Size(n) <= Pow256(|n.ip|)
  {
    var w := 8 * |n.ip|;
    Pow2Bytes(|n.ip|);
    Pow2Sum(w - n.ones, n.ones);
    ValueBound(n.ip);
    Pow2Grows(w - n.ones, w);
    hide Pow2, Pow256, Value;
    AlignedFits(Value(n.ip), Pow2(w - n.ones), Pow2(n.ones));
  }

  ghost predicate AtPosition(n: IPNet, ip: seq<byte>, k: nat)
    requires WellFormed(n)
  {
    && |ip| == |n.ip|
    && k <= HostCount(n)
    && Value(ip) == Wrap(Value(n.ip) + k, |n.ip|)
  }

  // The enumeration of an IPv4 /0 never leaves the network.
  predicate Ends(n: IPNet)
    requires WellFormed(n)
  {
    |n.ip| == 16 || n.ones >= 1
  }

  lemma Inside4(n: IPNet, ip: seq<byte>, k: nat)
    requires WellFormed(n) && Ends(n) && AtPosition(n, ip, k) && |n.ip| == 4
    ensures Contains(n, ip) <==> k < HostCount(n)
    ensures k < HostCount(n) ==> Number(ip) == Number(n.ip) + k
  {
    ContainsInterval(n, ip);
    NumberOf4(n.ip);
    NumberOf4(ip);
    BlockFits(n);
    assert HostCount(n) == Size(n);
    hide Contains, Value, WellFormed, Size, HostCount, Pow256, Number;
  }

  lemma InsideMapped(n: IPNet, ip: seq<byte>, k: nat)
    requires WellFormed(n) && AtPosition(n, ip, k) && IsMapped(n.ip)
    ensures Contains(n, ip) <==> k < HostCount(n)
    ensures k < HostCount(n) ==> Number(ip) == Number(n.ip) + k
  {
    ContainsInterval(n, ip);
    BlockEnd(n);
    Space16();
    assert HostCount(n) == Size(n);
    assert Number(ip) == Value(ip) && Number(n.ip) == Value(n.ip);
    hide Contains, Value, WellFormed, Size, HostCount, Pow256, Number, IsMapped;
  }

  lemma Inside6(n: IPNet, ip: seq<byte>, k: nat)
    requires WellFormed(n) && AtPosition(n, ip, k) && |n.ip| == 16 && !IsMapped(n.ip)
    ensures Contains(n, ip) <==> k < HostCount(n)
    ensures k < HostCount(n) ==> Number(ip) == Number(n.ip) + k
  {
    ContainsInterval(n, ip);
    BlockFits(n);
    MappedRange(n.ip);
    MappedRange(ip);
    Space16();
    assert n.ones == 0 ==> Straddles(n) by { WholeSpace(n); }
    assert Number(ip) == Value(ip) && Number(n.ip) == Value(n.ip);
    hide Contains, Value, WellFormed, Size, Pow256, Number, IsMapped;
  }

  lemma WholeSpace(n: IPNet)
    requires WellFormed(n) && |n.ip| == 16
    ensures n.ones == 0 ==> Value(n.ip) == 0 && Size(n) == MAX16 + 1
  {
    Space16();
    Pow2Bytes(16);
    BlockFits(n);
    hide Value;
  }

  // After k steps the enumeration is inside the network exactly while k is
  // below the count, even when the step after the last address wraps around.
  lemma InsideAfter(n: IPNet, ip: seq<byte>, k: nat)
    requires WellFormed(n) && Ends(n) && AtPosition(n, ip, k)
    ensures Contains(n, ip) <==> k < HostCount(n)
    ensures k < HostCount(n) ==> Number(ip) == Number(n.ip) + k
  {
    hide Contains, HostCount, Number, AtPosition;
    if |n.ip| == 4 {
      Inside4(n, ip, k);
    } else if IsMapped(n.ip) {
      InsideMapped(n, ip, k);
    } else {
      Inside6(n, ip, k);
    }
  }

  // Only the step after the last address can wrap.
  lemma NextInside(n: IPNet, k: nat)
    requires WellFormed(n) && k < HostCount(n)
    ensures Value(n.ip) + k < Pow256(|n.ip|)
  {
    BlockFits(n);
  }

  lemma FirstPosition(n: IPNet)
    requires WellFormed(n)
    ensures AtPosition(n, n.ip, 0) && 0 < HostCount(n)
  {
    NextInside(n, 0);
  }

  // Stepping once from the k-th address of the network.
  lemma MoveOn(n: IPNet, ip: seq<byte>, next: seq<byte>, k: nat)
    requires WellFormed(n) && AtPosition(n, ip, k) && k < HostCount(n)
    requires |next| == |ip| && Value(next) == Wrap(Value(ip) + 1, |ip|)
    ensures AtPosition(n, next, k + 1)
  {
    hide HostCount, WellFormed, Value, Pow256, Size;
    NextInside(n, k);
  }

  lemma NumberIsValue(ip: seq<byte>)
    requires IsAddress(ip)
    ensures Number(ip) == Value(To16(ip))
  {}

  lemma PositionIsAddress(n: IPNet, ip: seq<byte>, k: nat)
    requires WellFormed(n) && AtPosition(n, ip, k)
    ensures IsAddress(ip) && |ip| == |n.ip|
  {}

  // The loop of AllHosts, before the first and the last address are dropped.
  method Enumerate(n: IPNet) returns (ips: seq<array<byte>>)
    requires WellFormed(n) && Ends(n)
    ensures forall i :: 0 <= i < |ips| ==> fresh(ips[i])
    ensures Holds(ips, Number(n.ip), HostCount(n))
  {
    hide Value, Pow256, WellFormed, Contains, HostCount, Number, AtPosition, Ends, Wrap, To16;
    FirstPosition(n);
    InsideAfter(n, n.ip, 0);
    PositionIsAddress(n, n.ip, 0);
    var ip := CopyOf(n.ip);
    ips := [];
    while Contains(n, ip[..])
      invariant |ips| <= HostCount(n) && ip.Length == |n.ip|
      invariant AtPosition(n, ip[..], |ips|)
      invariant Contains(n, ip[..]) <==> |ips| < HostCount(n)
      invariant fresh(ip) && forall i :: 0 <= i < |ips| ==> fresh(ips[i]) && ips[i] != ip
      invariant Holds(ips, Number(n.ip), |ips|)
      decreases HostCount(n) - |ips|
    {
      ghost var k, here := |ips|, ip[..];
      InsideAfter(n, here, k);
      NumberIsValue(here);
      var addr := ParseText(ip[..]);
      ips := ips + [addr];
      Step(ip);
      MoveOn(n, here, ip[..], k);
      PositionIsAddress(n, ip[..], k + 1);
      InsideAfter(n, ip[..], k + 1);
    }
  }

  // Every address of the network in ascending order, without the first and the
  // last one when there are more than two.
  method AllHosts(n: IPNet) returns (ips: seq<array<byte>>)
    requires WellFormed(n) && Ends(n)
    ensures forall i :: 0 <= i < |ips| ==> fresh(ips[i])
    ensures var c := HostCount(n);
            if c > 2 then Holds(ips, Number(n.ip) + 1, c - 2) else Holds(ips, Number(n.ip), c)
  {
    ips := Enumerate(n);
    hide Value, WellFormed, HostCount, Number;
    if |ips| > 2 { ips := ips[1..|ips| - 1]; }
  }

  // In 0.0.0.0/0 every IPv4 address is inside, so the guard of AllHosts never fails.
  lemma SlashZeroNeverEnds(n: IPNet, ip: seq<byte>)
    requires WellFormed(n) && n.ones == 0 && |ip| == 4 == |n.ip|
    ensures Contains(n, ip)
  {
    ContainsInterval(n, ip);
    NumberOf4(ip);
    NumberOf4(n.ip);
    Pow32();
    ValueBound(ip);
    ValueBound(n.ip);
    PrefixValue();
    BlockEnd(n);
    hide Contains, Value;
  }
}
