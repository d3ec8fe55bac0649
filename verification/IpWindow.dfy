// The window of addresses around one address of a network, and the usable hosts
// of an owned IPv4 block.
module IpWindow {
  import opened Wrappers
  import opened IpBytes
  import opened IpNets
  import opened IpHosts

  predicate IsV6(n: IPNet)
    requires WellFormed(n)
  {
    |n.ip| == 16 && !IsMapped(n.ip)
  }

  // Contains, on the number of a 16-byte address.
  predicate Inside(n: IPNet, x: int)
    requires WellFormed(n)
  {
    Number(n.ip) <= x < Number(n.ip) + Size(n)
    && (IsV6(n) ==> !(MAPPED_FIRST <= x < MAPPED_END))
  }

  lemma InsideIsContains(n: IPNet, ip: seq<byte>)
    requires WellFormed(n) && |ip| == 16
    ensures Contains(n, ip) <==> Inside(n, Value(ip))
    ensures Value(ip) <= MAX16
  {
    Space16();
    ContainsInterval(n, ip);
    MappedRange(ip);
    ValueBound(ip);
    assert To16(ip) == ip;
    hide Contains, Value, WellFormed, Pow256;
  }

  // The addresses reachable from x without leaving the network, one step at a time:
  // between its ends, or up to the gap an IPv6 network has at the mapped addresses. In
  // ::/0 there is no end but the gap: a walk goes around, which is counted below zero
  // or past the last address here.
  function RunFirst(n: IPNet, x: nat): int
    requires WellFormed(n)
  {
    if Straddles(n) && x >= MAPPED_END then MAPPED_END
    else if IsWhole(n) then MAPPED_END - (MAX16 + 1)
    else Number(n.ip)
  }

  function RunLast(n: IPNet, x: nat): int
    requires WellFormed(n)
  {
    if Straddles(n) && x < MAPPED_FIRST then MAPPED_FIRST - 1
    else if IsWhole(n) then MAX16 + MAPPED_FIRST
    else LastOf(n)
  }

  function LastOf(n: IPNet): int
    requires WellFormed(n)
  {
    Number(n.ip) + Size(n) - 1
  }

  // The address at a count below zero or past the last one.
  function Around(v: int): int {
    if v < 0 then v + MAX16 + 1 else if v > MAX16 then v - (MAX16 + 1) else v
  }

  lemma AroundStep(v: int, d: int)
    requires 0 - MAX16 <= v <= 2 * MAX16 && (d == 1 || d == -1)
    ensures Wrap(Around(v) + d, 16) == Around(v + d)
  {
    Space16();
  }

  // ::/0, the one network that holds both ends of the address space.
  predicate IsWhole(n: IPNet)
    requires WellFormed(n)
  {
    IsV6(n) && n.ones == 0
  }

  // The steps run past neither end of the address space.
  predicate NoWrapAround(n: IPNet, x: nat, steps: nat)
    requires WellFormed(n)
  {
    !IsWhole(n) || ((x >= MAPPED_END || steps <= x) && (x < MAPPED_FIRST || x + steps <= MAX16))
  }

  lemma NetworkFits(n: IPNet)
    requires WellFormed(n)
    ensures Number(n.ip) + Size(n) <= MAX16 + 1
    ensures !IsWhole(n) ==> 2 * Size(n) <= MAX16 + 1
    ensures !IsV6(n) ==> MAPPED_FIRST <= Number(n.ip) && Number(n.ip) + Size(n) <= MAPPED_END
    ensures IsWhole(n) ==> Number(n.ip) == 0 && Size(n) == MAX16 + 1 && Straddles(n)
  {
    Space16();
    BlockFits(n);
    BlockEnd(n);
    if IsV6(n) { WholeSpace(n); }
    hide Value, Pow256;
    if IsV6(n) {
      assert Number(n.ip) == Value(n.ip);
    }
  }

  // Up to one step beyond the run, the network holds what the run does.
  lemma InsideRun(n: IPNet, x: nat, y: int)
    requires WellFormed(n) && Inside(n, x)
    ensures RunFirst(n, x) <= x <= RunLast(n, x)
    ensures RunFirst(n, x) - 1 <= y <= RunLast(n, x) + 1 ==>
              (Inside(n, Around(y)) <==> RunFirst(n, x) <= y <= RunLast(n, x))
  {
    NetworkFits(n);
    Space16();
    if |n.ip| == 16 {
      MappedRange(n.ip);
      assert Number(n.ip) == Value(n.ip);
    }
    hide WellFormed, Size, Value, IsMapped, Number, Pow256;
  }

  method StepBack(ip: array<byte>)
    modifies ip
    ensures Value(ip[..]) == Wrap(Value(old(ip[..])) - 1, ip.Length)
  {
    IPDec(ip);
    PredecessorValue(old(ip[..]));
  }

  method Move(ip: array<byte>, back: bool)
    modifies ip
    ensures Value(ip[..]) == Wrap(Value(old(ip[..])) + (if back then -1 else 1), ip.Length)
  {
    if back { StepBack(ip); } else { Step(ip); }
  }

  function Toward(x: int, i: int, back: bool): int {
    if back then x - i else x + i
  }

  function RunEnd(n: IPNet, x: nat, back: bool): int
    requires WellFormed(n)
  {
    if back then RunFirst(n, x) else RunLast(n, x)
  }

  // Where a walk of the given length from x ends.
  function WalkEnd(n: IPNet, x: nat, steps: nat, back: bool): int
    requires WellFormed(n)
  {
    if back then Max(RunFirst(n, x), x - steps) else Min(RunLast(n, x), x + steps)
  }

  lemma NextOnWalk(n: IPNet, x: nat, i: nat, back: bool, ip: seq<byte>, next: seq<byte>)
    requires WellFormed(n) && Inside(n, x) && |ip| == |next| == 16
    requires Value(ip) == Around(Toward(x, i, back))
    requires RunFirst(n, x) <= Toward(x, i, back) <= RunLast(n, x)
    requires Value(next) == Wrap(Value(ip) + (if back then -1 else 1), 16)
    ensures Value(next) == Around(Toward(x, i + 1, back))
    ensures Contains(n, next) <==> Toward(x, i, back) != RunEnd(n, x, back)
    ensures Contains(n, next) ==> RunFirst(n, x) <= Toward(x, i + 1, back) <= RunLast(n, x)
  {
    hide WellFormed, Contains, Value, Wrap, RunFirst, RunLast, Inside;
    RunLimits(n, x);
    AroundStep(Toward(x, i, back), if back then -1 else 1);
    InsideIsContains(n, next);
    InsideRun(n, x, Toward(x, i + 1, back));
  }

  lemma RunLimits(n: IPNet, x: nat)
    requires WellFormed(n) && Inside(n, x)
    ensures 0 - MAX16 <= RunFirst(n, x) && RunLast(n, x) <= 2 * MAX16
  {
    NetworkFits(n);
    hide WellFormed, Size;
  }

  // Walks up to steps addresses away, stopping at the last one inside.
  method WalkAway(n: IPNet, ip: array<byte>, steps: int, back: bool)
    requires WellFormed(n) && ip.Length == 16 && Contains(n, ip[..])
    modifies ip
    ensures Value(ip[..]) == Around(WalkEnd(n, Value(old(ip[..])), Max(0, steps), back))
  {
    hide WellFormed, Contains, Value, RunFirst, RunLast, Inside, Wrap;
    ghost var x := Value(ip[..]);
    InsideIsContains(n, ip[..]);
    InsideRun(n, x, x);
    var i := 0;
    while i < steps
      invariant 0 <= i <= Max(0, steps)
      invariant Value(ip[..]) == Around(Toward(x, i, back))
      invariant RunFirst(n, x) <= Toward(x, i, back) <= RunLast(n, x)
    {
      ghost var here := ip[..];
      Move(ip, back);
      NextOnWalk(n, x, i, back, here, ip[..]);
      if !Contains(n, ip[..]) {
        Undo(here, ip[..], back);
        Move(ip, !back);
        break;
      }
      i := i + 1;
    }
  }

  lemma Undo(ip: seq<byte>, next: seq<byte>, back: bool)
    requires |ip| == |next| && Value(next) == Wrap(Value(ip) + (if back then -1 else 1), |ip|)
    ensures Wrap(Value(next) + (if back then 1 else -1), |ip|) == Value(ip)
  {
    ValueBound(ip);
    hide Value, Pow256;
  }

  // Division as the source rounds it, toward zero.
  function Half(num: int): int {
    if num >= 0 then num / 2 else -((-num) / 2)
  }

  // Toward zero, as near to half as a whole number can be.
  lemma HalfIs(num: int)
    ensures num >= 0 ==> 2 * Half(num) <= num <= 2 * Half(num) + 1
    ensures num <= 0 ==> 2 * Half(num) - 1 <= num <= 2 * Half(num)
  {}

  // Both ends of the walks are addresses as they stand exactly when nothing wraps
  // around; otherwise the first one comes out above the last one.
  lemma WindowEnds(n: IPNet, a: nat, k: nat)
    requires WellFormed(n) && Inside(n, a)
    ensures var lo, hi := WalkEnd(n, a, k, true), WalkEnd(n, a, k, false);
            && lo <= a <= hi && a <= MAX16
            && (NoWrapAround(n, a, k) <==> 0 <= lo && hi <= MAX16)
            && (NoWrapAround(n, a, k) ==> Around(lo) == lo && Around(hi) == hi && !(lo == 0 && hi == MAX16))
            && (!NoWrapAround(n, a, k) ==> Around(lo) > Around(hi))
  {
    NetworkFits(n);
    InsideRun(n, a, a);
    Space16();
    hide WellFormed, Size, Value, Number, IsMapped, Pow256;
  }

  // addr is the parsed address text, None when it does not parse. The window of
  // num addresses around it, clamped to the network; an address outside the
  // network comes back alone. When a walk wraps around, nothing comes back.
  method CIDRSubset(n: IPNet, addr: Option<seq<byte>>, num: int) returns (ips: seq<array?<byte>>)
    requires WellFormed(n)
    requires addr.Some? ==> |addr.value| == 16
    ensures addr.None? ==> ips == [null]
    ensures addr.Some? && !Contains(n, addr.value) ==> Holds(ips, Value(addr.value), 1)
    ensures addr.Some? && Contains(n, addr.value) ==>
              var a, k := Value(addr.value), Max(0, Half(num));
              var lo, hi := WalkEnd(n, a, k, true), WalkEnd(n, a, k, false);
              if NoWrapAround(n, a, k) then 0 <= lo <= a <= hi && Holds(ips, lo, hi - lo + 1) else ips == []
  {
    hide WellFormed, Contains, Value, Pow256, Inside, NoWrapAround, IsMapped, WalkEnd, Half, Around;
    if addr.None? { return [null]; }
    ghost var a, k := Value(addr.value), Max(0, Half(num));
    var first := CopyOf(addr.value);
    if !Contains(n, first[..]) { return [first]; }
    InsideIsContains(n, addr.value);
    WindowEnds(n, a, k);
    var offset := Half(num);
    WalkAway(n, first, offset, true);
    var last := CopyOf(addr.value);
    WalkAway(n, last, offset, false);
    if first[..] == last[..] { return [first]; }
    ips := RangeHosts(first, last);
    NumberIsValue(first[..]);
    NumberIsValue(last[..]);
    if Value(first[..]) == Value(last[..]) { ValueInjective(first[..], last[..]); }
  }

  // That is the window between the ends of the network, the whole of it, exactly when
  // the walks meet neither the gap nor an end of ::/0.
  lemma PromisedWindow(n: IPNet, a: nat, k: nat)
    requires WellFormed(n) && Inside(n, a)
    ensures WalkEnd(n, a, k, true) == Max(Number(n.ip), a - k) && WalkEnd(n, a, k, false) == Min(LastOf(n), a + k)
            <==> Straddles(n) ==>
                   && NoWrapAround(n, a, k)
                   && if a < MAPPED_FIRST then a + k < MAPPED_FIRST else a - k >= MAPPED_END
  {
    NetworkFits(n);
    hide WellFormed, Size, Value, Number, IsMapped;
  }

  // The window of two around the first address of ::/0 is empty.
  method EmptyWindow() returns (ips: seq<array?<byte>>)
    ensures ips == []
  {
    var zeros: seq<byte> := [0, 0, 0, 0, 0, 0, 0, 0, 0, 0, 0, 0, 0, 0, 0, 0];
    var n := IPNet(zeros, 0);
    Zeros(zeros);
    MappedRange(zeros);
    assert WellFormed(n) && IsWhole(n);
    InsideIsContains(n, zeros);
    NetworkFits(n);
    hide WellFormed, Contains, Value, IsWhole;
    ips := CIDRSubset(n, Some(zeros), 2);
  }

  // ---- Usable hosts of an owned block ----

  // A netip.Prefix: addr is the number of its address within the family.
  datatype Prefix = Prefix(valid: bool, is6: bool, addr: nat, bits: int)

  const OWNED_MIN_PREFIX_BITS := 16

  predicate PrefixEligibleForFill(p: Prefix) {
    p.valid && !p.is6 && OWNED_MIN_PREFIX_BITS <= p.bits <= 32
  }

  // The number of the prefix's first address.
  function Masked(p: Prefix): nat
    requires PrefixEligibleForFill(p)
  {
    AlignDown(p.addr, Pow2(32 - p.bits))
  }

  // IPv4 prefixes of length 16 to 32, and the block of 2^(32 - bits) addresses that holds
  // the prefix's own.
  lemma EligibleIs(p: Prefix)
    ensures PrefixEligibleForFill(p) <==> p.valid && !p.is6 && 16 <= p.bits <= 32
    ensures PrefixEligibleForFill(p) ==>
              && Masked(p) % Pow2(32 - p.bits) == 0
              && Masked(p) <= p.addr < Masked(p) + Pow2(32 - p.bits)
  {
    if PrefixEligibleForFill(p) { AlignDownIs(p.addr, Pow2(32 - p.bits)); }
    hide Pow2, AlignDown;
  }

  // One when the network and the broadcast address are skipped.
  function Skipped(hostBits: nat): nat {
    if hostBits >= 2 then 1 else 0
  }

  // The usable hosts of the prefix: the first one and how many there are.
  function UsableFirst(p: Prefix): nat
    requires PrefixEligibleForFill(p)
  {
    Masked(p) + Skipped(32 - p.bits)
  }

  function UsableCount(hostBits: nat): int {
    Pow2(hostBits) - 2 * Skipped(hostBits)
  }

  // fn is the callback's answer at each address; visited is what it was called on.
  method EachUsableIPv4(p: Prefix, fn: nat -> bool) returns (visited: seq<nat>)
    ensures !PrefixEligibleForFill(p) ==> visited == []
    ensures PrefixEligibleForFill(p) ==>
              && |visited| <= UsableCount(32 - p.bits)
              && (forall i :: 0 <= i < |visited| ==> visited[i] == UsableFirst(p) + i)
              && (forall i :: 0 <= i < |visited| - 1 ==> fn(visited[i]))
              && (|visited| < UsableCount(32 - p.bits) ==> visited != [] && !fn(visited[|visited| - 1]))
  {
    visited := [];
    if !PrefixEligibleForFill(p) { return; }
    var hostBits := 32 - p.bits;
    var total := Pow2(hostBits);
    if hostBits >= 2 { Pow2Grows(2, hostBits); }
    var addr := Masked(p);
    ghost var skipped := Skipped(hostBits);
    assert total - 2 * skipped == UsableCount(hostBits) >= 1 && UsableFirst(p) == addr + skipped;
    hide Pow2, Masked, UsableCount, UsableFirst;
    var i := 0;
    while i < total
      invariant 0 <= i <= total && addr + skipped == UsableFirst(p) + i
      invariant |visited| == Max(0, Min(i, total - skipped) - skipped)
      invariant forall j :: 0 <= j < |visited| ==> visited[j] == UsableFirst(p) + j && fn(visited[j])
    {
      var skip := hostBits >= 2 && (i == 0 || i == total - 1);
      if !skip {
        visited := visited + [addr];
        if !fn(addr) { return; }
      }
      addr := addr + 1;
      i := i + 1;
    }
  }

  // The two enumerators agree: for an owned block, AllHosts returns exactly the
  // usable hosts, both starting from the same address.
  lemma EnumeratorsAgree(n: IPNet, p: Prefix)
    requires WellFormed(n) && |n.ip| == 4
    requires PrefixEligibleForFill(p) && p.bits == n.ones && Masked(p) == Value(n.ip)
    ensures
      var c := HostCount(n);
      && UsableCount(32 - p.bits) == (if c > 2 then c - 2 else c)
      && MAPPED_FIRST + UsableFirst(p) == Number(n.ip) + (if c > 2 then 1 else 0)
  {
    NumberOf4(n.ip);
    var h: nat := 32 - p.bits;
    if h >= 2 { Pow2Grows(2, h); }
    assert h == 1 ==> Pow2(h) == 2;
  }
}
