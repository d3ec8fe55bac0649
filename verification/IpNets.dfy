// Networks as the net package parses them, and which addresses they contain.
module IpNets {
  import opened IpBytes

  function Pow2(n: nat): (p: nat)
    ensures p > 0
  {
    if n == 0 then 1 else 2 * Pow2(n - 1)
  }

  lemma {:induction false} Pow2Bytes(n: nat)
    ensures Pow2(8 * n) == Pow256(n)
  {
    if n > 0 {
      Pow2Bytes(n - 1);
      var m := 8 * n;
      assert Pow2(m) == 2 * Pow2(m - 1) == 4 * Pow2(m - 2) == 8 * Pow2(m - 3) == 16 * Pow2(m - 4);
      assert Pow2(m - 4) == 2 * Pow2(m - 5) == 4 * Pow2(m - 6) == 8 * Pow2(m - 7) == 16 * Pow2(m - 8);
    }
  }

  lemma {:induction false} Pow2Sum(a: nat, b: nat)
    ensures Pow2(a + b) == Pow2(a) * Pow2(b)
  {
    if a > 0 {
      Pow2Sum(a - 1, b);
      assert Pow2(a) * Pow2(b) == 2 * (Pow2(a - 1) * Pow2(b));
    }
  }

  lemma {:induction false} Pow2Grows(a: nat, b: nat)
    requires a <= b
    ensures Pow2(a) <= Pow2(b)
    ensures a < b ==> 2 * Pow2(a) <= Pow2(b)
    decreases b - a
  {
    if a < b { Pow2Grows(a, b - 1); }
  }

  // v with its low bits cleared.
  function AlignDown(v: nat, size: nat): (r: nat)
    requires size > 0
    ensures v % size == 0 ==> r == v
  {
    v - v % size
  }

  // ---- Addresses ----

  // ::ffff:0:0/96 holds the IPv4-mapped addresses (section 2.5.5.2 of RFC 4291).
  const V4_PREFIX: seq<byte> := [0, 0, 0, 0, 0, 0, 0, 0, 0, 0, 255, 255]

  const MAPPED_FIRST: nat := 0xFFFF_0000_0000
  const MAPPED_END: nat := 0x1_0000_0000_0000

  predicate IsAddress(ip: seq<byte>) {
    |ip| == 4 || |ip| == 16
  }

  predicate IsMapped(ip: seq<byte>) {
    |ip| == 16 && ip[..12] == V4_PREFIX
  }

  function To16(ip: seq<byte>): (r: seq<byte>)
    requires IsAddress(ip)
    ensures |r| == 16
  {
    if |ip| == 4 then V4_PREFIX + ip else ip
  }

  // An address as a number: IPv4 addresses count as their mapped form.
  function Number(ip: seq<byte>): nat
    requires IsAddress(ip)
  {
    Value(To16(ip))
  }

  lemma PrefixValue()
    ensures Value(V4_PREFIX) == 0xFFFF
    ensures Pow256(4) == 0x1_0000_0000
  {
    var z: seq<byte> := [0, 0, 0, 0, 0, 0, 0, 0, 0, 0];
    Zeros(z);
    var a := z + [255];
    assert a[..10] == z;
    assert V4_PREFIX[..11] == a;
    assert Pow256(4) == 256 * Pow256(3) == 65536 * Pow256(2) == 16777216 * Pow256(1);
  }

  lemma {:induction false} Zeros(z: seq<byte>)
    requires forall i :: 0 <= i < |z| ==> z[i] == 0
    ensures Value(z) == 0
  {
    if z != [] { Zeros(z[..|z| - 1]); }
  }

  lemma NumberOf4(ip: seq<byte>)
    requires |ip| == 4
    ensures Number(ip) == MAPPED_FIRST + Value(ip) < MAPPED_END
    ensures IsMapped(To16(ip)) && To16(ip)[12..] == ip
  {
    PrefixValue();
    ValueConcat(V4_PREFIX, ip);
    ValueBound(ip);
  }

  lemma MappedRange(ip: seq<byte>)
    requires |ip| == 16
    ensures IsMapped(ip) <==> MAPPED_FIRST <= Value(ip) < MAPPED_END
    ensures IsMapped(ip) ==> Value(ip) == MAPPED_FIRST + Value(ip[12..])
  {
    var a, b := ip[..12], ip[12..];
    assert ip == a + b;
    ValueConcat(a, b);
    ValueBound(b);
    PrefixValue();
    if MAPPED_FIRST <= Value(ip) < MAPPED_END {
      assert Value(a) == 0xFFFF;
      ValueInjective(a, V4_PREFIX);
    }
  }

  // ---- Networks ----

  // A network of a parsed CIDR (section 3.1 of RFC 4632): the address is masked
  // and the mask is as long as the address.
  datatype IPNet = IPNet(ip: seq<byte>, ones: nat)

  predicate WellFormed(n: IPNet) {
    IsAddress(n.ip) && n.ones <= 8 * |n.ip| && Value(n.ip) % Pow2(8 * |n.ip| - n.ones) == 0
  }

  function Size(n: IPNet): nat
    requires WellFormed(n)
  {
    Pow2(8 * |n.ip| - n.ones)
  }

  // The IPv4 form when there is one, as Contains compares them.
  function Short(ip: seq<byte>): (r: seq<byte>)
    requires IsAddress(ip)
    ensures IsAddress(r)
  {
    if IsMapped(ip) then ip[12..] else ip
  }

  // The prefix length for the short form: the mask's last four bytes.
  function ShortOnes(n: IPNet): nat
    requires WellFormed(n)
  {
    if IsMapped(n.ip) then (if n.ones >= 96 then n.ones - 96 else 0) else n.ones
  }

  // Same family, and equal under the mask.
  predicate Contains(n: IPNet, ip: seq<byte>)
    requires WellFormed(n) && IsAddress(ip)
  {
    var x, net := Short(ip), Short(n.ip);
    |x| == |net|
    && ShortOnes(n) <= 8 * |net|
    && var h := Pow2(8 * |net| - ShortOnes(n));
       Value(x) / h == Value(net) / h
  }

  lemma SameBlock(x: nat, b: nat, p: nat)
    requires p > 0 && b % p == 0
    ensures x / p == b / p <==> b <= x < b + p
  {
    var q, k := x / p, b / p;
    assert x == q * p + x % p;
    assert b == k * p;
    if q < k { Scale(q, k, p); }
    if k < q { Scale(k, q, p); }
  }

  lemma MappedUnaligned(v: nat, h: nat)
    requires MAPPED_FIRST <= v < MAPPED_END && h > 32
    ensures v % Pow2(h) != 0
  {
    if v % Pow2(h) == 0 {
      Pow2Sum(33, h - 33);
      Pow33();
      MultipleOf(v, 0x2_0000_0000, Pow2(h - 33));
    }
  }

  lemma MappedAligned(v: nat, h: nat)
    requires MAPPED_FIRST <= v < MAPPED_END && h <= 32 && v % Pow2(h) == 0
    ensures (v - MAPPED_FIRST) % Pow2(h) == 0
  {
    Pow2Sum(h, 32 - h);
    Pow32();
    hide Pow2;
    MinusProduct(v, 0xFFFF, Pow2(h), Pow2(32 - h));
  }

  lemma MinusProduct(v: nat, c: nat, p: nat, q: nat)
    requires p > 0 && v % p == 0 && v >= c * (p * q)
    ensures (v - c * (p * q)) % p == 0
  {
    Regroup(c, p, q);
    ModMinus(v, c * q, p);
  }

  lemma Regroup(c: nat, p: nat, q: nat)
    ensures c * (p * q) == (c * q) * p
  {}

  // Only a mapped network of length 96 or more is well formed.
  lemma MappedOnes(n: IPNet)
    requires WellFormed(n) && IsMapped(n.ip)
    ensures n.ones >= 96
    ensures Size(n) == Pow2(32 - ShortOnes(n))
    ensures Value(n.ip[12..]) % Size(n) == 0
  {
    MappedRange(n.ip);
    if n.ones < 96 {
      MappedUnaligned(Value(n.ip), 128 - n.ones);
    } else {
      MappedAligned(Value(n.ip), 128 - n.ones);
    }
  }

  lemma Pow32()
    ensures Pow2(32) == 0x1_0000_0000
  {
    Pow2Bytes(4);
    PrefixValue();
  }

  lemma Pow33()
    ensures Pow2(33) == 0x2_0000_0000
  {
    Pow32();
  }

  lemma MultipleOf(v: nat, a: nat, b: nat)
    requires a > 0 && b > 0 && v % (a * b) == 0
    ensures v % a == 0
  {
    var q := v / (a * b);
    assert v == q * (a * b) == (q * b) * a;
    ModZero(q * b, a);
  }

  lemma ModZero(q: nat, a: nat)
    requires a > 0
    ensures (q * a) % a == 0
  {
    var r := (q * a) % a;
    var d := (q * a) / a;
    assert q * a == d * a + r;
    if d < q { Scale(d, q, a); }
    if q < d { Scale(q, d, a); }
  }

  // The multiple of size at v or below it.
  lemma AlignDownIs(v: nat, size: nat)
    requires size > 0
    ensures AlignDown(v, size) % size == 0 && AlignDown(v, size) <= v < AlignDown(v, size) + size
  {
    var q := v / size;
    assert v == q * size + v % size;
    ModZero(q, size);
  }

  lemma ModMinus(v: nat, k: nat, p: nat)
    requires p > 0 && v % p == 0 && v >= k * p
    ensures (v - k * p) % p == 0
  {
    var q := v / p;
    assert v == q * p;
    assert v - k * p == (q - k) * p;
    if q < k { Scale(q, k, p); }
    ModZero(q - k, p);
  }

  // Contains, as an interval of numbers: an IPv6 network never contains a mapped
  // address, even when its prefix covers them.
  lemma ContainsInterval(n: IPNet, ip: seq<byte>)
    requires WellFormed(n) && IsAddress(ip)
    ensures Contains(n, ip) <==>
              Number(n.ip) <= Number(ip) < Number(n.ip) + Size(n)
              && (|n.ip| == 16 && !IsMapped(n.ip) ==> !IsMapped(To16(ip)))
  {
    ShortForm(n);
    if |ip| == 4 { NumberOf4(ip); } else { MappedRange(ip); }
    if |n.ip| == 4 { NumberOf4(n.ip); } else { MappedRange(n.ip); }
    var x, net := Short(ip), Short(n.ip);
    ghost var size := Size(n);
    assert Contains(n, ip) <==> |x| == |net| && Value(x) / size == Value(net) / size;
    assert Value(net) % size == 0 && size > 0;
    SameBlock(Value(x), Value(net), size);
    BlockEnd(n);
    hide Value, Size, WellFormed, Contains, ShortOnes, V4_PREFIX;
  }

  lemma ShortForm(n: IPNet)
    requires WellFormed(n)
    ensures ShortOnes(n) <= 8 * |Short(n.ip)|
    ensures Size(n) == Pow2(8 * |Short(n.ip)| - ShortOnes(n))
    ensures Value(Short(n.ip)) % Size(n) == 0
  {
    if IsMapped(n.ip) { MappedOnes(n); }
  }

  // An IPv4 network ends inside the mapped addresses.
  lemma BlockEnd(n: IPNet)
    requires WellFormed(n)
    ensures |Short(n.ip)| == 4 ==> MAPPED_FIRST <= Number(n.ip) && Number(n.ip) + Size(n) <= MAPPED_END
  {
    if |Short(n.ip)| == 4 {
      ShortForm(n);
      var v, h := Value(Short(n.ip)), 32 - ShortOnes(n);
      if |n.ip| == 4 { NumberOf4(n.ip); } else { MappedRange(n.ip); }
      ValueBound(Short(n.ip));
      PrefixValue();
      Pow2Sum(h, 32 - h);
      Pow32();
      hide Value, Pow2, WellFormed, ShortOnes, Short;
      AlignedFits(v, Pow2(h), Pow2(32 - h));
    }
  }

  lemma AlignedFits(v: nat, p: nat, q: nat)
    requires p > 0 && v % p == 0 && v < p * q
    ensures v + p <= p * q
  {
    var k := v / p;
    assert v == k * p;
    if q <= k {
      if q < k { Scale(q, k, p); }
    } else {
      Scale(k, q, p);
    }
  }
}
