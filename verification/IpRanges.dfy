// Networks to address ranges and back.
module IpRanges {
  import opened Wrappers
  import opened IpBytes
  import opened IpNets

  // ---- Big integers and fixed-width addresses ----

  function BitOr(a: nat, b: nat): nat {
    if a == 0 && b == 0 then 0
    else 2 * BitOr(a / 2, b / 2) + (if a % 2 == 1 || b % 2 == 1 then 1 else 0)
  }

  // Or-ing the low bits of an aligned number adds them.
  lemma {:induction false} OrLowBits(v: nat, h: nat)
    requires v % Pow2(h) == 0
    ensures BitOr(v, Pow2(h) - 1) == v + Pow2(h) - 1
    ensures BitOr(Pow2(h) - 1, v) == v + Pow2(h) - 1
    decreases h
  {
    if h == 0 {
      OrZero(v);
    } else {
      var p := Pow2(h - 1);
      assert Pow2(h) == 2 * p;
      HalfAligned(v, p);
      OrLowBits(v / 2, h - 1);
      hide Pow2, BitOr;
      OrStep(v, p);
    }
  }

  lemma OrStep(v: nat, p: nat)
    requires v % 2 == 0 && p > 0
    ensures BitOr(v, 2 * p - 1) == 2 * BitOr(v / 2, p - 1) + 1
    ensures BitOr(2 * p - 1, v) == 2 * BitOr(p - 1, v / 2) + 1
  {
    assert (2 * p - 1) / 2 == p - 1 && (2 * p - 1) % 2 == 1;
  }

  lemma {:induction false} OrZero(v: nat)
    ensures BitOr(v, 0) == v == BitOr(0, v)
  {
    if v > 0 { OrZero(v / 2); }
  }

  lemma HalfAligned(v: nat, p: nat)
    requires p > 0 && v % (2 * p) == 0
    ensures v % 2 == 0 && (v / 2) % p == 0
  {
    var q := v / (2 * p);
    assert v == q * (2 * p) == 2 * (q * p);
    ModZero(q, p);
  }

  // The n-byte form of v.
  function FixedBytes(v: nat, n: nat): (s: seq<byte>)
    ensures |s| == n
  {
    if n == 0 then [] else FixedBytes(v / 256, n - 1) + [(v % 256) as byte]
  }

  lemma {:induction false} FixedBytesValue(v: nat, n: nat)
    requires v < Pow256(n)
    ensures Value(FixedBytes(v, n)) == v
  {
    if n > 0 {
      FixedBytesValue(v / 256, n - 1);
      assert FixedBytes(v, n)[..n - 1] == FixedBytes(v / 256, n - 1);
    }
  }

  // The bytes of v without leading zeros.
  function MinimalBytes(v: nat): seq<byte> {
    if v == 0 then [] else MinimalBytes(v / 256) + [(v % 256) as byte]
  }

  // Byte i of m, extended to n bytes with leading zeros.
  function Padded(m: seq<byte>, n: nat, i: nat): byte
    requires |m| <= n && i < n
  {
    if i < n - |m| then 0 else m[i - (n - |m|)]
  }

  lemma {:induction false} PaddedBytes(v: nat, n: nat)
    requires v < Pow256(n)
    ensures |MinimalBytes(v)| <= n
    ensures forall i :: 0 <= i < n ==> FixedBytes(v, n)[i] == Padded(MinimalBytes(v), n, i)
  {
    if n > 0 { PaddedBytes(v / 256, n - 1); }
  }

  // Packs ipBytes into the end of a new slice of n bytes.
  method Pack(ipBytes: seq<byte>, n: nat) returns (ret: array<byte>)
    requires |ipBytes| <= n
    ensures fresh(ret) && ret.Length == n
    ensures forall j :: 0 <= j < n ==> ret[j] == Padded(ipBytes, n, j)
  {
    ret := new byte[n](_ => 0);
    var i := 1;
    while i <= |ipBytes|
      invariant 1 <= i <= |ipBytes| + 1
      invariant forall j :: 0 <= j < n ==> ret[j] == if j > n - i then Padded(ipBytes, n, j) else 0
    {
      ret[n - i] := ipBytes[|ipBytes| - i];
      i := i + 1;
    }
  }

  lemma {:induction false} MinimalFits(v: nat, n: nat)
    ensures |MinimalBytes(v)| <= n <==> v < Pow256(n)
  {
    if n > 0 && v > 0 { MinimalFits(v / 256, n - 1); }
  }

  // The n-byte form of a number; one that does not fit makes the packing loop run off
  // the front of the slice.
  method IntToIP(v: nat, bits: nat) returns (ip: Option<seq<byte>>)
    ensures ip.Some? <==> v < Pow256(bits / 8)
    ensures ip.Some? ==> |ip.value| == bits / 8 && Value(ip.value) == v
  {
    hide FixedBytes, MinimalBytes, Pow256, Value, Padded;
    var n := bits / 8;
    var ipBytes := MinimalBytes(v);
    MinimalFits(v, n);
    if |ipBytes| > n { return None; }
    PaddedBytes(v, n);
    FixedBytesValue(v, n);
    var ret := Pack(ipBytes, n);
    assert ret[..] == FixedBytes(v, n);
    ip := Some(ret[..]);
  }

  // How many bits the address family has, from the printed form of the address.
  function FamilyBits(ip: seq<byte>): nat
    requires IsAddress(ip)
  {
    if |ip| == 4 || IsMapped(ip) then 32 else 128
  }

  // The number of an address fits its family's width, and then gives the address back,
  // exactly when the address is not an IPv4 one in 16 bytes.
  lemma IpIntRoundTrip(ip: seq<byte>)
    requires IsAddress(ip)
    ensures Value(ip) < Pow256(FamilyBits(ip) / 8) <==> !IsMapped(ip)
    ensures !IsMapped(ip) ==> FixedBytes(Value(ip), FamilyBits(ip) / 8) == ip
  {
    hide Value, FixedBytes, Pow256;
    if IsMapped(ip) {
      PrefixValue();
      MappedRange(ip);
    } else {
      ValueBound(ip);
      FixedBytesValue(Value(ip), |ip|);
      ValueInjective(FixedBytes(Value(ip), |ip|), ip);
    }
  }

  // The first and last address of a network. An IPv4-mapped IPv6 network below full
  // length looks like a 32-bit one with a prefix of 96 or more, and the unsigned
  // difference of the two is a shift no number survives.
  method FirstLast(n: IPNet) returns (r: Option<(seq<byte>, seq<byte>)>)
    requires WellFormed(n)
    ensures r.None? <==> IsMapped(n.ip) && n.ones < 128
    ensures r.Some? ==>
              && r.value.0 == n.ip && |r.value.1| == |n.ip|
              && Value(r.value.1) == Value(n.ip) + Size(n) - 1
  {
    hide Value, Pow2, Pow256, BitOr, FixedBytes, V4_PREFIX;
    var first := n.ip;
    var prefixLen, bits := n.ones, 8 * |n.ip|;
    if prefixLen == bits {
      SizeOne(n);
      return Some((n.ip, n.ip));
    }
    var firstInt := Value(first);
    bits := FamilyBits(first);
    if IsMapped(n.ip) { MappedOnes(n); }
    if bits < prefixLen { return None; }
    var hostLen := bits - prefixLen;
    var lastInt := Pow2(hostLen) - 1;
    OrLowBits(firstInt, hostLen);
    LastFits(n);
    var last := IntToIP(BitOr(lastInt, firstInt), bits);
    r := Some((first, last.value));
  }

  lemma SizeOne(n: IPNet)
    requires WellFormed(n) && n.ones == 8 * |n.ip|
    ensures Size(n) == 1
  {}

  lemma LastFits(n: IPNet)
    requires WellFormed(n)
    ensures Value(n.ip) + Size(n) <= Pow256(|n.ip|)
  {
    var w := 8 * |n.ip|;
    Pow2Bytes(|n.ip|);
    Pow2Sum(w - n.ones, n.ones);
    ValueBound(n.ip);
    hide Pow2, Pow256, Value;
    AlignedFits(Value(n.ip), Pow2(w - n.ones), Pow2(n.ones));
  }

  // ---- Ranges to networks ----

  // A block of 2^h addresses starts at s and ends no later than e.
  predicate Fits(s: nat, e: nat, h: nat) {
    s % Pow2(h) == 0 && s + Pow2(h) - 1 <= e
  }

  // h is the host length the loop settles on: the largest block that fits, except
  // that half the address space or more yields all max bits.
  ghost predicate SettlesOn(s: nat, e: nat, max: nat, h: nat)
    requires max > 0
  {
    if Fits(s, e, max - 1) then h == max
    else h < max && Fits(s, e, h) && forall b: nat :: b > h ==> !Fits(s, e, b)
  }

  lemma {:induction false} FitsSmaller(s: nat, e: nat, a: nat, b: nat)
    requires a <= b && Fits(s, e, b)
    ensures Fits(s, e, a)
    decreases b - a
  {
    if a < b {
      HalfAligned2(s, Pow2(b - 1));
      Pow2Grows(b - 1, b);
      FitsSmaller(s, e, a, b - 1);
    }
  }

  lemma HalfAligned2(v: nat, p: nat)
    requires p > 0 && v % (2 * p) == 0
    ensures v % p == 0
  {
    MultipleOf(v, p, 2);
  }

  lemma NoneLarger(s: nat, e: nat, h: nat)
    requires !Fits(s, e, h + 1)
    ensures forall b: nat :: b > h ==> !Fits(s, e, b)
  {
    forall b: nat | b > h
      ensures !Fits(s, e, b)
    {
      if Fits(s, e, b) { FitsSmaller(s, e, h + 1, b); }
    }
  }

  // The parsed network of an address text and a length.
  function ParseCIDR(ip: seq<byte>, ones: nat): IPNet
    requires IsAddress(ip) && ones <= FamilyBits(ip)
  {
    var s := Short(ip);
    IPNet(FixedBytes(AlignDown(Value(s), Pow2(8 * |s| - ones)), |s|), ones)
  }

  // Turns a range into a network, None when first is after last. The family is that of
  // the first address.
  method Range2CIDR(first: seq<byte>, last: seq<byte>) returns (r: Option<IPNet>)
    requires IsAddress(first) && IsAddress(last)
    ensures Value(first) > Value(last) ==> r == None
    ensures Value(first) <= Value(last) ==>
              r.Some? && r.value.ones <= FamilyBits(first)
              && r.value == ParseCIDR(first, r.value.ones)
              && SettlesOn(Value(first), Value(last), FamilyBits(first), FamilyBits(first) - r.value.ones)
  {
    var startip, endip := Value(first), Value(last);
    if startip > endip { return None; }
    var max := FamilyBits(first);
    var bits, mask := 1, 1;
    hide Pow2, Value, IsMapped, ParseCIDR, Fits, SettlesOn, BitOr;
    FitsOne(startip, endip);
    while bits < max
      invariant 1 <= bits <= max
      invariant mask == Pow2(bits) - 1
      invariant Fits(startip, endip, bits - 1)
    {
      var tmp := startip / Pow2(bits) * Pow2(bits);
      var newip := BitOr(startip, mask);
      Tested(startip, endip, bits);
      if newip > endip || tmp != startip {
        bits := bits - 1;
        SettledBelow(startip, endip, bits, max);
        return Some(ParseCIDR(first, max - bits));
      }
      DoubleMask(bits);
      bits := bits + 1;
      mask := 2 * mask + 1;
    }
    SettledAtHalf(startip, endip, max);
    r := Some(ParseCIDR(first, max - bits));
  }

  lemma FitsOne(s: nat, e: nat)
    requires s <= e
    ensures Fits(s, e, 0) && Pow2(1) - 1 == 1
  {}

  lemma DoubleMask(b: nat)
    ensures Pow2(b + 1) - 1 == 2 * (Pow2(b) - 1) + 1
  {}

  lemma SettledBelow(s: nat, e: nat, h: nat, max: nat)
    requires h + 1 < max && Fits(s, e, h) && !Fits(s, e, h + 1)
    ensures SettlesOn(s, e, max, h)
  {
    NoneLarger(s, e, h);
    hide Fits;
  }

  lemma SettledAtHalf(s: nat, e: nat, max: nat)
    requires max > 0 && Fits(s, e, max - 1)
    ensures SettlesOn(s, e, max, max)
  {
    hide Fits;
  }

  // The loop's test is the fit of a block of 2^b addresses.
  lemma Tested(s: nat, e: nat, b: nat)
    ensures !(BitOr(s, Pow2(b) - 1) > e || s / Pow2(b) * Pow2(b) != s) <==> Fits(s, e, b)
  {
    var p := Pow2(b);
    assert s == s / p * p + s % p;
    if s % p == 0 { OrLowBits(s, b); }
  }

  // h is the largest length of an aligned block of the range.
  ghost predicate Largest(s: nat, e: nat, h: nat) {
    Fits(s, e, h) && forall b: nat :: Fits(s, e, b) ==> b <= h
  }

  lemma LargestWhen(s: nat, e: nat, max: nat, h: nat)
    requires max > 0 && SettlesOn(s, e, max, h)
    ensures Largest(s, e, h) <==> !Fits(s, e, max - 1) || (Fits(s, e, max) && !Fits(s, e, max + 1))
  {
    if Fits(s, e, max) { FitsSmaller(s, e, max - 1, max); }
    if !Fits(s, e, max + 1) { NoneLarger(s, e, max); }
    hide Fits;
  }

  // Only a 4-byte address together with a 16-byte one can span more than the space.
  lemma WithinSpace(first: seq<byte>, last: seq<byte>)
    requires IsAddress(first) && IsAddress(last) && (|first| == 4 ==> |last| == 4)
    ensures !Fits(Value(first), Value(last), FamilyBits(first) + 1)
  {
    hide Value, Pow256, Pow2;
    if IsMapped(first) {
      MappedRange(first);
      MappedUnaligned(Value(first), 33);
    } else {
      var n := |first|;
      Pow2Bytes(n);
      Pow2Grows(8 * n, 8 * n + 1);
      ValueBound(last);
      Pow2Bytes(|last|);
      Pow2Grows(8 * |last|, 8 * n);
    }
  }

  // In each form of the addresses, the result is the largest aligned block of the range
  // exactly when the range does not cover an aligned half of the address space, or
  // covers all of it. A 4-byte first address with a 16-byte last one has no space to
  // cover: there the result must also be all that fits.
  lemma LargestIff(first: seq<byte>, last: seq<byte>, ones: nat)
    requires IsAddress(first) && IsAddress(last) && ones <= FamilyBits(first)
    requires SettlesOn(Value(first), Value(last), FamilyBits(first), FamilyBits(first) - ones)
    ensures var s, e, max := Value(first), Value(last), FamilyBits(first);
            && (|first| == 16 || |last| == 4 ==>
                  (Largest(s, e, max - ones) <==> !Fits(s, e, max - 1) || Fits(s, e, max)))
            && (Largest(s, e, max - ones) <==> !Fits(s, e, max - 1) || (Fits(s, e, max) && !Fits(s, e, max + 1)))
  {
    LargestWhen(Value(first), Value(last), FamilyBits(first), FamilyBits(first) - ones);
    if |first| == 16 || |last| == 4 { WithinSpace(first, last); }
    hide Fits, Largest, SettlesOn, Value, IsMapped;
  }

  // The upper half of the IPv4 addresses comes out as all of them.
  lemma HalfBecomesAll(ones: nat)
    requires var first, last := [128, 0, 0, 0], [255, 255, 255, 255];
             ones <= 32 && SettlesOn(Value(first), Value(last), FamilyBits(first), FamilyBits(first) - ones)
    ensures ones == 0 && !Largest(Value([128, 0, 0, 0]), Value([255, 255, 255, 255]), 32)
  {
    ValueOf4(128, 0, 0, 0);
    ValueOf4(255, 255, 255, 255);
    Pow32();
    assert Pow2(32) == 2 * Pow2(31);
    hide Pow2, Value;
  }

  // A parsed network has the length asked for and contains the address it was parsed from.
  lemma ParsedContains(ip: seq<byte>, ones: nat)
    requires IsAddress(ip) && ones <= FamilyBits(ip)
    ensures var n := ParseCIDR(ip, ones);
            && WellFormed(n) && n.ones == ones && Contains(n, ip) && |n.ip| == |Short(ip)|
  {
    ParsedIs(ip, ones);
    var n := ParseCIDR(ip, ones);
    hide ParseCIDR, FamilyBits, Value, Pow2;
    ParsedShort(ip, n);
    SameBlock(Value(Short(ip)), Value(n.ip), Size(n));
    ShortUnmapped(n);
  }

  // The block of its length that starts at or below the address and ends above it.
  lemma ParsedIs(ip: seq<byte>, ones: nat)
    requires IsAddress(ip) && ones <= FamilyBits(ip)
    ensures var n := ParseCIDR(ip, ones);
            && WellFormed(n) && n.ones == ones && |n.ip| == |Short(ip)|
            && Value(n.ip) <= Value(Short(ip)) < Value(n.ip) + Size(n)
  {
    var s := Short(ip);
    var size := Pow2(8 * |s| - ones);
    ShortIs(ip);
    hide Value, Pow2, Pow256, FixedBytes, AlignDown, Short, IsMapped, FamilyBits, WellFormed;
    AlignDownIs(Value(s), size);
    ValueBound(s);
    NetworkAt(AlignDown(Value(s), size), |s|, ones);
  }

  lemma NetworkAt(v: nat, width: nat, ones: nat)
    requires (width == 4 || width == 16) && ones <= 8 * width
    requires v < Pow256(width) && v % Pow2(8 * width - ones) == 0
    ensures var n := IPNet(FixedBytes(v, width), ones);
            WellFormed(n) && Value(n.ip) == v && Size(n) == Pow2(8 * width - ones)
  {
    FixedBytesValue(v, width);
    hide Value, Pow2, Pow256, FixedBytes;
  }

  lemma ShortUnmapped(n: IPNet)
    requires WellFormed(n) && !IsMapped(n.ip)
    ensures Short(n.ip) == n.ip && ShortOnes(n) == n.ones
  {
    hide Value, Pow2;
  }

  lemma ShortIs(ip: seq<byte>)
    requires IsAddress(ip)
    ensures 8 * |Short(ip)| == FamilyBits(ip) && !IsMapped(Short(ip))
  {}

  // A network around an unmapped address does not begin with a mapped one.
  lemma ParsedShort(ip: seq<byte>, n: IPNet)
    requires IsAddress(ip) && WellFormed(n) && |n.ip| == |Short(ip)|
    requires Value(n.ip) <= Value(Short(ip)) < Value(n.ip) + Size(n)
    ensures !IsMapped(n.ip)
  {
    hide Value, Size;
    ShortIs(ip);
    if IsMapped(n.ip) {
      MappedRange(n.ip);
      MappedRange(Short(ip));
      BlockEnd(n);
    }
  }

  // A block that fits is, as a network, the addresses from first on that many.
  lemma BlockStartsAtFirst(first: seq<byte>, ones: nat)
    requires IsAddress(first) && ones <= FamilyBits(first)
    requires Value(first) % Pow2(FamilyBits(first) - ones) == 0
    ensures var n := ParseCIDR(first, ones);
            WellFormed(n) && Number(n.ip) == Number(first) && Size(n) == Pow2(FamilyBits(first) - ones)
  {
    hide Value, Pow2, Pow256, FixedBytes;
    var s := Short(first);
    if IsMapped(first) {
      MappedRange(first);
      MappedAligned(Value(first), 32 - ones);
      NumberOf4(s);
    }
    ValueBound(s);
    FixedBytesValue(Value(s), |s|);
    ValueInjective(FixedBytes(Value(s), |s|), s);
  }

  // FirstLast then Range2CIDR gives back every network except those of length one, and
  // except single mapped addresses, which come back in IPv4 form.
  lemma RoundTripIff(n: IPNet, ones: nat)
    requires WellFormed(n) && (IsMapped(n.ip) ==> n.ones == 128) && ones <= FamilyBits(n.ip)
    requires SettlesOn(Value(n.ip), Value(n.ip) + Size(n) - 1, FamilyBits(n.ip), FamilyBits(n.ip) - ones)
    ensures ParseCIDR(n.ip, ones) == n <==> n.ones != 1 && !IsMapped(n.ip)
  {
    if IsMapped(n.ip) {
      assert |ParseCIDR(n.ip, ones).ip| == 4;
    } else {
      UnmappedRoundTrip(n, ones);
    }
  }

  lemma UnmappedRoundTrip(n: IPNet, ones: nat)
    requires WellFormed(n) && !IsMapped(n.ip) && ones <= 8 * |n.ip|
    requires SettlesOn(Value(n.ip), Value(n.ip) + Size(n) - 1, 8 * |n.ip|, 8 * |n.ip| - ones)
    ensures ParseCIDR(n.ip, ones) == n <==> n.ones != 1
  {
    var w := 8 * |n.ip|;
    var s, h := Value(n.ip), w - n.ones;
    var e := s + Pow2(h) - 1;
    assert Fits(s, e, h);
    forall b: nat | Fits(s, e, b) ensures b <= h {
      if b > h { Pow2Grows(h, b); }
    }
    if n.ones <= 1 { FitsSmaller(s, e, w - 1, h); }
    assert ones == if n.ones == 1 then 0 else n.ones;
    if n.ones != 1 { ParseSelf(n); }
  }

  lemma ParseSelf(n: IPNet)
    requires WellFormed(n) && !IsMapped(n.ip)
    ensures ParseCIDR(n.ip, n.ones) == n
  {
    IpIntRoundTrip(n.ip);
    hide FixedBytes, Value, Pow2;
  }
}
