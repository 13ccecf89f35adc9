/** internal/rotator/ip/models.go and allocation.go: subnets and the two searches. */
module Allocator {
  import opened Bits
  import opened Ipv4
  import opened Network
  import opened Text

  datatype Subnet = Subnet(nodeId: string, network: Ip, ones: nat, gateway: Ip, rangeStart: Ip, rangeEnd: Ip)
  {
    function Cidr(): string {
      CidrText(network, ones)
    }
  }

  function RangeStart(network: nat): nat {
    network + 2
  }

  function RangeEnd(network: nat, ones: nat): int
    requires ones <= 32
  {
    network + Size(ones) - 2
  }

  /** A subnet as the design describes it: the gateway is the first usable address, clients
      get the ones after it, up to the last address before the broadcast address. */
  predicate WellFormed(s: Subnet) {
    && s.ones <= 30
    && Aligned(Value(s.network), s.ones)
    && Value(s.gateway) == Value(s.network) + 1
    && Value(s.rangeStart) == RangeStart(Value(s.network))
    && Value(s.rangeEnd) == RangeEnd(Value(s.network), s.ones)
  }

  predicate ValidNodeId(id: string) {
    0 < |id| <= 255
  }

  // ---- building a subnet ----

  /** Or-ing in the inverted mask: the broadcast address of RFC 1122, section 3.2.1.3. */
  function Broadcast(bytes: seq<Byte>, ones: nat): (r: seq<Byte>)
    ensures |r| == |bytes|
  {
    seq(|bytes|, i requires 0 <= i < |bytes| => OrByte(bytes[i], 255 - MaskByte(ones, i)))
  }

  lemma BroadcastByte(b: Byte, ones: nat, i: nat)
    ensures OrByte(b, 255 - MaskByte(ones, i)) == AndByte(b, MaskByte(ones, i)) + (255 - MaskByte(ones, i))
  {
    var k := if ones >= 8 * (i + 1) then 0 else if ones <= 8 * i then 8 else 8 * (i + 1) - ones;
    MaskedByte(b, ones, i);
    Pow2Of8();
    hide AndByte;
    assert AndByte(b, MaskByte(ones, i)) == b - b % Pow2(k);
    assert 255 - MaskByte(ones, i) == Pow2(k) - 1;
    OrLowOnes(b, k);
    hide Pow2;
    hide MaskByte;
  }

  lemma {:induction false} BroadcastBigEndian(bytes: seq<Byte>, ones: nat)
    ensures ones >= 8 * |bytes| ==> Broadcast(bytes, ones) == bytes
    ensures ones <= 8 * |bytes| ==>
              BigEndian(Broadcast(bytes, ones)) == BigEndian(Masked(bytes, ones)) + Pow2(8 * |bytes| - ones) - 1
  {
    hide AndByte;
    hide OrByte;
    if bytes != [] {
      var n := |bytes| - 1;
      var front, b := bytes[..n], bytes[n];
      assert Broadcast(bytes, ones)[..n] == Broadcast(front, ones);
      assert Masked(bytes, ones)[..n] == Masked(front, ones);
      BroadcastByte(b, ones, n);
      MaskedByte(b, ones, n);
      BroadcastBigEndian(front, ones);
      MaskedBigEndian(front, ones);
      LastOfBroadcast(bytes, ones);
      Pow2Of8();
      hide Broadcast;
      hide Masked;
      if ones <= 8 * n {
        Pow2Add(8, 8 * n - ones);
      }
    }
  }

  lemma LastOfBroadcast(bytes: seq<Byte>, ones: nat)
    requires bytes != []
    ensures var n := |bytes| - 1;
            && Broadcast(bytes, ones)[n] == OrByte(bytes[n], 255 - MaskByte(ones, n))
            && Masked(bytes, ones)[n] == AndByte(bytes[n], MaskByte(ones, n))
  {
  }

  lemma ValueOfBroadcast(ip: Ip, ones: nat)
    requires ones <= 32
    ensures Value(Broadcast(ip, ones)) == Value(ip) - Value(ip) % Size(ones) + Size(ones) - 1
  {
    BroadcastBigEndian(ip, ones);
    ValueOfMasked(ip, ones);
    ValueIsBigEndian(Broadcast(ip, ones));
    ValueIsBigEndian(Masked(ip, ones));
  }

  /** Changing only the last byte changes the number by the same amount. */
  lemma LastByte(ip: Ip, b: Byte)
    ensures Value(ip[3 := b]) == Value(ip) - ip[3] + b
    ensures Value(ip) % 4 == ip[3] % 4
  {
  }

  lemma SizeIsMultipleOf4(v: nat, ones: nat)
    requires ones <= 30
    ensures Size(ones) >= 4 && Size(ones) % 4 == 0
    ensures Aligned(v, ones) ==> v % 4 == 0
  {
    hide Pow2;
    var k := Pow2(30 - ones);
    Pow2Add(30 - ones, 2);
    Pow2Of8();
    MulMonotone(1, k, 4);
    AddMultiple(0, k, 4);
    ModOfMod(v, k, 4);
  }

  /** Neither the increments nor the decrement of a last byte carries. */
  lemma NoCarry(network: Ip, ones: nat)
    requires ones <= 30 && Aligned(Value(network), ones)
    ensures network[3] <= 252
    ensures Value(Broadcast(network, ones)) == Value(network) + Size(ones) - 1
    ensures Broadcast(network, ones)[3] >= 3
  {
    hide Pow2;
    hide Broadcast;
    hide Value;
    hide Size;
    SizeIsMultipleOf4(Value(network), ones);
    LastByte(network, 0);
    ValueOfBroadcast(network, ones);
    LastByte(Broadcast(network, ones), 0);
    LastOfBlock(Value(network), Size(ones));
  }

  lemma LastOfBlock(v: nat, s: nat)
    requires v % 4 == 0 && s % 4 == 0
    ensures (v + s - 1) % 4 == 3
  {
  }

  /** `NewSubnet`, byte by byte. */
  method NewSubnet(nodeId: string, network: Ip, ones: nat) returns (r: Option<Subnet>)
    ensures r.Some? <==> ValidNodeId(nodeId)
    ensures r.Some? ==> r.value.nodeId == nodeId && r.value.network == network && r.value.ones == ones
    ensures r.Some? && ones <= 30 && Aligned(Value(network), ones) ==> WellFormed(r.value)
  {
    hide Value;
    hide Aligned;
    hide Pow2;
    hide MaskByte;
    hide OrByte;
    if nodeId == "" || |nodeId| > 255 {
      return None;
    }
    var gateway := new Byte[4](i requires 0 <= i < 4 => network[i]);
    gateway[3] := (gateway[3] as int + 1) % 256;
    var rangeStart := new Byte[4](i requires 0 <= i < 4 => network[i]);
    rangeStart[3] := gateway[3];
    rangeStart[3] := (rangeStart[3] as int + 1) % 256;
    var rangeEnd := new Byte[4](i requires 0 <= i < 4 => network[i]);
    for i := 0 to 4
      invariant forall j :: i <= j < 4 ==> rangeEnd[j] == network[j]
      invariant forall j :: 0 <= j < i ==> rangeEnd[j] == Broadcast(network, ones)[j]
      invariant gateway[..] == network[3 := (network[3] as int + 1) % 256]
      invariant rangeStart[..] == network[3 := (network[3] as int + 2) % 256]
    {
      rangeEnd[i] := OrByte(rangeEnd[i], 255 - MaskByte(ones, i));
    }
    assert rangeEnd[..] == Broadcast(network, ones);
    rangeEnd[3] := (rangeEnd[3] as int + 255) % 256;
    if ones <= 30 && Aligned(Value(network), ones) {
      NoCarry(network, ones);
      LastByte(network, gateway[3]);
      LastByte(network, rangeStart[3]);
      LastByte(Broadcast(network, ones), rangeEnd[3]);
      assert rangeEnd[..] == Broadcast(network, ones)[3 := rangeEnd[3]];
    }
    r := Some(Subnet(nodeId, network, ones, gateway[..], rangeStart[..], rangeEnd[..]));
  }

  /** The gateway written to cloud-init by the provisioner (last byte forced to 1). */
  function CloudInitGateway(network: Ip): Ip {
    network[3 := 1]
  }

  /** The server is configured with the gateway of its subnet exactly when the network's
      last byte is zero, and in no case does the client range hold the subnet's gateway. */
  lemma GatewayAgreement(s: Subnet)
    requires WellFormed(s)
    ensures CloudInitGateway(s.network) == s.gateway <==> s.network[3] == 0
    ensures s.ones <= 24 ==> s.network[3] == 0
    ensures Value(s.gateway) < Value(s.rangeStart) <= Value(s.rangeEnd)
    ensures Value(s.rangeEnd) - Value(s.rangeStart) + 1 == Size(s.ones) - 3
  {
    hide Pow2;
    hide Value;
    hide Broadcast;
    LastByte(s.network, 1);
    NoCarry(s.network, s.ones);
    SizeIsMultipleOf4(Value(s.network), s.ones);
    if CloudInitGateway(s.network) != s.gateway && Value(CloudInitGateway(s.network)) == Value(s.gateway) {
      ValueInjective(CloudInitGateway(s.network), s.gateway);
    }
    if s.ones <= 24 {
      LastByteOfWideNetwork(s.network, s.ones);
    }
  }

  /** The upper half of a /24: the server is told 10.8.0.1, the subnet row says 10.8.0.129. */
  lemma HalfBlockGatewayDiffers()
    ensures var s := Subnet("n", [10, 8, 0, 128], 25, [10, 8, 0, 129], [10, 8, 0, 130], [10, 8, 0, 254]);
            WellFormed(s) && CloudInitGateway(s.network) != s.gateway
  {
    var s := Subnet("n", [10, 8, 0, 128], 25, [10, 8, 0, 129], [10, 8, 0, 130], [10, 8, 0, 254]);
    Pow2Of8();
    Pow2Add(4, 3);
    assert Size(25) == 128;
    assert Value(s.network) == 128 * 0x14_1001 && Value(s.network) % 128 == 0;
    assert s.network[3 := 1][3] == 1 && s.gateway[3] == 129;
  }

  lemma LastByteOfWideNetwork(network: Ip, ones: nat)
    requires ones <= 24 && Aligned(Value(network), ones)
    ensures network[3] == 0
  {
    hide Pow2;
    hide Value;
    Pow2Of8();
    Pow2Add(24 - ones, 8);
    ModOfMod(Value(network), Pow2(24 - ones), 256);
    LastByteMod(network);
  }

  lemma LastByteMod(ip: Ip)
    ensures Value(ip) % 256 == ip[3]
  {
    assert Value(ip) == 256 * (0x1_0000 * ip[0] as int + 0x100 * ip[1] as int + ip[2]) + ip[3];
  }

  // ---- searching for a block ----

  /** `FindNextAvailableSubnet`: the first index whose text is not in use. */
  method FindNextAvailableSubnet(c: Config, usedCidrs: seq<string>) returns (r: Option<Subnet>)
    ensures r.None? <==> forall i :: 0 <= i < MaxSubnets(c) ==> SearchKey(c, i) in usedCidrs
    ensures r.Some? ==> exists i :: IsLowestUnused(c, usedCidrs, i)
                                    && r.value.network == Masked(BlockIp(c, i), c.subnetMask)
                                    && r.value.Cidr() == StoredKey(c, i)
    ensures r.Some? ==> r.value.ones == c.subnetMask && WellFormed(r.value)
  {
    var usedNets: set<string> := {};
    for k := 0 to |usedCidrs|
      invariant forall t :: t in usedNets <==> t in usedCidrs[..k]
    {
      usedNets := usedNets + {usedCidrs[k]};
    }
    assert usedCidrs[..|usedCidrs|] == usedCidrs;
    for i := 0 to MaxSubnets(c)
      invariant forall j :: 0 <= j < i ==> SearchKey(c, j) in usedCidrs
    {
      var cidr := GenerateSubnetCIDR(c, i);
      if cidr.value !in usedNets {
        var network := Masked(BlockIp(c, i), c.subnetMask);
        MaskedIsAligned(BlockIp(c, i), c.subnetMask);
        r := NewSubnet("temporary-id", network, c.subnetMask);
        assert IsLowestUnused(c, usedCidrs, i);
        return;
      }
    }
    return None;
  }

  predicate IsLowestUnused(c: Config, used: seq<string>, i: int) {
    && 0 <= i < MaxSubnets(c)
    && SearchKey(c, i) !in used
    && forall j :: 0 <= j < i ==> SearchKey(c, j) in used
  }

  lemma MaskedIsAligned(ip: Ip, ones: nat)
    requires ones <= 32
    ensures Aligned(Value(Masked(ip, ones)), ones)
  {
    ValueOfMasked(ip, ones);
    DivMod(Value(ip), Size(ones));
    AddMultiple(0, Value(ip) / Size(ones), Size(ones));
  }

  // ---- searching for an address ----

  /** The smallest number in lo..hi outside a set. */
  function FirstFree(lo: nat, hi: int, taken: set<nat>): (r: Option<nat>)
    ensures r.Some? ==> lo <= r.value <= hi && r.value !in taken
    ensures r.Some? ==> forall x :: lo <= x < r.value ==> x in taken
    ensures r.None? ==> forall x :: lo <= x <= hi ==> x in taken
    decreases hi - lo
  {
    if lo > hi then None
    else if lo !in taken then Some(lo)
    else FirstFree(lo + 1, hi, taken)
  }

  lemma FirstFreeIs(lo: nat, hi: int, taken: set<nat>, a: int)
    requires lo <= a <= hi && a !in taken
    requires forall x :: lo <= x < a ==> x in taken
    ensures FirstFree(lo, hi, taken) == Some(a)
  {
  }

  /** All numbers in lo..hi outside a set, from the smallest on. */
  function FreeFrom(lo: nat, hi: int, taken: set<nat>): (free: seq<nat>)
    ensures forall x: nat :: x in free <==> lo <= x <= hi && x !in taken
    ensures forall j, k :: 0 <= j < k < |free| ==> free[j] < free[k]
    decreases hi - lo
  {
    if lo > hi then []
    else if lo in taken then FreeFrom(lo + 1, hi, taken)
    else
      var rest := FreeFrom(lo + 1, hi, taken);
      assert forall k :: 0 <= k < |rest| ==> rest[k] in rest;
      [lo] + rest
  }

  /** The numbers below the one at place n are taken once the first n are. */
  lemma BelowIsTaken(lo: nat, hi: int, taken: set<nat>, n: nat, x: nat)
    requires n < |FreeFrom(lo, hi, taken)| && lo <= x < FreeFrom(lo, hi, taken)[n]
    ensures x in taken || x in FreeFrom(lo, hi, taken)[..n]
  {
    var free := FreeFrom(lo, hi, taken);
    assert free[n] in free;
    if x !in taken {
      assert x in free;
      var j :| 0 <= j < |free| && free[j] == x;
      assert j < n;
      assert free[..n][j] == x;
    }
  }

  lemma NotBefore(s: seq<nat>, n: nat)
    requires n < |s| && forall j, k :: 0 <= j < k < |s| ==> s[j] < s[k]
    ensures s[n] !in s[..n]
  {
  }

  /** Searches that each take what they find go through them in that order. */
  lemma NextFree(lo: nat, hi: int, taken: set<nat>, n: nat)
    ensures var free := FreeFrom(lo, hi, taken);
            n <= |free| ==>
              FirstFree(lo, hi, taken + set x | x in free[..n]) == if n < |free| then Some(free[n]) else None
  {
    var free := FreeFrom(lo, hi, taken);
    if n < |free| {
      var now := taken + set x | x in free[..n];
      NotBefore(free, n);
      assert free[n] in free;
      forall x: nat | lo <= x < free[n] ensures x in now {
        BelowIsTaken(lo, hi, taken, n, x);
      }
      hide FreeFrom;
      FirstFreeIs(lo, hi, now, free[n]);
    } else if n == |free| {
      assert free[..n] == free;
      assert forall x: nat :: lo <= x <= hi ==> x in taken || x in free;
    }
  }

  function Values(ips: seq<Ip>): (vs: set<nat>)
    ensures forall i :: 0 <= i < |ips| ==> Value(ips[i]) in vs
  {
    set i | 0 <= i < |ips| :: Value(ips[i])
  }

  lemma ValuesHold(ips: seq<Ip>, ip: Ip)
    ensures ip in ips <==> Value(ip) in Values(ips)
  {
    if Value(ip) in Values(ips) {
      var i :| 0 <= i < |ips| && Value(ips[i]) == Value(ip);
      ValueInjective(ips[i], ip);
    }
  }

  /** The lookup table is keyed by address text; the text identifies the address. */
  predicate Indexes(texts: set<string>, ips: seq<Ip>) {
    && (forall k :: 0 <= k < |ips| ==> DottedText(ips[k]) in texts)
    && (forall t :: t in texts ==> exists k :: 0 <= k < |ips| && t == DottedText(ips[k]))
  }

  lemma IndexLookup(texts: set<string>, ips: seq<Ip>, ip: Ip)
    requires Indexes(texts, ips)
    ensures DottedText(ip) in texts <==> Value(ip) in Values(ips)
  {
    hide DottedText;
    hide Value;
    hide Values;
    ValuesHold(ips, ip);
    if DottedText(ip) in texts {
      var k :| 0 <= k < |ips| && DottedText(ip) == DottedText(ips[k]);
      DottedTextInjective(ip, ips[k]);
    }
  }

  method IndexTexts(ips: seq<Ip>) returns (texts: set<string>)
    ensures Indexes(texts, ips)
  {
    hide DottedText;
    texts := {};
    for k := 0 to |ips|
      invariant Indexes(texts, ips[..k])
    {
      texts := texts + {DottedText(ips[k])};
      assert ips[..k + 1] == ips[..k] + [ips[k]];
    }
    assert ips[..|ips|] == ips;
  }

  /** `FindNextAvailableIP`: the numerically smallest client address not in use. */
  method FindNextAvailableIP(subnet: Subnet, allocatedIps: seq<Ip>) returns (r: Option<Ip>)
    requires WellFormed(subnet)
    ensures r.Some? ==>
              FirstFree(Value(subnet.rangeStart), Value(subnet.rangeEnd), Values(allocatedIps)) == Some(Value(r.value))
    ensures r.None? ==>
              FirstFree(Value(subnet.rangeStart), Value(subnet.rangeEnd), Values(allocatedIps)) == None
  {
    hide DottedText;
    hide Value;
    hide Values;
    hide Indexes;
    hide FirstFree;
    hide Masked;
    hide Pow2;
    var inUse := IndexTexts(allocatedIps);
    var current := new Byte[4](i requires 0 <= i < 4 => subnet.rangeStart[i]);
    assert current[..] == subnet.rangeStart;
    ghost var lo, hi, taken := Value(subnet.rangeStart), Value(subnet.rangeEnd), Values(allocatedIps);
    GatewayAgreement(subnet);
    while true
      invariant lo <= Value(current[..]) <= hi
      invariant forall x :: lo <= x < Value(current[..]) ==> x in taken
      decreases hi - Value(current[..])
    {
      IndexLookup(inUse, allocatedIps, current[..]);
      if DottedText(current[..]) !in inUse {
        FirstFreeIs(lo, hi, taken, Value(current[..]));
        return Some(current[..]);
      }
      ghost var v := Value(current[..]);
      Increment(current);
      NextInRange(subnet, v, current[..]);
      var past := IpGreaterThan(current[..], subnet.rangeEnd);
      if !Contains(subnet.network, subnet.ones, current[..]) || past {
        return None;
      }
    }
  }

  /** One past a client address leaves the network or the range exactly at the range end. */
  lemma NextInRange(subnet: Subnet, v: nat, next: Ip)
    requires WellFormed(subnet) && Value(subnet.rangeStart) <= v <= Value(subnet.rangeEnd)
    requires Value(next) == (v + 1) % ADDRESSES
    ensures Value(next) == v + 1
    ensures Contains(subnet.network, subnet.ones, next)
  {
    hide Value;
    hide Contains;
    hide Broadcast;
    hide Pow2;
    NoCarry(subnet.network, subnet.ones);
    SizeIsMultipleOf4(Value(subnet.network), subnet.ones);
    ContainsIsInterval(subnet.network, subnet.ones, next);
  }

  // ---- counting ----

  /** `CalculateCapacityInfo`: usable addresses and what is left of them. */
  function TotalIps(ones: nat): int
    requires ones <= 32
  {
    Size(ones) - 3
  }

  function AvailableIps(ones: nat, allocatedCount: nat): (n: nat)
    requires ones <= 32
  {
    if TotalIps(ones) - allocatedCount < 0 then 0 else TotalIps(ones) - allocatedCount
  }

  function Interval(lo: int, hi: int): (s: set<int>)
    requires lo <= hi + 1
    ensures |s| == hi - lo + 1
    ensures forall x :: x in s <==> lo <= x <= hi
    decreases hi - lo
  {
    if lo > hi then {} else Interval(lo, hi - 1) + {hi}
  }

  lemma {:induction false} SubsetSize(a: set<nat>, b: set<int>)
    requires forall x :: x in a ==> x in b
    ensures |a| <= |b| && (|a| == |b| ==> forall x :: x in b ==> x in a)
  {
    var a': set<int> := set x | x in a;
    assert a' == a;
    if a != {} {
      var x :| x in a;
      SubsetSize(a - {x}, b - {x});
    }
  }

  /** Counting agrees with searching: when every address in use lies in the client range of a
      network, used and available addresses add up to the range, and some are available exactly
      when the search succeeds. */
  lemma RangeCount(ones: nat, network: nat, taken: set<nat>)
    requires ones <= 30
    requires forall x :: x in taken ==> RangeStart(network) <= x <= RangeEnd(network, ones)
    ensures |taken| + AvailableIps(ones, |taken|) == TotalIps(ones)
    ensures AvailableIps(ones, |taken|) > 0 <==> FirstFree(RangeStart(network), RangeEnd(network, ones), taken).Some?
  {
    hide Pow2;
    SizeIsMultipleOf4(0, ones);
    var all := Interval(RangeStart(network), RangeEnd(network, ones));
    SubsetSize(taken, all);
    if FirstFree(RangeStart(network), RangeEnd(network, ones), taken).None? {
      assert all == taken;
    }
  }
}
