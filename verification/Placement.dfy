/** The two choices the allocator makes, as functions of what is in use: the lowest unused
    block, and the lowest free client address of a block. */
module Placement {
  import opened Bits
  import opened Ipv4
  import opened Network
  import opened Allocator
  import opened Text

  /** First index whose search text is not a used CIDR. */
  function FirstUnused(c: Config, used: set<nat>, index: nat): (r: Option<nat>)
    ensures r.Some? ==> index <= r.value < MaxSubnets(c) && BlockAddress(c, r.value) !in used
    ensures r.Some? ==> forall j :: index <= j < r.value ==> BlockAddress(c, j) in used
    ensures r.None? ==> forall j :: index <= j < MaxSubnets(c) ==> BlockAddress(c, j) in used
    decreases MaxSubnets(c) - index
  {
    if index >= MaxSubnets(c) then None
    else if BlockAddress(c, index) !in used then Some(index)
    else FirstUnused(c, used, index + 1)
  }

  /** The network of a generated block: parsing its text masks the address. */
  function BlockNetwork(c: Config, index: nat): (n: nat)
    ensures n <= BlockAddress(c, index)
  {
    DivMod(BlockAddress(c, index), BlockSize(c));
    BlockAddress(c, index) - BlockAddress(c, index) % BlockSize(c)
  }

  /** `FindNextAvailableSubnet` followed by `ValidateSubnetAllocation`. */
  function PickNetwork(c: Config, used: set<nat>): Option<nat> {
    var i := FirstUnused(c, used, 0);
    if i.Some? && InBase(c, BlockNetwork(c, i.value)) then Some(BlockNetwork(c, i.value)) else None
  }

  /** `FindNextAvailableIP` on the client range of a network. */
  function PickIp(c: Config, network: nat, taken: set<nat>): Option<nat> {
    FirstFree(RangeStart(network), RangeEnd(network, c.subnetMask), taken)
  }

  /** The first client of a network gets the first address of its range. */
  lemma FirstAddress(c: Config, network: nat)
    ensures PickIp(c, network, {}) == Some(RangeStart(network))
  {
    hide Pow2;
    Sizes(c);
  }

  predicate InClientRange(c: Config, network: nat, ip: nat) {
    RangeStart(network) <= ip <= RangeEnd(network, c.subnetMask)
  }

  /** The network address of a block: aligned, and an IPv4 address. */
  predicate IsNetwork(c: Config, network: nat) {
    network % BlockSize(c) == 0 && network < ADDRESSES
  }

  lemma PickedNetwork(c: Config, used: set<nat>)
    ensures PickNetwork(c, used).Some? ==> IsNetwork(c, PickNetwork(c, used).value)
  {
    var i := FirstUnused(c, used, 0);
    if i.Some? {
      var a, s := BlockAddress(c, i.value), BlockSize(c);
      DivMod(a, s);
      AddMultiple(0, a / s, s);
    }
  }

  /** Two different aligned networks of the same size share no address. */
  lemma NetworksDisjoint(m: nat, n: nat, s: nat, v: int)
    requires s > 0 && m % s == 0 && n % s == 0 && m != n && m <= v < m + s
    ensures !(n <= v < n + s)
  {
    BlockOf(m, v, s);
    if n <= v < n + s {
      BlockOf(n, v, s);
    }
  }

  /** With an aligned base the picked network is the lowest unused block, and none is picked
      exactly when all blocks are used. */
  lemma AlignedBasePicks(c: Config, used: set<nat>)
    requires BaseAligned(c)
    ensures PickNetwork(c, used).None? <==> forall i :: 0 <= i < MaxSubnets(c) ==> BlockAddress(c, i) in used
    ensures PickNetwork(c, used).Some? ==> PickNetwork(c, used).value !in used
    ensures forall i :: 0 <= i < MaxSubnets(c) ==>
              (PickNetwork(c, used) == Some(BlockAddress(c, i)) <==>
                 BlockAddress(c, i) !in used && forall j :: 0 <= j < i ==> BlockAddress(c, j) in used)
  {
    hide Pow2;
    hide BlockAddress;
    BlocksTileBase(c);
    var first := FirstUnused(c, used, 0);
    if first.Some? {
      assert BlockFits(c, first.value);
      forall i | 0 <= i < MaxSubnets(c) && BlockAddress(c, i) == BlockAddress(c, first.value) ensures i == first.value {
        SameBlockSameIndex(c, i, first.value);
      }
    }
  }

  lemma SameBlockSameIndex(c: Config, i: nat, j: nat)
    requires TilesBase(c) && i < MaxSubnets(c) && j < MaxSubnets(c) && BlockAddress(c, i) == BlockAddress(c, j)
    ensures i == j
  {
    hide BlockAddress;
    hide MaxSubnets;
    Sizes(c);
    var v := BlockAddress(c, i);
    assert InBlock(c, i, v) && InBlock(c, j, v);
  }

  /** If the base is not even aligned to the block size, the text searched is never the text
      stored: index 0 always looks unused, and every pick is the block the base lies in. So a
      first node gets it, and no second node can ever store a subnet. */
  lemma UnalignedBaseServesOneNode(c: Config, used: set<nat>)
    requires !Aligned(BaseValue(c), c.subnetMask) && forall n :: n in used ==> IsNetwork(c, n)
    ensures PickNetwork(c, used) == Some(BlockNetwork(c, 0))
  {
    hide Pow2;
    BlockCounts(c);
    BlockOffset(c, 0);
    assert BlockAddress(c, 0) !in used;
    assert FirstUnused(c, used, 0) == Some(0);
    FirstBlockInBase(c);
  }

  /** Once a first node has its block, a second one can be served exactly when the base is
      aligned to the block size and the next block still lies in the base. */
  lemma SecondNodeServedExactlyWhen(c: Config)
    ensures var first := BlockNetwork(c, 0);
            var pick := PickNetwork(c, {first});
            (pick.Some? && pick.value != first)
            <==> Aligned(BaseValue(c), c.subnetMask) && InBase(c, BlockAddress(c, 1))
  {
    hide Pow2;
    hide InBase;
    hide BlockAddress;
    BlockCounts(c);
    BlockOffset(c, 0);
    BlockOffset(c, 1);
    FirstTwoBlocks(c);
    var first := BlockNetwork(c, 0);
    if Aligned(BaseValue(c), c.subnetMask) {
      assert FirstUnused(c, {first}, 1) == Some(1);
      assert FirstUnused(c, {first}, 0) == Some(1);
    } else {
      FirstNetwork(c);
      UnalignedBaseServesOneNode(c, {first});
    }
  }

  lemma FirstTwoBlocks(c: Config)
    ensures MaxSubnets(c) >= 2 && BlockAddress(c, 0) != BlockAddress(c, 1)
  {
    Pow2Monotone(1, c.subnetMask - c.base.value.ones);
    Pow2Monotone(1, c.subnetMask);
    hide Pow2;
    Sizes(c);
    MulMonotone(2, AllBlocks(c), BlockSize(c));
    StepsApart(BaseValue(c), BlockSize(c), ADDRESSES);
  }

  lemma StepsApart(b: nat, s: nat, n: nat)
    requires b < n && 0 < s < n
    ensures b % n != (b + s) % n
  {
    DivModUnique(b, n, 0, b);
    if b + s < n {
      DivModUnique(b + s, n, 0, b + s);
    } else {
      DivModUnique(b + s, n, 1, b + s - n);
    }
  }

  lemma FirstNetwork(c: Config)
    ensures IsNetwork(c, BlockNetwork(c, 0))
  {
    var a, s := BlockAddress(c, 0), BlockSize(c);
    DivMod(a, s);
    AddMultiple(0, a / s, s);
  }

  lemma FirstBlockInBase(c: Config)
    ensures InBase(c, BlockNetwork(c, 0))
  {
    hide Pow2;
    Sizes(c);
    BlockCounts(c);
    var b, s, k := BaseValue(c), BlockSize(c), MaxSubnets(c);
    assert BlockAddress(c, 0) == b;
    DivMod(b, s);
    DivMod(b, k * s);
    Associate(b / (k * s), k, s);
    // BaseStart is a multiple of the block size not above b
    var m := b / (k * s) * k;
    assert BaseStart(c) == m * s;
    if m > b / s {
      MulMonotone(b / s + 1, m, s);
      Distribute(b / s, 1, s);
    } else {
      MulMonotone(m, b / s, s);
    }
  }
}
