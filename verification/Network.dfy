/** internal/rotator/ip/config.go: the base network and its division into node blocks. */
module Network {
  import opened Bits
  import opened Ipv4
  import opened Text

  /** A prefix as written, host bits included: `net.ParseCIDR` returns both parts. */
  datatype Prefix = Prefix(ip: Ip, ones: nat)

  /** `base` is `None` when the text is not a CIDR. */
  datatype NetworkConfig = NetworkConfig(base: Option<Prefix>, subnetMask: int, capacityThreshold: real)

  datatype ConfigError = InvalidBase | MaskNotLarger | MaskTooRestrictive | InvalidThreshold

  /** `NetworkConfig.Validate`. */
  function Validate(c: NetworkConfig): (err: Option<ConfigError>) {
    if c.base.None? || c.base.value.ones > 32 then Some(InvalidBase)
    else if c.subnetMask <= c.base.value.ones then Some(MaskNotLarger)
    else if c.subnetMask > 30 then Some(MaskTooRestrictive)
    else if c.capacityThreshold <= 0.0 || c.capacityThreshold > 1.0 then Some(InvalidThreshold)
    else None
  }

  /** The configurations a service can be built with. */
  type Config = c: NetworkConfig | Validate(c).None?
    witness NetworkConfig(Some(Prefix([10, 8, 0, 0], 16)), 24, 0.8)

  /** A configuration is accepted exactly when its base parses, its blocks are smaller than the base
      and have at least four addresses, and its threshold is a share; the error is the first that
      applies. */
  lemma AcceptedExactlyWhen(c: NetworkConfig)
    ensures var parses := c.base.Some? && c.base.value.ones <= 32;
            && (Validate(c) == None <==>
                  parses && c.base.value.ones < c.subnetMask <= 30 && 0.0 < c.capacityThreshold <= 1.0)
            && (Validate(c) == Some(InvalidBase) <==> !parses)
            && (Validate(c) == Some(MaskNotLarger) <==> parses && c.subnetMask <= c.base.value.ones)
            && (Validate(c) == Some(MaskTooRestrictive) <==> parses && c.subnetMask > 30 && c.subnetMask > c.base.value.ones)
  {
  }

  function BaseValue(c: Config): nat {
    Value(c.base.value.ip)
  }

  function BaseSize(c: Config): (n: nat) {
    Size(c.base.value.ones)
  }

  function BlockSize(c: Config): (s: nat) {
    Size(c.subnetMask)
  }

  /** `MaxSubnets`. */
  function MaxSubnets(c: Config): nat {
    Pow2(c.subnetMask - c.base.value.ones)
  }

  /** The address `GenerateSubnetCIDR` computes, in 32-bit arithmetic from the unmasked base. */
  function BlockAddress(c: Config, index: nat): (v: nat)
    ensures v < ADDRESSES
  {
    (BaseValue(c) + index * BlockSize(c)) % ADDRESSES
  }

  function BlockIp(c: Config, index: nat): Ip {
    FromValue(BlockAddress(c, index))
  }

  /** The text the search looks up for an index. */
  function SearchKey(c: Config, index: nat): string {
    CidrText(BlockIp(c, index), c.subnetMask)
  }

  /** The CIDR text stored for the subnet built from that index: parsing masks the address. */
  function StoredKey(c: Config, index: nat): string {
    CidrText(Masked(BlockIp(c, index), c.subnetMask), c.subnetMask)
  }

  /** A byte shifted left; nothing is lost in 32 bits. */
  function Shift(b: Byte, k: nat): nat {
    MulMonotone(0, b, Pow2(k));
    b as int * Pow2(k)
  }

  /** The four bytes or-ed into one 32-bit number. */
  function ToUint32(ip: Ip): (v: nat)
    ensures v == Value(ip)
  {
    ShiftedBytes(ip);
    Or(Or(Or(Shift(ip[0], 24), Shift(ip[1], 16)), Shift(ip[2], 8)), ip[3])
  }

  /** The last four assignments of `GenerateSubnetCIDR`. */
  method WriteBytes(ip: array<Byte>, v: nat)
    requires ip.Length == 4 && v < ADDRESSES
    modifies ip
    ensures ip[..] == FromValue(v)
  {
    ip[0] := v / 0x100_0000 % 256;
    ip[1] := v / 0x1_0000 % 256;
    ip[2] := v / 0x100 % 256;
    ip[3] := v % 256;
  }

  /** `GenerateSubnetCIDR`: shifts and byte writes compute the block address. */
  method GenerateSubnetCIDR(c: Config, index: nat) returns (text: Option<string>)
    ensures text == if index < MaxSubnets(c) then Some(SearchKey(c, index)) else None
    ensures text.Some? ==>
              exists ip :: IsCidrText(text.value, ip, c.subnetMask)
                           && Value(ip) == (Value(c.base.value.ip) + index * Pow2(32 - c.subnetMask)) % ADDRESSES
  {
    hide Pow2;
    hide CidrText;
    hide Value;
    hide FromValue;
    if index >= MaxSubnets(c) {
      return None;
    }
    var base := c.base.value.ip;
    var ip := new Byte[4](i requires 0 <= i < 4 => base[i]);
    var offset := index * Pow2(32 - c.subnetMask);
    MulMonotone(0, index, Pow2(32 - c.subnetMask));
    var ipInt := (ToUint32(base) + offset % ADDRESSES) % ADDRESSES;
    ModAdd(BaseValue(c), offset, ADDRESSES);
    WriteBytes(ip, ipInt);
    ghost var read := GeneratedReadsBack(c, index);
    return Some(CidrText(ip[..], c.subnetMask));
  }

  /** The text of index i reads back as the address i blocks above the base and the mask, and
      an index past the last block gives none. */
  lemma GeneratedReadsBack(c: Config, index: nat) returns (ip: Ip)
    ensures IsCidrText(SearchKey(c, index), ip, c.subnetMask)
    ensures Value(ip) == (Value(c.base.value.ip) + index * Pow2(32 - c.subnetMask)) % ADDRESSES
    ensures forall other: Ip, mask: nat :: IsCidrText(SearchKey(c, index), other, mask) ==> other == ip && mask == c.subnetMask
  {
    hide CidrText;
    hide FromValue;
    ip := BlockIp(c, index);
    CidrTextReadsBack(ip, c.subnetMask);
    ValueOfFromValue(BlockAddress(c, index));
  }

  lemma ShiftedBytes(ip: Ip)
    ensures Or(Or(Or(Shift(ip[0], 24), Shift(ip[1], 16)), Shift(ip[2], 8)), ip[3]) == Value(ip)
  {
    Pow2Of8();
    Pow2Of32();
    OrDisjoint(ip[0], ip[1] as int * 0x1_0000, 24);
    OrDisjoint(ip[0] as int * 0x100 + ip[1], ip[2] as int * 0x100, 16);
    OrDisjoint((ip[0] as int * 0x100 + ip[1]) * 0x100 + ip[2], ip[3], 8);
  }

  lemma ModAdd(x: nat, y: nat, d: nat)
    requires d > 0
    ensures (x + y % d) % d == (x + y) % d
  {
    DivMod(y, d);
    AddMultiple(x + y % d, y / d, d);
  }

  // ---- quotient space: addresses counted in blocks ----

  /** Number of blocks in the whole address space. */
  function AllBlocks(c: Config): nat {
    Pow2(c.subnetMask)
  }

  lemma Sizes(c: Config)
    ensures BaseSize(c) == MaxSubnets(c) * BlockSize(c)
    ensures ADDRESSES == AllBlocks(c) * BlockSize(c)
    ensures BlockSize(c) >= 4
    ensures AllBlocks(c) == Pow2(c.base.value.ones) * MaxSubnets(c)
    ensures BaseValue(c) < ADDRESSES
  {
    Pow2Of32();
    Pow2Of8();
    Pow2Add(c.subnetMask - c.base.value.ones, 32 - c.subnetMask);
    Pow2Monotone(2, 32 - c.subnetMask);
    Pow2Add(c.subnetMask, 32 - c.subnetMask);
    Pow2Add(c.base.value.ones, c.subnetMask - c.base.value.ones);
  }

  lemma BlockCounts(c: Config)
    ensures MaxSubnets(c) >= 1
    ensures c.base.value.ones == 0 ==> AllBlocks(c) == MaxSubnets(c)
    ensures c.base.value.ones != 0 ==> AllBlocks(c) >= 2 * MaxSubnets(c)
  {
    Sizes(c);
    if c.base.value.ones != 0 {
      Pow2Monotone(1, c.base.value.ones);
      MulMonotone(2, Pow2(c.base.value.ones), MaxSubnets(c));
    }
  }

  lemma ModOfMod(x: nat, k: nat, s: nat)
    requires s > 0 && k > 0
    ensures k * s > 0 && x % (k * s) % s == x % s
  {
    MulMonotone(1, k, s);
    var d := k * s;
    DivMod(x, d);
    Associate(x / d, k, s);
    AddMultiple(x % d, x / d * k, s);
  }

  /** Wrap-around never changes the offset of a block address inside its block. */
  lemma BlockOffset(c: Config, index: nat)
    ensures BlockAddress(c, index) % BlockSize(c) == BaseValue(c) % BlockSize(c)
  {
    Sizes(c);
    var s := BlockSize(c);
    MulMonotone(0, index, s);
    ModOfMod(BaseValue(c) + index * s, AllBlocks(c), s);
    AddMultiple(BaseValue(c), index, s);
  }

  /** The search key of an index is the text that gets stored exactly when the base
      address is aligned to the block size. */
  lemma SearchKeyIsStoredKey(c: Config, index: nat)
    ensures SearchKey(c, index) == StoredKey(c, index) <==> Aligned(BaseValue(c), c.subnetMask)
  {
    var ip := BlockIp(c, index);
    CidrTextInjective(ip, c.subnetMask, Masked(ip, c.subnetMask), c.subnetMask);
    ValueOfMasked(ip, c.subnetMask);
    ValueOfFromValue(BlockAddress(c, index));
    BlockOffset(c, index);
    if Value(ip) == Value(Masked(ip, c.subnetMask)) {
      ValueInjective(ip, Masked(ip, c.subnetMask));
    }
  }

  // ---- tiling ----

  predicate InBlock(c: Config, index: nat, v: nat) {
    BlockAddress(c, index) <= v < BlockAddress(c, index) + BlockSize(c)
  }

  /** First address of the base network proper. */
  function BaseStart(c: Config): nat {
    DivMod(BaseValue(c), BaseSize(c));
    BaseValue(c) - BaseValue(c) % BaseSize(c)
  }

  predicate InBase(c: Config, v: nat) {
    BaseStart(c) <= v < BaseStart(c) + BaseSize(c)
  }

  predicate BlockFits(c: Config, index: nat) {
    && Aligned(BlockAddress(c, index), c.subnetMask)
    && InBase(c, BlockAddress(c, index))
    && InBase(c, BlockAddress(c, index) + BlockSize(c) - 1)
  }

  /** Every block is aligned and inside the base network, blocks are pairwise disjoint,
      and every base address lies in some block. */
  ghost predicate TilesBase(c: Config) {
    && (forall i :: 0 <= i < MaxSubnets(c) ==> BlockFits(c, i))
    && (forall i, j, v :: 0 <= i < j < MaxSubnets(c) && 0 <= v && InBlock(c, i, v) ==> !InBlock(c, j, v))
    && (forall v :: 0 <= v && InBase(c, v) ==> exists i: nat :: i < MaxSubnets(c) && InBlock(c, i, v))
  }

  /** What `Validate` does not check: the base address has no host bits. With a /0 base
      the additions wrap around the whole space, so only block alignment matters. */
  predicate BaseAligned(c: Config) {
    if c.base.value.ones == 0 then Aligned(BaseValue(c), c.subnetMask)
    else Aligned(BaseValue(c), c.base.value.ones)
  }

  /** The generated blocks tile the base network exactly when the base is aligned. */
  lemma BlocksTileBase(c: Config)
    ensures TilesBase(c) <==> BaseAligned(c)
  {
    if BaseAligned(c) {
      AlignedToBlocks(c);
      forall i | 0 <= i < MaxSubnets(c) ensures BlockFits(c, i) {
        AlignedFits(c, i);
      }
      forall i, j, v | 0 <= i < j < MaxSubnets(c) && 0 <= v && InBlock(c, i, v) ensures !InBlock(c, j, v) {
        BlocksDisjoint(c, i, j, v);
      }
      forall v | 0 <= v && InBase(c, v) ensures exists i: nat :: i < MaxSubnets(c) && InBlock(c, i, v) {
        var i := Covered(c, v);
      }
    } else if TilesBase(c) {
      BlockCounts(c);
      assert BlockFits(c, 0) && BlockFits(c, MaxSubnets(c) - 1);
      FittingMeansAligned(c);
    }
  }

  /** A base the check accepts although it has host bits, and the blocks do not tile it. */
  const HOST_BITS := NetworkConfig(Some(Prefix([10, 8, 0, 7], 16)), 24, 0.8)

  lemma HostBitsAreAccepted()
    ensures Validate(HOST_BITS).None? && !TilesBase(HOST_BITS)
  {
    var c: Config := HOST_BITS;
    Pow2Of8();
    Pow2Add(8, 8);
    assert Size(16) == 0x1_0000;
    assert BaseValue(c) % 0x1_0000 == 7;
    BlocksTileBase(c);
  }

  lemma AlignedToBlocks(c: Config)
    requires BaseAligned(c)
    ensures Aligned(BaseValue(c), c.subnetMask)
  {
    Sizes(c);
    if c.base.value.ones != 0 {
      ModOfMod(BaseValue(c), MaxSubnets(c), BlockSize(c));
    }
  }

  /** The base address counted in blocks. */
  function BaseBlock(c: Config): nat {
    DivMod(BaseValue(c), BlockSize(c));
    BaseValue(c) / BlockSize(c)
  }

  /** The block an index denotes: counting up from the base, around the address space. */
  function BlockNumber(c: Config, index: nat): int {
    if BaseBlock(c) + index < AllBlocks(c) then BaseBlock(c) + index
    else BaseBlock(c) + index - AllBlocks(c)
  }

  lemma BlockAddressIsNumber(c: Config, index: nat)
    requires Aligned(BaseValue(c), c.subnetMask) && index < MaxSubnets(c)
    ensures BaseValue(c) == BaseBlock(c) * BlockSize(c) && BaseBlock(c) < AllBlocks(c)
    ensures 0 <= BlockNumber(c, index) < AllBlocks(c)
    ensures BlockAddress(c, index) == BlockNumber(c, index) * BlockSize(c)
  {
    Sizes(c);
    BlockCounts(c);
    var b, s, k := BaseBlock(c), BlockSize(c), AllBlocks(c);
    DivMod(BaseValue(c), s);
    MulCancel(b, k, s);
    Distribute(b, index, s);
    ModScale(b + index, k, s);
    DivModUnique(b + index, k, if b + index < k then 0 else 1, BlockNumber(c, index));
  }

  /** A multiple of the block size starts the block holding v exactly when it is v's quotient. */
  lemma QuotientIs(n: nat, v: nat, s: nat)
    requires s > 0
    ensures n * s <= v < n * s + s <==> v / s == n
  {
    DivMod(v, s);
    if n * s <= v < n * s + s {
      DivModUnique(v, s, n, v - n * s);
    }
  }

  lemma BlocksDisjoint(c: Config, i: nat, j: nat, v: nat)
    requires Aligned(BaseValue(c), c.subnetMask)
    requires i < j < MaxSubnets(c) && InBlock(c, i, v)
    ensures !InBlock(c, j, v)
  {
    Sizes(c);
    BlockCounts(c);
    BlockAddressIsNumber(c, i);
    BlockAddressIsNumber(c, j);
    QuotientIs(BlockNumber(c, i), v, BlockSize(c));
    QuotientIs(BlockNumber(c, j), v, BlockSize(c));
  }

  /** The base interval counted in blocks. */
  lemma BaseInBlocks(c: Config) returns (lo: nat)
    requires Aligned(BaseValue(c), c.subnetMask)
    ensures lo == BaseBlock(c) - BaseBlock(c) % MaxSubnets(c)
    ensures BaseStart(c) == lo * BlockSize(c)
    ensures lo + MaxSubnets(c) <= AllBlocks(c)
    ensures forall v: nat :: InBase(c, v) <==> lo <= v / BlockSize(c) < lo + MaxSubnets(c)
  {
    var s, n, b := BlockSize(c), MaxSubnets(c), BaseBlock(c);
    Sizes(c);
    BlockCounts(c);
    BlockAddressIsNumber(c, 0);
    DivMod(b, n);
    lo := b - b % n;
    ModScale(b, n, s);
    Distribute(lo, b % n, s);
    MultipleRoom(b / n, b, n, Pow2(c.base.value.ones));
    forall v: nat ensures InBase(c, v) <==> lo <= v / s < lo + n {
      ScaledInterval(lo, n, v, s);
    }
  }

  lemma MultipleRoom(q: nat, b: nat, n: nat, k: nat)
    requires n > 0 && q * n <= b < k * n
    ensures q * n + n <= k * n
  {
    MulCancel(q, k, n);
    MulMonotone(q + 1, k, n);
    Distribute(q, 1, n);
  }

  lemma ScaledInterval(lo: nat, n: nat, v: nat, s: nat)
    requires s > 0
    ensures lo * s <= v < lo * s + n * s <==> lo <= v / s < lo + n
  {
    var q := v / s;
    DivMod(v, s);
    Distribute(lo, n, s);
    Distribute(q, 1, s);
    if lo * s <= v {
      MulCancel(lo, q + 1, s);
    }
    if v < lo * s + n * s {
      MulCancel(q, lo + n, s);
    }
    if lo <= q {
      MulMonotone(lo, q, s);
    }
    if q < lo + n {
      MulMonotone(q + 1, lo + n, s);
    }
  }

  lemma AlignedBaseBlock(c: Config)
    requires BaseAligned(c) && c.base.value.ones != 0
    ensures BaseBlock(c) % MaxSubnets(c) == 0
  {
    AlignedToBlocks(c);
    Sizes(c);
    BlockCounts(c);
    BlockAddressIsNumber(c, 0);
    var r := BaseBlock(c) % MaxSubnets(c);
    ModScale(BaseBlock(c), MaxSubnets(c), BlockSize(c));
    DivMod(BaseBlock(c), MaxSubnets(c));
    if r > 0 {
      MulMonotone(1, r, BlockSize(c));
    }
  }

  lemma AlignedFits(c: Config, index: nat)
    requires BaseAligned(c) && index < MaxSubnets(c)
    ensures BlockFits(c, index)
  {
    AlignedToBlocks(c);
    BlockOffset(c, index);
    Sizes(c);
    BlockCounts(c);
    BlockAddressIsNumber(c, index);
    var lo := BaseInBlocks(c);
    var a, s := BlockAddress(c, index), BlockSize(c);
    QuotientIs(BlockNumber(c, index), a, s);
    QuotientIs(BlockNumber(c, index), a + s - 1, s);
    if c.base.value.ones != 0 {
      AlignedBaseBlock(c);
    }
  }

  lemma Covered(c: Config, v: nat) returns (i: nat)
    requires BaseAligned(c) && InBase(c, v)
    ensures i < MaxSubnets(c) && InBlock(c, i, v)
  {
    AlignedToBlocks(c);
    Sizes(c);
    BlockCounts(c);
    BlockAddressIsNumber(c, 0);
    var lo := BaseInBlocks(c);
    if c.base.value.ones != 0 {
      AlignedBaseBlock(c);
    }
    var q, b := v / BlockSize(c), BaseBlock(c);
    i := if q >= b then q - b else q + AllBlocks(c) - b;
    BlockAddressIsNumber(c, i);
    QuotientIs(q, v, BlockSize(c));
  }

  lemma FittingMeansAligned(c: Config)
    requires MaxSubnets(c) >= 1 && BlockFits(c, 0) && BlockFits(c, MaxSubnets(c) - 1)
    ensures BaseAligned(c)
  {
    Sizes(c);
    BlockCounts(c);
    BlockOffset(c, 0);
    if c.base.value.ones != 0 {
      var last, s := MaxSubnets(c) - 1, BlockSize(c);
      BlockAddressIsNumber(c, last);
      var lo := BaseInBlocks(c);
      DivMod(BaseBlock(c), MaxSubnets(c));
      QuotientIs(BlockNumber(c, last), BlockAddress(c, last), s);
      assert BaseBlock(c) == lo;
    }
  }
}
