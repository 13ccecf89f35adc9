/** Powers of two and the bitwise operators on naturals. */
module Bits {
  function Pow2(n: nat): (p: nat)
    ensures p >= 1
  {
    if n == 0 then 1 else 2 * Pow2(n - 1)
  }

  lemma {:induction false} Pow2Add(a: nat, b: nat)
    ensures Pow2(a + b) == Pow2(a) * Pow2(b)
  {
    if a > 0 {
      Pow2Add(a - 1, b);
    }
  }

  lemma {:induction false} Pow2Monotone(a: nat, b: nat)
    requires a <= b
    ensures Pow2(a) <= Pow2(b)
  {
    if a < b {
      Pow2Monotone(a, b - 1);
    }
  }

  lemma Pow2Of8()
    ensures Pow2(2) == 4 && Pow2(8) == 256
  {
    assert Pow2(4) == 16;
  }

  lemma Pow2Of32()
    ensures Pow2(16) == 0x1_0000 && Pow2(24) == 0x100_0000 && Pow2(32) == 0x1_0000_0000
  {
    Pow2Of8();
    Pow2Add(8, 8);
    Pow2Add(8, 16);
    Pow2Add(16, 16);
  }

  function And(a: nat, b: nat): nat {
    if a == 0 || b == 0 then 0
    else 2 * And(a / 2, b / 2) + (if a % 2 == 1 && b % 2 == 1 then 1 else 0)
  }

  function Or(a: nat, b: nat): nat
    decreases a + b
  {
    if a == 0 && b == 0 then 0
    else 2 * Or(a / 2, b / 2) + (if a % 2 == 1 || b % 2 == 1 then 1 else 0)
  }

  lemma HalvesOfOnes(p: nat)
    requires p >= 1
    ensures (2 * p - 1) / 2 == p - 1 && (2 * p - 1) % 2 == 1
  {
  }

  lemma OrHalves(a: nat, b: nat)
    requires b % 2 == 1
    ensures Or(a, b) == 2 * Or(a / 2, b / 2) + 1
  {
  }

  /** Or with k low ones sets exactly the low k bits. */
  lemma {:induction false} OrLowOnes(x: nat, k: nat)
    ensures Or(x, Pow2(k) - 1) == x - x % Pow2(k) + (Pow2(k) - 1)
    decreases k, x
  {
    if k == 0 {
      if x > 0 {
        OrLowOnes(x / 2, 0);
      }
    } else {
      var p := Pow2(k - 1);
      HalvesOfOnes(p);
      OrLowOnes(x / 2, k - 1);
      HalveMod(x, p);
      OrHalves(x, 2 * p - 1);
    }
  }

  /** Or of a number shifted left by k and a k-bit number is their sum. */
  lemma {:induction false} OrDisjoint(a: nat, b: nat, k: nat)
    requires b < Pow2(k)
    ensures Or(a * Pow2(k), b) == a * Pow2(k) + b
  {
    if k == 0 {
      OrLowOnes(a, 0);
    } else {
      var p := Pow2(k - 1);
      assert a * Pow2(k) == 2 * (a * p);
      OrDisjoint(a, b / 2, k - 1);
    }
  }

  lemma {:induction false} AndAllOnes(x: nat, n: nat)
    requires x < Pow2(n)
    ensures And(x, Pow2(n) - 1) == x
  {
    if n > 0 && x > 0 {
      var p := Pow2(n - 1);
      assert (2 * p - 1) / 2 == p - 1 && (2 * p - 1) % 2 == 1;
      AndAllOnes(x / 2, n - 1);
    }
  }

  /** And with n-k ones above k zeros clears exactly the low k bits. */
  lemma {:induction false} AndHighOnes(x: nat, n: nat, k: nat)
    requires k <= n && x < Pow2(n) && Pow2(k) <= Pow2(n)
    ensures And(x, Pow2(n) - Pow2(k)) == x - x % Pow2(k)
  {
    if k == 0 {
      AndAllOnes(x, n);
    } else {
      var p, q := Pow2(k - 1), Pow2(n - 1);
      assert (2 * q - 2 * p) / 2 == q - p;
      AndHighOnes(x / 2, n - 1, k - 1);
      HalveMod(x, p);
      if x == 0 {
        assert x % (2 * p) == 0;
      } else if q == p {
        assert x % (2 * p) == x;
      }
    }
  }

  lemma HalveMod(x: nat, p: nat)
    requires p > 0
    ensures x % (2 * p) == 2 * (x / 2 % p) + x % 2
  {
    var h := x / 2;
    DivModUnique(x, 2 * p, h / p, 2 * (h % p) + x % 2);
  }

  lemma DivModUnique(x: int, d: int, q: int, r: int)
    requires d > 0 && x == q * d + r && 0 <= r < d
    ensures x / d == q && x % d == r
  {
    var q', r' := x / d, x % d;
    assert x == q' * d + r';
    if q' > q {
      MulMonotone(q + 1, q', d);
    } else if q' < q {
      MulMonotone(q' + 1, q, d);
    }
  }

  lemma AddMultiple(x: int, k: int, d: int)
    requires d > 0
    ensures (k * d + x) % d == x % d
  {
    var q := x / d;
    assert k * d + x == (k + q) * d + x % d;
    DivModUnique(k * d + x, d, k + q, x % d);
  }

  lemma DivMod(x: int, d: int)
    requires d > 0
    ensures x == x / d * d + x % d && 0 <= x % d < d
    ensures x >= 0 ==> 0 <= x / d && x % d <= x
  {
    if x >= 0 && x / d < 0 {
      MulMonotone(x / d, -1, d);
    }
    if x >= 0 {
      MulMonotone(0, x / d, d);
    }
  }

  lemma MulCancel(a: int, b: int, d: int)
    requires d > 0 && a * d < b * d
    ensures a < b
  {
    if b <= a {
      MulMonotone(b, a, d);
    }
  }

  /** Scaling a quotient space by the block size. */
  lemma ModScale(x: nat, k: nat, s: nat)
    requires k > 0 && s > 0
    ensures k * s > 0 && x * s % (k * s) == x % k * s
  {
    var q, r := x / k, x % k;
    DivMod(x, k);
    MulMonotone(1, k, s);
    MulMonotone(r + 1, k, s);
    MulMonotone(0, r, s);
    assert x * s == q * (k * s) + r * s by {
      Distribute(q * k, r, s);
      Associate(q, k, s);
    }
    Distribute(r, 1, s);
    DivModUnique(x * s, k * s, q, r * s);
  }

  lemma Distribute(a: int, b: int, d: int)
    ensures (a + b) * d == a * d + b * d
  {
  }

  lemma Associate(a: int, b: int, c: int)
    ensures a * b * c == a * (b * c)
  {
  }

  lemma MulMonotone(a: int, b: int, d: int)
    requires a <= b && d >= 0
    ensures a * d <= b * d
  {
    assert (b - a) * d >= 0;
  }
}

/** IPv4 addresses as the byte slices of `net.IP`, and what they mean as 32-bit numbers. */
module Ipv4 {
  import opened Bits
  import Text

  type Byte = b: int | 0 <= b < 256

  type Ip = ip: seq<Byte> | |ip| == 4 witness [0, 0, 0, 0]

  const ADDRESSES := 0x1_0000_0000

  /** The 32-bit number an address stands for. */
  function Value(ip: Ip): (v: nat)
    ensures v < ADDRESSES
  {
    0x100_0000 * ip[0] as int + 0x1_0000 * ip[1] as int + 0x100 * ip[2] as int + ip[3]
  }

  /** The four bytes of a 32-bit number, as written at the end of `GenerateSubnetCIDR`. */
  function FromValue(v: nat): (ip: Ip)
    requires v < ADDRESSES
  {
    [v / 0x100_0000 % 256, v / 0x1_0000 % 256, v / 0x100 % 256, v % 256]
  }

  lemma ValueOfFromValue(v: nat)
    requires v < ADDRESSES
    ensures Value(FromValue(v)) == v
  {
    var a, b, c := v / 0x100, v / 0x1_0000, v / 0x100_0000;
    assert v == 0x100 * a + v % 0x100;
    assert a == 0x100 * b + a % 0x100;
    assert b == 0x100 * c + b % 0x100;
    assert c < 0x100;
    ValueOfBytes(c, b % 0x100, a % 0x100, v % 0x100);
  }

  lemma ValueOfBytes(a: Byte, b: Byte, c: Byte, d: Byte)
    ensures Value([a, b, c, d]) == 0x100 * (0x100 * (0x100 * a + b) + c) + d
  {
  }

  lemma ValueInjective(a: Ip, b: Ip)
    requires Value(a) == Value(b)
    ensures a == b
  {
    assert a[0] == b[0] && a[1] == b[1] && a[2] == b[2];
  }

  // ---- text ----

  /** `net.IP.String` of a four-byte address. */
  function DottedText(ip: Ip): string {
    Text.Join([Text.Digits(ip[0]), Text.Digits(ip[1]), Text.Digits(ip[2]), Text.Digits(ip[3])], '.')
  }

  lemma NoCharInDigits(n: nat, c: char)
    requires !Text.IsDigit(c)
    ensures c !in Text.Digits(n)
  {
  }

  /** The text used as a map key identifies the address. */
  lemma DottedTextInjective(a: Ip, b: Ip)
    requires DottedText(a) == DottedText(b)
    ensures a == b
  {
    var p := [Text.Digits(a[0]), Text.Digits(a[1]), Text.Digits(a[2]), Text.Digits(a[3])];
    var q := [Text.Digits(b[0]), Text.Digits(b[1]), Text.Digits(b[2]), Text.Digits(b[3])];
    Text.SplitJoin(p, '.');
    Text.SplitJoin(q, '.');
    assert p == q;
    forall i | 0 <= i < 4 ensures a[i] == b[i] {
      assert p[i] == q[i];
      Text.DigitsInjective(a[i], b[i]);
    }
  }

  lemma {:induction false} NoCharInJoin(parts: seq<string>, sep: char, c: char)
    requires c != sep && forall i :: 0 <= i < |parts| ==> c !in parts[i]
    ensures c !in Text.Join(parts, sep)
  {
    if |parts| > 1 {
      NoCharInJoin(parts[1..], sep, c);
    }
  }

  /** `fmt.Sprintf("%s/%d", ip, mask)`, which is also what `net.IPNet.String` prints. */
  function CidrText(ip: Ip, mask: nat): string {
    Text.Join([DottedText(ip), Text.Digits(mask)], '/')
  }

  lemma CidrTextInjective(a: Ip, m: nat, b: Ip, n: nat)
    ensures CidrText(a, m) == CidrText(b, n) <==> a == b && m == n
  {
    if CidrText(a, m) == CidrText(b, n) {
      NoCharInJoin([Text.Digits(a[0]), Text.Digits(a[1]), Text.Digits(a[2]), Text.Digits(a[3])], '.', '/');
      NoCharInJoin([Text.Digits(b[0]), Text.Digits(b[1]), Text.Digits(b[2]), Text.Digits(b[3])], '.', '/');
      var p, q := [DottedText(a), Text.Digits(m)], [DottedText(b), Text.Digits(n)];
      Text.SplitJoin(p, '/');
      Text.SplitJoin(q, '/');
      assert p == q;
      assert p[0] == q[0] && p[1] == q[1];
      DottedTextInjective(a, b);
      Text.DigitsInjective(m, n);
    }
  }

  /** The text of an address: four decimal numbers, the bytes from first to last. */
  predicate IsDottedText(text: string, ip: Ip) {
    var parts := Text.Split(text, '.');
    |parts| == 4 && forall k :: 0 <= k < 4 ==> Text.IsDecimal(parts[k], ip[k])
  }

  /** An address text, a slash and the decimal prefix length. */
  predicate IsCidrText(text: string, ip: Ip, mask: nat) {
    var parts := Text.Split(text, '/');
    |parts| == 2 && IsDottedText(parts[0], ip) && Text.IsDecimal(parts[1], mask)
  }

  lemma DottedTextReadsBack(ip: Ip)
    ensures IsDottedText(DottedText(ip), ip)
  {
    var parts := [Text.Digits(ip[0]), Text.Digits(ip[1]), Text.Digits(ip[2]), Text.Digits(ip[3])];
    forall k | 0 <= k < 4 ensures '.' !in parts[k] && Text.IsDecimal(parts[k], ip[k]) {
      NoCharInDigits(ip[k], '.');
      Text.DigitsAreDecimal(ip[k]);
    }
    Text.SplitJoin(parts, '.');
  }

  /** The text of an address and prefix length reads back as just these. */
  lemma CidrTextReadsBack(ip: Ip, mask: nat)
    ensures IsCidrText(CidrText(ip, mask), ip, mask)
  {
    DottedTextReadsBack(ip);
    var parts := [DottedText(ip), Text.Digits(mask)];
    NoCharInJoin([Text.Digits(ip[0]), Text.Digits(ip[1]), Text.Digits(ip[2]), Text.Digits(ip[3])], '.', '/');
    NoCharInDigits(mask, '/');
    Text.DigitsAreDecimal(mask);
    Text.SplitJoin(parts, '/');
  }

  /** No other text does. */
  lemma DottedTextIsUnique(text: string, ip: Ip)
    requires IsDottedText(text, ip)
    ensures text == DottedText(ip)
  {
    var parts := Text.Split(text, '.');
    var digits := [Text.Digits(ip[0]), Text.Digits(ip[1]), Text.Digits(ip[2]), Text.Digits(ip[3])];
    forall k | 0 <= k < 4 ensures parts[k] == digits[k] {
      Text.DigitsAreDecimal(ip[k]);
      Text.DecimalIsUnique(parts[k], digits[k], ip[k]);
    }
    assert parts == digits;
    Text.JoinSplit(text, '.');
  }

  // ---- masks ----

  /** Byte `i` of `net.CIDRMask(ones, 32)`. */
  function MaskByte(ones: nat, i: nat): Byte {
    if ones >= 8 * (i + 1) then 255
    else if ones <= 8 * i then 0
    else HighMask(ones, i)
  }

  function HighMask(ones: nat, i: nat): Byte
    requires 8 * i < ones < 8 * (i + 1)
  {
    Pow2Of8();
    Pow2Monotone(8 * (i + 1) - ones, 8);
    256 - Pow2(8 * (i + 1) - ones)
  }

  function AndByte(a: Byte, b: Byte): Byte {
    AndBounded(a, b);
    And(a, b)
  }

  function OrByte(a: Byte, b: Byte): Byte {
    OrBounded(a, b, 8);
    Pow2Of8();
    Or(a, b)
  }

  lemma {:induction false} AndBounded(a: nat, b: nat)
    ensures And(a, b) <= a
  {
    if a != 0 && b != 0 {
      AndBounded(a / 2, b / 2);
    }
  }

  lemma {:induction false} OrBounded(a: nat, b: nat, n: nat)
    requires n == 8 ==> a < 256 && b < 256
    requires n != 8 ==> a < Pow2(n) && b < Pow2(n)
    ensures Or(a, b) < Pow2(n)
    decreases n
  {
    Pow2Of8();
    if n > 0 {
      assert Pow2(n) == 2 * Pow2(n - 1);
      OrBounded(a / 2, b / 2, n - 1);
    }
  }

  /** `net.IP.Mask`. */
  function Masked(bytes: seq<Byte>, ones: nat): (r: seq<Byte>)
    ensures |r| == |bytes|
  {
    seq(|bytes|, i requires 0 <= i < |bytes| => AndByte(bytes[i], MaskByte(ones, i)))
  }

  lemma MaskedByte(b: Byte, ones: nat, i: nat)
    ensures ones >= 8 * (i + 1) ==> AndByte(b, MaskByte(ones, i)) == b
    ensures ones <= 8 * i ==> AndByte(b, MaskByte(ones, i)) == 0
    ensures 8 * i < ones < 8 * (i + 1) ==>
              AndByte(b, MaskByte(ones, i)) == b - b % Pow2(8 * (i + 1) - ones)
  {
    Pow2Of8();
    if ones >= 8 * (i + 1) {
      AndHighOnes(b, 8, 0);
    } else if ones > 8 * i {
      Pow2Monotone(8 * (i + 1) - ones, 8);
      AndHighOnes(b, 8, 8 * (i + 1) - ones);
    }
  }

  /** The number a byte string of any length stands for. */
  function BigEndian(bytes: seq<Byte>): nat {
    if bytes == [] then 0 else 256 * BigEndian(bytes[..|bytes| - 1]) + bytes[|bytes| - 1]
  }

  lemma ValueIsBigEndian(ip: Ip)
    ensures Value(ip) == BigEndian(ip)
  {
    assert ip[..3][..2] == ip[..2] && ip[..2][..1] == ip[..1] && ip[..1][..0] == [];
    assert BigEndian(ip[..1]) == ip[0];
    assert BigEndian(ip[..2]) == 256 * ip[0] as int + ip[1];
    assert BigEndian(ip[..3]) == 256 * BigEndian(ip[..2]) + ip[2];
  }

  /** Masking clears the low 8*|bytes| - ones bits of the number. */
  lemma {:induction false} MaskedBigEndian(bytes: seq<Byte>, ones: nat)
    ensures ones >= 8 * |bytes| ==> Masked(bytes, ones) == bytes
    ensures ones <= 8 * |bytes| ==>
              BigEndian(Masked(bytes, ones)) == BigEndian(bytes) - BigEndian(bytes) % Pow2(8 * |bytes| - ones)
  {
    if bytes != [] {
      var n := |bytes| - 1;
      var front, b := bytes[..n], bytes[n];
      assert Masked(bytes, ones)[..n] == Masked(front, ones);
      MaskedByte(b, ones, n);
      MaskedBigEndian(front, ones);
      if 8 * n < ones <= 8 * |bytes| {
        LowBits(BigEndian(front), b, 8 * |bytes| - ones);
      } else if ones <= 8 * n {
        HighBits(BigEndian(front), b, 8 * n - ones);
      }
    }
  }

  lemma ValueOfMasked(ip: Ip, ones: nat)
    requires ones <= 32
    ensures Value(Masked(ip, ones)) == Value(ip) - Value(ip) % Size(ones)
  {
    MaskedBigEndian(ip, ones);
    ValueIsBigEndian(ip);
    ValueIsBigEndian(Masked(ip, ones));
  }

  lemma LowBits(a: nat, b: Byte, k: nat)
    requires k <= 8
    ensures (256 * a + b) % Pow2(k) == b % Pow2(k)
  {
    var p, q := Pow2(k), Pow2(8 - k);
    Pow2Of8();
    Pow2Add(k, 8 - k);
    AddMultiple(b, q * a, p);
    assert 256 * a == (q * a) * p;
  }

  lemma HighBits(a: nat, b: Byte, k: nat)
    ensures (256 * a + b) % Pow2(8 + k) == 256 * (a % Pow2(k)) + b
  {
    var p := Pow2(k);
    Pow2Of8();
    Pow2Add(8, k);
    assert 256 * a + b == (a / p) * (256 * p) + (256 * (a % p) + b);
    DivModUnique(256 * a + b, 256 * p, a / p, 256 * (a % p) + b);
  }

  /** `net.IPNet.Contains`: the masked bytes agree. */
  predicate Contains(network: Ip, ones: nat, ip: Ip) {
    Masked(network, ones) == Masked(ip, ones)
  }

  /** Number of addresses of a prefix of the given length. */
  function Size(ones: nat): nat
    requires ones <= 32
  {
    Pow2(32 - ones)
  }

  predicate Aligned(v: nat, ones: nat)
    requires ones <= 32
  {
    v % Size(ones) == 0
  }

  /** For an aligned network, containment is membership in its address interval. */
  lemma ContainsIsInterval(network: Ip, ones: nat, ip: Ip)
    requires ones <= 32 && Aligned(Value(network), ones)
    ensures Contains(network, ones, ip) <==>
              Value(network) <= Value(ip) < Value(network) + Size(ones)
  {
    ValueOfMasked(network, ones);
    ValueOfMasked(ip, ones);
    BlockOf(Value(network), Value(ip), Size(ones));
    if Value(Masked(network, ones)) == Value(Masked(ip, ones)) {
      ValueInjective(Masked(network, ones), Masked(ip, ones));
    }
  }

  lemma BlockOf(n: nat, v: nat, s: nat)
    requires s > 0 && n % s == 0
    ensures n == v - v % s <==> n <= v < n + s
  {
    if n <= v < n + s {
      assert n == (n / s) * s;
      DivModUnique(v, s, n / s, v - n);
    }
  }

  // ---- in-place byte arithmetic ----

  /** The inner loop of `FindNextAvailableIP`: increment with carry from the last byte. */
  method Increment(current: array<Byte>)
    requires current.Length == 4
    modifies current
    ensures Value(current[..]) == (old(Value(current[..])) + 1) % ADDRESSES
  {
    ghost var before := current[..];
    var i := 3;
    while i >= 0
      invariant -1 <= i <= 3
      invariant forall j :: 0 <= j <= i ==> current[j] == before[j]
      invariant forall j :: i < j < 4 ==> before[j] == 255 && current[j] == 0
    {
      current[i] := (current[i] as int + 1) % 256;
      if current[i] != 0 {
        break;
      }
      i := i - 1;
    }
    CarriedValue(before, current[..], i);
  }

  /** Resetting trailing 255s to 0 and adding one to the byte before them adds one. */
  lemma CarriedValue(before: Ip, after: Ip, i: int)
    requires -1 <= i < 4
    requires forall j :: 0 <= j < i ==> after[j] == before[j]
    requires i >= 0 ==> before[i] < 255 && after[i] == before[i] + 1
    requires forall j :: i < j < 4 ==> before[j] == 255 && after[j] == 0
    ensures Value(after) == (Value(before) + 1) % ADDRESSES
  {
  }

  /** `ipGreaterThan`: byte-wise comparison from the first byte. */
  method IpGreaterThan(ip1: Ip, ip2: Ip) returns (greater: bool)
    ensures greater <==> Value(ip1) > Value(ip2)
  {
    for i := 0 to 4
      invariant forall j :: 0 <= j < i ==> ip1[j] == ip2[j]
    {
      if ip1[i] > ip2[i] {
        return true;
      } else if ip1[i] < ip2[i] {
        return false;
      }
    }
    assert ip1 == ip2;
    return false;
  }
}
