/** pkg/crypto/wireguard.go: which texts `IsValidWireGuardKey` takes for a key. */
module Keys {
  import opened WireGuard

  type Byte = b: int | 0 <= b < 256

  // ---- base64, section 4 of RFC 4648 ----

  function Symbol(v: nat): (c: char)
    requires v < 64
    ensures IsBase64(c)
  {
    if v < 26 then 'A' + v as char
    else if v < 52 then 'a' + (v - 26) as char
    else if v < 62 then '0' + (v - 52) as char
    else if v == 62 then '+' else '/'
  }

  function Code(c: char): (v: nat)
    requires IsBase64(c)
    ensures v < 64 && Symbol(v) == c
  {
    if 'A' <= c <= 'Z' then (c - 'A') as nat
    else if 'a' <= c <= 'z' then (c - 'a') as nat + 26
    else if '0' <= c <= '9' then (c - '0') as nat + 52
    else if c == '+' then 62 else 63
  }

  /** `low` are the bits of the last symbol that stand for no byte; an encoder sets them to 0, and
      the decoder ignores them. */
  predicate HasLow(bytes: seq<Byte>, low: nat) {
    low < if |bytes| % 3 == 1 then 16 else if |bytes| % 3 == 2 then 4 else 1
  }

  function OneByte(x: Byte, low: nat): string
    requires low < 16
  {
    [Symbol(x / 4), Symbol(x % 4 * 16 + low), '=', '=']
  }

  function TwoBytes(x: Byte, y: Byte, low: nat): string
    requires low < 4
  {
    [Symbol(x / 4), Symbol(x % 4 * 16 + y / 16), Symbol(y % 16 * 4 + low), '=']
  }

  function ThreeBytes(x: Byte, y: Byte, z: Byte): string {
    [Symbol(x / 4), Symbol(x % 4 * 16 + y / 16), Symbol(y % 16 * 4 + z / 64), Symbol(z % 64)]
  }

  function Encode(bytes: seq<Byte>, low: nat): string
    requires HasLow(bytes, low)
  {
    if bytes == [] then ""
    else if |bytes| == 1 then OneByte(bytes[0], low)
    else if |bytes| == 2 then TwoBytes(bytes[0], bytes[1], low)
    else ThreeBytes(bytes[0], bytes[1], bytes[2]) + Encode(bytes[3..], low)
  }

  /** Groups of four symbols, the last of which may end in one or two equals signs. */
  predicate IsPadded(s: string) {
    && |s| % 4 == 0
    && (forall i :: 0 <= i < |s| - 2 ==> IsBase64(s[i]))
    && (s != "" ==>
          var c, d := s[|s| - 2], s[|s| - 1];
          (IsBase64(c) && (IsBase64(d) || d == '=')) || (c == '=' && d == '='))
  }

  lemma EqualsIsNoSymbol()
    ensures !IsBase64('=')
  {
  }

  lemma PaddedBehind(g: string, rest: string)
    requires |g| == 4 && (forall i :: 0 <= i < 4 ==> IsBase64(g[i])) && IsPadded(rest)
    ensures IsPadded(g + rest) && |g + rest| == 4 + |rest|
  {
    hide IsBase64;
  }

  /** The length of a text, and how it ends. */
  predicate EndsLike(s: string, n: nat) {
    && |s| == (n + 2) / 3 * 4
    && (s != "" ==> (s[|s| - 1] == '=' <==> n % 3 != 0) && (s[|s| - 2] == '=' <==> n % 3 == 1))
  }

  lemma EndsBehind(g: string, rest: string, n: nat)
    requires |g| == 4 && g[2] != '=' && g[3] != '=' && EndsLike(rest, n)
    ensures EndsLike(g + rest, n + 3)
  {
    assert (n + 3 + 2) / 3 == (n + 2) / 3 + 1;
    assert rest == "" ==> n == 0;
  }

  lemma {:induction false} EncodingIsPadded(bytes: seq<Byte>, low: nat)
    requires HasLow(bytes, low)
    ensures IsPadded(Encode(bytes, low)) && EndsLike(Encode(bytes, low), |bytes|)
  {
    hide OneByte;
    hide TwoBytes;
    hide ThreeBytes;
    hide IsBase64;
    EqualsIsNoSymbol();
    if |bytes| == 1 {
      GroupShapes(bytes[0], 0, 0, low);
    } else if |bytes| == 2 {
      GroupShapes(bytes[0], bytes[1], 0, low);
    } else if |bytes| >= 3 {
      GroupShapes(bytes[0], bytes[1], bytes[2], 0);
      EncodingIsPadded(bytes[3..], low);
      hide IsPadded;
      hide EndsLike;
      var g, rest := ThreeBytes(bytes[0], bytes[1], bytes[2]), Encode(bytes[3..], low);
      PaddedBehind(g, rest);
      EndsBehind(g, rest, |bytes| - 3);
    }
  }

  lemma GroupShapes(x: Byte, y: Byte, z: Byte, low: nat)
    ensures low < 16 ==> var s := OneByte(x, low); |s| == 4 && IsBase64(s[0]) && IsBase64(s[1]) && s[2] == '=' && s[3] == '='
    ensures low < 4 ==> var s := TwoBytes(x, y, low); |s| == 4 && IsBase64(s[0]) && IsBase64(s[1]) && IsBase64(s[2]) && s[3] == '='
    ensures var s := ThreeBytes(x, y, z); |s| == 4 && forall i :: 0 <= i < 4 ==> IsBase64(s[i])
  {
    hide Symbol;
    hide IsBase64;
  }

  /** Four symbols are three bytes. */
  lemma Regroup(a: nat, b: nat, c: nat, d: nat)
    requires a < 64 && b < 64 && c < 64 && d < 64
    ensures var x, y, z := a * 4 + b / 16, b % 16 * 16 + c / 4, c % 4 * 64 + d;
            && x < 256 && y < 256 && z < 256
            && x / 4 == a && x % 4 * 16 + y / 16 == b && y % 16 * 4 + z / 64 == c && z % 64 == d
            && x % 4 * 16 + b % 16 == b && y % 16 * 4 + c % 4 == c
  {
  }

  /** One group, whole or padded. */
  lemma EncodeGroups(x: Byte, y: Byte, z: Byte, rest: seq<Byte>, low: nat)
    ensures HasLow([], 0) && Encode([], 0) == ""
    ensures low < 16 ==> HasLow([x], low) && Encode([x], low) == OneByte(x, low)
    ensures low < 4 ==> HasLow([x, y], low) && Encode([x, y], low) == TwoBytes(x, y, low)
    ensures HasLow(rest, low) ==>
              HasLow([x, y, z] + rest, low) && Encode([x, y, z] + rest, low) == ThreeBytes(x, y, z) + Encode(rest, low)
  {
    hide OneByte;
    hide TwoBytes;
    hide ThreeBytes;
    assert ([x, y, z] + rest)[3..] == rest;
  }

  lemma {:induction false} PaddedIsEncoding(s: string) returns (bytes: seq<Byte>, low: nat)
    requires IsPadded(s)
    ensures HasLow(bytes, low) && Encode(bytes, low) == s
    decreases |s|
  {
    hide Symbol;
    hide Code;
    hide IsBase64;
    hide Encode;
    hide HasLow;
    EqualsIsNoSymbol();
    if s == "" {
      EncodeGroups(0, 0, 0, [], 0);
      return [], 0;
    }
    var a, b := Code(s[0]), Code(s[1]);
    if |s| == 4 && s[2] == '=' {
      Regroup(a, b, 0, 0);
      EncodeGroups(a * 4 + b / 16, 0, 0, [], b % 16);
      bytes, low := [a * 4 + b / 16], b % 16;
    } else if |s| == 4 && s[3] == '=' {
      var c := Code(s[2]);
      Regroup(a, b, c, 0);
      EncodeGroups(a * 4 + b / 16, b % 16 * 16 + c / 4, 0, [], c % 4);
      bytes, low := [a * 4 + b / 16, b % 16 * 16 + c / 4], c % 4;
    } else {
      bytes, low := GroupIsEncoding(s);
    }
  }

  lemma {:induction false} GroupIsEncoding(s: string) returns (bytes: seq<Byte>, low: nat)
    requires IsPadded(s) && s != "" && (|s| == 4 ==> s[3] != '=')
    ensures HasLow(bytes, low) && Encode(bytes, low) == s
    decreases |s|, 0
  {
    hide Symbol;
    hide Code;
    hide IsBase64;
    hide Encode;
    hide HasLow;
    EqualsIsNoSymbol();
    var a, b, c, d := Code(s[0]), Code(s[1]), Code(s[2]), Code(s[3]);
    Regroup(a, b, c, d);
    var rest, l := PaddedIsEncoding(s[4..]);
    EncodeGroups(a * 4 + b / 16, b % 16 * 16 + c / 4, c % 4 * 64 + d, rest, l);
    bytes, low := [a * 4 + b / 16, b % 16 * 16 + c / 4, c % 4 * 64 + d] + rest, l;
    assert s == [s[0], s[1], s[2], s[3]] + s[4..];
  }

  lemma KeyIsPadded(key: string)
    ensures IsValidKey(key) <==> |key| == 44 && IsPadded(key)
  {
    hide IsBase64;
  }

  /** The validator takes exactly the base64 texts of 31, 32 or 33 bytes, whatever the unused bits
      of their last symbol. */
  lemma KeysAreEncodings(key: string)
    ensures IsValidKey(key) <==>
              exists bytes: seq<Byte>, low: nat ::
                31 <= |bytes| <= 33 && HasLow(bytes, low) && key == Encode(bytes, low)
  {
    hide IsValidKey;
    hide IsPadded;
    hide HasLow;
    hide Encode;
    KeyIsPadded(key);
    if IsValidKey(key) {
      var bytes, low := PaddedIsEncoding(key);
      EncodingIsPadded(bytes, low);
    }
    if bytes: seq<Byte>, low: nat :| 31 <= |bytes| <= 33 && HasLow(bytes, low) && key == Encode(bytes, low) {
      EncodingIsPadded(bytes, low);
    }
  }

  /** A WireGuard key has 32 bytes: what is accepted has, exactly if the text ends in just one
      equals sign. */
  lemma KeyHas32BytesExactlyWhen(key: string, bytes: seq<Byte>, low: nat)
    requires IsValidKey(key) && HasLow(bytes, low) && key == Encode(bytes, low)
    ensures |bytes| == 32 <==> key[43] == '=' && key[42] != '='
  {
    EncodingIsPadded(bytes, low);
  }

  /** One that has not. */
  lemma LongKey() returns (key: string, bytes: seq<Byte>)
    ensures IsValidKey(key) && |bytes| == 33 && key == Encode(bytes, 0)
  {
    bytes := seq(33, _ => 0);
    key := Encode(bytes, 0);
    EncodingIsPadded(bytes, 0);
    KeysAreEncodings(key);
  }
}
