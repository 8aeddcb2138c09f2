/**
 * Bytes and unsigned 64-bit integers, and the little-endian encoding that
 * Rust's `u64::to_le_bytes` performs: byte i of the encoding of x is
 * (x / 256^i) % 256, least significant byte first.
 */
module Bytes {
  type Byte = x: int | 0 <= x < 256

  /** 2^64: every value of a u64 is below it. */
  const U64_LIMIT: nat := 0x1_0000_0000_0000_0000

  type U64 = x: int | 0 <= x < 0x1_0000_0000_0000_0000

  type ByteString = seq<Byte>

  function Pow256(n: nat): (p: nat)
    ensures p > 0
  {
    if n == 0 then 1 else 256 * Pow256(n - 1)
  }

  lemma Pow256Of8()
    ensures Pow256(8) == U64_LIMIT
  {
  }

  /** The n low-order bytes of x, least significant first. */
  function LeBytes(x: nat, n: nat): (r: ByteString)
    ensures |r| == n
  {
    if n == 0 then [] else [x % 256] + LeBytes(x / 256, n - 1)
  }

  /** The number a little-endian byte string denotes. */
  function LeValue(s: ByteString): (v: nat)
    ensures v < Pow256(|s|)
  {
    if s == [] then 0 else s[0] + 256 * LeValue(s[1..])
  }

  lemma {:induction false} LeValueOfLeBytes(x: nat, n: nat)
    requires x < Pow256(n)
    ensures LeValue(LeBytes(x, n)) == x
  {
    if n > 0 {
      var r := LeBytes(x, n);
      assert r[1..] == LeBytes(x / 256, n - 1);
      LeValueOfLeBytes(x / 256, n - 1);
    }
  }

  lemma {:induction false} LeBytesOfLeValue(s: ByteString)
    ensures LeBytes(LeValue(s), |s|) == s
  {
    if s != [] {
      var v := LeValue(s);
      assert v % 256 == s[0] && v / 256 == LeValue(s[1..]);
      LeBytesOfLeValue(s[1..]);
    }
  }

  /** `u64::to_le_bytes`: eight bytes that denote x. */
  function U64ToLe(x: U64): (r: ByteString)
    ensures |r| == 8 && LeValue(r) == x
  {
    Pow256Of8();
    LeValueOfLeBytes(x, 8);
    LeBytes(x, 8)
  }

  /** `u64::from_le_bytes`: the inverse of U64ToLe on eight-byte strings. */
  function LeToU64(s: ByteString): (x: U64)
    requires |s| == 8
    ensures U64ToLe(x) == s
  {
    Pow256Of8();
    LeBytesOfLeValue(s);
    LeValue(s)
  }

  lemma U64ToLeInjective(x: U64, y: U64)
    ensures U64ToLe(x) == U64ToLe(y) <==> x == y
  {
  }
}
