/** Fixed-width unsigned integers of the Rust source, their little-endian byte
    encodings, and the saturating and wrapping arithmetic the source uses on them. */
module Bytes {

  type byte = x: int | 0 <= x < 0x100
  type u16 = x: int | 0 <= x < 0x1_0000
  type u32 = x: int | 0 <= x < 0x1_0000_0000
  type u64 = x: int | 0 <= x < 0x1_0000_0000_0000_0000

  const U64_MAX: u64 := 0xFFFF_FFFF_FFFF_FFFF

  /** `u16::to_le_bytes` */
  function LeU16(n: u16): (bs: seq<byte>)
    ensures |bs| == 2
  {
    [n % 0x100, n / 0x100]
  }

  /** `u32::to_le_bytes` */
  function LeU32(n: u32): (bs: seq<byte>)
    ensures |bs| == 4
  {
    [n % 0x100, (n / 0x100) % 0x100, (n / 0x1_0000) % 0x100, n / 0x100_0000]
  }

  /** The number whose little-endian encoding is `bs` (`from_le_bytes`). */
  function FromLe(bs: seq<byte>): nat
  {
    if bs == [] then 0 else bs[0] + 0x100 * FromLe(bs[1..])
  }

  /** A two-byte little-endian number, digit by digit. */
  lemma FromLe2(bs: seq<byte>)
    requires |bs| == 2
    ensures FromLe(bs) == bs[0] as int + 0x100 * bs[1] as int
  {
    assert bs[1..][1..] == [];
    assert FromLe(bs[1..]) == bs[1];
  }

  /** A four-byte little-endian number, digit by digit. */
  lemma FromLe4(bs: seq<byte>)
    requires |bs| == 4
    ensures FromLe(bs) == bs[0] as int + 0x100 * bs[1] as int + 0x1_0000 * bs[2] as int + 0x100_0000 * bs[3] as int
  {
    assert bs[1..][1..][1..][1..] == [];
    assert FromLe(bs[1..][1..][1..]) == bs[3];
    assert FromLe(bs[1..][1..]) == bs[2] as int + 0x100 * bs[3] as int;
    assert FromLe(bs[1..]) == bs[1] as int + 0x100 * bs[2] as int + 0x1_0000 * bs[3] as int;
  }

  lemma LeU16RoundTrip(n: u16)
    ensures FromLe(LeU16(n)) == n
  {
    var bs := LeU16(n);
    assert bs[1..][1..] == [];
    assert FromLe(bs[1..]) == n / 0x100;
  }

  lemma LeU32RoundTrip(n: u32)
    ensures FromLe(LeU32(n)) == n
  {
    var bs := LeU32(n);
    assert bs[1..][1..][1..][1..] == [];
    assert FromLe(bs[1..][1..][1..]) == n / 0x100_0000;
    assert FromLe(bs[1..][1..]) == n / 0x1_0000;
    assert FromLe(bs[1..]) == n / 0x100;
  }

  /** `x as u16` / `wrapping_*` on u16: reduction modulo 2^16. */
  function WrapU16(x: int): u16
  {
    x % 0x1_0000
  }

  /** `x as u32`: reduction modulo 2^32. */
  function WrapU32(x: int): u32
  {
    x % 0x1_0000_0000
  }

  /** `x as u64` / wrapping u64 arithmetic: reduction modulo 2^64. */
  function WrapU64(x: int): u64
  {
    x % 0x1_0000_0000_0000_0000
  }

  /** `u64::saturating_add` */
  function SatAdd(a: u64, b: u64): u64
  {
    if a + b <= U64_MAX then a + b else U64_MAX
  }

  /** `u64::saturating_sub` */
  function SatSub(a: u64, b: u64): u64
  {
    if a >= b then a - b else 0
  }

  /** `u64::saturating_mul` */
  function SatMul(a: u64, b: u64): u64
  {
    if a * b <= U64_MAX then a * b else U64_MAX
  }

  /** A non-zero integer multiple of `w` is at least `w` away from zero. */
  lemma MulMono(k: int, w: int)
    requires w >= 0
    ensures k >= 1 ==> k * w >= w
    ensures k <= -1 ==> k * w <= -w
  {
    if k >= 1 {
      assert k * w == (k - 1) * w + w;
      assert (k - 1) * w >= 0;
    } else if k <= -1 {
      assert k * w == (k + 1) * w - w;
      assert (k + 1) * w <= 0;
    }
  }

  function Min(a: int, b: int): int
  {
    if a <= b then a else b
  }
}
