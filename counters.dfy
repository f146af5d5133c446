/** Running totals of u64 counters, as the disk and network collectors keep
    them: `saturating_add` from zero, so a total sticks at 2^64 - 1 instead
    of wrapping, and plain `+=`, which wraps in a release build. */
module Counters {
  import opened Bytes

  /** The exact sum of the counters, in unbounded integers. */
  function Sum(xs: seq<u64>): nat
  {
    if xs == [] then 0 else Sum(xs[..|xs| - 1]) + xs[|xs| - 1]
  }

  /** `fold(0, u64::saturating_add)` over the counters, in order. */
  function SaturatingSum(xs: seq<u64>): u64
  {
    if xs == [] then 0 else SatAdd(SaturatingSum(xs[..|xs| - 1]), xs[|xs| - 1])
  }

  /** Adding with saturation step by step is the exact sum capped at 2^64 - 1:
      the order of the counters does not matter and nothing wraps. */
  lemma {:induction false} SaturatingSumIsCappedSum(xs: seq<u64>)
    ensures SaturatingSum(xs) == Min(Sum(xs), U64_MAX)
  {
    if xs != [] {
      SaturatingSumIsCappedSum(xs[..|xs| - 1]);
    }
  }

  /** `fold(0, u64::wrapping_add)`: the `+=` of a release build. */
  function WrappingSum(xs: seq<int>): u64
  {
    if xs == [] then 0 else WrapU64(WrappingSum(xs[..|xs| - 1]) + xs[|xs| - 1])
  }

  /** The exact sum of signed terms. */
  function IntSum(xs: seq<int>): int
  {
    if xs == [] then 0 else IntSum(xs[..|xs| - 1]) + xs[|xs| - 1]
  }

  lemma WrapAdd(a: int, b: int)
    ensures WrapU64(WrapU64(a) + b) == WrapU64(a + b)
  {
    var m := 0x1_0000_0000_0000_0000;
    assert a == (a / m) * m + WrapU64(a);
    assert WrapU64(a) + b == (a + b) - (a / m) * m;
    ModShift(a + b, a / m, m);
  }

  lemma ModShift(x: int, k: int, m: int)
    requires m > 0
    ensures (x - k * m) % m == x % m
  {
    var y := x - k * m;
    assert y / m * m + y % m == (x / m - k) * m + x % m;
    assert (y / m - x / m + k) * m == x % m - y % m;
    MulMono(y / m - x / m + k, m);
  }

  /** Wrapping addition step by step is the exact sum reduced modulo 2^64. */
  lemma {:induction false} WrappingSumIsReducedSum(xs: seq<int>)
    ensures WrappingSum(xs) == WrapU64(IntSum(xs))
  {
    if xs != [] {
      var init := xs[..|xs| - 1];
      WrappingSumIsReducedSum(init);
      WrapAdd(IntSum(init), xs[|xs| - 1]);
    }
  }
}
