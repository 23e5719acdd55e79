/** Rust's fixed-width integers as bounded subsets of `int`, with the
    overflow-checked arithmetic and the truncating `as` cast the program uses. */
module Ints {
  import opened Outcome

  const U16_LIMIT: int := 0x1_0000
  const U64_LIMIT: int := 0x1_0000_0000_0000_0000
  const U128_LIMIT: int := 0x1_0000_0000_0000_0000_0000_0000_0000_0000
  const I64_MIN: int := -0x8000_0000_0000_0000
  const I64_MAX: int := 0x7fff_ffff_ffff_ffff

  type u8 = x: int | 0 <= x < 0x100
  type u16 = x: int | 0 <= x < 0x1_0000
  type u64 = x: int | 0 <= x < 0x1_0000_0000_0000_0000
  type u128 = x: int | 0 <= x < 0x1_0000_0000_0000_0000_0000_0000_0000_0000
  type i64 = x: int | -0x8000_0000_0000_0000 <= x <= 0x7fff_ffff_ffff_ffff

  predicate InI64(x: int) {
    I64_MIN <= x <= I64_MAX
  }

  /** `a + b` on `u64` with overflow checks: `None` is the panic. */
  function CheckedAddU64(a: u64, b: u64): (r: Option<u64>)
    ensures r.Some? <==> a + b < U64_LIMIT
    ensures r.Some? ==> r.value - b == a
  {
    if a + b < U64_LIMIT then Some(a + b) else None
  }

  /** `a - b` on `u64` with overflow checks: `None` is the panic. */
  function CheckedSubU64(a: u64, b: u64): (r: Option<u64>)
    ensures r.Some? <==> b <= a
    ensures r.Some? ==> r.value + b == a
  {
    if b <= a then Some(a - b) else None
  }

  /** `a - b` on `i64` with overflow checks: `None` is the panic. */
  function CheckedSubI64(a: i64, b: i64): (r: Option<i64>)
    ensures r.Some? <==> InI64(a - b)
    ensures r.Some? ==> r.value + b == a
  {
    if InI64(a - b) then Some(a - b) else None
  }

  /** Rust's `x as u64` on a `u128`: keeps the low 64 bits. */
  function TruncateToU64(x: u128): (r: u64)
    ensures x < U64_LIMIT ==> r == x
    ensures r <= x
    ensures (x - r) % U64_LIMIT == 0
  {
    x % U64_LIMIT
  }

  function Pow256(k: nat): (p: nat)
    ensures p >= 1
  {
    if k == 0 then 1 else 0x100 * Pow256(k - 1)
  }

  /** Sixteen bytes hold exactly the `u128` values. */
  lemma Pow256Sixteen()
    ensures Pow256(16) == U128_LIMIT
  {
    assert Pow256(4) == 0x1_0000_0000;
    assert Pow256(8) == 0x1_0000_0000_0000_0000;
    assert Pow256(12) == 0x1_0000_0000_0000_0000_0000_0000;
  }

  /** The `width`-byte little-endian encoding of `n` (Rust's `to_le_bytes`). */
  function ToLeBytes(n: nat, width: nat): (bs: seq<u8>)
    ensures |bs| == width
  {
    if width == 0 then [] else [n % 0x100] + ToLeBytes(n / 0x100, width - 1)
  }

  /** The number a little-endian byte string denotes. */
  function FromLeBytes(bs: seq<u8>): (n: nat)
    ensures n < Pow256(|bs|)
  {
    if bs == [] then 0 else bs[0] + 0x100 * FromLeBytes(bs[1..])
  }

  /** Decoding an encoding gives back the number, whenever it fits the width. */
  lemma {:induction false} LeBytesRoundTrip(n: nat, width: nat)
    requires n < Pow256(width)
    ensures FromLeBytes(ToLeBytes(n, width)) == n
  {
    if width > 0 {
      var bs := ToLeBytes(n, width);
      assert bs[1..] == ToLeBytes(n / 0x100, width - 1);
      assert n / 0x100 < Pow256(width - 1);
      LeBytesRoundTrip(n / 0x100, width - 1);
    }
  }

  /** Encoding a decoded byte string gives back the bytes. */
  lemma {:induction false} LeBytesRoundTripBytes(bs: seq<u8>)
    ensures ToLeBytes(FromLeBytes(bs), |bs|) == bs
  {
    if bs != [] {
      var n := FromLeBytes(bs);
      assert n % 0x100 == bs[0];
      assert n / 0x100 == FromLeBytes(bs[1..]);
      LeBytesRoundTripBytes(bs[1..]);
    }
  }
}
