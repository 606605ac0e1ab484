/** Fixed-width integers of the token contract and Rust's checked arithmetic on them.

    Dafny's `int` is unbounded; the contract stores every amount as a Rust `i128` and the
    decimals as a `u32`, so both ranges are written out as subset types, and the
    `checked_add` / `checked_sub` calls the contract relies on become partial operations
    returning `None` exactly when the mathematical result leaves the `i128` range.
 */
module Int128 {

  import opened Wrappers

  const MinI128: int := -0x8000_0000_0000_0000_0000_0000_0000_0000
  const MaxI128: int := 0x7fff_ffff_ffff_ffff_ffff_ffff_ffff_ffff
  const MaxU32: int := 0xffff_ffff

  /** Rust `i128`. */
  type I128 = x: int | InI128(x)

  /** Rust `u32`. */
  type U32 = x: int | 0 <= x <= MaxU32

  predicate InI128(x: int) {
    MinI128 <= x <= MaxI128
  }

  /** `i128::checked_add`: the sum when it is representable, `None` on overflow. */
  function CheckedAdd(a: I128, b: I128): (r: Option<I128>)
    ensures r.Some? <==> InI128(a + b)
    ensures r.Some? ==> r.value - b == a
  {
    if InI128(a + b) then Some(a + b) else None
  }

  /** `i128::checked_sub`: the difference when it is representable, `None` on overflow. */
  function CheckedSub(a: I128, b: I128): (r: Option<I128>)
    ensures r.Some? <==> InI128(a - b)
    ensures r.Some? ==> r.value + b == a
  {
    if InI128(a - b) then Some(a - b) else None
  }

  /** Subtracting what was just added gives the original value back, and never overflows. */
  lemma CheckedAddSubRoundTrip(a: I128, b: I128)
    requires CheckedAdd(a, b).Some?
    ensures CheckedSub(CheckedAdd(a, b).value, b) == Some(a)
  {
  }

  /** A non-negative operand can only push a sum past the top of the range, never the bottom,
      and subtracting a positive amount from a value at least as large never overflows. */
  lemma CheckedNonNegative(a: I128, b: I128)
    requires 0 <= b
    ensures CheckedAdd(a, b).None? <==> a + b > MaxI128
    ensures 0 <= b <= a ==> CheckedSub(a, b) == Some(a - b)
  {
    assert InI128(a) && InI128(b);
  }
}
