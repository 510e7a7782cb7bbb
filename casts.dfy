/** Rust's numeric `as` casts from a float to an integer type: the value is
    truncated toward zero and then saturated to the target type's range. (A
    NaN, which becomes 0, has no counterpart among the reals.) Also f32
    `floor` and `ceil`. */
module Casts {
  import opened Glm

  const U8_MAX: int := 0xff
  const I32_MIN: int := -0x8000_0000
  const I32_MAX: int := 0x7fff_ffff
  const USIZE_MAX: int := 0xffff_ffff_ffff_ffff

  function Floor(x: real): (r: int)
    ensures r as real <= x < r as real + 1.0
  {
    x.Floor
  }

  function Ceil(x: real): (r: int)
    ensures x <= r as real < x + 1.0
  {
    -((-x).Floor)
  }

  /** Truncation toward zero. */
  function Trunc(x: real): (r: int)
    ensures 0.0 <= x ==> r == Floor(x)
    ensures x < 0.0 ==> r == Ceil(x)
    ensures Abs(r as real) <= Abs(x) < Abs(r as real) + 1.0
  {
    if x >= 0.0 then x.Floor else -((-x).Floor)
  }

  function Saturate(lo: int, hi: int, k: int): (r: int)
    requires lo <= hi
    ensures lo <= r <= hi
    ensures lo <= k <= hi ==> r == k
    ensures k < lo ==> r == lo
    ensures hi < k ==> r == hi
  {
    if k < lo then lo else if hi < k then hi else k
  }

  /** `x as u8`. */
  function AsU8(x: real): (r: int)
    ensures 0 <= r <= U8_MAX
    ensures 0.0 <= x < (U8_MAX + 1) as real ==> r == Floor(x)
    ensures x < 1.0 ==> r == 0
    ensures U8_MAX as real <= x ==> r == U8_MAX
  {
    Saturate(0, U8_MAX, Trunc(x))
  }

  /** `x as i32`. */
  function AsI32(x: real): (r: int)
    ensures I32_MIN <= r <= I32_MAX
    ensures I32_MIN as real <= x <= I32_MAX as real ==> r == Trunc(x)
  {
    Saturate(I32_MIN, I32_MAX, Trunc(x))
  }

  /** `x as usize`: every negative value becomes 0. */
  function AsUsize(x: real): (r: nat)
    ensures r <= USIZE_MAX
    ensures 0.0 <= x < (USIZE_MAX + 1) as real ==> r == Floor(x)
    ensures x < 1.0 ==> r == 0
  {
    Saturate(0, USIZE_MAX, Trunc(x))
  }

  /** A cast of a whole number that fits returns that number. */
  lemma AsUsizeOfNat(k: int)
    requires 0 <= k <= USIZE_MAX
    ensures AsUsize(k as real) == k
  {
  }

  /** Casting is monotone: a larger float never casts to a smaller byte. */
  lemma AsU8Monotone(x: real, y: real)
    requires x <= y
    ensures AsU8(x) <= AsU8(y)
  {
    assert Trunc(x) <= Trunc(y) by {
      if 0.0 <= x {
        assert x.Floor <= y.Floor;
      } else if y < 0.0 {
        assert (-y).Floor <= (-x).Floor;
      }
    }
  }
}
