/** Rust's fixed-width integers as bounded mathematical integers, with the
    casts and saturating operations the viewport code uses written out. */
module Ints {

  const MAX_U16: int := 0xFFFF
  const U16_MODULUS: int := 0x1_0000

  type U16 = x: int | 0 <= x <= 0xFFFF
  type I16 = x: int | -0x8000 <= x <= 0x7FFF
  type U64 = x: int | 0 <= x < 0x1_0000_0000_0000_0000

  /** Rust's `x as u16`: keep the low 16 bits. */
  function AsU16(x: nat): (r: U16)
    ensures r <= x
    ensures x <= MAX_U16 ==> r == x
    ensures (x - r) % U16_MODULUS == 0
  {
    x % U16_MODULUS
  }

  /** `u16::saturating_add`. */
  function SaturatingAdd(a: U16, b: U16): U16 {
    if a + b > MAX_U16 then MAX_U16 else a + b
  }

  /** `u16::saturating_sub`. */
  function SaturatingSub(a: U16, b: U16): U16 {
    if a < b then 0 else a - b
  }

  function Min(a: int, b: int): int {
    if a <= b then a else b
  }

  function Max(a: int, b: int): int {
    if a >= b then a else b
  }

  /** The value of `x` forced into the range of a `u16`. */
  function Clamp(x: int): U16 {
    if x < 0 then 0 else if x > MAX_U16 then MAX_U16 else x
  }

  /** Euclidean division is unique: `q * m + r` with `0 <= r < m` splits
      back into `q` and `r`. */
  lemma DivModOf(q: int, r: int, m: int)
    requires m > 0 && 0 <= r < m
    ensures (q * m + r) / m == q && (q * m + r) % m == r
  {
    var x := q * m + r;
    var q', r' := x / m, x % m;
    assert x == q' * m + r';
    assert (q - q') * m == r' - r by {
      assert (q - q') * m == q * m - q' * m;
    }
    if q > q' {
      MulAtLeast(q - q', m);
    } else if q < q' {
      MulAtLeast(q' - q, m);
    }
  }

  lemma MulAtLeast(k: int, m: int)
    requires k >= 1 && m > 0
    ensures k * m >= m
  {
    assert k * m == (k - 1) * m + m;
  }

  /** Shifting right by `a` and then by 16 bits is one shift by both. */
  lemma DivDiv(x: nat, a: int)
    requires a > 0
    ensures x / (a * U16_MODULUS) == (x / a) / U16_MODULUS
  {
    var q := x / a;
    var hi, mid, lo := q / U16_MODULUS, q % U16_MODULUS, x % a;
    var big := a * U16_MODULUS;
    assert x == q * a + lo;
    assert q == hi * U16_MODULUS + mid;
    RegroupProduct(hi, mid, a);
    DigitBelow(mid, lo, a);
    DivModOf(hi, mid * a + lo, big);
  }

  /** `(hi * 2^16 + mid) * a` regrouped around `a * 2^16`. */
  lemma RegroupProduct(hi: int, mid: int, a: int)
    ensures (hi * U16_MODULUS + mid) * a == hi * (a * U16_MODULUS) + mid * a
  {
  }

  /** A 16-bit digit of base `a` followed by a remainder below `a` stays
      below `a * 2^16`. */
  lemma DigitBelow(mid: int, lo: int, a: int)
    requires a > 0 && 0 <= mid <= MAX_U16 && 0 <= lo < a
    ensures 0 <= mid * a + lo < a * U16_MODULUS
  {
    if mid < MAX_U16 {
      MulAtLeast(MAX_U16 - mid, a);
      assert (MAX_U16 - mid) * a == MAX_U16 * a - mid * a;
    }
  }

  datatype Option<T> = None | Some(value: T) {
    /** `Option::unwrap_or`. */
    function UnwrapOr(default: T): T {
      match this
      case Some(v) => v
      case None => default
    }
  }
}
