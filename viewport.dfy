/** The viewport state of the text area: four `u16` values (width, height,
    scroll row, scroll column) packed into one 64-bit word, so that a reader
    always sees the four of them from the same render pass.  The word is
    modelled as an integer below 2^64; a right shift by `k` bits is a
    division by 2^k, and the bitwise or of fields that do not overlap is
    their sum. */
module ViewportState {
  import opened Ints

  const SHIFT_16: int := 0x1_0000
  const SHIFT_32: int := 0x1_0000_0000
  const SHIFT_48: int := 0x1_0000_0000_0000

  /** The word `store` writes: width in bits 48-63, height in bits 32-47,
      row in bits 16-31 and column in bits 0-15. */
  function Pack(row: U16, col: U16, width: U16, height: U16): U64 {
    width * SHIFT_48 + height * SHIFT_32 + row * SHIFT_16 + col
  }

  /** The decoding done by `rect`: `(u >> k) as u16` for k = 16, 0, 48, 32,
      in the order (row, col, width, height). */
  function Unpack(u: U64): (U16, U16, U16, U16) {
    (AsU16(u / SHIFT_16), AsU16(u), AsU16(u / SHIFT_48), AsU16(u / SHIFT_32))
  }

  /** Decoding a packed word gives back exactly the four values packed, for
      every quadruple of `u16` values. */
  lemma PackRoundTrip(row: U16, col: U16, width: U16, height: U16)
    ensures Unpack(Pack(row, col, width, height)) == (row, col, width, height)
  {
    var m := U16_MODULUS;
    DivModOf((width * m + height) * m + row, col, m);
    DivModOf(width * m + height, row, m);
    DivModOf(width * m + height, row * m + col, m * m);
    DivModOf(width, height, m);
    DivModOf(width, (height * m + row) * m + col, m * m * m);
  }

  /** Every 64-bit word is the packing of the four values it decodes to: the
      encoding loses nothing and admits no other words. */
  lemma UnpackRoundTrip(u: U64)
    ensures var r := Unpack(u); Pack(r.0, r.1, r.2, r.3) == u
  {
    var m := U16_MODULUS;
    var q1, q2, q3 := u / m, u / (m * m), u / (m * m * m);
    DivDiv(u, m);
    DivDiv(u, m * m);
    assert q3 < m;
    assert u == q1 * m + u % m;
    assert q1 == q2 * m + q1 % m;
    assert q2 == q3 * m + q2 % m;
  }

  /** The inclusive end `start.saturating_add(len).saturating_sub(1)`,
      raised to `start` when that falls below it.  It is the last covered
      unit when nothing saturates, `start` itself for an empty extent, and
      at most 65534 (or 65535 when `start` is) when the sum saturates. */
  function InclusiveEnd(start: U16, len: U16): (e: U16)
    ensures e >= start
    ensures len == 0 ==> e == start
    ensures len >= 1 && start + len <= MAX_U16 ==> e == start + len - 1
    ensures start + len > MAX_U16 ==> e == Max(start, MAX_U16 - 1)
  {
    Max(start, SaturatingSub(SaturatingAdd(start, len), 1))
  }

  /** The nested `apply_scroll` of `scroll`: a saturating move of `pos` by
      a signed `delta`.  The result is `pos + delta` clamped to the range of
      a `u16`.  Negating `i16::MIN` overflows, so that delta is excluded. */
  function ApplyScroll(pos: U16, delta: I16): (r: U16)
    requires delta != -0x8000
    ensures r == Clamp(pos + delta)
    ensures delta < 0 && pos + delta < 0 ==> r == 0
    ensures delta > 0 && pos + delta > MAX_U16 ==> r == MAX_U16
  {
    if delta >= 0 then SaturatingAdd(pos, delta) else SaturatingSub(pos, -delta)
  }

  /** `u & 0xffff_ffff_0000_0000`: the word with row and column cleared
      and width and height kept. */
  function HighHalf(u: U64): (h: U64)
    ensures h == Pack(0, 0, Unpack(u).2, Unpack(u).3)
  {
    var m := U16_MODULUS;
    DivDiv(u, m * m);
    assert u / (m * m) == (u / (m * m * m)) * m + (u / (m * m)) % m;
    (u / SHIFT_32) * SHIFT_32
  }

  class Viewport {
    /** The packed word (an `AtomicU64` in the source, read and written
        here as a plain field). */
    var word: U64

    /** `Viewport::default()`: everything zero. */
    constructor ()
      ensures Rect() == (0, 0, 0, 0)
    {
      word := 0;
    }

    /** A new viewport holding the same word. */
    method Clone() returns (v: Viewport)
      ensures fresh(v)
      ensures v.word == word && v.Rect() == Rect()
    {
      v := new Viewport();
      v.word := word;
    }

    /** The stored scroll offset `(row, col)`: the first two components of
        `Rect()`. */
    function ScrollTop(): (r: (U16, U16))
      reads this
      ensures r == (Rect().0, Rect().1)
    {
      var (row, col, _, _) := Unpack(word);
      (row, col)
    }

    /** The stored `(row, col, width, height)`. */
    function Rect(): (r: (U16, U16, U16, U16))
      reads this
      ensures Pack(r.0, r.1, r.2, r.3) == word
    {
      UnpackRoundTrip(word);
      Unpack(word)
    }

    /** The inclusive bounds `(top row, left col, bottom row, right col)` of
        the visible window; the bottom and right bounds never fall below the
        top and left ones, even for an empty window. */
    function Position(): (r: (U16, U16, U16, U16))
      reads this
      ensures r.0 == Rect().0 && r.1 == Rect().1
      ensures r.2 == InclusiveEnd(Rect().0, Rect().3)
      ensures r.3 == InclusiveEnd(Rect().1, Rect().2)
      ensures r.2 >= r.0 && r.3 >= r.1
    {
      var (rowTop, colTop, width, height) := Rect();
      (rowTop, colTop, InclusiveEnd(rowTop, height), InclusiveEnd(colTop, width))
    }

    /** Overwrite all four values at once. */
    method Store(row: U16, col: U16, width: U16, height: U16)
      modifies this
      ensures Rect() == (row, col, width, height)
      ensures ScrollTop() == (row, col)
    {
      word := Pack(row, col, width, height);
      PackRoundTrip(row, col, width, height);
    }

    /** Move the scroll offset by signed deltas with saturation; the width
        and the height are left as they were. */
    method Scroll(rows: I16, cols: I16)
      requires rows != -0x8000 && cols != -0x8000
      modifies this
      ensures Rect().0 == Clamp(old(Rect().0) + rows)
      ensures Rect().1 == Clamp(old(Rect().1) + cols)
      ensures Rect().2 == old(Rect().2) && Rect().3 == old(Rect().3)
    {
      var u := word;
      var row := ApplyScroll(AsU16(u / SHIFT_16), rows);
      var col := ApplyScroll(AsU16(u), cols);
      word := HighHalf(u) + row * SHIFT_16 + col;
      PackRoundTrip(row, col, Unpack(u).2, Unpack(u).3);
    }
  }

  /** Storing and reading back returns exactly the stored values, for every
      quadruple, and a clone reads the same. */
  method StoreThenRead(row: U16, col: U16, width: U16, height: U16)
    returns (rect: (U16, U16, U16, U16), top: (U16, U16), copy: (U16, U16, U16, U16))
    ensures rect == (row, col, width, height)
    ensures top == (row, col)
    ensures copy == rect
  {
    var v := new Viewport();
    v.Store(row, col, width, height);
    rect := v.Rect();
    top := v.ScrollTop();
    var w := v.Clone();
    copy := w.Rect();
  }
}
