/** The scroll-resolution rules of the text area: where the top of the
    window goes so that the cursor stays visible, along one axis without
    wrapping and along the row axis when long lines wrap onto several
    screen rows.  Every `+` and `-` here is a plain `u16` operation in the
    source, which panics on overflow in a debug build; each function
    requires exactly that none of its additions overflows. */
module Scroll {
  import opened Ints

  // ---------------------------------------------------------------------
  // One axis, no wrapping
  // ---------------------------------------------------------------------

  /** `next_scroll_top` evaluates `prev_top + len` whenever the cursor is
      not above the window, and `cursor + 1` when the cursor is below it. */
  predicate NextScrollTopDefined(prevTop: U16, cursor: U16, len: U16) {
    cursor < prevTop ||
    (prevTop + len <= MAX_U16 && (prevTop + len <= cursor ==> cursor < MAX_U16))
  }

  /** `next_scroll_top`: the new top of a window of `len` units along one
      axis, moving as little as needed to show `cursor`.  With a non-empty
      window the cursor ends up inside it, and a window that already shows
      the cursor stays where it was. */
  function NextScrollTop(prevTop: U16, cursor: U16, len: U16): (top: U16)
    requires NextScrollTopDefined(prevTop, cursor, len)
    ensures len >= 1 ==> top <= cursor < top + len
    ensures prevTop <= cursor < prevTop + len ==> top == prevTop
    ensures cursor < prevTop ==> top == cursor
    ensures prevTop + len <= cursor ==> top == cursor + 1 - len
    ensures top <= cursor + 1
  {
    if cursor < prevTop then
      cursor
    else if prevTop + len <= cursor then
      cursor + 1 - len
    else
      prevTop
  }

  /** No top that shows the cursor is closer to the previous top than the
      one chosen: the window moves by the least possible amount. */
  lemma NextScrollTopMinimal(prevTop: U16, cursor: U16, len: U16, other: int)
    requires NextScrollTopDefined(prevTop, cursor, len)
    requires other <= cursor < other + len
    ensures Dist(NextScrollTop(prevTop, cursor, len), prevTop) <= Dist(other, prevTop)
  {
  }

  function Dist(a: int, b: int): nat {
    if a <= b then b - a else a - b
  }

  /** Applying the rule a second time with the same cursor and a
      non-empty window changes nothing; `render` relies on this when it
      applies it twice. */
  lemma NextScrollTopIdempotent(prevTop: U16, cursor: U16, len: U16)
    requires NextScrollTopDefined(prevTop, cursor, len)
    requires NextScrollTopDefined(NextScrollTop(prevTop, cursor, len), cursor, len)
    ensures len >= 1 ==>
      NextScrollTop(NextScrollTop(prevTop, cursor, len), cursor, len) == NextScrollTop(prevTop, cursor, len)
  {
  }

  // ---------------------------------------------------------------------
  // The column axis with a line-number gutter
  // ---------------------------------------------------------------------

  /** Width of the line-number gutter: the digit count of the number of
      lines plus two columns of margin (`num_digits(n) as u16 + 2`). */
  function GutterWidth(digits: nat): int {
    AsU16(digits) + 2
  }

  /** The additions of `scroll_top_col` stay inside `u16`. */
  predicate GutterCursorDefined(cursor: U16, lineNumbers: bool, digits: nat) {
    lineNumbers ==>
      GutterWidth(digits) <= MAX_U16 &&
      (if cursor <= GutterWidth(digits) then 2 * cursor else cursor + GutterWidth(digits)) <= MAX_U16
  }

  /** The cursor column shifted for the gutter.  Without line numbers it is
      the cursor itself.  With them it is the cursor plus the gutter width
      once the cursor is past the gutter, and twice the cursor before that;
      the two agree where they meet, so the shifted column never jumps and
      strictly grows with the cursor. */
  function GutterCursor(cursor: U16, lineNumbers: bool, digits: nat): (c: U16)
    requires GutterCursorDefined(cursor, lineNumbers, digits)
    ensures !lineNumbers ==> c == cursor
    ensures lineNumbers && cursor <= GutterWidth(digits) ==> c == 2 * cursor
    ensures lineNumbers && cursor >= GutterWidth(digits) ==> c == cursor + GutterWidth(digits)
    ensures lineNumbers ==> cursor <= c <= cursor + GutterWidth(digits)
  {
    var lnum := GutterWidth(digits);
    if lineNumbers then
      if cursor <= lnum then cursor * 2 else cursor + lnum
    else
      cursor
  }

  /** The shifted column grows strictly with the cursor column. */
  lemma GutterCursorIncreasing(a: U16, b: U16, lineNumbers: bool, digits: nat)
    requires a < b
    requires GutterCursorDefined(a, lineNumbers, digits)
    requires GutterCursorDefined(b, lineNumbers, digits)
    ensures GutterCursor(a, lineNumbers, digits) < GutterCursor(b, lineNumbers, digits)
  {
  }

  /** `scroll_top_col`: the column rule applied to the shifted cursor, so
      the shifted column is visible in a window of positive width, and a
      window that already shows it keeps its left column. */
  function ScrollTopCol(prevTop: U16, cursor: U16, width: U16, lineNumbers: bool, digits: nat): (top: U16)
    requires GutterCursorDefined(cursor, lineNumbers, digits)
    requires NextScrollTopDefined(prevTop, GutterCursor(cursor, lineNumbers, digits), width)
    ensures width >= 1 ==> top <= GutterCursor(cursor, lineNumbers, digits) < top + width
    ensures prevTop <= GutterCursor(cursor, lineNumbers, digits) < prevTop + width ==> top == prevTop
    ensures !lineNumbers ==> top == NextScrollTop(prevTop, cursor, width)
  {
    NextScrollTop(prevTop, GutterCursor(cursor, lineNumbers, digits), width)
  }

  /** Worked cases of the unwrapped rule: a visible cursor keeps the top,
      a cursor below the window becomes its last unit, a cursor above it
      becomes its first. */
  lemma NextScrollTopExamples()
    ensures NextScrollTop(0, 5, 10) == 0
    ensures NextScrollTop(0, 12, 10) == 3
    ensures NextScrollTop(5, 2, 10) == 2
  {
  }

  // ---------------------------------------------------------------------
  // Rows, with wrapping
  // ---------------------------------------------------------------------

  /** `rows[lo..hi].iter().sum()`: the screen rows taken by the lines from
      `lo` up to, not including, `hi`. */
  function RowsBetween(rows: seq<U16>, lo: nat, hi: nat): nat
    requires lo <= hi <= |rows|
    decreases hi - lo
  {
    if lo == hi then 0 else RowsBetween(rows, lo, hi - 1) + rows[hi - 1]
  }

  /** The screen rows taken by the lines from `lo` through `last`. */
  function RowsThrough(rows: seq<U16>, lo: nat, last: nat): nat
    requires lo <= last + 1 <= |rows|
  {
    RowsBetween(rows, lo, last + 1)
  }

  /** Splitting a range of lines at `mid` splits its rows. */
  lemma {:induction false} RowsBetweenSplit(rows: seq<U16>, lo: nat, mid: nat, hi: nat)
    requires lo <= mid <= hi <= |rows|
    ensures RowsBetween(rows, lo, hi) == RowsBetween(rows, lo, mid) + RowsBetween(rows, mid, hi)
    decreases hi - mid
  {
    if mid < hi {
      RowsBetweenSplit(rows, lo, mid, hi - 1);
    }
  }

  /** The scan over `rows[lo..hi]` with the accumulator starting at `acc`:
      entry `i` is `acc` plus the rows of the first `i + 1` lines. */
  function Scan(rows: seq<U16>, lo: nat, hi: nat, acc: nat): (sums: seq<nat>)
    requires lo <= hi <= |rows|
    ensures |sums| == hi - lo
    ensures forall i :: 0 <= i < hi - lo ==> sums[i] == acc + RowsBetween(rows, lo, lo + i + 1)
    ensures acc == 0 ==> ScanOf(sums, rows, lo, hi)
    decreases hi - lo
  {
    if lo == hi then
      []
    else
      FirstLineSplit(rows, lo, hi);
      [acc + rows[lo]] + Scan(rows, lo + 1, hi, acc + rows[lo])
  }

  lemma FirstLineSplit(rows: seq<U16>, lo: nat, hi: nat)
    requires lo < hi <= |rows|
    ensures forall j :: lo < j <= hi ==> RowsBetween(rows, lo, j) == rows[lo] + RowsBetween(rows, lo + 1, j)
  {
    forall j | lo < j <= hi
      ensures RowsBetween(rows, lo, j) == rows[lo] + RowsBetween(rows, lo + 1, j)
    {
      RowsBetweenSplit(rows, lo, lo + 1, j);
    }
  }

  /** `sums` is the scan of the lines from `lo` up to `hi`: entry `i`
      holds the rows of the first `i + 1` of them. */
  predicate ScanOf(sums: seq<nat>, rows: seq<U16>, lo: nat, hi: nat)
    requires lo <= hi <= |rows|
  {
    |sums| == hi - lo &&
    forall i :: 0 <= i < hi - lo ==> sums[i] == RowsBetween(rows, lo, lo + i + 1)
  }

  /** `position(|sum| sum >= bound)`: the first index whose entry reaches
      `bound`, or `None` when no entry does. */
  function Position(sums: seq<nat>, bound: int): (r: Option<nat>)
    ensures r.Some? ==> r.value < |sums| && sums[r.value] >= bound
    ensures r.Some? ==> forall j :: 0 <= j < r.value ==> sums[j] < bound
    ensures r.None? <==> forall j :: 0 <= j < |sums| ==> sums[j] < bound
  {
    if sums == [] then
      None
    else if sums[0] >= bound then
      Some(0)
    else
      match Position(sums[1..], bound)
      case None => None
      case Some(k) => Some(k + 1)
  }

  /** Every step of `next_scroll_row_wrapped` stays inside `u16` and inside
      the slice: the cursor's line exists and spans at least one row, the
      rows from the top line through the cursor's line fit a `u16`, and the
      top can still advance by one line when it has to. */
  predicate WrappedDefined(prevTop: U16, cursorRow: U16, height: U16, rows: seq<U16>) {
    cursorRow < prevTop ||
    (cursorRow < |rows| && rows[cursorRow] >= 1 &&
     RowsBetween(rows, prevTop, cursorRow) + rows[cursorRow] <= MAX_U16 &&
     !(cursorRow == prevTop == MAX_U16 && rows[cursorRow] > height))
  }

  /** `next_scroll_row_wrapped`: the new top row when each line `i` takes
      `rows[i]` screen rows.  A cursor above the window becomes the top; a
      cursor at or below it never ends up above the new top. */
  function NextScrollRowWrapped(prevTop: U16, cursorRow: U16, height: U16, rows: seq<U16>): (top: U16)
    requires WrappedDefined(prevTop, cursorRow, height, rows)
    ensures cursorRow < prevTop ==> top == cursorRow
    ensures cursorRow >= prevTop ==> prevTop <= top <= cursorRow
  {
    if cursorRow < prevTop then
      cursorRow
    else
      var rowsFromTopToCursor := RowsBetween(rows, prevTop, cursorRow) + 1;
      var cursorRowWraps := rows[cursorRow] - 1;
      var cursorLineOnScreen := rowsFromTopToCursor + cursorRowWraps <= height;
      var rowsToMove := SaturatingSub(rowsFromTopToCursor + cursorRowWraps, height);
      if !cursorLineOnScreen then
        var linesToMove := Position(Scan(rows, prevTop, cursorRow, 0), rowsToMove).UnwrapOr(0);
        var linesToMove := linesToMove + 1;
        Min(prevTop + linesToMove, cursorRow)
      else
        prevTop
  }

  /** The `+ 1` and the `- 1` cancel: the rows counted against the height
      are those of the lines from the top line through the cursor's line. */
  lemma WrappedRowsCounted(prevTop: U16, cursorRow: U16, rows: seq<U16>)
    requires prevTop <= cursorRow < |rows| && rows[cursorRow] >= 1
    ensures (RowsBetween(rows, prevTop, cursorRow) + 1) + (rows[cursorRow] - 1)
         == RowsThrough(rows, prevTop, cursorRow)
  {
  }

  /** With the cursor strictly below the top line, the top stays exactly
      when the lines from the top through the cursor's line fit the height.
      With the cursor on the top line, the top always stays. */
  lemma WrappedStays(prevTop: U16, cursorRow: U16, height: U16, rows: seq<U16>)
    requires WrappedDefined(prevTop, cursorRow, height, rows)
    requires prevTop <= cursorRow
    ensures cursorRow == prevTop ==> NextScrollRowWrapped(prevTop, cursorRow, height, rows) == prevTop
    ensures cursorRow > prevTop ==>
      (NextScrollRowWrapped(prevTop, cursorRow, height, rows) == prevTop
       <==> RowsThrough(rows, prevTop, cursorRow) <= height)
  {
  }

  /** Past the early exit, when the lines through the cursor's line do not
      fit and `position` finds the index `k` in the scan for the overflow,
      the top advances by `k + 1` lines. */
  lemma WrappedAdvance(prevTop: U16, cursorRow: U16, height: U16, rows: seq<U16>, k: nat)
    requires WrappedDefined(prevTop, cursorRow, height, rows)
    requires prevTop <= cursorRow
    requires RowsThrough(rows, prevTop, cursorRow) > height
    requires Position(Scan(rows, prevTop, cursorRow, 0), RowsThrough(rows, prevTop, cursorRow) - height) == Some(k)
    ensures NextScrollRowWrapped(prevTop, cursorRow, height, rows) == prevTop + k + 1
  {
  }

  /** The line just below the one `position` picks leaves no more than the
      height below it. */
  lemma AtFirstReach(prevTop: nat, cursorRow: nat, rows: seq<U16>, sums: seq<nat>, overflow: int, k: nat)
    requires prevTop + k + 1 <= cursorRow < |rows|
    requires ScanOf(sums, rows, prevTop, cursorRow)
    requires Position(sums, overflow) == Some(k)
    ensures RowsThrough(rows, prevTop + k + 1, cursorRow) <= RowsThrough(rows, prevTop, cursorRow) - overflow
  {
    assert sums[k] == RowsBetween(rows, prevTop, prevTop + k + 1);
    RowsBetweenSplit(rows, prevTop, prevTop + k + 1, cursorRow + 1);
  }

  /** A line strictly between the old top and the one `position` picks
      leaves more than the height below it. */
  lemma BeforeFirstReach(prevTop: nat, cursorRow: nat, rows: seq<U16>, sums: seq<nat>, overflow: int, k: nat, t: nat)
    requires prevTop < t <= prevTop + k < cursorRow < |rows|
    requires ScanOf(sums, rows, prevTop, cursorRow)
    requires Position(sums, overflow) == Some(k)
    ensures RowsThrough(rows, t, cursorRow) > RowsThrough(rows, prevTop, cursorRow) - overflow
  {
    assert sums[t - prevTop - 1] == RowsBetween(rows, prevTop, t);
    RowsBetweenSplit(rows, prevTop, t, cursorRow + 1);
  }

  /** When the cursor's line fits the height but the window does not reach
      it, the new top is the first line below the old top from which the
      lines through the cursor's line fit: every line of the window above
      it is given up, none more. */
  lemma WrappedRevealsCursorLine(prevTop: U16, cursorRow: U16, height: U16, rows: seq<U16>)
    requires WrappedDefined(prevTop, cursorRow, height, rows)
    requires prevTop <= cursorRow
    requires RowsThrough(rows, prevTop, cursorRow) > height
    requires rows[cursorRow] <= height
    ensures var top := NextScrollRowWrapped(prevTop, cursorRow, height, rows);
      prevTop < top <= cursorRow &&
      RowsThrough(rows, top, cursorRow) <= height &&
      forall t :: prevTop < t < top ==> RowsThrough(rows, t, cursorRow) > height
  {
    var overflow := RowsThrough(rows, prevTop, cursorRow) - height;
    var sums := Scan(rows, prevTop, cursorRow, 0);
    var k := ScanReaches(prevTop, cursorRow, rows, sums, overflow);
    WrappedAdvance(prevTop, cursorRow, height, rows, k);
    FirstReachIsFirstFit(prevTop, cursorRow, height, rows, sums, overflow, k,
                         NextScrollRowWrapped(prevTop, cursorRow, height, rows));
  }

  /** The scan's last entry counts every line above the cursor's line; when
      only the cursor's line fits, it reaches the overflow and `position`
      finds an index. */
  lemma ScanReaches(prevTop: nat, cursorRow: nat, rows: seq<U16>, sums: seq<nat>, overflow: int)
    returns (k: nat)
    requires prevTop <= cursorRow < |rows|
    requires ScanOf(sums, rows, prevTop, cursorRow)
    requires overflow > 0 && rows[cursorRow] <= RowsThrough(rows, prevTop, cursorRow) - overflow
    ensures Position(sums, overflow) == Some(k) && prevTop + k < cursorRow
  {
    RowsBetweenSplit(rows, prevTop, cursorRow, cursorRow + 1);
    assert sums[cursorRow - prevTop - 1] == RowsBetween(rows, prevTop, cursorRow);
    k := Position(sums, overflow).value;
  }

  /** The line after the one `position` picks is the first from which the
      lines through the cursor's line fit the height. */
  lemma FirstReachIsFirstFit(prevTop: nat, cursorRow: nat, height: nat, rows: seq<U16>,
                             sums: seq<nat>, overflow: int, k: nat, top: nat)
    requires top == prevTop + k + 1 && top <= cursorRow < |rows|
    requires ScanOf(sums, rows, prevTop, cursorRow)
    requires Position(sums, overflow) == Some(k)
    requires overflow == RowsThrough(rows, prevTop, cursorRow) - height
    ensures RowsThrough(rows, top, cursorRow) <= height
    ensures forall t :: prevTop < t < top ==> RowsThrough(rows, t, cursorRow) > height
  {
    AtFirstReach(prevTop, cursorRow, rows, sums, overflow, k);
    forall t | prevTop < t < top
      ensures RowsThrough(rows, t, cursorRow) > height
    {
      BeforeFirstReach(prevTop, cursorRow, rows, sums, overflow, k, t);
    }
  }

  /** Whenever the cursor's line fits the height, the wrapped rule leaves
      the lines from the new top through the cursor's line inside the
      window: the cursor's whole line is on screen. */
  lemma WrappedShowsCursorLine(prevTop: U16, cursorRow: U16, height: U16, rows: seq<U16>)
    requires WrappedDefined(prevTop, cursorRow, height, rows)
    ensures prevTop <= cursorRow ==> cursorRow < |rows|
    ensures prevTop <= cursorRow && rows[cursorRow] <= height ==>
      RowsThrough(rows, NextScrollRowWrapped(prevTop, cursorRow, height, rows), cursorRow) <= height
  {
    if prevTop <= cursorRow && rows[cursorRow] <= height {
      WrappedStays(prevTop, cursorRow, height, rows);
      if cursorRow > prevTop && RowsThrough(rows, prevTop, cursorRow) > height {
        WrappedRevealsCursorLine(prevTop, cursorRow, height, rows);
      }
    }
  }

  /** When the cursor's line alone is taller than the window, no number of
      lines given up is enough, `position` finds nothing, and the top moves
      down by a single line (never past the cursor's line). */
  lemma WrappedTallCursorLine(prevTop: U16, cursorRow: U16, height: U16, rows: seq<U16>)
    requires WrappedDefined(prevTop, cursorRow, height, rows)
    requires prevTop <= cursorRow
    requires rows[cursorRow] > height
    ensures NextScrollRowWrapped(prevTop, cursorRow, height, rows) == Min(prevTop + 1, cursorRow)
  {
    var sums := Scan(rows, prevTop, cursorRow, 0);
    var overflow := RowsThrough(rows, prevTop, cursorRow) - height;
    forall j | 0 <= j < |sums|
      ensures sums[j] < overflow
    {
      RowsBetweenSplit(rows, prevTop, prevTop + j + 1, cursorRow);
    }
  }

  /** Worked cases of the wrapped rule on lines taking 1, 3, 1 and 1 rows in
      a window three rows high: from top 0, a cursor on line 0 keeps the
      top, one on line 1 (four rows through it) moves the top to line 1,
      and one on line 2 (five rows through it) moves it to line 2. */
  lemma WrappedExamples()
    ensures NextScrollRowWrapped(0, 0, 3, [1, 3, 1, 1]) == 0
    ensures NextScrollRowWrapped(0, 1, 3, [1, 3, 1, 1]) == 1
    ensures NextScrollRowWrapped(0, 2, 3, [1, 3, 1, 1]) == 2
  {
  }

  /** A cursor line taller than the window moves the top by one line per
      call, so lines above the cursor's line can still fill the window: on
      lines of 1, 5, 1 and 5 rows in a window three rows high, a cursor on
      line 3 moves the top from line 0 to line 1 only, and lines 1 and 2
      alone take six rows. */
  lemma WrappedTallLineMayHideCursor()
    ensures NextScrollRowWrapped(0, 3, 3, [1, 5, 1, 5]) == 1
    ensures RowsBetween([1, 5, 1, 5], 1, 3) > 3
  {
    WrappedTallCursorLine(0, 3, 3, [1, 5, 1, 5]);
  }
}
