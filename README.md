# Viewport scrolling of tui-textarea, modelled in Dafny

This project models the viewport-scrolling engine of the `tui-textarea`
text-area widget (`src/widget.rs`). Three parts are modelled:

- **The viewport state** (`ViewportState`, file `viewport.dfy`). Four `u16` values are packed
  into one 64-bit word. Width sits in bits 48-63, height in bits 32-47, the
  scroll row in bits 16-31 and the scroll column in bits 0-15. The class
  `Viewport` holds that word as a plain field and has these operations:
  - `ScrollTop`, `Rect` and `Position` read the word.
  - `Store` overwrites it.
  - `Scroll` moves row and column by signed deltas, with saturation.
  - `Clone` copies it.

  The word is an integer below 2^64. A right shift by k bits is a division
  by 2^k, `as u16` keeps the remainder modulo 2^16, and the bitwise or of
  fields that do not overlap is their sum.
- **The scroll rules** (`Scroll`, file `scroll.dfy`). These are pure functions:
  - `NextScrollTop` is minimal-movement visibility along one axis.
  - `GutterCursor` and `ScrollTopCol` shift the column for the
    line-number gutter.
  - `NextScrollRowWrapped` picks the top row when lines wrap. It is built
    from the `scan` (`Scan`) and the `position` search (`Position`)
    that the source uses. A sum over a range of lines is `RowsBetween`.
- **The render pass** (`Render`, file `render.dfy`):
  - `TextWidget` collects the visible lines in a loop.
  - `ResolveOffset` resolves the offsets step by step.
  - `Render` calls it, chooses between the
    placeholder and the buffer slice, and stores the offsets with the
    inner width and height. It is proved against the specification
    function `ResolveScrollTop`.

Every `+` and `-` on `u16` in the source panics on overflow in a debug
build. Each function therefore has a precondition saying that none of its
additions overflows (`NextScrollTopDefined`, `GutterCursorDefined`,
`WrappedDefined`, `ResolveDefined`). That includes `cursor + 1` at line 89,
which overflows when the cursor is at 65535. The `Ints` module, file
`ints.dfy`, holds the `u16`/`i16`/`u64` ranges, Rust's truncating cast and
the saturating operations.

Some results are proved about the code as written:

- The `+ 1` at line 187 and the `- 1` at line 188 cancel. The rows
  compared with the height are exactly those of the lines from the top
  line through the cursor's line (`WrappedRowsCounted`).
- When the cursor's line fits the window, the wrapped rule moves the top
  to the first line from which the lines through the cursor's line fit,
  and no further (`WrappedRevealsCursorLine`).
- When the cursor's line alone is taller than the window, `position`
  finds nothing. The default index 0 then moves the top down by a single
  line (`WrappedTallCursorLine`). That can leave the cursor's line below
  the window (`WrappedTallLineMayHideCursor`).
- Without wrapping, the second application of `next_scroll_top` to the
  rows (line 153) changes nothing when the height is positive. With a
  height of 0 it always moves the top (`ResolveEmptyWindow`). A cursor
  above the old top ends with the top one row past it. Any other cursor
  ends with the top on its own row: the first pass gives cursor + 1, and
  the second pass brings it back.
- In wrap mode the column offset keeps the result of `scroll_top_col`. It
  is not reset to 0, and a non-zero value is still applied as a
  horizontal scroll (lines 233-235).

Some behaviours of the code may be surprising. The model follows the
code in each of them:

- One might expect a window that already shows the cursor's line to keep
  its top. For line row counts `[1, 3, 1, 1]`, top 0, cursor on line 1 and
  height 3, the code gives 1. The lines from the top through the cursor's
  line take 4 rows, one more than the height (`WrappedExamples`).
- One might expect wrapped mode never to scroll columns, since the
  paragraph wraps. The code keeps the gutter-adjusted column and applies
  it as a horizontal scroll.
- One might expect the cursor's first wrapped row to stay visible. The
  code does not guarantee it when the cursor's line is taller than the
  window (see above).
- `Position` at saturation gives 65534 as the bottom bound, unless the top
  is 65535 (`InclusiveEnd`).

## Model

| member | source | states |
|---|---|---|
| `ViewportState.PackRoundTrip` | src/widget.rs:61-66 | decoding the packed word gives back exactly the row, column, width and height stored, for every `u16` quadruple |
| `ViewportState.UnpackRoundTrip` | src/widget.rs:39-46 | every 64-bit word is the packing of the four values `rect` decodes from it, so the encoding loses nothing |
| `ViewportState.InclusiveEnd` | src/widget.rs:50-57 | the saturating inclusive end is never below the start; it equals the start for an empty extent, start + len - 1 without saturation, and max(start, 65534) when the sum saturates |
| `ViewportState.ApplyScroll` | src/widget.rs:69-75 | the saturating move equals pos + delta clamped to [0, 65535]: an underflow clamps to 0 and an overflow to 65535; the delta i16::MIN, whose negation overflows, is excluded |
| `ViewportState.HighHalf` | src/widget.rs:80 | masking with 0xffff_ffff_0000_0000 keeps width and height and clears row and column |
| `ViewportState.Viewport.constructor` | src/widget.rs:23-24 | the default viewport reads (0, 0, 0, 0) |
| `ViewportState.Viewport.Clone` | src/widget.rs:26-31 | the clone is a new viewport holding the same word, so it reads the same rectangle |
| `ViewportState.Viewport.ScrollTop` | src/widget.rs:34-37 | the scroll top is the (row, col) part of the stored rectangle |
| `ViewportState.Viewport.Rect` | src/widget.rs:39-46 | packing the four decoded values gives back the stored word |
| `ViewportState.Viewport.Position` | src/widget.rs:48-59 | the bounds start at the stored row and column; bottom and right are the saturating inclusive ends of height and width, never below top and left |
| `ViewportState.Viewport.Store` | src/widget.rs:61-66 | after storing, `Rect` returns exactly (row, col, width, height) and `ScrollTop` returns (row, col) |
| `ViewportState.Viewport.Scroll` | src/widget.rs:68-81 | row and column each move by their delta, clamped to the u16 range; width and height are unchanged |
| `ViewportState.StoreThenRead` | src/widget.rs:26-66 | storing any quadruple and reading it back through `rect`, `scroll_top` and a clone returns the stored values |
| `Scroll.NextScrollTop` | src/widget.rs:85-93 | with a non-empty window the cursor ends up in [top, top + len); a window already showing the cursor does not move; for every length, a cursor above the window becomes the top and a cursor at or past its end puts the top at cursor + 1 - len |
| `Scroll.NextScrollTopMinimal` | src/widget.rs:85-93 | no top that shows the cursor is closer to the previous top than the chosen one |
| `Scroll.NextScrollTopIdempotent` | src/widget.rs:141-153 | for a non-empty window, applying the rule again with the same cursor and length changes nothing |
| `Scroll.NextScrollTopExamples` | src/widget.rs:85-93 | T=0, C=5, L=10 gives 0; T=0, C=12, L=10 gives 3; T=5, C=2, L=10 gives 2 |
| `Scroll.GutterCursor` | src/widget.rs:118-127 | without line numbers the cursor is unchanged; with them it is twice the cursor up to the gutter width and cursor + gutter width from there on (the two agree at the gutter width) |
| `Scroll.GutterCursorIncreasing` | src/widget.rs:120-126 | the gutter-shifted column grows strictly with the cursor column, so doubling and shifting meet without a jump |
| `Scroll.ScrollTopCol` | src/widget.rs:117-129 | the shifted column is visible in a window of positive width, and a window already showing it keeps its left column; without line numbers the raw column goes to the one-axis rule |
| `Scroll.Scan` | src/widget.rs:196-202 | the scan has one entry per line above the cursor's line, and entry i is the accumulator plus the rows of the first i + 1 of those lines |
| `Scroll.Position` | src/widget.rs:203-205 | the search finds the first entry that reaches the bound, or reports none exactly when no entry does |
| `Scroll.NextScrollRowWrapped` | src/widget.rs:172-214 | a cursor above the window becomes the top; otherwise the top lies in [previous top, cursor row], never past the cursor |
| `Scroll.WrappedRowsCounted` | src/widget.rs:183-190 | the rows counted against the height (with the + 1 and - 1) are exactly the rows of the lines from the top through the cursor's line |
| `Scroll.WrappedStays` | src/widget.rs:183-212 | with the cursor below the top line, the top stays exactly when the lines through the cursor's line fit the height; with the cursor on the top line, it always stays |
| `Scroll.WrappedAdvance` | src/widget.rs:194-209 | when the lines do not fit and `position` finds index k, the top advances by k + 1 lines |
| `Scroll.WrappedRevealsCursorLine` | src/widget.rs:191-209 | if the cursor's line fits the height, the new top is the first line past the old top from which the lines through the cursor's line fit; every earlier candidate does not fit |
| `Scroll.WrappedShowsCursorLine` | src/widget.rs:172-214 | with the cursor at or below the old top, its line exists, and when that line fits the height, the lines from the new top through it fit the window |
| `Scroll.WrappedTallCursorLine` | src/widget.rs:203-209 | if the cursor's line alone is taller than the window, the top moves down one line, capped at the cursor row |
| `Scroll.WrappedExamples` | src/widget.rs:172-214 | with rows [1, 3, 1, 1], top 0 and height 3, cursors on lines 0, 1 and 2 give tops 0, 1 and 2 |
| `Scroll.WrappedTallLineMayHideCursor` | src/widget.rs:203-209 | with rows [1, 5, 1, 5], top 0, cursor on line 3 and height 3, the top becomes 1, and lines 1-2 alone take more than the height |
| `Render.ScrollTopRow` | src/widget.rs:113-115 | the row rule on the cursor row (cast to u16) keeps the row visible in a non-empty window and does not move a window that already shows it |
| `Render.ResolveScrollTop` | src/widget.rs:140-156 | without wrap, the cursor row and column are inside windows of positive height and width, and the row equals one application of the rule; with wrap, the row never passes the cursor row, the cursor's whole line is on screen whenever it fits the height, and the column keeps the `scroll_top_col` result |
| `Render.ResolveEmptyWindow` | src/widget.rs:141-153 | with height 0 the second pass always moves the top: to the cursor row + 1 when the cursor is above the old top, to the cursor row otherwise |
| `Render.TextWidget` | src/widget.rs:96-105 | exactly min(top + height, n) - top lines are emitted, line i being buffer line top + i with the gutter width of n lines (`ShowsLines`) |
| `Render.ResolveOffset` | src/widget.rs:140-156 | the offset computed step by step (row rule, gutter-adjusted column rule, then the wrapped row rule or a second pass of both plain rules) is the one `ResolveScrollTop` specifies |
| `Render.Render` | src/widget.rs:133-241 | the stored rectangle is the resolved (top row, top col) with the inner width and height; the content is the placeholder exactly when it is non-empty and the buffer is empty, otherwise the visible slice; a non-zero top column becomes the horizontal scroll, in wrap mode too |

## Left out

- Painting is not modelled: `Paragraph`, `Block::render` and `Block::inner`, `Buffer`, `Wrap`, alignment and styles belong to the terminal library. `Render` takes the inner width and height as parameters. The frame records the content, the wrap flag and the horizontal scroll handed to the painter.
- Render.TextWidget: a line is given as its index, text and gutter width. The styled spans that `line_spans` builds are not modelled, nor is the cursor-cell styling of `placeholder_widget`.
- `num_digits` and `line_rows` from `src/util.rs` are not part of this model. `Render` takes them as function parameters. `line_rows` is expected to return at least 1 for every line. The model requires that only of the cursor's line, where the `- 1` at line 188 needs it.
- `TextArea` from `src/textarea.rs` is not part of this model. Its lines, cursor, wrap flag, line-number flag and placeholder are fields of a datatype. `is_empty` is taken to mean the buffer is a single empty line. `Render` assumes the `TextArea` invariant `Valid`: the buffer holds at least one line and the cursor row is one of them. The slice at line 101 and the `line_rows` index at line 188 rely on it.
- The `AtomicU64` and `Ordering::Relaxed` are not modelled. The packed word is a plain field, so concurrent readers and writers are out of scope.
- The `tuirs`/`ratatui` feature switches and the `Block` clone at lines 229-230 are build plumbing.
- ViewportState.ApplyScroll: the model follows a debug build, where negating `i16::MIN` panics, so that delta is excluded. A release build would wrap there.
- The other overflow preconditions also follow a debug build. A release build wraps those additions, and the model does not describe that behaviour.
