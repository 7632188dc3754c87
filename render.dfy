/** One render pass of the text area: read the previous scroll offset from
    the viewport, resolve the new one so that the cursor stays visible,
    choose what to draw, and store the offset with the size of the inner
    area for the next pass.  Painting itself (paragraphs, blocks, styles)
    belongs to the terminal library and is not modelled; the frame handed
    to it is. */
module Render {
  import opened Ints
  import opened Scroll
  import opened ViewportState

  /** The parts of a text area a render pass reads.  `lineNumbers` says
      whether a line-number style is set. */
  datatype TextArea = TextArea(
    lines: seq<string>,
    cursor: (nat, nat),
    wrap: bool,
    lineNumbers: bool,
    placeholder: string)
  {
    /** The buffer holds at least one line and the cursor is on one of
        them. */
    predicate Valid() {
      |lines| >= 1 && cursor.0 < |lines|
    }

    /** `is_empty`: the buffer is one empty line. */
    predicate IsEmpty() {
      lines == [""]
    }

    /** `cursor().0 as u16` */
    function CursorRow(): U16 {
      AsU16(cursor.0)
    }

    /** `cursor().1 as u16` */
    function CursorCol(): U16 {
      AsU16(cursor.1)
    }
  }

  /** One buffer line handed to the painter: its index, its text and the
      width of the line-number label. */
  datatype DisplayLine = DisplayLine(row: nat, text: string, lnumWidth: nat)

  /** What is painted: the placeholder, or a slice of the buffer. */
  datatype Content = Placeholder(text: string) | Lines(lines: seq<DisplayLine>)

  /** The paragraph a render pass builds: its content, whether it wraps,
      and the horizontal scroll applied to it, if any. */
  datatype Frame = Frame(content: Content, wrap: bool, colScroll: Option<U16>)

  /** `scroll_top_row`: the row rule for the cursor's row. */
  function ScrollTopRow(ta: TextArea, prevTop: U16, height: U16): (top: U16)
    requires NextScrollTopDefined(prevTop, ta.CursorRow(), height)
    ensures height >= 1 ==> top <= ta.CursorRow() < top + height
    ensures prevTop <= ta.CursorRow() < prevTop + height ==> top == prevTop
  {
    NextScrollTop(prevTop, ta.CursorRow(), height)
  }

  /** The row counts of the lines, as `line_rows` gives them for the wrap
      width. */
  function WrappedRows(lines: seq<string>, wrapWidth: U16, hasLnum: bool,
                       lineRows: (string, U16, bool, nat) -> U16): seq<U16>
  {
    seq(|lines|, i requires 0 <= i < |lines| => lineRows(lines[i], wrapWidth, hasLnum, |lines|))
  }

  /** None of the `u16` additions of the offset resolution overflows, given
      the digit count of the number of lines and the row counts. */
  predicate ResolveDefined(ta: TextArea, prev: (U16, U16), width: U16, height: U16,
                           digits: nat, rows: seq<U16>)
  {
    var row, col := ta.CursorRow(), ta.CursorCol();
    NextScrollTopDefined(prev.0, row, height) &&
    GutterCursorDefined(col, ta.lineNumbers, digits) &&
    NextScrollTopDefined(prev.1, GutterCursor(col, ta.lineNumbers, digits), width) &&
    (var topRow := NextScrollTop(prev.0, row, height);
     var topCol := ScrollTopCol(prev.1, col, width, ta.lineNumbers, digits);
     if ta.wrap then
       WrappedDefined(topRow, row, height, rows)
     else
       NextScrollTopDefined(topRow, row, height) && NextScrollTopDefined(topCol, col, width))
  }

  /** The offset `(top row, top col)` a render pass resolves from the
      previous one.  Without wrapping, the cursor is inside a window of
      positive size on both axes, and the second application of the row
      rule changes nothing.  With wrapping, the row never passes the
      cursor's row, and the column keeps the gutter-adjusted result: it is
      not reset to zero. */
  function ResolveScrollTop(ta: TextArea, prev: (U16, U16), width: U16, height: U16,
                            digits: nat, rows: seq<U16>): (top: (U16, U16))
    requires ResolveDefined(ta, prev, width, height, digits, rows)
    ensures !ta.wrap && height >= 1 ==> top.0 <= ta.CursorRow() < top.0 + height
    ensures !ta.wrap && width >= 1 ==> top.1 <= ta.CursorCol() < top.1 + width
    ensures !ta.wrap && height >= 1 ==> top.0 == NextScrollTop(prev.0, ta.CursorRow(), height)
    ensures !ta.wrap ==> top.0 <= ta.CursorRow() + 1
    ensures ta.wrap ==> top.0 <= ta.CursorRow()
    ensures ta.wrap && height >= 1 ==>
      ta.CursorRow() < |rows| &&
      (rows[ta.CursorRow()] <= height ==> RowsThrough(rows, top.0, ta.CursorRow()) <= height)
    ensures ta.wrap ==> top.1 == ScrollTopCol(prev.1, ta.CursorCol(), width, ta.lineNumbers, digits)
  {
    var row, col := ta.CursorRow(), ta.CursorCol();
    var topRow := NextScrollTop(prev.0, row, height);
    var topCol := ScrollTopCol(prev.1, col, width, ta.lineNumbers, digits);
    if ta.wrap then
      WrappedShowsCursorLine(topRow, row, height, rows);
      (NextScrollRowWrapped(topRow, row, height, rows), topCol)
    else
      NextScrollTopIdempotent(prev.0, row, height);
      (NextScrollTop(topRow, row, height), NextScrollTop(topCol, col, width))
  }

  /** With a window of no rows, the second pass of the row rule always
      moves the top: a cursor above the old top ends with the top one row
      past it, and any other cursor ends with the top on its own row. */
  lemma ResolveEmptyWindow(ta: TextArea, prev: (U16, U16), width: U16, digits: nat, rows: seq<U16>)
    requires ResolveDefined(ta, prev, width, 0, digits, rows)
    requires !ta.wrap
    ensures ta.CursorRow() < prev.0 ==> ResolveScrollTop(ta, prev, width, 0, digits, rows).0 == ta.CursorRow() + 1
    ensures ta.CursorRow() >= prev.0 ==> ResolveScrollTop(ta, prev, width, 0, digits, rows).0 == ta.CursorRow()
    ensures ResolveScrollTop(ta, prev, width, 0, digits, rows).0 != NextScrollTop(prev.0, ta.CursorRow(), 0)
  {
  }

  /** `text` is the slice of the buffer a window of `height` rows from line
      `topRow` shows: every line from `topRow` up to `topRow + height` or the
      end of the buffer, in order, each with its index and the gutter width
      `lnumWidth`. */
  predicate ShowsLines(text: seq<DisplayLine>, lines: seq<string>, topRow: nat, height: nat, lnumWidth: nat)
    requires topRow <= |lines|
  {
    |text| == Min(topRow + height, |lines|) - topRow &&
    forall i :: 0 <= i < |text| ==> text[i] == DisplayLine(topRow + i, lines[topRow + i], lnumWidth)
  }

  /** `text_widget`: the lines from `topRow` up to `topRow + height` or the
      end of the buffer, each with its index and the gutter width. */
  method TextWidget(lines: seq<string>, topRow: nat, height: nat, numDigits: nat -> nat)
    returns (text: seq<DisplayLine>)
    requires topRow <= |lines|
    ensures ShowsLines(text, lines, topRow, height, numDigits(|lines|))
  {
    var linesLen := |lines|;
    var lnumLen := numDigits(linesLen);
    var bottomRow := Min(topRow + height, linesLen);
    text := [];
    for i := 0 to bottomRow - topRow
      invariant |text| == i
      invariant forall j :: 0 <= j < i ==> text[j] == DisplayLine(topRow + j, lines[topRow + j], lnumLen)
    {
      text := text + [DisplayLine(topRow + i, lines[topRow + i], lnumLen)];
    }
  }

  /** The offset resolution at the head of `render`: the row and column
      rules from the previous offset, then either the wrapped row rule or a
      second pass of the plain rules.  The row counts are asked for only in
      wrap mode. */
  method ResolveOffset(ta: TextArea, prevRow: U16, prevCol: U16, width: U16, height: U16,
                       digits: nat, lineRows: (string, U16, bool, nat) -> U16)
    returns (topRow: U16, topCol: U16)
    requires ResolveDefined(ta, (prevRow, prevCol), width, height, digits,
                            WrappedRows(ta.lines, width, ta.lineNumbers, lineRows))
    ensures (topRow, topCol) == ResolveScrollTop(ta, (prevRow, prevCol), width, height, digits,
                                                 WrappedRows(ta.lines, width, ta.lineNumbers, lineRows))
  {
    topRow := ScrollTopRow(ta, prevRow, height);
    topCol := ScrollTopCol(prevCol, ta.CursorCol(), width, ta.lineNumbers, digits);

    var cursorRow, cursorCol := ta.CursorRow(), ta.CursorCol();
    if ta.wrap {
      var rows := WrappedRows(ta.lines, width, ta.lineNumbers, lineRows);
      topRow := NextScrollRowWrapped(topRow, cursorRow, height, rows);
    } else {
      topRow := NextScrollTop(topRow, cursorRow, height);
      topCol := NextScrollTop(topCol, cursorCol, width);
    }
  }

  /** `render` on the inner area `width` x `height`: resolves the offset,
      builds the frame and stores the offset with the area's size, so the
      next pass starts from what this one showed. */
  method Render(ta: TextArea, vp: Viewport, width: U16, height: U16,
                numDigits: nat -> nat, lineRows: (string, U16, bool, nat) -> U16)
    returns (frame: Frame)
    requires ta.Valid()
    requires ResolveDefined(ta, vp.ScrollTop(), width, height, numDigits(|ta.lines|),
                            WrappedRows(ta.lines, width, ta.lineNumbers, lineRows))
    modifies vp
    ensures var top := ResolveScrollTop(ta, old(vp.ScrollTop()), width, height, numDigits(|ta.lines|),
                                        WrappedRows(ta.lines, width, ta.lineNumbers, lineRows));
      && vp.Rect() == (top.0, top.1, width, height)
      && frame.wrap == ta.wrap
      && frame.colScroll == (if top.1 != 0 then Some(top.1) else None)
      && (|ta.placeholder| > 0 && ta.IsEmpty() ==> frame.content == Placeholder(ta.placeholder))
      && (!(|ta.placeholder| > 0 && ta.IsEmpty()) ==>
            frame.content.Lines? &&
            ShowsLines(frame.content.lines, ta.lines, top.0, height, numDigits(|ta.lines|)))
  {
    var (prevRow, prevCol) := vp.ScrollTop();
    var topRow, topCol := ResolveOffset(ta, prevRow, prevCol, width, height, numDigits(|ta.lines|), lineRows);

    var content: Content;
    if |ta.placeholder| > 0 && ta.IsEmpty() {
      content := Placeholder(ta.placeholder);
    } else {
      var lines := TextWidget(ta.lines, topRow, height, numDigits);
      content := Lines(lines);
    }
    var colScroll := if topCol != 0 then Some(topCol) else None;

    vp.Store(topRow, topCol, width, height);
    frame := Frame(content, ta.wrap, colScroll);
  }
}
