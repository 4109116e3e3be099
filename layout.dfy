/** Where the drawing operations of the user interface put their cells.
    Every drawing operation is a sequence of setPixel calls. For each
    operation this module gives the buffer those calls leave behind (the
    `Drawn…` functions, which the drawing methods of the user interface are
    proved to produce) and, for DrawElement, the list of the calls as a value
    (a `seq<Write>`), which DrawnElementWrites ties to the buffer and which
    the lemmas about where a text lands and what erases it are stated on. */
module Layout {
  import opened GoInt
  import opened Outcomes
  import opened Text
  import opened Positions
  import opened Screen
  import Terminal

  /** How a glyph is written in a colour code: the user interface passes
      `Terminal.Color` with the draw of its random source, so this module
      only places cells and never looks inside the colouring. */
  type Painter = (string, int) -> string

  /** `dim * percent / 100` with Go's truncating division: the conversion of
      a percentage of a terminal or frame dimension into cells. */
  function PercentOf(total: int, percent: int): int {
    GoDiv(total * percent, 100)
  }

  /** A percentage in [0, 100] of a non-negative dimension lies within that
      dimension, 0 % is nothing and 100 % is all of it. */
  lemma PercentOfBounds(total: int, percent: int)
    requires total >= 0 && 0 <= percent <= 100
    ensures 0 <= PercentOf(total, percent) <= total
    ensures percent == 0 ==> PercentOf(total, percent) == 0
    ensures percent == 100 ==> PercentOf(total, percent) == total
  {
    MulMonotone(total, 0, percent);
    MulMonotone(total, percent, 100);
    GoModAgreesWhenNonNegative(total * percent, 100);
  }

  /** Negative percentages are mirrored, not floored: the conversion is odd
      because Go's division truncates toward zero. */
  lemma PercentOfOdd(total: int, percent: int)
    ensures PercentOf(total, -percent) == -PercentOf(total, percent)
  {
    MulSigns(total, percent);
    GoDivNegate(total * percent, 100);
  }

  /** On a non-negative dimension a larger percentage never gives fewer cells. */
  lemma PercentOfMonotone(total: int, p: int, q: int)
    requires total >= 0 && p <= q
    ensures PercentOf(total, p) <= PercentOf(total, q)
  {
    MulMonotone(total, p, q);
    GoDivMonotone(total * p, total * q, 100);
  }

  /** What the drawing code reads of the user interface: the buffer's height
      and width, the frame size inside the borders, and the left and top
      borders. */
  datatype Canvas = Canvas(rows: int, columns: int, frameWidth: int, frameHeight: int,
                           borderLeft: int, borderTop: int)

  /** Drawing computes `% height` and `% width`, which Go refuses for zero. */
  predicate Drawable(c: Canvas) {
    c.rows > 0 && c.columns > 0
  }

  /** The unwrapped row of a position's anchor line: the frame-relative
      row of the percentage plus the top border. */
  function BaseRow(c: Canvas, py: int): int {
    PercentOf(c.frameHeight, py) + c.borderTop
  }

  /** The unwrapped column of a position's first byte: the frame-relative
      column of the percentage plus the left border. */
  function BaseColumn(c: Canvas, px: int): int {
    PercentOf(c.frameWidth, px) + c.borderLeft
  }

  /** The writes of the first `j` runes of a line whose unwrapped row is
      `row` and whose first byte lies in unwrapped column `col`: each rune,
      painted on its own, at the column of its byte index, both coordinates
      reduced with Go's `%`. */
  function LineWrites(c: Canvas, col: int, row: int, line: string,
                      color: int, paint: Painter, j: nat): seq<Write>
    requires Drawable(c) && j <= |line|
  {
    if j == 0 then []
    else LineWrites(c, col, row, line, color, paint, j - 1) +
         [Write(GoMod(col + ByteIndex(line, j - 1), c.columns), GoMod(row, c.rows),
                paint([line[j - 1]], color))]
  }

  /** The writes of the first `k` lines: line `i` goes `i` rows further down
      and is painted in colour `color + i`. */
  function LinesWrites(c: Canvas, col: int, row: int, lines: seq<string>,
                       color: int, paint: Painter, k: nat): seq<Write>
    requires Drawable(c) && k <= |lines|
  {
    if k == 0 then []
    else LinesWrites(c, col, row, lines, color, paint, k - 1) +
         LineWrites(c, col, row + k - 1, lines[k - 1], color + k - 1, paint, |lines[k - 1]|)
  }

  function DrawnLine(b: Buffer, c: Canvas, col: int, row: int, line: string,
                     color: int, paint: Painter, j: nat): Buffer
    requires Drawable(c) && j <= |line|
  {
    if j == 0 then b
    else PutPixel(DrawnLine(b, c, col, row, line, color, paint, j - 1),
                  GoMod(col + ByteIndex(line, j - 1), c.columns), GoMod(row, c.rows), paint([line[j - 1]], color))
  }

  function DrawnLines(b: Buffer, c: Canvas, col: int, row: int, lines: seq<string>,
                      color: int, paint: Painter, k: nat): Buffer
    requires Drawable(c) && k <= |lines|
  {
    if k == 0 then b
    else DrawnLine(DrawnLines(b, c, col, row, lines, color, paint, k - 1),
                   c, col, row + k - 1, lines[k - 1], color + k - 1, paint, |lines[k - 1]|)
  }

  lemma DrawnLineStep(b: Buffer, c: Canvas, col: int, row: int, line: string, color: int, paint: Painter,
                      j: nat, x: int, y: int, v: string)
    requires Drawable(c) && j < |line|
    requires x == GoMod(col + ByteIndex(line, j), c.columns) && y == GoMod(row, c.rows)
    requires v == paint([line[j]], color)
    ensures PutPixel(DrawnLine(b, c, col, row, line, color, paint, j), x, y, v) ==
            DrawnLine(b, c, col, row, line, color, paint, j + 1)
  {
  }

  lemma DrawnLinesStep(b: Buffer, c: Canvas, col: int, row: int, lines: seq<string>,
                       color: int, paint: Painter, k: nat)
    requires Drawable(c) && k < |lines|
    ensures DrawnLine(DrawnLines(b, c, col, row, lines, color, paint, k),
                      c, col, row + k, lines[k], color + k, paint, |lines[k]|) ==
            DrawnLines(b, c, col, row, lines, color, paint, k + 1)
  {
    assert row + (k + 1) - 1 == row + k && color + (k + 1) - 1 == color + k;
  }

  /** The buffer DrawElement leaves behind, drawn onto `b`. */
  function DrawnElement(b: Buffer, c: Canvas, px: int, py: int, offset: int, text: string,
                        color: int, paint: Painter): (r: Buffer)
    requires Drawable(c)
    ensures WellShaped(b) ==> WellShaped(r) && SameShape(b, r)
  {
    var lines := GetLines(text, color == Terminal.BLANK);
    var r := DrawnLines(b, c, BaseColumn(c, px), BaseRow(c, py) + offset, lines, color, paint, |lines|);
    assert WellShaped(b) ==> WellShaped(r) && SameShape(b, r) by {
      if WellShaped(b) {
        DrawnLinesShape(b, c, BaseColumn(c, px), BaseRow(c, py) + offset, lines, color, paint, |lines|);
      }
    }
    r
  }

  lemma {:induction false} DrawnLineWrites(b: Buffer, c: Canvas, col: int, row: int, line: string,
                                           color: int, paint: Painter, j: nat)
    requires Drawable(c) && j <= |line|
    ensures DrawnLine(b, c, col, row, line, color, paint, j) ==
            ApplyWrites(b, LineWrites(c, col, row, line, color, paint, j))
    decreases j
  {
    if j > 0 {
      var i := j - 1;
      var x, y, v := GoMod(col + ByteIndex(line, i), c.columns), GoMod(row, c.rows), paint([line[i]], color);
      DrawnLineWrites(b, c, col, row, line, color, paint, i);
      LineWriteApplied(b, c, col, row, line, color, paint, i, x, y, v);
      assert PutPixel(DrawnLine(b, c, col, row, line, color, paint, i), x, y, v) ==
             ApplyWrites(b, LineWrites(c, col, row, line, color, paint, i + 1));
    }
  }

  lemma {:induction false} DrawnLinesWrites(b: Buffer, c: Canvas, col: int, row: int, lines: seq<string>,
                                            color: int, paint: Painter, k: nat)
    requires Drawable(c) && k <= |lines|
    ensures DrawnLines(b, c, col, row, lines, color, paint, k) ==
            ApplyWrites(b, LinesWrites(c, col, row, lines, color, paint, k))
    decreases k
  {
    if k > 0 {
      var i := k - 1;
      var before := ApplyWrites(b, LinesWrites(c, col, row, lines, color, paint, i));
      DrawnLinesWrites(b, c, col, row, lines, color, paint, i);
      assert A: DrawnLines(b, c, col, row, lines, color, paint, i) == before;
      DrawnLineWrites(before, c, col, row + i, lines[i], color + i, paint, |lines[i]|);
      assert B: DrawnLine(before, c, col, row + i, lines[i], color + i, paint, |lines[i]|) == ApplyWrites(before, LineWrites(c, col, row + i, lines[i], color + i, paint, |lines[i]|));
      LinesWriteApplied(b, c, col, row, lines, color, paint, i);
      assert C: ApplyWrites(before, LineWrites(c, col, row + i, lines[i], color + i, paint, |lines[i]|)) == ApplyWrites(b, LinesWrites(c, col, row, lines, color, paint, i + 1));
      DrawnLinesStep(b, c, col, row, lines, color, paint, i);
      assert D: DrawnLine(DrawnLines(b, c, col, row, lines, color, paint, i), c, col, row + i, lines[i], color + i, paint, |lines[i]|) == DrawnLines(b, c, col, row, lines, color, paint, i + 1);
      assert i + 1 == k;
    }
  }

  /** Drawing an element onto a buffer is applying its write list. */
  lemma DrawnElementWrites(b: Buffer, c: Canvas, px: int, py: int, offset: int, text: string,
                           color: int, paint: Painter)
    requires Drawable(c)
    ensures DrawnElement(b, c, px, py, offset, text, color, paint) ==
            ApplyWrites(b, ElementWrites(c, px, py, offset, text, color, paint))
  {
    var lines := GetLines(text, color == Terminal.BLANK);
    DrawnLinesWrites(b, c, BaseColumn(c, px), BaseRow(c, py) + offset, lines, color, paint, |lines|);
  }

  /** DrawElement: the lines of the text, blanked when the colour is BLANK,
      from the position's current line offset on. */
  function ElementWrites(c: Canvas, px: int, py: int, offset: int, text: string,
                         color: int, paint: Painter): seq<Write>
    requires Drawable(c)
  {
    var lines := GetLines(text, color == Terminal.BLANK);
    LinesWrites(c, BaseColumn(c, px), BaseRow(c, py) + offset, lines, color, paint, |lines|)
  }

  /** Rune `j` of a line is the next write. */
  lemma LineWritesStep(c: Canvas, col: int, row: int, line: string, color: int, paint: Painter, j: nat)
    requires Drawable(c) && j < |line|
    ensures LineWrites(c, col, row, line, color, paint, j + 1) ==
            LineWrites(c, col, row, line, color, paint, j) +
            [Write(GoMod(col + ByteIndex(line, j), c.columns), GoMod(row, c.rows), paint([line[j]], color))]
  {
  }

  /** Painting rune `j` of a line onto the buffer the first `j` runes
      produced gives the buffer of the first `j + 1` runes. */
  lemma LineWriteApplied(b: Buffer, c: Canvas, col: int, row: int, line: string, color: int, paint: Painter,
                         j: nat, x: int, y: int, v: string)
    requires Drawable(c) && j < |line|
    requires x == GoMod(col + ByteIndex(line, j), c.columns) && y == GoMod(row, c.rows)
    requires v == paint([line[j]], color)
    ensures PutPixel(ApplyWrites(b, LineWrites(c, col, row, line, color, paint, j)), x, y, v) ==
            ApplyWrites(b, LineWrites(c, col, row, line, color, paint, j + 1))
  {
    LineWritesStep(c, col, row, line, color, paint, j);
    ApplyWritesSnoc(b, LineWrites(c, col, row, line, color, paint, j), Write(x, y, v));
  }

  /** Line `k` of a drawing is the next block of writes. */
  lemma LinesWritesStep(c: Canvas, col: int, row: int, lines: seq<string>,
                        color: int, paint: Painter, k: nat)
    requires Drawable(c) && k < |lines|
    ensures LinesWrites(c, col, row, lines, color, paint, k + 1) ==
            LinesWrites(c, col, row, lines, color, paint, k) +
            LineWrites(c, col, row + k, lines[k], color + k, paint, |lines[k]|)
  {
  }
  /** Applying the writes of line `k` to the buffer the first `k` lines
      produced gives the buffer of the first `k + 1` lines. */
  lemma LinesWriteApplied(b: Buffer, c: Canvas, col: int, row: int, lines: seq<string>,
                          color: int, paint: Painter, k: nat)
    requires Drawable(c) && k < |lines|
    ensures ApplyWrites(ApplyWrites(b, LinesWrites(c, col, row, lines, color, paint, k)),
                        LineWrites(c, col, row + k, lines[k], color + k, paint, |lines[k]|)) ==
            ApplyWrites(b, LinesWrites(c, col, row, lines, color, paint, k + 1))
  {
    LinesWritesStep(c, col, row, lines, color, paint, k);
    ApplyWritesAppend(b, LinesWrites(c, col, row, lines, color, paint, k),
                      LineWrites(c, col, row + k, lines[k], color + k, paint, |lines[k]|));
  }

  /** The row of the last write, or 0 when nothing was written. */
  function LastRow(ws: seq<Write>): int {
    if ws == [] then 0 else ws[|ws| - 1].y
  }

  /** The wrapped row of the last line among the first `k` that has a rune,
      or 0 when none has one: the `y` DrawElement's loop leaves behind. */
  function LinesLastRow(c: Canvas, row: int, lines: seq<string>, k: nat): int
    requires Drawable(c) && k <= |lines|
  {
    if k == 0 then 0
    else if |lines[k - 1]| > 0 then GoMod(row + k - 1, c.rows)
    else LinesLastRow(c, row, lines, k - 1)
  }

  /** Line `k` moves the last row to its own row when it has a rune. */
  lemma LinesLastRowStep(c: Canvas, row: int, lines: seq<string>, k: nat)
    requires Drawable(c) && k < |lines|
    ensures LinesLastRow(c, row, lines, k + 1) ==
            if |lines[k]| > 0 then GoMod(row + k, c.rows) else LinesLastRow(c, row, lines, k)
  {
    assert row + (k + 1) - 1 == row + k;
  }

  function ElementLastRow(c: Canvas, py: int, offset: int, text: string, color: int): int
    requires Drawable(c)
  {
    var lines := GetLines(text, color == Terminal.BLANK);
    LinesLastRow(c, BaseRow(c, py) + offset, lines, |lines|)
  }

  lemma LastRowAppend(a: seq<Write>, b: seq<Write>)
    ensures LastRow(a + b) == if b == [] then LastRow(a) else LastRow(b)
  {
    if b == [] {
      assert a + b == a;
    }
  }

  lemma LineLastRow(c: Canvas, col: int, row: int, line: string, color: int, paint: Painter)
    requires Drawable(c)
    ensures |line| == 0 ==> LineWrites(c, col, row, line, color, paint, |line|) == []
    ensures |line| > 0 ==> LastRow(LineWrites(c, col, row, line, color, paint, |line|)) == GoMod(row, c.rows)
  {
  }

  /** DrawElement's `y` is the row of its last setPixel call: the row of the
      last line with a rune, or 0 when no line has one. */
  lemma {:induction false} LinesLastRowIsLastWrite(c: Canvas, col: int, row: int, lines: seq<string>,
                                                   color: int, paint: Painter, k: nat)
    requires Drawable(c) && k <= |lines|
    ensures LinesLastRow(c, row, lines, k) == LastRow(LinesWrites(c, col, row, lines, color, paint, k))
  {
    if k > 0 {
      LinesLastRowIsLastWrite(c, col, row, lines, color, paint, k - 1);
      LineLastRow(c, col, row + k - 1, lines[k - 1], color + k - 1, paint);
      LastRowAppend(LinesWrites(c, col, row, lines, color, paint, k - 1),
                    LineWrites(c, col, row + k - 1, lines[k - 1], color + k - 1, paint, |lines[k - 1]|));
    }
  }

  function Max(a: int, b: int): int {
    if a >= b then a else b
  }

  lemma {:induction false} ByteLenSpaces(n: nat)
    ensures ByteLen(Spaces(n)) == n
  {
    if n > 0 {
      ByteLenSpaces(n - 1);
      assert Spaces(n)[..n - 1] == Spaces(n - 1);
    }
  }

  /** In a line of spaces the byte index of a rune is its position. */
  lemma ByteIndexSpaces(n: nat, j: nat)
    requires j < n
    ensures ByteIndex(Spaces(n), j) == j
  {
    assert Spaces(n)[..j] == Spaces(j);
    ByteLenSpaces(j);
  }

  /** A line of `n` spaces aims at byte column `l` of its row for every
      `l < m` once its first `m` runes are drawn. */
  lemma {:induction false} BlankCell(c: Canvas, col: int, row: int, n: nat,
                                     blank: int, paint: Painter, l: nat, m: nat)
    requires Drawable(c) && l < m <= n
    ensures WrittenAt(LineWrites(c, col, row, Spaces(n), blank, paint, m),
                      GoMod(col + l, c.columns), GoMod(row, c.rows))
  {
    if l < m - 1 {
      BlankCell(c, col, row, n, blank, paint, l, m - 1);
    } else {
      ByteIndexSpaces(n, m - 1);
    }
  }

  /** Erasing a line with blanks aims at every cell drawing it aimed at: the
      blank line has one space per byte, and every rune starts at a byte. */
  lemma {:induction false} LineErased(c: Canvas, col: int, row: int, line: string,
                                      blankLine: string, color: int, blank: int, paint: Painter,
                                      j: nat, x: int, y: int)
    requires Drawable(c) && j <= |line|
    requires blankLine == Spaces(ByteLen(line))
    requires WrittenAt(LineWrites(c, col, row, line, color, paint, j), x, y)
    ensures WrittenAt(LineWrites(c, col, row, blankLine, blank, paint, |blankLine|), x, y)
  {
    if WrittenAt(LineWrites(c, col, row, line, color, paint, j - 1), x, y) {
      LineErased(c, col, row, line, blankLine, color, blank, paint, j - 1, x, y);
    } else {
      ByteLenSpaces(ByteLen(line));
      BlankCell(c, col, row, ByteLen(line), blank, paint, ByteIndex(line, j - 1), ByteLen(line));
    }
  }

  /** A whole line is covered by its blank counterpart. */
  lemma LineCovered(c: Canvas, col: int, row: int, line: string, blankLine: string,
                    color: int, blank: int, paint: Painter)
    requires Drawable(c) && blankLine == Spaces(ByteLen(line))
    ensures Covers(LineWrites(c, col, row, line, color, paint, |line|),
                   LineWrites(c, col, row, blankLine, blank, paint, |blankLine|))
  {
    forall x, y | WrittenAt(LineWrites(c, col, row, line, color, paint, |line|), x, y)
      ensures WrittenAt(LineWrites(c, col, row, blankLine, blank, paint, |blankLine|), x, y)
    {
      LineErased(c, col, row, line, blankLine, color, blank, paint, |line|, x, y);
    }
  }

  /** Lines erased by their blank counterparts, one by one. */
  lemma {:induction false} LinesErased(c: Canvas, col: int, row: int,
                                       lines: seq<string>, blanks: seq<string>,
                                       color: int, blank: int, paint: Painter, k: nat)
    requires Drawable(c) && k <= |lines| == |blanks|
    requires forall i :: 0 <= i < |lines| ==> blanks[i] == Spaces(ByteLen(lines[i]))
    ensures Covers(LinesWrites(c, col, row, lines, color, paint, k),
                   LinesWrites(c, col, row, blanks, blank, paint, k))
  {
    if k > 0 {
      LinesErased(c, col, row, lines, blanks, color, blank, paint, k - 1);
      NextLineErased(c, col, row, lines, blanks, color, blank, paint, k);
    }
  }

  lemma NextLineErased(c: Canvas, col: int, row: int, lines: seq<string>, blanks: seq<string>,
                       color: int, blank: int, paint: Painter, k: nat)
    requires Drawable(c) && 0 < k <= |lines| == |blanks|
    requires blanks[k - 1] == Spaces(ByteLen(lines[k - 1]))
    requires Covers(LinesWrites(c, col, row, lines, color, paint, k - 1),
                    LinesWrites(c, col, row, blanks, blank, paint, k - 1))
    ensures Covers(LinesWrites(c, col, row, lines, color, paint, k),
                   LinesWrites(c, col, row, blanks, blank, paint, k))
  {
    LineCovered(c, col, row + k - 1, lines[k - 1], blanks[k - 1], color + k - 1, blank + k - 1, paint);
    CoversAppend(LinesWrites(c, col, row, lines, color, paint, k - 1),
                 LineWrites(c, col, row + k - 1, lines[k - 1], color + k - 1, paint, |lines[k - 1]|),
                 LinesWrites(c, col, row, blanks, blank, paint, k - 1),
                 LineWrites(c, col, row + k - 1, blanks[k - 1], blank + k - 1, paint, |blanks[k - 1]|));
  }

  /** Drawing a text in BLANK at the same place rewrites every cell the
      coloured drawing aimed at. This is what MoveElement relies on to
      overwrite the previous frame; the values written are the blank
      lines painted in colour BLANK + k for line k. */
  lemma EraseCoversDraw(c: Canvas, px: int, py: int, offset: int, text: string,
                        color: int, paint: Painter)
    requires Drawable(c)
    ensures Covers(ElementWrites(c, px, py, offset, text, color, paint),
                   ElementWrites(c, px, py, offset, text, Terminal.BLANK, paint))
  {
    if color != Terminal.BLANK {
      var lines, blanks := GetLines(text, false), GetLines(text, true);
      BlankLinesMatch(text);
      LinesErased(c, BaseColumn(c, px), BaseRow(c, py) + offset, lines, blanks, color,
                  Terminal.BLANK, paint, |lines|);
    }
  }

  /** All writes of a line land in the buffer's `rows x columns` area when
      its unwrapped row and first column are not negative. */
  lemma {:induction false} LineInGrid(c: Canvas, col: int, row: int, line: string,
                                      color: int, paint: Painter, j: nat)
    requires Drawable(c) && j <= |line| && col >= 0 && row >= 0
    ensures forall w :: w in LineWrites(c, col, row, line, color, paint, j) ==>
              0 <= w.y < c.rows && 0 <= w.x < c.columns
  {
    if j > 0 {
      LineInGrid(c, col, row, line, color, paint, j - 1);
      GoModAgreesWhenNonNegative(row, c.rows);
      GoModAgreesWhenNonNegative(col + ByteIndex(line, j - 1), c.columns);
    }
  }

  lemma {:induction false} LinesInGrid(c: Canvas, col: int, row: int,
                                       lines: seq<string>, color: int, paint: Painter, k: nat)
    requires Drawable(c) && k <= |lines| && col >= 0 && row >= 0
    ensures forall w :: w in LinesWrites(c, col, row, lines, color, paint, k) ==>
              0 <= w.y < c.rows && 0 <= w.x < c.columns
  {
    if k > 0 {
      LinesInGrid(c, col, row, lines, color, paint, k - 1);
      LineInGrid(c, col, row + k - 1, lines[k - 1], color + k - 1, paint, |lines[k - 1]|);
    }
  }

  /** The `% height` and `% width` of DrawElement wrap every cell of a text
      placed at a non-negative base into the buffer; a negative base (from a
      negative percentage or border) gives Go's negative remainder instead,
      which setPixel then drops. */
  lemma ElementInGrid(c: Canvas, px: int, py: int, offset: int, text: string,
                      color: int, paint: Painter)
    requires Drawable(c)
    requires BaseRow(c, py) + offset >= 0 && BaseColumn(c, px) >= 0
    ensures forall w :: w in ElementWrites(c, px, py, offset, text, color, paint) ==>
              0 <= w.y < c.rows && 0 <= w.x < c.columns
  {
    var lines := GetLines(text, color == Terminal.BLANK);
    LinesInGrid(c, BaseColumn(c, px), BaseRow(c, py) + offset, lines, color, paint, |lines|);
  }

  /** A negative row that the height does not divide stays negative, so
      every rune of that line is dropped. */
  lemma NegativeRowDropped(c: Canvas, py: int, offset: int)
    requires Drawable(c)
    requires BaseRow(c, py) + offset < 0
    requires (-(BaseRow(c, py) + offset)) % c.rows != 0
    ensures GoMod(BaseRow(c, py) + offset, c.rows) < 0
  {
    GoModNegative(BaseRow(c, py) + offset, c.rows);
  }

  /** DrawElementsHorizontal indexes `positions` and `colors` with
      `k % len(positions)`; it needs a position when there is a text, and a
      colour for every position it reaches. */
  predicate HorizontalOk(texts: seq<string>, positions: seq<int>, colors: seq<int>) {
    |texts| == 0 || (|positions| > 0 && (|texts| <= |colors| || |positions| <= |colors|))
  }

  /** The column of the `k`-th text of a row: the anchor plus the `k mod n`-th
      relative position, both clamped as CreatePos and AddDistance do. */
  function HorizontalX(px: int, positions: seq<int>, k: nat): int
    requires |positions| > 0
  {
    Clamp(Clamp(px) + Clamp(positions[k % |positions|]))
  }

  /** The colour of text `k`: the colour of its slot. */
  function SlotColor(texts: seq<string>, positions: seq<int>, colors: seq<int>, k: nat): int
    requires k < |texts| && HorizontalOk(texts, positions, colors)
  {
    SlotInRange(|positions|, |texts|, |colors|, k);
    colors[k % |positions|]
  }

  lemma SlotInRange(n: nat, count: nat, colorCount: nat, k: nat)
    requires n > 0 && k < count && (count <= colorCount || n <= colorCount)
    ensures k % n < colorCount
  {
  }

  /** What the DrawElement call for text `k` of a row returns: one less
      than the row its last rune landed on. */
  function TextResult(c: Canvas, py: int, offset: int, texts: seq<string>,
                      positions: seq<int>, colors: seq<int>, k: nat): int
    requires Drawable(c) && k < |texts| && HorizontalOk(texts, positions, colors)
  {
    ElementLastRow(c, Clamp(Clamp(py) + Clamp(0)), offset + k / |positions|, texts[k],
                   SlotColor(texts, positions, colors, k)) - 1
  }

  /** The largest value the DrawElement calls returned, starting from 0. */
  function HorizontalY(c: Canvas, px: int, py: int, offset: int, texts: seq<string>,
                       positions: seq<int>, colors: seq<int>, paint: Painter, k: nat): int
    requires Drawable(c) && k <= |texts| && HorizontalOk(texts, positions, colors)
  {
    if k == 0 then 0
    else Max(HorizontalY(c, px, py, offset, texts, positions, colors, paint, k - 1),
             TextResult(c, py, offset, texts, positions, colors, k - 1))
  }

  /** HorizontalY as the maximum of 0 and the first `k` DrawElement results. */
  predicate IsHorizontalMax(c: Canvas, px: int, py: int, offset: int, texts: seq<string>,
                            positions: seq<int>, colors: seq<int>, paint: Painter, k: nat)
    requires Drawable(c) && k <= |texts| && HorizontalOk(texts, positions, colors)
  {
    HorizontalY(c, px, py, offset, texts, positions, colors, paint, k) >= 0 &&
    (forall j :: 0 <= j < k ==> TextResult(c, py, offset, texts, positions, colors, j) <= HorizontalY(c, px, py, offset, texts, positions, colors, paint, k)) &&
    (HorizontalY(c, px, py, offset, texts, positions, colors, paint, k) == 0 || exists j :: 0 <= j < k && HorizontalY(c, px, py, offset, texts, positions, colors, paint, k) == TextResult(c, py, offset, texts, positions, colors, j))
  }

  /** One more DrawElement result keeps HorizontalY the maximum. */
  lemma HorizontalYMaxStep(c: Canvas, px: int, py: int, offset: int, texts: seq<string>,
                           positions: seq<int>, colors: seq<int>, paint: Painter, j: nat)
    requires Drawable(c) && j < |texts| && HorizontalOk(texts, positions, colors)
    requires IsHorizontalMax(c, px, py, offset, texts, positions, colors, paint, j)
    ensures IsHorizontalMax(c, px, py, offset, texts, positions, colors, paint, j + 1)
  {
    var prev := HorizontalY(c, px, py, offset, texts, positions, colors, paint, j);
    var next := HorizontalY(c, px, py, offset, texts, positions, colors, paint, j + 1);
    assert next == Max(prev, TextResult(c, py, offset, texts, positions, colors, j));
    assert TextResult(c, py, offset, texts, positions, colors, j) <= next;
    forall i | 0 <= i < j + 1
      ensures TextResult(c, py, offset, texts, positions, colors, i) <= next
    {
      if i < j {
        assert TextResult(c, py, offset, texts, positions, colors, i) <= prev;
      } else {
        assert i == j;
      }
    }
    if next != 0 {
      if next == TextResult(c, py, offset, texts, positions, colors, j) {
      } else {
        var w :| 0 <= w < j && prev == TextResult(c, py, offset, texts, positions, colors, w);
        assert next == TextResult(c, py, offset, texts, positions, colors, w);
      }
    }
  }

  /** DrawElementsHorizontal returns the maximum of 0 and its DrawElement
      results: no result exceeds it, and it is 0 or one of them. */
  lemma {:induction false} HorizontalYIsMax(c: Canvas, px: int, py: int, offset: int, texts: seq<string>,
                                            positions: seq<int>, colors: seq<int>, paint: Painter, k: nat)
    requires Drawable(c) && k <= |texts| && HorizontalOk(texts, positions, colors)
    ensures HorizontalY(c, px, py, offset, texts, positions, colors, paint, k) >= 0
    ensures forall j :: 0 <= j < k ==>
              TextResult(c, py, offset, texts, positions, colors, j) <=
              HorizontalY(c, px, py, offset, texts, positions, colors, paint, k)
    ensures HorizontalY(c, px, py, offset, texts, positions, colors, paint, k) == 0 ||
            exists j :: 0 <= j < k &&
              HorizontalY(c, px, py, offset, texts, positions, colors, paint, k) ==
              TextResult(c, py, offset, texts, positions, colors, j)
    decreases k
  {
    if k > 0 {
      var j: nat := k - 1;
      HorizontalYIsMax(c, px, py, offset, texts, positions, colors, paint, j);
      HorizontalYMaxStep(c, px, py, offset, texts, positions, colors, paint, j);
      assert j + 1 == k;
    }
  }


  predicate TableOk(table: seq<seq<string>>, positions: seq<int>, colors: seq<int>) {
    forall r :: 0 <= r < |table| ==> HorizontalOk(table[r], positions, colors)
  }

  /** What the DrawElementsHorizontal call for row `r` of a table returns. */
  function RowResult(c: Canvas, px: int, py: int, offset: int, table: seq<seq<string>>,
                     positions: seq<int>, colors: seq<int>, paint: Painter, r: nat): int
    requires Drawable(c) && r < |table| && TableOk(table, positions, colors)
  {
    HorizontalY(c, px, py, offset + r, table[r], positions, colors, paint, |table[r]|)
  }

  function TableY(c: Canvas, px: int, py: int, offset: int, table: seq<seq<string>>,
                  positions: seq<int>, colors: seq<int>, paint: Painter, r: nat): int
    requires Drawable(c) && r <= |table| && TableOk(table, positions, colors)
  {
    if r == 0 then 0
    else Max(TableY(c, px, py, offset, table, positions, colors, paint, r - 1),
             RowResult(c, px, py, offset, table, positions, colors, paint, r - 1))
  }

  /** TableY as the maximum of 0 and the first `r` row results. */
  predicate IsTableMax(c: Canvas, px: int, py: int, offset: int, table: seq<seq<string>>,
                       positions: seq<int>, colors: seq<int>, paint: Painter, r: nat)
    requires Drawable(c) && r <= |table| && TableOk(table, positions, colors)
  {
    TableY(c, px, py, offset, table, positions, colors, paint, r) >= 0 &&
    (forall j :: 0 <= j < r ==> RowResult(c, px, py, offset, table, positions, colors, paint, j) <= TableY(c, px, py, offset, table, positions, colors, paint, r)) &&
    (TableY(c, px, py, offset, table, positions, colors, paint, r) == 0 || exists j :: 0 <= j < r && TableY(c, px, py, offset, table, positions, colors, paint, r) == RowResult(c, px, py, offset, table, positions, colors, paint, j))
  }

  /** One more row result keeps TableY the maximum. */
  lemma TableYMaxStep(c: Canvas, px: int, py: int, offset: int, table: seq<seq<string>>,
                      positions: seq<int>, colors: seq<int>, paint: Painter, j: nat)
    requires Drawable(c) && j < |table| && TableOk(table, positions, colors)
    requires IsTableMax(c, px, py, offset, table, positions, colors, paint, j)
    ensures IsTableMax(c, px, py, offset, table, positions, colors, paint, j + 1)
  {
    var prev := TableY(c, px, py, offset, table, positions, colors, paint, j);
    var next := TableY(c, px, py, offset, table, positions, colors, paint, j + 1);
    assert next == Max(prev, RowResult(c, px, py, offset, table, positions, colors, paint, j));
    assert RowResult(c, px, py, offset, table, positions, colors, paint, j) <= next;
    forall i | 0 <= i < j + 1
      ensures RowResult(c, px, py, offset, table, positions, colors, paint, i) <= next
    {
      if i < j {
        assert RowResult(c, px, py, offset, table, positions, colors, paint, i) <= prev;
      } else {
        assert i == j;
      }
    }
    if next != 0 {
      if next == RowResult(c, px, py, offset, table, positions, colors, paint, j) {
      } else {
        var w :| 0 <= w < j && prev == RowResult(c, px, py, offset, table, positions, colors, paint, w);
        assert next == RowResult(c, px, py, offset, table, positions, colors, paint, w);
      }
    }
  }

  /** DrawTable returns the maximum of 0 and the values its rows returned:
      no row result exceeds it, and it is 0 or one of them. */
  lemma {:induction false} TableYIsMax(c: Canvas, px: int, py: int, offset: int, table: seq<seq<string>>,
                                       positions: seq<int>, colors: seq<int>, paint: Painter, r: nat)
    requires Drawable(c) && r <= |table| && TableOk(table, positions, colors)
    ensures TableY(c, px, py, offset, table, positions, colors, paint, r) >= 0
    ensures forall j :: 0 <= j < r ==>
              RowResult(c, px, py, offset, table, positions, colors, paint, j) <=
              TableY(c, px, py, offset, table, positions, colors, paint, r)
    ensures TableY(c, px, py, offset, table, positions, colors, paint, r) == 0 ||
            exists j :: 0 <= j < r &&
              TableY(c, px, py, offset, table, positions, colors, paint, r) ==
              RowResult(c, px, py, offset, table, positions, colors, paint, j)
    decreases r
  {
    if r > 0 {
      var j: nat := r - 1;
      TableYIsMax(c, px, py, offset, table, positions, colors, paint, j);
      TableYMaxStep(c, px, py, offset, table, positions, colors, paint, j);
      assert j + 1 == r;
    }
  }


  /** The DrawElement call for text `k` of a row: in column slot `k mod n`,
      `k / n` lines below the anchor, in the colour of its slot. */
  function DrawnText(b: Buffer, c: Canvas, px: int, py: int, offset: int, texts: seq<string>,
                     positions: seq<int>, colors: seq<int>, paint: Painter, k: nat): (r: Buffer)
    requires Drawable(c) && k < |texts| && HorizontalOk(texts, positions, colors)
    ensures WellShaped(b) ==> WellShaped(r) && SameShape(b, r)
  {
    DrawnElement(b, c, HorizontalX(px, positions, k), Clamp(Clamp(py) + Clamp(0)),
                 offset + k / |positions|, texts[k], SlotColor(texts, positions, colors, k), paint)
  }

  /** The setPixel calls of that DrawElement call. */
  function TextWrites(c: Canvas, px: int, py: int, offset: int, texts: seq<string>,
                      positions: seq<int>, colors: seq<int>, paint: Painter, k: nat): seq<Write>
    requires Drawable(c) && k < |texts| && HorizontalOk(texts, positions, colors)
  {
    ElementWrites(c, HorizontalX(px, positions, k), Clamp(Clamp(py) + Clamp(0)),
                  offset + k / |positions|, texts[k], SlotColor(texts, positions, colors, k), paint)
  }

  /** The buffer the first `k` texts of DrawElementsHorizontal leave behind. */
  function DrawnHorizontal(b: Buffer, c: Canvas, px: int, py: int, offset: int, texts: seq<string>,
                           positions: seq<int>, colors: seq<int>, paint: Painter, k: nat): (r: Buffer)
    requires Drawable(c) && k <= |texts| && HorizontalOk(texts, positions, colors)
    ensures WellShaped(b) ==> WellShaped(r) && SameShape(b, r)
  {
    if k == 0 then b
    else
      var prev := DrawnHorizontal(b, c, px, py, offset, texts, positions, colors, paint, k - 1);
      var r := DrawnText(prev, c, px, py, offset, texts, positions, colors, paint, k - 1);
      assert WellShaped(b) ==> SameShape(b, r) by {
        if WellShaped(b) {
          ShapeChain(b, prev, r);
        }
      }
      r
  }

  /** DrawElementsHorizontal's setPixel calls: the write lists of its
      DrawElement calls, text after text. */
  function HorizontalWrites(c: Canvas, px: int, py: int, offset: int, texts: seq<string>,
                            positions: seq<int>, colors: seq<int>, paint: Painter, k: nat): seq<Write>
    requires Drawable(c) && k <= |texts| && HorizontalOk(texts, positions, colors)
  {
    if k == 0 then []
    else HorizontalWrites(c, px, py, offset, texts, positions, colors, paint, k - 1) +
         TextWrites(c, px, py, offset, texts, positions, colors, paint, k - 1)
  }

  /** A text drawn after a list of writes is the list extended by the
      text's own writes. */
  lemma DrawnTextAfter(b: Buffer, before: seq<Write>, c: Canvas, px: int, py: int, offset: int,
                       texts: seq<string>, positions: seq<int>, colors: seq<int>, paint: Painter, k: nat)
    requires Drawable(c) && k < |texts| && HorizontalOk(texts, positions, colors)
    ensures DrawnText(ApplyWrites(b, before), c, px, py, offset, texts, positions, colors, paint, k) ==
            ApplyWrites(b, before + TextWrites(c, px, py, offset, texts, positions, colors, paint, k))
  {
    var x, y, o := HorizontalX(px, positions, k), Clamp(Clamp(py) + Clamp(0)), offset + k / |positions|;
    var color := SlotColor(texts, positions, colors, k);
    var ws := ElementWrites(c, x, y, o, texts[k], color, paint);
    assert ws == TextWrites(c, px, py, offset, texts, positions, colors, paint, k);
    DrawnElementWrites(ApplyWrites(b, before), c, x, y, o, texts[k], color, paint);
    ApplyWritesAppend(b, before, ws);
  }

  /** Text `j` is drawn on what the texts before it left, and its writes
      follow theirs. */
  lemma HorizontalUnfold(b: Buffer, c: Canvas, px: int, py: int, offset: int, texts: seq<string>,
                         positions: seq<int>, colors: seq<int>, paint: Painter, j: nat)
    requires Drawable(c) && j < |texts| && HorizontalOk(texts, positions, colors)
    ensures DrawnHorizontal(b, c, px, py, offset, texts, positions, colors, paint, j + 1) ==
            DrawnText(DrawnHorizontal(b, c, px, py, offset, texts, positions, colors, paint, j),
                      c, px, py, offset, texts, positions, colors, paint, j)
    ensures HorizontalWrites(c, px, py, offset, texts, positions, colors, paint, j + 1) ==
            HorizontalWrites(c, px, py, offset, texts, positions, colors, paint, j) +
            TextWrites(c, px, py, offset, texts, positions, colors, paint, j)
  {
  }

  /** One more text extends the write list by that text's writes. */
  lemma DrawnHorizontalWritesStep(b: Buffer, c: Canvas, px: int, py: int, offset: int,
                                  texts: seq<string>, positions: seq<int>, colors: seq<int>,
                                  paint: Painter, j: nat)
    requires Drawable(c) && j < |texts| && HorizontalOk(texts, positions, colors)
    requires DrawnHorizontal(b, c, px, py, offset, texts, positions, colors, paint, j) ==
             ApplyWrites(b, HorizontalWrites(c, px, py, offset, texts, positions, colors, paint, j))
    ensures DrawnHorizontal(b, c, px, py, offset, texts, positions, colors, paint, j + 1) ==
            ApplyWrites(b, HorizontalWrites(c, px, py, offset, texts, positions, colors, paint, j + 1))
  {
    HorizontalUnfold(b, c, px, py, offset, texts, positions, colors, paint, j);
    DrawnTextAfter(b, HorizontalWrites(c, px, py, offset, texts, positions, colors, paint, j),
                   c, px, py, offset, texts, positions, colors, paint, j);
  }

  /** Drawing texts side by side is applying their write lists in order. */
  lemma {:induction false} DrawnHorizontalWrites(b: Buffer, c: Canvas, px: int, py: int, offset: int,
                                                 texts: seq<string>, positions: seq<int>, colors: seq<int>,
                                                 paint: Painter, k: nat)
    requires Drawable(c) && k <= |texts| && HorizontalOk(texts, positions, colors)
    ensures DrawnHorizontal(b, c, px, py, offset, texts, positions, colors, paint, k) ==
            ApplyWrites(b, HorizontalWrites(c, px, py, offset, texts, positions, colors, paint, k))
    decreases k
  {
    if k > 0 {
      var j: nat := k - 1;
      DrawnHorizontalWrites(b, c, px, py, offset, texts, positions, colors, paint, j);
      DrawnHorizontalWritesStep(b, c, px, py, offset, texts, positions, colors, paint, j);
      assert j + 1 == k;
    }
  }

  /** Cell by cell, DrawElementsHorizontal leaves the value of the last write
      aimed at a cell, and a cell none of its texts reaches keeps its value
      and its dirty flag. */
  lemma DrawnHorizontalCell(b: Buffer, c: Canvas, px: int, py: int, offset: int, texts: seq<string>,
                            positions: seq<int>, colors: seq<int>, paint: Painter, x: int, y: int)
    requires Drawable(c) && HorizontalOk(texts, positions, colors)
    requires WellShaped(b) && InBuffer(b, x, y)
    ensures DrawnHorizontal(b, c, px, py, offset, texts, positions, colors, paint, |texts|).pixels[y][x] ==
            LastWriteAt(b.pixels[y][x], HorizontalWrites(c, px, py, offset, texts, positions, colors, paint, |texts|), x, y)
    ensures !WrittenAt(HorizontalWrites(c, px, py, offset, texts, positions, colors, paint, |texts|), x, y) ==>
              DrawnHorizontal(b, c, px, py, offset, texts, positions, colors, paint, |texts|).dirty[y][x] == b.dirty[y][x]
  {
    DrawnHorizontalWrites(b, c, px, py, offset, texts, positions, colors, paint, |texts|);
    ApplyWritesCell(b, HorizontalWrites(c, px, py, offset, texts, positions, colors, paint, |texts|), x, y);
  }

  /** The DrawElementsHorizontal call for row `r` of a table, `r` lines
      below the anchor. */
  function DrawnRow(b: Buffer, c: Canvas, px: int, py: int, offset: int, table: seq<seq<string>>,
                    positions: seq<int>, colors: seq<int>, paint: Painter, r: nat): (t: Buffer)
    requires Drawable(c) && r < |table| && TableOk(table, positions, colors)
    ensures WellShaped(b) ==> WellShaped(t) && SameShape(b, t)
  {
    DrawnHorizontal(b, c, px, py, offset + r, table[r], positions, colors, paint, |table[r]|)
  }

  /** The setPixel calls of that row. */
  function RowWrites(c: Canvas, px: int, py: int, offset: int, table: seq<seq<string>>,
                     positions: seq<int>, colors: seq<int>, paint: Painter, r: nat): seq<Write>
    requires Drawable(c) && r < |table| && TableOk(table, positions, colors)
  {
    HorizontalWrites(c, px, py, offset + r, table[r], positions, colors, paint, |table[r]|)
  }

  /** The buffer the first `r` rows of DrawTable leave behind. */
  function DrawnTable(b: Buffer, c: Canvas, px: int, py: int, offset: int, table: seq<seq<string>>,
                      positions: seq<int>, colors: seq<int>, paint: Painter, r: nat): (t: Buffer)
    requires Drawable(c) && r <= |table| && TableOk(table, positions, colors)
    ensures WellShaped(b) ==> WellShaped(t) && SameShape(b, t)
  {
    if r == 0 then b
    else
      var prev := DrawnTable(b, c, px, py, offset, table, positions, colors, paint, r - 1);
      var t := DrawnRow(prev, c, px, py, offset, table, positions, colors, paint, r - 1);
      assert WellShaped(b) ==> SameShape(b, t) by {
        if WellShaped(b) {
          ShapeChain(b, prev, t);
        }
      }
      t
  }

  /** DrawTable's setPixel calls: the write lists of its rows, row after
      row. */
  function TableWrites(c: Canvas, px: int, py: int, offset: int, table: seq<seq<string>>,
                       positions: seq<int>, colors: seq<int>, paint: Painter, r: nat): seq<Write>
    requires Drawable(c) && r <= |table| && TableOk(table, positions, colors)
  {
    if r == 0 then []
    else TableWrites(c, px, py, offset, table, positions, colors, paint, r - 1) +
         RowWrites(c, px, py, offset, table, positions, colors, paint, r - 1)
  }

  /** A row drawn after a list of writes is the list extended by the row's
      own writes. */
  lemma DrawnRowAfter(b: Buffer, before: seq<Write>, c: Canvas, px: int, py: int, offset: int,
                      table: seq<seq<string>>, positions: seq<int>, colors: seq<int>, paint: Painter, r: nat)
    requires Drawable(c) && r < |table| && TableOk(table, positions, colors)
    ensures DrawnRow(ApplyWrites(b, before), c, px, py, offset, table, positions, colors, paint, r) ==
            ApplyWrites(b, before + RowWrites(c, px, py, offset, table, positions, colors, paint, r))
  {
    var o, texts := offset + r, table[r];
    var a := ApplyWrites(b, before);
    var ws := HorizontalWrites(c, px, py, o, texts, positions, colors, paint, |texts|);
    assert ws == RowWrites(c, px, py, offset, table, positions, colors, paint, r);
    assert DrawnRow(a, c, px, py, offset, table, positions, colors, paint, r) ==
           DrawnHorizontal(a, c, px, py, o, texts, positions, colors, paint, |texts|);
    DrawnHorizontalWrites(a, c, px, py, o, texts, positions, colors, paint, |texts|);
    ApplyWritesAppend(b, before, ws);
  }

  /** Row `j` is drawn on what the rows before it left, and its writes
      follow theirs. */
  lemma TableUnfold(b: Buffer, c: Canvas, px: int, py: int, offset: int, table: seq<seq<string>>,
                    positions: seq<int>, colors: seq<int>, paint: Painter, j: nat)
    requires Drawable(c) && j < |table| && TableOk(table, positions, colors)
    ensures DrawnTable(b, c, px, py, offset, table, positions, colors, paint, j + 1) ==
            DrawnRow(DrawnTable(b, c, px, py, offset, table, positions, colors, paint, j),
                     c, px, py, offset, table, positions, colors, paint, j)
    ensures TableWrites(c, px, py, offset, table, positions, colors, paint, j + 1) ==
            TableWrites(c, px, py, offset, table, positions, colors, paint, j) +
            RowWrites(c, px, py, offset, table, positions, colors, paint, j)
  {
  }

  /** One more row extends the write list by that row's writes. */
  lemma DrawnTableWritesStep(b: Buffer, c: Canvas, px: int, py: int, offset: int,
                             table: seq<seq<string>>, positions: seq<int>, colors: seq<int>,
                             paint: Painter, j: nat)
    requires Drawable(c) && j < |table| && TableOk(table, positions, colors)
    requires DrawnTable(b, c, px, py, offset, table, positions, colors, paint, j) ==
             ApplyWrites(b, TableWrites(c, px, py, offset, table, positions, colors, paint, j))
    ensures DrawnTable(b, c, px, py, offset, table, positions, colors, paint, j + 1) ==
            ApplyWrites(b, TableWrites(c, px, py, offset, table, positions, colors, paint, j + 1))
  {
    TableUnfold(b, c, px, py, offset, table, positions, colors, paint, j);
    DrawnRowAfter(b, TableWrites(c, px, py, offset, table, positions, colors, paint, j),
                  c, px, py, offset, table, positions, colors, paint, j);
  }

  /** Drawing a table is applying the write lists of its rows in order. */
  lemma {:induction false} DrawnTableWrites(b: Buffer, c: Canvas, px: int, py: int, offset: int,
                                            table: seq<seq<string>>, positions: seq<int>, colors: seq<int>,
                                            paint: Painter, r: nat)
    requires Drawable(c) && r <= |table| && TableOk(table, positions, colors)
    ensures DrawnTable(b, c, px, py, offset, table, positions, colors, paint, r) ==
            ApplyWrites(b, TableWrites(c, px, py, offset, table, positions, colors, paint, r))
    decreases r
  {
    if r > 0 {
      var j: nat := r - 1;
      DrawnTableWrites(b, c, px, py, offset, table, positions, colors, paint, j);
      DrawnTableWritesStep(b, c, px, py, offset, table, positions, colors, paint, j);
      assert j + 1 == r;
    }
  }

  /** Cell by cell, DrawTable leaves the value of the last write aimed at a
      cell, and a cell none of its rows reaches keeps its value and its
      dirty flag. */
  lemma DrawnTableCell(b: Buffer, c: Canvas, px: int, py: int, offset: int, table: seq<seq<string>>,
                       positions: seq<int>, colors: seq<int>, paint: Painter, x: int, y: int)
    requires Drawable(c) && TableOk(table, positions, colors)
    requires WellShaped(b) && InBuffer(b, x, y)
    ensures DrawnTable(b, c, px, py, offset, table, positions, colors, paint, |table|).pixels[y][x] ==
            LastWriteAt(b.pixels[y][x], TableWrites(c, px, py, offset, table, positions, colors, paint, |table|), x, y)
    ensures !WrittenAt(TableWrites(c, px, py, offset, table, positions, colors, paint, |table|), x, y) ==>
              DrawnTable(b, c, px, py, offset, table, positions, colors, paint, |table|).dirty[y][x] == b.dirty[y][x]
  {
    DrawnTableWrites(b, c, px, py, offset, table, positions, colors, paint, |table|);
    ApplyWritesCell(b, TableWrites(c, px, py, offset, table, positions, colors, paint, |table|), x, y);
  }

  /** Drawing keeps the buffer's shape: setPixel never adds or removes a cell. */
  lemma {:induction false} DrawnLineShape(b: Buffer, c: Canvas, col: int, row: int, line: string,
                                          color: int, paint: Painter, j: nat)
    requires Drawable(c) && j <= |line| && WellShaped(b)
    ensures WellShaped(DrawnLine(b, c, col, row, line, color, paint, j))
    ensures SameShape(b, DrawnLine(b, c, col, row, line, color, paint, j))
    decreases j
  {
    if j > 0 {
      DrawnLineShape(b, c, col, row, line, color, paint, j - 1);
      PutPixelShape(DrawnLine(b, c, col, row, line, color, paint, j - 1),
                    GoMod(col + ByteIndex(line, j - 1), c.columns), GoMod(row, c.rows), paint([line[j - 1]], color));
    }
  }

  lemma {:induction false} DrawnLinesShape(b: Buffer, c: Canvas, col: int, row: int, lines: seq<string>,
                                           color: int, paint: Painter, k: nat)
    requires Drawable(c) && k <= |lines| && WellShaped(b)
    ensures WellShaped(DrawnLines(b, c, col, row, lines, color, paint, k))
    ensures SameShape(b, DrawnLines(b, c, col, row, lines, color, paint, k))
    decreases k
  {
    if k > 0 {
      DrawnLinesShape(b, c, col, row, lines, color, paint, k - 1);
      DrawnLineShape(DrawnLines(b, c, col, row, lines, color, paint, k - 1),
                     c, col, row + k - 1, lines[k - 1], color + k - 1, paint, |lines[k - 1]|);
    }
  }

  /** The animation parameters the drawing code uses; the easing kind is
      passed separately as the curve it selects. */
  datatype Animation = Animation(duration: int, direction: int, gradientV: bool, gradientH: bool)

  /** The easing factor MoveElement starts with, then the one of frame
      `i - 1`: the erase of frame `i` uses the factor the previous frame drew
      with. */
  function FactorBefore(curve: (int, int) -> real, frames: int, i: nat): real {
    if i == 0 then 0.0 else curve(frames, i - 1)
  }

  /** The colour of a frame of MoveElement: with either gradient flag the
      colour climbs one step of 36 per fifth of the way. */
  function MoveColor(color: int, anim: Animation, factor: real): int {
    if anim.gradientV || anim.gradientH then color + 36 * Trunc(5.0 * factor) else color
  }

  /** The position MoveElement draws at for a factor: `start + distance *
      factor`, as MultiplyWith and AddDistance compute it, on one axis. */
  function MoveAxis(start: int, delta: int, factor: real): int {
    Clamp(start + ScaleAxis(delta, factor))
  }

  /** The buffer after the first `i` frames of MoveElement: frame `i - 1`
      erases the text where the frame before it drew (at factor 0 for the
      first frame), then draws it at its own eased factor, on the start
      position's offset. */
  function DrawnMove(b: Buffer, c: Canvas, sx: int, sy: int, soffset: int, dx: int, dy: int,
                     text: string, color: int, anim: Animation, curve: (int, int) -> real,
                     frames: int, paint: Painter, i: nat): (r: Buffer)
    requires Drawable(c)
    ensures WellShaped(b) ==> WellShaped(r) && SameShape(b, r)
  {
    if i == 0 then b
    else
      var prev := DrawnMove(b, c, sx, sy, soffset, dx, dy, text, color, anim, curve, frames, paint, i - 1);
      var before := FactorBefore(curve, frames, i - 1);
      var factor := curve(frames, i - 1);
      var erased := DrawnElement(prev, c, MoveAxis(sx, dx, before), MoveAxis(sy, dy, before), soffset,
                                 text, Terminal.BLANK, paint);
      var r := DrawnElement(erased, c, MoveAxis(sx, dx, factor), MoveAxis(sy, dy, factor), soffset,
                            text, MoveColor(color, anim, factor), paint);
      assert WellShaped(b) ==> SameShape(b, r) by {
        if WellShaped(b) {
          ShapeChain(b, prev, erased);
          ShapeChain(b, erased, r);
        }
      }
      r
  }

  /** Each erase of MoveElement rewrites every cell the previous frame drew:
      frame `i` places its blank text with the factor frame `i - 1` drew
      with, at the same offset, so its writes reach every cell the coloured
      drawing of frame `i - 1` reached. */
  lemma MoveErasesPreviousDraw(c: Canvas, sx: int, sy: int, soffset: int, dx: int, dy: int,
                               text: string, color: int, anim: Animation, curve: (int, int) -> real,
                               frames: int, paint: Painter, i: nat)
    requires Drawable(c) && i > 0
    ensures Covers(ElementWrites(c, MoveAxis(sx, dx, curve(frames, i - 1)), MoveAxis(sy, dy, curve(frames, i - 1)),
                                 soffset, text, MoveColor(color, anim, curve(frames, i - 1)), paint),
                   ElementWrites(c, MoveAxis(sx, dx, FactorBefore(curve, frames, i)),
                                 MoveAxis(sy, dy, FactorBefore(curve, frames, i)),
                                 soffset, text, Terminal.BLANK, paint))
  {
    assert FactorBefore(curve, frames, i) == curve(frames, i - 1);
    EraseCoversDraw(c, MoveAxis(sx, dx, curve(frames, i - 1)), MoveAxis(sy, dy, curve(frames, i - 1)),
                    soffset, text, MoveColor(color, anim, curve(frames, i - 1)), paint);
  }

  /** When the easing curve ends at 1, the last frame of MoveElement draws
      exactly at the end position whenever the distance fits in [-100,
      100] on both axes. */
  lemma MoveEndsAtEnd(sx: int, sy: int, ex: int, ey: int, curve: (int, int) -> real, frames: int)
    requires InPercentRange(sx) && InPercentRange(sy) && InPercentRange(ex) && InPercentRange(ey)
    requires curve(frames, frames) == 1.0
    requires InPercentRange(ex - sx) && InPercentRange(ey - sy)
    ensures MoveAxis(sx, Clamp(ex - sx), curve(frames, frames)) == ex
    ensures MoveAxis(sy, Clamp(ey - sy), curve(frames, frames)) == ey
  {
    ScaleAxisExamples(Clamp(ex - sx));
    ScaleAxisExamples(Clamp(ey - sy));
    AddDistanceReachesEnd(sx, ex);
    AddDistanceReachesEnd(sy, ey);
  }

  /** The step vectors of DrawPattern's switchDir: `along` spreads the lines
      of the text, `across` advances the sweep. */
  datatype Steps = Steps(alongRow: int, alongColumn: int, acrossRow: int, acrossColumn: int)

  /** Directions 0 (right), 1 (left), 2 (down) and 3 (up); any other
      direction draws nothing. The two steps are perpendicular unit vectors,
      and the sweep is horizontal exactly for right and left. */
  function DirectionSteps(direction: int): (s: Option<Steps>)
    ensures s.Some? <==> 0 <= direction <= 3
    ensures s.Some? ==>
              Abs(s.value.alongRow) + Abs(s.value.alongColumn) == 1 &&
              Abs(s.value.acrossRow) + Abs(s.value.acrossColumn) == 1 &&
              s.value.alongRow * s.value.acrossRow + s.value.alongColumn * s.value.acrossColumn == 0 &&
              (s.value.acrossRow == 0 <==> direction <= 1)
  {
    if direction == 0 then Some(Steps(1, 0, 0, 1))
    else if direction == 1 then Some(Steps(1, 0, 0, -1))
    else if direction == 2 then Some(Steps(0, 1, 1, 0))
    else if direction == 3 then Some(Steps(0, 1, -1, 0))
    else None
  }

  /** drawPixel takes the first rune of every line. */
  predicate NoEmptyLine(lines: seq<string>) {
    forall i :: 0 <= i < |lines| ==> |lines[i]| > 0
  }

  /** drawPixel's base colour: with the vertical gradient one step per fifth
      of the sweep. */
  function PixelBase(color: int, anim: Animation, factorColor: real): int {
    if anim.gradientV then color + Trunc(5.0 * factorColor) else color
  }

  /** The value of line `k`'s glyph: with the horizontal gradient the colour
      climbs by 36 per line, reduced with Go's `% 255`. */
  function PixelValue(glyph: string, base: int, k: int, anim: Animation, paint: Painter): string {
    if anim.gradientH then paint(glyph, GoMod(base + k * 36, 255)) else paint(glyph, base)
  }

  /** The buffer after drawPixel's first `k` lines: line `i` puts its
      first rune `i` steps along from (h, w), both coordinates reduced with
      Go's `%`. */
  function DrawnPixel(b: Buffer, c: Canvas, h: int, w: int, st: Steps, lines: seq<string>,
                      base: int, anim: Animation, paint: Painter, k: nat): (r: Buffer)
    requires Drawable(c) && k <= |lines| && NoEmptyLine(lines)
    ensures WellShaped(b) ==> WellShaped(r) && SameShape(b, r)
  {
    if k == 0 then b
    else
      var prev := DrawnPixel(b, c, h, w, st, lines, base, anim, paint, k - 1);
      var x, y := GoMod(w + st.alongColumn * (k - 1), c.columns), GoMod(h + st.alongRow * (k - 1), c.rows);
      var v := PixelValue([lines[k - 1][0]], base, k - 1, anim, paint);
      var r := PutPixel(prev, x, y, v);
      assert WellShaped(b) ==> WellShaped(r) && SameShape(b, r) by {
        if WellShaped(b) {
          PutPixelShape(prev, x, y, v);
          ShapeChain(b, prev, r);
        }
      }
      r
  }

  /** The `y` drawPixel keeps: the largest unwrapped row it reached. */
  function PixelTop(y: int, h: int, st: Steps, k: nat): int {
    if k == 0 then y else Max(PixelTop(y, h, st, k - 1), h + st.alongRow * (k - 1))
  }

  /** The buffer after the first `n` steps of a sweep of switchDir: step
      `i` runs drawPixel `i` steps across from the start, with the eased
      colour factor of step `i` out of `expAbs`. */
  function DrawnSweep(b: Buffer, c: Canvas, sh: int, sw: int, st: Steps, lines: seq<string>, color: int,
                      anim: Animation, curve: (int, int) -> real, expAbs: int, paint: Painter,
                      n: nat): (r: Buffer)
    requires Drawable(c) && NoEmptyLine(lines)
    ensures WellShaped(b) ==> WellShaped(r) && SameShape(b, r)
  {
    if n == 0 then b
    else
      var prev := DrawnSweep(b, c, sh, sw, st, lines, color, anim, curve, expAbs, paint, n - 1);
      var r := DrawnPixel(prev, c, sh + st.acrossRow * (n - 1), sw + st.acrossColumn * (n - 1), st, lines,
                          PixelBase(color, anim, curve(expAbs, n - 1)), anim, paint, |lines|);
      assert WellShaped(b) ==> SameShape(b, r) by {
        if WellShaped(b) {
          ShapeChain(b, prev, r);
        }
      }
      r
  }

  function SweepTop(y: int, sh: int, st: Steps, lineCount: nat, n: nat): int {
    if n == 0 then y
    else PixelTop(SweepTop(y, sh, st, lineCount, n - 1), sh + st.acrossRow * (n - 1), st, lineCount)
  }

  /** The expansion in cells: a percentage of the frame width for a
      horizontal sweep, of the frame height for a vertical one. */
  function ExpansionCells(c: Canvas, direction: int, percent: int): int {
    if direction == 0 || direction == 1 then PercentOf(c.frameWidth, percent)
    else PercentOf(c.frameHeight, percent)
  }

  /** `for counter := 0; counter <= expAbs; counter++` runs `expAbs + 1` times. */
  function SweepCount(expAbs: int): nat {
    if expAbs >= 0 then expAbs + 1 else 0
  }

  /** switchDir: one sweep at the given expansion, or nothing for an
      unknown direction. */
  function DrawnDirection(b: Buffer, c: Canvas, sh: int, sw: int, percent: int, lines: seq<string>,
                          color: int, anim: Animation, curve: (int, int) -> real,
                          paint: Painter): (r: Buffer)
    requires Drawable(c) && NoEmptyLine(lines)
    ensures WellShaped(b) ==> WellShaped(r) && SameShape(b, r)
  {
    match DirectionSteps(anim.direction)
    case None => b
    case Some(st) =>
      var expAbs := ExpansionCells(c, anim.direction, percent);
      DrawnSweep(b, c, sh, sw, st, lines, color, anim, curve, expAbs, paint, SweepCount(expAbs))
  }

  function DirectionTop(y: int, c: Canvas, sh: int, percent: int, lineCount: nat,
                        anim: Animation): int
  {
    match DirectionSteps(anim.direction)
    case None => y
    case Some(st) =>
      SweepTop(y, sh, st, lineCount, SweepCount(ExpansionCells(c, anim.direction, percent)))
  }

  /** The expansion of animation frame `i`: the eased share of the full
      expansion, rounded half up by adding 0.5 before truncating. */
  function FrameExpansion(expansion: int, curve: (int, int) -> real, frames: int, i: int): int {
    Trunc(expansion as real * curve(frames, i) + 0.5)
  }

  /** The buffer after the first `i` animation frames of DrawPattern:
      frame `i` sweeps at its eased share of the expansion. */
  function DrawnFrames(b: Buffer, c: Canvas, sh: int, sw: int, expansion: int, lines: seq<string>,
                       color: int, anim: Animation, curve: (int, int) -> real,
                       frames: int, paint: Painter, i: nat): (r: Buffer)
    requires Drawable(c) && NoEmptyLine(lines)
    ensures WellShaped(b) ==> WellShaped(r) && SameShape(b, r)
  {
    if i == 0 then b
    else
      var prev := DrawnFrames(b, c, sh, sw, expansion, lines, color, anim, curve, frames, paint, i - 1);
      var r := DrawnDirection(prev, c, sh, sw, FrameExpansion(expansion, curve, frames, i - 1),
                              lines, color, anim, curve, paint);
      assert WellShaped(b) ==> SameShape(b, r) by {
        if WellShaped(b) {
          ShapeChain(b, prev, r);
        }
      }
      r
  }

  function FramesTop(y: int, c: Canvas, sh: int, expansion: int, lineCount: nat,
                     anim: Animation, curve: (int, int) -> real, frames: int, i: nat): int
  {
    if i == 0 then y
    else DirectionTop(FramesTop(y, c, sh, expansion, lineCount, anim, curve, frames, i - 1),
                      c, sh, FrameExpansion(expansion, curve, frames, i - 1), lineCount, anim)
  }

  /** An unknown direction makes every frame of DrawPattern draw nothing
      and leaves its `y` where it started. */
  lemma {:induction false} UnknownDirectionDrawsNothing(
    b: Buffer, c: Canvas, sh: int, sw: int, expansion: int, lines: seq<string>, color: int,
    anim: Animation, curve: (int, int) -> real, frames: int, paint: Painter, y: int, i: nat)
    requires Drawable(c) && NoEmptyLine(lines)
    requires !(0 <= anim.direction <= 3)
    ensures DrawnFrames(b, c, sh, sw, expansion, lines, color, anim, curve, frames, paint, i) == b
    ensures FramesTop(y, c, sh, expansion, |lines|, anim, curve, frames, i) == y
  {
    if i > 0 {
      UnknownDirectionDrawsNothing(b, c, sh, sw, expansion, lines, color, anim, curve, frames, paint, y, i - 1);
    }
  }

  /** drawPixel's `y` is the larger of the `y` it started from and the row
      of its last line: lines only ever step down or stay on the row. */
  lemma {:induction false} PixelTopIsLastLine(y: int, h: int, st: Steps, k: nat)
    requires st.alongRow >= 0
    ensures PixelTop(y, h, st, k) == if k == 0 then y else Max(y, h + st.alongRow * (k - 1))
  {
    if k > 1 {
      PixelTopIsLastLine(y, h, st, k - 1);
      assert st.alongRow * (k - 2) <= st.alongRow * (k - 1) by {
        MulMonotone(st.alongRow, k - 2, k - 1);
      }
    }
  }

  /** The guard of DrawPattern as written: an expansion in [0, 200] and a
      non-empty text. */
  predicate PatternGuardAsWritten(expansion: int, text: string) {
    0 <= expansion <= 200 && text != ""
  }

  /** The guard lets "\n" through, yet its only line is empty, so drawPixel's
      first-rune lookup has nothing to read. */
  lemma EmptyLinePassesGuard()
    ensures PatternGuardAsWritten(0, "\n")
    ensures GetLines("\n", false) == [""]
    ensures !NoEmptyLine(GetLines("\n", false))
  {
    GetLinesLoneNewline();
  }

  /** The guard that also rejects a text with an empty line. */
  predicate PatternGuard(expansion: int, text: string) {
    PatternGuardAsWritten(expansion, text) && NoEmptyLine(GetLines(text, false))
  }

  /** The corrected guard is exactly "expansion in range and every line has
      a first rune": the empty text needs no test of its own, since its one
      line is empty. */
  lemma PatternGuardExact(expansion: int, text: string)
    ensures PatternGuard(expansion, text) <==>
              0 <= expansion <= 200 && NoEmptyLine(GetLines(text, false))
  {
    if text == "" {
      assert TrimNewline(text) == "";
      assert GetLines(text, false)[0] == "";
    }
  }
}
