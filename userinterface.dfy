/** The user interface of animaterm: a buffer of terminal cells with one
    dirty flag per cell, four borders that shrink the drawable frame, the
    frame period of the render loop, and the drawing operations that place
    text in the buffer. */
module UI {
  import opened GoInt
  import opened Outcomes
  import opened Text
  import opened Positions
  import opened Screen
  import opened Layout
  import Terminal

  /** The frame period CreateUI starts with and the render loop falls back
      to when nothing is dirty, and the one it switches to after printing a
      changed frame, in milliseconds. */
  const IdleFrameMs: int := 320
  const BusyFrameMs: int := 30

  /** A border may take at most half of the terminal on its side. */
  const MaxBorderPercent: int := 50

  predicate BorderInRange(percent: int) {
    0 <= percent <= MaxBorderPercent
  }

  /** `%d` of a Go integer. */
  function Decimal(n: int): string
    decreases if n < 0 then 1 else 0, Abs(n)
  {
    if n < 0 then "-" + Decimal(-n)
    else if n < 10 then [Terminal.Digit(n)]
    else Decimal(n / 10) + [Terminal.Digit(n % 10)]
  }

  function BorderError(percent: int): Outcome {
    Err("border percent must be between 0 and 50, got " + Decimal(percent))
  }

  /** What one tick of the render loop prints: the frame text, after which
      the cursor goes to row `cursorRow`. */
  datatype Printed = Printed(frame: string, cursorRow: int)

  /** The painter of the drawing operations: Color, with `draw` standing for
      the random source behind RANDOM and RANDOMGREY. */
  function Painted(draw: nat): Painter {
    (s, col) => Terminal.Color(s, col, draw)
  }

  /** A border of `percent` in [0, 50] takes at most half of the dimension,
      so two opposite borders never take more than all of it. */
  lemma BordersFit(total: int, p: int, q: int)
    requires total >= 0 && BorderInRange(p) && BorderInRange(q)
    ensures 0 <= PercentOf(total, p) && 2 * PercentOf(total, p) <= total
    ensures PercentOf(total, p) + PercentOf(total, q) <= total
  {
    PercentOfBounds(total, p);
    PercentOfBounds(total, q);
    PercentOfMonotone(total, p, MaxBorderPercent);
    PercentOfMonotone(total, q, MaxBorderPercent);
    HalfFits(total);
  }

  lemma HalfFits(total: int)
    requires total >= 0
    ensures 2 * PercentOf(total, MaxBorderPercent) <= total
  {
    GoModAgreesWhenNonNegative(total * 50, 100);
    assert total * 50 == (total / 2) * 100 + (total % 2) * 50;
  }

  lemma SameRemainder(a: int, b: int, m: int, n: int)
    requires a == b && m == n && n != 0
    ensures GoMod(a, m) == GoMod(b, n)
  {
  }

  class UserInterface {
    var absBorderLeft: int
    var absBorderRight: int
    var absBorderTop: int
    var absBorderBottom: int
    var pixels: seq<seq<string>>
    var dirtyRegions: seq<seq<bool>>
    var height: int
    var width: int
    var msPerFrame: int

    function Grid(): Buffer
      reads this`pixels, this`dirtyRegions
    {
      Buffer(pixels, dirtyRegions)
    }

    /** The shape initPixels gives the buffer, which setPixel keeps, and a
        positive frame period. */
    ghost predicate Valid()
      reads this
    {
      WellShaped(Grid()) && height >= 0 && width >= 0 && |pixels| == height + 1 &&
      (forall i :: 0 <= i < height ==> |pixels[i]| == width + 1) &&
      msPerFrame > 0
    }

    /** CreateUI: no borders, the idle frame period, and a fresh buffer of
        the terminal's size. */
    constructor CreateUI(probe: Terminal.SizeProbe)
      ensures Valid()
      ensures absBorderLeft == 0 && absBorderRight == 0 && absBorderTop == 0 && absBorderBottom == 0
      ensures msPerFrame == IdleFrameMs
      ensures height == Terminal.Height(probe) && width == Terminal.Width(probe)
      ensures IsFreshBuffer(Grid(), height, width)
    {
      absBorderLeft, absBorderRight, absBorderTop, absBorderBottom := 0, 0, 0, 0;
      msPerFrame := IdleFrameMs;
      pixels, dirtyRegions, height, width := [], [], 0, 0;
      new;
      InitPixels(Terminal.Height(probe), Terminal.Width(probe));
    }

    /** initPixels: `h + 1` rows, the first `h` of `w + 1` cells, of which
        the first `w` hold a space and are dirty. */
    method InitPixels(h: int, w: int)
      requires h >= 0 && w >= 0
      modifies this`pixels, this`dirtyRegions, this`height, this`width
      ensures height == h && width == w
      ensures IsFreshBuffer(Grid(), h, w)
    {
      height, width := h, w;
      pixels := seq(h + 1, _ => []);
      dirtyRegions := seq(h + 1, _ => []);
      for r := 0 to h
        invariant height == h && width == w
        invariant |pixels| == |dirtyRegions| == h + 1
        invariant forall i :: r <= i <= h ==> pixels[i] == [] && dirtyRegions[i] == []
        invariant forall i :: 0 <= i < r ==> |pixels[i]| == |dirtyRegions[i]| == w + 1
        invariant forall i, j :: 0 <= i < r && 0 <= j < w ==> pixels[i][j] == " " && dirtyRegions[i][j]
        invariant forall i :: 0 <= i < r ==> pixels[i][w] == "" && !dirtyRegions[i][w]
      {
        var row: seq<string> := seq(w + 1, _ => "");
        var flags: seq<bool> := seq(w + 1, _ => false);
        for c := 0 to w
          invariant |row| == |flags| == w + 1
          invariant forall j :: 0 <= j < c ==> row[j] == " " && flags[j]
          invariant forall j :: c <= j <= w ==> row[j] == "" && !flags[j]
        {
          row := row[c := " "];
          flags := flags[c := true];
        }
        pixels := pixels[r := row];
        dirtyRegions := dirtyRegions[r := flags];
      }
    }

    /** setPixel: the bounds-checked write of one cell. */
    method SetPixel(x: int, y: int, value: string)
      requires WellShaped(Grid())
      modifies this`pixels, this`dirtyRegions
      ensures Grid() == PutPixel(old(Grid()), x, y, value)
    {
      if y >= 0 && y < |pixels| && x >= 0 && x < |pixels[y]| {
        if pixels[y][x] != value {
          pixels := pixels[y := pixels[y][x := value]];
          dirtyRegions := dirtyRegions[y := dirtyRegions[y][x := true]];
        }
      }
    }

    /** clearDirtyRegions: every flag of the `height x width` area drops,
        every other flag and every cell stays. */
    method ClearDirtyRegions()
      requires Valid()
      modifies this`dirtyRegions
      ensures Valid()
      ensures ClearedFlags(old(dirtyRegions), dirtyRegions, height, width)
      ensures !AnyDirty(dirtyRegions, height, width)
    {
      for r := 0 to height
        invariant Valid()
        invariant ClearedFlags(old(dirtyRegions), dirtyRegions, r, width)
      {
        for c := 0 to width
          invariant Valid()
          invariant |dirtyRegions| == |old(dirtyRegions)|
          invariant forall i :: 0 <= i < |dirtyRegions| ==> |dirtyRegions[i]| == |old(dirtyRegions)[i]|
          invariant forall i, j :: 0 <= i < |dirtyRegions| && 0 <= j < |dirtyRegions[i]| ==>
                      dirtyRegions[i][j] ==
                        (if (i < r && j < width) || (i == r && j < c) then false else old(dirtyRegions)[i][j])
        {
          dirtyRegions := dirtyRegions[r := dirtyRegions[r][c := false]];
        }
      }
    }

    /** The dirty scan of the render loop over `rh` rows and `rw` columns,
        which stops at the first raised flag. */
    method HasDirty(rh: nat, rw: nat) returns (found: bool)
      requires WellShaped(Grid()) && Scannable(pixels, rh, rw)
      ensures found == AnyDirty(dirtyRegions, rh, rw)
    {
      found := false;
      var r := 0;
      while r < rh && !found
        invariant 0 <= r <= rh
        invariant found ==> AnyDirty(dirtyRegions, rh, rw)
        invariant !found ==> forall i, j :: 0 <= i < r && 0 <= j < rw ==> !dirtyRegions[i][j]
      {
        var c := 0;
        while c < rw && !found
          invariant 0 <= c <= rw
          invariant found ==> AnyDirty(dirtyRegions, rh, rw)
          invariant !found ==> forall j :: 0 <= j < c ==> !dirtyRegions[r][j]
        {
          if dirtyRegions[r][c] {
            found := true;
          }
          c := c + 1;
        }
        r := r + 1;
      }
    }

    /** The serialisation of the render loop: the frame text of the first
        `rh` rows and the row the cursor goes to afterwards. */
    method SerializeFrame(rh: nat, rw: nat) returns (frame: string, lastContentRow: int)
      requires Scannable(pixels, rh, rw)
      ensures frame == FrameText(pixels, rh, rw)
      ensures lastContentRow == LastContentRow(pixels, rh, rw, rh)
    {
      var grid := pixels;
      frame, lastContentRow := "", rh;
      for r := 0 to rh
        invariant frame == FrameText(grid, r, rw)
        invariant lastContentRow == LastContentRow(grid, r, rw, rh)
      {
        var lineBuffer := JoinRow(grid[r], rw);
        if CountSpaces(lineBuffer) == rw {
          frame := frame + CursorDown;
        } else {
          frame := frame + lineBuffer;
          lastContentRow := r + 2;
        }
      }
    }

    /** One tick of drawLoop over `rh` rows and `rw` columns, given the
        frame printed last (`screen`). Without a dirty flag the loop only
        slows down to the idle period. Otherwise it rebuilds the frame; a
        frame that differs from the last is printed, the period drops to the
        busy one and the flags are cleared, so the next tick idles unless
        something is drawn in between. */
    method RenderStep(rh: nat, rw: nat, screen: string) returns (newScreen: string, printed: Option<Printed>)
      requires Valid() && Scannable(pixels, rh, rw)
      modifies this`msPerFrame, this`dirtyRegions
      ensures Valid() && pixels == old(pixels)
      ensures !old(AnyDirty(dirtyRegions, rh, rw)) ==>
                newScreen == screen && printed == None && msPerFrame == IdleFrameMs &&
                dirtyRegions == old(dirtyRegions)
      ensures old(AnyDirty(dirtyRegions, rh, rw)) ==> newScreen == FrameText(pixels, rh, rw)
      ensures printed.Some? <==> old(AnyDirty(dirtyRegions, rh, rw)) && FrameText(pixels, rh, rw) != screen
      ensures printed.Some? ==>
                printed.value == Printed(FrameText(pixels, rh, rw), LastContentRow(pixels, rh, rw, rh)) &&
                msPerFrame == BusyFrameMs && ClearedFlags(old(dirtyRegions), dirtyRegions, height, width)
      ensures printed.Some? && rh <= height && rw <= width ==> !AnyDirty(dirtyRegions, rh, rw)
      ensures old(AnyDirty(dirtyRegions, rh, rw)) && printed == None ==>
                msPerFrame == old(msPerFrame) && dirtyRegions == old(dirtyRegions)
    {
      var hasDirty := HasDirty(rh, rw);
      printed := None;
      if hasDirty {
        var oldbuff := screen;
        var lastContentRow;
        newScreen, lastContentRow := SerializeFrame(rh, rw);
        if oldbuff != newScreen {
          msPerFrame := BusyFrameMs;
          printed := Some(Printed(newScreen, lastContentRow));
          ClearDirtyRegions();
        }
      } else {
        newScreen := screen;
        msPerFrame := IdleFrameMs;
      }
    }

    /** PercentToAbsoluteWidth: a percentage in [0, 100] of the terminal
        width is a column count within it. */
    function PercentToAbsoluteWidth(probe: Terminal.SizeProbe, percent: int): (r: int)
      ensures 0 <= percent <= 100 ==> 0 <= r <= Terminal.Width(probe)
    {
      assert 0 <= percent <= 100 ==> 0 <= PercentOf(Terminal.Width(probe), percent) <= Terminal.Width(probe) by {
        if 0 <= percent <= 100 {
          PercentOfBounds(Terminal.Width(probe), percent);
        }
      }
      PercentOf(Terminal.Width(probe), percent)
    }

    function PercentToAbsoluteHeight(probe: Terminal.SizeProbe, percent: int): (r: int)
      ensures 0 <= percent <= 100 ==> 0 <= r <= Terminal.Height(probe)
    {
      assert 0 <= percent <= 100 ==> 0 <= PercentOf(Terminal.Height(probe), percent) <= Terminal.Height(probe) by {
        if 0 <= percent <= 100 {
          PercentOfBounds(Terminal.Height(probe), percent);
        }
      }
      PercentOf(Terminal.Height(probe), percent)
    }

    /** GetAbsFrameWidth: the columns between the left and right borders. */
    function GetAbsFrameWidth(probe: Terminal.SizeProbe): (r: int)
      reads this`absBorderLeft, this`absBorderRight
      ensures absBorderLeft + r + absBorderRight == Terminal.Width(probe)
    {
      Terminal.Width(probe) - absBorderLeft - absBorderRight
    }

    /** GetAbsFrameHeight: the rows between the top and bottom borders. */
    function GetAbsFrameHeight(probe: Terminal.SizeProbe): (r: int)
      reads this`absBorderTop, this`absBorderBottom
      ensures absBorderTop + r + absBorderBottom == Terminal.Height(probe)
    {
      Terminal.Height(probe) - absBorderTop - absBorderBottom
    }

    function PercentToAbsoluteWidthInFrame(probe: Terminal.SizeProbe, percent: int): (r: int)
      reads this`absBorderLeft, this`absBorderRight
      ensures 0 <= percent <= 100 && GetAbsFrameWidth(probe) >= 0 ==> 0 <= r <= GetAbsFrameWidth(probe)
      ensures r == -PercentOf(GetAbsFrameWidth(probe), -percent)
    {
      PercentOfOdd(GetAbsFrameWidth(probe), percent);
      assert 0 <= percent <= 100 && GetAbsFrameWidth(probe) >= 0 ==>
               0 <= PercentOf(GetAbsFrameWidth(probe), percent) <= GetAbsFrameWidth(probe) by {
        if 0 <= percent <= 100 && GetAbsFrameWidth(probe) >= 0 {
          PercentOfBounds(GetAbsFrameWidth(probe), percent);
        }
      }
      PercentOf(GetAbsFrameWidth(probe), percent)
    }

    function PercentToAbsoluteHeightInFrame(probe: Terminal.SizeProbe, percent: int): (r: int)
      reads this`absBorderTop, this`absBorderBottom
      ensures 0 <= percent <= 100 && GetAbsFrameHeight(probe) >= 0 ==> 0 <= r <= GetAbsFrameHeight(probe)
      ensures r == -PercentOf(GetAbsFrameHeight(probe), -percent)
    {
      PercentOfOdd(GetAbsFrameHeight(probe), percent);
      assert 0 <= percent <= 100 && GetAbsFrameHeight(probe) >= 0 ==>
               0 <= PercentOf(GetAbsFrameHeight(probe), percent) <= GetAbsFrameHeight(probe) by {
        if 0 <= percent <= 100 && GetAbsFrameHeight(probe) >= 0 {
          PercentOfBounds(GetAbsFrameHeight(probe), percent);
        }
      }
      PercentOf(GetAbsFrameHeight(probe), percent)
    }

    /** PercentToAbsoluteXPostion: a percentage in [0, 100] of the frame
        lands between the left and the right border. */
    function PercentToAbsoluteXPostion(probe: Terminal.SizeProbe, percent: int): (r: int)
      reads this`absBorderLeft, this`absBorderRight
      ensures 0 <= percent <= 100 && GetAbsFrameWidth(probe) >= 0 ==>
                absBorderLeft <= r <= Terminal.Width(probe) - absBorderRight
    {
      PercentToAbsoluteWidthInFrame(probe, percent) + absBorderLeft
    }

    /** PercentToAbsoluteYPostion: a percentage in [0, 100] of the frame
        lands between the top and the bottom border. */
    function PercentToAbsoluteYPostion(probe: Terminal.SizeProbe, percent: int): (r: int)
      reads this`absBorderTop, this`absBorderBottom
      ensures 0 <= percent <= 100 && GetAbsFrameHeight(probe) >= 0 ==>
                absBorderTop <= r <= Terminal.Height(probe) - absBorderBottom
    {
      PercentToAbsoluteHeightInFrame(probe, percent) + absBorderTop
    }

    /** SetBorderLeft: a percentage outside [0, 50] is refused and changes
        nothing; otherwise the left border takes that share of the width. */
    method SetBorderLeft(percent: int, probe: Terminal.SizeProbe) returns (err: Outcome)
      modifies this`absBorderLeft
      ensures BorderInRange(percent) ==>
                err == Ok && absBorderLeft == PercentOf(Terminal.Width(probe), percent)
      ensures !BorderInRange(percent) ==> err == BorderError(percent) && absBorderLeft == old(absBorderLeft)
    {
      if percent < 0 || percent > MaxBorderPercent {
        return BorderError(percent);
      }
      absBorderLeft := GoDiv(Terminal.Width(probe) * percent, 100);
      err := Ok;
    }

    method SetBorderRight(percent: int, probe: Terminal.SizeProbe) returns (err: Outcome)
      modifies this`absBorderRight
      ensures BorderInRange(percent) ==>
                err == Ok && absBorderRight == PercentOf(Terminal.Width(probe), percent)
      ensures !BorderInRange(percent) ==> err == BorderError(percent) && absBorderRight == old(absBorderRight)
    {
      if percent < 0 || percent > MaxBorderPercent {
        return BorderError(percent);
      }
      absBorderRight := GoDiv(Terminal.Width(probe) * percent, 100);
      err := Ok;
    }

    method SetBorderTop(percent: int, probe: Terminal.SizeProbe) returns (err: Outcome)
      modifies this`absBorderTop
      ensures BorderInRange(percent) ==>
                err == Ok && absBorderTop == PercentOf(Terminal.Height(probe), percent)
      ensures !BorderInRange(percent) ==> err == BorderError(percent) && absBorderTop == old(absBorderTop)
    {
      if percent < 0 || percent > MaxBorderPercent {
        return BorderError(percent);
      }
      absBorderTop := GoDiv(Terminal.Height(probe) * percent, 100);
      err := Ok;
    }

    method SetBorderBottom(percent: int, probe: Terminal.SizeProbe) returns (err: Outcome)
      modifies this`absBorderBottom
      ensures BorderInRange(percent) ==>
                err == Ok && absBorderBottom == PercentOf(Terminal.Height(probe), percent)
      ensures !BorderInRange(percent) ==> err == BorderError(percent) && absBorderBottom == old(absBorderBottom)
    {
      if percent < 0 || percent > MaxBorderPercent {
        return BorderError(percent);
      }
      absBorderBottom := GoDiv(Terminal.Height(probe) * percent, 100);
      err := Ok;
    }

    /** SetBorderSides: both side borders, errors ignored; in range the
        frame keeps a non-negative width. */
    method SetBorderSides(percent: int, probe: Terminal.SizeProbe) returns (err: Outcome)
      modifies this`absBorderLeft, this`absBorderRight
      ensures err == Ok
      ensures BorderInRange(percent) ==>
                absBorderLeft == absBorderRight == PercentOf(Terminal.Width(probe), percent) &&
                GetAbsFrameWidth(probe) >= 0
      ensures !BorderInRange(percent) ==>
                absBorderLeft == old(absBorderLeft) && absBorderRight == old(absBorderRight)
    {
      var _ := SetBorderLeft(percent, probe);
      var _ := SetBorderRight(percent, probe);
      if BorderInRange(percent) {
        BordersFit(Terminal.Width(probe), percent, percent);
      }
      err := Ok;
    }

    method SetBorderTopBottom(percent: int, probe: Terminal.SizeProbe) returns (err: Outcome)
      modifies this`absBorderTop, this`absBorderBottom
      ensures err == Ok
      ensures BorderInRange(percent) ==>
                absBorderTop == absBorderBottom == PercentOf(Terminal.Height(probe), percent) &&
                GetAbsFrameHeight(probe) >= 0
      ensures !BorderInRange(percent) ==>
                absBorderTop == old(absBorderTop) && absBorderBottom == old(absBorderBottom)
    {
      var _ := SetBorderTop(percent, probe);
      var _ := SetBorderBottom(percent, probe);
      if BorderInRange(percent) {
        BordersFit(Terminal.Height(probe), percent, percent);
      }
      err := Ok;
    }

    method SetBorder(percent: int, probe: Terminal.SizeProbe) returns (err: Outcome)
      modifies this`absBorderLeft, this`absBorderRight, this`absBorderTop, this`absBorderBottom
      ensures err == Ok
      ensures BorderInRange(percent) ==>
                absBorderLeft == absBorderRight == PercentOf(Terminal.Width(probe), percent) &&
                absBorderTop == absBorderBottom == PercentOf(Terminal.Height(probe), percent) &&
                GetAbsFrameWidth(probe) >= 0 && GetAbsFrameHeight(probe) >= 0
      ensures !BorderInRange(percent) ==>
                absBorderLeft == old(absBorderLeft) && absBorderRight == old(absBorderRight) &&
                absBorderTop == old(absBorderTop) && absBorderBottom == old(absBorderBottom)
    {
      var _ := SetBorderSides(percent, probe);
      var _ := SetBorderTopBottom(percent, probe);
      err := Ok;
    }
  
    /** What the drawing operations read of the user interface, with the
        terminal size the probe reports. */
    function CanvasOf(probe: Terminal.SizeProbe): Canvas
      reads this`height, this`width, this`absBorderLeft, this`absBorderRight, this`absBorderTop, this`absBorderBottom
    {
      Canvas(height, width, GetAbsFrameWidth(probe), GetAbsFrameHeight(probe), absBorderLeft, absBorderTop)
    }

    /** DrawElement: every rune of every line of the text goes through
        setPixel at its wrapped cell, line `k` in colour `color + k`; the
        position moves down one line per line of text; the result is one
        less than the row of the last rune drawn. */
    method DrawElement(pos: Position, text: string, color: int, probe: Terminal.SizeProbe, draw: nat)
      returns (lastY: int)
      requires Valid() && Drawable(CanvasOf(probe)) && pos.Valid()
      modifies this`pixels, this`dirtyRegions, pos`offset
      ensures Valid()
      ensures Grid() == old(DrawnElement(Grid(), CanvasOf(probe), pos.x, pos.y, pos.offset,
                                         text, color, Painted(draw)))
      ensures pos.offset == old(pos.offset) + |GetLines(text, color == Terminal.BLANK)|
      ensures lastY == old(ElementLastRow(CanvasOf(probe), pos.y, pos.offset, text, color)) - 1
    {
      ghost var c := CanvasOf(probe);
      ghost var col, row := BaseColumn(c, pos.x), BaseRow(c, pos.y) + pos.offset;
      var lines := GetLines(text, color == Terminal.BLANK);
      ghost var drawn := DrawnLines(Grid(), c, col, row, lines, color, Painted(draw), |lines|);
      assert drawn == DrawnElement(Grid(), c, pos.x, pos.y, pos.offset, text, color, Painted(draw));
      ghost var last := LinesLastRow(c, row, lines, |lines|);
      assert last == ElementLastRow(c, pos.y, pos.offset, text, color);
      var frameTop := PercentToAbsoluteHeightInFrame(probe, pos.GetY());
      var frameLeft := PercentToAbsoluteWidthInFrame(probe, pos.GetX());
      var y := DrawLines(pos, lines, color, frameLeft, frameTop, c, col, row, Painted(draw));
      lastY := y - 1;
    }

    /** The two loops of DrawElement, given the frame-relative column and
        row of the position, whose unwrapped cell is (`col`, `row`): rune
        `j` of line `k`, which starts at byte `l` of its line, goes to row
        `frameTop + offset + top border` and column `frameLeft + l + left
        border`, both wrapped with Go's `%`, and the offset grows by one
        after each line. The source recomputes `frameTop` and `frameLeft`
        for every rune; nothing they read changes while it draws. */
    method DrawLines(pos: Position, lines: seq<string>, color: int, frameLeft: int, frameTop: int,
                     ghost c: Canvas, ghost col: int, ghost row: int, paint: Painter) returns (y: int)
      requires Valid() && Drawable(c) && c.rows == height && c.columns == width
      requires col == frameLeft + absBorderLeft && row == frameTop + absBorderTop + pos.offset
      modifies this`pixels, this`dirtyRegions, pos`offset
      ensures Valid()
      ensures Grid() == DrawnLines(old(Grid()), c, col, row, lines, color, paint, |lines|)
      ensures pos.offset == old(pos.offset) + |lines|
      ensures y == LinesLastRow(c, row, lines, |lines|)
    {
      ghost var g0 := Grid();
      ghost var o0 := pos.offset;
      y := 0;
      for k := 0 to |lines|
        invariant Valid() && pos.offset == o0 + k
        invariant Grid() == DrawnLines(g0, c, col, row, lines, color, paint, k)
        invariant y == LinesLastRow(c, row, lines, k)
      {
        DrawnLinesStep(g0, c, col, row, lines, color, paint, k);
        LinesLastRowStep(c, row, lines, k);
        y := DrawLine(pos, lines[k], color + k, frameLeft, frameTop, c, col, row + k, paint, y);
        var _ := pos.IncrementOffset();
      }
    }

    /** The inner loop of DrawElement: one line, every rune at its wrapped
        cell in the same row; `y` becomes that row once a rune is drawn. */
    method DrawLine(pos: Position, line: string, color: int, frameLeft: int, frameTop: int,
                    ghost c: Canvas, ghost col: int, ghost row: int, paint: Painter, y0: int) returns (y: int)
      requires Valid() && Drawable(c) && c.rows == height && c.columns == width
      requires col == frameLeft + absBorderLeft && row == frameTop + absBorderTop + pos.offset
      modifies this`pixels, this`dirtyRegions
      ensures Valid()
      ensures Grid() == DrawnLine(old(Grid()), c, col, row, line, color, paint, |line|)
      ensures y == if |line| > 0 then GoMod(row, c.rows) else y0
    {
      ghost var g0 := Grid();
      var x := 0;
      y := y0;
      for j := 0 to |line|
        invariant Valid()
        invariant Grid() == DrawnLine(g0, c, col, row, line, color, paint, j)
        invariant y == if j > 0 then GoMod(row, c.rows) else y0
      {
        var l := ByteIndex(line, j);
        y := GoMod(frameTop + pos.GetOffset() + absBorderTop, height);
        x := GoMod(frameLeft + l + absBorderLeft, width);
        var value := paint([line[j]], color);
        SameRemainder(frameTop + pos.GetOffset() + absBorderTop, row, height, c.rows);
        SameRemainder(frameLeft + l + absBorderLeft, col + ByteIndex(line, j), width, c.columns);
        DrawnLineStep(g0, c, col, row, line, color, paint, j, x, y, value);
        PutPixelShape(Grid(), x, y, value);
        SetPixel(x, y, value);
      }
    }

    /** Replaces the buffer by one of the same shape, as a run of setPixel
        calls does. */
    method StoreGrid(g: Buffer)
      requires Valid() && WellShaped(g) && SameShape(Grid(), g)
      modifies this`pixels, this`dirtyRegions
      ensures Valid() && Grid() == g
    {
      pixels, dirtyRegions := g.pixels, g.dirty;
    }

    /** DrawElementsHorizontal: text `k` is drawn by DrawElement in the
        column slot `k mod n` of the `n` relative positions, `k / n` lines
        below the anchor, in the colour of its slot; the anchor itself does
        not move. The result is the largest DrawElement result, or 0. The
        loop over the texts is the fold DrawnHorizontal. */
    method DrawElementsHorizontal(pos: Position, texts: seq<string>, positions: seq<int>, colors: seq<int>,
                                  probe: Terminal.SizeProbe, draw: nat) returns (y: int)
      requires Valid() && Drawable(CanvasOf(probe)) && pos.Valid()
      requires HorizontalOk(texts, positions, colors)
      modifies this`pixels, this`dirtyRegions
      ensures Valid()
      ensures Grid() == old(DrawnHorizontal(Grid(), CanvasOf(probe), pos.x, pos.y, pos.offset,
                                            texts, positions, colors, Painted(draw), |texts|))
      ensures y == old(HorizontalY(CanvasOf(probe), pos.x, pos.y, pos.offset, texts, positions, colors,
                                   Painted(draw), |texts|))
    {
      var c := CanvasOf(probe);
      var g := DrawnHorizontal(Grid(), c, pos.x, pos.y, pos.offset, texts, positions, colors, Painted(draw), |texts|);
      StoreGrid(g);
      y := HorizontalY(c, pos.x, pos.y, pos.offset, texts, positions, colors, Painted(draw), |texts|);
    }

    /** DrawTable: row `r` of the table is one DrawElementsHorizontal call,
        `r` lines below the anchor, which ends one line per row further
        down; the result is the largest row result, or 0. The loop over the
        rows is the fold DrawnTable. */
    method DrawTable(pos: Position, table: seq<seq<string>>, positions: seq<int>, colors: seq<int>,
                     probe: Terminal.SizeProbe, draw: nat) returns (y: int)
      requires Valid() && Drawable(CanvasOf(probe)) && pos.Valid()
      requires TableOk(table, positions, colors)
      modifies this`pixels, this`dirtyRegions, pos`offset
      ensures Valid()
      ensures Grid() == old(DrawnTable(Grid(), CanvasOf(probe), pos.x, pos.y, pos.offset,
                                       table, positions, colors, Painted(draw), |table|))
      ensures pos.offset == old(pos.offset) + |table|
      ensures y == old(TableY(CanvasOf(probe), pos.x, pos.y, pos.offset, table, positions, colors,
                              Painted(draw), |table|))
    {
      var c := CanvasOf(probe);
      var g := DrawnTable(Grid(), c, pos.x, pos.y, pos.offset, table, positions, colors, Painted(draw), |table|);
      StoreGrid(g);
      y := TableY(c, pos.x, pos.y, pos.offset, table, positions, colors, Painted(draw), |table|);
      var _ := pos.SetOffset(pos.GetOffset() + |table|);
    }

    /** MoveElement: nil positions, an empty text and a negative duration
        are refused in that order, with the source's messages, and draw
        nothing. Otherwise `frames + 1` frames run, `frames` being the
        duration over the frame period; frame `i` erases the text where
        frame `i - 1` drew it and draws it at the eased factor of frame `i`,
        along the clamped distance from start to end. */
    method MoveElement(start: Position?, end: Position?, text: string, color: int, anim: Animation,
                       curve: (int, int) -> real, probe: Terminal.SizeProbe, draw: nat) returns (err: Outcome)
      requires Valid() && Drawable(CanvasOf(probe))
      modifies this`pixels, this`dirtyRegions
      ensures Valid()
      ensures start == null || end == null ==>
                err == Err("start and end positions cannot be nil") && Grid() == old(Grid())
      ensures start != null && end != null && text == "" ==>
                err == Err("text cannot be empty") && Grid() == old(Grid())
      ensures start != null && end != null && text != "" && anim.duration < 0 ==>
                err == Err("animation duration cannot be negative") && Grid() == old(Grid())
      ensures start != null && end != null && text != "" && anim.duration >= 0 ==>
                var frames := GoDiv(anim.duration, msPerFrame);
                err == Ok && frames >= 0 &&
                Grid() == old(DrawnMove(Grid(), CanvasOf(probe), start.x, start.y, start.offset,
                                        Clamp(end.x - start.x), Clamp(end.y - start.y), text, color,
                                        anim, curve, frames, Painted(draw), frames + 1))
    {
      if start == null || end == null {
        return Err("start and end positions cannot be nil");
      }
      if text == "" {
        return Err("text cannot be empty");
      }
      if anim.duration < 0 {
        return Err("animation duration cannot be negative");
      }
      var frames := GoDiv(anim.duration, msPerFrame);
      // the clamped delta DistanceTo computes
      var dx, dy := Clamp(end.x - start.x), Clamp(end.y - start.y);
      var g := DrawnMove(Grid(), CanvasOf(probe), start.x, start.y, start.offset, dx, dy,
                         text, color, anim, curve, frames, Painted(draw), frames + 1);
      StoreGrid(g);
      err := Ok;
    }

    /** DrawPattern: a nil start, an expansion outside [0, 200], an empty
        text or a text with an empty line give -1 and draw nothing (the last
        condition is the corrected guard PatternGuard). Otherwise, with a
        positive duration, `frames + 1` frames each sweep at the eased share
        of the expansion; without one, a single sweep at the full expansion.
        The result is one less than the largest unwrapped row any drawn rune
        reached, counting from 0. */
    method DrawPattern(start: Position?, expansion: int, text: string, color: int, anim: Animation,
                       curve: (int, int) -> real, probe: Terminal.SizeProbe, draw: nat) returns (y: int)
      requires Valid() && Drawable(CanvasOf(probe))
      modifies this`pixels, this`dirtyRegions
      ensures Valid()
      ensures start == null || !PatternGuard(expansion, text) ==> y == -1 && Grid() == old(Grid())
      ensures start != null && PatternGuard(expansion, text) && anim.duration > 0 ==>
                var frames, lines := GoDiv(anim.duration, msPerFrame), GetLines(text, false);
                frames >= 0 &&
                Grid() == old(DrawnFrames(Grid(), CanvasOf(probe), BaseRow(CanvasOf(probe), start.y) + start.offset,
                                          BaseColumn(CanvasOf(probe), start.x), expansion, lines, color, anim,
                                          curve, frames, Painted(draw), frames + 1)) &&
                y == old(FramesTop(0, CanvasOf(probe), BaseRow(CanvasOf(probe), start.y) + start.offset,
                                   expansion, |lines|, anim, curve, frames, frames + 1)) - 1
      ensures start != null && PatternGuard(expansion, text) && anim.duration <= 0 ==>
                var lines := GetLines(text, false);
                Grid() == old(DrawnDirection(Grid(), CanvasOf(probe), BaseRow(CanvasOf(probe), start.y) + start.offset,
                                             BaseColumn(CanvasOf(probe), start.x), expansion, lines, color, anim,
                                             curve, Painted(draw))) &&
                y == old(DirectionTop(0, CanvasOf(probe), BaseRow(CanvasOf(probe), start.y) + start.offset,
                                      expansion, |lines|, anim)) - 1
    {
      if start == null || expansion < 0 || expansion > 200 || text == "" {
        return -1;
      }
      var lines := GetLines(text, false);
      if !NoEmptyLine(lines) {
        return -1;
      }
      // the frame-relative cell of the start plus the borders, as
      // PercentToAbsoluteWidthInFrame and PercentToAbsoluteHeightInFrame give it,
      // are BaseColumn and BaseRow of the canvas
      var g: Buffer;
      if anim.duration > 0 {
        var frames := GoDiv(anim.duration, msPerFrame);
        g := DrawnFrames(Grid(), CanvasOf(probe), BaseRow(CanvasOf(probe), start.y) + start.offset,
                         BaseColumn(CanvasOf(probe), start.x), expansion, lines, color, anim, curve, frames,
                         Painted(draw), frames + 1);
        y := FramesTop(0, CanvasOf(probe), BaseRow(CanvasOf(probe), start.y) + start.offset, expansion, |lines|,
                       anim, curve, frames, frames + 1) - 1;
      } else {
        g := DrawnDirection(Grid(), CanvasOf(probe), BaseRow(CanvasOf(probe), start.y) + start.offset,
                            BaseColumn(CanvasOf(probe), start.x), expansion, lines, color, anim, curve,
                            Painted(draw));
        y := DirectionTop(0, CanvasOf(probe), BaseRow(CanvasOf(probe), start.y) + start.offset, expansion,
                          |lines|, anim) - 1;
      }
      StoreGrid(g);
    }
  }
}
