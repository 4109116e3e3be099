/** The screen buffer as a value, and the frame the render loop makes of it.
    `pixels` and `dirty` mirror the source's jagged `[][]string` and
    `[][]bool`: rows may differ in length (initPixels leaves its last row
    nil), and every index is bounds-checked before use. */
module Screen {
  import opened Text
  import Terminal

  datatype Buffer = Buffer(pixels: seq<seq<string>>, dirty: seq<seq<bool>>)

  /** The dirty grid has the shape of the pixel grid. */
  predicate WellShaped(b: Buffer) {
    |b.pixels| == |b.dirty| && forall i :: 0 <= i < |b.pixels| ==> |b.pixels[i]| == |b.dirty[i]|
  }

  predicate SameShape(a: Buffer, b: Buffer) {
    |a.pixels| == |b.pixels| && forall i :: 0 <= i < |a.pixels| ==> |a.pixels[i]| == |b.pixels[i]|
  }

  /** The bounds check of setPixel: a row that exists and a column inside it. */
  predicate InBuffer(b: Buffer, x: int, y: int) {
    0 <= y < |b.pixels| && 0 <= x < |b.pixels[y]|
  }

  /** setPixel on the value. The dirty row is bounds-checked as well, which
      on a well-shaped buffer is the same check (setPixel indexes both grids
      with the indices it checked against the pixels). */
  function PutPixel(b: Buffer, x: int, y: int, v: string): Buffer
  {
    if InBuffer(b, x, y) && y < |b.dirty| && x < |b.dirty[y]| && b.pixels[y][x] != v then
      Buffer(b.pixels[y := b.pixels[y][x := v]], b.dirty[y := b.dirty[y][x := true]])
    else b
  }

  /** What setPixel does to each cell: the cell at column x of row y takes
      `v`, and its dirty flag is raised only if the value changed; every
      other cell and flag stays, and an index outside the buffer changes
      nothing. */
  lemma PutPixelCells(b: Buffer, x: int, y: int, v: string)
    requires WellShaped(b)
    ensures var r := PutPixel(b, x, y, v);
            WellShaped(r) && SameShape(b, r) &&
            (forall i, j :: 0 <= i < |r.pixels| && 0 <= j < |r.pixels[i]| ==>
               r.pixels[i][j] == (if i == y && j == x then v else b.pixels[i][j])) &&
            (forall i, j :: 0 <= i < |r.dirty| && 0 <= j < |r.dirty[i]| ==>
               r.dirty[i][j] == (if i == y && j == x && b.pixels[i][j] != v then true else b.dirty[i][j]))
  {
  }

  /** Writing the same value twice is the same as writing it once: the second
      write neither changes a cell nor raises a flag. */
  lemma PutPixelIdempotent(b: Buffer, x: int, y: int, v: string)
    ensures PutPixel(PutPixel(b, x, y, v), x, y, v) == PutPixel(b, x, y, v)
  {
  }

  /** A write outside the allocated rows and columns leaves the buffer as it was. */
  lemma PutPixelOutside(b: Buffer, x: int, y: int, v: string)
    requires !InBuffer(b, x, y)
    ensures PutPixel(b, x, y, v) == b
  {
  }

  /** setPixel keeps the shape of the buffer. */
  lemma PutPixelShape(b: Buffer, x: int, y: int, v: string)
    requires WellShaped(b)
    ensures WellShaped(PutPixel(b, x, y, v)) && SameShape(b, PutPixel(b, x, y, v))
  {
  }

  /** Keeping the shape step by step keeps it overall. */
  lemma ShapeChain(a: Buffer, b: Buffer, c: Buffer)
    requires SameShape(a, b) && SameShape(b, c)
    ensures SameShape(a, c)
  {
  }

  /** One setPixel call of a drawing operation. */
  datatype Write = Write(x: int, y: int, value: string)

  /** The buffer after a sequence of setPixel calls, in order. */
  function ApplyWrites(b: Buffer, ws: seq<Write>): Buffer
    decreases |ws|
  {
    if ws == [] then b
    else
      var w := ws[|ws| - 1];
      PutPixel(ApplyWrites(b, ws[..|ws| - 1]), w.x, w.y, w.value)
  }

  /** So does any sequence of them. */
  lemma {:induction false} ApplyWritesShape(b: Buffer, ws: seq<Write>)
    requires WellShaped(b)
    ensures WellShaped(ApplyWrites(b, ws)) && SameShape(b, ApplyWrites(b, ws))
    decreases |ws|
  {
    if ws != [] {
      var w := ws[|ws| - 1];
      ApplyWritesShape(b, ws[..|ws| - 1]);
      PutPixelShape(ApplyWrites(b, ws[..|ws| - 1]), w.x, w.y, w.value);
    }
  }

  /** One more write is one more setPixel. */
  lemma ApplyWritesSnoc(b: Buffer, ws: seq<Write>, w: Write)
    ensures ApplyWrites(b, ws + [w]) == PutPixel(ApplyWrites(b, ws), w.x, w.y, w.value)
  {
    assert (ws + [w])[..|ws|] == ws;
  }

  lemma {:induction false} ApplyWritesAppend(b: Buffer, a: seq<Write>, c: seq<Write>)
    ensures ApplyWrites(b, a + c) == ApplyWrites(ApplyWrites(b, a), c)
    decreases |c|
  {
    if c == [] {
      assert a + c == a;
    } else {
      ApplyWritesAppend(b, a, c[..|c| - 1]);
      assert (a + c)[..|a + c| - 1] == a + c[..|c| - 1];
    }
  }

  /** The value the last write aimed at column x of row y left there, or
      `orig` if no write aimed at it. */
  function LastWriteAt(orig: string, ws: seq<Write>, x: int, y: int): string
    decreases |ws|
  {
    if ws == [] then orig
    else if ws[|ws| - 1].x == x && ws[|ws| - 1].y == y then ws[|ws| - 1].value
    else LastWriteAt(orig, ws[..|ws| - 1], x, y)
  }

  /** Some write of `ws` aims at column x of row y. */
  predicate WrittenAt(ws: seq<Write>, x: int, y: int)
    decreases |ws|
  {
    ws != [] &&
    ((ws[|ws| - 1].x == x && ws[|ws| - 1].y == y) || WrittenAt(ws[..|ws| - 1], x, y))
  }

  /** The cells `a + b` aims at are those `a` aims at and those `b` aims at. */
  lemma {:induction false} WrittenAppend(a: seq<Write>, b: seq<Write>, x: int, y: int)
    ensures WrittenAt(a + b, x, y) <==> WrittenAt(a, x, y) || WrittenAt(b, x, y)
    decreases |b|
  {
    if b == [] {
      assert a + b == a;
    } else {
      WrittenAppend(a, b[..|b| - 1], x, y);
      assert (a + b)[..|a + b| - 1] == a + b[..|b| - 1];
    }
  }

  /** Every cell `a` aims at, `b` aims at too. */
  ghost predicate Covers(a: seq<Write>, b: seq<Write>) {
    forall x, y :: WrittenAt(a, x, y) ==> WrittenAt(b, x, y)
  }

  lemma CoversAppend(a: seq<Write>, b: seq<Write>, a2: seq<Write>, b2: seq<Write>)
    requires Covers(a, a2) && Covers(b, b2)
    ensures Covers(a + b, a2 + b2)
  {
    forall x, y | WrittenAt(a + b, x, y)
      ensures WrittenAt(a2 + b2, x, y)
    {
      WrittenAppend(a, b, x, y);
      WrittenAppend(a2, b2, x, y);
    }
  }

  /** Last write wins: after a sequence of writes every cell holds the value
      of the last write aimed at it; a cell no write aimed at keeps its value
      and its flag; and a cell whose value changed is flagged dirty, so the
      render loop never misses a change. */
  lemma {:induction false} ApplyWritesCell(b: Buffer, ws: seq<Write>, x: int, y: int)
    requires WellShaped(b) && InBuffer(b, x, y)
    ensures WellShaped(ApplyWrites(b, ws)) && SameShape(b, ApplyWrites(b, ws))
    ensures ApplyWrites(b, ws).pixels[y][x] == LastWriteAt(b.pixels[y][x], ws, x, y)
    ensures !WrittenAt(ws, x, y) ==> ApplyWrites(b, ws).dirty[y][x] == b.dirty[y][x]
    ensures ApplyWrites(b, ws).pixels[y][x] != b.pixels[y][x] ==> ApplyWrites(b, ws).dirty[y][x]
    decreases |ws|
  {
    if ws != [] {
      var init := ws[..|ws| - 1];
      ApplyWritesCell(b, init, x, y);
      ApplyWritesShape(b, ws);
      var w := ws[|ws| - 1];
      PutPixelCells(ApplyWrites(b, init), w.x, w.y, w.value);
    }
  }

  /** The row text the render loop concatenates from the first `w` cells. */
  function RowText(row: seq<string>, w: nat): string
    requires w <= |row|
  {
    if w == 0 then "" else RowText(row, w - 1) + row[w - 1]
  }

  /** The inner loop of the render loop: the first `w` cells of a row
      concatenated. */
  method JoinRow(row: seq<string>, w: nat) returns (line: string)
    requires w <= |row|
    ensures line == RowText(row, w)
  {
    line := "";
    for c := 0 to w
      invariant line == RowText(row, c)
    {
      line := line + row[c];
    }
  }

  /** The blank-row test of the render loop: the row text holds exactly `w`
      spaces. */
  predicate IsBlankRow(row: seq<string>, w: nat)
    requires w <= |row|
  {
    CountSpaces(RowText(row, w)) == w
  }

  const CursorDown: string := [Terminal.Esc] + "[1B"

  /** What the render loop emits for one row: a cursor-down sequence for a
      blank row, the row text otherwise. */
  function RowOutput(row: seq<string>, w: nat): string
    requires w <= |row|
  {
    if IsBlankRow(row, w) then CursorDown else RowText(row, w)
  }

  /** The first `h` rows each have at least `w` cells. */
  predicate Scannable(grid: seq<seq<string>>, h: nat, w: nat) {
    h <= |grid| && forall i :: 0 <= i < h ==> w <= |grid[i]|
  }

  /** The frame string built from the first `h` rows. */
  function FrameText(grid: seq<seq<string>>, h: nat, w: nat): string
    requires Scannable(grid, h, w)
  {
    if h == 0 then "" else FrameText(grid, h - 1, w) + RowOutput(grid[h - 1], w)
  }

  /** lastContentRow: two more than the index of the last non-blank row among
      the first `h`, or `none` when all of them are blank. */
  function LastContentRow(grid: seq<seq<string>>, h: nat, w: nat, none: int): int
    requires Scannable(grid, h, w)
  {
    if h == 0 then none
    else if !IsBlankRow(grid[h - 1], w) then h + 1
    else LastContentRow(grid, h - 1, w, none)
  }

  /** The row lastContentRow names is non-blank and every row below it is
      blank; with no non-blank row the result is `none`. */
  lemma LastContentRowMeaning(grid: seq<seq<string>>, h: nat, w: nat, none: int)
    requires Scannable(grid, h, w)
    ensures (forall i :: 0 <= i < h ==> IsBlankRow(grid[i], w)) ==>
              LastContentRow(grid, h, w, none) == none
    ensures (exists i :: 0 <= i < h && !IsBlankRow(grid[i], w)) ==>
              var r := LastContentRow(grid, h, w, none);
              2 <= r <= h + 1 && !IsBlankRow(grid[r - 2], w) &&
              forall i :: r - 2 < i < h ==> IsBlankRow(grid[i], w)
  {
    if forall i :: 0 <= i < h ==> IsBlankRow(grid[i], w) {
      AllBlankRows(grid, h, w, none);
    } else {
      var i :| 0 <= i < h && !IsBlankRow(grid[i], w);
      LastNonBlankRow(grid, h, w, none, i);
    }
  }

  lemma {:induction false} AllBlankRows(grid: seq<seq<string>>, h: nat, w: nat, none: int)
    requires Scannable(grid, h, w)
    requires forall i :: 0 <= i < h ==> IsBlankRow(grid[i], w)
    ensures LastContentRow(grid, h, w, none) == none
  {
    if h > 0 {
      AllBlankRows(grid, h - 1, w, none);
    }
  }

  lemma {:induction false} LastNonBlankRow(grid: seq<seq<string>>, h: nat, w: nat, none: int, k: nat)
    requires Scannable(grid, h, w) && k < h && !IsBlankRow(grid[k], w)
    ensures var r := LastContentRow(grid, h, w, none);
            k + 2 <= r <= h + 1 && !IsBlankRow(grid[r - 2], w) &&
            forall i :: r - 2 < i < h ==> IsBlankRow(grid[i], w)
  {
    if IsBlankRow(grid[h - 1], w) {
      LastNonBlankRow(grid, h - 1, w, none, k);
      assert LastContentRow(grid, h, w, none) == LastContentRow(grid, h - 1, w, none);
    } else {
      assert LastContentRow(grid, h, w, none) == h + 1;
    }
  }

  /** The dirty scan: some flag among the first `h` rows and `w` columns is set. */
  predicate AnyDirty(dirty: seq<seq<bool>>, h: nat, w: nat)
    requires h <= |dirty| && forall i :: 0 <= i < h ==> w <= |dirty[i]|
  {
    exists i, j :: 0 <= i < h && 0 <= j < w && dirty[i][j]
  }

  /** `after` is `before` with every flag of the first `h` rows and `w`
      columns lowered, same shape, every other flag kept. */
  predicate ClearedFlags(before: seq<seq<bool>>, after: seq<seq<bool>>, h: int, w: int) {
    |after| == |before| && (forall i :: 0 <= i < |after| ==> |after[i]| == |before[i]|) &&
    forall i, j :: 0 <= i < |after| && 0 <= j < |after[i]| ==>
      after[i][j] == (if i < h && j < w then false else before[i][j])
  }

  /** The buffer initPixels makes: `h + 1` rows, the first `h` of them with
      `w + 1` cells of which the first `w` are " " and dirty, and a last row
      that stays empty (nil in the source). */
  predicate IsFreshBuffer(b: Buffer, h: nat, w: nat) {
    WellShaped(b) && |b.pixels| == h + 1 && |b.pixels[h]| == 0 &&
    (forall i :: 0 <= i < h ==> |b.pixels[i]| == w + 1) &&
    (forall i, j :: 0 <= i < h && 0 <= j < w ==> b.pixels[i][j] == " " && b.dirty[i][j]) &&
    (forall i :: 0 <= i < h ==> b.pixels[i][w] == "" && !b.dirty[i][w])
  }

  /** `CountSpaces` adds up over concatenation. */
  lemma {:induction false} CountSpacesAppend(s: string, t: string)
    ensures CountSpaces(s + t) == CountSpaces(s) + CountSpaces(t)
    decreases |t|
  {
    if t == [] {
      assert s + t == s;
    } else {
      CountSpacesAppend(s, t[..|t| - 1]);
      assert (s + t)[..|s + t| - 1] == s + t[..|t| - 1];
    }
  }

  /** The row's space count is the sum over its cells. */
  function SpacesInCells(row: seq<string>, w: nat): nat
    requires w <= |row|
  {
    if w == 0 then 0 else SpacesInCells(row, w - 1) + CountSpaces(row[w - 1])
  }

  lemma {:induction false} RowSpaces(row: seq<string>, w: nat)
    requires w <= |row|
    ensures CountSpaces(RowText(row, w)) == SpacesInCells(row, w)
  {
    if w > 0 {
      RowSpaces(row, w - 1);
      CountSpacesAppend(RowText(row, w - 1), row[w - 1]);
    }
  }

  lemma {:induction false} SpacesInCellsBound(row: seq<string>, w: nat)
    requires w <= |row|
    requires forall j :: 0 <= j < w ==> CountSpaces(row[j]) <= 1
    ensures SpacesInCells(row, w) <= w
    ensures SpacesInCells(row, w) == w <==> forall j :: 0 <= j < w ==> CountSpaces(row[j]) == 1
  {
    if w > 0 {
      SpacesInCellsBound(row, w - 1);
    }
  }

  /** When every cell holds at most one space (each cell is one glyph, maybe
      wrapped in colour sequences that hold none), a row is blank exactly
      when every cell holds a space. */
  lemma BlankRowIffAllSpaces(row: seq<string>, w: nat)
    requires w <= |row|
    requires forall j :: 0 <= j < w ==> CountSpaces(row[j]) <= 1
    ensures IsBlankRow(row, w) <==> forall j :: 0 <= j < w ==> CountSpaces(row[j]) == 1
  {
    RowSpaces(row, w);
    SpacesInCellsBound(row, w);
  }

  lemma {:induction false} FreshRowBlank(row: seq<string>, w: nat, k: nat)
    requires k <= w < |row| && forall j :: 0 <= j < w ==> row[j] == " "
    ensures CountSpaces(RowText(row, k)) == k
  {
    if k > 0 {
      FreshRowBlank(row, w, k - 1);
      CountSpacesAppend(RowText(row, k - 1), row[k - 1]);
      assert CountSpaces(" ") == 1 by {
        assert " "[..0] == "";
      }
    }
  }

  /** The frame of a freshly initialised buffer is one cursor-down sequence
      per row, its last content row is the default, and every scanned cell
      is dirty. */
  lemma {:induction false} FreshBufferFrame(b: Buffer, h: nat, w: nat, rh: nat, rw: nat)
    requires IsFreshBuffer(b, h, w) && rh <= h && rw <= w
    ensures Scannable(b.pixels, rh, rw)
    ensures forall i :: 0 <= i < rh ==> IsBlankRow(b.pixels[i], rw)
    ensures FrameText(b.pixels, rh, rw) == RepeatCursorDown(rh)
    ensures LastContentRow(b.pixels, rh, rw, rh) == rh
    ensures AnyDirty(b.dirty, rh, rw) <==> rh > 0 && rw > 0
  {
    forall i | 0 <= i < rh
      ensures IsBlankRow(b.pixels[i], rw)
    {
      FreshRowBlank(b.pixels[i], w, rw);
    }
    FreshFrameText(b.pixels, rh, rw);
    LastContentRowMeaning(b.pixels, rh, rw, rh);
    if rh > 0 && rw > 0 {
      assert b.dirty[0][0];
    }
  }

  function RepeatCursorDown(n: nat): string {
    if n == 0 then "" else RepeatCursorDown(n - 1) + CursorDown
  }

  lemma {:induction false} FreshFrameText(grid: seq<seq<string>>, h: nat, w: nat)
    requires Scannable(grid, h, w)
    requires forall i :: 0 <= i < h ==> IsBlankRow(grid[i], w)
    ensures FrameText(grid, h, w) == RepeatCursorDown(h)
  {
    if h > 0 {
      FreshFrameText(grid, h - 1, w);
    }
  }
}
