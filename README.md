# animaterm: a Dafny model of the drawing core

animaterm is a Go library that draws text in a terminal. A `UserInterface`
keeps a buffer of terminal cells (`pixels`, one string per cell), with one
dirty flag per cell (`dirtyRegions`). It has four borders that shrink the
drawable frame, and a frame period (`msPerFrame`).

- **Positions.** Positions (`Position`) are percentages of the frame, clamped
  to [-100, 100]. Each position also has a line `offset`.
- **Drawing.** The drawing operations write cells through `setPixel`:
  - `DrawElement` draws a text;
  - `DrawElementsHorizontal` draws texts side by side;
  - `DrawTable` draws rows of those;
  - `MoveElement` moves a text across the frame;
  - `DrawPattern` draws an expanding pattern.

  Coordinates wrap with Go's `%`.
- **Rendering.** A render loop scans the dirty flags and rebuilds the frame
  text. A blank row becomes a cursor-down sequence. When the frame changed,
  the loop prints it, speeds up, and clears the flags.
- **Colour.** Colours are ANSI/ECMA-48 Select Graphic Rendition sequences
  (the 256-colour form `ESC[38;5;nnnm`). Terminal width and height fall back
  to 80 x 24.

The model is split into modules:

- `GoInt` (goint.dfy) holds Go's truncating `/` and `%` and its float-to-int
  truncation.
- `Text` (text.dfy) holds UTF-8 byte lengths, `strings.Split`/`TrimSuffix`
  and `getLines`.
- `Terminal` (terminal.dfy) holds the control sequences, `Color`, and the
  size fallbacks over an abstract size probe.
- `Positions` (position.dfy) holds the `Position` class.
- `Screen` (screen.dfy) holds the cell buffer as a value (`Buffer`),
  `setPixel` on it (`PutPixel`), and the frame text of the render loop.
- `Layout` (layout.dfy) holds, for each drawing operation, the buffer it
  leaves behind. It also holds, for `DrawElement`, its list of `setPixel`
  calls.
- `UI` (userinterface.dfy) holds the `UserInterface` class. Its fields are
  updated in place by methods proved against the `Screen` and `Layout`
  functions.
- `Outcomes` (outcome.dfy) holds Go's `error` result and an `Option` type.

## Model

| member | source | states |
|---|---|---|
| GoInt.GoDiv | userinterface.go:177 | Go's `/`: the magnitude of the quotient is the quotient of the magnitudes, and its sign is negative exactly when the operands' signs differ |
| GoInt.GoDivModIdentity | userinterface.go:275-276 | Go's `(a/b)*b + a%b == a`, with the remainder smaller in magnitude than the divisor |
| GoInt.Trunc | position.go:102 | `int(f)` truncates toward zero: it is the integer within 1 of `f` on the side of zero |
| GoInt.GoDivNegate | userinterface.go:466-468 | negating the dividend negates the truncated quotient |
| GoInt.GoModAgreesWhenNonNegative | userinterface.go:275-276 | on a non-negative dividend and a positive divisor Go's `/` and `%` agree with Euclidean ones |
| GoInt.GoModNegative | userinterface.go:275-276 | on a negative dividend `%` is minus the remainder of the magnitude, and it is negative unless the divisor divides it |
| GoInt.GoDivMonotone | userinterface.go:177 | truncating division by a positive divisor is monotone |
| Text.Utf8Len | userinterface.go:274 | a rune takes 1 to 4 bytes, and 1 exactly when it is ASCII |
| Text.ByteLen | userinterface.go:438 | `len(s)` counts bytes, at least one per rune |
| Text.ByteIndex | userinterface.go:274-276 | the byte index `range` reports for rune `j` is at least `j`, and the rune fits in the string after it |
| Text.ByteIndexIncreasing | userinterface.go:274-276 | later runes have strictly larger byte indices, so no two runes of a line share a column |
| Text.Spaces | userinterface.go:438 | `strings.Repeat(" ", n)` is `n` spaces |
| Text.CountSpaces | userinterface.go:136 | `strings.Count(s, " ")` is at most the length |
| Text.TrimNewline | userinterface.go:436 | `TrimSuffix(s, "\n")` removes at most one trailing newline |
| Text.Split | userinterface.go:436 | `Split(s, "\n")` gives at least one piece, and no piece holds a newline |
| Text.JoinSplit | userinterface.go:436 | joining the pieces with newlines restores the string |
| Text.SplitJoin | userinterface.go:436 | splitting newline-free lines joined by newlines gives the lines back |
| Text.BlankLines | userinterface.go:437-439 | every line becomes as many spaces as it has bytes |
| Text.GetLines | userinterface.go:434-443 | as many lines as pieces of the trimmed text, and none holds a newline; normal mode joins back to the trimmed text; blank mode gives each line as many spaces as its piece has bytes |
| Text.BlankLinesMatch | userinterface.go:434-443 | blank mode keeps the number of lines, and each blank line spans the byte length of the normal one |
| Text.GetLinesDropsTrailingNewline | userinterface.go:436 | `"a\nb\n"` gives `["a", "b"]` |
| Text.GetLinesKeepsSecondNewline | userinterface.go:436 | `"a\n\n"` gives `["a", ""]`: only one newline is trimmed |
| Text.GetLinesLoneNewline | userinterface.go:436 | `"\n"` gives one empty line |
| Text.GetLinesBlankExample | userinterface.go:437-439 | blank mode turns `"ab"` into `["  "]` |
| Terminal.Digit | terminalUtil.go:116 | a digit character whose value is the digit |
| Terminal.Pad3 | terminalUtil.go:116 | `%03d` writes three digits that read back as the number |
| Terminal.ParseSgr256 | terminalUtil.go:116 | a parsed index is below 1000, and the string is exactly its 256-colour sequence |
| Terminal.Sgr256RoundTrip | terminalUtil.go:116 | every index below 1000 round-trips through its sequence |
| Terminal.ControlSequenceMeaning | terminalUtil.go:113-132 | a palette code selects itself; RANDOMGREY selects an index in [231, 252]; RANDOM selects one in [0, 254]; codes the switch does not name select no 256-colour sequence |
| Terminal.ControlSequenceFixed | terminalUtil.go:117-131 | RESET gives `ESC[0m`; RESETLINE gives `\r ESC[K`; every unnamed code gives the white fallback `ESC[37m` |
| Terminal.RandomGreyCoversRange | terminalUtil.go:123-125 | every grey index of `rand.Intn(22)+231` is reachable through the draw parameter |
| Terminal.RandomCoversRange | terminalUtil.go:126-128 | every index of `rand.Intn(255)` is reachable through the draw parameter |
| Terminal.ControlSequenceExamples | terminalutil_test.go:50-86 | code 42 gives `ESC[38;5;042m`, and 999 gives `ESC[37m` |
| Terminal.Color | terminalUtil.go:136-141 | BLANK and ALREADYCOLORED return the text unchanged; any other colour makes it strictly longer |
| Terminal.ColorWraps | terminalUtil.go:140 | any other colour puts the text between its control sequence and the reset sequence, and Uncolor takes it back out |
| Terminal.ColorExamples | terminalutil_test.go:7-48 | `Color("Hello", RED)`, `Color("Test", 100)`, and the two pass-through codes give the expected strings |
| Terminal.Height | terminalUtil.go:163-173 | the detected row count, or 24 when detection failed or reported 0; never 0 |
| Terminal.Width | terminalUtil.go:177-187 | the detected column count, or 80 when detection failed or reported 0; never 0 |
| Positions.Clamp | position.go:34-43 | the result lies in [-100, 100] and is the point of that range nearest to the input |
| Positions.ScaleAxis | position.go:101-105 | the scaled, truncated and re-clamped coordinate lies in [-100, 100] |
| Positions.Position.CreatePos | position.go:12-16 | a valid position with both coordinates clamped and offset 0 |
| Positions.Position.GetX | position.go:19-21 | the x coordinate, within [-100, 100] |
| Positions.Position.GetY | position.go:24-26 | the y coordinate, within [-100, 100] |
| Positions.Position.GetXandY | position.go:29-31 | both coordinates, each within [-100, 100] |
| Positions.Position.SetX | position.go:34-43 | x becomes the clamped value; y and offset stay; no error |
| Positions.Position.SetY | position.go:46-55 | y becomes the clamped value; x and offset stay; no error |
| Positions.Position.SetXandY | position.go:58-62 | both coordinates are clamped, the position is valid, and the offset stays |
| Positions.Position.IncrementOffset | position.go:65-68 | the offset grows by one, the coordinates stay, and the same object is returned |
| Positions.Position.ResetOffset | position.go:71-74 | the offset becomes 0, the coordinates stay, and the same object is returned |
| Positions.Position.SetOffset | position.go:82-85 | the offset becomes the argument, the coordinates stay, and the same object is returned |
| Positions.Position.DistanceTo | position.go:88-91 | a fresh valid position holding the clamped per-axis difference, with offset 0 |
| Positions.Position.AddDistance | position.go:94-98 | a fresh valid position holding the clamped sum, keeping this position's offset |
| Positions.Position.MultiplyWith | position.go:101-105 | a fresh valid position with each axis scaled, truncated and clamped, keeping the offset |
| Positions.ClampIdempotent | position.go:12-16 | clamping twice equals clamping once, and values in range are unchanged |
| Positions.CreatePosExamples | position_test.go:7-30 | 150 and 200 clamp to 100, -150 and -200 clamp to -100, and 50 and 75 stay |
| Positions.DistanceAntisymmetric | position.go:88-91 | the distance from b to a is minus the distance from a to b |
| Positions.AddDistanceReachesEnd | position.go:88-98 | start plus distance-to-end equals the end exactly when the true delta fits in [-100, 100] |
| Positions.ScaleAxisExamples | position_test.go:88-99 | factor 0 gives 0; factor 1 gives the coordinate; (10, 20) * 2.5 gives (25, 50) |
| Positions.InterpolationBetween | position.go:94-105 | for a factor in [0, 1], `start + delta*factor` lies between the start and the clamped end |
| Positions.ScaleAxisBetween | position.go:101-105 | a factor in [0, 1] moves a coordinate toward 0 without changing its sign |
| Screen.PutPixelCells | userinterface.go:495-507 | setPixel changes only the addressed cell; it raises that cell's flag exactly when the value changed; it keeps the shape; out of range it changes nothing |
| Screen.PutPixelIdempotent | userinterface.go:501-505 | writing the same value twice equals writing it once |
| Screen.PutPixelOutside | userinterface.go:501 | a write outside the allocated rows and columns leaves the buffer unchanged |
| Screen.PutPixelShape | userinterface.go:495-507 | setPixel keeps the buffer well-shaped and of the same shape |
| Screen.ApplyWritesShape | userinterface.go:495-507 | any sequence of setPixel calls keeps the shape |
| Screen.ApplyWritesAppend | userinterface.go:495-507 | applying `a + c` equals applying `a` then `c` |
| Screen.WrittenAppend | userinterface.go:495-507 | `a + b` aims at a cell exactly when `a` or `b` aims at it |
| Screen.ApplyWritesCell | userinterface.go:495-507 | last write wins; a cell no write aims at keeps its value and flag; a changed cell is flagged dirty |
| Screen.JoinRow | userinterface.go:133-135 | the inner loop concatenates the row's first `w` cells |
| Screen.LastContentRowMeaning | userinterface.go:130-141 | lastContentRow is `height` when every row is blank; otherwise it is two more than the last non-blank row, and every row after that row is blank |
| Screen.BlankRowIffAllSpaces | userinterface.go:136 | when each cell holds at most one space, a row is blank exactly when every cell holds one |
| Screen.FreshBufferFrame | userinterface.go:61-81 | a fresh buffer renders as one cursor-down per row, lastContentRow stays at the default, and every scanned cell is dirty |
| Screen.FreshFrameText | userinterface.go:132-143 | all-blank rows render as one cursor-down sequence each |
| Layout.PercentOfBounds | userinterface.go:466-468 | a percentage in [0, 100] of a non-negative dimension lies within it; 0 % gives 0 and 100 % gives all of it |
| Layout.PercentOfOdd | userinterface.go:466-473 | negative percentages mirror positive ones, because the division truncates |
| Layout.PercentOfMonotone | userinterface.go:466-473 | a larger percentage never gives fewer cells |
| Layout.DrawnElement | userinterface.go:271-283 | drawing an element keeps the buffer's shape |
| Layout.DrawnElementWrites | userinterface.go:271-283 | the buffer DrawElement leaves is its list of setPixel calls applied in order |
| Layout.DrawnLinesWrites | userinterface.go:273-281 | the buffer of the line loops is their write list applied |
| Layout.LinesLastRowIsLastWrite | userinterface.go:275-282 | DrawElement's `y` is the row of its last setPixel call, or 0 when no line has a rune |
| Layout.EraseCoversDraw | userinterface.go:311-317 | drawing the text in BLANK at the same place writes to every cell the coloured drawing wrote (with blank lines painted in colour BLANK + k) |
| Layout.ElementInGrid | userinterface.go:275-276 | with a non-negative base row and column, every write of DrawElement lands inside the `height x width` area |
| Layout.NegativeRowDropped | userinterface.go:275 | a negative base row that the height does not divide stays negative after `%`, so setPixel drops the rune |
| Layout.HorizontalYIsMax | userinterface.go:256-265 | DrawElementsHorizontal's result is the maximum of 0 and its DrawElement results: it is at least 0, no result exceeds it, and it is 0 or equal to one of them |
| Layout.TableYIsMax | userinterface.go:243-251 | DrawTable's result is the maximum of 0 and its rows' results: it is at least 0, no row result exceeds it, and it is 0 or equal to one of them |
| Layout.DrawnHorizontal | userinterface.go:255-266 | drawing the texts side by side keeps the buffer's shape |
| Layout.DrawnText | userinterface.go:259-260 | text `k`, drawn by DrawElement in slot `k mod n`, `k / n` lines down and in its slot's colour, keeps the buffer's shape |
| Layout.DrawnHorizontalWrites | userinterface.go:255-266 | drawing the texts side by side is the same as applying, in order, the setPixel calls of each text's DrawElement |
| Layout.DrawnHorizontalCell | userinterface.go:258-264 | after DrawElementsHorizontal a cell holds the last value any of its texts wrote there; a cell no text wrote keeps its value and dirty flag |
| Layout.DrawnTable | userinterface.go:242-252 | drawing a table keeps the buffer's shape |
| Layout.DrawnRow | userinterface.go:245-249 | row `r`, drawn by DrawElementsHorizontal `r` lines below the anchor, keeps the buffer's shape |
| Layout.DrawnTableWrites | userinterface.go:242-252 | drawing a table is the same as applying, row after row, each row's setPixel calls `r` lines below the anchor |
| Layout.DrawnTableCell | userinterface.go:244-250 | after DrawTable a cell holds the last value any row wrote there; a cell no row wrote keeps its value and dirty flag |
| Layout.DrawnLinesShape | userinterface.go:273-281 | the line loops keep the buffer's shape |
| Layout.DrawnMove | userinterface.go:306-324 | the frames of MoveElement keep the buffer's shape |
| Layout.MoveErasesPreviousDraw | userinterface.go:308-317 | frame `i` erases with the factor frame `i - 1` drew with, so the BLANK erase writes to every cell that frame `i - 1` drew on |
| Layout.MoveEndsAtEnd | userinterface.go:306-317 | when the curve ends at 1 and the distance fits in [-100, 100], the last frame draws exactly at the end position |
| Layout.DirectionSteps | userinterface.go:375-398 | directions 0 to 3 are known and others draw nothing; the two steps are perpendicular unit vectors; the sweep is horizontal exactly for right and left |
| Layout.DrawnPixel | userinterface.go:347-368 | drawPixel keeps the buffer's shape |
| Layout.DrawnSweep | userinterface.go:400-403 | a sweep of switchDir keeps the buffer's shape |
| Layout.DrawnDirection | userinterface.go:371-405 | switchDir keeps the buffer's shape |
| Layout.DrawnFrames | userinterface.go:407-421 | the animation frames of DrawPattern keep the buffer's shape |
| Layout.UnknownDirectionDrawsNothing | userinterface.go:396-397 | an unknown direction makes every frame draw nothing and leaves `y` unchanged |
| Layout.PixelTopIsLastLine | userinterface.go:365-367 | drawPixel's `y` is the larger of its start and the row of its last line |
| Layout.EmptyLinePassesGuard | userinterface.go:333-341 | the guard as written accepts `"\n"`, whose only line is empty |
| Layout.PatternGuardExact | userinterface.go:336-341 | the corrected guard holds exactly when the expansion is in [0, 200] and every line has a first rune |
| UI.BordersFit | userinterface.go:173-212 | a border of at most 50 % takes at most half of the dimension, so opposite borders never exceed it |
| UI.UserInterface.CreateUI | userinterface.go:35-59 | no borders, the idle 320 ms period, the probed size, and a fresh buffer |
| UI.UserInterface.InitPixels | userinterface.go:61-81 | `h + 1` rows; the first `h` have `w + 1` cells, the first `w` of them a dirty space; the last row is empty |
| UI.UserInterface.SetPixel | userinterface.go:495-507 | the new buffer is PutPixel of the old one |
| UI.UserInterface.ClearDirtyRegions | userinterface.go:510-519 | every flag in the `height x width` area drops; every other flag and every cell stays; afterwards nothing there is dirty |
| UI.UserInterface.HasDirty | userinterface.go:116-124 | the early-exit scan finds a raised flag exactly when one exists in the scanned area |
| UI.UserInterface.SerializeFrame | userinterface.go:129-143 | the frame text and lastContentRow equal FrameText and LastContentRow of the pixels |
| UI.UserInterface.RenderStep | userinterface.go:115-160 | with no dirty flag: nothing is printed, the period becomes idle, and the flags stay. With one: the frame is rebuilt, and it is printed exactly when it differs from the last one; then the period becomes busy and the flags are cleared |
| UI.UserInterface.PercentToAbsoluteWidth | userinterface.go:446-448 | a percentage in [0, 100] of the width is a column count within it |
| UI.UserInterface.PercentToAbsoluteHeight | userinterface.go:451-453 | a percentage in [0, 100] of the height is a row count within it |
| UI.UserInterface.GetAbsFrameWidth | userinterface.go:456-458 | left border, frame width and right border add up to the terminal width |
| UI.UserInterface.GetAbsFrameHeight | userinterface.go:461-463 | top border, frame height and bottom border add up to the terminal height |
| UI.UserInterface.PercentToAbsoluteWidthInFrame | userinterface.go:466-468 | within the frame width for percentages in [0, 100]; odd in the percentage |
| UI.UserInterface.PercentToAbsoluteHeightInFrame | userinterface.go:471-473 | within the frame height for percentages in [0, 100]; odd in the percentage |
| UI.UserInterface.PercentToAbsoluteXPostion | userinterface.go:476-478 | lands between the left and the right border |
| UI.UserInterface.PercentToAbsoluteYPostion | userinterface.go:481-483 | lands between the top and the bottom border |
| UI.UserInterface.SetBorderLeft | userinterface.go:173-179 | outside [0, 50] it returns the source's error and changes nothing; otherwise the border is that share of the width |
| UI.UserInterface.SetBorderRight | userinterface.go:184-190 | as SetBorderLeft, for the right border |
| UI.UserInterface.SetBorderTop | userinterface.go:195-201 | as SetBorderLeft, on the height |
| UI.UserInterface.SetBorderBottom | userinterface.go:206-212 | as SetBorderTop, for the bottom border |
| UI.UserInterface.SetBorderSides | userinterface.go:217-221 | both side borders are set (errors ignored), and in range the frame width stays non-negative |
| UI.UserInterface.SetBorderTopBottom | userinterface.go:226-230 | both top and bottom borders are set, and in range the frame height stays non-negative |
| UI.UserInterface.SetBorder | userinterface.go:235-239 | all four borders are set, and in range both frame dimensions stay non-negative |
| UI.UserInterface.DrawElement | userinterface.go:271-283 | the buffer becomes DrawnElement of the old one; the offset grows by the number of lines; the result is one less than the row of the last rune |
| UI.UserInterface.DrawLines | userinterface.go:273-281 | the two loops leave DrawnLines of the old buffer, with the offset advanced one per line |
| UI.UserInterface.DrawLine | userinterface.go:274-279 | the rune loop leaves DrawnLine of the old buffer, and `y` becomes the line's wrapped row once a rune is drawn |
| UI.UserInterface.DrawElementsHorizontal | userinterface.go:255-266 | the buffer becomes DrawnHorizontal of the old one; the result is the largest DrawElement result, or 0 |
| UI.UserInterface.DrawTable | userinterface.go:242-252 | the buffer becomes DrawnTable of the old one; the offset grows by one per row; the result is the largest row result, or 0 |
| UI.UserInterface.MoveElement | userinterface.go:288-326 | nil positions, empty text and a negative duration are refused in that order, with the source's messages, and change nothing; otherwise the buffer becomes DrawnMove over `duration / period + 1` frames |
| UI.UserInterface.DrawPattern | userinterface.go:332-432 | a nil start, an expansion outside [0, 200], or a text with an empty line gives -1 and changes nothing. Otherwise the buffer becomes DrawnFrames (positive duration) or DrawnDirection, and the result is one less than the largest row reached |

## Left out

- Concurrency is left out: the mutexes, the drawing goroutine, and the stop channel and wait group of `StartDrawLoop`. Every operation runs alone.
- `drawLoop` is modelled as one tick (`RenderStep`), not as an endless loop.
  - `time.Sleep` and the timing calls are left out.
  - Printing and `moveCursorTo` are left out: the printed frame and cursor row are returned as a value.
  - Showing and hiding the cursor is left out.
- CreateUI's warning about small terminals is left out; it only prints. `ClearScreen` is left out: it runs an external `clear` command, and otherwise repeats `initPixels`.
- The terminal size is a parameter (`Terminal.SizeProbe`), the same for the whole call. `getTerminalSize` and `SetWinsize` are left out; the latter does nothing.
- The random source of RANDOM and RANDOMGREY is a `draw` parameter. A drawing call uses one draw for all its cells; the source draws anew per cell.
- The easing curves are a parameter `curve(frames, i)`. `getAnimation` and its float32 Bezier curves are left out.
- `float32` arithmetic is modelled as exact real arithmetic followed by Go's truncation. float32 rounding is not modelled.
- Integers are unbounded. Go's 64-bit `int`/`int64` overflow is not modelled; `Duration` and `msPerFrame` are `int`.
- interfaces.go (`IRelativePosition`, `IUserInterface`) is not part of this model. Positions are the concrete class.
- UI.UserInterface.DrawElementsHorizontal, UI.UserInterface.DrawTable, UI.UserInterface.MoveElement and UI.UserInterface.DrawPattern store the buffer of a fold function (`DrawnHorizontal`, `DrawnTable`, `DrawnMove`, `DrawnFrames`/`DrawnDirection`). They do not loop over `DrawElement`/`setPixel` calls in place; the final buffer is the same.
- UI.UserInterface.DrawTable advances the offset once by the number of rows, instead of once per row. The final offset is the same.
- UI.UserInterface.MoveElement does not allocate `Position` objects for the distance and for each frame. It uses the clamped delta that `DistanceTo` computes and `MoveAxis` (AddDistance of MultiplyWith) on values.
- UI.UserInterface.DrawPattern: refuses a text with an empty line (returns -1, buffer unchanged), where the source panics at userinterface.go:355 after drawing the lines before it (see Findings).
- UI.UserInterface.DrawPattern takes the start cell from `BaseRow`/`BaseColumn`. These equal `PercentToAbsolute…InFrame` plus the border, as the source computes them.
- UI.UserInterface.DrawLines computes the frame-relative row and column once per call; the source recomputes them for every rune. Nothing they read changes meanwhile.
- Screen.PutPixel also bounds-checks the dirty row. On the well-shaped buffers that every method keeps, this check coincides with setPixel's.
- UI.UserInterface.InitPixels requires non-negative sizes, because Go's `make` panics on a negative length. The size probe never gives one.
- The drawing methods require a buffer with positive height and width (`Drawable`), because Go's `%` by zero panics. They also require the `Valid` shape that initPixels establishes, and a non-nil, clamped position where the source calls methods on it.
- UI.UserInterface.DrawElementsHorizontal requires `HorizontalOk`: a non-empty `positions` when there is a text, and enough colours. Otherwise the source panics on division by zero or an index out of range.
- UI.UserInterface.SerializeFrame and UI.UserInterface.RenderStep require the scanned area to lie inside the buffer. The source indexes out of range, and panics, when the terminal grew after initPixels.

## Findings

| source | as written | input that shows it | evidently intended | confidence | as-written member | corrected member |
|---|---|---|---|---|---|---|
| userinterface.go:333-355 | DrawPattern's guards reject only an empty text, but drawPixel reads the first rune of every line with `[]rune(line)[0]` | text `"\n"` (or `"a\n\nb"`): it passes the guards, yet `getLines` gives an empty line, and indexing its first rune panics | refuse (return -1) any text with an empty line, as for the empty text | not executed | Layout.EmptyLinePassesGuard | Layout.PatternGuardExact |
