/** Colour and control sequences (ISO/IEC 6429 / ECMA-48 Select Graphic
    Rendition, with the 256-colour extension `38;5;n`) and the terminal-size
    fallbacks. The size probe and the random source are parameters: the
    model never touches a terminal. */
module Terminal {
  import opened Outcomes

  // Colour codes with a special meaning; 0..255 select a palette colour.
  const RED: int := 1
  const RESET: int := 500
  const RESETLINE: int := 501
  const RANDOMGREY: int := 502
  const RANDOM: int := 503
  const BLANK: int := 504
  const ALREADYCOLORED: int := 505

  const Esc: char := '\U{1B}'
  const ResetSequence: string := [Esc] + "[0m"
  const ResetLineSequence: string := "\r" + [Esc] + "[K"
  const DefaultForeground: string := [Esc] + "[37m"
  const SgrPrefix: string := [Esc] + "[38;5;"

  predicate IsDigit(c: char) {
    '0' <= c <= '9'
  }

  function Digit(d: int): (c: char)
    requires 0 <= d < 10
    ensures IsDigit(c) && c as int - '0' as int == d
  {
    ('0' as int + d) as char
  }

  /** The number written by three decimal digits. */
  function ValueOf3(s: string): int
    requires |s| == 3
  {
    100 * (s[0] as int - '0' as int) + 10 * (s[1] as int - '0' as int) + (s[2] as int - '0' as int)
  }

  /** `fmt.Sprintf("%03d", n)` for 0 <= n < 1000: three digits that read back as n. */
  function Pad3(n: int): (s: string)
    requires 0 <= n < 1000
    ensures |s| == 3 && IsDigit(s[0]) && IsDigit(s[1]) && IsDigit(s[2])
    ensures ValueOf3(s) == n
  {
    [Digit(n / 100), Digit(n / 10 % 10), Digit(n % 10)]
  }

  /** The 256-colour foreground sequence `ESC[38;5;nnnm`. */
  function Sgr256(n: int): string
    requires 0 <= n < 1000
  {
    SgrPrefix + Pad3(n) + "m"
  }

  /** Reads back the palette index of a 256-colour foreground sequence;
      None for anything else. */
  function ParseSgr256(s: string): (r: Option<int>)
    ensures r.Some? ==> 0 <= r.value < 1000 && s == Sgr256(r.value)
  {
    if |s| == 11 && s[..7] == SgrPrefix && s[10] == 'm'
       && IsDigit(s[7]) && IsDigit(s[8]) && IsDigit(s[9])
    then
      var n := ValueOf3(s[7..10]);
      assert s[7..10] == Pad3(n) by {
        DigitsDetermined(s[7..10], Pad3(n));
      }
      assert s == s[..7] + s[7..10] + s[10..];
      Some(n)
    else None
  }

  /** Three digits are determined by the number they write. */
  lemma DigitsDetermined(s: string, t: string)
    requires |s| == 3 && |t| == 3
    requires IsDigit(s[0]) && IsDigit(s[1]) && IsDigit(s[2])
    requires IsDigit(t[0]) && IsDigit(t[1]) && IsDigit(t[2])
    requires ValueOf3(s) == ValueOf3(t)
    ensures s == t
  {
    var a0, a1, a2 := s[0] as int - '0' as int, s[1] as int - '0' as int, s[2] as int - '0' as int;
    var b0, b1, b2 := t[0] as int - '0' as int, t[1] as int - '0' as int, t[2] as int - '0' as int;
    assert a0 == b0;
    assert a1 == b1;
    assert s[0] == t[0] && s[1] == t[1] && s[2] == t[2];
  }

  /** Every palette index round-trips through its sequence. */
  lemma Sgr256RoundTrip(n: int)
    requires 0 <= n < 1000
    ensures ParseSgr256(Sgr256(n)) == Some(n)
  {
    var s := Sgr256(n);
    assert s[..7] == SgrPrefix && s[7..10] == Pad3(n) && s[10] == 'm';
  }

  /** getControlSequence: the escape string for a colour code. `draw` stands
      for the value the random source produced; the source asks for
      `rand.Intn(22)` and `rand.Intn(255)`, modelled as `draw % 22` and
      `draw % 255`, which range over exactly the values those calls return. */
  function ControlSequence(code: int, draw: nat): string
  {
    if 0 <= code < 256 then Sgr256(code)
    else if code == RESET then ResetSequence
    else if code == RESETLINE then ResetLineSequence
    else if code == RANDOMGREY then Sgr256(draw % 22 + 231)
    else if code == RANDOM then Sgr256(draw % 255)
    else DefaultForeground
  }

  /** What the switch selects, read back through ParseSgr256: a 256-colour
      index is selected as itself, the random grey lies in [231, 252], the
      random colour in [0, 254], and every other code selects no 256-colour
      sequence at all. */
  lemma ControlSequenceMeaning(code: int, draw: nat)
    ensures 0 <= code < 256 ==> ParseSgr256(ControlSequence(code, draw)) == Some(code)
    ensures code == RANDOMGREY ==>
              var p := ParseSgr256(ControlSequence(code, draw));
              p.Some? && 231 <= p.value <= 252
    ensures code == RANDOM ==>
              var p := ParseSgr256(ControlSequence(code, draw));
              p.Some? && 0 <= p.value <= 254
    ensures (code < 0 || 256 <= code < RESET || code > RANDOM) ==>
              ParseSgr256(ControlSequence(code, draw)).None?
  {
    if 0 <= code < 256 {
      Sgr256RoundTrip(code);
    } else if code == RANDOMGREY {
      Sgr256RoundTrip(draw % 22 + 231);
    } else if code == RANDOM {
      Sgr256RoundTrip(draw % 255);
    }
  }

  /** The fixed sequences: reset, reset line, and the white fallback for every
      code the switch does not name (including BLANK and ALREADYCOLORED). */
  lemma ControlSequenceFixed(code: int, draw: nat)
    ensures code == RESET ==> ControlSequence(code, draw) == [Esc] + "[0m"
    ensures code == RESETLINE ==> ControlSequence(code, draw) == "\r" + [Esc] + "[K"
    ensures (code < 0 || 256 <= code < RESET || code > RANDOM) ==>
              ControlSequence(code, draw) == [Esc] + "[37m"
  {
  }

  /** The random cases can produce every index of their range, so the draw
      parameter loses none of the source's possible outputs. */
  lemma RandomGreyCoversRange(i: int)
    requires 231 <= i <= 252
    ensures exists d: nat :: ControlSequence(RANDOMGREY, d) == Sgr256(i)
  {
    var d: nat := i - 231;
    assert d % 22 + 231 == i;
    assert ControlSequence(RANDOMGREY, d) == Sgr256(i);
  }

  lemma RandomCoversRange(i: int)
    requires 0 <= i <= 254
    ensures exists d: nat :: ControlSequence(RANDOM, d) == Sgr256(i)
  {
    var d: nat := i;
    assert d % 255 == i;
    assert ControlSequence(RANDOM, d) == Sgr256(i);
  }

  /** The examples of the terminal tests. */
  lemma ControlSequenceExamples(draw: nat)
    ensures ControlSequence(42, draw) == [Esc] + "[38;5;042m"
    ensures ControlSequence(999, draw) == [Esc] + "[37m"
  {
  }

  /** Length of the control sequence that Color puts in front of the text. */
  function LeadingSequenceLength(t: string): nat
  {
    if |t| >= 4 && t[..4] == ResetLineSequence then 4
    else if |t| >= 2 && t[0] == Esc && t[1] == '[' then UpToFirstM(t, 2)
    else 0
  }

  /** The index just past the first 'm' at or after `i`, or |t| if none. */
  function UpToFirstM(t: string, i: nat): (k: nat)
    requires i <= |t|
    ensures i <= k <= |t|
    decreases |t| - i
  {
    if i == |t| then i
    else if t[i] == 'm' then i + 1
    else UpToFirstM(t, i + 1)
  }

  /** Removes the sequence Color put around a text: the leading colour or
      control sequence and the trailing reset. */
  function Uncolor(t: string): string
  {
    var k := LeadingSequenceLength(t);
    if |t| >= k + 4 then t[k..|t| - 4] else t
  }

  /** Color: the text unchanged for BLANK and ALREADYCOLORED, otherwise the
      text between its colour sequence and the reset sequence, which Uncolor
      takes off again. */
  function Color(s: string, color: int, draw: nat): (r: string)
    ensures color == BLANK || color == ALREADYCOLORED ==> r == s
    ensures color != BLANK && color != ALREADYCOLORED ==> |r| > |s|
  {
    if color == BLANK || color == ALREADYCOLORED then s
    else ControlSequence(color, draw) + s + ControlSequence(RESET, draw)
  }

  /** Any other colour wraps the text: it ends in the reset sequence, and
      Uncolor takes the wrapping off again. */
  lemma ColorWraps(s: string, color: int, draw: nat)
    requires color != BLANK && color != ALREADYCOLORED
    ensures var r := Color(s, color, draw);
            |r| >= 4 && Uncolor(r) == s && r[|r| - 4..] == ResetSequence
  {
    var p := ControlSequence(color, draw);
    LeadingSequenceOfColor(p, s, color, draw);
    assert Color(s, color, draw) == p + s + ResetSequence;
  }

  lemma LeadingSequenceOfColor(p: string, s: string, color: int, draw: nat)
    requires p == ControlSequence(color, draw)
    ensures LeadingSequenceLength(p + s + ResetSequence) == |p|
  {
    var t := p + s + ResetSequence;
    if p == ResetLineSequence {
      assert t[..4] == p;
    } else {
      assert p[0] == Esc && p[1] == '[' && p[|p| - 1] == 'm';
      assert forall j :: 2 <= j < |p| - 1 ==> p[j] != 'm';
      assert t[..4] != ResetLineSequence by {
        assert t[0] == Esc;
      }
      FirstMAt(t, 2, |p| - 1);
    }
  }

  lemma {:induction false} FirstMAt(t: string, i: nat, m: nat)
    requires i <= m < |t| && t[m] == 'm'
    requires forall j :: i <= j < m ==> t[j] != 'm'
    ensures UpToFirstM(t, i) == m + 1
    decreases m - i
  {
    if i < m {
      FirstMAt(t, i + 1, m);
    }
  }

  /** The examples of the terminal tests. */
  lemma ColorExamples(draw: nat)
    ensures Color("Hello", RED, draw) == [Esc] + "[38;5;001mHello" + [Esc] + "[0m"
    ensures Color("Test", 100, draw) == [Esc] + "[38;5;100mTest" + [Esc] + "[0m"
    ensures Color("Hello", BLANK, draw) == "Hello" && Color("Hello", ALREADYCOLORED, draw) == "Hello"
  {
    assert Pad3(1) == "001" && Pad3(100) == "100";
    assert ControlSequence(RED, draw) == [Esc] + "[38;5;001m";
    assert ControlSequence(100, draw) == [Esc] + "[38;5;100m";
    assert ControlSequence(RESET, draw) == [Esc] + "[0m";
  }

  /** What the terminal reported: columns and rows (the operating system
      reports them unsigned), or a failure. */
  datatype SizeProbe = Detected(columns: nat, rows: nat) | ProbeFailed

  const DefaultRows: int := 24
  const DefaultColumns: int := 80

  /** Height: the detected row count, or 24 rows when detection failed or
      reported zero; never zero. */
  function Height(probe: SizeProbe): (h: int)
    ensures h >= 1
    ensures probe.Detected? && probe.rows != 0 ==> h == probe.rows
    ensures !(probe.Detected? && probe.rows != 0) ==> h == DefaultRows
  {
    match probe
    case ProbeFailed => DefaultRows
    case Detected(_, rows) => if rows == 0 then DefaultRows else rows
  }

  /** Width: the detected column count, or 80 columns when detection failed
      or reported zero; never zero. */
  function Width(probe: SizeProbe): (w: int)
    ensures w >= 1
    ensures probe.Detected? && probe.columns != 0 ==> w == probe.columns
    ensures !(probe.Detected? && probe.columns != 0) ==> w == DefaultColumns
  {
    match probe
    case ProbeFailed => DefaultColumns
    case Detected(columns, _) => if columns == 0 then DefaultColumns else columns
  }
}
