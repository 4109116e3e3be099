/** Go string handling that the layout code depends on. Go strings are UTF-8
    bytes; a Dafny string is a sequence of Unicode scalar values, so every
    place where the source counts bytes (`len`, the index of `range`) goes
    through Utf8Len. */
module Text {

  /** Bytes of the UTF-8 encoding of one character. */
  function Utf8Len(c: char): (n: nat)
    ensures 1 <= n <= 4
    ensures c as int < 0x80 <==> n == 1
  {
    if c as int < 0x80 then 1
    else if c as int < 0x800 then 2
    else if c as int < 0x10000 then 3
    else 4
  }

  /** Go's `len(s)`: the byte length of the UTF-8 encoding. */
  function ByteLen(s: string): (n: nat)
    ensures n >= |s|
  {
    if s == [] then 0 else ByteLen(s[..|s| - 1]) + Utf8Len(s[|s| - 1])
  }

  /** The byte index Go's `for l, c := range s` reports for the `j`-th rune. */
  function ByteIndex(s: string, j: nat): (l: nat)
    requires j < |s|
    ensures j <= l && l + Utf8Len(s[j]) <= ByteLen(s)
  {
    ByteLenPrefix(s, j + 1);
    assert s[..j + 1][..j] == s[..j];
    ByteLen(s[..j])
  }

  lemma {:induction false} ByteLenPrefix(s: string, k: nat)
    requires k <= |s|
    ensures ByteLen(s[..k]) <= ByteLen(s)
    decreases |s| - k
  {
    if k < |s| {
      ByteLenPrefix(s, k + 1);
      assert s[..k + 1][..k] == s[..k];
    } else {
      assert s[..k] == s;
    }
  }

  /** Byte indices of successive runes strictly increase, so no two runes of
      a line share a column. */
  lemma ByteIndexIncreasing(s: string, i: nat, j: nat)
    requires i < j < |s|
    ensures ByteIndex(s, i) < ByteIndex(s, j)
  {
    ByteLenPrefix(s[..j], i + 1);
    assert s[..j][..i + 1] == s[..i + 1];
    assert s[..i + 1][..i] == s[..i];
  }

  /** `strings.Repeat(" ", n)`. */
  function Spaces(n: nat): (s: string)
    ensures |s| == n && forall i :: 0 <= i < n ==> s[i] == ' '
  {
    seq(n, _ => ' ')
  }

  /** `strings.Count(s, " ")`. */
  function CountSpaces(s: string): (n: nat)
    ensures n <= |s|
  {
    if s == [] then 0
    else CountSpaces(s[..|s| - 1]) + (if s[|s| - 1] == ' ' then 1 else 0)
  }

  /** `strings.TrimSuffix(s, "\n")`: drops one trailing newline, if any. */
  function TrimNewline(s: string): (r: string)
    ensures s == r || s == r + "\n"
  {
    if |s| > 0 && s[|s| - 1] == '\n' then s[..|s| - 1] else s
  }

  /** `strings.Split(s, "\n")`: the pieces between newlines; the empty string
      gives one empty piece. */
  function Split(s: string): (lines: seq<string>)
    ensures |lines| >= 1
    ensures forall i :: 0 <= i < |lines| ==> '\n' !in lines[i]
  {
    if s == [] then [[]]
    else
      var rest := Split(s[1..]);
      if s[0] == '\n' then [[]] + rest else [[s[0]] + rest[0]] + rest[1..]
  }

  /** `strings.Join(lines, "\n")`. */
  function Join(lines: seq<string>): string
    requires |lines| >= 1
  {
    if |lines| == 1 then lines[0] else lines[0] + "\n" + Join(lines[1..])
  }

  /** Joining the pieces restores the string. */
  lemma {:induction false} JoinSplit(s: string)
    ensures Join(Split(s)) == s
  {
    if s != [] {
      var rest := Split(s[1..]);
      JoinSplit(s[1..]);
      if s[0] != '\n' && |rest| > 1 {
        assert Join(rest) == rest[0] + "\n" + Join(rest[1..]);
      }
    }
  }

  /** Splitting joined lines that hold no newline gives the lines back. */
  lemma {:induction false} SplitJoin(lines: seq<string>)
    requires |lines| >= 1
    requires forall i :: 0 <= i < |lines| ==> '\n' !in lines[i]
    ensures Split(Join(lines)) == lines
  {
    if |lines| == 1 {
      SplitLine(lines[0], []);
    } else {
      SplitJoin(lines[1..]);
      SplitLine(lines[0], Join(lines[1..]));
      assert lines == [lines[0]] + lines[1..];
    }
  }

  /** A newline-free prefix becomes the first piece of the split (or the only
      piece when nothing follows it). */
  lemma {:induction false} SplitLine(line: string, t: string)
    requires '\n' !in line
    ensures t == [] ==> Split(line) == [line]
    ensures Split(line + "\n" + t) == [line] + Split(t)
  {
    if line != [] {
      SplitLine(line[1..], t);
      assert (line + "\n" + t)[1..] == line[1..] + "\n" + t;
      assert line == [line[0]] + line[1..];
      if t == [] {
        assert line[1..] + [] == line[1..];
      }
    } else {
      assert line + "\n" + t == "\n" + t;
      assert ("\n" + t)[1..] == t;
    }
  }

  /** Every line replaced by as many spaces as it has bytes. */
  function BlankLines(parts: seq<string>): (r: seq<string>)
    ensures |r| == |parts|
    ensures forall i :: 0 <= i < |parts| ==> r[i] == Spaces(ByteLen(parts[i]))
  {
    if parts == [] then []
    else BlankLines(parts[..|parts| - 1]) + [Spaces(ByteLen(parts[|parts| - 1]))]
  }

  /** getLines: drops one trailing newline and splits on newlines; in blank
      mode every line becomes as many spaces as it has bytes. */
  function GetLines(text: string, replaceWithBlanks: bool): (lines: seq<string>)
    ensures |lines| == |Split(TrimNewline(text))| >= 1
    ensures !replaceWithBlanks ==> Join(lines) == TrimNewline(text)
    ensures forall i :: 0 <= i < |lines| ==> '\n' !in lines[i]
    ensures replaceWithBlanks ==> forall i :: 0 <= i < |lines| ==>
              lines[i] == Spaces(ByteLen(Split(TrimNewline(text))[i]))
  {
    var parts := Split(TrimNewline(text));
    JoinSplit(TrimNewline(text));
    if replaceWithBlanks then BlankLines(parts) else parts
  }

  /** Blank mode keeps the number of lines and gives each line as many
      columns as the byte indices of the original line reach. */
  lemma BlankLinesMatch(text: string)
    ensures |GetLines(text, true)| == |GetLines(text, false)|
    ensures forall i :: 0 <= i < |GetLines(text, false)| ==>
              GetLines(text, true)[i] == Spaces(ByteLen(GetLines(text, false)[i]))
  {
  }

  /** One trailing newline is dropped before splitting. */
  lemma GetLinesDropsTrailingNewline()
    ensures GetLines("a\nb\n", false) == ["a", "b"]
  {
    SplitLine("b", []);
    SplitLine("a", "b");
    assert "a" + "\n" + "b" == "a\nb";
    assert TrimNewline("a\nb\n") == "a\nb";
  }

  /** A second trailing newline survives as an empty last line. */
  lemma GetLinesKeepsSecondNewline()
    ensures GetLines("a\n\n", false) == ["a", ""]
  {
    SplitLine("a", "");
    assert "a" + "\n" + "" == "a\n";
    assert TrimNewline("a\n\n") == "a\n";
  }

  /** A lone newline gives one empty line. */
  lemma GetLinesLoneNewline()
    ensures GetLines("\n", false) == [""]
  {
    assert TrimNewline("\n") == "";
  }

  /** Blank mode replaces a line by one space per byte. */
  lemma GetLinesBlankExample()
    ensures GetLines("ab", true) == ["  "]
  {
    SplitLine("ab", []);
    assert TrimNewline("ab") == "ab";
    assert "ab"[..1] == "a" && "a"[..0] == "";
    assert ByteLen("ab") == 2;
    assert Spaces(2) == "  ";
  }
}
