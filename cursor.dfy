/**
 * Cursor hit-testing: which character of a multi-line text lies under a
 * point. Each line occupies a band `size` pixels high; within the chosen
 * line the first prefix at least as wide as the x coordinate wins.
 * Pixel widths come from an oracle `measure` standing for the drawing
 * context's text metrics.
 */
module Cursor {
  import opened Wrappers
  import opened Strings
  import opened Fonts

  function MinReal(a: real, b: real): real { if a <= b then a else b }
  function MaxReal(a: real, b: real): real { if a >= b then a else b }

  function Clamp(v: int, lo: int, hi: int): (r: int)
    requires lo <= hi
    ensures lo <= r <= hi
    ensures lo <= v <= hi ==> r == v
  {
    if v < lo then lo else if v > hi then hi else v
  }

  /**
   * `Math.floor(Math.max(0, Math.min(lineCount - 1, cursorY / size)))`.
   * A zero size divides by zero: a positive or negative y gives an infinity
   * that clamps to the last or first line, and y = 0 gives NaN, which indexes
   * no line; None stands for that failure.
   */
  function LineIndex(size: int, cursorY: real, lineCount: nat): (y: Option<nat>)
    requires lineCount >= 1
    ensures y.Some? ==> y.value < lineCount
    ensures y.None? <==> size == 0 && cursorY == 0.0
  {
    if size == 0 then
      if cursorY > 0.0 then Some(lineCount - 1)
      else if cursorY < 0.0 then Some(0)
      else None
    else
      var clamped := MaxReal(0.0, MinReal((lineCount - 1) as real, cursorY / size as real));
      Some(clamped.Floor)
  }

  /** For a non-zero size the line is the band index clamped to the lines that exist. */
  lemma LineIndexIsClampedBand(size: int, cursorY: real, lineCount: nat)
    requires lineCount >= 1 && size != 0
    ensures LineIndex(size, cursorY, lineCount) == Some(Clamp((cursorY / size as real).Floor, 0, lineCount - 1))
  {
    var q := cursorY / size as real;
    var top := (lineCount - 1) as real;
    if q < 0.0 {
      assert q.Floor < 0;
    } else if q >= top {
      assert top.Floor == lineCount - 1;
      assert q.Floor >= lineCount - 1;
    }
  }

  /** A point above the text (with a positive size) selects the first line. */
  lemma AboveSelectsFirstLine(size: int, cursorY: real, lineCount: nat)
    requires lineCount >= 1 && size > 0 && cursorY < 0.0
    ensures LineIndex(size, cursorY, lineCount) == Some(0)
  {
    var q := cursorY / size as real;
    assert q * size as real == cursorY;
    assert q < 0.0;
  }

  /** A point below the last band (with a positive size) selects the last line. */
  lemma BelowSelectsLastLine(size: int, cursorY: real, lineCount: nat)
    requires lineCount >= 1 && size > 0 && cursorY >= ((lineCount - 1) * size) as real
    ensures LineIndex(size, cursorY, lineCount) == Some(lineCount - 1)
  {
    var q := cursorY / size as real;
    var top := (lineCount - 1) as real;
    assert q * size as real == cursorY;
    assert q >= top;
  }

  /**
   * The prefix scan of the chosen line, from position `from` on: the first
   * length `i <= |line|` whose prefix is at least `cursorX` wide, and
   * `|line| + 1` (one past the end of the line) when no prefix is.
   */
  function LocalIndex(measure: (FontDescriptor, string) -> real, font: FontDescriptor,
                      line: string, cursorX: real, from: nat): (k: nat)
    requires from <= |line| + 1
    ensures from <= k <= |line| + 1
    decreases |line| + 1 - from
  {
    if from > |line| then |line| + 1
    else if measure(font, line[..from]) >= cursorX then from
    else LocalIndex(measure, font, line, cursorX, from + 1)
  }

  predicate Reaches(measure: (FontDescriptor, string) -> real, font: FontDescriptor,
                    line: string, cursorX: real, i: nat)
    requires i <= |line|
  {
    measure(font, line[..i]) >= cursorX
  }

  /**
   * The scan returns the smallest prefix length that reaches `cursorX`, or
   * `|line| + 1` when none does; it is never more than `|line| + 1`.
   */
  lemma {:induction false} LocalIndexIsFirstReaching(measure: (FontDescriptor, string) -> real,
                                                      font: FontDescriptor, line: string,
                                                      cursorX: real, from: nat)
    requires from <= |line| + 1
    ensures var k := LocalIndex(measure, font, line, cursorX, from);
      && from <= k <= |line| + 1
      && (forall i :: from <= i < k ==> !Reaches(measure, font, line, cursorX, i))
      && (k <= |line| ==> Reaches(measure, font, line, cursorX, k))
    decreases |line| + 1 - from
  {
    if from <= |line| && !Reaches(measure, font, line, cursorX, from) {
      LocalIndexIsFirstReaching(measure, font, line, cursorX, from + 1);
    }
  }

  /** When the empty prefix is already wide enough the scan stops at 0. */
  lemma LocalIndexAtLeftEdge(measure: (FontDescriptor, string) -> real, font: FontDescriptor,
                             line: string, cursorX: real)
    requires cursorX <= measure(font, "")
    ensures LocalIndex(measure, font, line, cursorX, 0) == 0
  {
    assert line[..0] == "";
  }

  /** The offset of line `y` in the joined text: each earlier line and its newline. */
  function LineStart(lines: seq<string>, y: nat): (start: nat)
    requires y <= |lines|
    ensures start >= y
  {
    if y == 0 then 0 else LineStart(lines, y - 1) + |lines[y - 1]| + 1
  }

  lemma {:induction false} LineStartCons(lines: seq<string>, y: nat)
    requires y < |lines|
    ensures LineStart(lines, y + 1) == |lines[0]| + 1 + LineStart(lines[1..], y)
  {
    if y > 0 {
      LineStartCons(lines, y - 1);
    }
  }

  /** What precedes LineStart in the joined text is exactly the earlier lines, each with its newline. */
  lemma {:induction false} LineStartFollowsEarlierLines(lines: seq<string>, y: nat)
    requires 0 < y < |lines|
    ensures LineStart(lines, y) <= |Join(lines)|
    ensures Join(lines)[..LineStart(lines, y)] == Join(lines[..y]) + "\n"
  {
    var rest := Join(lines[1..]);
    assert Join(lines) == lines[0] + "\n" + rest;
    if y == 1 {
      assert Join(lines[..1]) == lines[0];
    } else {
      LineStartCons(lines, y - 1);
      LineStartFollowsEarlierLines(lines[1..], y - 1);
      var s := LineStart(lines[1..], y - 1);
      assert lines[..y][1..] == lines[1..][..y - 1];
      assert Join(lines[..y]) == lines[0] + "\n" + Join(lines[1..][..y - 1]);
      assert Join(lines)[..|lines[0]| + 1 + s] == lines[0] + "\n" + rest[..s];
    }
  }

  /**
   * Line `y` of a text starts at LineStart in it: the earlier lines and their
   * newlines come first, then the characters of line `y`.
   */
  lemma {:induction false} LineStartLocatesLine(lines: seq<string>, y: nat)
    requires y < |lines|
    ensures LineStart(lines, y) + |lines[y]| <= |Join(lines)|
    ensures 0 < y ==> Join(lines)[..LineStart(lines, y)] == Join(lines[..y]) + "\n"
    ensures Join(lines)[LineStart(lines, y)..LineStart(lines, y) + |lines[y]|] == lines[y]
  {
    if y > 0 {
      LineStartFollowsEarlierLines(lines, y);
    }
    if y > 0 {
      LineStartCons(lines, y - 1);
      LineStartLocatesLine(lines[1..], y - 1);
      var rest := Join(lines[1..]);
      var s := LineStart(lines[1..], y - 1);
      assert Join(lines) == lines[0] + "\n" + rest;
      assert Join(lines)[|lines[0]| + 1 + s..|lines[0]| + 1 + s + |lines[y]|] == rest[s..s + |lines[y]|];
    }
  }

  /**
   * The whole hit test as a value: split on newlines, choose the line from
   * y, scan its prefixes against x, and add the offset of the line. None when
   * the line index is NaN.
   */
  function CursorIndex(measure: (FontDescriptor, string) -> real, size: int, fontNum: int,
                       text: string, cursorX: real, cursorY: real): (r: Option<nat>)
    ensures r.None? <==> size == 0 && cursorY == 0.0
  {
    var lines := Split(text);
    match LineIndex(size, cursorY, |lines|)
    case None => None
    case Some(y) =>
      Some(LocalIndex(measure, Font(size, fontNum), lines[y], cursorX, 0) + LineStart(lines, y))
  }

  /**
   * What the hit test promises: the result is the start of the chosen line
   * in the text plus the first prefix length reaching x, and it lies between
   * the start of the line and one past its end.
   */
  lemma CursorIndexSpec(measure: (FontDescriptor, string) -> real, size: int, fontNum: int,
                        text: string, cursorX: real, cursorY: real)
    requires size != 0 || cursorY != 0.0
    ensures var lines := Split(text);
      var y := LineIndex(size, cursorY, |lines|).value;
      var r := CursorIndex(measure, size, fontNum, text, cursorX, cursorY);
      && r.Some?
      && LineStart(lines, y) <= r.value <= LineStart(lines, y) + |lines[y]| + 1
      && LineStart(lines, y) + |lines[y]| <= |text|
      && (0 < y ==> text[..LineStart(lines, y)] == Join(lines[..y]) + "\n")
      && text[LineStart(lines, y)..LineStart(lines, y) + |lines[y]|] == lines[y]
      && var k := r.value - LineStart(lines, y);
      && (forall i :: 0 <= i < k ==> !Reaches(measure, Font(size, fontNum), lines[y], cursorX, i))
      && (k <= |lines[y]| ==> Reaches(measure, Font(size, fontNum), lines[y], cursorX, k))
  {
    var lines := Split(text);
    var y := LineIndex(size, cursorY, |lines|).value;
    LocalIndexIsFirstReaching(measure, Font(size, fontNum), lines[y], cursorX, 0);
    LineStartLocatesLine(lines, y);
    JoinSplit(text);
  }

  /** An oracle in which every character is 8 pixels wide. */
  function EightPixelMeasure(font: FontDescriptor, s: string): real {
    8.0 * |s| as real
  }

  /**
   * On "ab\ncd" at size 16, a point at (1000, 20) falls in the second band;
   * no prefix of "cd" is 1000 pixels wide, so the scan ends one past the
   * line, at 3, and the offset of the line adds 3: the index is 6, one past
   * the end of the text.
   */
  lemma CursorPastEndOfLine()
    ensures CursorIndex(EightPixelMeasure, 16, 0, "ab\ncd", 1000.0, 20.0) == Some(6)
  {
    var text := "ab\ncd";
    assert Split("cd") == ["cd"] by { SplitNoNewline("cd"); }
    assert text == "ab" + "\n" + "cd";
    SplitPrefix("ab", "cd");
    var lines := Split(text);
    assert lines == ["ab", "cd"];
    assert LineIndex(16, 20.0, 2) == Some(1);
    var font := Font(16, 0);
    assert LocalIndex(EightPixelMeasure, font, "cd", 1000.0, 3) == 3;
    assert LocalIndex(EightPixelMeasure, font, "cd", 1000.0, 0) == 3;
    assert LineStart(lines, 1) == 3;
  }

  /**
   * On an earlier line, one past the end of the line is the first character
   * of the next one: on "ab\ncd" at (1000, 0) the index is 3, the 'c'.
   */
  lemma CursorPastEndOfEarlierLine()
    ensures CursorIndex(EightPixelMeasure, 16, 0, "ab\ncd", 1000.0, 0.0) == Some(3)
    ensures "ab\ncd"[3] == 'c'
  {
    var text := "ab\ncd";
    assert Split("cd") == ["cd"] by { SplitNoNewline("cd"); }
    assert text == "ab" + "\n" + "cd";
    SplitPrefix("ab", "cd");
    var lines := Split(text);
    assert lines == ["ab", "cd"];
    assert LineIndex(16, 0.0, 2) == Some(0);
    var font := Font(16, 0);
    assert LocalIndex(EightPixelMeasure, font, "ab", 1000.0, 3) == 3;
    assert LocalIndex(EightPixelMeasure, font, "ab", 1000.0, 0) == 3;
  }
}
