/**
 * Inline colour codes and their removal before width measurement. A code
 * is a caret followed by one decimal digit (`^3`), or a caret, an `x` or
 * `X`, and exactly six hexadecimal digits (`^xFF8800`). Removal is one
 * left-to-right pass that deletes every code it meets and resumes after it.
 */
module ColorCodes {
  import opened Strings

  predicate IsHex(c: char) {
    IsDigit(c) || 'a' <= c <= 'f' || 'A' <= c <= 'F'
  }

  predicate AllHex(s: string) {
    forall i :: 0 <= i < |s| ==> IsHex(s[i])
  }

  /** Length of the colour code at the very start of `s`, or 0 when none starts there. */
  function CodeLength(s: string): (n: nat)
    ensures n == 0 || n == 2 || n == 8
    ensures n <= |s|
    ensures n > 0 ==> s[0] == '^'
  {
    if |s| >= 2 && s[0] == '^' && IsDigit(s[1]) then 2
    else if |s| >= 8 && s[0] == '^' && (s[1] == 'x' || s[1] == 'X') && AllHex(s[2..8]) then 8
    else 0
  }

  /** `s.replaceAll(reColorGlobal, "")`. */
  function StripColors(s: string): (r: string)
    ensures |r| <= |s|
    decreases |s|
  {
    if s == [] then []
    else
      var n := CodeLength(s);
      if n > 0 then StripColors(s[n..]) else [s[0]] + StripColors(s[1..])
  }

  /** Some colour code starts somewhere in `s`. */
  predicate HasCode(s: string) {
    exists i :: 0 <= i < |s| && CodeLength(s[i..]) > 0
  }

  /** Text without a caret is measured as it is. */
  lemma {:induction false} StripWithoutCaret(s: string)
    requires '^' !in s
    ensures StripColors(s) == s
  {
    if s != [] {
      StripWithoutCaret(s[1..]);
      assert [s[0]] + s[1..] == s;
    }
  }

  /** Stripping changes a text exactly when a colour code occurs in it. */
  lemma StripFixedIff(s: string)
    ensures StripColors(s) == s <==> !HasCode(s)
  {
    if HasCode(s) {
      StripShortens(s);
    } else {
      StripWithoutCode(s);
    }
  }

  lemma {:induction false} StripWithoutCode(s: string)
    requires !HasCode(s)
    ensures StripColors(s) == s
  {
    if s != [] {
      assert s[0..] == s;
      assert CodeLength(s) == 0;
      assert !HasCode(s[1..]) by {
        forall i | 0 <= i < |s| - 1
          ensures CodeLength(s[1..][i..]) == 0
        {
          assert s[1..][i..] == s[i + 1..];
        }
      }
      StripWithoutCode(s[1..]);
      assert [s[0]] + s[1..] == s;
    }
  }

  lemma {:induction false} StripShortens(s: string)
    requires HasCode(s)
    ensures |StripColors(s)| < |s|
  {
    var i :| 0 <= i < |s| && CodeLength(s[i..]) > 0;
    if CodeLength(s) == 0 {
      assert i != 0 by {
        assert s[0..] == s;
      }
      assert s[1..][i - 1..] == s[i..];
      StripShortens(s[1..]);
    }
  }

  /** The pass does not reconsider what it leaves behind: "^^12" becomes "^2". */
  lemma StripNotIdempotent()
    ensures StripColors("^^12") == "^2"
    ensures StripColors(StripColors("^^12")) == ""
  {
    assert CodeLength("^^12") == 0;
    assert "^^12"[1..] == "^12";
    assert CodeLength("^12") == 2;
    assert "^12"[2..] == "2";
    assert CodeLength("2") == 0;
    assert StripColors("2") == "2" by {
      assert "2"[1..] == [];
    }
    assert CodeLength("^2") == 2;
    assert "^2"[2..] == [];
  }

  /** `^x` needs all six hexadecimal digits; with five it is ordinary text. */
  lemma StripShortHexCode()
    ensures StripColors("^x12345") == "^x12345"
  {
    ShortHexCodeKept('x', "12345", []);
    assert ['^', 'x'] + "12345" + [] == "^x12345";
  }

  /** A non-caret character and hexadecimal digits after it are kept as they are. */
  lemma {:induction false} StripKeepsHexRun(c: char, h: string, t: string)
    requires c != '^' && AllHex(h)
    ensures StripColors([c] + h + t) == [c] + h + StripColors(t)
    decreases |h|
  {
    var s := [c] + h + t;
    assert CodeLength(s) == 0;
    if h == [] {
      assert s[1..] == t;
    } else {
      assert h[0] != '^';
      assert s[1..] == [h[0]] + h[1..] + t;
      StripKeepsHexRun(h[0], h[1..], t);
      assert [c] + ([h[0]] + h[1..]) == [c] + h;
    }
  }

  /** One step of the pass where no code starts: the character is kept. */
  lemma {:induction false} StripKeepsFirst(c: char, rest: string)
    requires CodeLength([c] + rest) == 0
    ensures StripColors([c] + rest) == [c] + StripColors(rest)
  {
    assert ([c] + rest)[1..] == rest;
  }

  /** One step of the pass where a code starts: the code is dropped. */
  lemma {:induction false} StripDropsCode(code: string, rest: string)
    requires |code| > 0 && CodeLength(code + rest) == |code|
    ensures StripColors(code + rest) == StripColors(rest)
  {
    assert (code + rest)[|code|..] == rest;
  }

  lemma {:induction false} NoCodeAtShortHex(x: char, h: string, t: string)
    requires x == 'x' || x == 'X'
    requires AllHex(h) && |h| < 6
    requires t == [] || !IsHex(t[0])
    ensures CodeLength(['^', x] + h + t) == 0
  {
    var s := ['^', x] + h + t;
    if |s| >= 8 {
      assert s[2..8][|h|] == t[0];
    }
  }

  /**
   * `^x` or `^X` followed by fewer than six hexadecimal digits (the run ends
   * before the sixth) is ordinary text: the pass keeps it and goes on after it.
   */
  lemma {:induction false} ShortHexCodeKept(x: char, h: string, t: string)
    requires x == 'x' || x == 'X'
    requires AllHex(h) && |h| < 6
    requires t == [] || !IsHex(t[0])
    ensures StripColors(['^', x] + h + t) == ['^', x] + h + StripColors(t)
  {
    var tail := [x] + h + t;
    assert ['^', x] + h + t == ['^'] + tail;
    NoCodeAtShortHex(x, h, t);
    StripKeepsHexRun(x, h, t);
    StripKeepsFirst('^', tail);
    assert ['^'] + ([x] + h + StripColors(t)) == ['^', x] + h + StripColors(t);
  }

  /**
   * Invariance of the width under inserted codes needs a caret-free text:
   * inserting "^2" after the caret of "^1" gives "^^21", which strips to
   * "^1", while "^1" strips to "".
   */
  lemma InsertionIntoCaretTextNotStripped()
    ensures StripColors("^1") == ""
    ensures StripColors("^^21") == "^1"
  {
    assert CodeLength("^1") == 2;
    assert "^1"[2..] == [];
    assert CodeLength("^^21") == 0;
    assert "^^21"[1..] == "^21";
    assert CodeLength("^21") == 2;
    assert "^21"[2..] == "1";
    assert StripColors("1") == "1" by {
      assert "1"[1..] == [];
    }
  }

  /** A text with colour codes placed between its characters, piece by piece. */
  datatype Piece =
    | Char(c: char)
    | DigitCode(d: char)
    | HexCode(x: char, hex: string)

  predicate ValidPiece(p: Piece) {
    match p
    case Char(c) => c != '^'
    case DigitCode(d) => IsDigit(d)
    case HexCode(x, hex) => (x == 'x' || x == 'X') && |hex| == 6 && AllHex(hex)
  }

  function Render(ps: seq<Piece>): string {
    if ps == [] then []
    else
      var head := match ps[0]
        case Char(c) => [c]
        case DigitCode(d) => ['^', d]
        case HexCode(x, hex) => ['^', x] + hex;
      head + Render(ps[1..])
  }

  /** The characters of a coloured text without its codes. */
  function Plain(ps: seq<Piece>): string {
    if ps == [] then []
    else (if ps[0].Char? then [ps[0].c] else []) + Plain(ps[1..])
  }

  /** Every match of the pass is the rendering of one valid colour-code piece. */
  lemma CodeLengthIsCodePiece(s: string)
    requires CodeLength(s) > 0
    ensures exists p :: ValidPiece(p) && !p.Char? && Render([p]) == s[..CodeLength(s)]
  {
    var p := if CodeLength(s) == 2 then DigitCode(s[1]) else HexCode(s[1], s[2..8]);
    assert [p][1..] == [];
    assert Render([p]) == s[..CodeLength(s)];
  }

  /** Every valid colour-code piece is matched in full wherever it starts a text. */
  lemma CodePieceIsCode(p: Piece, t: string)
    requires ValidPiece(p) && !p.Char?
    ensures CodeLength(Render([p]) + t) == |Render([p])|
  {
    assert [p][1..] == [];
    var s := Render([p]) + t;
    if p.HexCode? {
      assert s[2..8] == p.hex;
    }
  }

  /** A caret that does not start the rendering of a colour-code piece is kept. */
  lemma CaretWithoutCodeKept(t: string)
    requires forall p :: ValidPiece(p) && !p.Char? ==> !(Render([p]) <= ['^'] + t)
    ensures StripColors(['^'] + t) == ['^'] + StripColors(t)
  {
    var s := ['^'] + t;
    if CodeLength(s) > 0 {
      CodeLengthIsCodePiece(s);
      assert false;
    }
    StripKeepsFirst('^', t);
  }

  /**
   * Colouring is undone by stripping: for a caret-free text, inserting valid
   * codes anywhere between its characters and then stripping gives back the text.
   */
  lemma {:induction false} StripRender(ps: seq<Piece>)
    requires forall k :: 0 <= k < |ps| ==> ValidPiece(ps[k])
    ensures StripColors(Render(ps)) == Plain(ps)
  {
    if ps != [] {
      var rest := Render(ps[1..]);
      StripRender(ps[1..]);
      match ps[0]
      case Char(c) =>
        assert Render(ps) == [c] + rest;
        StripKeepsFirst(c, rest);
      case DigitCode(d) =>
        assert Render(ps) == ['^', d] + rest;
        assert CodeLength(['^', d] + rest) == 2;
        StripDropsCode(['^', d], rest);
      case HexCode(x, hex) =>
        var code := ['^', x] + hex;
        assert Render(ps) == code + rest;
        assert (code + rest)[2..8] == hex;
        assert CodeLength(code + rest) == 8;
        StripDropsCode(code, rest);
    }
  }
}
