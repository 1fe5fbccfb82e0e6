/**
 * Font selection: a text size and a font number become the CSS font
 * shorthand assigned to a 2D drawing context.
 */
module Fonts {
  import opened Wrappers
  import opened Strings

  /** The three families loaded at start-up. */
  datatype Family = LiberationSans | LiberationSansBold | BitstreamVeraMono

  function FamilyName(f: Family): string {
    match f
    case LiberationSans => "Liberation Sans"
    case LiberationSansBold => "Liberation Sans Bold"
    case BitstreamVeraMono => "Bitstream Vera Mono"
  }

  function FamilyNamed(name: string): (f: Option<Family>)
    ensures f.Some? ==> FamilyName(f.value) == name
    ensures forall g :: FamilyName(g) == name ==> f == Some(g)
  {
    if name == "Liberation Sans" then Some(LiberationSans)
    else if name == "Liberation Sans Bold" then Some(LiberationSansBold)
    else if name == "Bitstream Vera Mono" then Some(BitstreamVeraMono)
    else None
  }

  datatype FontDescriptor = FontDescriptor(pixelSize: int, family: Family)

  /**
   * The font for text of height `size` drawn in font `fontNum`: two pixels
   * smaller than the line height; font 1 is the regular sans family, font 2
   * the bold one, and every other number falls back to the monospace family.
   */
  function Font(size: int, fontNum: int): (d: FontDescriptor)
    ensures d.pixelSize == size - 2
    ensures d.family == LiberationSans <==> fontNum == 1
    ensures d.family == LiberationSansBold <==> fontNum == 2
    ensures d.family == BitstreamVeraMono <==> fontNum != 1 && fontNum != 2
  {
    var family :=
      if fontNum == 1 then LiberationSans
      else if fontNum == 2 then LiberationSansBold
      else BitstreamVeraMono;
    FontDescriptor(size - 2, family)
  }

  /** The CSS shorthand, `<pixelSize>px <family>`. */
  function FontString(d: FontDescriptor): string {
    IntToString(d.pixelSize) + "px " + FamilyName(d.family)
  }

  /** Reads a shorthand produced by FontString back into a descriptor. */
  function ParseFontString(s: string): Option<FontDescriptor> {
    var i := IndexOf(s, 'p');
    if i + 3 <= |s| && s[i..i + 3] == "px " then
      match (ParseInt(s[..i]), FamilyNamed(s[i + 3..]))
      case (Some(n), Some(f)) => Some(FontDescriptor(n, f))
      case _ => None
    else None
  }

  /** The first `p` of a shorthand ends its size digits and opens `px `. */
  lemma FontStringSplits(d: FontDescriptor)
    ensures var s, i := FontString(d), |IntToString(d.pixelSize)|;
      IndexOf(s, 'p') == i && i + 3 <= |s| && s[i..i + 3] == "px "
      && s[..i] == IntToString(d.pixelSize) && s[i + 3..] == FamilyName(d.family)
  {
    var n := IntToString(d.pixelSize);
    var name := FamilyName(d.family);
    assert 'p' !in n;
    IndexOfAfterPrefix(n, 'p', "x " + name);
    assert FontString(d) == n + ['p'] + ("x " + name);
  }

  /** The shorthand determines the descriptor: no two fonts share a CSS string. */
  lemma FontStringRoundTrip(d: FontDescriptor)
    ensures ParseFontString(FontString(d)) == Some(d)
  {
    FontStringSplits(d);
    IntToStringRoundTrip(d.pixelSize);
  }

  lemma FontStringInjective(d: FontDescriptor, e: FontDescriptor)
    requires FontString(d) == FontString(e)
    ensures d == e
  {
    FontStringRoundTrip(d);
    FontStringRoundTrip(e);
  }

  lemma TwoDigitExamples()
    ensures IntToString(18) == "18" && IntToString(12) == "12"
  {
    assert DigitChar(1) == '1' && DigitChar(2) == '2' && DigitChar(8) == '8';
  }

  /** Worked example: font 1 is the regular sans family, two pixels smaller. */
  lemma FontExampleRegular()
    ensures FontString(Font(20, 1)) == "18px Liberation Sans"
  {
    TwoDigitExamples();
  }

  /** Worked example: font 2 is the bold sans family. */
  lemma FontExampleBold()
    ensures FontString(Font(20, 2)) == "18px Liberation Sans Bold"
  {
    TwoDigitExamples();
  }

  /** Worked example: an unknown font number falls back to the monospace family. */
  lemma FontExampleFallback()
    ensures FontString(Font(20, 99)) == "18px Bitstream Vera Mono"
  {
    TwoDigitExamples();
  }

  /** Worked example: font number 0 is not special; it falls back too. */
  lemma FontExampleZero()
    ensures FontString(Font(14, 0)) == "12px Bitstream Vera Mono"
  {
    TwoDigitExamples();
  }
}
