# Text rasteriser of the render worker, modelled in Dafny

This project models `TextRasterizer` from `packages/driver/src/renderer/text.ts`:
the class a render worker uses to measure text, to map a pointer position to a
character index, and to rasterise strings into cached bitmaps that are produced
asynchronously.

- `strings.dfy` (module `Strings`): the decimal text JavaScript gives an integer in a
  template literal, a parser that inverts it, `split("\n")` and its inverse `join`.
- `fonts.dfy` (module `Fonts`): `TextRasterizer.font`, the choice of CSS font from a
  text size and a font number, as a descriptor and as the `<n>px <family>` string.
- `color_codes.dfy` (module `ColorCodes`): the one-pass removal of inline colour codes
  (`^` and a digit, or `^x`/`^X` and six hexadecimal digits) done by
  `replaceAll(reColorGlobal, "")`, as a recursive string function.
- `cursor.dfy` (module `Cursor`): the pieces of `measureTextCursorIndex` as functions:
  line selection from y, the prefix scan of the line, and the offset of a line.
- `rasterizer.dfy` (module `Rasterizer`): the class `TextRasterizer` with its `cache`
  map of mutable `Entry` objects, the set of keys whose raster job is still running,
  and a ghost per-key count of invalidation-callback calls; `Get`, the explicit
  completion step `Complete`, `MeasureText` and the imperative `MeasureTextCursorIndex`.

The drawing context's text metrics are an uninterpreted oracle
`measure: (FontDescriptor, string) -> real`, a constant of the rasteriser. Sizes and
font numbers are integers; widths and pointer coordinates are reals.

Width measurement strips colour codes; cursor hit-testing and rasterisation measure
the raw text. The model keeps that difference (`MeasureText` versus
`MeasureTextCursorIndex` and `RasterWidth`).

Three behaviours of the code are easy to misread; the model keeps them as written:
- When no prefix of the selected line is as wide as the pointer's x, the scan loop
  leaves its index at the line length plus one, not at the line length. On
  `"ab\ncd"` at size 16 with the pointer at (1000, 20) and narrow glyphs, the result is
  6, one past the end of the text, not 5 (`Cursor.CursorPastEndOfLine`). On an
  earlier line, one past the end of the line is the first character of the next line:
  at (1000, 0) the index is 3, the 'c' of "cd", not the end of "ab"
  (`Cursor.CursorPastEndOfEarlierLine`).
- The width of a text is unchanged by inserting colour codes only when the text has no
  caret: inserting "^2" after the caret of "^1" gives "^^21", which the one pass strips
  to "^1", whereas "^1" itself strips to "" (`ColorCodes.InsertionIntoCaretTextNotStripped`).
- Whether a new cache entry ever gets a bitmap depends on the width of the raw text,
  colour codes included, not of the stripped text.

## Model

| member | source | states |
|---|---|---|
| Fonts.Font | packages/driver/src/renderer/text.ts:26-36 | the font is two pixels smaller than the size; the family is Liberation Sans exactly for font 1, Liberation Sans Bold exactly for font 2, Bitstream Vera Mono for every other number |
| Fonts.FontStringSplits | packages/driver/src/renderer/text.ts:30-34 | in the CSS string, the first `p` ends the size digits, `px ` follows them and the family name is the rest |
| Fonts.FontStringRoundTrip | packages/driver/src/renderer/text.ts:26-36 | the CSS string `<n>px <family>` can be read back into the descriptor that produced it |
| Fonts.FontStringInjective | packages/driver/src/renderer/text.ts:26-36 | two descriptors with the same CSS string are equal |
| Fonts.FontExampleRegular | packages/driver/src/renderer/text.ts:29-30 | size 20, font 1 gives "18px Liberation Sans" |
| Fonts.FontExampleBold | packages/driver/src/renderer/text.ts:31-32 | size 20, font 2 gives "18px Liberation Sans Bold" |
| Fonts.FontExampleFallback | packages/driver/src/renderer/text.ts:33-34 | size 20, unknown font 99 gives "18px Bitstream Vera Mono" |
| Fonts.FontExampleZero | packages/driver/src/renderer/text.ts:33-34 | font 0 is not special: size 14 gives "12px Bitstream Vera Mono" |
| ColorCodes.CodeLength | packages/driver/src/renderer/text.ts:4 | a code at the start of a text is 2 or 8 characters long, starts with a caret, and fits in the text; that it matches exactly the codes of the pattern is CodeLengthIsCodePiece and CodePieceIsCode |
| ColorCodes.CodeLengthIsCodePiece | packages/driver/src/renderer/text.ts:4 | whatever CodeLength recognises at the start of a text is a valid code of the pattern: a caret and a digit, or a caret, `x`/`X` and six hexadecimal digits |
| ColorCodes.CodePieceIsCode | packages/driver/src/renderer/text.ts:4 | every valid code of the pattern, whatever follows it, is recognised with its full length |
| ColorCodes.CaretWithoutCodeKept | packages/driver/src/renderer/text.ts:51 | a caret that does not start a valid code is kept, and stripping goes on after it |
| ColorCodes.StripColors | packages/driver/src/renderer/text.ts:51 | stripping never lengthens a text |
| ColorCodes.StripWithoutCaret | packages/driver/src/renderer/text.ts:51 | a text without a caret is left as it is |
| ColorCodes.StripFixedIff | packages/driver/src/renderer/text.ts:4 | stripping leaves a text unchanged if and only if no colour code occurs anywhere in it |
| ColorCodes.StripNotIdempotent | packages/driver/src/renderer/text.ts:51 | one pass turns "^^12" into "^2", and a second pass would remove that too |
| ColorCodes.ShortHexCodeKept | packages/driver/src/renderer/text.ts:4 | for every text, `^x` or `^X` followed by fewer than six hexadecimal digits (the run ending before the sixth) is kept, and stripping goes on after it |
| ColorCodes.StripShortHexCode | packages/driver/src/renderer/text.ts:4 | instance: "^x12345", with only five hexadecimal digits, is not a code and stays |
| ColorCodes.InsertionIntoCaretTextNotStripped | packages/driver/src/renderer/text.ts:51 | width invariance under inserted codes fails on text with a caret: "^1" strips to "" but "^^21" (with "^2" inserted) strips to "^1" |
| ColorCodes.StripRender | packages/driver/src/renderer/text.ts:51 | for a caret-free text, inserting valid codes between its characters and stripping gives the text back |
| Strings.IntToStringRoundTrip | packages/driver/src/renderer/text.ts:73 | the decimal rendering of an integer parses back to that integer |
| Strings.JoinSplit | packages/driver/src/renderer/text.ts:56 | joining the lines of a split with newlines gives back the text |
| Strings.SplitJoin | packages/driver/src/renderer/text.ts:56 | splitting the join of newline-free lines gives back those lines |
| Cursor.LineIndex | packages/driver/src/renderer/text.ts:57 | the selected line exists; there is none (NaN) exactly when size and y are both zero |
| Cursor.LineIndexIsClampedBand | packages/driver/src/renderer/text.ts:57 | for a non-zero size the line is floor(y / size) clamped to the first and last line |
| Cursor.AboveSelectsFirstLine | packages/driver/src/renderer/text.ts:57 | with a positive size, a negative y selects the first line |
| Cursor.BelowSelectsLastLine | packages/driver/src/renderer/text.ts:57 | with a positive size, a y at or below the last band selects the last line |
| Cursor.LocalIndexIsFirstReaching | packages/driver/src/renderer/text.ts:59-65 | the scan gives the smallest prefix length whose width reaches x, or the line length plus one when none does |
| Cursor.LocalIndexAtLeftEdge | packages/driver/src/renderer/text.ts:59-65 | when x is at most the width of the empty string the scan gives 0 |
| Cursor.LineStartFollowsEarlierLines | packages/driver/src/renderer/text.ts:66-69 | for a line after the first, the text before its offset is exactly the earlier lines joined by newlines, with the newline that ends the last of them |
| Cursor.LineStartLocatesLine | packages/driver/src/renderer/text.ts:66-69 | the summed lengths of the earlier lines, each plus one, are the position of the line in the text: the line sits there, and everything before it is the earlier lines with their newlines |
| Cursor.CursorIndexSpec | packages/driver/src/renderer/text.ts:54-70 | the index is the start of the selected line in the text plus the first prefix length reaching x, and lies between the line's start and one past its end; the text before that start is the earlier lines with their newlines |
| Cursor.CursorPastEndOfLine | packages/driver/src/renderer/text.ts:59-69 | on "ab\ncd" at (1000, 20), size 16, 8-pixel glyphs, the index is 6, one past the end of the text |
| Cursor.CursorPastEndOfEarlierLine | packages/driver/src/renderer/text.ts:59-69 | on "ab\ncd" at (1000, 0), size 16, 8-pixel glyphs, the index is 3, the first character of the next line |
| Rasterizer.TextRasterizer.MeasureTextCursorIndex | packages/driver/src/renderer/text.ts:54-70 | the two loops compute the hit test CursorIndex (None when the line index is NaN) |
| Rasterizer.TextRasterizer.MeasureTextIgnoresColors | packages/driver/src/renderer/text.ts:49-52 | for a caret-free text, inserting valid colour codes between its characters does not change its measured width |
| Rasterizer.TextRasterizer.MeasureTextStripsCode | packages/driver/src/renderer/text.ts:51 | a lone code "^1" measures as the empty string |
| Rasterizer.CacheKeyRoundTrip | packages/driver/src/renderer/text.ts:73 | the key `${size}:${font}:${text}` can be read back into size, font and text, whatever colons the text holds |
| Rasterizer.CacheKeyInjective | packages/driver/src/renderer/text.ts:73 | distinct (size, font, text) triples never share a key |
| Rasterizer.TextRasterizer.RasterWidth | packages/driver/src/renderer/text.ts:86-88 | the recorded width is never negative and is positive exactly when the raw text measures positive |
| Rasterizer.TextRasterizer.constructor | packages/driver/src/renderer/text.ts:38-47 | a new rasteriser has an empty cache, no pending job and no callback calls |
| Rasterizer.Entry.constructor | packages/driver/src/renderer/text.ts:76-79 | a placeholder entry has width 0 and no bitmap |
| Rasterizer.TextRasterizer.Get | packages/driver/src/renderer/text.ts:72-102 | a known key returns the same entry with nothing changed; a new key stores a fresh placeholder, records the raw width when positive and starts exactly one job only then; the map only grows and keeps the invariant |
| Rasterizer.TextRasterizer.Complete | packages/driver/src/renderer/text.ts:95-98 | completion attaches the bitmap with id equal to the key and flags no-mipmap and clamp to the same entry, ends the job, and counts the callback once (0 before, 1 after) |
| Rasterizer.TextRasterizer.InvalidatedAtMostOnce | packages/driver/src/renderer/text.ts:75-98 | in every reachable state the callback ran at most once per key, exactly when the bitmap is present; a zero-width entry never has a bitmap nor a pending job |
| Rasterizer.RequestTwiceThenComplete | packages/driver/src/renderer/text.ts:73-98 | two requests for one new key before completion get the same entry; after the one completion it holds the bitmap and the callback ran once |
| Fonts.FontString | packages/driver/src/renderer/text.ts:30-34 | the CSS shorthand `<pixelSize>px <family>`; that it determines the descriptor is FontStringRoundTrip, and the three concrete strings are the FontExample lemmas |
| Strings.IntToString | packages/driver/src/renderer/text.ts:73 | the decimal text of an integer inside a template literal (also the pixel size at lines 30-34): non-empty, digits and a minus sign only; that it parses back is IntToStringRoundTrip |
| Strings.Split | packages/driver/src/renderer/text.ts:56 | `split("\n")`: at least one line, and no line contains a newline; that it loses nothing is JoinSplit and SplitJoin |
| Cursor.LocalIndex | packages/driver/src/renderer/text.ts:59-65 | the prefix scan from a start position, never past the line length plus one; which index it picks is LocalIndexIsFirstReaching |
| Cursor.LineStart | packages/driver/src/renderer/text.ts:66-69 | the sum of the earlier lines' lengths, each plus one, at least the number of earlier lines; that it is the line's position in the text is LineStartLocatesLine |
| Cursor.CursorIndex | packages/driver/src/renderer/text.ts:54-70 | the whole hit test as a value; None exactly when size and y are both zero (the NaN line index); its characterisation is CursorIndexSpec |
| Rasterizer.CacheKey | packages/driver/src/renderer/text.ts:73 | the key `${size}:${font}:${text}`; that it is injective is CacheKeyRoundTrip and CacheKeyInjective |
| Rasterizer.RasterBitmap | packages/driver/src/renderer/text.ts:96 | the bitmap a completed job attaches, with id equal to the key and flags no-mipmap and clamp-to-edge; Complete attaches it and InvalidatedAtMostOnce says it is present exactly after the one callback |
| Rasterizer.TextRasterizer.MeasureText | packages/driver/src/renderer/text.ts:49-52 | the width of the text after colour codes are stripped, in the selected font; that codes do not change it is MeasureTextIgnoresColors and MeasureTextStripsCode |

## Left out

- Font loading (`loadFonts`, `loadFont`, text.ts:11-24): network fetches and the browser's font registry are I/O.
- Pixel widths: `CanvasRenderingContext2D.measureText` is a foreign engine; it is the uninterpreted `measure` oracle, with no assumption on its values.
- The font assignment `context.font = ...`: folded into passing the font descriptor to `measure`; the context's remembered font is not modelled as state.
- Canvas drawing and bitmap contents (text.ts:89-95): opaque rendering calls; a bitmap is its id and flags only.
- The numeric values of `TextureFlags.TF_NOMIPMAP` and `TF_CLAMP`: defined outside this file; modelled as two distinct flags.
- The failure of `getContext("2d")` in the constructor (text.ts:44-45) and in `get` (text.ts:83-84): the context is assumed available. In `get` that failure would come after the placeholder is stored and leave an entry that never completes.
- Promise scheduling: a raster job is a pending key and `Complete` is its callback; the order in which jobs complete is left to the caller of the model.
- Floating point: NaN, infinities and rounding of widths and coordinates are not modelled, apart from the division by a zero size in the line selection.
- Number formatting: `IntToString` covers integers only; fractional sizes and JavaScript's exponent notation for magnitudes of 10^21 and above are not modelled.
- UTF-16: a Dafny `char` is a Unicode scalar value, so the model covers only text whose characters each take one UTF-16 code unit (nothing above U+FFFF). For other text the source's `length`, `split`, `substring`, prefixes, line offsets and cursor index count two code units per such character where the model counts one; on a single U+1F600 the source's scan returns 3 where `CursorIndex` gives 2.
- Rasterizer.TextRasterizer.Get: assumes the raster job it starts succeeds. With a negative `size`, `canvas.height = size` (text.ts:90) throws after the positive width is recorded, leaving an entry with a width, no job and no bitmap, whereas the model marks the key pending.
- Rasterizer.TextRasterizer.Complete: assumes every started job completes. With `size == 0`, or a width between 0 and 1 that the canvas truncates to 0, `createImageBitmap` (text.ts:95) rejects, the callback never runs and `invalidate` is never called, whereas the model lets `Complete` attach the bitmap.
- Fonts.FontString: for `size < 2` the CSS string has a zero or negative pixel size; a 2D context ignores a negative font size and keeps its previous font, which the model does not capture (it measures with the descriptor as computed).
