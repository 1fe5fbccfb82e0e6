/**
 * The text rasteriser of the render worker: width and cursor queries, and a
 * cache of rasterised strings whose bitmaps arrive asynchronously.
 *
 * The drawing context is represented by its text-metrics oracle `measure`;
 * a bitmap by its id and texture flags. The asynchronous completion of a
 * raster job is the explicit step `Complete`, and calls of the
 * invalidation callback are counted per key in a ghost map.
 */
module Rasterizer {
  import opened Wrappers
  import opened Strings
  import opened Fonts
  import opened ColorCodes
  import opened Cursor

  datatype TextureFlag = NoMipmap | ClampToEdge

  datatype TextureBitmap = TextureBitmap(id: string, flags: set<TextureFlag>)

  datatype KeyParts = KeyParts(size: int, fontNum: int, text: string)

  /** The cache key `${size}:${font}:${text}`. */
  function CacheKey(size: int, fontNum: int, text: string): string {
    IntToString(size) + ":" + IntToString(fontNum) + ":" + text
  }

  /** Reads a key back: up to the first ':', up to the next ':', and the rest. */
  function ParseCacheKey(key: string): Option<KeyParts> {
    var i := IndexOf(key, ':');
    if i == |key| then None
    else
      var rest := key[i + 1..];
      var j := IndexOf(rest, ':');
      if j == |rest| then None
      else
        match (ParseInt(key[..i]), ParseInt(rest[..j]))
        case (Some(size), Some(fontNum)) => Some(KeyParts(size, fontNum, rest[j + 1..]))
        case _ => None
  }

  /** The key determines size, font and text, whatever colons the text holds. */
  lemma CacheKeyRoundTrip(size: int, fontNum: int, text: string)
    ensures ParseCacheKey(CacheKey(size, fontNum, text)) == Some(KeyParts(size, fontNum, text))
  {
    var a := IntToString(size);
    var b := IntToString(fontNum);
    var key := CacheKey(size, fontNum, text);
    assert ':' !in a && ':' !in b;
    assert key == a + [':'] + (b + ":" + text);
    IndexOfAfterPrefix(a, ':', b + ":" + text);
    assert b + ":" + text == b + [':'] + text;
    IndexOfAfterPrefix(b, ':', text);
    IntToStringRoundTrip(size);
    IntToStringRoundTrip(fontNum);
  }

  lemma CacheKeyInjective(size: int, fontNum: int, text: string, size': int, fontNum': int, text': string)
    requires CacheKey(size, fontNum, text) == CacheKey(size', fontNum', text')
    ensures size == size' && fontNum == fontNum' && text == text'
  {
    CacheKeyRoundTrip(size, fontNum, text);
    CacheKeyRoundTrip(size', fontNum', text');
  }

  /** The bitmap a finished raster job attaches: named by its key, no mipmaps, clamped to the edge. */
  function RasterBitmap(key: string): TextureBitmap {
    TextureBitmap(key, {NoMipmap, ClampToEdge})
  }

  /** A cache entry, shared by reference with every caller that asked for its key. */
  class Entry {
    var width: real
    var bitmap: Option<TextureBitmap>

    constructor ()
      ensures width == 0.0 && bitmap == None
    {
      width := 0.0;
      bitmap := None;
    }
  }

  class TextRasterizer {
    /** Text metrics of the drawing context: the width of a string in a font. */
    const measure: (FontDescriptor, string) -> real

    var cache: map<string, Entry>
    /** Keys whose bitmap is being produced: the callback has not run yet. */
    var pending: set<string>
    /** For each key, how many times its completion called the invalidation callback. */
    ghost var invalidations: map<string, nat>

    /** Width a raster job records for a text: the raw text measured, when positive. */
    function RasterWidth(size: int, fontNum: int, text: string): (w: real)
      ensures w >= 0.0
      ensures w > 0.0 <==> measure(Font(size, fontNum), text) > 0.0
    {
      var m := measure(Font(size, fontNum), text);
      if m > 0.0 then m else 0.0
    }

    function KeyWidth(key: string): real {
      match ParseCacheKey(key)
      case Some(p) => RasterWidth(p.size, p.fontNum, p.text)
      case None => 0.0
    }

    /**
     * The state of one entry as its key dictates, given whether its raster
     * job is still pending and how often its completion has run.
     */
    ghost predicate EntryValid(key: string, e: Entry, isPending: bool, calls: nat)
      reads e
    {
      && ParseCacheKey(key).Some?
      && e.width == KeyWidth(key)
      && (isPending ==> e.width > 0.0 && e.bitmap == None)
      && (e.width > 0.0 && !isPending ==> e.bitmap == Some(RasterBitmap(key)))
      && (e.width == 0.0 ==> e.bitmap == None && !isPending)
      && calls == (if e.bitmap.Some? then 1 else 0)
    }

    ghost predicate Valid()
      reads this, cache.Values
    {
      && pending <= cache.Keys
      && invalidations.Keys == cache.Keys
      && (forall k, k' :: k in cache && k' in cache && k != k' ==> cache[k] != cache[k'])
      && (forall k :: k in cache ==> EntryValid(k, cache[k], k in pending, invalidations[k]))
    }

    constructor (measure: (FontDescriptor, string) -> real)
      ensures Valid()
      ensures this.measure == measure
      ensures cache == map[] && pending == {} && invalidations == map[]
    {
      this.measure := measure;
      cache := map[];
      pending := {};
      invalidations := map[];
    }

    /** The width of a text as displayed: colour codes are removed before measuring. */
    function MeasureText(size: int, fontNum: int, text: string): real {
      measure(Font(size, fontNum), StripColors(text))
    }

    /** Inserting valid colour codes between the characters of a text does not change its width. */
    lemma MeasureTextIgnoresColors(size: int, fontNum: int, ps: seq<Piece>)
      requires forall k :: 0 <= k < |ps| ==> ValidPiece(ps[k])
      ensures MeasureText(size, fontNum, Render(ps)) == MeasureText(size, fontNum, Plain(ps))
    {
      StripRender(ps);
      var plain := Plain(ps);
      assert '^' !in plain by { PlainHasNoCaret(ps); }
      StripWithoutCaret(plain);
    }

    /** A lone colour code has the width of the empty string (the raster cache measures it raw). */
    lemma MeasureTextStripsCode(size: int, fontNum: int)
      ensures MeasureText(size, fontNum, "^1") == measure(Font(size, fontNum), "")
    {
      assert CodeLength("^1") == 2;
      assert "^1"[2..] == [];
    }

    /**
     * `measureTextCursorIndex`: the line from y, a scan over prefix widths
     * of the raw line, then the lengths of the earlier lines, each with its
     * newline. None when the line index is NaN.
     */
    method MeasureTextCursorIndex(size: int, fontNum: int, text: string, cursorX: real, cursorY: real)
      returns (r: Option<nat>)
      ensures r == CursorIndex(measure, size, fontNum, text, cursorX, cursorY)
    {
      var font := Font(size, fontNum);
      var lines := Split(text);
      var line := LineIndex(size, cursorY, |lines|);
      if line.None? {
        return None;
      }
      var y := line.value;
      var chars := lines[y];
      var i := 0;
      while i <= |chars|
        invariant i <= |chars| + 1
        invariant LocalIndex(measure, font, chars, cursorX, i) == LocalIndex(measure, font, chars, cursorX, 0)
      {
        var w := measure(font, chars[..i]);
        if w >= cursorX {
          break;
        }
        i := i + 1;
      }
      var j := 0;
      while j < y
        invariant j <= y
        invariant i == LocalIndex(measure, font, chars, cursorX, 0) + LineStart(lines, j)
      {
        i := i + |lines[j]| + 1;
        j := j + 1;
      }
      r := Some(i);
    }

    /**
     * `get`: the entry for a key, created on first request. A new entry is
     * stored as a placeholder before anything is measured; the raw text is
     * measured, and only a positive width is recorded and starts a raster job.
     */
    method Get(size: int, fontNum: int, text: string) returns (e: Entry)
      requires Valid()
      modifies this
      ensures Valid()
      ensures var key := CacheKey(size, fontNum, text);
        && key in cache && cache[key] == e
        && (key in old(cache) ==>
              && e == old(cache[key])
              && cache == old(cache) && pending == old(pending)
              && invalidations == old(invalidations))
        && (key !in old(cache) ==>
              && fresh(e)
              && cache == old(cache)[key := e]
              && e.width == RasterWidth(size, fontNum, text)
              && e.bitmap == None
              && pending == (if e.width > 0.0 then old(pending) + {key} else old(pending))
              && invalidations == old(invalidations)[key := 0])
    {
      var key := CacheKey(size, fontNum, text);
      if key in cache {
        e := cache[key];
        return;
      }
      e := new Entry();
      cache := cache[key := e];
      invalidations := invalidations[key := 0];
      var w := measure(Font(size, fontNum), text);
      if w > 0.0 {
        e.width := w;
        pending := pending + {key};
      }
      CacheKeyRoundTrip(size, fontNum, text);
      assert EntryValid(key, e, key in pending, 0);
    }

    /**
     * The completion of the raster job for `key`: the bitmap is attached to
     * the same entry object and the invalidation callback runs once.
     */
    method Complete(key: string)
      requires Valid() && key in pending
      modifies this, cache[key]
      ensures Valid()
      ensures cache == old(cache) && pending == old(pending) - {key}
      ensures cache[key].bitmap == Some(RasterBitmap(key))
      ensures cache[key].width == old(cache[key].width) > 0.0
      ensures invalidations == old(invalidations)[key := 1] && old(invalidations[key]) == 0
    {
      var e := cache[key];
      e.bitmap := Some(RasterBitmap(key));
      pending := pending - {key};
      invalidations := invalidations[key := invalidations[key] + 1];
      assert EntryValid(key, e, false, 1);
      forall k | k in cache && k != key
        ensures EntryValid(k, cache[k], k in pending, invalidations[k])
      {
        assert cache[k] != e;
        assert old(EntryValid(k, cache[k], k in pending, invalidations[k]));
      }
    }

    /**
     * At most one raster job per key: an entry's callback ran once when it
     * has a bitmap and not at all otherwise; a zero-width entry never gets one.
     */
    lemma InvalidatedAtMostOnce(key: string)
      requires Valid() && key in cache
      ensures invalidations[key] <= 1
      ensures invalidations[key] == 1 <==> cache[key].bitmap.Some?
      ensures cache[key].width == 0.0 ==> cache[key].bitmap == None && key !in pending
      ensures cache[key].bitmap.Some? ==> cache[key].bitmap.value.id == key
    {
      assert EntryValid(key, cache[key], key in pending, invalidations[key]);
    }
  }

  lemma {:induction false} PlainHasNoCaret(ps: seq<Piece>)
    requires forall k :: 0 <= k < |ps| ==> ValidPiece(ps[k])
    ensures '^' !in Plain(ps)
  {
    if ps != [] {
      PlainHasNoCaret(ps[1..]);
    }
  }

  /**
   * Two requests for the same text before its bitmap is ready share one
   * entry and one raster job; completing that job fills the shared entry
   * and runs the callback once.
   */
  method RequestTwiceThenComplete(r: TextRasterizer, size: int, fontNum: int, text: string)
    returns (first: Entry, second: Entry)
    requires r.Valid() && CacheKey(size, fontNum, text) !in r.cache
    requires r.measure(Font(size, fontNum), text) > 0.0
    modifies r
    ensures first == second
    ensures first.bitmap == Some(RasterBitmap(CacheKey(size, fontNum, text)))
    ensures CacheKey(size, fontNum, text) in r.invalidations
    ensures r.invalidations[CacheKey(size, fontNum, text)] == 1
  {
    var key := CacheKey(size, fontNum, text);
    first := r.Get(size, fontNum, text);
    second := r.Get(size, fontNum, text);
    assert key in r.pending;
    r.Complete(key);
  }
}
