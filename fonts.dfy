/**
 * The font cache of `CanvasView.update_text_image`: a dictionary keyed by
 * `(family, "bold", size)`. On a miss the font file is resolved and loaded and
 * the result stored; on a hit the stored font is returned without loading.
 */
module Fonts {
  import opened Geometry

  /** The weight is always `"bold"` in the source. */
  const Bold: string := "bold"

  datatype FontKey = FontKey(family: string, weight: string, size: int)

  /** What `ImageFont.truetype(path, size)` returns, identified by its file and size. */
  datatype Font = Font(path: string, size: int)

  /** The ink box `font.getbbox(text)` reports: left, top, right, bottom. */
  datatype BBox = BBox(left: int, top: int, right: int, bottom: int)

  predicate Ordered(b: BBox) { b.left <= b.right && b.top <= b.bottom }

  /**
   * The text canvas: as wide as the ink box and twice as tall, a margin for
   * the unreliable height reported by the glyph box. The text is drawn
   * centred (anchor "mm"), so ink of height `H` placed with its middle on the
   * canvas's middle row leaves at least `H / 2` rows free above and below it.
   */
  function TextCanvasSize(b: BBox): (s: Size)
    requires Ordered(b)
    ensures s.w == b.right - b.left && s.h == 2 * (b.bottom - b.top)
    ensures s.h % 2 == 0 && s.h >= b.bottom - b.top >= 0 && s.w >= 0
    ensures var ink := b.bottom - b.top; var top := s.h / 2 - ink / 2;
      top >= ink / 2 && s.h - (top + ink) >= ink / 2
  {
    Size(b.right - b.left, (b.bottom - b.top) * 2)
  }

  class FontCache {
    var entries: map<FontKey, Font>
    /** The keys the loader was called with, in order. */
    ghost var loads: seq<FontKey>

    /** Every stored key was loaded exactly once, and only stored keys were loaded. */
    ghost predicate Valid()
      reads this
    {
      (forall k :: k in entries <==> k in loads)
      && (forall i, j :: 0 <= i < j < |loads| ==> loads[i] != loads[j])
    }

    /** `self.font_cache = {}` */
    constructor ()
      ensures Valid() && entries == map[] && loads == []
    {
      entries := map[];
      loads := [];
    }

    /**
     * Look up `(family, "bold", size)`; on a miss, load the font at the path
     * `findfont(family, "bold")` resolves to and store it.
     */
    method Lookup(family: string, size: int, findfont: (string, string) -> string) returns (font: Font)
      requires Valid()
      modifies this
      ensures Valid()
      ensures var key := FontKey(family, Bold, size);
        key in old(entries) ==> font == old(entries)[key] && entries == old(entries) && loads == old(loads)
      ensures var key := FontKey(family, Bold, size);
        key !in old(entries) ==> (font == Font(findfont(family, Bold), size)
          && entries == old(entries)[key := font] && loads == old(loads) + [key])
      ensures old(entries).Keys <= entries.Keys && |entries| <= |old(entries)| + 1
      ensures FontKey(family, Bold, size) in entries && entries[FontKey(family, Bold, size)] == font
    {
      var key := FontKey(family, Bold, size);
      if key !in entries {
        entries := entries[key := Font(findfont(family, Bold), size)];
        loads := loads + [key];
      }
      font := entries[key];
    }
  }

  /** Two lookups with the same key return the same font and load it at most once. */
  method LookupTwice(cache: FontCache, family: string, size: int, findfont: (string, string) -> string)
    returns (f1: Font, f2: Font)
    requires cache.Valid()
    modifies cache
    ensures f1 == f2 && |cache.loads| <= |old(cache.loads)| + 1
  {
    f1 := cache.Lookup(family, size, findfont);
    f2 := cache.Lookup(family, size, findfont);
  }
}
