/**
 * The opacity rule of `CanvasView.update_image` and `update_text_image`: the
 * slider value `o` (1..100) becomes the 8-bit alpha `int(o * 255 / 100)`, and
 * the image watermark's alpha channel is remapped so that every pixel with
 * some opacity gets exactly that alpha while fully transparent pixels stay so.
 */
module Opacity {
  import opened Raster
  import opened Geometry

  /**
   * `int(o * 255 / 100)`: the quotient is positive, so `int()` is the floor.
   * Over the slider's range the alpha lies in [2, 255].
   */
  function AlphaFor(o: int): (a: Channel)
    requires 1 <= o <= 100
    ensures 2 <= a
    ensures a * 100 <= o * 255 < (a + 1) * 100
  {
    o * 255 / 100
  }

  /**
   * The alpha `lambda i: opacity if i > 0 else 0` gives one pixel. Opacity
   * cannot make a transparent pixel visible nor a visible pixel transparent,
   * every visible pixel gets exactly the chosen alpha, and the colour
   * channels never change.
   */
  function WithOpacity(p: Pixel, o: int): (q: Pixel)
    requires 1 <= o <= 100
    ensures (q.a == 0 <==> p.a == 0) && (p.a > 0 ==> q.a == AlphaFor(o))
    ensures q.r == p.r && q.g == p.g && q.b == p.b
  {
    p.(a := if p.a > 0 then AlphaFor(o) else 0)
  }

  /** Half opacity truncates to 127, full opacity is 255, the minimum is 2. */
  lemma AlphaExamples()
    ensures AlphaFor(50) == 127 && AlphaFor(100) == 255 && AlphaFor(1) == 2
  {
  }

  /** A higher opacity never gives a lower alpha. */
  lemma {:induction false} AlphaMonotone(o1: int, o2: int)
    requires 1 <= o1 <= o2 <= 100
    ensures AlphaFor(o1) <= AlphaFor(o2)
  {
    MulMono(o1, o2, 255);
  }

  /**
   * Remapping twice is remapping once with the later opacity: this is what
   * happens in main1.py, whose `update_image` works on its own previous output
   * instead of reloading the source.
   */
  lemma RemapComposes(p: Pixel, o1: int, o2: int)
    requires 1 <= o1 <= 100 && 1 <= o2 <= 100
    ensures WithOpacity(WithOpacity(p, o1), o2) == WithOpacity(p, o2)
  {
  }

  /** `self.pil_img.putalpha(A.point(...))`: the alpha remap, in place. */
  method RemapAlpha(img: array2<Pixel>, o: int)
    requires 1 <= o <= 100
    modifies img
    ensures forall y, x :: 0 <= y < img.Length0 && 0 <= x < img.Length1 ==>
      img[y, x] == WithOpacity(old(img[y, x]), o)
  {
    var y := 0;
    while y < img.Length0
      invariant 0 <= y <= img.Length0
      invariant forall i, j :: 0 <= i < img.Length0 && 0 <= j < img.Length1 ==>
        img[i, j] == if i < y then WithOpacity(old(img[i, j]), o) else old(img[i, j])
    {
      var x := 0;
      while x < img.Length1
        invariant 0 <= x <= img.Length1
        invariant forall i, j :: 0 <= i < img.Length0 && 0 <= j < img.Length1 ==>
          img[i, j] == if i < y || (i == y && j < x) then WithOpacity(old(img[i, j]), o) else old(img[i, j])
      {
        img[y, x] := WithOpacity(img[y, x], o);
        x := x + 1;
      }
      y := y + 1;
    }
  }

  /**
   * The size `update_image` resizes the logo to: `size` pixels high and
   * `int(size * w / h)` wide, where `size = int(scalar * 30)`. The logo is
   * exactly `size` high and keeps the source's aspect ratio up to truncation.
   */
  function LogoSize(sizePx: nat, src: Size): (r: Size)
    requires Positive(src)
    ensures r.h == sizePx && 0 <= r.w
    ensures r.w * src.h <= sizePx * src.w < (r.w + 1) * src.h
  {
    FloorBounds(sizePx * src.w, src.h);
    MulMono(0, sizePx, src.w);
    DivAtLeast(sizePx * src.w, src.h, 0);
    Size(sizePx * src.w / src.h, sizePx)
  }
}
