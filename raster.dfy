/**
 * RGBA rasters as two-dimensional pixel arrays (row index first, as `y, x`),
 * with the two kinds of Pillow `paste` the watermark code uses: a plain
 * clipped block copy and a paste masked by the source's own alpha channel.
 */
module Raster {
  /** One 8-bit channel value. */
  type Channel = x: int | 0 <= x <= 255

  datatype Pixel = Pixel(r: Channel, g: Channel, b: Channel, a: Channel)

  /** The fill of `Image.new("RGBA", size, (0, 0, 0, 0))`. */
  const Transparent: Pixel := Pixel(0, 0, 0, 0)

  /** Is `(y, x)` inside the `w`-by-`h` rectangle whose top-left corner is `(oy, ox)`? */
  predicate InRect(y: int, x: int, oy: int, ox: int, h: int, w: int) {
    oy <= y < oy + h && ox <= x < ox + w
  }

  /** A fresh `w`-by-`h` raster every pixel of which is transparent. */
  method NewImage(w: nat, h: nat) returns (img: array2<Pixel>)
    ensures fresh(img)
    ensures img.Length0 == h && img.Length1 == w
    ensures forall y, x :: 0 <= y < h && 0 <= x < w ==> img[y, x] == Transparent
  {
    img := new Pixel[h, w]((y, x) => Transparent);
  }

  /**
   * A fresh `w`-by-`h` raster whose pixel `(y, x)` is `sample(y, x)`. This stands
   * for Pillow's `resize`: the resampling kernel is not modelled, the caller gives
   * the value it produces at each output pixel; only the output size is fixed here.
   */
  method Resize(w: nat, h: nat, sample: (int, int) -> Pixel) returns (img: array2<Pixel>)
    ensures fresh(img)
    ensures img.Length0 == h && img.Length1 == w
    ensures forall y, x :: 0 <= y < h && 0 <= x < w ==> img[y, x] == sample(y, x)
  {
    img := new Pixel[h, w]((y, x) => sample(y, x));
  }

  /** A fresh pixel-for-pixel copy of `src` (Pillow's `Image.copy`). */
  method Copy(src: array2<Pixel>) returns (img: array2<Pixel>)
    ensures fresh(img)
    ensures img.Length0 == src.Length0 && img.Length1 == src.Length1
    ensures forall y, x :: 0 <= y < src.Length0 && 0 <= x < src.Length1 ==> img[y, x] == src[y, x]
  {
    img := new Pixel[src.Length0, src.Length1];
    var y := 0;
    while y < src.Length0
      invariant 0 <= y <= src.Length0
      invariant forall i, j :: 0 <= i < y && 0 <= j < src.Length1 ==> img[i, j] == src[i, j]
    {
      var x := 0;
      while x < src.Length1
        invariant 0 <= x <= src.Length1
        invariant forall i, j :: 0 <= i < y && 0 <= j < src.Length1 ==> img[i, j] == src[i, j]
        invariant forall j :: 0 <= j < x ==> img[y, j] == src[y, j]
      {
        img[y, x] := src[y, x];
        x := x + 1;
      }
      y := y + 1;
    }
  }

  /**
   * The endpoints of Pillow's masked paste with the source's alpha as the mask:
   * mask 0 keeps the background pixel, mask 255 takes the source pixel. The
   * blend in between is Pillow's and is given by the caller as `mix`.
   */
  function Over(bg: Pixel, fg: Pixel, mix: (Pixel, Pixel) -> Pixel): Pixel {
    if fg.a == 0 then bg else if fg.a == 255 then fg else mix(bg, fg)
  }

  /** What a paste of `src` at `(oy, ox)` leaves at pixel `(y, x)` of a destination that held `before` there. */
  function PastedAt(src: array2<Pixel>, oy: int, ox: int, y: int, x: int, before: Pixel,
                    masked: bool, mix: (Pixel, Pixel) -> Pixel): Pixel
    reads src
  {
    if InRect(y, x, oy, ox, src.Length0, src.Length1) then
      var fg := src[y - oy, x - ox];
      if masked then Over(before, fg, mix) else fg
    else before
  }

  /**
   * `dst.paste(src, (ox, oy))` (unmasked, `masked == false`) or
   * `dst.paste(src, (ox, oy), src)` (masked by the source's alpha): the source
   * rectangle is clipped to the destination, which changes nowhere else.
   */
  method Paste(dst: array2<Pixel>, src: array2<Pixel>, oy: int, ox: int,
               masked: bool, mix: (Pixel, Pixel) -> Pixel)
    requires dst != src
    modifies dst
    ensures forall y, x :: 0 <= y < dst.Length0 && 0 <= x < dst.Length1 ==>
      dst[y, x] == PastedAt(src, oy, ox, y, x, old(dst[y, x]), masked, mix)
  {
    var y0 := if oy < 0 then 0 else oy;
    var y1 := if oy + src.Length0 < dst.Length0 then oy + src.Length0 else dst.Length0;
    var x0 := if ox < 0 then 0 else ox;
    var x1 := if ox + src.Length1 < dst.Length1 then ox + src.Length1 else dst.Length1;
    var y := y0;
    while y < y1
      invariant y0 <= y && (y0 <= y1 ==> y <= y1)
      invariant forall i, j :: 0 <= i < dst.Length0 && 0 <= j < dst.Length1 ==>
        dst[i, j] == if i < y then PastedAt(src, oy, ox, i, j, old(dst[i, j]), masked, mix) else old(dst[i, j])
    {
      var x := x0;
      while x < x1
        invariant x0 <= x && (x0 <= x1 ==> x <= x1)
        invariant forall i, j :: 0 <= i < dst.Length0 && 0 <= j < dst.Length1 ==>
          dst[i, j] == if i < y || (i == y && j < x) then PastedAt(src, oy, ox, i, j, old(dst[i, j]), masked, mix)
                       else old(dst[i, j])
      {
        var fg := src[y - oy, x - ox];
        dst[y, x] := if masked then Over(dst[y, x], fg, mix) else fg;
        x := x + 1;
      }
      y := y + 1;
    }
  }
}
