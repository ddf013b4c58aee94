/**
 * `CanvasView.create_output_img`: the watermark raster is scaled by the
 * preview-to-source ratio and pasted, masked by its own alpha, onto a copy of
 * the full-resolution background, at an origin computed from `drag_data`.
 * The origin subtracts half of the UNSCALED watermark size.
 */
module Export {
  import opened Raster
  import opened Geometry
  import opened Drag

  /** The size the watermark is resized to and the top-left corner where it is pasted. */
  datatype Placement = Placement(scaled: Size, origin: Point)

  /**
   * `(int(w * ratio), int(h * ratio))` and
   * `(int(x * ratio - w / 2), int(y * ratio - h / 2))`, with `ratio = num / den`
   * and `int()` truncating toward zero.
   */
  function ExportPlacement(wm: Size, anchor: Point, ratio: Ratio): (pl: Placement)
    requires ratio.den > 0 && ratio.num >= 0 && wm.w >= 0 && wm.h >= 0
    ensures 0 <= pl.scaled.w && 0 <= pl.scaled.h
    ensures ratio.num >= ratio.den ==> pl.scaled.w >= wm.w && pl.scaled.h >= wm.h
  {
    ScaleGrows(wm.w, ratio.num, ratio.den);
    ScaleGrows(wm.h, ratio.num, ratio.den);
    Placement(Size(wm.w * ratio.num / ratio.den, wm.h * ratio.num / ratio.den),
              Point(TruncDiv(2 * anchor.x * ratio.num - wm.w * ratio.den, 2 * ratio.den),
                    TruncDiv(2 * anchor.y * ratio.num - wm.h * ratio.den, 2 * ratio.den)))
  }

  /** The exported size is the watermark size times the ratio, truncated. */
  lemma {:induction false} ScaledSizeTruncates(wm: Size, anchor: Point, ratio: Ratio)
    requires ratio.den > 0 && ratio.num >= 0 && wm.w >= 0 && wm.h >= 0
    ensures var s := ExportPlacement(wm, anchor, ratio).scaled;
      0 <= s.w && s.w * ratio.den <= wm.w * ratio.num < (s.w + 1) * ratio.den
      && 0 <= s.h && s.h * ratio.den <= wm.h * ratio.num < (s.h + 1) * ratio.den
  {
    ScaleAxis(wm.w, ratio.num, ratio.den);
    ScaleAxis(wm.h, ratio.num, ratio.den);
  }

  /** One axis of `ScaledSizeTruncates`. */
  lemma ScaleAxis(len: int, num: int, d: int)
    requires d > 0 && num >= 0 && len >= 0
    ensures var s := len * num / d; 0 <= s && s * d <= len * num < (s + 1) * d
  {
    var n := len * num;
    MulMono(0, len, num);
    DivAtLeast(n, d, 0);
    FloorBounds(n, d);
  }

  /**
   * For any ratio, the paste origin is `x * ratio - w / 2` truncated toward
   * zero: within one pixel of that value and on the side of it nearer zero.
   * The exported centre, origin plus half the scaled size, therefore sits
   * `w * (ratio - 1) / 2` from the scaled anchor, give or take under two pixels.
   */
  lemma ExportOriginBounds(wm: Size, anchor: Point, ratio: Ratio)
    requires ratio.den > 0 && ratio.num >= 0 && wm.w >= 0 && wm.h >= 0
    ensures var pl := ExportPlacement(wm, anchor, ratio);
      OriginTruncates(anchor.x, wm.w, ratio, pl.origin.x) &&
      OriginTruncates(anchor.y, wm.h, ratio, pl.origin.y)
    ensures var pl := ExportPlacement(wm, anchor, ratio);
      CentreDrifts(anchor.x, wm.w, ratio, pl.origin.x, pl.scaled.w) &&
      CentreDrifts(anchor.y, wm.h, ratio, pl.origin.y, pl.scaled.h)
  {
    var pl := ExportPlacement(wm, anchor, ratio);
    OriginAxis(anchor.x, wm.w, ratio.num, ratio.den);
    OriginAxis(anchor.y, wm.h, ratio.num, ratio.den);
    ScaleAxis(wm.w, ratio.num, ratio.den);
    ScaleAxis(wm.h, ratio.num, ratio.den);
    CentreDriftAxis(anchor.x, wm.w, ratio, pl.origin.x, pl.scaled.w);
    CentreDriftAxis(anchor.y, wm.h, ratio, pl.origin.y, pl.scaled.h);
  }

  /** `o` is `x * num / den - len / 2` truncated toward zero, stated with
   *  everything multiplied by `2 * den`. */
  predicate OriginTruncates(x: int, len: int, ratio: Ratio, o: int)
  {
    var exact := 2 * x * ratio.num - len * ratio.den;
    var d := 2 * ratio.den;
    -d < d * o - exact < d && (0 <= d * o <= exact || exact <= d * o <= 0)
  }

  /** The centre `o + s / 2` is off the scaled anchor `x * num / den` by
   *  `len * (num - den) / (2 * den)` plus an error in (-3/2, 1), all times `2 * den`. */
  predicate CentreDrifts(x: int, len: int, ratio: Ratio, o: int, s: int)
  {
    var d := ratio.den;
    var off := 2 * d * o + d * s - 2 * x * ratio.num - len * (ratio.num - d);
    -3 * d < off < 2 * d
  }

  /** One axis of the origin: `TruncDiv` read back as truncation of the exact value. */
  lemma OriginAxis(x: int, len: int, num: int, den: int)
    requires den > 0 && num >= 0 && len >= 0
    ensures OriginTruncates(x, len, Ratio(num, den), TruncDiv(2 * x * num - len * den, 2 * den))
  {
    var o := TruncDiv(2 * x * num - len * den, 2 * den);
    assert o * (2 * den) == 2 * den * o;
  }

  /** One axis of the drift, from the origin and size bounds. */
  lemma CentreDriftAxis(x: int, len: int, ratio: Ratio, o: int, s: int)
    requires ratio.den > 0
    requires OriginTruncates(x, len, ratio, o)
    requires s * ratio.den <= len * ratio.num < (s + 1) * ratio.den
    ensures CentreDrifts(x, len, ratio, o, s)
  {
    var d := ratio.den;
    assert d * s == s * d;
    assert len * (ratio.num - d) == len * ratio.num - len * d;
    assert (s + 1) * d == s * d + d;
  }

  /** A length scaled by a ratio of at least 1 and truncated does not shrink. */
  lemma ScaleGrows(len: int, num: int, d: int)
    requires d > 0 && num >= 0 && len >= 0
    ensures 0 <= len * num / d
    ensures num >= d ==> len * num / d >= len
  {
    MulMono(0, len, num);
    DivAtLeast(len * num, d, 0);
    if num >= d {
      MulMono(d, num, len);
      assert len * d <= len * num;
      DivAtLeast(len * num, d, len);
    }
  }

  /** With ratio 1 the watermark keeps its size and is centred on the anchor, up to truncation. */
  lemma {:induction false} UnitRatioPlacement(wm: Size, anchor: Point, d: int)
    requires d > 0 && wm.w >= 0 && wm.h >= 0
    ensures var pl := ExportPlacement(wm, anchor, Ratio(d, d));
      pl.scaled == wm && pl.origin == Point(TruncDiv(2 * anchor.x - wm.w, 2), TruncDiv(2 * anchor.y - wm.h, 2))
  {
    MulDivCancel(wm.w, d);
    MulDivCancel(wm.h, d);
    var nx := 2 * anchor.x - wm.w;
    var ny := 2 * anchor.y - wm.h;
    assert 2 * anchor.x * d - wm.w * d == nx * d;
    assert 2 * anchor.y * d - wm.h * d == ny * d;
    assert 2 * d == 2 * d;
    TruncScaled(nx, 2, d);
    TruncScaled(ny, 2, d);
  }

  /** Scaling numerator and denominator by the same positive factor leaves the truncated quotient alone. */
  lemma {:induction false} TruncScaled(n: int, b: int, d: int)
    requires b > 0 && d > 0
    ensures TruncDiv(n * d, b * d) == TruncDiv(n, b)
  {
    if n >= 0 {
      MulMono(0, n, d);
      FloorScaled(n, b, d);
    } else {
      assert (-n) * d == -(n * d);
      FloorScaled(-n, b, d);
    }
  }

  /** The non-negative case of `TruncScaled`, where truncation is the floor. */
  lemma {:induction false} FloorScaled(m: int, b: int, d: int)
    requires m >= 0 && b > 0 && d > 0
    ensures (m * d) / (b * d) == m / b
  {
    var q, r := m / b, m % b;
    assert m == q * b + r;
    assert m * d == q * (b * d) + r * d;
    MulMono(r, b - 1, d);
    assert (b - 1) * d == b * d - d;
    MulMono(0, r, d);
    DivModUnique(m * d, b * d, q, r * d);
  }

  /**
   * With a whole-number ratio `k`, an even watermark size and an origin inside
   * the background, the pasted rectangle's centre is `anchor * k + (k - 1) * w / 2`
   * rather than `anchor * k`: subtracting the unscaled half size shifts the
   * export right and down of the preview by `(k - 1) / 2` watermark sizes.
   */
  lemma {:induction false} ExportCentreDrift(wm: Size, anchor: Point, k: int, d: int)
    requires d > 0 && k >= 1 && wm.w >= 0 && wm.h >= 0 && wm.w % 2 == 0 && wm.h % 2 == 0
    requires 2 * anchor.x * k >= wm.w && 2 * anchor.y * k >= wm.h
    ensures var pl := ExportPlacement(wm, anchor, Ratio(k * d, d));
      2 * pl.origin.x + pl.scaled.w == 2 * anchor.x * k + (k - 1) * wm.w
      && 2 * pl.origin.y + pl.scaled.h == 2 * anchor.y * k + (k - 1) * wm.h
  {
    DriftAxis(anchor.x, wm.w, k, d);
    DriftAxis(anchor.y, wm.h, k, d);
  }

  /** One axis of `ExportCentreDrift`. */
  lemma {:induction false} DriftAxis(a: int, w: int, k: int, d: int)
    requires d > 0 && k >= 1 && w >= 0 && w % 2 == 0 && 2 * a * k >= w
    ensures 2 * TruncDiv(2 * a * (k * d) - w * d, 2 * d) + w * (k * d) / d == 2 * a * k + (k - 1) * w
  {
    WidthScales(w, k, d);
    NumeratorScales(a, k, w, d);
    HalvesEven(a, k, w);
    Regroup(a, k, w);
  }

  /** The scaled width with ratio `k * d / d` is `w * k`. */
  lemma WidthScales(w: int, k: int, d: int)
    requires d > 0
    ensures w * (k * d) / d == w * k
  {
    assert w * (k * d) == (w * k) * d;
    MulDivCancel(w * k, d);
  }

  /** The common factor `d` cancels from the origin's quotient. */
  lemma NumeratorScales(a: int, k: int, w: int, d: int)
    requires d > 0
    ensures TruncDiv(2 * a * (k * d) - w * d, 2 * d) == TruncDiv(2 * a * k - w, 2)
  {
    Factor(a, k, w, d);
    TruncScaled(2 * a * k - w, 2, d);
  }

  /** Halving a non-negative even numerator is exact. */
  lemma HalvesEven(a: int, k: int, w: int)
    requires w % 2 == 0 && 2 * a * k >= w
    ensures 2 * TruncDiv(2 * a * k - w, 2) == 2 * a * k - w
  {
    var n := 2 * a * k - w;
    var half := a * k - w / 2;
    assert w == 2 * (w / 2);
    assert n == half * 2 + 0;
    DivModUnique(n, 2, half, 0);
  }

  lemma Regroup(a: int, k: int, w: int)
    ensures (2 * a * k - w) + w * k == 2 * a * k + (k - 1) * w
  {
  }

  lemma Factor(a: int, k: int, w: int, d: int)
    ensures 2 * a * (k * d) - w * d == (2 * a * k - w) * d
  {
  }

  /**
   * A 1000x800 background on an 800x640 canvas is previewed at 800x640 with
   * ratio 1000/800; a 100x40 watermark anchored at (500, 400) is exported at
   * 125x50 with its corner at (575, 480).
   */
  lemma ExportScenario()
    ensures FitToCanvas(Size(1000, 800), Size(800, 640)) == Fit(Fitted(Size(800, 640), Ratio(1000, 800)))
    ensures ExportPlacement(Size(100, 40), Point(500, 400), Ratio(1000, 800)) == Placement(Size(125, 50), Point(575, 480))
  {
  }

  /**
   * The composite of `create_output_img` (after the user chose a file): the
   * watermark is resized to the placement's size (`sample` gives Pillow's
   * resampled pixels) and pasted onto a COPY of the background with its own
   * alpha as mask; the stored background is not modified. Pillow's resize to
   * the image's own size returns a copy, so at ratio 1 `sample` is the
   * watermark itself, and then every watermark pixel lands at the origin plus
   * its own offset, blended over the background (an opaque one unchanged).
   */
  method CreateOutputImg(background: array2<Pixel>, wm: array2<Pixel>, anchor: Point, ratio: Ratio,
                         sample: (int, int) -> Pixel, mix: (Pixel, Pixel) -> Pixel)
    returns (out: array2<Pixel>)
    requires ratio.den > 0 && ratio.num >= 0
    requires ratio.num == ratio.den ==>
      forall y, x :: 0 <= y < wm.Length0 && 0 <= x < wm.Length1 ==> sample(y, x) == wm[y, x]
    ensures fresh(out) && out.Length0 == background.Length0 && out.Length1 == background.Length1
    ensures var pl := ExportPlacement(Size(wm.Length1, wm.Length0), anchor, ratio);
      forall y, x :: 0 <= y < out.Length0 && 0 <= x < out.Length1 ==>
        out[y, x] == if InRect(y, x, pl.origin.y, pl.origin.x, pl.scaled.h, pl.scaled.w)
                     then Over(background[y, x], sample(y - pl.origin.y, x - pl.origin.x), mix)
                     else background[y, x]
    ensures var pl := ExportPlacement(Size(wm.Length1, wm.Length0), anchor, ratio);
      forall y, x :: 0 <= y < out.Length0 && 0 <= x < out.Length1 ==>
        (!InRect(y, x, pl.origin.y, pl.origin.x, pl.scaled.h, pl.scaled.w) ==> out[y, x] == background[y, x])
        && (InRect(y, x, pl.origin.y, pl.origin.x, pl.scaled.h, pl.scaled.w) && sample(y - pl.origin.y, x - pl.origin.x).a == 0
            ==> out[y, x] == background[y, x])
        && (InRect(y, x, pl.origin.y, pl.origin.x, pl.scaled.h, pl.scaled.w) && sample(y - pl.origin.y, x - pl.origin.x).a == 255
            ==> out[y, x] == sample(y - pl.origin.y, x - pl.origin.x))
    ensures ratio.num == ratio.den ==>
      var o := ExportPlacement(Size(wm.Length1, wm.Length0), anchor, ratio).origin;
      forall y, x :: (0 <= y < wm.Length0 && 0 <= x < wm.Length1
                      && 0 <= o.y + y < out.Length0 && 0 <= o.x + x < out.Length1) ==>
        out[o.y + y, o.x + x] == Over(background[o.y + y, o.x + x], wm[y, x], mix)
        && (wm[y, x].a == 255 ==> out[o.y + y, o.x + x] == wm[y, x])
  {
    var pl := ExportPlacement(Size(wm.Length1, wm.Length0), anchor, ratio);
    ScaledSizeTruncates(Size(wm.Length1, wm.Length0), anchor, ratio);
    if ratio.num == ratio.den {
      UnitRatioPlacement(Size(wm.Length1, wm.Length0), anchor, ratio.den);
      assert pl.scaled == Size(wm.Length1, wm.Length0);
    }
    var oy, ox := pl.origin.y, pl.origin.x;
    var scaled := Resize(pl.scaled.w, pl.scaled.h, sample);
    out := Copy(background);
    Paste(out, scaled, oy, ox, true, mix);
    forall y, x | 0 <= y < out.Length0 && 0 <= x < out.Length1
      ensures out[y, x] == if InRect(y, x, oy, ox, pl.scaled.h, pl.scaled.w)
                           then Over(background[y, x], sample(y - oy, x - ox), mix)
                           else background[y, x]
    {
    }
  }
}
