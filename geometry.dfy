/**
 * Fitting a background image into the canvas, and the preview-to-source ratio.
 * Python's float arithmetic is replaced by exact integer arithmetic: aspect
 * ratios are compared by cross-multiplication and `int()` of a positive
 * quotient is the floor of the exact quotient.
 */
module Geometry {
  /** Width and height in pixels. */
  datatype Size = Size(w: int, h: int)

  predicate Positive(s: Size) { s.w > 0 && s.h > 0 }

  /** The scale factor `num / den` (source width over preview width). */
  datatype Ratio = Ratio(num: int, den: int)

  /** The preview size and the ratio that maps preview lengths back to the source. */
  datatype Fitted = Fitted(preview: Size, ratio: Ratio)

  datatype FitResult = Fit(fitted: Fitted) | EmptyPreview

  /** Python's `int(n / d)` for a positive `d`: the quotient truncated toward zero. */
  function TruncDiv(n: int, d: int): (q: int)
    requires d > 0
    ensures n >= 0 ==> 0 <= q && q * d <= n < q * d + d
    ensures n < 0 ==> q <= 0 && q * d - d < n <= q * d
  {
    if n >= 0 then
      FloorBounds(n, d);
      DivAtLeast(n, d, 0);
      n / d
    else
      FloorBounds(-n, d);
      DivAtLeast(-n, d, 0);
      assert -((-n) / d) * d == -(((-n) / d) * d);
      -((-n) / d)
  }

  /** The image already lies within the canvas on both axes. */
  predicate FitsIn(src: Size, canvas: Size) {
    src.w <= canvas.w && src.h <= canvas.h
  }

  /** `src.w / src.h > canvas.w / canvas.h`, by cross-multiplication. */
  predicate WiderThan(src: Size, canvas: Size) {
    src.w * canvas.h > canvas.w * src.h
  }

  /**
   * The preview size chosen by `CanvasView.__init__` (views/canvas_view.py and
   * its copy in main1.py): the image itself if it fits, otherwise the width
   * clamped to the canvas for a wider image and the height clamped otherwise.
   */
  function PreviewSize(src: Size, canvas: Size): (p: Size)
    requires Positive(src) && Positive(canvas)
    ensures 0 <= p.w && 0 <= p.h
    ensures p == src <==> FitsIn(src, canvas)
    ensures p != src ==> p.w == canvas.w || p.h == canvas.h
  {
    if FitsIn(src, canvas) then src
    else if WiderThan(src, canvas) then
      ClampShrinks(src.w, src.h, canvas.w, canvas.h);
      ClampedNonNegative(canvas.w, src.h, src.w);
      Size(canvas.w, canvas.w * src.h / src.w)
    else
      ClampShrinks(src.h, src.w, canvas.h, canvas.w);
      ClampedNonNegative(canvas.h, src.w, src.h);
      Size(canvas.h * src.w / src.h, canvas.h)
  }

  /**
   * The preview size together with `bg_img_resize_ratio = src.w / preview.w`.
   * Nothing guards against an empty preview: Pillow's resize refuses a zero
   * width or height, and the ratio would divide by a zero width.
   */
  function FitToCanvas(src: Size, canvas: Size): (r: FitResult)
    requires Positive(src) && Positive(canvas)
    ensures r.EmptyPreview? <==> !Positive(PreviewSize(src, canvas))
    ensures r.Fit? ==> r.fitted.preview == PreviewSize(src, canvas)
    ensures r.Fit? ==> var f := r.fitted;
      f.ratio.den > 0 && f.preview.w * f.ratio.num / f.ratio.den == src.w
    ensures r.Fit? ==> r.fitted.ratio.num * r.fitted.preview.w == src.w * r.fitted.ratio.den
  {
    var p := PreviewSize(src, canvas);
    if p.w == 0 || p.h == 0 then EmptyPreview
    else
      assert p.w * src.w == src.w * p.w;
      MulDivCancel(src.w, p.w);
      Fit(Fitted(p, Ratio(src.w, p.w)))
  }

  lemma DivBelow(n: int, d: int, m: int)
    requires d > 0 && 0 <= n && n < m * d
    ensures n / d < m
  {
  }

  lemma DivAtMost(n: int, d: int, m: int)
    requires d > 0 && 0 <= n && n <= m * d
    ensures n / d <= m
  {
  }

  lemma DivAtLeast(n: int, d: int, m: int)
    requires d > 0 && m * d <= n
    ensures m <= n / d
  {
    var q := n / d;
    if q < m {
      MulMono(q + 1, m, d);
    }
  }

  lemma MulMono(a: int, b: int, c: int)
    requires a <= b && 0 <= c
    ensures a * c <= b * c
  {
    assert b * c - a * c == (b - a) * c;
  }

  lemma DivModUnique(n: int, d: int, q: int, m: int)
    requires d > 0 && 0 <= m < d && n == q * d + m
    ensures n / d == q && n % d == m
  {
    var q', m' := n / d, n % d;
    if q' < q {
      MulMono(q' + 1, q, d);
    } else if q < q' {
      MulMono(q + 1, q', d);
    }
  }

  lemma FloorBounds(n: int, d: int)
    requires d > 0
    ensures (n / d) * d <= n < (n / d + 1) * d
  {
    assert (n / d + 1) * d == (n / d) * d + d;
  }

  lemma MulDivCancel(a: int, d: int)
    requires d > 0
    ensures (a * d) / d == a
  {
    DivModUnique(a * d, d, a, 0);
  }

  /** An image that already fits is shown at its own size, with ratio 1. */
  lemma FitIdentity(src: Size, canvas: Size)
    requires Positive(src) && Positive(canvas) && FitsIn(src, canvas)
    ensures FitToCanvas(src, canvas) == Fit(Fitted(src, Ratio(src.w, src.w)))
  {
  }

  /**
   * An image that does not fit is clamped on one axis, and the other axis keeps
   * the aspect ratio up to the truncation of `int()`.
   */
  lemma FitClamps(src: Size, canvas: Size)
    requires Positive(src) && Positive(canvas) && !FitsIn(src, canvas)
    ensures var p := PreviewSize(src, canvas);
      if WiderThan(src, canvas) then
        p.w == canvas.w && p.h * src.w <= canvas.w * src.h < (p.h + 1) * src.w
      else
        p.h == canvas.h && p.w * src.h <= canvas.h * src.w < (p.w + 1) * src.h
  {
  }

  /** The preview lies within the canvas on both axes. */
  lemma {:induction false} FitWithinCanvas(src: Size, canvas: Size)
    requires Positive(src) && Positive(canvas)
    ensures PreviewSize(src, canvas).w <= canvas.w && PreviewSize(src, canvas).h <= canvas.h
  {
    if !FitsIn(src, canvas) {
      if WiderThan(src, canvas) {
        assert canvas.w * src.h < canvas.h * src.w;
        DivBelow(canvas.w * src.h, src.w, canvas.h);
      } else {
        assert canvas.h * src.w <= canvas.w * src.h;
        DivAtMost(canvas.h * src.w, src.h, canvas.w);
      }
    }
  }

  /** The preview never enlarges the image, so the ratio is at least 1. */
  lemma {:induction false} FitNeverEnlarges(src: Size, canvas: Size)
    requires Positive(src) && Positive(canvas)
    ensures PreviewSize(src, canvas).w <= src.w && PreviewSize(src, canvas).h <= src.h
    ensures FitToCanvas(src, canvas).Fit? ==> FitToCanvas(src, canvas).fitted.ratio.num >= FitToCanvas(src, canvas).fitted.ratio.den
  {
    if !FitsIn(src, canvas) {
      if WiderThan(src, canvas) {
        ClampShrinks(src.w, src.h, canvas.w, canvas.h);
      } else {
        ClampShrinks(src.h, src.w, canvas.h, canvas.w);
      }
    }
  }

  /**
   * One axis of `FitNeverEnlarges`, for an image of `iw` by `ih` that does not
   * fit a canvas of `cw` by `ch` and is at least as wide, relatively, as the
   * canvas: the clamped side shrinks and the other does not grow.
   */
  lemma {:induction false} ClampShrinks(iw: int, ih: int, cw: int, ch: int)
    requires iw > 0 && ih > 0 && cw > 0 && ch > 0
    requires cw * ih <= iw * ch && !(iw <= cw && ih <= ch)
    ensures cw < iw && cw * ih / iw <= ih
  {
    if iw <= cw {
      MulMono(iw, cw, ch);
      MulStrict(ch, ih, cw);
      assert false;
    }
    MulMono(cw, iw, ih);
    DivAtMost(cw * ih, iw, ih);
  }

  /** The proportional side `c * a / b` of a clamped preview is never negative. */
  lemma ClampedNonNegative(c: int, a: int, b: int)
    requires c > 0 && a > 0 && b > 0
    ensures c * a / b >= 0
  {
    MulMono(0, c, a);
    DivAtLeast(c * a, b, 0);
  }

  lemma MulStrict(a: int, b: int, c: int)
    requires a < b && 0 < c
    ensures a * c < b * c
  {
    assert b * c - a * c == (b - a) * c;
  }

  /**
   * The fit fails exactly for an image so thin that the clamped preview keeps
   * no whole pixel across its short side.
   */
  lemma {:induction false} FitFailsIff(src: Size, canvas: Size)
    requires Positive(src) && Positive(canvas)
    ensures FitToCanvas(src, canvas).EmptyPreview? <==>
      !FitsIn(src, canvas) &&
      ((WiderThan(src, canvas) && canvas.w * src.h < src.w) ||
       (!WiderThan(src, canvas) && canvas.h * src.w < src.h))
  {
    if FitsIn(src, canvas) {
      assert PreviewSize(src, canvas) == src;
    } else if WiderThan(src, canvas) {
      var n := canvas.w * src.h;
      assert PreviewSize(src, canvas) == Size(canvas.w, n / src.w);
      MulMono(0, canvas.w, src.h);
      EmptyQuotient(n, src.w);
    } else {
      var n := canvas.h * src.w;
      assert PreviewSize(src, canvas) == Size(n / src.h, canvas.h);
      MulMono(0, canvas.h, src.w);
      EmptyQuotient(n, src.h);
    }
  }

  /** A clamped side is zero exactly when its numerator is below the divisor. */
  lemma EmptyQuotient(n: int, d: int)
    requires n >= 0 && d > 0
    ensures n / d == 0 <==> n < d
  {
    if n >= d {
      DivAtLeast(n, d, 1);
    }
  }

  /**
   * The prototype's fit in `WatermarkerApp.load_image` (main.py): the image is
   * always scaled until it touches the canvas, the height when
   * `src.h / src.w > canvas.h / canvas.w` and the width otherwise.
   */
  function FillCanvas(src: Size, canvas: Size): (p: Size)
    requires Positive(src) && Positive(canvas)
    ensures 0 <= p.w && 0 <= p.h && (p.w == canvas.w || p.h == canvas.h)
  {
    if src.h * canvas.w > canvas.h * src.w then Size(src.w * canvas.h / src.h, canvas.h)
    else Size(canvas.w, src.h * canvas.w / src.w)
  }

  /** The prototype's fit touches the canvas on one axis and stays within it on the other. */
  lemma {:induction false} FillWithinCanvas(src: Size, canvas: Size)
    requires Positive(src) && Positive(canvas)
    ensures var p := FillCanvas(src, canvas);
      p.w <= canvas.w && p.h <= canvas.h && (p.w == canvas.w || p.h == canvas.h)
  {
    if src.h * canvas.w > canvas.h * src.w {
      DivBelow(src.w * canvas.h, src.h, canvas.w);
    } else {
      DivAtMost(src.h * canvas.w, src.w, canvas.h);
    }
  }

  /** Unlike the current fit, the prototype enlarges an image smaller than the canvas. */
  lemma {:induction false} FillEnlargesSmall(src: Size, canvas: Size)
    requires Positive(src) && Positive(canvas) && FitsIn(src, canvas)
    ensures FillCanvas(src, canvas).w >= src.w && FillCanvas(src, canvas).h >= src.h
  {
    if src.h * canvas.w > canvas.h * src.w {
      MulMono(src.h, canvas.h, src.w);
      DivAtLeast(src.w * canvas.h, src.h, src.w);
    } else {
      MulMono(src.w, canvas.w, src.h);
      DivAtLeast(src.h * canvas.w, src.w, src.h);
    }
  }
}
