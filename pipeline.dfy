/**
 * `CanvasView.update_image`: the opened logo is resized to the chosen height,
 * its alpha channel is remapped to the chosen opacity, and in a tiled mode the
 * result is repeated over a grid larger than the canvas. Pillow's resampling is
 * the `sample` parameter (the resized logo's pixel at each position).
 */
module Pipeline {
  import opened Wrappers
  import opened Raster
  import opened Geometry
  import opened Opacity
  import opened Tiling

  /**
   * The logo watermark for a source image of size `src`, the slider size
   * `sizePx` (already multiplied by 30), opacity `o` and tile mode `tile`.
   * `None` is Pillow's refusal to resize to an empty size.
   */
  method UpdateImage(src: Size, sizePx: nat, o: int, tile: string, gap: nat,
                     canvasW: nat, canvasH: nat, sample: (int, int) -> Pixel)
    returns (out: Option<array2<Pixel>>)
    requires Positive(src) && 1 <= o <= 100
    ensures out.None? <==> !Positive(LogoSize(sizePx, src))
    ensures out.Some? && TileModeOf(tile) == Single ==>
      var ls := LogoSize(sizePx, src);
      fresh(out.value) && out.value.Length0 == ls.h && out.value.Length1 == ls.w &&
      forall y, x :: 0 <= y < ls.h && 0 <= x < ls.w ==> out.value[y, x] == WithOpacity(sample(y, x), o)
    ensures out.Some? && TileModeOf(tile) != Single ==>
      var ls := LogoSize(sizePx, src);
      var g := GridLayout(ls.w, ls.h, gap, canvasW, canvasH, TileModeOf(tile) == Diamond).value;
      fresh(out.value) && out.value.Length0 == Height(g) && out.value.Length1 == Width(g) &&
      forall y, x :: 0 <= y < Height(g) && 0 <= x < Width(g) ==>
        out.value[y, x] == match CoverOf(g, y, x) {
          case None => Transparent
          case Some(cv) => WithOpacity(sample(cv.dy, cv.dx), o)
        }
  {
    var ls := LogoSize(sizePx, src);
    if ls.w == 0 || ls.h == 0 {
      return None;
    }
    var logo := Resize(ls.w, ls.h, sample);
    RemapAlpha(logo, o);
    var mode := TileModeOf(tile);
    if mode == Single {
      return Some(logo);
    }
    var grid := CreateImgGrid(logo, gap, mode == Diamond, canvasW, canvasH);
    return grid;
  }
}
