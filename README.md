# Watermarker: geometry, compositing and event handling

Watermarker is a desktop tool for stamping a text or logo watermark on a
picture. The user drops a picture onto the window. The picture is shown
scaled down to fit the canvas. The user then adds a watermark, drags it
into place and tunes it in a properties window: font, colour, size,
opacity, rotation, and a single, square-tiled or diamond-tiled layout.
Finally the watermark is composited onto the full-resolution picture and
saved.

This project models the parts of that program that compute something:

- **Drop paths.** A dropped path is cleaned: surrounding braces stripped,
  newlines removed, one pair of surrounding quotes dropped
  (`DropPath`). The path is then opened and its view shown, or an error
  is reported.
- **Fitting.** The picture is fitted to the canvas, and the ratio from
  preview to source is kept (`Geometry`).
- **Logo raster.** The logo watermark is resized, its alpha channel
  remapped to the chosen opacity (`Opacity`) and, in a tiled mode,
  repeated over a grid larger than the canvas (`Tiling`, `Pipeline`).
- **Drag protocol.** Press, move and release on the watermark, including
  where a new watermark is placed (`Drag`).
- **Export.** The export scales the watermark by the preview ratio and
  pastes it with its own alpha as mask onto a copy of the background
  (`Export`, over the raster operations of `Raster`).
- **Font cache.** Fonts are cached per family, weight and size, and the
  text canvas is sized from the ink box (`Fonts`).
- **Debounce gate.** The properties window runs updates through a gate:
  an update starts only when no update thread is running and more than
  0.5 s have passed since the last start (`Debounce.Properties`). The
  earlier window updates on every change (`Debounce.LegacyProperties`).
- **Prototype.** The single-window prototype has its own fill-the-canvas
  fit, one-watermark-at-a-time rule and drag handlers (`Prototype`).

`main1.py` holds an earlier copy of the canvas view and the properties
window. Its `process_img_url` (main1.py:513-524), fit (main1.py:528-571),
drag handlers (main1.py:741-762), grid (main1.py:764-786) and export
(main1.py:788-810) are textually the same as in `views/main_view.py` and
`views/canvas_view.py`, so the same members model both copies; the table
cites the `views/` copy. The prototype's `load_image` cleans a dropped path
with the same three steps (main.py:82-84), so `DropPath.CleanPath` models it
too.

The copies differ in a few places:

- **`update_image` in `main1.py` does not reopen the logo.** It resizes
  and remaps whatever `self.pil_img` holds, which is the previous result,
  including a previous tiled grid. `Pipeline.UpdateImage` then applies to
  that previous image. `Opacity.RemapComposes` shows that remapping the
  alpha twice equals remapping it once with the latest value.
- **The earlier properties window has no debounce at all.** Tile writes
  run the update before showing or hiding the gap controls. Each tiled
  selection registers one more trace on the gap variable, so one gap
  change runs the update once per registered trace
  (`Debounce.LegacyProperties.OnGapWrite`). The debounced window has the
  same accumulation, but every extra trace goes through the gate
  (`Debounce.Properties.OnGapWrite`).

Conventions:

- **Arithmetic is exact.** Aspect ratios are compared by
  cross-multiplication. `int()` of a quotient is written out as
  truncation toward zero (`Geometry.TruncDiv`), because the export
  origin can be negative.
- **The size slider multiplies by 30.** `utils/constants.py` defines a
  `BASE_SIZE` of 60 that the views do not use. The model follows the
  code and takes the pixel size `int(scalar * 30)` as an input.
- **The export is placed as the code places it.** The code subtracts half
  of the unscaled watermark size from the scaled anchor
  (views/canvas_view.py:294-295), so the exported watermark's centre
  drifts from the scaled anchor. `Export.ExportOriginBounds` bounds that
  drift for every ratio; `Export.ExportCentreDrift` gives it exactly for a
  whole-number ratio.
- **The debounce drops, it does not defer.** A slider change that arrives
  while an update thread runs, or within 0.5 s of the last start, is
  dropped and never retried, so the last value set may never be applied
  (`Debounce.LaunchesAreCallbacks`: launches are a subsequence of the
  callbacks). A thread leaving the update clears the shared flag even
  when another started thread is still running (`ThreadEnds` needs only
  `active > 0`), so the gate then admits a new start beside it once
  0.5 s have passed since the last one
  (components/properties.py:383-416).
- **Pillow and Tk are parameters or left abstract.**
  - Pillow's resampling is a `sample` function giving each resized
    pixel.
  - Alpha blending of partly transparent pixels is a `mix` function.
  - Opening a file is a function returning the picture's dimensions, or
    `None` when it fails.
  - Wall-clock time is a `real` argument of each callback.

## Model

| member | source | states |
|---|---|---|
| DropPath.StripLeft | views/main_view.py:90 | the result is a suffix of the input; every dropped leading character is a brace; the result does not start with a brace |
| DropPath.StripRight | views/main_view.py:90 | the result is a prefix of the input; every dropped trailing character is a brace; the result does not end with a brace |
| DropPath.StripBraces | views/main_view.py:90 | the result is the slice left after dropping the brace runs at both ends: everything dropped is a brace, and a non-empty result neither starts nor ends with one |
| DropPath.RemoveNewlines | views/main_view.py:90 | the result contains no newline and every other character exactly as often as the input: its multiset is the input's with the newlines removed, so its length is the input's minus the number of newlines |
| DropPath.RemoveNewlinesIsSubseq | views/main_view.py:90 | removing newlines only deletes characters: the result is a subsequence of the input |
| DropPath.RemoveNewlinesIdentity | views/main_view.py:90 | a path without newlines is left unchanged |
| DropPath.StripBracesIsSubseq | views/main_view.py:90 | stripping braces from both ends only deletes characters |
| DropPath.UnquoteIsSubseq | views/main_view.py:91-92 | unquoting only deletes characters and introduces no newline |
| DropPath.Unquote | views/main_view.py:91-92 | an unquoted path is returned as is; a quoted one of length two or more loses exactly its two quotes, so quoting the result gives the input back; a lone quote becomes empty |
| DropPath.CleanPath | views/main_view.py:90-92 | the whole cleanup (brace strip, newline removal, unquoting) only deletes characters: the result is a subsequence of the dropped text, never longer, with no newline |
| DropPath.CleanPathIdentity | views/main_view.py:90-92 | a path with no brace at either end, no newline and no surrounding quotes is passed through unchanged |
| DropPath.QuotesShieldContent | views/main_view.py:90-92 | for any content without newlines, a quoted path comes back as exactly its content: braces inside the quotes survive the strip and only the quotes are removed |
| DropPath.NewlineShieldsBrace | views/main_view.py:90 | a leading newline stops the brace strip: for any newline-free p not ending in a brace, "\n{p}" is cleaned to "{p", not to p |
| DropPath.LoneQuoteEmpties | views/main_view.py:91-92 | a path that is a single quote character starts and ends with a quote and is cleaned to the empty path |
| DropPath.BracesUnwrap | views/main_view.py:90-92 | the braces the drop target puts around a path with spaces are removed: a path without newlines, surrounding quotes or end braces comes back unchanged from its braced form |
| DropPath.ProcessImgUrl | views/main_view.py:87-98 | the view is shown on the cleaned path exactly when that path opens and the fit gives a non-empty preview, and it carries exactly that fit's preview and ratio; otherwise an error is shown (both directions) |
| Geometry.TruncDiv | views/canvas_view.py:294-295 | `int()` of a quotient: for a non-negative numerator the floor, for a negative one the negated floor of the negation, with the matching bounds |
| Geometry.PreviewSize | views/canvas_view.py:36-59 | the preview is the image itself exactly when the image fits the canvas; otherwise it touches the canvas on the clamped axis; both sides are non-negative |
| Geometry.FitToCanvas | views/canvas_view.py:36-59 | the fit fails exactly when the preview has an empty side; otherwise it holds the preview, and the ratio is exactly the source width over the preview width (`num * preview.w == src.w * den`), so the preview width times the ratio gives back the source width |
| Geometry.FitIdentity | views/canvas_view.py:40-41 | an image already inside the canvas keeps its size and gets ratio 1 |
| Geometry.FitClamps | views/canvas_view.py:42-53 | a larger image gets exactly the canvas width when wider than the canvas, else exactly the canvas height |
| Geometry.FitWithinCanvas | views/canvas_view.py:36-59 | the preview never exceeds the canvas on either axis |
| Geometry.FitNeverEnlarges | views/canvas_view.py:36-59 | the preview-to-source ratio is at least 1: the preview never enlarges the picture |
| Geometry.FitFailsIff | views/canvas_view.py:48-59 | the fit fails exactly when the image is outside the canvas and so thin that the clamped preview keeps no whole pixel across its short side (both directions) |
| Geometry.FillCanvas | main.py:89-94 | the prototype's fit always touches the canvas on one axis and has non-negative sides |
| Geometry.FillWithinCanvas | main.py:89-95 | the prototype's fit stays within the canvas and touches it on at least one axis |
| Geometry.FillEnlargesSmall | main.py:89-95 | unlike the later fit, the prototype's fit enlarges an image smaller than the canvas |
| Opacity.AlphaFor | views/canvas_view.py:169 | the alpha for slider values 1..100 is at least 2 and is the floor of `o * 255 / 100` (it fits one channel, so at most 255) |
| Opacity.AlphaExamples | views/canvas_view.py:169 | 50 % gives alpha 127, 100 % gives 255, 1 % gives 2 |
| Opacity.AlphaMonotone | views/canvas_view.py:169 | a higher opacity setting never gives a lower alpha |
| Opacity.WithOpacity | views/canvas_view.py:180 | the remap keeps colour, leaves fully transparent pixels transparent and gives every other pixel exactly the chosen alpha (transparent before exactly when transparent after) |
| Opacity.RemapComposes | main1.py:682-693 | remapping twice equals remapping once with the later opacity, so reusing the previous result does not compound the alpha |
| Opacity.RemapAlpha | views/canvas_view.py:177-183 | every pixel of the image becomes its remapped value, in place |
| Opacity.LogoSize | views/canvas_view.py:171-173 | the resized logo is exactly `size` high and its width is the truncated aspect-preserving width |
| Tiling.TileModeOf | views/canvas_view.py:190-194 | "Single" means no tiling, "Multiple Square" square tiling, and any other value diamond tiling (each an if-and-only-if) |
| Tiling.GridLayout | views/canvas_view.py:254-263 | a grid exists exactly when neither cell dimension is zero; its cells are the tile plus the gap and it has `int(canvas_h / cell_h) + 3` rows and `int(canvas_w / cell_w) + 3` columns |
| Tiling.CoverOf | views/canvas_view.py:266-274 | a covering tile position found for a pixel lies inside the tile raster |
| Tiling.CoverOfInTile | views/canvas_view.py:266-274 | a pixel lies in the tile pasted at row r, column c exactly when `CoverOf` names that tile and offset |
| Tiling.CoverInGrid | views/canvas_view.py:257-262 | a pixel of the grid image that some tile covers is covered by one of the pasted rows and columns |
| Tiling.TileRegionIsSource | views/canvas_view.py:266-274 | inside each pasted tile, the finished grid holds the tile's own pixels, diamond rows shifted by half a cell |
| Tiling.GridPixel | views/canvas_view.py:254-276 | a pixel no tile covers is transparent; a covered pixel is one of the tile's own pixels |
| Tiling.UncoveredIsTransparent | views/canvas_view.py:261-263 | a pixel no tile covers stays fully transparent |
| Tiling.TilesDisjoint | views/canvas_view.py:266-274 | no two pasted tiles overlap, so paste order does not matter |
| Tiling.GridOverprovisions | views/canvas_view.py:257-262 | the grid is wider than the canvas by more than two cells, and likewise taller |
| Tiling.CreateImgGrid | views/canvas_view.py:254-276 | returns no grid exactly when the layout divides by zero; otherwise a new image of the grid's size whose every pixel is the tile pixel covering it, or transparent |
| Pipeline.UpdateImage | views/canvas_view.py:165-197 | fails exactly when the logo size is empty; untiled, the result is the resized logo with remapped alpha; tiled, every grid pixel is the remapped logo pixel covering it, or transparent |
| Raster.NewImage | views/canvas_view.py:261-263 | a new image of the given size, every pixel transparent |
| Raster.Resize | views/canvas_view.py:176 | a new image of the requested size holding the resampled pixels |
| Raster.Copy | views/canvas_view.py:293 | a new image equal to the source pixel for pixel |
| Raster.Paste | views/canvas_view.py:274 | inside the clipped rectangle each pixel becomes the source pixel, or with a mask the blend rule (keep at alpha 0, replace at alpha 255); outside it nothing changes |
| Drag.Step | views/canvas_view.py:231-252 | a press arms the drag at the pointer and leaves the item; a motion keeps the drag armed only if it was; any non-press keeps the item's offset from the recorded pointer |
| Drag.Run | views/canvas_view.py:231-252 | the last event decides the drag record: after a release no drag is armed, after a press one is, at the pressed point |
| Drag.PressArms | views/canvas_view.py:231-235 | a press records the pointer and arms the drag, whatever the previous state |
| Drag.MotionUnarmedIsNoOp | views/canvas_view.py:237-238 | motion without an armed drag changes nothing |
| Drag.ReleaseKeepsPosition | views/canvas_view.py:250-252 | release only disarms; pointer and item stay |
| Drag.NetTranslation | views/canvas_view.py:237-248 | any run of motions during an armed drag moves the item by the net pointer displacement and leaves the pointer at the last position |
| Drag.OffsetChangesOnlyOnPress | views/canvas_view.py:231-252 | the difference between the item position and the recorded pointer changes only on a press |
| Drag.AnchorDriftsAfterOffCentrePress | views/canvas_view.py:231-248 | after a press away from the item's centre, the recorded pointer, later the export anchor, stays off the item's centre by the same offset |
| Drag.DragScenario | views/canvas_view.py:231-252 | a concrete press, two moves and a release shift the item by the pointer's net movement |
| Drag.CanvasView.constructor | views/canvas_view.py:78-83 | the drag record starts at the preview's centre, unarmed, with no watermark |
| Drag.CanvasView.OnWatermarkClick | views/canvas_view.py:231-235 | the handler performs exactly the press step |
| Drag.CanvasView.MoveWatermark | views/canvas_view.py:237-248 | the handler performs exactly the motion step |
| Drag.CanvasView.OnWatermarkRelease | views/canvas_view.py:250-252 | the handler performs exactly the release step |
| Drag.CanvasView.PlaceWatermark | views/canvas_view.py:153-163 | an existing watermark keeps its position; a new one is created at the recorded pointer |
| Drag.CanvasView.InitiateWatermark | views/canvas_view.py:213-224 | the pointer record is reset to the truncated canvas centre, the old watermark removed and the new one created there, so its offset is zero |
| Export.ExportPlacement | views/canvas_view.py:288-295 | the exported size is never negative, and with a ratio of at least 1 (every successful fit) the watermark is never exported smaller than in the preview |
| Export.ExportOriginBounds | views/canvas_view.py:288-295 | for every ratio the paste origin is `x * ratio - w / 2` truncated toward zero (within one pixel, on the side nearer zero), so the exported centre lies `w * (ratio - 1) / 2` from the scaled anchor, give or take under two pixels |
| Export.ScaledSizeTruncates | views/canvas_view.py:288-292 | the exported watermark size is the preview size times the ratio, truncated |
| Export.UnitRatioPlacement | views/canvas_view.py:288-295 | with ratio 1 the size is unchanged and the watermark is centred on the anchor up to truncation |
| Export.TruncScaled | views/canvas_view.py:294-295 | scaling numerator and denominator by the same factor leaves the truncated quotient unchanged |
| Export.ExportCentreDrift | views/canvas_view.py:288-297 | with a whole ratio k, the exported rectangle's centre is the scaled anchor plus (k-1)/2 watermark sizes, not the scaled anchor |
| Export.ExportScenario | views/canvas_view.py:36-59 | a 1000x800 picture on an 800x640 canvas: ratio 1000/800, and a 100x40 watermark at (500,400) exports at 125x50 with its corner at (575,480) |
| Export.CreateOutputImg | views/canvas_view.py:278-299 | a new image of the background's size; inside the placed rectangle each pixel is the blend of the background and the resized watermark under its own alpha, elsewhere the background; the stored background is untouched; at ratio 1, where the resize is a copy, each watermark pixel lands at the origin plus its own offset, an opaque one unchanged |
| Fonts.TextCanvasSize | views/canvas_view.py:113-131 | the text canvas is as wide as the ink box and twice its height, so centred ink of height H leaves at least H/2 free rows above and below it |
| Fonts.FontCache.constructor | views/canvas_view.py:24 | the cache starts empty with no font loaded |
| Fonts.FontCache.Lookup | views/canvas_view.py:101-110 | a hit returns the stored font and loads nothing; a miss loads the font for the resolved path and size and stores it under `(family, "bold", size)`; keys are never removed and each key is loaded at most once |
| Fonts.LookupTwice | views/canvas_view.py:101-110 | two lookups of the same key give the same font with at most one load |
| Debounce.GateStep | components/properties.py:383-396 | a callback never touches the running flag; `last` moves only for an admitted callback, and then to its time, so never backwards; entry sets and exit clears the flag |
| Debounce.RunGate | components/properties.py:383-396 | over any history the recorded last execution time never moves backwards |
| Debounce.Launches | components/properties.py:383-396 | at most one thread is started per event |
| Debounce.LastIsLatestLaunch | components/properties.py:383-396 | the recorded last execution time is the time of the most recent launch, or the initial value when nothing launched |
| Debounce.LaunchesSpaced | components/properties.py:383-396 | each launch is more than 0.5 s after the previous one, the first more than 0.5 s after the recorded last time |
| Debounce.SpacedPairwise | components/properties.py:26 | spacing of consecutive launches implies every pair of launches is more than 0.5 s apart |
| Debounce.LaunchesNeverClose | components/properties.py:383-396 | no two update threads ever start within 0.5 s of each other |
| Debounce.LaunchesAreCallbacks | components/properties.py:383-396 | every launch is at the time of a callback, in order: rejected callbacks are dropped, never queued |
| Debounce.RunningDropsAll | components/properties.py:386-390 | while the running flag is set, every callback is dropped and the gate does not change |
| Debounce.TwoLaunchesBeforeAnyThreadBegins | components/properties.py:386-396 | the flag is set only once the thread runs, so two callbacks a second apart both launch before any thread has begun |
| Debounce.Properties.constructor | components/properties.py:56-57 | no thread running and last execution time 0 |
| Debounce.Properties.WatermarkCallbacks | components/properties.py:383-396 | launches exactly when no thread runs and more than 0.5 s have passed; on launch the size label and last time are updated and a thread is started; a rejected callback changes nothing |
| Debounce.Properties.ThreadBegins | components/properties.py:412-414 | entering the update sets the running flag and runs one update |
| Debounce.Properties.ThreadEnds | components/properties.py:415-416 | leaving the update clears the running flag |
| Debounce.Properties.OnTileWrite | components/properties.py:398-410 | the gate runs first, with the same launch decision, size-label refresh, launch record and thread start as a plain callback; a tiled mode then shows the gap controls and adds one gap trace, "Single" hides them |
| Debounce.Properties.OnGapWrite | components/properties.py:398-410 | every registered gap trace runs the gate in turn; the gate ends as the pure model run over those callbacks, the launches are the model's launches, one thread is started per launch and the size label is refreshed when any launched |
| Debounce.LegacyProperties.constructor | main1.py:227-236 | single tile mode, no gap trace, no update yet |
| Debounce.LegacyProperties.TextCallbacks | main1.py:270-272 | every call refreshes the size label and runs the update, with no gate |
| Debounce.LegacyProperties.OnTileWrite | main1.py:274-284 | the update runs first; a tiled mode shows the gap controls and adds one trace, "Single" hides them |
| Debounce.LegacyProperties.OnGapWrite | main1.py:280 | one gap change runs the update once per registered trace |
| Prototype.WatermarkerApp.constructor | main.py:42-52 | no picture, no watermark, empty drag record |
| Prototype.WatermarkerApp.LoadImage | main.py:77-110 | the cleaned path is opened and scaled to touch the canvas; a new background is added exactly when opening and resizing succeed; a failure leaves everything unchanged |
| Prototype.WatermarkerApp.OnTextClick | main.py:193-197 | the text handler performs the press step |
| Prototype.WatermarkerApp.MoveText | main.py:199-210 | the text handler performs the motion step |
| Prototype.WatermarkerApp.OnTextRelease | main.py:212-214 | the text handler performs the release step |
| Prototype.WatermarkerApp.OnImgClick | main.py:112-118 | an image drag is armed at the pointer only while the image watermark is on the canvas; no item, text or layer changes |
| Prototype.WatermarkerApp.MoveImg | main.py:120-131 | an image drag moves the latest background, not the watermark image, by the pointer's step; the watermarks and the other backgrounds stay |
| Prototype.WatermarkerApp.OnImgRelease | main.py:133-135 | release clears the drag record's item and changes nothing else |
| Prototype.WatermarkerApp.Dispatch | main.py:59-67 | only text events reach handlers, so no pointer event ever moves a background or changes a watermark's content |
| Prototype.WatermarkerApp.AddWatermarkText | main.py:169-191 | an empty entry changes nothing; otherwise the image watermark is removed and the text shown at the centre, so at most one watermark is on the canvas; the image size and the backgrounds stay |
| Prototype.WatermarkerApp.AddWatermarkImg | main.py:138-167 | an empty choice changes nothing; otherwise both watermarks are removed first and the image appears, with the file's size, only if the file opens; the text and its position are kept |

## Left out

- Image decoding, file dialogs, message boxes and `save` are not modelled. An opened image is given by its dimensions or pixels. A failure to open is `None`. The export's cancel branch and the final save are not modelled.
- Pipeline.UpdateImage: omits rotation. It models the rotation slider at 0, where Pillow's rotate is a copy. Bicubic rotation with `expand=True` is floating-point resampling.
- Pipeline.UpdateImage: models the logo path from `views/`. The reuse of the previous result in `main1.py` is covered only by applying the same method to that result.
- Text rendering is not modelled. This covers drawing the glyphs, the colour parse, cropping to the alpha bounding box and text rotation. Only the font cache, the text canvas size and the shared tiling and placement are modelled.
- Raster.Resize: the resampled pixels are the `sample` parameter, not a resampling filter. `Export.CreateOutputImg` requires only that a resize to the image's own size is a copy.
- Export.CreateOutputImg: the blend for partly transparent watermark pixels is the `mix` parameter. Only its endpoints (alpha 0 keeps the background, alpha 255 takes the watermark) are stated.
- Geometry.PreviewSize: uses exact rational arithmetic where the source uses floating point. The two can differ by one pixel where a float quotient rounds across an integer.
- Geometry.FillCanvas: uses exact rational arithmetic where the source uses floating point. The two can differ by one pixel where a float quotient rounds across an integer.
- Fonts.FontCache.Lookup: font resolution is the `findfont` parameter. A font is identified by its path and size rather than loaded.
- An update function that raises is not modelled. `threaded_update_function` (components/properties.py:412-416) has no `finally`, so the flag would stay set and, by `Debounce.RunningDropsAll`, every later callback would be dropped; the model only has normal thread exit.
- Threads are not modelled. The update thread's entry and exit are explicit calls (`ThreadBegins`, `ThreadEnds`), so interleavings are whatever order the caller chooses. The update function itself is only counted.
- Debounce.Launches: states only the one-launch-per-event bound. The spacing of launches and their origin in callbacks are the separate lemmas `LaunchesSpaced`, `LaunchesNeverClose` and `LaunchesAreCallbacks`.
- Debounce.Properties.WatermarkCallbacks: the size label holds the size as a number. Its two-decimal text format is not modelled.
- Prototype.WatermarkerApp.AddWatermarkText: the centre comes from the canvas's requested size. It is kept implicit: a text's shift is measured from the point where the text was created.
- Prototype.WatermarkerApp.AddWatermarkImg: overwriting `self.img` drops Tk's last reference to the background's photo image. That display effect is not modelled.
- Prototype.WatermarkerApp.LoadImage: the reverse case is not modelled either. `load_image` also overwrites `self.img` (main.py:96), which drops the last reference to an image watermark's photo, so on screen a new background blanks a shown image watermark. `LoadImage` keeps `imgShown` as it was, because it models the canvas items and not what Tk draws.
- Widget layout is not modelled: menus, navigation bar, sliders and grid placement. The logo and caption the prototype draws before anything is dropped are also left out.
