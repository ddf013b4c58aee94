/**
 * `CanvasView.create_img_grid`: the watermark is pasted into every cell of a
 * transparent buffer `cols * (w + gap)` wide and `rows * (h + gap)` high, with
 * every odd row shifted right by half a cell in diamond mode. The grid has
 * three more rows and columns than fit on the canvas.
 */
module Tiling {
  import opened Wrappers
  import opened Raster
  import opened Geometry

  /** The three choices of the tile selector. */
  datatype TileMode = Single | Square | Diamond

  /** `Single` and `Multiple Square` are recognised; any other value tiles in diamond mode. */
  function TileModeOf(s: string): (m: TileMode)
    ensures m == Single <==> s == "Single"
    ensures m == Square <==> s == "Multiple Square"
  {
    if s == "Single" then Single else if s == "Multiple Square" then Square else Diamond
  }

  /** The layout of a grid: its row and column counts, the cell size and the tile size. */
  datatype Grid = Grid(rows: nat, cols: nat, cellW: nat, cellH: nat, tileW: nat, tileH: nat, diamond: bool)

  predicate ValidGrid(g: Grid) {
    0 < g.cellW && 0 < g.cellH && g.tileW <= g.cellW && g.tileH <= g.cellH
  }

  /** Buffer width, `cols * (w + gap)`. */
  function Width(g: Grid): nat { g.cols * g.cellW }

  /** Buffer height, `rows * (h + gap)`. */
  function Height(g: Grid): nat { g.rows * g.cellH }

  /**
   * `rows = int(canvas_h / (h + gap)) + 3`, `cols = int(canvas_w / (w + gap)) + 3`;
   * `None` where the source divides by zero (an empty tile with no gap).
   */
  function GridLayout(tileW: nat, tileH: nat, gap: nat, canvasW: nat, canvasH: nat, diamond: bool): (r: Option<Grid>)
    ensures r.Some? <==> tileW + gap > 0 && tileH + gap > 0
    ensures r.Some? ==> (ValidGrid(r.value) && r.value.tileW == tileW && r.value.tileH == tileH
      && r.value.cellW == tileW + gap && r.value.cellH == tileH + gap && r.value.diamond == diamond)
    ensures r.Some? ==> (r.value.rows == canvasH / (tileH + gap) + 3 && r.value.cols == canvasW / (tileW + gap) + 3)
  {
    if tileH + gap == 0 || tileW + gap == 0 then None
    else Some(Grid(canvasH / (tileH + gap) + 3, canvasW / (tileW + gap) + 3, tileW + gap, tileH + gap, tileW, tileH, diamond))
  }

  /** The horizontal offset of row `r`: half a cell, rounded down, on odd rows in diamond mode. */
  function Shift(g: Grid, r: nat): nat {
    if g.diamond && r % 2 == 1 then g.cellW / 2 else 0
  }

  /** Is `(y, x)` inside the tile pasted for row `r`, column `c`? */
  predicate InTile(g: Grid, r: nat, c: nat, y: int, x: int) {
    InRect(y, x, r * g.cellH, c * g.cellW + Shift(g, r), g.tileH, g.tileW)
  }

  /** Which tile, if any, covers a pixel, and where in that tile the pixel falls. */
  datatype Cover = Cover(row: nat, col: nat, dy: int, dx: int)

  function CoverOf(g: Grid, y: nat, x: nat): (cv: Option<Cover>)
    requires ValidGrid(g)
    ensures cv.Some? ==> 0 <= cv.value.dy < g.tileH && 0 <= cv.value.dx < g.tileW
  {
    var r := y / g.cellH;
    var s := Shift(g, r);
    if y % g.cellH >= g.tileH || x < s then None
    else if (x - s) % g.cellW >= g.tileW then None
    else Some(Cover(r, (x - s) / g.cellW, y % g.cellH, (x - s) % g.cellW))
  }

  /**
   * The pixel the finished grid holds at `(y, x)`: the tile's own pixel at the
   * covering offset, or the transparent fill where no tile was pasted.
   */
  function GridPixel(tile: array2<Pixel>, g: Grid, y: nat, x: nat): (p: Pixel)
    reads tile
    requires ValidGrid(g) && tile.Length0 == g.tileH && tile.Length1 == g.tileW
    ensures CoverOf(g, y, x).None? ==> p == Transparent
    ensures CoverOf(g, y, x).Some? ==>
      exists dy, dx :: 0 <= dy < g.tileH && 0 <= dx < g.tileW && p == tile[dy, dx]
  {
    match CoverOf(g, y, x)
    case None => Transparent
    case Some(cv) => tile[cv.dy, cv.dx]
  }

  /** A pixel lies in the tile of row `r`, column `c` exactly when `CoverOf` names that tile. */
  lemma {:induction false} CoverOfInTile(g: Grid, r: nat, c: nat, y: nat, x: nat)
    requires ValidGrid(g)
    ensures InTile(g, r, c, y, x) <==>
      CoverOf(g, y, x) == Some(Cover(r, c, y - r * g.cellH, x - c * g.cellW - Shift(g, r)))
  {
    if InTile(g, r, c, y, x) {
      DivModUnique(y, g.cellH, r, y - r * g.cellH);
      DivModUnique(x - Shift(g, r), g.cellW, c, x - c * g.cellW - Shift(g, r));
    }
    var cv := CoverOf(g, y, x);
    if cv == Some(Cover(r, c, y - r * g.cellH, x - c * g.cellW - Shift(g, r))) {
      assert y / g.cellH == r;
      assert y == r * g.cellH + y % g.cellH;
      assert x - Shift(g, r) == c * g.cellW + (x - Shift(g, r)) % g.cellW;
    }
  }

  /** A covering tile always lies inside the grid's rows and columns. */
  lemma {:induction false} CoverInGrid(g: Grid, y: nat, x: nat)
    requires ValidGrid(g) && y < Height(g) && x < Width(g) && CoverOf(g, y, x).Some?
    ensures CoverOf(g, y, x).value.row < g.rows && CoverOf(g, y, x).value.col < g.cols
    ensures InTile(g, CoverOf(g, y, x).value.row, CoverOf(g, y, x).value.col, y, x)
  {
    var cv := CoverOf(g, y, x);
    var r := y / g.cellH;
    assert y == r * g.cellH + y % g.cellH;
    if g.rows <= r {
      MulMono(g.rows, r, g.cellH);
      assert false;
    }
    var xs := x - Shift(g, r);
    var c := xs / g.cellW;
    assert xs == c * g.cellW + xs % g.cellW;
    if g.cols <= c {
      MulMono(g.cols, c, g.cellW);
      assert false;
    }
    CoverOfInTile(g, r, c, y, x);
  }

  /** The grid's pixel after the tiles before `(row, col)` in row-major order are pasted. */
  function Partial(tile: array2<Pixel>, g: Grid, row: nat, col: nat, y: nat, x: nat): Pixel
    reads tile
    requires ValidGrid(g) && tile.Length0 == g.tileH && tile.Length1 == g.tileW
  {
    match CoverOf(g, y, x)
    case None => Transparent
    case Some(cv) => if cv.row < row || (cv.row == row && cv.col < col) then tile[cv.dy, cv.dx] else Transparent
  }

  /** Pasting tile `(row, col)` advances `Partial` by one tile. */
  lemma PasteStep(tile: array2<Pixel>, g: Grid, row: nat, col: nat, y: nat, x: nat)
    requires ValidGrid(g) && tile.Length0 == g.tileH && tile.Length1 == g.tileW
    ensures Partial(tile, g, row, col + 1, y, x) ==
      PastedAt(tile, row * g.cellH, col * g.cellW + Shift(g, row), y, x, Partial(tile, g, row, col, y, x), false, (b, f) => f)
  {
    CoverOfInTile(g, row, col, y, x);
  }

  /** Finishing a row is starting the next. */
  lemma RowStep(tile: array2<Pixel>, g: Grid, row: nat, y: nat, x: nat)
    requires ValidGrid(g) && tile.Length0 == g.tileH && tile.Length1 == g.tileW
    requires y < Height(g) && x < Width(g)
    ensures Partial(tile, g, row, g.cols, y, x) == Partial(tile, g, row + 1, 0, y, x)
  {
    if CoverOf(g, y, x).Some? {
      CoverInGrid(g, y, x);
    }
  }

  /** Once every row is pasted, the buffer holds `GridPixel`. */
  lemma GridDone(tile: array2<Pixel>, g: Grid, y: nat, x: nat)
    requires ValidGrid(g) && tile.Length0 == g.tileH && tile.Length1 == g.tileW
    requires y < Height(g) && x < Width(g)
    ensures Partial(tile, g, g.rows, 0, y, x) == GridPixel(tile, g, y, x)
  {
    if CoverOf(g, y, x).Some? {
      CoverInGrid(g, y, x);
    }
  }

  /**
   * Tile `(r, c)` is pasted at `x = c * (w + gap)` (plus half a cell on odd
   * diamond rows) and `y = r * (h + gap)`; wherever it lies inside the buffer
   * the grid there is a copy of the watermark.
   */
  lemma {:induction false} TileRegionIsSource(tile: array2<Pixel>, g: Grid, r: nat, c: nat, dy: nat, dx: nat)
    requires ValidGrid(g) && tile.Length0 == g.tileH && tile.Length1 == g.tileW
    requires dy < g.tileH && dx < g.tileW
    ensures GridPixel(tile, g, r * g.cellH + dy, c * g.cellW + Shift(g, r) + dx) == tile[dy, dx]
  {
    var y, x := r * g.cellH + dy, c * g.cellW + Shift(g, r) + dx;
    assert InTile(g, r, c, y, x);
    CoverOfInTile(g, r, c, y, x);
    assert CoverOf(g, y, x) == Some(Cover(r, c, dy, dx));
  }

  /** A pixel that no tile of the grid covers stays `(0, 0, 0, 0)`. */
  lemma {:induction false} UncoveredIsTransparent(tile: array2<Pixel>, g: Grid, y: nat, x: nat)
    requires ValidGrid(g) && tile.Length0 == g.tileH && tile.Length1 == g.tileW
    requires y < Height(g) && x < Width(g)
    requires forall r: nat, c: nat :: r < g.rows && c < g.cols ==> !InTile(g, r, c, y, x)
    ensures GridPixel(tile, g, y, x) == Transparent
  {
    if CoverOf(g, y, x).Some? {
      CoverInGrid(g, y, x);
    }
  }

  /** No two tiles of a grid overlap, so the order of the pastes does not matter. */
  lemma {:induction false} TilesDisjoint(g: Grid, r1: nat, c1: nat, r2: nat, c2: nat, y: nat, x: nat)
    requires ValidGrid(g)
    requires InTile(g, r1, c1, y, x) && InTile(g, r2, c2, y, x)
    ensures r1 == r2 && c1 == c2
  {
    CoverOfInTile(g, r1, c1, y, x);
    CoverOfInTile(g, r2, c2, y, x);
  }

  /**
   * The buffer is more than two cells wider and higher than the canvas, so it
   * covers the canvas from any placement within a cell.
   */
  lemma {:induction false} GridOverprovisions(tileW: nat, tileH: nat, gap: nat, canvasW: nat, canvasH: nat, diamond: bool)
    requires tileW + gap > 0 && tileH + gap > 0
    ensures var g := GridLayout(tileW, tileH, gap, canvasW, canvasH, diamond).value;
      Width(g) > canvasW + 2 * g.cellW && Height(g) > canvasH + 2 * g.cellH
  {
    var g := GridLayout(tileW, tileH, gap, canvasW, canvasH, diamond).value;
    assert canvasW == (canvasW / g.cellW) * g.cellW + canvasW % g.cellW;
    assert canvasH == (canvasH / g.cellH) * g.cellH + canvasH % g.cellH;
    assert Width(g) == (canvasW / g.cellW) * g.cellW + 3 * g.cellW;
    assert Height(g) == (canvasH / g.cellH) * g.cellH + 3 * g.cellH;
  }

  /** `create_img_grid(image, gap, diamond)` on a canvas of `canvasW` by `canvasH`. */
  method CreateImgGrid(tile: array2<Pixel>, gap: nat, diamond: bool, canvasW: nat, canvasH: nat)
    returns (grid: Option<array2<Pixel>>)
    ensures grid.None? <==> GridLayout(tile.Length1, tile.Length0, gap, canvasW, canvasH, diamond).None?
    ensures grid.Some? ==>
      var g := GridLayout(tile.Length1, tile.Length0, gap, canvasW, canvasH, diamond).value;
      fresh(grid.value) && grid.value.Length0 == Height(g) && grid.value.Length1 == Width(g)
      && forall y, x :: 0 <= y < Height(g) && 0 <= x < Width(g) ==> grid.value[y, x] == GridPixel(tile, g, y, x)
  {
    var layout := GridLayout(tile.Length1, tile.Length0, gap, canvasW, canvasH, diamond);
    if layout.None? {
      return None;
    }
    var g := layout.value;
    var buf := NewImage(Width(g), Height(g));
    var row := 0;
    while row < g.rows
      invariant 0 <= row <= g.rows
      invariant forall y, x :: 0 <= y < Height(g) && 0 <= x < Width(g) ==> buf[y, x] == Partial(tile, g, row, 0, y, x)
    {
      var col := 0;
      while col < g.cols
        invariant 0 <= col <= g.cols
        invariant forall y, x :: 0 <= y < Height(g) && 0 <= x < Width(g) ==> buf[y, x] == Partial(tile, g, row, col, y, x)
      {
        var x := col * g.cellW;
        var y := row * g.cellH;
        if diamond && row % 2 == 1 {
          x := x + g.cellW / 2;
        }
        Paste(buf, tile, y, x, false, (b, f) => f);
        forall i, j | 0 <= i < Height(g) && 0 <= j < Width(g)
          ensures buf[i, j] == Partial(tile, g, row, col + 1, i, j)
        {
          PasteStep(tile, g, row, col, i, j);
        }
        col := col + 1;
      }
      forall i, j | 0 <= i < Height(g) && 0 <= j < Width(g)
        ensures buf[i, j] == Partial(tile, g, row + 1, 0, i, j)
      {
        RowStep(tile, g, row, i, j);
      }
      row := row + 1;
    }
    forall i, j | 0 <= i < Height(g) && 0 <= j < Width(g)
      ensures buf[i, j] == GridPixel(tile, g, i, j)
    {
      GridDone(tile, g, i, j);
    }
    return Some(buf);
  }
}
