/**
 * The 2x2 composite: tile size from the first robot's image (640x480 when
 * there is none), a black canvas twice as wide and twice as high, and the
 * robots' images pasted at the four quadrant corners in the configured
 * robot order. A paste is clipped at the canvas edge, and a later paste
 * overwrites an earlier one where they overlap; a robot without an image
 * leaves its quadrant as it was.
 */
module Composite {
  import opened Wrappers
  import opened Raster

  const DefaultWidth: nat := 640
  const DefaultHeight: nat := 480

  /** Number of slots in the grid (one per configured robot). */
  const SlotCount := 4

  /** `width, height` before the canvas is created. */
  function TileSize(tiles: seq<Option<Image>>): (nat, nat)
  {
    if |tiles| > 0 && tiles[0].Some? then (tiles[0].value.width, tiles[0].value.height)
    else (DefaultWidth, DefaultHeight)
  }

  /** The upper-left corner `(x, y)` of slot `i`: top left, top right, bottom left, bottom right. */
  function SlotOrigin(i: nat, w: nat, h: nat): (nat, nat)
    requires i < SlotCount
  {
    [(0, 0), (w, 0), (0, h), (w, h)][i]
  }

  /** The quadrant of slot `i` contains `(x, y)`. */
  predicate InQuadrant(i: nat, w: nat, h: nat, x: int, y: int)
    requires i < SlotCount
  {
    var (ox, oy) := SlotOrigin(i, w, h);
    ox <= x < ox + w && oy <= y < oy + h
  }

  /** Every canvas point lies in exactly one quadrant, and no quadrant reaches outside the canvas. */
  lemma QuadrantsPartitionCanvas(w: nat, h: nat, x: int, y: int)
    ensures (0 <= x < 2 * w && 0 <= y < 2 * h) <==> exists i :: 0 <= i < SlotCount && InQuadrant(i, w, h, x, y)
    ensures forall i, j :: 0 <= i < j < SlotCount && InQuadrant(i, w, h, x, y) ==> !InQuadrant(j, w, h, x, y)
  {
    if 0 <= x < 2 * w && 0 <= y < 2 * h {
      var i := (if x < w then 0 else 1) + (if y < h then 0 else 2);
      assert InQuadrant(i, w, h, x, y);
    }
  }

  /** A tile pasted with its upper-left corner at `(ox, oy)` covers `(x, y)`. */
  predicate Covers(tile: Image, ox: int, oy: int, x: int, y: int)
  {
    ox <= x < ox + tile.width && oy <= y < oy + tile.height
  }

  /**
   * The canvas pixel at `(x, y)` after the first `n` tiles are pasted in
   * order: the last pasted tile that covers it, or black.
   */
  function Layered(tiles: seq<Option<Image>>, n: nat, w: nat, h: nat, x: int, y: int): Rgb
    requires n <= |tiles| && n <= SlotCount
  {
    if n == 0 then Black
    else
      var (ox, oy) := SlotOrigin(n - 1, w, h);
      match tiles[n - 1]
      case Some(t) =>
        if Covers(t, ox, oy, x, y) then Pixel(t, x - ox, y - oy) else Layered(tiles, n - 1, w, h, x, y)
      case None => Layered(tiles, n - 1, w, h, x, y)
  }

  /** Tile `k` fits within one quadrant. */
  predicate Fits(tiles: seq<Option<Image>>, k: nat, w: nat, h: nat)
    requires k < |tiles|
  {
    tiles[k].Some? ==> tiles[k].value.width <= w && tiles[k].value.height <= h
  }

  /** When every tile fits, a point of quadrant `i` shows only what tile `i` put there. */
  lemma {:induction false} LayeredInQuadrant(tiles: seq<Option<Image>>, n: nat, w: nat, h: nat, i: nat, x: int, y: int)
    requires n <= |tiles| && n <= SlotCount && i < SlotCount
    requires forall k :: 0 <= k < n ==> Fits(tiles, k, w, h)
    requires InQuadrant(i, w, h, x, y)
    ensures Layered(tiles, n, w, h, x, y)
         == if i < n && tiles[i].Some? && Covers(tiles[i].value, SlotOrigin(i, w, h).0, SlotOrigin(i, w, h).1, x, y)
            then Pixel(tiles[i].value, x - SlotOrigin(i, w, h).0, y - SlotOrigin(i, w, h).1)
            else Black
  {
    if n > 0 {
      LayeredInQuadrant(tiles, n - 1, w, h, i, x, y);
      if n - 1 != i && tiles[n - 1].Some? {
        var (ox, oy) := SlotOrigin(n - 1, w, h);
        assert Fits(tiles, n - 1, w, h);
        QuadrantsPartitionCanvas(w, h, x, y);
        assert !Covers(tiles[n - 1].value, ox, oy, x, y) by {
          if Covers(tiles[n - 1].value, ox, oy, x, y) {
            assert InQuadrant(n - 1, w, h, x, y);
          }
        }
      }
    }
  }

  /**
   * With tiles that fit their quadrants, the finished composite shows tile
   * `i` exactly at slot `i`, and black in the rest of that quadrant (all of
   * it when robot `i` has no image).
   */
  lemma CompositeLayout(tiles: seq<Option<Image>>, w: nat, h: nat, i: nat, x: int, y: int)
    requires |tiles| == SlotCount && i < SlotCount
    requires forall k :: 0 <= k < SlotCount ==> Fits(tiles, k, w, h)
    requires InQuadrant(i, w, h, x, y)
    ensures tiles[i].None? ==> Layered(tiles, SlotCount, w, h, x, y) == Black
    ensures tiles[i].Some? && x - SlotOrigin(i, w, h).0 < tiles[i].value.width
                           && y - SlotOrigin(i, w, h).1 < tiles[i].value.height
        ==> Layered(tiles, SlotCount, w, h, x, y)
            == Pixel(tiles[i].value, x - SlotOrigin(i, w, h).0, y - SlotOrigin(i, w, h).1)
  {
    LayeredInQuadrant(tiles, SlotCount, w, h, i, x, y);
  }

  /**
   * `canvas.paste(tile, (ox, oy))`: copy the tile with its corner at
   * `(ox, oy)`, clipped to the canvas; nothing else changes.
   */
  method Paste(canvas: array2<Rgb>, tile: Image, ox: nat, oy: nat)
    modifies canvas
    ensures forall y, x :: 0 <= y < canvas.Length0 && 0 <= x < canvas.Length1 ==>
      canvas[y, x] == if Covers(tile, ox, oy, x, y) then Pixel(tile, x - ox, y - oy) else old(canvas[y, x])
  {
    var row := 0;
    while row < tile.height
      invariant 0 <= row <= tile.height
      invariant forall y, x :: 0 <= y < canvas.Length0 && 0 <= x < canvas.Length1 ==>
        canvas[y, x] == if Covers(tile, ox, oy, x, y) && y < oy + row then Pixel(tile, x - ox, y - oy) else old(canvas[y, x])
    {
      var col := 0;
      while col < tile.width
        invariant 0 <= col <= tile.width
        invariant forall y, x :: 0 <= y < canvas.Length0 && 0 <= x < canvas.Length1 ==>
          canvas[y, x] == if Covers(tile, ox, oy, x, y) && (y < oy + row || (y == oy + row && x < ox + col))
                          then Pixel(tile, x - ox, y - oy) else old(canvas[y, x])
      {
        if oy + row < canvas.Length0 && ox + col < canvas.Length1 {
          canvas[oy + row, ox + col] := Pixel(tile, col, row);
        }
        col := col + 1;
      }
      row := row + 1;
    }
  }

  /**
   * The grid of `create_combined_image`: a black `2w x 2h` canvas (height
   * first, as `canvas[y, x]`) with the tiles pasted at their slots in order.
   */
  method BuildComposite(tiles: seq<Option<Image>>) returns (canvas: array2<Rgb>)
    requires |tiles| == SlotCount
    ensures fresh(canvas)
    ensures canvas.Length0 == 2 * TileSize(tiles).1 && canvas.Length1 == 2 * TileSize(tiles).0
    ensures forall y, x :: 0 <= y < canvas.Length0 && 0 <= x < canvas.Length1 ==>
      canvas[y, x] == Layered(tiles, SlotCount, TileSize(tiles).0, TileSize(tiles).1, x, y)
  {
    var (w, h) := TileSize(tiles);
    canvas := new Rgb[2 * h, 2 * w]((y, x) => Black);
    var i := 0;
    while i < SlotCount
      invariant 0 <= i <= SlotCount
      invariant forall y, x :: 0 <= y < canvas.Length0 && 0 <= x < canvas.Length1 ==>
        canvas[y, x] == Layered(tiles, i, w, h, x, y)
    {
      var (ox, oy) := SlotOrigin(i, w, h);
      if tiles[i].Some? {
        Paste(canvas, tiles[i].value, ox, oy);
      }
      i := i + 1;
    }
  }
}
