/** Decoded RGB images, as far as the dashboard handles them. */
module Raster {

  datatype Rgb = Rgb(red: int, green: int, blue: int)

  const Black := Rgb(0, 0, 0)

  /** Rows of pixels, top row first; `rows[y][x]` is the pixel at column `x`, row `y`. */
  datatype Raster = Raster(width: nat, height: nat, rows: seq<seq<Rgb>>)

  predicate WellFormed(r: Raster)
  {
    |r.rows| == r.height && forall y :: 0 <= y < |r.rows| ==> |r.rows[y]| == r.width
  }

  type Image = r: Raster | WellFormed(r) witness Raster(0, 0, [])

  function Pixel(img: Image, x: nat, y: nat): Rgb
    requires x < img.width && y < img.height
  {
    img.rows[y][x]
  }

  /** `Image.new('RGB', (w, h), color='black')`. */
  function Blank(w: nat, h: nat): (img: Image)
    ensures img.width == w && img.height == h
    ensures forall x: nat, y: nat :: x < w && y < h ==> Pixel(img, x, y) == Black
  {
    Raster(w, h, seq(h, _ => seq(w, _ => Black)))
  }

  /** The size of the tile drawn in place of a robot's frame when its fetch fails. */
  const PlaceholderWidth := 640
  const PlaceholderHeight := 480
}
