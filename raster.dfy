/** RGBA images as values: the decoded screenshot, the frame artwork, a finished mockup. */
module Raster {
  newtype byte = x: int | 0 <= x < 256

  datatype Pixel = Pixel(r: byte, g: byte, b: byte, a: byte)

  /** Rows of pixels, `rows[y][x]`, before the shape is checked. */
  datatype Grid = Grid(width: nat, height: nat, rows: seq<seq<Pixel>>)

  /** A grid whose rows all have the stated width and whose row count is the stated height. */
  type Image = g: Grid | |g.rows| == g.height && forall y :: 0 <= y < |g.rows| ==> |g.rows[y]| == g.width
    witness Grid(0, 0, [])

  function At(img: Image, x: nat, y: nat): Pixel
    requires x < img.width && y < img.height
  {
    img.rows[y][x]
  }

  /** Two images of the same size with the same pixels are the same image. */
  lemma SamePixels(a: Image, b: Image)
    requires a.width == b.width && a.height == b.height
    requires forall x, y :: 0 <= x < a.width && 0 <= y < a.height ==> At(a, x, y) == At(b, x, y)
    ensures a == b
  {
    forall y | 0 <= y < a.height
      ensures a.rows[y] == b.rows[y]
    {
      assert |a.rows[y]| == a.width == |b.rows[y]|;
      forall x | 0 <= x < a.width
        ensures a.rows[y][x] == b.rows[y][x]
      {
        assert At(a, x, y) == At(b, x, y);
      }
    }
  }

  /** The canvas pixel `(x, y)` lies under `img` when `img` is placed with its top-left corner at `(ox, oy)`. */
  predicate Covers(img: Image, ox: int, oy: int, x: int, y: int)
  {
    ox <= x < ox + img.width && oy <= y < oy + img.height
  }

  /** A fully transparent black pixel: what `crop` yields outside the image. */
  function Clear(): Pixel
  {
    Pixel(0, 0, 0, 0)
  }

  /**
   * `crop((x0, y0, x1, y1))` with whole-pixel coordinates: an image of size
   * `(x1 - x0) x (y1 - y0)` whose pixel `(i, j)` is the pixel at `(x0 + i, y0 + j)`,
   * or `Clear()` where that lies outside `img`.  A box whose right edge is left of
   * its left edge, or whose bottom is above its top, is refused by the library.
   */
  function Crop(img: Image, x0: int, y0: int, x1: int, y1: int): (c: Image)
    requires x0 <= x1 && y0 <= y1
    ensures c.width == x1 - x0 && c.height == y1 - y0
    ensures forall i, j :: 0 <= i < c.width && 0 <= j < c.height ==>
      At(c, i, j) == if Covers(img, 0, 0, x0 + i, y0 + j) then At(img, x0 + i, y0 + j) else Clear()
  {
    var rows := seq(y1 - y0, j =>
      seq(x1 - x0, i => if Covers(img, 0, 0, x0 + i, y0 + j) then At(img, x0 + i, y0 + j) else Clear()));
    assert forall j :: 0 <= j < |rows| ==> |rows[j]| == x1 - x0;
    Grid(x1 - x0, y1 - y0, rows)
  }
}
