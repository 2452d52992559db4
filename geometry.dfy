/** Planar points and the six-coefficient affine pixel-to-ground map of a
    georeferenced raster, with the two operations the pipeline takes from
    rasterio: the transform of a window, and the ground point of a pixel. */
module Geometry {

  /** A ground coordinate pair: (x, y), or (lon, lat) in plain-image mode. */
  datatype Point = Point(x: real, y: real)

  /** x = a*col + b*row + c,  y = d*col + e*row + f */
  datatype Affine = Affine(a: real, b: real, c: real, d: real, e: real, f: real)

  /** The transform applied to pixel coordinates (col, row). */
  function Apply(t: Affine, col: real, row: real): Point
  {
    Point(t.a * col + t.b * row + t.c, t.d * col + t.e * row + t.f)
  }

  /** rasterio.windows.transform(Window(colOff, rowOff, w, h), t): the parent
      map evaluated at the window origin becomes the new translation; the
      linear part is kept. */
  function WindowTransform(t: Affine, colOff: int, rowOff: int): Affine
  {
    var origin := Apply(t, colOff as real, rowOff as real);
    Affine(t.a, t.b, origin.x, t.d, t.e, origin.y)
  }

  /** rasterio.transform.xy(t, row, col, offset='center'): the ground point of
      the centre of pixel (row, col). Note the row-first argument order. */
  function PixelCentreXY(t: Affine, row: real, col: real): Point
  {
    Apply(t, col + 0.5, row + 0.5)
  }

  /** A window transform maps tile pixel (col, row) where the parent maps
      (col + colOff, row + rowOff), and keeps the parent's scale and shear. */
  lemma WindowTranslation(t: Affine, colOff: int, rowOff: int, col: real, row: real)
    ensures Apply(WindowTransform(t, colOff, rowOff), col, row)
         == Apply(t, col + colOff as real, row + rowOff as real)
    ensures var w := WindowTransform(t, colOff, rowOff);
            w.a == t.a && w.b == t.b && w.d == t.d && w.e == t.e
  {
    var j, i := colOff as real, rowOff as real;
    assert t.a * (col + j) == t.a * col + t.a * j;
    assert t.b * (row + i) == t.b * row + t.b * i;
    assert t.d * (col + j) == t.d * col + t.d * j;
    assert t.e * (row + i) == t.e * row + t.e * i;
  }

  /** The window at the raster origin has the raster's own transform. */
  lemma WholeRasterWindow(t: Affine)
    ensures WindowTransform(t, 0, 0) == t
  {
  }

  /** Windows compose: a window of a window is the window at the summed offset. */
  lemma WindowCompose(t: Affine, j1: int, i1: int, j2: int, i2: int)
    ensures WindowTransform(WindowTransform(t, j1, i1), j2, i2) == WindowTransform(t, j1 + j2, i1 + i2)
  {
    var p := WindowTransform(WindowTransform(t, j1, i1), j2, i2);
    var q := WindowTransform(t, j1 + j2, i1 + i2);
    WindowTranslation(t, j1, i1, j2 as real, i2 as real);
    assert (j1 + j2) as real == j1 as real + j2 as real;
    assert p.c == q.c && p.f == q.f;
  }

  /** The ground point of a tile pixel's centre is that of the parent pixel
      shifted by the tile origin. */
  lemma PixelCentreInParent(t: Affine, colOff: int, rowOff: int, row: real, col: real)
    ensures PixelCentreXY(WindowTransform(t, colOff, rowOff), row, col)
         == Apply(t, col + colOff as real + 0.5, row + rowOff as real + 0.5)
  {
    WindowTranslation(t, colOff, rowOff, col + 0.5, row + 0.5);
  }
}
