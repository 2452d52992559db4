/** The ground polygon of a kept detection in the georeferenced pipeline:
    each corner of the integer box is projected through its tile's
    transform at the pixel centre, and the corners are joined into the
    closed ring top-left, top-right, bottom-right, bottom-left, top-left. */
module Projection {
  import opened Geometry
  import Detection
  import Tiling

  /** The ring create_shapefile_with_latlon builds for one box: each corner
      is xy(transform, row, col, offset='center') with the row (y) first. */
  function GeoRing(b: Detection.WeedBox): seq<Point>
  {
    var t := b.transform;
    var topLeft := PixelCentreXY(t, b.y1 as real, b.x1 as real);
    var topRight := PixelCentreXY(t, b.y1 as real, b.x2 as real);
    var bottomLeft := PixelCentreXY(t, b.y2 as real, b.x1 as real);
    var bottomRight := PixelCentreXY(t, b.y2 as real, b.x2 as real);
    [topLeft, topRight, bottomRight, bottomLeft, topLeft]
  }

  /** The ring is closed, has five points, and visits the four corners
      clockwise on the image: each at its pixel centre, column first. */
  lemma GeoRingVertices(b: Detection.WeedBox)
    ensures var r := GeoRing(b);
            |r| == 5 && r[0] == r[4]
    ensures var r, t := GeoRing(b), b.transform;
            var x1, y1, x2, y2 := b.x1 as real, b.y1 as real, b.x2 as real, b.y2 as real;
            r[0] == Apply(t, x1 + 0.5, y1 + 0.5) && r[1] == Apply(t, x2 + 0.5, y1 + 0.5)
            && r[2] == Apply(t, x2 + 0.5, y2 + 0.5) && r[3] == Apply(t, x1 + 0.5, y2 + 0.5)
  {
  }

  /** A box found in the tile at origin o, tagged with that tile's window
      transform, projects where the same box shifted by the tile origin
      projects through the raster's own transform. */
  lemma GeoRingInParent(t: Affine, o: Tiling.Origin, x1: int, y1: int, x2: int, y2: int)
    ensures var r := GeoRing(Detection.WeedBox(x1, y1, x2, y2, WindowTransform(t, o.col, o.row)));
            var j, i := o.col as real, o.row as real;
            r[0] == Apply(t, x1 as real + j + 0.5, y1 as real + i + 0.5)
            && r[1] == Apply(t, x2 as real + j + 0.5, y1 as real + i + 0.5)
            && r[2] == Apply(t, x2 as real + j + 0.5, y2 as real + i + 0.5)
            && r[3] == Apply(t, x1 as real + j + 0.5, y2 as real + i + 0.5)
            && r[4] == r[0]
  {
    PixelCentreInParent(t, o.col, o.row, y1 as real, x1 as real);
    PixelCentreInParent(t, o.col, o.row, y1 as real, x2 as real);
    PixelCentreInParent(t, o.col, o.row, y2 as real, x2 as real);
    PixelCentreInParent(t, o.col, o.row, y2 as real, x1 as real);
  }

  /** A kept box tagged with the window transform of the tile at origin o,
      whose ring corners are the box corners shifted by o and projected
      through the raster transform t at pixel centres. */
  predicate FoundInTile(w: Detection.WeedBox, t: Affine, o: Tiling.Origin)
  {
    var r, j, i := GeoRing(w), o.col, o.row;
    w.transform == WindowTransform(t, j, i)
    && r[0] == Apply(t, (w.x1 + j) as real + 0.5, (w.y1 + i) as real + 0.5)
    && r[1] == Apply(t, (w.x2 + j) as real + 0.5, (w.y1 + i) as real + 0.5)
    && r[2] == Apply(t, (w.x2 + j) as real + 0.5, (w.y2 + i) as real + 0.5)
    && r[3] == Apply(t, (w.x1 + j) as real + 0.5, (w.y2 + i) as real + 0.5)
  }

  /** Every box tagged with a tile's window transform projects from that tile. */
  lemma GeoRingFromTile(t: Affine, o: Tiling.Origin, w: Detection.WeedBox)
    requires w.transform == WindowTransform(t, o.col, o.row)
    ensures FoundInTile(w, t, o)
  {
    assert w == Detection.WeedBox(w.x1, w.y1, w.x2, w.y2, WindowTransform(t, o.col, o.row));
    GeoRingInParent(t, o, w.x1, w.y1, w.x2, w.y2);
  }

  // ---------------------------------------------------------------- orientation

  /** The cross product of two position vectors. */
  function Cross(p: Point, q: Point): real
  {
    p.x * q.y - q.x * p.y
  }

  /** Twice the signed area of a polygon given by its vertex list, closing
      point included (the shoelace sum): positive when counter-clockwise in a
      y-up frame. */
  function Shoelace(ring: seq<Point>): real
  {
    if |ring| < 2 then 0.0 else Cross(ring[0], ring[1]) + Shoelace(ring[1..])
  }

  /** The determinant of the transform's linear part. */
  function Det(t: Affine): real
  {
    t.a * t.e - t.b * t.d
  }

  /** The translation's contribution to a cross product of transformed points. */
  function Drift(t: Affine, u: real, v: real): real
  {
    t.c * (t.d * u + t.e * v) - t.f * (t.a * u + t.b * v)
  }

  lemma LinearCross(a: real, b: real, d: real, e: real, u1: real, v1: real, u2: real, v2: real)
    ensures (a * u1 + b * v1) * (d * u2 + e * v2) - (a * u2 + b * v2) * (d * u1 + e * v1)
         == (a * e - b * d) * (u1 * v2 - u2 * v1)
  {
    assert (a * u1 + b * v1) * (d * u2 + e * v2) == a * d * u1 * u2 + a * e * u1 * v2 + b * d * v1 * u2 + b * e * v1 * v2;
    assert (a * u2 + b * v2) * (d * u1 + e * v1) == a * d * u2 * u1 + a * e * u2 * v1 + b * d * v2 * u1 + b * e * v2 * v1;
    assert (a * e - b * d) * (u1 * v2 - u2 * v1) == a * e * u1 * v2 - a * e * u2 * v1 - b * d * u1 * v2 + b * d * u2 * v1;
  }

  lemma ShiftedCross(p: real, q: real, r: real, s: real, c: real, f: real)
    ensures (p + c) * (s + f) - (r + c) * (q + f) == (p * s - r * q) + (c * (s - q) - f * (r - p))
  {
    assert (p + c) * (s + f) == p * s + p * f + c * s + c * f;
    assert (r + c) * (q + f) == r * q + r * f + c * q + c * f;
  }

  /** An affine map scales cross products by its determinant, up to a term
      that depends on each end alone. */
  lemma CrossApply(t: Affine, u1: real, v1: real, u2: real, v2: real)
    ensures Cross(Apply(t, u1, v1), Apply(t, u2, v2))
         == Det(t) * (u1 * v2 - u2 * v1) + Drift(t, u2, v2) - Drift(t, u1, v1)
  {
    var p, q := t.a * u1 + t.b * v1, t.d * u1 + t.e * v1;
    var r, s := t.a * u2 + t.b * v2, t.d * u2 + t.e * v2;
    assert Apply(t, u1, v1) == Point(p + t.c, q + t.f);
    assert Apply(t, u2, v2) == Point(r + t.c, s + t.f);
    ShiftedCross(p, q, r, s, t.c, t.f);
    LinearCross(t.a, t.b, t.d, t.e, u1, v1, u2, v2);
    assert Drift(t, u2, v2) - Drift(t, u1, v1) == t.c * (s - q) - t.f * (r - p);
  }

  /** The shoelace sum of a closed four-corner ring. */
  lemma ShoelaceQuad(p0: Point, p1: Point, p2: Point, p3: Point)
    ensures Shoelace([p0, p1, p2, p3, p0]) == Cross(p0, p1) + Cross(p1, p2) + Cross(p2, p3) + Cross(p3, p0)
  {
    assert [p0, p1, p2, p3, p0][1..] == [p1, p2, p3, p0];
    assert [p1, p2, p3, p0][1..] == [p2, p3, p0];
    assert [p2, p3, p0][1..] == [p3, p0];
    assert [p3, p0][1..] == [p0];
    assert Shoelace([p3, p0]) == Cross(p3, p0);
    assert Shoelace([p2, p3, p0]) == Cross(p2, p3) + Cross(p3, p0);
    assert Shoelace([p1, p2, p3, p0]) == Cross(p1, p2) + Cross(p2, p3) + Cross(p3, p0);
  }

  lemma RectangleCross(u1: real, v1: real, u2: real, v2: real)
    ensures (u1 * v1 - u2 * v1) + (u2 * v2 - u2 * v1) + (u2 * v2 - u1 * v2) + (u1 * v1 - u1 * v2)
         == 2.0 * (u2 - u1) * (v2 - v1)
  {
    assert (u2 - u1) * (v2 - v1) == u2 * v2 - u2 * v1 - u1 * v2 + u1 * v1;
  }

  /** The ring's signed area is the box's pixel area scaled by the
      determinant of the tile transform. */
  lemma GeoRingArea(b: Detection.WeedBox)
    ensures Shoelace(GeoRing(b)) == 2.0 * Det(b.transform) * ((b.x2 - b.x1) as real * (b.y2 - b.y1) as real)
  {
    var t := b.transform;
    var u1, v1, u2, v2 := b.x1 as real + 0.5, b.y1 as real + 0.5, b.x2 as real + 0.5, b.y2 as real + 0.5;
    var p0, p1, p2, p3 := Apply(t, u1, v1), Apply(t, u2, v1), Apply(t, u2, v2), Apply(t, u1, v2);
    assert GeoRing(b) == [p0, p1, p2, p3, p0];
    ShoelaceQuad(p0, p1, p2, p3);
    CrossApply(t, u1, v1, u2, v1);
    CrossApply(t, u2, v1, u2, v2);
    CrossApply(t, u2, v2, u1, v2);
    CrossApply(t, u1, v2, u1, v1);
    RectangleCross(u1, v1, u2, v2);
    assert (u2 - u1) == (b.x2 - b.x1) as real && (v2 - v1) == (b.y2 - b.y1) as real;
    assert Shoelace(GeoRing(b)) == Det(t) * (2.0 * (u2 - u1) * (v2 - v1));
  }

  /** For a north-up raster (positive x step, negative y step, no rotation) a
      box with positive extent becomes a clockwise ground ring, the outer
      ring orientation of the shapefile format. */
  lemma NorthUpClockwise(b: Detection.WeedBox)
    requires b.transform.a > 0.0 && b.transform.e < 0.0 && b.transform.b == 0.0 && b.transform.d == 0.0
    requires b.x1 < b.x2 && b.y1 < b.y2
    ensures Shoelace(GeoRing(b)) < 0.0
  {
    GeoRingArea(b);
    var w, h := (b.x2 - b.x1) as real, (b.y2 - b.y1) as real;
    assert w * h > 0.0;
    assert Det(b.transform) < 0.0;
  }

  /** A box of zero width or height collapses to a ring of zero area; such
      boxes are written all the same. */
  lemma DegenerateBoxZeroArea(b: Detection.WeedBox)
    requires b.x1 == b.x2 || b.y1 == b.y2
    ensures Shoelace(GeoRing(b)) == 0.0
  {
    GeoRingArea(b);
  }

  // ---------------------------------------------------------------- a worked case

  /** A 0.001-degree tile transform whose origin is (-48.886, -20.590): the
      box (10, 10, 50, 50) has its top-left ground corner at the centre of
      pixel (10, 10), half a pixel in from the pixel's corner. */
  lemma CentreOffsetScenario()
    ensures var t := Affine(0.001, 0.0, -48.886, 0.0, -0.001, -20.590);
            var r := GeoRing(Detection.WeedBox(10, 10, 50, 50, t));
            r[0] == Point(-48.8755, -20.6005) && r[2] == Point(-48.8355, -20.6405)
            && r[0] != Point(-48.886 + 0.001 * 10.0, -20.590 - 0.001 * 10.0)
  {
  }
}
