/** Plain-image mode: an image without georeference, whose four corners are
    given as (lon, lat) pairs. Pixels are placed on the ground by a bilinear
    blend of the corners, and each detection box becomes a closed rectangle
    ring in a shapefile record 'weed_<k>'. */
module PlainImage {
  import opened Geometry
  import opened Shapefile

  /** image_coords, unpacked in the order top-left, top-right, bottom-right,
      bottom-left; each corner is (lon, lat) = (x, y). */
  datatype Corners = Corners(topLeft: Point, topRight: Point, bottomRight: Point, bottomLeft: Point)

  /** A pixel box (x1, y1, x2, y2). */
  datatype Box = Box(x1: real, y1: real, x2: real, y2: real)

  /** convert_pixel_to_latlon: longitude is interpolated along the top and the
      bottom edge by x / width, then between them by y / height; latitude along
      the left and the right edge by y / height, then between them by
      x / width. Both sizes divide, so neither may be zero. */
  function ConvertPixelToLatLon(x: real, y: real, imageWidth: int, imageHeight: int, imageCoords: Corners): Point
    requires imageWidth != 0 && imageHeight != 0
  {
    var tl, tr, br, bl := imageCoords.topLeft, imageCoords.topRight, imageCoords.bottomRight, imageCoords.bottomLeft;
    var u, v := x / imageWidth as real, y / imageHeight as real;
    var lonTop, lonBottom := Lerp(tl.x, tr.x, u), Lerp(bl.x, br.x, u);
    var latLeft, latRight := Lerp(tl.y, bl.y, v), Lerp(tr.y, br.y, v);
    Point(Lerp(lonTop, lonBottom, v), Lerp(latLeft, latRight, u))
  }

  /** p + (q - p) * t: linear interpolation from p to q. */
  function Lerp(p: real, q: real, t: real): real
  {
    p + (q - p) * t
  }

  /** The textbook bilinear blend of four corner values at fractions (u, v). */
  function Blend(u: real, v: real, tl: real, tr: real, br: real, bl: real): real
  {
    (1.0 - u) * (1.0 - v) * tl + u * (1.0 - v) * tr + u * v * br + (1.0 - u) * v * bl
  }

  /** Interpolating two edge interpolations, the top and bottom edges first,
      is the bilinear blend. */
  lemma EdgesThenVertical(u: real, v: real, tl: real, tr: real, br: real, bl: real)
    ensures Lerp(Lerp(tl, tr, u), Lerp(bl, br, u), v) == Blend(u, v, tl, tr, br, bl)
  {
  }

  /** The same with the left and right edges first. */
  lemma EdgesThenHorizontal(u: real, v: real, tl: real, tr: real, br: real, bl: real)
    ensures Lerp(Lerp(tl, bl, v), Lerp(tr, br, v), u) == Blend(u, v, tl, tr, br, bl)
  {
  }

  /** Interpolation starts at p and ends at q. */
  lemma LerpEnds(p: real, q: real)
    ensures Lerp(p, q, 0.0) == p && Lerp(p, q, 1.0) == q
  {
  }

  /** Interpolating horizontally then vertically equals the other order. */
  lemma LerpsCommute(tl: real, tr: real, br: real, bl: real, u: real, v: real)
    ensures Lerp(Lerp(tl, tr, u), Lerp(bl, br, u), v) == Lerp(Lerp(tl, bl, v), Lerp(tr, br, v), u)
  {
  }

  /** Both coordinates are the same bilinear blend of the corners, taken at
      (x / width, y / height). */
  lemma ConvertIsBilinear(x: real, y: real, w: int, h: int, c: Corners)
    requires w != 0 && h != 0
    ensures var u, v := x / w as real, y / h as real;
            ConvertPixelToLatLon(x, y, w, h, c)
            == Point(Blend(u, v, c.topLeft.x, c.topRight.x, c.bottomRight.x, c.bottomLeft.x),
                     Blend(u, v, c.topLeft.y, c.topRight.y, c.bottomRight.y, c.bottomLeft.y))
  {
    var u, v := x / w as real, y / h as real;
    EdgesThenVertical(u, v, c.topLeft.x, c.topRight.x, c.bottomRight.x, c.bottomLeft.x);
    EdgesThenHorizontal(u, v, c.topLeft.y, c.topRight.y, c.bottomRight.y, c.bottomLeft.y);
  }

  /** The four image corners land exactly on the four given coordinates. */
  lemma CornersExact(w: int, h: int, c: Corners)
    requires w != 0 && h != 0
    ensures ConvertPixelToLatLon(0.0, 0.0, w, h, c) == c.topLeft
    ensures ConvertPixelToLatLon(w as real, 0.0, w, h, c) == c.topRight
    ensures ConvertPixelToLatLon(w as real, h as real, w, h, c) == c.bottomRight
    ensures ConvertPixelToLatLon(0.0, h as real, w, h, c) == c.bottomLeft
  {
    assert w as real / w as real == 1.0;
    assert h as real / h as real == 1.0;
  }

  /** The image centre lands on the mean of the four corners. */
  lemma CentreIsMean(w: int, h: int, c: Corners)
    requires w != 0 && h != 0
    ensures ConvertPixelToLatLon(w as real / 2.0, h as real / 2.0, w, h, c)
         == Point((c.topLeft.x + c.topRight.x + c.bottomRight.x + c.bottomLeft.x) / 4.0,
                  (c.topLeft.y + c.topRight.y + c.bottomRight.y + c.bottomLeft.y) / 4.0)
  {
    assert (w as real / 2.0) / w as real == 0.5;
    assert (h as real / 2.0) / h as real == 0.5;
  }

  /** Along a pixel row (fixed y) both coordinates are affine in x: they move
      from the left-edge value to the right-edge value in proportion to
      x / width. */
  lemma AffineAlongRow(x: real, y: real, w: int, h: int, c: Corners)
    requires w != 0 && h != 0
    ensures var p, left, right := ConvertPixelToLatLon(x, y, w, h, c),
                                  ConvertPixelToLatLon(0.0, y, w, h, c),
                                  ConvertPixelToLatLon(w as real, y, w, h, c);
            var u := x / w as real;
            p.x == Lerp(left.x, right.x, u) && p.y == Lerp(left.y, right.y, u)
  {
    var u, v := x / w as real, y / h as real;
    var tl, tr, br, bl := c.topLeft, c.topRight, c.bottomRight, c.bottomLeft;
    assert 0.0 / w as real == 0.0 && w as real / w as real == 1.0;
    LerpEnds(tl.x, tr.x);
    LerpEnds(bl.x, br.x);
    LerpEnds(Lerp(tl.y, bl.y, v), Lerp(tr.y, br.y, v));
    LerpsCommute(tl.x, tr.x, br.x, bl.x, u, v);
  }

  /** Along a pixel column (fixed x) both coordinates are affine in y. */
  lemma AffineAlongColumn(x: real, y: real, w: int, h: int, c: Corners)
    requires w != 0 && h != 0
    ensures var p, top, bottom := ConvertPixelToLatLon(x, y, w, h, c),
                                  ConvertPixelToLatLon(x, 0.0, w, h, c),
                                  ConvertPixelToLatLon(x, h as real, w, h, c);
            var v := y / h as real;
            p.x == Lerp(top.x, bottom.x, v) && p.y == Lerp(top.y, bottom.y, v)
  {
    var u, v := x / w as real, y / h as real;
    var tl, tr, br, bl := c.topLeft, c.topRight, c.bottomRight, c.bottomLeft;
    assert 0.0 / h as real == 0.0 && h as real / h as real == 1.0;
    LerpEnds(tl.y, bl.y);
    LerpEnds(tr.y, br.y);
    LerpEnds(Lerp(tl.x, tr.x, u), Lerp(bl.x, br.x, u));
    LerpsCommute(tl.y, tr.y, br.y, bl.y, u, v);
  }

  /** The ring of one box: top-left, top-right, bottom-right, bottom-left and
      top-left again, each corner converted with the image's (width, height). */
  function BoxRing(b: Box, imageShape: (int, int), imageCoords: Corners): seq<Point>
    requires imageShape.0 != 0 && imageShape.1 != 0
  {
    var (w, h) := imageShape;
    var topLeft := ConvertPixelToLatLon(b.x1, b.y1, w, h, imageCoords);
    var topRight := ConvertPixelToLatLon(b.x2, b.y1, w, h, imageCoords);
    var bottomLeft := ConvertPixelToLatLon(b.x1, b.y2, w, h, imageCoords);
    var bottomRight := ConvertPixelToLatLon(b.x2, b.y2, w, h, imageCoords);
    [topLeft, topRight, bottomRight, bottomLeft, topLeft]
  }

  /** The box spanning the whole image, (0, 0, width, height), becomes the
      ring of the four given corners in the given order, closed. The width of
      image_shape scales x and its height scales y. */
  lemma WholeImageRing(imageShape: (int, int), c: Corners)
    requires imageShape.0 != 0 && imageShape.1 != 0
    ensures BoxRing(Box(0.0, 0.0, imageShape.0 as real, imageShape.1 as real), imageShape, c)
         == [c.topLeft, c.topRight, c.bottomRight, c.bottomLeft, c.topLeft]
  {
    CornersExact(imageShape.0, imageShape.1, c);
  }

  /** Every box gives a closed five-point ring whose vertices are the blends
      of the box corners, in the order TL, TR, BR, BL, TL. */
  lemma BoxRingVertices(b: Box, imageShape: (int, int), c: Corners)
    requires imageShape.0 != 0 && imageShape.1 != 0
    ensures var r, w, h := BoxRing(b, imageShape, c), imageShape.0 as real, imageShape.1 as real;
            |r| == 5 && r[0] == r[4]
            && r[0] == Point(Blend(b.x1 / w, b.y1 / h, c.topLeft.x, c.topRight.x, c.bottomRight.x, c.bottomLeft.x),
                             Blend(b.x1 / w, b.y1 / h, c.topLeft.y, c.topRight.y, c.bottomRight.y, c.bottomLeft.y))
            && r[1] == Point(Blend(b.x2 / w, b.y1 / h, c.topLeft.x, c.topRight.x, c.bottomRight.x, c.bottomLeft.x),
                             Blend(b.x2 / w, b.y1 / h, c.topLeft.y, c.topRight.y, c.bottomRight.y, c.bottomLeft.y))
            && r[2] == Point(Blend(b.x2 / w, b.y2 / h, c.topLeft.x, c.topRight.x, c.bottomRight.x, c.bottomLeft.x),
                             Blend(b.x2 / w, b.y2 / h, c.topLeft.y, c.topRight.y, c.bottomRight.y, c.bottomLeft.y))
            && r[3] == Point(Blend(b.x1 / w, b.y2 / h, c.topLeft.x, c.topRight.x, c.bottomRight.x, c.bottomLeft.x),
                             Blend(b.x1 / w, b.y2 / h, c.topLeft.y, c.topRight.y, c.bottomRight.y, c.bottomLeft.y))
  {
    var (w, h) := imageShape;
    ConvertIsBilinear(b.x1, b.y1, w, h, c);
    ConvertIsBilinear(b.x2, b.y1, w, h, c);
    ConvertIsBilinear(b.x2, b.y2, w, h, c);
    ConvertIsBilinear(b.x1, b.y2, w, h, c);
  }

  /** create_shapefile_with_latlon (plain image): declares the single 'id'
      text field, then writes for the k-th box, in input order, its ring as a
      one-part polygon and the record 'weed_<k>', and closes the writer. The
      sizes are divisors only once a box is converted, so they may be zero
      when there are no boxes. */
  method CreateShapefileWithLatLon(bboxes: seq<Box>, imageShape: (int, int), imageCoords: Corners, shapefilePath: string)
    returns (w: Writer)
    requires bboxes != [] ==> imageShape.0 != 0 && imageShape.1 != 0
    ensures fresh(w) && w.path == shapefilePath && w.closed
    ensures w.fields == [IdField]
    ensures |w.shapes| == |w.records| == |bboxes|
    ensures forall k :: 0 <= k < |bboxes| ==>
              w.shapes[k] == [BoxRing(bboxes[k], imageShape, imageCoords)] && w.records[k] == [RecordId(k)]
  {
    w := new Writer(shapefilePath);
    w.Field("id", 'C');
    for idx := 0 to |bboxes|
      invariant w.fields == [IdField] && !w.closed && w.path == shapefilePath
      invariant |w.shapes| == |w.records| == idx
      invariant forall k :: 0 <= k < idx ==>
                  w.shapes[k] == [BoxRing(bboxes[k], imageShape, imageCoords)] && w.records[k] == [RecordId(k)]
    {
      var poly := BoxRing(bboxes[idx], imageShape, imageCoords);
      w.Poly([poly]);
      w.Record([RecordId(idx)]);
    }
    w.Close();
  }
}
