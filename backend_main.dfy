/** The georeferenced pipeline of the service: tiling a raster into slices,
    collecting the detector's weeds boxes slice by slice, and writing one
    ground polygon and one id record per collected box. Raster reads, image
    files and the detector itself are outside the model: the raster is its
    width, height and transform, and the detector is a function from a
    slice's file name to the boxes it reports. */
module Backend {
  import opened Geometry
  import opened Tiling
  import opened Detection
  import opened Shapefile
  import Projection

  /** The tile edge in pixels the service uses, and slice_geotiff's default. */
  const SliceSize: int := 3000

  /** Where the service writes the shapefile. */
  const ShapefilePath: string := "weed_detections.shp"

  /** slice_geotiff: for each row offset i in range(0, height, sliceSize),
      for each column offset j in range(0, width, sliceSize), the slice
      named for (i, j) with the window transform at column j, row i. */
  method SliceGeotiff(width: nat, height: nat, transform: Affine, sliceSize: int := SliceSize)
    returns (slices: seq<Slice>)
    requires sliceSize != 0
    ensures slices == GridSlices(height, width, sliceSize, transform)
    ensures sliceSize > 0 ==> |slices| == CeilDiv(height, sliceSize) * CeilDiv(width, sliceSize)
    ensures sliceSize < 0 ==> slices == []
    ensures forall k1, k2 :: 0 <= k1 < |slices| && 0 <= k2 < |slices| && slices[k1].filename == slices[k2].filename
              ==> k1 == k2
  {
    var rows, cols := Range(0, height, sliceSize), Range(0, width, sliceSize);
    ghost var done: seq<Origin> := [];
    slices := [];
    for r := 0 to |rows|
      invariant done == VisitOrder(rows[..r], cols)
      invariant slices == Slices(done, transform)
    {
      var i := rows[r];
      for c := 0 to |cols|
        invariant slices == Slices(done + RowOrigins(i, cols[..c]), transform)
      {
        var j := cols[c];
        var transformWindow := WindowTransform(transform, j, i);
        var sliceFilename := SliceName(i, j);
        SlicesRowStep(done, i, cols, c, transform);
        slices := slices + [Slice(sliceFilename, transformWindow)];
      }
      assert cols[..|cols|] == cols;
      VisitOrderSnoc(rows, cols, r);
      done := done + RowOrigins(i, cols);
    }
    assert rows[..|rows|] == rows;
    TileCount(height, width, sliceSize);
    GridSliceNamesDistinct(height, width, sliceSize, transform);
  }

  /** create_shapefile_with_latlon: one field 'id', then for each box in
      order its ground ring as a one-part polygon and the record weed_{idx}. */
  method CreateShapefileWithLatLon(bboxes: seq<WeedBox>, shapefilePath: string := "weed_detections.shp")
    returns (w: Writer)
    ensures fresh(w) && w.path == shapefilePath && w.closed
    ensures w.fields == [IdField]
    ensures |w.shapes| == |w.records| == |bboxes|
    ensures forall k :: 0 <= k < |bboxes| ==>
              w.shapes[k] == [Projection.GeoRing(bboxes[k])] && w.records[k] == [RecordId(k)]
  {
    w := new Writer(shapefilePath);
    w.Field("id", 'C');
    for idx := 0 to |bboxes|
      invariant w.fields == [IdField] && !w.closed && w.path == shapefilePath
      invariant |w.shapes| == |w.records| == idx
      invariant forall k :: 0 <= k < idx ==>
                  w.shapes[k] == [Projection.GeoRing(bboxes[k])] && w.records[k] == [RecordId(k)]
    {
      var poly := Projection.GeoRing(bboxes[idx]);
      w.Poly([poly]);
      w.Record([RecordId(idx)]);
    }
    w.Close();
  }

  /** detect_weeds_in_slices: runs the detector on every slice in order,
      keeps the weeds boxes with integer corners and the slice's transform,
      and writes them all to the service's shapefile. The writer it returns
      stands for that file; the function itself returns nothing. */
  method DetectWeedsInSlices(slices: seq<Slice>, detect: string -> seq<RawBox>)
    returns (w: Writer)
    requires DetectionsValid(slices, detect)
    ensures fresh(w) && w.path == ShapefilePath && w.closed && w.fields == [IdField]
    ensures |w.shapes| == |w.records| == |WeedBoxes(slices, detect)|
    ensures forall k :: 0 <= k < |w.shapes| ==>
              w.shapes[k] == [Projection.GeoRing(WeedBoxes(slices, detect)[k])] && w.records[k] == [RecordId(k)]
  {
    var weedBboxes: seq<WeedBox> := [];
    for n := 0 to |slices|
      invariant DetectionsValid(slices[..n], detect)
      invariant weedBboxes == WeedBoxes(slices[..n], detect)
    {
      var sliceFilename, transform := slices[n].filename, slices[n].transform;
      var boxes := detect(sliceFilename);
      WeedBoxesStep(slices, n, detect);
      weedBboxes := AppendSliceWeeds(weedBboxes, boxes, transform);
    }
    assert slices[..|slices|] == slices;
    w := CreateShapefileWithLatLon(weedBboxes);
  }

  /** The inner loop of detect_weeds_in_slices over one slice's boxes:
      each box's corners truncated by int(), and the box appended to the
      accumulated list, with the slice's transform, when its class is
      "weeds". */
  method AppendSliceWeeds(weedBboxes: seq<WeedBox>, boxes: seq<RawBox>, transform: Affine)
    returns (result: seq<WeedBox>)
    requires LabelsValid(boxes)
    ensures result == weedBboxes + TileWeeds(boxes, transform)
  {
    result := weedBboxes;
    for m := 0 to |boxes|
      invariant result == weedBboxes + TileWeeds(boxes[..m], transform)
    {
      var box := boxes[m];
      var x1, y1, x2, y2 := Trunc(box.x1), Trunc(box.y1), Trunc(box.x2), Trunc(box.y2);
      var cls := box.cls;
      TileWeedsStep(boxes, m, transform);
      if ClassName(Trunc(cls)) == "weeds" {
        result := result + [WeedBox(x1, y1, x2, y2, transform)];
      }
    }
    assert boxes[..|boxes|] == boxes;
  }

  /** End to end: every box collected from the slices of a raster is a
      weeds box the detector reported for the tile at some grid origin,
      truncated and tagged with that tile's transform, and its ring is the
      box shifted by the origin and projected through the raster's own
      transform at pixel centres. */
  lemma CollectedRingInRaster(height: nat, width: nat, sliceSize: int, t: Affine,
                              detect: string -> seq<RawBox>, w: WeedBox)
    requires sliceSize != 0
    requires DetectionsValid(GridSlices(height, width, sliceSize, t), detect)
    requires w in WeedBoxes(GridSlices(height, width, sliceSize, t), detect)
    ensures exists o, b :: o in TileGrid(height, width, sliceSize) && b in detect(SliceName(o.row, o.col))
              && ValidLabel(b.cls) && IsWeeds(b) && w == Keep(b, WindowTransform(t, o.col, o.row))
              && Projection.FoundInTile(w, t, o)
  {
    var slices := GridSlices(height, width, sliceSize, t);
    WeedBoxesMembers(slices, detect, w);
    var s, b :| s in slices && b in detect(s.filename) && IsWeeds(b) && w == Keep(b, s.transform);
    var k :| 0 <= k < |slices| && slices[k] == s;
    var g := TileGrid(height, width, sliceSize);
    var o := g[k];
    assert s == SliceAt(o, t);
    Projection.GeoRingFromTile(t, o, w);
    assert o in g;
  }
}
