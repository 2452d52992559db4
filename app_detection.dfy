/** The web application's copy of the georeferenced pipeline. Its three
    functions do what the service's do, over the same model; what this
    module adds is the application's own configuration and the link between
    the shapefile it writes and the base name its packaging step looks for. */
module AppDetection {
  import opened Geometry
  import opened Tiling
  import opened Detection
  import opened Shapefile
  import Projection
  import Backend

  /** The application's tile edge in pixels, and slice_geotiff's default. */
  const SliceSize: int := 3000

  /** The base name the packaging step appends .shp, .shx and .dbf to. */
  const PathToSaveShapefile: string := "weed_detections"

  /** slice_geotiff, with the module's tile size as the default. */
  method SliceGeotiff(width: nat, height: nat, transform: Affine, sliceSize: int := SliceSize)
    returns (slices: seq<Slice>)
    requires sliceSize != 0
    ensures slices == GridSlices(height, width, sliceSize, transform)
    ensures sliceSize > 0 ==> |slices| == CeilDiv(height, sliceSize) * CeilDiv(width, sliceSize)
    ensures sliceSize < 0 ==> slices == []
    ensures forall k1, k2 :: 0 <= k1 < |slices| && 0 <= k2 < |slices| && slices[k1].filename == slices[k2].filename
              ==> k1 == k2
  {
    slices := Backend.SliceGeotiff(width, height, transform, sliceSize);
  }

  /** create_shapefile_with_latlon, with the same default path. */
  method CreateShapefileWithLatLon(bboxes: seq<WeedBox>, shapefilePath: string := "weed_detections.shp")
    returns (w: Writer)
    ensures fresh(w) && w.path == shapefilePath && w.closed
    ensures w.fields == [IdField]
    ensures |w.shapes| == |w.records| == |bboxes|
    ensures forall k :: 0 <= k < |bboxes| ==>
              w.shapes[k] == [Projection.GeoRing(bboxes[k])] && w.records[k] == [RecordId(k)]
  {
    w := Backend.CreateShapefileWithLatLon(bboxes, shapefilePath);
  }

  /** detect_weeds_in_slices: returns nothing to its caller; the writer
      stands for the shapefile it leaves at the default path. */
  method DetectWeedsInSlices(slices: seq<Slice>, detect: string -> seq<RawBox>)
    returns (w: Writer)
    requires DetectionsValid(slices, detect)
    ensures fresh(w) && w.path == PathToSaveShapefile + ".shp" && w.closed && w.fields == [IdField]
    ensures |w.shapes| == |w.records| == |WeedBoxes(slices, detect)|
    ensures forall k :: 0 <= k < |w.shapes| ==>
              w.shapes[k] == [Projection.GeoRing(WeedBoxes(slices, detect)[k])] && w.records[k] == [RecordId(k)]
  {
    w := Backend.DetectWeedsInSlices(slices, detect);
    assert PathToSaveShapefile + ".shp" == Backend.ShapefilePath;
  }

  /** The default shapefile path is the packaging base name with .shp, and
      the default tile size is the module's. */
  lemma DefaultsAgree()
    ensures PathToSaveShapefile + ".shp" == Backend.ShapefilePath
    ensures SliceSize == Backend.SliceSize == 3000
  {
    assert PathToSaveShapefile + ".shp" == "weed_detections.shp";
  }
}
