# weed_detect: from detector boxes to ground polygons

weed_detect finds weeds in aerial imagery and writes every detection as
a polygon in an ESRI shapefile. This project models the arithmetic and
bookkeeping of that chain and proves its properties. It has two variants.

- **Plain-image mode** (`utils.py`). Four corner coordinates are given for
  the image. A pixel is placed on the ground by a bilinear blend of the
  corners. Each box becomes a closed ring, top-left, top-right,
  bottom-right, bottom-left, top-left, written with the id `weed_<k>`.
- **Georeferenced tiled mode** (`backend/main.py`, copied in
  `app/detection.py`). The raster is cut into `slice_size` × `slice_size`
  tiles, row offset outer and column offset inner. Each tile gets the
  parent transform translated to its origin, and a file name built from
  its origin. The detector's boxes on each tile are truncated to integers
  by `int()`. Only class "weeds" is kept, tagged with the tile's
  transform. Every kept box's corners are projected at pixel centres
  (`xy(..., offset='center')`) into one ring per box. Ids are numbered
  across all tiles.

Modules, one per file:

- `Geometry`: points, the six-coefficient affine map, the window
  transform and the pixel-centre projection.
- `Decimal`: Python's `str()` of an integer, with a parser that inverts it.
- `Shapefile`: the writer as a class holding its fields, shapes and
  records.
- `PlainImage`: `utils.py`.
- `Tiling`: the tile grid.
- `Detection`: truncation, the class filter and accumulation.
- `Projection`: the ground ring of a kept box.
- `Backend`: the three functions of `backend/main.py` as methods.
- `AppDetection`: the application's copy of those functions and its
  configuration.

The model takes these things as parameters:

- The raster is its width, height and transform.
- The detector is a function from a slice's file name to the boxes it
  reports. Each box has its corners and its class label as floats.
- The written shapefile is the `Writer` object the pipeline leaves behind.

Error conditions of the source become preconditions:

- `range()` with step 0 raises `ValueError`, so `sliceSize != 0`.
- A class index outside -4..3 raises `IndexError` on the four-entry class
  list, so labels must be valid.
- A zero image width or height is a division by zero, but only once a box
  is converted, so it is excluded only when there are boxes.
- A negative tile size gives an empty range and no slices. It is modelled,
  not excluded.

Behaviour of the code worth stating outright:

- The code projects the pixel centre, not the pixel corner. Under the
  tile transform (0.001, 0, -48.886, 0, -0.001, -20.590) the top-left
  corner of box (10, 10, 50, 50) lands at `(-48.8755, -20.6005)`, not at
  the uncentred `(-48.876, -20.600)`. `Projection.CentreOffsetScenario`
  proves both facts.
- The code rejects neither zero-area boxes nor non-finite coordinates:
  zero-area boxes are written like any other
  (`Projection.DegenerateBoxZeroArea`).
- Class index -2 also resolves to "weeds" under Python's negative
  indexing. The model keeps such boxes, as the code does
  (`Detection.WeedsClass`).

## Model

| member | source | states |
|---|---|---|
| PlainImage.ConvertPixelToLatLon | utils.py:12-23 | definition: longitude interpolated along the top and bottom edges by x / width, then between them by y / height; latitude along the left and right edges by y / height, then between them by x / width; both sizes non-zero |
| PlainImage.BoxRing | utils.py:30-39 | definition: the ring top-left, top-right, bottom-right, bottom-left, top-left of one box, each corner converted with image_shape read as (width, height) |
| PlainImage.ConvertIsBilinear | utils.py:12-23 | both output coordinates are the bilinear blend of the four corners at (x / width, y / height); edge-first interpolation in either order gives it |
| PlainImage.CornersExact | utils.py:13-23 | pixel (0,0) maps exactly to top-left, (W,0) to top-right, (W,H) to bottom-right, (0,H) to bottom-left |
| PlainImage.CentreIsMean | utils.py:15-21 | pixel (W/2, H/2) maps to the mean of the four corners, in lon and in lat |
| PlainImage.AffineAlongRow | utils.py:15-21 | for fixed y, lon and lat both move linearly from the left-edge to the right-edge value in proportion to x / width |
| PlainImage.AffineAlongColumn | utils.py:15-21 | for fixed x, lon and lat both move linearly from the top-edge to the bottom-edge value in proportion to y / height |
| PlainImage.WholeImageRing | utils.py:30-39 | image_shape is (width, height): the full-image box becomes exactly the given corners TL, TR, BR, BL, TL |
| PlainImage.BoxRingVertices | utils.py:33-39 | each box ring has 5 points, first equals last, and its vertices are the converted (x1,y1), (x2,y1), (x2,y2), (x1,y2) |
| PlainImage.CreateShapefileWithLatLon | utils.py:26-43 | a fresh closed writer at the given path with the single field ('id', 'C'), declared before any record since Shapefile.Writer.Field requires none yet; one one-part polygon and one record `weed_k` per box, in input order; sizes must be non-zero only when there are boxes |
| Shapefile.Writer.constructor | utils.py:27 | a new writer for the path has no fields, shapes or records |
| Shapefile.Writer.Field | utils.py:28 | on an open writer with no records yet (fields precede records), appends the field descriptor with the default size 50 and no decimals; nothing else changes |
| Shapefile.Writer.Poly | utils.py:40 | on an open writer, appends one shape; nothing else changes |
| Shapefile.Writer.Record | utils.py:41 | on an open writer, appends one record; nothing else changes |
| Shapefile.Writer.Close | utils.py:43 | marks the dataset closed; its contents are unchanged |
| Shapefile.RecordId | backend/main.py:86 | definition: the record value `weed_{k}` for the box at position k |
| Shapefile.RecordIdInjective | backend/main.py:86 | `weed_{k1}` equals `weed_{k2}` exactly when k1 = k2: ids are one-to-one with positions |
| Decimal.NatToString | backend/main.py:86 | str() of a natural number: at least one character, all of them digits, and a single digit exactly for values below 10 |
| Decimal.IntToString | backend/main.py:68 | definition: str() of an integer, a minus sign before the digits of its magnitude when negative |
| Decimal.ParseNatToString | backend/main.py:86 | the decimal rendering of a natural number reads back as that number |
| Decimal.NatToStringInjective | backend/main.py:86 | distinct natural numbers render as distinct digit strings, and conversely |
| Decimal.IntToStringInjective | backend/main.py:68 | distinct integers render as distinct strings, and no rendering contains '_' |
| Geometry.Apply | backend/main.py:64-65 | definition: the affine map x = a·col + b·row + c, y = d·col + e·row + f |
| Geometry.WindowTransform | backend/main.py:64-65 | definition: rasterio.windows.transform of Window(j, i, ...): the linear part kept, the translation moved to the parent's map at (col j, row i) |
| Geometry.PixelCentreXY | backend/main.py:79-82 | definition: rasterio.transform.xy(t, row, col, offset='center'), row first, the map applied at (col + 0.5, row + 0.5) |
| Geometry.WindowTranslation | backend/main.py:64-65 | the tile transform maps tile pixel (col, row) to where the parent maps (col + j, row + i), and keeps a, b, d, e |
| Geometry.WholeRasterWindow | backend/main.py:64-65 | the window at (0, 0) has the parent's transform |
| Geometry.WindowCompose | backend/main.py:64-65 | a window of a window is the window at the summed offsets |
| Geometry.PixelCentreInParent | backend/main.py:79-82 | the centre of tile pixel (row, col) is the parent's point at (col + j + 0.5, row + i + 0.5) |
| Tiling.Range | backend/main.py:62-63 | definition: Python's range(start, stop, step) for a non-zero step of either sign |
| Tiling.TileGrid | backend/main.py:62-63 | definition: the (i, j) origins the nested loops visit, each row offset in turn with every column offset |
| Tiling.SliceName | backend/main.py:68 | definition: the file name `slices/slice_{i}_{j}.png`, row offset first |
| Tiling.SliceAt | backend/main.py:64-70 | definition: the appended pair of a tile's file name and the window transform at column j, row i |
| Tiling.GridSlices | backend/main.py:62-70 | definition: the slice list slice_geotiff returns, one SliceAt per grid origin in visit order |
| Tiling.RangeLength | backend/main.py:62-63 | range(s, e, step) with step > 0 has ceil((e - s) / step) members, none if s >= e |
| Tiling.RangeAt | backend/main.py:62-63 | member k of a positive-step range is s + k·step |
| Tiling.RangeInjective | backend/main.py:62-63 | a positive-step range never repeats a value |
| Tiling.NegativeStepRangeEmpty | backend/main.py:62-63 | with a negative step the loops run zero times |
| Tiling.RangeCount | backend/main.py:62-63 | range(0, n, T) has ceil(n / T) members |
| Tiling.RangeMembers | backend/main.py:62-63 | the offsets visited are exactly the multiples of T in [0, n) |
| Tiling.VisitOrderAt | backend/main.py:62-70 | the nested loops append origin (rows[r], cols[c]) at position r·len(cols) + c, and append len(rows)·len(cols) origins |
| Tiling.VisitOrderSplit | backend/main.py:62-70 | every appended origin is some (rows[r], cols[c]) at position r·len(cols) + c |
| Tiling.TileCount | backend/main.py:62-70 | the slice list has ceil(H/T)·ceil(W/T) entries for T > 0 and none for T < 0 |
| Tiling.TileGridRowMajor | backend/main.py:62-70 | entry r·ceil(W/T) + c is the origin (row r·T, column c·T) |
| Tiling.TileOriginsInRaster | backend/main.py:62-64 | every origin is inside the raster and a multiple of T in both axes |
| Tiling.TileCoverage | backend/main.py:62-64 | every pixel of the raster lies in the T × T window of some tile |
| Tiling.TilesDisjoint | backend/main.py:62-64 | no pixel lies in the windows of two different tiles |
| Tiling.OriginOfPixel | backend/main.py:62-64 | a grid origin whose window holds a pixel is that pixel's rounded-down multiple of T |
| Tiling.TileGridDistinct | backend/main.py:62-63 | distinct positions in the slice list hold distinct origins |
| Tiling.SplitAtMarker | backend/main.py:68 | splitting a string at a marker that the prefix cannot contain is unique |
| Tiling.SliceNameInjective | backend/main.py:68 | `slices/slice_{i}_{j}.png` determines (i, j), row offset first, and conversely |
| Tiling.SliceNamesDistinct | backend/main.py:62-69 | two different tiles of a grid never get the same file name, so no tile overwrites another |
| Tiling.GridSliceNamesDistinct | backend/main.py:62-70 | in the whole slice list, equal file names mean equal positions |
| Tiling.SixByFourThousand | backend/main.py:62-63 | a 6000 × 4000 raster at T = 3000 gives the origins (0,0), (0,3000), (3000,0), (3000,3000) in that order |
| Detection.ClassName | backend/main.py:34 | class_names[k] with Python's negative indices: the result is one of the four class names |
| Detection.IsWeeds | backend/main.py:109 | definition: the filter `class_names[int(label)] == "weeds"` |
| Detection.Keep | backend/main.py:102-111 | definition: the tuple appended for a kept box, its corners truncated by int() and tagged with the slice's transform |
| Detection.TileWeeds | backend/main.py:100-111 | definition: the boxes the inner loop appends for one slice, in detector order |
| Detection.WeedBoxes | backend/main.py:95-111 | definition: weed_bboxes after the outer loop, each slice's kept boxes in slice order |
| Detection.Trunc | backend/main.py:102-105 | int() on a float: the result is within one of the value, toward zero, on either side of zero |
| Detection.TruncNonNegative | backend/main.py:102-105 | for non-negative coordinates, truncation is the floor |
| Detection.TruncOdd | backend/main.py:102-105 | truncation is symmetric about zero |
| Detection.KeepNonNegative | backend/main.py:101-111 | a kept box with non-negative corners holds their floors and the tile's transform |
| Detection.WeedsClass | backend/main.py:109 | `class_names[int(label)] == "weeds"` exactly when int(label) is 2, or -2 by negative indexing |
| Detection.TileWeedsAppend | backend/main.py:100-111 | filtering one slice's boxes distributes over concatenation: kept boxes keep the detector's order |
| Detection.TileWeedsMembers | backend/main.py:100-111 | a box is kept from a slice exactly when it is a weeds box of that slice, truncated and tagged with the slice's transform |
| Detection.TileWeedsLength | backend/main.py:100-111 | no more boxes are kept than reported, and none when no box is "weeds" |
| Detection.WeedBoxesAppend | backend/main.py:95-111 | accumulation over slices concatenates per-slice results, so later slices' boxes follow earlier ones |
| Detection.WeedBoxesMembers | backend/main.py:95-111 | a box is accumulated exactly when some slice reports a weeds box truncating to it, and it carries that slice's transform |
| Detection.NoWeedsNoBoxes | backend/main.py:95-111 | with no weeds box in any slice nothing is accumulated; together with the ensures of Backend.DetectWeedsInSlices the written shapefile then holds the id field and no shapes or records |
| Projection.GeoRing | backend/main.py:79-84 | definition: the ring top-left, top-right, bottom-right, bottom-left, top-left, each corner rasterio.transform.xy at the pixel centre with the row first |
| Projection.GeoRingVertices | backend/main.py:79-84 | the ring has 5 points, first equals last, and corner (x, y) is projected at (x + 0.5, y + 0.5) with the column first: TL, TR, BR, BL |
| Projection.GeoRingInParent | backend/main.py:79-84 | a box from the tile at (i, j) projects to the parent's points at (x + j + 0.5, y + i + 0.5) |
| Projection.GeoRingFromTile | backend/main.py:79-84 | every box tagged with a tile's window transform satisfies the tile-to-parent relation for all four corners |
| Projection.GeoRingArea | backend/main.py:79-85 | the ring's shoelace sum is 2·(a·e − b·d)·(x2 − x1)·(y2 − y1) |
| Projection.NorthUpClockwise | backend/main.py:79-85 | for a north-up transform and a box of positive extent the ring is clockwise |
| Projection.DegenerateBoxZeroArea | backend/main.py:79-85 | a zero-width or zero-height box gives a zero-area ring, which is written all the same |
| Projection.CentreOffsetScenario | backend/main.py:79-82 | for the transform (0.001, 0, −48.886, 0, −0.001, −20.590) and box (10,10,50,50), TL is (−48.8755, −20.6005), not the uncentred corner |
| Backend.SliceGeotiff | backend/main.py:55-71 | the slices are those of the row-major grid, each named for (i, j) with the window transform at (j, i); ceil(H/T)·ceil(W/T) of them; none for T < 0; all names distinct |
| Backend.CreateShapefileWithLatLon | backend/main.py:74-88 | a fresh closed writer with the single field ('id', 'C'), declared before any record; polygon k is the centre-offset ring of box k and record k is `weed_k`; zero boxes give zero records |
| Backend.AppendSliceWeeds | backend/main.py:100-111 | the inner loop appends exactly the slice's weeds boxes, truncated and tagged with its transform, in order |
| Backend.DetectWeedsInSlices | backend/main.py:91-117 | the shapefile at `weed_detections.shp` holds one polygon and one record `weed_k` per accumulated weeds box, numbered across all slices |
| Backend.CollectedRingInRaster | backend/main.py:62-84 | every box collected from a raster's slices is a weeds box the detector reported for the tile at some grid origin, truncated and tagged with that tile's window transform, and its ring is the box shifted by the origin and projected by the raster's own transform |
| AppDetection.SliceGeotiff | app/detection.py:30-46 | as in the service: the row-major grid of slices with their names and window transforms, ceil(H/T)·ceil(W/T) of them, names distinct, default T = 3000 |
| AppDetection.CreateShapefileWithLatLon | app/detection.py:49-63 | as in the service: one centre-offset ring and one `weed_k` record per box, with the single 'id' field |
| AppDetection.DetectWeedsInSlices | app/detection.py:66-92 | returns nothing; leaves the shapefile `weed_detections.shp` with one ring and record per accumulated weeds box |
| AppDetection.DefaultsAgree | app/detection.py:16-30 | the packaging base name plus `.shp` is the shapefile's default path, and the tile size both SliceGeotiff methods take by default is 3000 in the app and in the service |

## Left out

- The web layer: FastAPI endpoints, the websocket connection manager and the progress messages. These are network I/O.
- The detector (YOLO and its `predict` call). It is a parameter, a function from slice file name to reported boxes.
- Raster and image I/O: `rasterio.open`, `dataset.read`, PIL decoding and saving of slice images, and cv2 drawing and writing of annotated tiles. They are file I/O and cosmetic.
- The box confidence `conf`: read by the loop but never used.
- The unused `img_width, img_height` of `detect_weeds_in_slices`.
- Edge tiles: the code always asks for a T × T window, and clipping at the raster edge happens inside the raster read. The tile transform does not depend on the clipped extent, so the model does not track it.
- The binary .shp/.shx/.dbf encoding done by pyshp, and shapely's `Polygon`. The writer is modelled as the list of fields, shapes and records it would write, and a ring's exterior coordinates as the ring itself.
- Floating point: coordinates are real numbers. IEEE-754 rounding of the blend, the affine map and `int()` is not modelled.
- Zip creation and cleanup in `app/detection.py`, the bucket upload and the user-record insert. These are filesystem and network I/O. Only the file-name agreement with the shapefile path is modelled (`AppDetection.DefaultsAgree`).
- `async`: the application's functions are coroutines. Their awaited steps run in order, which is what the methods model.
- `Weed_Detector.py`, a Streamlit UI, and the JavaScript front ends.
- Backend.AppendSliceWeeds: the inner box loop of `detect_weeds_in_slices` is its own method here. It appends to the accumulated list exactly as the inline loop does.
