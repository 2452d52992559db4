/** What detect_weeds_in_slices keeps from the detector: each raw box's
    corners truncated to integers by int(), its label looked up in the
    four-entry class list, and only "weeds" kept, tagged with the transform
    of the tile it was found in. The kept boxes accumulate tile by tile in
    the order the slices are given, then box by box within a tile. */
module Detection {
  import opened Geometry
  import Tiling

  /** The detector's class list; index 2 is "weeds". */
  const ClassNames: seq<string> := ["citrus area", "trees", "weeds", "weeds and trees"]

  /** One box of the detector's output for a tile: the xyxy corners in tile
      pixels and the class label, both as the detector's floats. */
  datatype RawBox = RawBox(x1: real, y1: real, x2: real, y2: real, cls: real)

  /** A kept detection: integer tile-pixel corners and the tile's transform. */
  datatype WeedBox = WeedBox(x1: int, y1: int, x2: int, y2: int, transform: Affine)

  /** Python's int() on a float: rounds toward zero. */
  function Trunc(v: real): (n: int)
    ensures 0.0 <= v ==> n as real <= v < n as real + 1.0
    ensures v < 0.0 ==> n as real - 1.0 < v <= n as real
  {
    if v >= 0.0 then v.Floor else -((-v).Floor)
  }

  /** Whether class_names[int(cls)] is defined: a Python index into a list
      of four may be -4 .. 3, and any other raises IndexError. */
  predicate ValidLabel(cls: real)
  {
    -4 <= Trunc(cls) < 4
  }

  /** class_names[k], with Python's negative indices counting from the end. */
  function ClassName(k: int): (name: string)
    requires -4 <= k < 4
    ensures name in ClassNames
  {
    if k >= 0 then ClassNames[k] else ClassNames[|ClassNames| + k]
  }

  /** The filter of the inner loop: class_names[int(cls)] == "weeds". */
  predicate IsWeeds(b: RawBox)
    requires ValidLabel(b.cls)
  {
    ClassName(Trunc(b.cls)) == "weeds"
  }

  /** The tuple appended for a kept box. */
  function Keep(b: RawBox, t: Affine): WeedBox
  {
    WeedBox(Trunc(b.x1), Trunc(b.y1), Trunc(b.x2), Trunc(b.y2), t)
  }

  predicate LabelsValid(boxes: seq<RawBox>)
  {
    forall b :: b in boxes ==> ValidLabel(b.cls)
  }

  /** The boxes of one tile that the inner loop appends, in detector order. */
  function TileWeeds(boxes: seq<RawBox>, t: Affine): seq<WeedBox>
    requires LabelsValid(boxes)
  {
    if boxes == [] then []
    else
      var b := boxes[|boxes| - 1];
      TileWeeds(boxes[..|boxes| - 1], t) + (if IsWeeds(b) then [Keep(b, t)] else [])
  }

  /** Every slice's detections have labels the class list can look up. */
  predicate DetectionsValid(slices: seq<Tiling.Slice>, detect: string -> seq<RawBox>)
  {
    forall s :: s in slices ==> LabelsValid(detect(s.filename))
  }

  /** weed_bboxes after the outer loop: each slice's kept boxes, slice by
      slice. The detector is a function of the slice's file name. */
  function WeedBoxes(slices: seq<Tiling.Slice>, detect: string -> seq<RawBox>): seq<WeedBox>
    requires DetectionsValid(slices, detect)
  {
    if slices == [] then []
    else
      var s := slices[|slices| - 1];
      WeedBoxes(slices[..|slices| - 1], detect) + TileWeeds(detect(s.filename), s.transform)
  }

  // ---------------------------------------------------------------- the filter

  /** A box is kept exactly when it truncates to class 2, or to -2, which
      Python's negative indexing also resolves to "weeds". */
  lemma WeedsClass(cls: real)
    requires ValidLabel(cls)
    ensures ClassName(Trunc(cls)) == "weeds" <==> Trunc(cls) == 2 || Trunc(cls) == -2
  {
    assert ClassNames[0] != "weeds" && ClassNames[1] != "weeds" && ClassNames[3] != "weeds";
  }

  /** For the non-negative values a detector produces, int() is the floor. */
  lemma TruncNonNegative(v: real)
    requires v >= 0.0
    ensures Trunc(v) == v.Floor
  {
  }

  /** int() is symmetric about zero, unlike the floor. */
  lemma TruncOdd(v: real)
    ensures Trunc(-v) == -Trunc(v)
  {
  }

  /** A kept box with non-negative corners holds their floors. */
  lemma KeepNonNegative(b: RawBox, t: Affine)
    requires b.x1 >= 0.0 && b.y1 >= 0.0 && b.x2 >= 0.0 && b.y2 >= 0.0
    ensures Keep(b, t) == WeedBox(b.x1.Floor, b.y1.Floor, b.x2.Floor, b.y2.Floor, t)
  {
    TruncNonNegative(b.x1);
    TruncNonNegative(b.y1);
    TruncNonNegative(b.x2);
    TruncNonNegative(b.y2);
  }

  lemma LabelsValidSplit(a: seq<RawBox>, b: seq<RawBox>)
    ensures LabelsValid(a + b) <==> LabelsValid(a) && LabelsValid(b)
  {
  }

  /** The filter distributes over concatenation, so the kept boxes keep the
      detector's order. */
  lemma {:induction false} TileWeedsAppend(a: seq<RawBox>, b: seq<RawBox>, t: Affine)
    requires LabelsValid(a) && LabelsValid(b)
    ensures LabelsValid(a + b)
    ensures TileWeeds(a + b, t) == TileWeeds(a, t) + TileWeeds(b, t)
    decreases |b|
  {
    LabelsValidSplit(a, b);
    if b != [] {
      var n := |b| - 1;
      var init := b[..n];
      assert (a + b)[..|a + b| - 1] == a + init;
      assert (a + b)[|a + b| - 1] == b[n];
      LabelsValidSplit(init, [b[n]]);
      assert init + [b[n]] == b;
      TileWeedsAppend(a, init, t);
    } else {
      assert a + b == a;
    }
  }

  /** One more step of the inner loop: the next box is appended if kept. */
  lemma TileWeedsStep(boxes: seq<RawBox>, m: nat, t: Affine)
    requires LabelsValid(boxes) && m < |boxes|
    ensures LabelsValid(boxes[..m]) && LabelsValid(boxes[..m + 1])
    ensures TileWeeds(boxes[..m + 1], t)
         == TileWeeds(boxes[..m], t) + (if IsWeeds(boxes[m]) then [Keep(boxes[m], t)] else [])
  {
    assert boxes[..m + 1][..m] == boxes[..m];
  }

  /** One more step of the outer loop: the next slice's kept boxes follow. */
  lemma WeedBoxesStep(slices: seq<Tiling.Slice>, n: nat, detect: string -> seq<RawBox>)
    requires DetectionsValid(slices, detect) && n < |slices|
    ensures DetectionsValid(slices[..n], detect) && DetectionsValid(slices[..n + 1], detect)
    ensures LabelsValid(detect(slices[n].filename))
    ensures WeedBoxes(slices[..n + 1], detect)
         == WeedBoxes(slices[..n], detect) + TileWeeds(detect(slices[n].filename), slices[n].transform)
  {
    assert slices[..n + 1][..n] == slices[..n];
    assert slices[n] in slices;
  }

  /** A box is among a tile's kept boxes exactly when it is some weeds box
      of the tile, truncated and tagged with the tile's transform. */
  lemma {:induction false} TileWeedsMembers(boxes: seq<RawBox>, t: Affine, w: WeedBox)
    requires LabelsValid(boxes)
    ensures w in TileWeeds(boxes, t) <==> exists b :: b in boxes && IsWeeds(b) && w == Keep(b, t)
    decreases |boxes|
  {
    if boxes != [] {
      var n := |boxes| - 1;
      var init, last := boxes[..n], boxes[n];
      assert boxes == init + [last];
      TileWeedsMembers(init, t, w);
      assert TileWeeds(boxes, t) == TileWeeds(init, t) + (if IsWeeds(last) then [Keep(last, t)] else []);
      if exists b :: b in boxes && IsWeeds(b) && w == Keep(b, t) {
        var b :| b in boxes && IsWeeds(b) && w == Keep(b, t);
        assert b in init || b == last;
      }
    }
  }

  /** No more boxes are kept than the detector returned. */
  lemma {:induction false} TileWeedsLength(boxes: seq<RawBox>, t: Affine)
    requires LabelsValid(boxes)
    ensures |TileWeeds(boxes, t)| <= |boxes|
    ensures (forall b :: b in boxes ==> !IsWeeds(b)) ==> TileWeeds(boxes, t) == []
    decreases |boxes|
  {
    if boxes != [] {
      var init := boxes[..|boxes| - 1];
      assert boxes == init + [boxes[|boxes| - 1]];
      TileWeedsLength(init, t);
    }
  }

  // ---------------------------------------------------------------- accumulation

  lemma DetectionsValidSplit(a: seq<Tiling.Slice>, b: seq<Tiling.Slice>, detect: string -> seq<RawBox>)
    ensures DetectionsValid(a + b, detect) <==> DetectionsValid(a, detect) && DetectionsValid(b, detect)
  {
  }

  /** Accumulation over a list of slices is accumulation over each part in
      turn: the kept boxes of later slices follow those of earlier ones,
      which is why the shapefile's numbering runs across tiles. */
  lemma {:induction false} WeedBoxesAppend(a: seq<Tiling.Slice>, b: seq<Tiling.Slice>, detect: string -> seq<RawBox>)
    requires DetectionsValid(a, detect) && DetectionsValid(b, detect)
    ensures DetectionsValid(a + b, detect)
    ensures WeedBoxes(a + b, detect) == WeedBoxes(a, detect) + WeedBoxes(b, detect)
    decreases |b|
  {
    DetectionsValidSplit(a, b, detect);
    if b != [] {
      var n := |b| - 1;
      var init := b[..n];
      assert (a + b)[..|a + b| - 1] == a + init;
      assert (a + b)[|a + b| - 1] == b[n];
      DetectionsValidSplit(init, [b[n]], detect);
      assert init + [b[n]] == b;
      WeedBoxesAppend(a, init, detect);
    } else {
      assert a + b == a;
    }
  }

  /** A box is accumulated exactly when some slice's detector output holds a
      weeds box that truncates to it, and it carries that slice's transform. */
  lemma {:induction false} WeedBoxesMembers(slices: seq<Tiling.Slice>, detect: string -> seq<RawBox>, w: WeedBox)
    requires DetectionsValid(slices, detect)
    ensures w in WeedBoxes(slices, detect) <==>
            exists s, b :: s in slices && b in detect(s.filename) && IsWeeds(b) && w == Keep(b, s.transform)
    decreases |slices|
  {
    if slices != [] {
      var n := |slices| - 1;
      var init, last := slices[..n], slices[n];
      assert slices == init + [last];
      WeedBoxesMembers(init, detect, w);
      TileWeedsMembers(detect(last.filename), last.transform, w);
      assert WeedBoxes(slices, detect) == WeedBoxes(init, detect) + TileWeeds(detect(last.filename), last.transform);
      if exists s, b :: s in slices && b in detect(s.filename) && IsWeeds(b) && w == Keep(b, s.transform) {
        var s, b :| s in slices && b in detect(s.filename) && IsWeeds(b) && w == Keep(b, s.transform);
        assert s in init || s == last;
      }
    }
  }

  /** With no weeds in any slice, nothing is accumulated. */
  lemma NoWeedsNoBoxes(slices: seq<Tiling.Slice>, detect: string -> seq<RawBox>)
    requires DetectionsValid(slices, detect)
    requires forall s, b :: s in slices && b in detect(s.filename) ==> !IsWeeds(b)
    ensures WeedBoxes(slices, detect) == []
  {
    if WeedBoxes(slices, detect) != [] {
      WeedBoxesMembers(slices, detect, WeedBoxes(slices, detect)[0]);
    }
  }
}
