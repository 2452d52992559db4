/** The tile grid of a georeferenced raster: the origins visited by the two
    nested range loops of slice_geotiff, the file name and the transform each
    tile gets, and the facts about that grid: its size, its row-major order,
    that its tiles cover the raster without overlap, and that no two tiles
    share a file name. */
module Tiling {
  import opened Geometry
  import Decimal

  /** Python's range(start, stop, step) for a non-zero step. */
  function Range(start: int, stop: int, step: int): seq<int>
    requires step != 0
    decreases if step > 0 then stop - start else start - stop
  {
    if (step > 0 && start < stop) || (step < 0 && start > stop) then [start] + Range(start + step, stop, step)
    else []
  }

  /** ceil(n / size): how many tiles of the given size a span of n pixels needs. */
  function CeilDiv(n: nat, size: int): nat
    requires size > 0
  {
    (n + size - 1) / size
  }

  /** A tile origin: i, the row offset, and j, the column offset. */
  datatype Origin = Origin(row: int, col: int)

  /** The origins of one pass of the inner loop, over the column offsets. */
  function RowOrigins(i: int, cols: seq<int>): seq<Origin>
  {
    seq(|cols|, k requires 0 <= k < |cols| => Origin(i, cols[k]))
  }

  /** The order the nested loops visit: for each row offset in turn, every
      column offset. */
  function VisitOrder(rows: seq<int>, cols: seq<int>): seq<Origin>
  {
    if rows == [] then [] else VisitOrder(rows[..|rows| - 1], cols) + RowOrigins(rows[|rows| - 1], cols)
  }

  /** The origins slice_geotiff visits for a height x width raster. */
  function TileGrid(height: nat, width: nat, sliceSize: int): seq<Origin>
    requires sliceSize != 0
  {
    VisitOrder(Range(0, height, sliceSize), Range(0, width, sliceSize))
  }

  /** One entry of the slice list: the saved tile's file name and its transform. */
  datatype Slice = Slice(filename: string, transform: Affine)

  /** f"slices/slice_{i}_{j}.png": the row offset comes first. */
  function SliceName(i: int, j: int): string
  {
    "slices/slice_" + Decimal.IntToString(i) + "_" + Decimal.IntToString(j) + ".png"
  }

  /** The slice of the tile at an origin: Window(j, i, ...) has column offset
      j and row offset i. */
  function SliceAt(o: Origin, t: Affine): Slice
  {
    Slice(SliceName(o.row, o.col), WindowTransform(t, o.col, o.row))
  }

  /** The slices of a list of origins, in the same order. */
  function Slices(origins: seq<Origin>, t: Affine): seq<Slice>
  {
    seq(|origins|, k requires 0 <= k < |origins| => SliceAt(origins[k], t))
  }

  /** The slices slice_geotiff produces for a height x width raster. */
  function GridSlices(height: nat, width: nat, sliceSize: int, t: Affine): seq<Slice>
    requires sliceSize != 0
  {
    Slices(TileGrid(height, width, sliceSize), t)
  }

  /** Whether the size x size window at an origin holds a pixel. */
  predicate Contains(o: Origin, size: int, row: int, col: int)
  {
    o.row <= row < o.row + size && o.col <= col < o.col + size
  }

  // ---------------------------------------------------------------- arithmetic

  lemma MulMono(a: int, b: int, m: nat)
    requires a <= b
    ensures a * m <= b * m
  {
    assert b * m - a * m == (b - a) * m;
  }

  /** One more row of m. */
  lemma MulSucc(n: int, m: int)
    ensures (n + 1) * m == n * m + m
  {
  }

  /** The sign of a product with a non-negative factor. */
  lemma MulSign(d: int, m: int)
    requires m >= 0
    ensures d >= 1 ==> d * m >= m
    ensures d >= 0 ==> d * m >= 0
    ensures d <= 0 ==> d * m <= 0
    ensures d <= -1 ==> d * m <= -m
  {
    if d >= 1 { MulMono(1, d, m); }
    if d >= 0 { MulMono(0, d, m); }
    if d <= 0 { MulMono(d, 0, m); }
    if d <= -1 { MulMono(d, -1, m); }
  }

  /** The multiple of size at or below x, and the next one above it. */
  lemma DivBounds(x: int, size: int)
    requires size > 0
    ensures x / size * size <= x < x / size * size + size
  {
    assert x == size * (x / size) + x % size;
  }

  /** Euclidean division is determined by its bounds. */
  lemma DivUnique(x: int, size: int, q: int)
    requires size > 0 && q * size <= x < q * size + size
    ensures x / size == q
  {
    var q' := x / size;
    assert q' * size <= x < q' * size + size;
    assert (q' - q) * size == q' * size - q * size;
    MulSign(q' - q, size);
  }

  // ---------------------------------------------------------------- ranges

  /** A positive-step range from s below e has ceil((e - s) / step) members. */
  lemma {:induction false} RangeLength(s: int, e: int, step: int)
    requires step > 0
    ensures |Range(s, e, step)| == if s < e then (e - s + step - 1) / step else 0
    decreases e - s
  {
    if s < e {
      RangeLength(s + step, e, step);
      if s + step < e {
        var q := (e - s - 1) / step;
        assert (q + 1) * step == q * step + step;
        DivUnique(e - s + step - 1, step, q + 1);
      } else {
        DivUnique(e - s + step - 1, step, 1);
      }
    }
  }

  /** Its k-th member is s + k * step. */
  lemma {:induction false} RangeAt(s: int, e: int, step: int, k: nat)
    requires step > 0 && k < |Range(s, e, step)|
    ensures Range(s, e, step)[k] == s + k * step
    decreases k
  {
    if k > 0 {
      RangeAt(s + step, e, step, k - 1);
      assert (k - 1) * step + step == k * step;
    }
  }

  /** A positive-step range never repeats a member. */
  lemma RangeInjective(s: int, e: int, step: int, k1: nat, k2: nat)
    requires step > 0 && k1 < |Range(s, e, step)| && k2 < |Range(s, e, step)|
    ensures Range(s, e, step)[k1] == Range(s, e, step)[k2] ==> k1 == k2
  {
    RangeAt(s, e, step, k1);
    RangeAt(s, e, step, k2);
    if Range(s, e, step)[k1] == Range(s, e, step)[k2] {
      assert (k1 - k2) * step == k1 * step - k2 * step == 0;
      MulSign(k1 - k2, step);
    }
  }

  /** range(0, n, step) with a negative step is empty when n >= 0. */
  lemma NegativeStepRangeEmpty(n: nat, step: int)
    requires step < 0
    ensures Range(0, n, step) == []
  {
  }

  /** range(0, n, step), step > 0, has ceil(n / step) members. */
  lemma RangeCount(n: nat, step: int)
    requires step > 0
    ensures |Range(0, n, step)| == CeilDiv(n, step)
  {
    RangeLength(0, n, step);
    if n == 0 {
      assert (step - 1) / step == 0;
    }
  }

  lemma RangeMemberIsMultiple(n: nat, step: int, k: nat)
    requires step > 0 && k < |Range(0, n, step)|
    ensures var x := Range(0, n, step)[k]; 0 <= x < n && x % step == 0
  {
    RangeAt(0, n, step, k);
    DivUnique(k * step, step, k);
    assert Range(0, n, step)[k] in Range(0, n, step);
    RangeBelowStop(0, n, step, Range(0, n, step)[k]);
  }

  lemma {:induction false} RangeBelowStop(s: int, e: int, step: int, x: int)
    requires step > 0 && x in Range(s, e, step)
    ensures s <= x < e
    decreases e - s
  {
    if x != s {
      RangeBelowStop(s + step, e, step, x);
    }
  }

  /** The k-th multiple of step below n is the k-th member of the range. */
  lemma RangeIndexOf(n: nat, step: int, k: nat)
    requires step > 0 && k * step < n
    ensures k < |Range(0, n, step)| && Range(0, n, step)[k] == k * step
  {
    var r := Range(0, n, step);
    assert k < |r| by {
      RangeLength(0, n, step);
      var m := |r|;
      assert m * step + step > n + step - 1;
      assert (m - k) * step == m * step - k * step > 0;
      MulSign(m - k, step);
    }
    RangeAt(0, n, step, k);
  }

  lemma MultipleIsRangeMember(n: nat, step: int, x: int)
    requires step > 0 && 0 <= x < n && x % step == 0
    ensures x in Range(0, n, step)
  {
    var k := x / step;
    assert k * step == x;
    RangeIndexOf(n, step, k);
  }

  /** The members of range(0, n, step), step > 0, are exactly the multiples of
      step in [0, n). */
  lemma RangeMembers(n: nat, step: int, x: int)
    requires step > 0
    ensures x in Range(0, n, step) <==> 0 <= x < n && x % step == 0
  {
    if x in Range(0, n, step) {
      var k :| 0 <= k < |Range(0, n, step)| && Range(0, n, step)[k] == x;
      RangeMemberIsMultiple(n, step, k);
    }
    if 0 <= x < n && x % step == 0 {
      MultipleIsRangeMember(n, step, x);
    }
  }

  // ---------------------------------------------------------------- visit order

  /** The visit order is row-major: entry r * |cols| + c is (rows[r], cols[c]). */
  lemma {:induction false} VisitOrderAt(rows: seq<int>, cols: seq<int>, r: nat, c: nat)
    requires r < |rows| && c < |cols|
    ensures |VisitOrder(rows, cols)| == |rows| * |cols|
    ensures r * |cols| + c < |VisitOrder(rows, cols)|
    ensures VisitOrder(rows, cols)[r * |cols| + c] == Origin(rows[r], cols[c])
    decreases |rows|
  {
    var n, m := |rows| - 1, |cols|;
    var init := rows[..n];
    var front, last := VisitOrder(init, cols), RowOrigins(rows[n], cols);
    assert VisitOrder(rows, cols) == front + last;
    VisitOrderLength(init, cols);
    MulSucc(n, m);
    assert |front + last| == n * m + m;
    if r < n {
      VisitOrderAt(init, cols, r, c);
      assert init[r] == rows[r];
      assert (front + last)[r * m + c] == front[r * m + c];
    } else {
      assert r * m + c == n * m + c;
      assert (front + last)[n * m + c] == last[c];
    }
  }

  lemma {:induction false} VisitOrderLength(rows: seq<int>, cols: seq<int>)
    ensures |VisitOrder(rows, cols)| == |rows| * |cols|
    decreases |rows|
  {
    if rows != [] {
      var n := |rows| - 1;
      VisitOrderLength(rows[..n], cols);
      MulSucc(n, |cols|);
      assert |VisitOrder(rows, cols)| == |VisitOrder(rows[..n], cols)| + |cols|;
    }
  }

  /** Every entry of the visit order is some (rows[r], cols[c]) at position
      r * |cols| + c. */
  lemma VisitOrderSplit(rows: seq<int>, cols: seq<int>, k: nat) returns (r: nat, c: nat)
    requires k < |VisitOrder(rows, cols)|
    ensures r < |rows| && c < |cols| && k == r * |cols| + c
    ensures VisitOrder(rows, cols)[k] == Origin(rows[r], cols[c])
  {
    VisitOrderLength(rows, cols);
    var m := |cols|;
    assert m > 0 by {
      assert m == 0 ==> |rows| * m == 0;
    }
    r, c := k / m, k % m;
    assert k == r * m + c;
    assert (r - |rows|) * m == r * m - |rows| * m;
    MulSign(r - |rows|, m);
    VisitOrderAt(rows, cols, r, c);
  }

  // ---------------------------------------------------------------- the grid

  /** The grid has ceil(H / T) * ceil(W / T) tiles for a positive size, and
      none for a negative one. */
  lemma TileCount(height: nat, width: nat, sliceSize: int)
    requires sliceSize != 0
    ensures sliceSize > 0 ==> |TileGrid(height, width, sliceSize)| == CeilDiv(height, sliceSize) * CeilDiv(width, sliceSize)
    ensures sliceSize < 0 ==> TileGrid(height, width, sliceSize) == []
  {
    if sliceSize > 0 {
      RangeCount(height, sliceSize);
      RangeCount(width, sliceSize);
      VisitOrderLength(Range(0, height, sliceSize), Range(0, width, sliceSize));
    } else {
      NegativeStepRangeEmpty(height, sliceSize);
    }
  }

  /** Row-major order: tile r * ceil(W / T) + c has origin (r * T, c * T). */
  lemma TileGridRowMajor(height: nat, width: nat, sliceSize: int, r: nat, c: nat)
    requires sliceSize > 0
    requires r < CeilDiv(height, sliceSize) && c < CeilDiv(width, sliceSize)
    ensures var g := TileGrid(height, width, sliceSize);
            r * CeilDiv(width, sliceSize) + c < |g|
            && g[r * CeilDiv(width, sliceSize) + c] == Origin(r * sliceSize, c * sliceSize)
  {
    var rows, cols := Range(0, height, sliceSize), Range(0, width, sliceSize);
    RangeCount(height, sliceSize);
    RangeCount(width, sliceSize);
    VisitOrderAt(rows, cols, r, c);
    RangeAt(0, height, sliceSize, r);
    RangeAt(0, width, sliceSize, c);
  }

  /** Every tile origin is inside the raster, on a multiple of the tile size. */
  lemma TileOriginsInRaster(height: nat, width: nat, sliceSize: int, k: nat)
    requires sliceSize > 0 && k < |TileGrid(height, width, sliceSize)|
    ensures var o := TileGrid(height, width, sliceSize)[k];
            0 <= o.row < height && 0 <= o.col < width
            && o.row % sliceSize == 0 && o.col % sliceSize == 0
  {
    var rows, cols := Range(0, height, sliceSize), Range(0, width, sliceSize);
    var r, c := VisitOrderSplit(rows, cols, k);
    RangeMembers(height, sliceSize, rows[r]);
    RangeMembers(width, sliceSize, cols[c]);
  }

  /** The range member at index x / step is the start of the span holding x. */
  lemma SpanOf(n: nat, step: int, x: int)
    requires step > 0 && 0 <= x < n
    ensures x / step < |Range(0, n, step)|
    ensures Range(0, n, step)[x / step] <= x < Range(0, n, step)[x / step] + step
  {
    DivBounds(x, step);
    RangeIndexOf(n, step, x / step);
  }

  /** Each pixel of the raster lies in some tile. */
  lemma TileCoverage(height: nat, width: nat, sliceSize: int, row: int, col: int)
    requires sliceSize > 0 && 0 <= row < height && 0 <= col < width
    ensures exists k :: 0 <= k < |TileGrid(height, width, sliceSize)|
                        && Contains(TileGrid(height, width, sliceSize)[k], sliceSize, row, col)
  {
    var rows, cols := Range(0, height, sliceSize), Range(0, width, sliceSize);
    var r, c := row / sliceSize, col / sliceSize;
    SpanOf(height, sliceSize, row);
    SpanOf(width, sliceSize, col);
    VisitOrderAt(rows, cols, r, c);
    var g := TileGrid(height, width, sliceSize);
    var k := r * |cols| + c;
    assert g[k] == Origin(rows[r], cols[c]);
    assert Contains(g[k], sliceSize, row, col);
  }

  /** No pixel lies in two tiles. */
  lemma TilesDisjoint(height: nat, width: nat, sliceSize: int, k1: nat, k2: nat, row: int, col: int)
    requires sliceSize > 0
    requires k1 < |TileGrid(height, width, sliceSize)| && k2 < |TileGrid(height, width, sliceSize)|
    requires Contains(TileGrid(height, width, sliceSize)[k1], sliceSize, row, col)
    requires Contains(TileGrid(height, width, sliceSize)[k2], sliceSize, row, col)
    ensures k1 == k2
  {
    var g := TileGrid(height, width, sliceSize);
    TileOriginsInRaster(height, width, sliceSize, k1);
    TileOriginsInRaster(height, width, sliceSize, k2);
    OriginOfPixel(g[k1], sliceSize, row, col);
    OriginOfPixel(g[k2], sliceSize, row, col);
    TileGridDistinct(height, width, sliceSize, k1, k2);
  }

  /** An origin on multiples of the size that holds a pixel is the pixel's
      own tile origin. */
  lemma OriginOfPixel(o: Origin, size: int, row: int, col: int)
    requires size > 0 && o.row % size == 0 && o.col % size == 0 && Contains(o, size, row, col)
    ensures o == Origin(row / size * size, col / size * size)
  {
    DivUnique(row, size, o.row / size);
    DivUnique(col, size, o.col / size);
  }

  /** Distinct positions of the grid hold distinct origins. */
  lemma TileGridDistinct(height: nat, width: nat, sliceSize: int, k1: nat, k2: nat)
    requires sliceSize > 0
    requires k1 < |TileGrid(height, width, sliceSize)| && k2 < |TileGrid(height, width, sliceSize)|
    ensures TileGrid(height, width, sliceSize)[k1] == TileGrid(height, width, sliceSize)[k2] ==> k1 == k2
  {
    var rows, cols := Range(0, height, sliceSize), Range(0, width, sliceSize);
    var r1, c1 := VisitOrderSplit(rows, cols, k1);
    var r2, c2 := VisitOrderSplit(rows, cols, k2);
    RangeInjective(0, height, sliceSize, r1, r2);
    RangeInjective(0, width, sliceSize, c1, c2);
  }

  // ---------------------------------------------------------------- file names

  /** If a + [m] + b == a' + [m] + b' and the marker m occurs in neither a nor
      a', the two splits are the same. */
  lemma SplitAtMarker(a: string, b: string, a': string, b': string, m: char)
    requires m !in a && m !in a' && a + [m] + b == a' + [m] + b'
    ensures a == a' && b == b'
  {
    var s, s' := a + [m] + b, a' + [m] + b';
    assert forall k :: 0 <= k < |a| ==> s[k] == a[k] != m;
    assert forall k :: 0 <= k < |a'| ==> s'[k] == a'[k] != m;
    assert s[|a|] == m && s'[|a'|] == m;
    assert |a| == |a'|;
    assert a == s[..|a|] && a' == s'[..|a'|];
    assert b == s[|a| + 1..] && b' == s'[|a'| + 1..];
  }

  /** A tile's file name determines its origin, so no tile overwrites another. */
  lemma SliceNameInjective(i: int, j: int, i': int, j': int)
    ensures SliceName(i, j) == SliceName(i', j') <==> i == i' && j == j'
  {
    if SliceName(i, j) == SliceName(i', j') {
      var p := "slices/slice_";
      var si, sj, si', sj' := Decimal.IntToString(i), Decimal.IntToString(j), Decimal.IntToString(i'), Decimal.IntToString(j');
      var n, n' := SliceName(i, j), SliceName(i', j');
      assert n == p + (si + ['_'] + sj) + ".png";
      assert n' == p + (si' + ['_'] + sj') + ".png";
      assert si + ['_'] + sj == n[|p|..|n| - 4] == n'[|p|..|n'| - 4] == si' + ['_'] + sj';
      Decimal.IntToStringInjective(i, i');
      Decimal.IntToStringInjective(i', i);
      Decimal.IntToStringInjective(j, j');
      SplitAtMarker(si, sj, si', sj', '_');
    }
  }

  /** The slices of distinct grid positions have distinct file names. */
  lemma SliceNamesDistinct(height: nat, width: nat, sliceSize: int, t: Affine, k1: nat, k2: nat)
    requires sliceSize > 0
    requires k1 < |TileGrid(height, width, sliceSize)| && k2 < |TileGrid(height, width, sliceSize)|
    requires k1 != k2
    ensures SliceAt(TileGrid(height, width, sliceSize)[k1], t).filename
         != SliceAt(TileGrid(height, width, sliceSize)[k2], t).filename
  {
    var g := TileGrid(height, width, sliceSize);
    TileGridDistinct(height, width, sliceSize, k1, k2);
    SliceNameInjective(g[k1].row, g[k1].col, g[k2].row, g[k2].col);
  }

  /** No two slices of the grid share a file name. */
  lemma GridSliceNamesDistinct(height: nat, width: nat, sliceSize: int, t: Affine)
    requires sliceSize != 0
    ensures var s := GridSlices(height, width, sliceSize, t);
            forall k1, k2 :: 0 <= k1 < |s| && 0 <= k2 < |s| && s[k1].filename == s[k2].filename ==> k1 == k2
  {
    var s := GridSlices(height, width, sliceSize, t);
    if sliceSize < 0 {
      TileCount(height, width, sliceSize);
    } else {
      forall k1: nat, k2: nat | k1 < |s| && k2 < |s| && k1 != k2
        ensures s[k1].filename != s[k2].filename
      {
        SliceNamesDistinct(height, width, sliceSize, t, k1, k2);
      }
    }
  }

  /** Slices of concatenated origin lists concatenate. */
  lemma SlicesAppend(a: seq<Origin>, b: seq<Origin>, t: Affine)
    ensures Slices(a + b, t) == Slices(a, t) + Slices(b, t)
  {
    var l, r := Slices(a + b, t), Slices(a, t) + Slices(b, t);
    assert |l| == |r|;
    forall k | 0 <= k < |l|
      ensures l[k] == r[k]
    {
      if k < |a| {
        assert (a + b)[k] == a[k];
      } else {
        assert (a + b)[k] == b[k - |a|];
      }
    }
  }

  /** One more column offset adds one origin to the row. */
  lemma RowOriginsSnoc(i: int, cols: seq<int>, c: nat)
    requires c < |cols|
    ensures RowOrigins(i, cols[..c + 1]) == RowOrigins(i, cols[..c]) + [Origin(i, cols[c])]
  {
  }

  /** One more step of the inner loop adds the slice at (i, cols[c]). */
  lemma SlicesRowStep(done: seq<Origin>, i: int, cols: seq<int>, c: nat, t: Affine)
    requires c < |cols|
    ensures Slices(done + RowOrigins(i, cols[..c + 1]), t)
         == Slices(done + RowOrigins(i, cols[..c]), t) + [SliceAt(Origin(i, cols[c]), t)]
  {
    RowOriginsSnoc(i, cols, c);
    assert done + RowOrigins(i, cols[..c + 1]) == (done + RowOrigins(i, cols[..c])) + [Origin(i, cols[c])];
    SlicesAppend(done + RowOrigins(i, cols[..c]), [Origin(i, cols[c])], t);
  }

  /** The visit order of one more row offset ends with that row. */
  lemma VisitOrderSnoc(rows: seq<int>, cols: seq<int>, r: nat)
    requires r < |rows|
    ensures VisitOrder(rows[..r + 1], cols) == VisitOrder(rows[..r], cols) + RowOrigins(rows[r], cols)
  {
    assert rows[..r + 1][..r] == rows[..r];
  }

  /** A 6000 x 4000 raster at tile size 3000: two row offsets and two column
      offsets, four tiles, visited row by row. */
  lemma SixByFourThousand()
    ensures TileGrid(4000, 6000, 3000) == [Origin(0, 0), Origin(0, 3000), Origin(3000, 0), Origin(3000, 3000)]
  {
    assert Range(0, 4000, 3000) == [0, 3000];
    assert Range(0, 6000, 3000) == [0, 3000];
    var cols := [0, 3000];
    assert RowOrigins(0, cols) == [Origin(0, 0), Origin(0, 3000)];
    assert RowOrigins(3000, cols) == [Origin(3000, 0), Origin(3000, 3000)];
    assert [0, 3000][..1] == [0];
    assert [0][..0] == [];
  }
}
