/**
 * Integer geometry around the OpenCV calls in Cogs/ai.py: Python slice
 * semantics, the padded region of interest cropped by `predict_pokemon`, and
 * the rectangles `calculate_similarity` compares between two images.
 */
module Geometry {

  function Min(a: int, b: int): int { if a <= b then a else b }
  function Max(a: int, b: int): int { if a >= b then a else b }

  /** A half-open index range [lo, hi). */
  datatype Span = Span(lo: nat, hi: nat)

  /** Python's normalisation of one slice bound against a length n. */
  function SliceBound(i: int, n: nat): (r: nat)
    ensures r <= n
    ensures 0 <= i <= n ==> r == i
  {
    if i < 0 then Max(i + n, 0) else Min(i, n)
  }

  /** The index range that `s[start:stop]` selects from a sequence of length n. */
  function PySlice(start: int, stop: int, n: nat): (r: Span)
    ensures r.lo <= r.hi <= n
    ensures 0 <= start <= stop <= n ==> r == Span(start, stop)
    ensures n <= start ==> r.lo == r.hi
    ensures 0 <= stop <= start ==> r.lo == r.hi
  {
    var lo := SliceBound(start, n);
    Span(lo, Max(SliceBound(stop, n), lo))
  }

  /** The bounding box `(x, y, w, h)` that cv2.boundingRect reports. */
  datatype Rect = Rect(x: int, y: int, w: int, h: int)

  /** The rows and columns of an image that a 2-D slice selects. */
  datatype Crop = Crop(rows: Span, cols: Span)

  predicate BoxInside(box: Rect, width: nat, height: nat) {
    0 <= box.x && 0 <= box.w && box.x + box.w <= width &&
    0 <= box.y && 0 <= box.h && box.y + box.h <= height
  }

  /** `min(extent // 2, image_extent - extent)`: half the box, but no more than the room left. */
  function Padding(extent: int, imageExtent: nat): int {
    Min(extent / 2, imageExtent - extent)
  }

  /**
   * The region of interest of `predict_pokemon`: the bounding box of the largest
   * contour widened by the adaptive padding on every side and clamped to the image.
   */
  function RoiCrop(box: Rect, width: nat, height: nat): (r: Crop)
    ensures r.rows.lo <= r.rows.hi <= height && r.cols.lo <= r.cols.hi <= width
    ensures BoxInside(box, width, height) ==>
      r.rows.lo <= box.y && box.y + box.h <= r.rows.hi &&
      r.cols.lo <= box.x && box.x + box.w <= r.cols.hi
    ensures BoxInside(box, width, height) ==>
      box.y - r.rows.lo == Min(box.y, Padding(box.h, height)) &&
      r.rows.hi - (box.y + box.h) == Min(height - (box.y + box.h), Padding(box.h, height)) &&
      box.x - r.cols.lo == Min(box.x, Padding(box.w, width)) &&
      r.cols.hi - (box.x + box.w) == Min(width - (box.x + box.w), Padding(box.w, width))
  {
    var padX := Padding(box.w, width);
    var padY := Padding(box.h, height);
    Crop(PySlice(Max(box.y - padY, 0), Min(box.y + box.h + padY, height), height),
         PySlice(Max(box.x - padX, 0), Min(box.x + box.w + padX, width), width))
  }

  /** The padded crop of a box inside the image is at most twice the box in each dimension. */
  lemma {:induction false} RoiAtMostDoubleBox(box: Rect, width: nat, height: nat)
    requires BoxInside(box, width, height)
    ensures RoiCrop(box, width, height).rows.hi - RoiCrop(box, width, height).rows.lo <= 2 * box.h
    ensures RoiCrop(box, width, height).cols.hi - RoiCrop(box, width, height).cols.lo <= 2 * box.w
  {
    var r := RoiCrop(box, width, height);
    assert box.y - r.rows.lo <= box.h / 2 && r.rows.hi - (box.y + box.h) <= box.h / 2;
    assert box.x - r.cols.lo <= box.w / 2 && r.cols.hi - (box.x + box.w) <= box.w / 2;
  }

  // ---------------------------------------------------------------------------
  // Region layout of calculate_similarity

  /** Raw bounds of `image[r0:r1, c0:c1]` as the source computes them. */
  datatype Region = Region(r0: int, r1: int, c0: int, c1: int)

  /** A region of the query crop and the region of the candidate crop it is compared with. */
  datatype RegionPair = RegionPair(query: Region, candidate: Region)

  /** The raw bounds already lie in the image, so the slice takes them as they are. */
  predicate WithinImage(g: Region, height: int, width: int) {
    0 <= g.r0 <= g.r1 <= height && 0 <= g.c0 <= g.c1 <= width
  }

  /** Grid cell (i, j) of an image cut into n x n cells of size height // n by width // n. */
  function Cell(i: int, j: int, height: nat, width: nat, n: nat): Region
    requires n > 0
  {
    Region(i * (height / n), (i + 1) * (height / n), j * (width / n), (j + 1) * (width / n))
  }

  function GridPairs(h1: nat, w1: nat, h2: nat, w2: nat, n: nat): (r: seq<RegionPair>)
    requires n > 0
    ensures |r| == n * n
  {
    seq(n * n, k requires 0 <= k < n * n =>
      RegionPair(Cell(k / n, k % n, h1, w1, n), Cell(k / n, k % n, h2, w2, n)))
  }

  /** Full-width horizontal bands, one per grid row. */
  function HorizontalPairs(h1: nat, w1: nat, h2: nat, w2: nat, n: nat): (r: seq<RegionPair>)
    requires n > 0
    ensures |r| == n
  {
    seq(n, i => RegionPair(Region(i * (h1 / n), (i + 1) * (h1 / n), 0, w1),
                           Region(i * (h2 / n), (i + 1) * (h2 / n), 0, w2)))
  }

  /** Full-height vertical bands, one per grid column. */
  function VerticalPairs(h1: nat, w1: nat, h2: nat, w2: nat, n: nat): (r: seq<RegionPair>)
    requires n > 0
    ensures |r| == n
  {
    seq(n, j => RegionPair(Region(0, h1, j * (w1 / n), (j + 1) * (w1 / n)),
                           Region(0, h2, j * (w2 / n), (j + 1) * (w2 / n))))
  }

  /** The grid cells on the main diagonal. */
  function DiagonalPairs(h1: nat, w1: nat, h2: nat, w2: nat, n: nat): (r: seq<RegionPair>)
    requires n > 0
    ensures |r| == n
  {
    seq(n, k => RegionPair(Cell(k, k, h1, w1, n), Cell(k, k, h2, w2, n)))
  }

  /** The middle half of an image in each dimension. */
  function Central(height: nat, width: nat): Region {
    Region(height / 4, 3 * height / 4, width / 4, 3 * width / 4)
  }

  /** Top-left, top-right, bottom-left and bottom-right cells of the query crop. */
  function QueryCorners(h1: nat, w1: nat, n: nat): seq<Region>
    requires n > 0
  {
    var sh, sw := h1 / n, w1 / n;
    [Region(0, sh, 0, sw), Region(0, sh, w1 - sw, w1),
     Region(h1 - sh, h1, 0, sw), Region(h1 - sh, h1, w1 - sw, w1)]
  }

  /** A query corner moved onto the candidate by the integer ratios height2 // height1 and width2 // width1. */
  function ScaleCorner(g: Region, h1: nat, w1: nat, h2: nat, w2: nat): Region
    requires h1 > 0 && w1 > 0
  {
    Region(g.r0 * (h2 / h1), g.r1 * (h2 / h1), g.c0 * (w2 / w1), g.c1 * (w2 / w1))
  }

  function CornerPairs(h1: nat, w1: nat, h2: nat, w2: nat, n: nat): (r: seq<RegionPair>)
    requires n > 0 && h1 > 0 && w1 > 0
    ensures |r| == 4
  {
    var qc := QueryCorners(h1, w1, n);
    seq(4, k requires 0 <= k < 4 => RegionPair(qc[k], ScaleCorner(qc[k], h1, w1, h2, w2)))
  }

  /**
   * Every region pair `calculate_similarity` compares, in the order it appends
   * their values: grid cells row by row, horizontal bands, vertical bands,
   * diagonal cells, the centre, the four corners.
   */
  function Layout(h1: nat, w1: nat, h2: nat, w2: nat, n: nat): (r: seq<RegionPair>)
    requires n > 0 && h1 > 0 && w1 > 0
    ensures |r| == n * n + 3 * n + 5
  {
    GridPairs(h1, w1, h2, w2, n) + HorizontalPairs(h1, w1, h2, w2, n) +
    VerticalPairs(h1, w1, h2, w2, n) + DiagonalPairs(h1, w1, h2, w2, n) +
    [RegionPair(Central(h1, w1), Central(h2, w2))] + CornerPairs(h1, w1, h2, w2, n)
  }

  // ---------------------------------------------------------------------------
  // Arithmetic helpers

  lemma MulMonotone(a: int, b: int, q: int)
    requires 0 <= a <= b && 0 <= q
    ensures 0 <= a * q <= b * q
  {
    assert b * q - a * q == (b - a) * q;
  }

  /** Band i of n equal bands of an extent lies inside the extent. */
  lemma {:induction false} BandInside(i: int, extent: nat, n: nat)
    requires n > 0 && 0 <= i < n
    ensures 0 <= i * (extent / n) <= (i + 1) * (extent / n) <= extent
  {
    var q := extent / n;
    assert n * q <= extent;
    MulMonotone(i, i + 1, q);
    MulMonotone(i + 1, n, q);
  }

  /** Scaling a coordinate inside the query extent by the integer ratio keeps it inside the candidate extent. */
  lemma {:induction false} ScaledInside(a: int, b: int, e1: nat, e2: nat)
    requires e1 > 0 && 0 <= a <= b <= e1
    ensures 0 <= a * (e2 / e1) <= b * (e2 / e1) <= e2
  {
    var q := e2 / e1;
    MulMonotone(a, b, q);
    MulMonotone(b, e1, q);
    assert e1 * q <= e2;
  }

  // ---------------------------------------------------------------------------
  // Properties of the layout

  /** Every grid cell of an image lies inside it and measures height // n by width // n. */
  lemma {:induction false} CellInside(i: int, j: int, height: nat, width: nat, n: nat)
    requires n > 0 && 0 <= i < n && 0 <= j < n
    ensures WithinImage(Cell(i, j, height, width, n), height, width)
    ensures Cell(i, j, height, width, n).r1 - Cell(i, j, height, width, n).r0 == height / n
    ensures Cell(i, j, height, width, n).c1 - Cell(i, j, height, width, n).c0 == width / n
  {
    BandInside(i, height, n);
    BandInside(j, width, n);
  }

  /** Each query region lies in the query crop and each candidate region in the candidate crop. */
  ghost predicate AllInside(pairs: seq<RegionPair>, h1: nat, w1: nat, h2: nat, w2: nat) {
    forall k :: 0 <= k < |pairs| ==>
      WithinImage(pairs[k].query, h1, w1) && WithinImage(pairs[k].candidate, h2, w2)
  }

  lemma RowOfCell(k: int, n: nat)
    requires n > 0 && 0 <= k < n * n
    ensures 0 <= k / n < n && 0 <= k % n < n
  {
    if k / n >= n {
      MulMonotone(n, k / n, n);
      assert false;
    }
  }

  lemma {:induction false} GridInside(h1: nat, w1: nat, h2: nat, w2: nat, n: nat)
    requires n > 0
    ensures AllInside(GridPairs(h1, w1, h2, w2, n), h1, w1, h2, w2)
  {
    var grid := GridPairs(h1, w1, h2, w2, n);
    forall k | 0 <= k < |grid|
      ensures WithinImage(grid[k].query, h1, w1) && WithinImage(grid[k].candidate, h2, w2)
    {
      RowOfCell(k, n);
      CellInside(k / n, k % n, h1, w1, n);
      CellInside(k / n, k % n, h2, w2, n);
    }
  }

  lemma {:induction false} BandsInside(h1: nat, w1: nat, h2: nat, w2: nat, n: nat)
    requires n > 0
    ensures AllInside(HorizontalPairs(h1, w1, h2, w2, n), h1, w1, h2, w2)
    ensures AllInside(VerticalPairs(h1, w1, h2, w2, n), h1, w1, h2, w2)
    ensures AllInside(DiagonalPairs(h1, w1, h2, w2, n), h1, w1, h2, w2)
  {
    forall k | 0 <= k < n
      ensures WithinImage(HorizontalPairs(h1, w1, h2, w2, n)[k].query, h1, w1)
      ensures WithinImage(HorizontalPairs(h1, w1, h2, w2, n)[k].candidate, h2, w2)
      ensures WithinImage(VerticalPairs(h1, w1, h2, w2, n)[k].query, h1, w1)
      ensures WithinImage(VerticalPairs(h1, w1, h2, w2, n)[k].candidate, h2, w2)
      ensures WithinImage(DiagonalPairs(h1, w1, h2, w2, n)[k].query, h1, w1)
      ensures WithinImage(DiagonalPairs(h1, w1, h2, w2, n)[k].candidate, h2, w2)
    {
      BandInside(k, h1, n); BandInside(k, w1, n);
      BandInside(k, h2, n); BandInside(k, w2, n);
      CellInside(k, k, h1, w1, n);
      CellInside(k, k, h2, w2, n);
    }
  }

  lemma {:induction false} CornersInside(h1: nat, w1: nat, h2: nat, w2: nat, n: nat)
    requires n > 0 && h1 > 0 && w1 > 0
    ensures AllInside(CornerPairs(h1, w1, h2, w2, n), h1, w1, h2, w2)
  {
    var sh, sw := h1 / n, w1 / n;
    assert sh <= h1 && sw <= w1 by {
      MulMonotone(1, n, sh);
      MulMonotone(1, n, sw);
    }
    var cor := CornerPairs(h1, w1, h2, w2, n);
    forall k | 0 <= k < 4
      ensures WithinImage(cor[k].query, h1, w1) && WithinImage(cor[k].candidate, h2, w2)
    {
      var g := QueryCorners(h1, w1, n)[k];
      assert WithinImage(g, h1, w1);
      ScaledInside(g.r0, g.r1, h1, h2);
      ScaledInside(g.c0, g.c1, w1, w2);
    }
  }

  lemma AllInsideConcat(a: seq<RegionPair>, b: seq<RegionPair>, h1: nat, w1: nat, h2: nat, w2: nat)
    requires AllInside(a, h1, w1, h2, w2) && AllInside(b, h1, w1, h2, w2)
    ensures AllInside(a + b, h1, w1, h2, w2)
  {
    forall k | 0 <= k < |a + b|
      ensures WithinImage((a + b)[k].query, h1, w1) && WithinImage((a + b)[k].candidate, h2, w2)
    {
      if k >= |a| { assert (a + b)[k] == b[k - |a|]; }
    }
  }

  /**
   * The grid, band, diagonal, central and query-corner regions lie inside their
   * own image, and the candidate corners lie inside the candidate image, so no
   * slice of the layout is clamped by Python.
   */
  lemma {:induction false} LayoutInside(h1: nat, w1: nat, h2: nat, w2: nat, n: nat)
    requires n > 0 && h1 > 0 && w1 > 0
    ensures AllInside(Layout(h1, w1, h2, w2, n), h1, w1, h2, w2)
  {
    var grid := GridPairs(h1, w1, h2, w2, n);
    var hor := HorizontalPairs(h1, w1, h2, w2, n);
    var ver := VerticalPairs(h1, w1, h2, w2, n);
    var dia := DiagonalPairs(h1, w1, h2, w2, n);
    var cen := [RegionPair(Central(h1, w1), Central(h2, w2))];
    var cor := CornerPairs(h1, w1, h2, w2, n);
    GridInside(h1, w1, h2, w2, n);
    BandsInside(h1, w1, h2, w2, n);
    CornersInside(h1, w1, h2, w2, n);
    assert AllInside(cen, h1, w1, h2, w2);
    AllInsideConcat(grid, hor, h1, w1, h2, w2);
    AllInsideConcat(grid + hor, ver, h1, w1, h2, w2);
    AllInsideConcat(grid + hor + ver, dia, h1, w1, h2, w2);
    AllInsideConcat(grid + hor + ver + dia, cen, h1, w1, h2, w2);
    AllInsideConcat(grid + hor + ver + dia + cen, cor, h1, w1, h2, w2);
  }

  /**
   * When the candidate crop is shorter (narrower) than the query crop, the ratio
   * height2 // height1 (width2 // width1) is 0 and every candidate corner
   * collapses to the empty slice [0:0] in that dimension.
   */
  lemma {:induction false} CornersCollapseWhenCandidateSmaller(h1: nat, w1: nat, h2: nat, w2: nat, n: nat)
    requires n > 0 && h1 > 0 && w1 > 0
    ensures h2 < h1 ==> forall k :: 0 <= k < 4 ==>
      CornerPairs(h1, w1, h2, w2, n)[k].candidate.r0 == 0 == CornerPairs(h1, w1, h2, w2, n)[k].candidate.r1
    ensures w2 < w1 ==> forall k :: 0 <= k < 4 ==>
      CornerPairs(h1, w1, h2, w2, n)[k].candidate.c0 == 0 == CornerPairs(h1, w1, h2, w2, n)[k].candidate.c1
  {
    if h2 < h1 { assert h2 / h1 == 0; }
    if w2 < w1 { assert w2 / w1 == 0; }
  }
}
