/**
 * `calculate_similarity` (Cogs/ai.py): both images resized to 256x256, each
 * cropped to its largest thresholded contour, then compared region by region
 * by histogram intersection; the result is the rounded mean of all region
 * values, or 0.0 when anything raises.
 */
module Similarity {
  import opened Wrappers
  import opened Geometry
  import opened Scoring

  /** `size=(256, 256)`: both images are resized to this square before cropping. */
  const CanonicalSize: nat := 256

  /** `num_sections=4`, the default `predict_pokemon` relies on. */
  const NumSections: nat := 4

  /** One contour OpenCV found: `cv2.contourArea` and `cv2.boundingRect` of it. */
  datatype Contour = Contour(area: real, box: Rect)

  /**
   * What the OpenCV calls of `calculate_similarity` contribute for one pair of
   * images: the external contours of each thresholded 256x256 image, and the
   * histogram intersection of a region of the query crop with a region of the
   * candidate crop (None where calcHist or compareHist raises).
   */
  datatype SimilarityInput = SimilarityInput(
    queryContours: seq<Contour>,
    candidateContours: seq<Contour>,
    intersect: (Region, Region) -> Option<real>)

  /**
   * `max(contours, key=cv2.contourArea)`: the first contour of maximal area;
   * a later contour wins only with a strictly larger area.
   */
  function FirstLargest(cs: seq<Contour>): (k: nat)
    requires cs != []
    ensures k < |cs|
    ensures forall j :: 0 <= j < |cs| ==> cs[j].area <= cs[k].area
    ensures forall j :: 0 <= j < k ==> cs[j].area < cs[k].area
  {
    if |cs| == 1 then 0
    else
      var k := FirstLargest(cs[..|cs| - 1]);
      if cs[|cs| - 1].area > cs[k].area then |cs| - 1 else k
  }

  /** `find_largest_contour`: the box of the largest contour, the whole image when there is none. */
  function LargestContourBox(cs: seq<Contour>, size: nat): Rect {
    if cs == [] then Rect(0, 0, size, size) else cs[FirstLargest(cs)].box
  }

  /** Height and width of `image[y:y+h, x:x+w]` on a size x size image. */
  function CropHeight(box: Rect, size: nat): nat {
    PySlice(box.y, box.y + box.h, size).hi - PySlice(box.y, box.y + box.h, size).lo
  }

  function CropWidth(box: Rect, size: nat): nat {
    PySlice(box.x, box.x + box.w, size).hi - PySlice(box.x, box.x + box.w, size).lo
  }

  /** Region values computed one after the other; the first comparison that raises aborts all. */
  function IntersectAll(f: (Region, Region) -> Option<real>, pairs: seq<RegionPair>): (r: Option<seq<real>>)
    ensures r.Some? ==> |r.value| == |pairs|
    ensures r.Some? ==>
      forall k :: 0 <= k < |pairs| ==> f(pairs[k].query, pairs[k].candidate) == Some(r.value[k])
    ensures r.None? <==> exists k :: 0 <= k < |pairs| && f(pairs[k].query, pairs[k].candidate).None?
  {
    if pairs == [] then Some([])
    else
      match f(pairs[0].query, pairs[0].candidate)
      case None => None
      case Some(v) =>
        match IntersectAll(f, pairs[1..])
        case None => None
        case Some(vs) => Some([v] + vs)
  }

  /** The crop dimensions are positive and n is not 0, so nothing before the region loop raises. */
  predicate Computable(input: SimilarityInput, n: nat) {
    var box1 := LargestContourBox(input.queryContours, CanonicalSize);
    var box2 := LargestContourBox(input.candidateContours, CanonicalSize);
    CropHeight(box1, CanonicalSize) > 0 && CropWidth(box1, CanonicalSize) > 0 &&
    CropHeight(box2, CanonicalSize) > 0 && CropWidth(box2, CanonicalSize) > 0 && n > 0
  }

  /** The region pairs compared for a Computable input, in the source's order. */
  function InputLayout(input: SimilarityInput, n: nat): seq<RegionPair>
    requires Computable(input, n)
  {
    var box1 := LargestContourBox(input.queryContours, CanonicalSize);
    var box2 := LargestContourBox(input.candidateContours, CanonicalSize);
    Layout(CropHeight(box1, CanonicalSize), CropWidth(box1, CanonicalSize),
           CropHeight(box2, CanonicalSize), CropWidth(box2, CanonicalSize), n)
  }

  /**
   * The value `calculate_similarity` returns (as the single element of its
   * list). An empty crop makes cv2.cvtColor raise, `num_sections == 0` makes
   * `height1 // num_sections` raise, and a failing region comparison raises:
   * each of these ends in the fallback 0.0.
   */
  function RegionalScore(input: SimilarityInput, n: nat): real {
    if !Computable(input, n) then 0.0
    else
      match IntersectAll(input.intersect, InputLayout(input, n))
      case None => 0.0
      case Some(values) => Round4(Mean(values))
  }

  /**
   * When nothing raises, the regional score is the mean of exactly
   * n*n + 3n + 5 region values (33 for the default 4), rounded to four
   * decimals, and so it lies within 1/20000 of the bounds of those values.
   */
  lemma {:induction false} RegionalScoreIsRoundedMean(input: SimilarityInput, n: nat, lo: real, hi: real)
    requires Computable(input, n)
    requires IntersectAll(input.intersect, InputLayout(input, n)).Some?
    requires forall k :: 0 <= k < |InputLayout(input, n)| ==>
      lo <= IntersectAll(input.intersect, InputLayout(input, n)).value[k] <= hi
    ensures |IntersectAll(input.intersect, InputLayout(input, n)).value| == n * n + 3 * n + 5
    ensures RegionalScore(input, n) == Round4(Mean(IntersectAll(input.intersect, InputLayout(input, n)).value))
    ensures lo - 1.0 / 20000.0 <= RegionalScore(input, n) <= hi + 1.0 / 20000.0
  {
    var values := IntersectAll(input.intersect, InputLayout(input, n)).value;
    MeanBounds(values, lo, hi);
  }

  /**
   * When every region comparison that succeeds yields a value in [0, m/10000],
   * the regional score is in that range too (the 0.0 fallback included).
   * NORM_MINMAX puts each of the 8 x 8 x 8 bins in [0, 1], so an intersection
   * lies in [0, 512]: m = 5120000 bounds the score of any input by 512.
   */
  lemma {:induction false} RegionalScoreWithin(input: SimilarityInput, n: nat, m: nat)
    requires forall a, b :: input.intersect(a, b).Some? ==>
      0.0 <= input.intersect(a, b).value <= m as real / 10000.0
    ensures 0.0 <= RegionalScore(input, n) <= m as real / 10000.0
  {
    if Computable(input, n) {
      var r := IntersectAll(input.intersect, InputLayout(input, n));
      if r.Some? {
        var values := r.value;
        var hi := m as real / 10000.0;
        forall k | 0 <= k < |values| ensures 0.0 <= values[k] <= hi {
          var p := InputLayout(input, n)[k];
          assert input.intersect(p.query, p.candidate) == Some(values[k]);
        }
        MeanBounds(values, 0.0, hi);
        Round4Within(Mean(values), m);
      }
    }
  }

  /**
   * When every region comparison that succeeds yields a value in [0, 1], the
   * regional score is in [0, 1] too. Normalised histograms meet that
   * hypothesis only in special cases; RegionalScoreWithin gives the bound
   * that always holds.
   */
  lemma {:induction false} RegionalScoreInUnit(input: SimilarityInput, n: nat)
    requires forall a, b :: input.intersect(a, b).Some? ==> 0.0 <= input.intersect(a, b).value <= 1.0
    ensures 0.0 <= RegionalScore(input, n) <= 1.0
  {
    RegionalScoreWithin(input, n, 10000);
  }

  /**
   * Identical histograms intersect to the same value everywhere; when every
   * region of the layout yields the same 4-decimal value v, the regional score is v.
   */
  lemma {:induction false} RegionalScoreOfUniformValues(input: SimilarityInput, n: nat, k: int)
    requires Computable(input, n)
    requires forall a, b :: input.intersect(a, b) == Some(k as real / 10000.0)
    ensures RegionalScore(input, n) == k as real / 10000.0
  {
    var pairs := InputLayout(input, n);
    LayoutNonEmpty(input, n);
    UniformMean(input.intersect, pairs, k);
    assert RegionalScore(input, n) == Round4(Mean(IntersectAll(input.intersect, pairs).value));
  }

  lemma LayoutNonEmpty(input: SimilarityInput, n: nat)
    requires Computable(input, n)
    ensures |InputLayout(input, n)| > 0
  {
  }

  lemma {:induction false} UniformMean(f: (Region, Region) -> Option<real>, pairs: seq<RegionPair>, k: int)
    requires |pairs| > 0
    requires forall a, b :: f(a, b) == Some(k as real / 10000.0)
    ensures IntersectAll(f, pairs).Some?
    ensures Round4(Mean(IntersectAll(f, pairs).value)) == k as real / 10000.0
  {
    var v := k as real / 10000.0;
    var values := seq(|pairs|, j => v);
    assert Agrees(f, pairs, values);
    IntersectAllAgrees(f, pairs, values);
    MeanBounds(values, v, v);
    Round4OnGrid(k);
  }

  // ---------------------------------------------------------------------------
  // The imperative computation

  /** The values computed so far are those of the first pairs, in order. */
  ghost predicate Agrees(f: (Region, Region) -> Option<real>, pairs: seq<RegionPair>, values: seq<real>) {
    |values| <= |pairs| &&
    forall k :: 0 <= k < |values| ==> f(pairs[k].query, pairs[k].candidate) == Some(values[k])
  }

  lemma DivModUnique(x: int, n: int, q: int, r: int)
    requires n > 0 && 0 <= r < n && x == q * n + r
    ensures x / n == q && x % n == r
  {
    var q2, r2 := x / n, x % n;
    assert (q2 - q) * n == r - r2;
    if q2 > q {
      MulMonotone(1, q2 - q, n);
    } else if q2 < q {
      MulMonotone(1, q - q2, n);
    }
  }

  lemma GridIndex(i: nat, j: nat, n: nat)
    requires 0 <= i < n && 0 <= j < n
    ensures i * n + j < n * n && (i * n + j) / n == i && (i * n + j) % n == j
  {
    MulMonotone(i + 1, n, n);
    DivModUnique(i * n + j, n, i, j);
  }

  lemma IntersectAllAgrees(f: (Region, Region) -> Option<real>, pairs: seq<RegionPair>, values: seq<real>)
    requires Agrees(f, pairs, values) && |values| == |pairs|
    ensures IntersectAll(f, pairs) == Some(values)
  {
    forall k | 0 <= k < |pairs| ensures f(pairs[k].query, pairs[k].candidate).Some? {
      assert f(pairs[k].query, pairs[k].candidate) == Some(values[k]);
    }
    assert IntersectAll(f, pairs).value == values;
  }

  lemma IntersectAllRaises(f: (Region, Region) -> Option<real>, pairs: seq<RegionPair>, p: nat)
    requires p < |pairs| && f(pairs[p].query, pairs[p].candidate).None?
    ensures IntersectAll(f, pairs) == None
  {
  }

  /** The values of two comparisons made one after the other, or None if either raises. */
  function Join(x: Option<seq<real>>, y: Option<seq<real>>): Option<seq<real>> {
    if x.Some? && y.Some? then Some(x.value + y.value) else None
  }

  /** Comparing two lists of regions one after the other: the values of both, or None if either raises. */
  lemma {:induction false} IntersectAllConcat(f: (Region, Region) -> Option<real>, a: seq<RegionPair>, b: seq<RegionPair>)
    ensures IntersectAll(f, a + b) == Join(IntersectAll(f, a), IntersectAll(f, b))
  {
    var ra, rb := IntersectAll(f, a), IntersectAll(f, b);
    if ra.None? {
      var k :| 0 <= k < |a| && f(a[k].query, a[k].candidate).None?;
      IntersectAllRaises(f, a + b, k);
    } else if rb.None? {
      var k :| 0 <= k < |b| && f(b[k].query, b[k].candidate).None?;
      assert (a + b)[|a| + k] == b[k];
      IntersectAllRaises(f, a + b, |a| + k);
    } else {
      var values := ra.value + rb.value;
      forall k | 0 <= k < |a + b|
        ensures f((a + b)[k].query, (a + b)[k].candidate) == Some(values[k])
      {
        if k < |a| {
          assert (a + b)[k] == a[k];
        } else {
          assert (a + b)[k] == b[k - |a|];
        }
      }
      IntersectAllAgrees(f, a + b, values);
    }
  }

  /** `for i in range(num_sections): for j in range(num_sections)`: the grid cells row by row. */
  method GridSimilarities(f: (Region, Region) -> Option<real>, height1: nat, width1: nat, height2: nat, width2: nat, n: nat)
    returns (r: Option<seq<real>>)
    requires n > 0
    ensures r == IntersectAll(f, GridPairs(height1, width1, height2, width2, n))
  {
    ghost var pairs := GridPairs(height1, width1, height2, width2, n);
    var sectionHeight, sectionWidth := height1 / n, width1 / n;
    var values: seq<real> := [];
    for i := 0 to n
      invariant |values| == i * n
      invariant Agrees(f, pairs, values)
    {
      for j := 0 to n
        invariant |values| == i * n + j
        invariant Agrees(f, pairs, values)
      {
        var query := Region(i * sectionHeight, (i + 1) * sectionHeight, j * sectionWidth, (j + 1) * sectionWidth);
        var candidate := Region(i * (height2 / n), (i + 1) * (height2 / n), j * (width2 / n), (j + 1) * (width2 / n));
        GridIndex(i, j, n);
        assert pairs[i * n + j] == RegionPair(query, candidate);
        var v := f(query, candidate);
        if v.None? {
          IntersectAllRaises(f, pairs, i * n + j);
          return None;
        }
        values := values + [v.value];
      }
    }
    IntersectAllAgrees(f, pairs, values);
    return Some(values);
  }

  /** The full-width horizontal bands, top to bottom. */
  method HorizontalSimilarities(f: (Region, Region) -> Option<real>, height1: nat, width1: nat, height2: nat, width2: nat, n: nat)
    returns (r: Option<seq<real>>)
    requires n > 0
    ensures r == IntersectAll(f, HorizontalPairs(height1, width1, height2, width2, n))
  {
    ghost var pairs := HorizontalPairs(height1, width1, height2, width2, n);
    var sectionHeight := height1 / n;
    var values: seq<real> := [];
    for i := 0 to n
      invariant |values| == i
      invariant Agrees(f, pairs, values)
    {
      var query := Region(i * sectionHeight, (i + 1) * sectionHeight, 0, width1);
      var candidate := Region(i * (height2 / n), (i + 1) * (height2 / n), 0, width2);
      var v := f(query, candidate);
      if v.None? {
        IntersectAllRaises(f, pairs, i);
        return None;
      }
      values := values + [v.value];
    }
    IntersectAllAgrees(f, pairs, values);
    return Some(values);
  }

  /** The full-height vertical bands, left to right. */
  method VerticalSimilarities(f: (Region, Region) -> Option<real>, height1: nat, width1: nat, height2: nat, width2: nat, n: nat)
    returns (r: Option<seq<real>>)
    requires n > 0
    ensures r == IntersectAll(f, VerticalPairs(height1, width1, height2, width2, n))
  {
    ghost var pairs := VerticalPairs(height1, width1, height2, width2, n);
    var sectionWidth := width1 / n;
    var values: seq<real> := [];
    for j := 0 to n
      invariant |values| == j
      invariant Agrees(f, pairs, values)
    {
      var query := Region(0, height1, j * sectionWidth, (j + 1) * sectionWidth);
      var candidate := Region(0, height2, j * (width2 / n), (j + 1) * (width2 / n));
      var v := f(query, candidate);
      if v.None? {
        IntersectAllRaises(f, pairs, j);
        return None;
      }
      values := values + [v.value];
    }
    IntersectAllAgrees(f, pairs, values);
    return Some(values);
  }

  /** The grid cells on the main diagonal. */
  method DiagonalSimilarities(f: (Region, Region) -> Option<real>, height1: nat, width1: nat, height2: nat, width2: nat, n: nat)
    returns (r: Option<seq<real>>)
    requires n > 0
    ensures r == IntersectAll(f, DiagonalPairs(height1, width1, height2, width2, n))
  {
    ghost var pairs := DiagonalPairs(height1, width1, height2, width2, n);
    var sectionHeight, sectionWidth := height1 / n, width1 / n;
    var values: seq<real> := [];
    for k := 0 to n
      invariant |values| == k
      invariant Agrees(f, pairs, values)
    {
      var query := Region(k * sectionHeight, (k + 1) * sectionHeight, k * sectionWidth, (k + 1) * sectionWidth);
      var candidate := Region(k * (height2 / n), (k + 1) * (height2 / n), k * (width2 / n), (k + 1) * (width2 / n));
      var v := f(query, candidate);
      if v.None? {
        IntersectAllRaises(f, pairs, k);
        return None;
      }
      values := values + [v.value];
    }
    IntersectAllAgrees(f, pairs, values);
    return Some(values);
  }

  /** The `corner_sections` list, each corner scaled onto the candidate by the integer size ratios. */
  method CornerSimilarities(f: (Region, Region) -> Option<real>, height1: nat, width1: nat, height2: nat, width2: nat, n: nat)
    returns (r: Option<seq<real>>)
    requires n > 0 && height1 > 0 && width1 > 0
    ensures r == IntersectAll(f, CornerPairs(height1, width1, height2, width2, n))
  {
    ghost var pairs := CornerPairs(height1, width1, height2, width2, n);
    var sectionHeight, sectionWidth := height1 / n, width1 / n;
    var cornerSections := [
      Region(0, sectionHeight, 0, sectionWidth),
      Region(0, sectionHeight, width1 - sectionWidth, width1),
      Region(height1 - sectionHeight, height1, 0, sectionWidth),
      Region(height1 - sectionHeight, height1, width1 - sectionWidth, width1)];
    assert cornerSections == QueryCorners(height1, width1, n);
    var values: seq<real> := [];
    for c := 0 to 4
      invariant |values| == c
      invariant Agrees(f, pairs, values)
    {
      var g := cornerSections[c];
      var candidate := Region(g.r0 * (height2 / height1), g.r1 * (height2 / height1),
                              g.c0 * (width2 / width1), g.c1 * (width2 / width1));
      assert pairs[c] == RegionPair(g, candidate);
      var v := f(g, candidate);
      if v.None? {
        IntersectAllRaises(f, pairs, c);
        return None;
      }
      values := values + [v.value];
    }
    IntersectAllAgrees(f, pairs, values);
    return Some(values);
  }

  /**
   * `calculate_similarity`: crop both images to their largest contour, then
   * the grid cells, the bands, the diagonal, the centre and the corners, in
   * that order, and the mean of all their values rounded to four decimals;
   * 0.0 wherever the source raises.
   */
  method CalculateSimilarity(input: SimilarityInput, n: nat) returns (r: real)
    ensures r == RegionalScore(input, n)
  {
    var box1 := LargestContourBox(input.queryContours, CanonicalSize);
    var box2 := LargestContourBox(input.candidateContours, CanonicalSize);
    var height1, width1 := CropHeight(box1, CanonicalSize), CropWidth(box1, CanonicalSize);
    var height2, width2 := CropHeight(box2, CanonicalSize), CropWidth(box2, CanonicalSize);
    if height1 == 0 || width1 == 0 || height2 == 0 || width2 == 0 || n == 0 {
      return 0.0;
    }
    assert Computable(input, n);
    assert InputLayout(input, n) == Layout(height1, width1, height2, width2, n);
    var sectionSimilarities := RegionSimilarities(input.intersect, height1, width1, height2, width2, n);
    if sectionSimilarities.None? {
      return 0.0;
    }
    r := Round4(Mean(sectionSimilarities.value));
  }

  /**
   * The region loops of `calculate_similarity`: grid cells, bands, diagonal,
   * centre and corners, with the values of the later parts gathered in
   * `additional_similarities` and appended to the grid values; None as soon
   * as one comparison raises.
   */
  method RegionSimilarities(f: (Region, Region) -> Option<real>, height1: nat, width1: nat, height2: nat, width2: nat, n: nat)
    returns (r: Option<seq<real>>)
    requires n > 0 && height1 > 0 && width1 > 0
    ensures r == IntersectAll(f, Layout(height1, width1, height2, width2, n))
  {
    LayoutParts(f, height1, width1, height2, width2, n);
    ghost var centre := [RegionPair(Central(height1, width1), Central(height2, width2))];
    var grid := GridSimilarities(f, height1, width1, height2, width2, n);
    if grid.None? {
      return None;
    }
    var horizontal := HorizontalSimilarities(f, height1, width1, height2, width2, n);
    if horizontal.None? {
      return None;
    }
    var vertical := VerticalSimilarities(f, height1, width1, height2, width2, n);
    if vertical.None? {
      return None;
    }
    var diagonal := DiagonalSimilarities(f, height1, width1, height2, width2, n);
    if diagonal.None? {
      return None;
    }
    var central := f(Central(height1, width1), Central(height2, width2));
    if central.None? {
      IntersectAllRaises(f, centre, 0);
      return None;
    }
    IntersectAllSingle(f, centre[0]);
    var corners := CornerSimilarities(f, height1, width1, height2, width2, n);
    if corners.None? {
      return None;
    }
    var additional := horizontal.value + vertical.value + diagonal.value + [central.value] + corners.value;
    ExtendRegrouped(grid.value, horizontal.value, vertical.value, diagonal.value, [central.value], corners.value);
    return Some(grid.value + additional);
  }

  lemma IntersectAllSingle(f: (Region, Region) -> Option<real>, p: RegionPair)
    ensures f(p.query, p.candidate).Some? ==> IntersectAll(f, [p]) == Some([f(p.query, p.candidate).value])
  {
    assert [p][1..] == [];
    assert IntersectAll(f, [p][1..]) == Some([]);
    if f(p.query, p.candidate).Some? {
      var v := f(p.query, p.candidate).value;
      assert [v] + [] == [v];
    }
  }

  /** `section_similarities.extend(additional_similarities)` gives the values in layout order. */
  lemma ExtendRegrouped(g: seq<real>, h: seq<real>, v: seq<real>, d: seq<real>, c: seq<real>, k: seq<real>)
    ensures g + (h + v + d + c + k) == g + h + v + d + c + k
  {
  }

  /** The layout's values are those of its six parts in order, and it raises exactly when one part raises. */
  lemma {:induction false} LayoutParts(f: (Region, Region) -> Option<real>, h1: nat, w1: nat, h2: nat, w2: nat, n: nat)
    requires n > 0 && h1 > 0 && w1 > 0
    ensures IntersectAll(f, Layout(h1, w1, h2, w2, n)) ==
      Join(Join(Join(Join(Join(IntersectAll(f, GridPairs(h1, w1, h2, w2, n)), IntersectAll(f, HorizontalPairs(h1, w1, h2, w2, n))),
        IntersectAll(f, VerticalPairs(h1, w1, h2, w2, n))), IntersectAll(f, DiagonalPairs(h1, w1, h2, w2, n))),
        IntersectAll(f, [RegionPair(Central(h1, w1), Central(h2, w2))])), IntersectAll(f, CornerPairs(h1, w1, h2, w2, n)))
  {
    var grid, hor, ver, dia := GridPairs(h1, w1, h2, w2, n), HorizontalPairs(h1, w1, h2, w2, n),
                               VerticalPairs(h1, w1, h2, w2, n), DiagonalPairs(h1, w1, h2, w2, n);
    var cen, cor := [RegionPair(Central(h1, w1), Central(h2, w2))], CornerPairs(h1, w1, h2, w2, n);
    IntersectAllConcat(f, grid, hor);
    IntersectAllConcat(f, grid + hor, ver);
    IntersectAllConcat(f, grid + hor + ver, dia);
    IntersectAllConcat(f, grid + hor + ver + dia, cen);
    IntersectAllConcat(f, grid + hor + ver + dia + cen, cor);
  }
}
