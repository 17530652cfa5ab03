/**
 * The decision logic of `predict_pokemon` (Cogs/ai.py): pick the largest
 * foreground contour, crop a padded region of interest around it, score every
 * stored artwork against it, keep the first best candidate, rank the scored
 * candidates and apply the strict threshold. The OpenCV results (contours,
 * keypoints, matches, histogram intersections) are inputs of the model.
 */
module Matcher {
  import opened Wrappers
  import opened ColorFormat
  import opened Geometry
  import opened Scoring
  import opened Similarity

  /** `threshold=0.8`, the default of `predict_pokemon`. */
  const DefaultThreshold: real := 0.8

  /**
   * The query picture as `predict_pokemon` sees it: the decoded image, its
   * width and height (`img_np.shape[1]`, `img_np.shape[0]`), the contours
   * found on its dilated edges, and the number of ORB keypoints in the ROI.
   */
  datatype Query = Query(image: Image, width: nat, height: nat, contours: seq<Contour>, keypoints: nat)

  /**
   * One file of the artwork folder, in `os.listdir` order: its name, whether
   * it is still a regular file when the loop reaches it, what `cv2.imread`
   * decoded (None for an unreadable file), the number of cross-checked
   * matches (None where `bf.match` raises) and what `calculate_similarity`
   * gets from OpenCV for the ROI against this artwork.
   */
  datatype Candidate = Candidate(
    file: string,
    isFile: bool,
    image: Option<Image>,
    matchCount: Option<nat>,
    similarity: SimilarityInput)

  /**
   * What a call of `predict_pokemon` ends in: falling off the end without a
   * `return` (no contour of positive area), the `(None, 0)` of the outer
   * `except`, or `(best_match, highest_score[0])` together with the region of
   * interest, the leaderboard sent in the embed and the verdict sent after it.
   */
  datatype Outcome =
    | NoForeground
    | Failed
    | Predicted(roi: Crop, best: string, score: real, leaderboard: seq<Entry>, goodMatch: bool)

  // ---------------------------------------------------------------------------
  // The largest-contour scan

  /**
   * `largest_contour_idx` after the scan: -1 when no contour has a positive
   * area, otherwise the first index of the largest area.
   */
  ghost predicate IsLargestPositive(cs: seq<Contour>, idx: int) {
    if forall j :: 0 <= j < |cs| ==> cs[j].area <= 0.0 then idx == -1
    else
      0 <= idx < |cs| && cs[idx].area > 0.0 &&
      (forall j :: 0 <= j < |cs| ==> cs[j].area <= cs[idx].area) &&
      (forall j :: 0 <= j < idx ==> cs[j].area < cs[idx].area)
  }

  /** The scan starting from index -1 and area 0 that takes a contour only when its area is strictly larger. */
  method LargestContourIndex(cs: seq<Contour>) returns (idx: int)
    ensures IsLargestPositive(cs, idx)
  {
    idx := -1;
    var largestArea := 0.0;
    for i := 0 to |cs|
      invariant idx == -1 ==> largestArea == 0.0 && forall j :: 0 <= j < i ==> cs[j].area <= 0.0
      invariant idx != -1 ==> 0 <= idx < i && largestArea == cs[idx].area && largestArea > 0.0
      invariant forall j :: 0 <= j < i ==> cs[j].area <= largestArea
      invariant idx != -1 ==> forall j :: 0 <= j < idx ==> cs[j].area < largestArea
    {
      var area := cs[i].area;
      if area > largestArea {
        idx := i;
        largestArea := area;
      }
    }
  }

  /**
   * When some contour has a positive area, the scan's index is the one
   * `max(contours, key=cv2.contourArea)` would pick: the first largest.
   */
  lemma {:induction false} ScanPicksFirstLargest(cs: seq<Contour>, idx: int)
    requires IsLargestPositive(cs, idx) && idx != -1
    ensures cs != [] && idx == FirstLargest(cs)
  {
    var k := FirstLargest(cs);
    var chosen, first := cs[idx], cs[k];
  }

  /** A contour of area 0 is never chosen, and the scan result is unique. */
  lemma {:induction false} LargestPositiveUnique(cs: seq<Contour>, i1: int, i2: int)
    requires IsLargestPositive(cs, i1) && IsLargestPositive(cs, i2)
    ensures i1 == i2
    ensures i1 != -1 ==> cs[i1].area > 0.0
  {
    if i1 != -1 && i2 != -1 {
      ScanPicksFirstLargest(cs, i1);
      ScanPicksFirstLargest(cs, i2);
    }
  }

  // ---------------------------------------------------------------------------
  // The candidate name

  /** Index of the last '.' of s, or -1. */
  function LastDot(s: string): (d: int)
    ensures -1 <= d < |s|
    ensures d >= 0 ==> s[d] == '.'
    ensures forall i :: d < i < |s| ==> s[i] != '.'
  {
    if s == [] then -1
    else if s[|s| - 1] == '.' then |s| - 1
    else LastDot(s[..|s| - 1])
  }

  /**
   * `os.path.splitext` on a bare file name: split before the last '.', unless
   * only dots precede it (a leading-dot name such as ".png" has no extension).
   */
  function SplitExt(file: string): (string, string) {
    var d := LastDot(file);
    if exists i :: 0 <= i < d && file[i] != '.' then (file[..d], file[d..]) else (file, [])
  }

  /**
   * The root and the extension put back together give the file name; the
   * extension is empty or one '.' followed by no other '.', and a non-empty
   * file name has a non-empty root.
   */
  lemma {:induction false} SplitExtRoundTrip(file: string)
    ensures SplitExt(file).0 + SplitExt(file).1 == file
    ensures SplitExt(file).1 == [] ||
      (SplitExt(file).1[0] == '.' && forall i :: 1 <= i < |SplitExt(file).1| ==> SplitExt(file).1[i] != '.')
    ensures SplitExt(file).1 == [] <==> forall i :: 0 <= i < LastDot(file) ==> file[i] == '.'
    ensures file != [] ==> SplitExt(file).0 != []
  {
    var d := LastDot(file);
    if exists i :: 0 <= i < d && file[i] != '.' {
      var ext := file[d..];
      assert file[..d] + ext == file;
      forall i | 1 <= i < |ext| ensures ext[i] != '.' {
        assert ext[i] == file[d + i];
      }
    }
  }

  // ---------------------------------------------------------------------------
  // Scoring the candidates

  /** numpy's shape guarantee for a decoded artwork. */
  ghost predicate Decoded(c: Candidate) {
    c.image.Some? ==> WellFormed(c.image.value)
  }

  /**
   * The body of the `try` raises for this candidate: `imread` gave None (so
   * `img.shape` raises), the image has no channel axis, COLOR_RGB2GRAY
   * rejects its channel count, or `bf.match` raises.
   */
  predicate Raises(c: Candidate)
    requires Decoded(c)
  {
    c.image.None? ||
    EnsureCorrectColorFormat(c.image.value).Failure? ||
    !GrayConvertible(EnsureCorrectColorFormat(c.image.value).value) ||
    c.matchCount.None?
  }

  /**
   * A candidate raises exactly when it could not be read, has no channel
   * axis, has a channel count other than 3 or 4, has no pixels, or could not
   * be matched.
   */
  lemma {:induction false} RaisesExactly(c: Candidate)
    requires Decoded(c)
    ensures Raises(c) <==>
      c.image.None? || !c.image.value.Channelled? ||
      (c.image.value.channels != 3 && c.image.value.channels != 4) ||
      c.image.value.pixels == [] || c.matchCount.None?
  {
    if c.image.Some? {
      ConvertedIsGrayConvertible(c.image.value);
    }
  }

  /**
   * The element this candidate appends to `matches_list`: its file name
   * without extension and its combined score; None when it is skipped.
   */
  function CandidateEntry(keypoints: nat, c: Candidate): Option<Entry>
    requires Decoded(c)
  {
    if !c.isFile || Raises(c) then None
    else
      Some(Entry(SplitExt(c.file).0,
        CombinedScore(StructuralScore(c.matchCount.value, keypoints), RegionalScore(c.similarity, NumSections))))
  }

  /** `matches_list` after the loop over the candidates. */
  function MatchesList(keypoints: nat, cs: seq<Candidate>): seq<Entry>
    requires forall c :: c in cs ==> Decoded(c)
  {
    if cs == [] then []
    else
      var front := MatchesList(keypoints, cs[..|cs| - 1]);
      match CandidateEntry(keypoints, cs[|cs| - 1])
      case None => front
      case Some(e) => front + [e]
  }

  /** The list of one run over `a` and then `b` is the list of `a` followed by the list of `b`. */
  lemma {:induction false} MatchesListConcat(keypoints: nat, a: seq<Candidate>, b: seq<Candidate>)
    requires forall c :: c in a + b ==> Decoded(c)
    ensures MatchesList(keypoints, a + b) == MatchesList(keypoints, a) + MatchesList(keypoints, b)
    decreases |b|
  {
    if b == [] {
      assert a + b == a;
    } else {
      var b' := b[..|b| - 1];
      assert (a + b)[..|a + b| - 1] == a + b';
      assert (a + b)[|a + b| - 1] == b[|b| - 1];
      MatchesListConcat(keypoints, a, b');
    }
  }

  /**
   * A candidate that raises, or that is no longer a file, leaves no trace:
   * the list is the one of the other candidates.
   */
  lemma {:induction false} SkippedCandidateIgnored(keypoints: nat, a: seq<Candidate>, c: Candidate, b: seq<Candidate>)
    requires forall x :: x in a + [c] + b ==> Decoded(x)
    requires CandidateEntry(keypoints, c).None?
    ensures MatchesList(keypoints, a + [c] + b) == MatchesList(keypoints, a + b)
  {
    MatchesListConcat(keypoints, a + [c], b);
    MatchesListConcat(keypoints, a, [c]);
    MatchesListConcat(keypoints, a, b);
    assert [c][..0] == [];
  }

  /**
   * Every element of the list scores in [0, 1] when no candidate has more
   * matches than the query has keypoints and every histogram intersection is in [0, 1].
   */
  lemma {:induction false} EntriesInUnit(keypoints: nat, cs: seq<Candidate>)
    requires forall c :: c in cs ==> Decoded(c)
    requires forall c :: c in cs && c.matchCount.Some? ==> c.matchCount.value <= keypoints
    requires forall c, a, b :: c in cs && c.similarity.intersect(a, b).Some? ==>
      0.0 <= c.similarity.intersect(a, b).value <= 1.0
    ensures forall e :: e in MatchesList(keypoints, cs) ==> 0.0 <= e.score <= 1.0
  {
    if cs != [] {
      var front := cs[..|cs| - 1];
      var last := cs[|cs| - 1];
      assert forall c :: c in front ==> c in cs;
      EntriesInUnit(keypoints, front);
      if CandidateEntry(keypoints, last).Some? {
        RegionalScoreInUnit(last.similarity, NumSections);
      }
    }
  }

  // ---------------------------------------------------------------------------
  // Best match

  /** `combined_similarity > highest_score[0]`, where every real beats minus infinity. */
  predicate Beats(x: real, s: Score) {
    s.NegInf? || x > s.value
  }

  /** `(best_match, highest_score[0])` after the loop, replaced only by a strictly greater score. */
  function FirstBest(m: seq<Entry>): (r: (Option<string>, Score))
    ensures r.0.Some? <==> r.1.Finite?
  {
    if m == [] then (None, NegInf)
    else
      var prev := FirstBest(m[..|m| - 1]);
      var e := m[|m| - 1];
      if Beats(e.score, prev.1) then (Some(e.name), Finite(e.score)) else prev
  }

  /**
   * The scan reports the first entry with the maximal score, and nothing
   * (with minus infinity) for an empty list.
   */
  lemma {:induction false} FirstBestIsFirstMax(m: seq<Entry>)
    ensures IsFirstBest(m, FirstBest(m).0, FirstBest(m).1)
  {
    if m != [] {
      var front := m[..|m| - 1];
      var e := m[|m| - 1];
      FirstBestIsFirstMax(front);
      if front == [] {
        assert FirstMaxAt(m, 0);
      } else {
        var k :| FirstMaxAt(front, k) && FirstBest(front).0 == Some(front[k].name) &&
          FirstBest(front).1 == Finite(front[k].score);
        if e.score > front[k].score {
          forall j | 0 <= j < |m| ensures m[j].score <= e.score {
            if j < |m| - 1 { assert m[j] == front[j]; }
          }
          forall j | 0 <= j < |m| - 1 ensures m[j].score < e.score {
            assert m[j] == front[j];
          }
          assert FirstMaxAt(m, |m| - 1);
        } else {
          forall j | 0 <= j < |m| ensures m[j].score <= m[k].score {
            if j < |m| - 1 { assert m[j] == front[j]; }
          }
          forall j | 0 <= j < k ensures m[j].score < m[k].score {
            assert m[j] == front[j];
          }
          assert FirstMaxAt(m, k);
        }
      }
    }
  }

  // ---------------------------------------------------------------------------
  // The whole prediction

  /**
   * What `predict_pokemon` returns and shows. `visualised` stands for the
   * file and Discord I/O after the loop: loading `<best>.png`, writing the
   * detection images and every `ctx.send`; a failure there ends in the outer
   * `except`. `detected_objects_path` is assigned only under `if best_match:`
   * and used after it, so when no candidate was scored (or the best name is
   * empty) the line writing it raises as well.
   */
  function Predict(query: Query, cs: seq<Candidate>, threshold: real, visualised: bool): Outcome
    requires WellFormed(query.image) && forall c :: c in cs ==> Decoded(c)
  {
    var img := EnsureCorrectColorFormat(query.image);
    if img.Failure? || !GrayConvertible(img.value) then Failed
    else if forall j :: 0 <= j < |query.contours| ==> query.contours[j].area <= 0.0 then NoForeground
    else
      var box := query.contours[FirstLargest(query.contours)].box;
      var m := MatchesList(query.keypoints, cs);
      var best := FirstBest(m);
      if best.0.None? || best.0.value == [] || !visualised then Failed
      else Predicted(RoiCrop(box, query.width, query.height), best.0.value, best.1.value,
                     Leaderboard(m), GoodMatch(best.1, threshold))
  }

  /**
   * `predict_pokemon` as the source runs it: the colour conversion, the
   * contour scan, the loop over the candidates that skips those that raise
   * and tracks the first best, then the visualisation, the leaderboard and
   * the verdict.
   */
  method PredictPokemon(query: Query, cs: seq<Candidate>, threshold: real, visualised: bool) returns (p: Outcome)
    requires WellFormed(query.image) && forall c :: c in cs ==> Decoded(c)
    ensures p == Predict(query, cs, threshold, visualised)
  {
    var img := EnsureCorrectColorFormat(query.image);
    if img.Failure? || !GrayConvertible(img.value) {
      return Failed;
    }
    var largestContourIdx := LargestContourIndex(query.contours);
    if largestContourIdx == -1 {
      return NoForeground;
    }
    ScanPicksFirstLargest(query.contours, largestContourIdx);
    var box := query.contours[largestContourIdx].box;
    var roi := RoiCrop(box, query.width, query.height);

    var matchesList: seq<Entry> := [];
    var bestMatch: Option<string> := None;
    var highestScore: Score := NegInf;
    for i := 0 to |cs|
      invariant matchesList == MatchesList(query.keypoints, cs[..i])
      invariant (bestMatch, highestScore) == FirstBest(matchesList)
    {
      assert cs[..i + 1][..i] == cs[..i];
      assert forall c :: c in cs[..i + 1] ==> c in cs;
      var c := cs[i];
      var pokemonName := SplitExt(c.file).0;
      if !c.isFile || Raises(c) {
        continue;
      }
      var similarityScore := StructuralScore(c.matchCount.value, query.keypoints);
      var contourSimilarity := CalculateSimilarity(c.similarity, NumSections);
      var combinedSimilarity := CombinedScore(similarityScore, contourSimilarity);
      if Beats(combinedSimilarity, highestScore) {
        highestScore := Finite(combinedSimilarity);
        bestMatch := Some(pokemonName);
      }
      matchesList := matchesList + [Entry(pokemonName, combinedSimilarity)];
    }
    assert cs[..|cs|] == cs;

    if bestMatch.None? || bestMatch.value == [] || !visualised {
      return Failed;
    }
    p := Predicted(roi, bestMatch.value, highestScore.value, Leaderboard(matchesList), GoodMatch(highestScore, threshold));
  }

  // ---------------------------------------------------------------------------
  // Properties of the prediction

  /**
   * The function falls off its end exactly when the query converts to
   * grayscale (non-empty, three or four channels) and no contour has a
   * positive area; the full image is never used as a fallback region.
   */
  lemma {:induction false} NoForegroundExactly(query: Query, cs: seq<Candidate>, threshold: real, visualised: bool)
    requires WellFormed(query.image) && forall c :: c in cs ==> Decoded(c)
    ensures Predict(query, cs, threshold, visualised) == NoForeground <==>
      query.image.Channelled? && (query.image.channels == 3 || query.image.channels == 4) &&
      query.image.pixels != [] &&
      forall j :: 0 <= j < |query.contours| ==> query.contours[j].area <= 0.0
  {
    ConvertedIsGrayConvertible(query.image);
  }

  /**
   * A reported prediction crops inside the image around the largest contour,
   * names the first candidate with the maximal combined score, heads the
   * leaderboard with it, and calls it a good match exactly when its score
   * is strictly above the threshold.
   */
  lemma {:induction false} PredictedFacts(query: Query, cs: seq<Candidate>, threshold: real, visualised: bool)
    requires WellFormed(query.image) && forall c :: c in cs ==> Decoded(c)
    requires Predict(query, cs, threshold, visualised).Predicted?
    ensures var p := Predict(query, cs, threshold, visualised);
      var m := MatchesList(query.keypoints, cs);
      visualised && m != [] && p.best != [] &&
      p.roi.rows.hi <= query.height && p.roi.cols.hi <= query.width &&
      IsFirstBest(m, Some(p.best), Finite(p.score)) &&
      p.leaderboard[0] == Entry(p.best, p.score) &&
      (p.goodMatch <==> p.score > threshold)
  {
    var m := MatchesList(query.keypoints, cs);
    FirstBestIsFirstMax(m);
    var best := FirstBest(m);
    BestHeadsLeaderboard(m, best.0, best.1);
  }

  /** Skipped candidates do not change anything the prediction reports. */
  lemma {:induction false} SkippedCandidateKeepsPrediction(query: Query, a: seq<Candidate>, c: Candidate, b: seq<Candidate>,
                                                           threshold: real, visualised: bool)
    requires WellFormed(query.image) && forall x :: x in a + [c] + b ==> Decoded(x)
    requires CandidateEntry(query.keypoints, c).None?
    ensures forall x :: x in a + b ==> Decoded(x)
    ensures Predict(query, a + [c] + b, threshold, visualised) == Predict(query, a + b, threshold, visualised)
  {
    assert forall x :: x in a + b ==> x in a + [c] + b;
    SkippedCandidateIgnored(query.keypoints, a, c, b);
  }

  /**
   * With a query that converts to grayscale, a foreground contour and no
   * scored candidate, the run as written does not report "No good match
   * found": `detected_objects_path` was never assigned, so it ends in the
   * error embed, whatever the threshold and whether or not the I/O would succeed.
   */
  lemma {:induction false} NoScoredCandidateFails(query: Query, cs: seq<Candidate>, threshold: real, visualised: bool)
    requires WellFormed(query.image) && forall c :: c in cs ==> Decoded(c)
    requires query.image.Channelled? && (query.image.channels == 3 || query.image.channels == 4)
    requires query.image.pixels != []
    requires exists j :: 0 <= j < |query.contours| && query.contours[j].area > 0.0
    requires MatchesList(query.keypoints, cs) == []
    ensures Predict(query, cs, threshold, visualised) == Failed
  {
    ConvertedIsGrayConvertible(query.image);
  }

  // ---------------------------------------------------------------------------
  // The evidently intended end of the run

  /**
   * The outcome with `detected_objects_path` assigned before `if best_match:`:
   * no scored candidate leads to `(None, -inf)` and "No good match found".
   */
  datatype IntendedOutcome =
    | IntendedNoForeground
    | IntendedFailed
    | IntendedPredicted(roi: Crop, best: Option<string>, score: Score, leaderboard: seq<Entry>, goodMatch: bool)

  function IntendedPredict(query: Query, cs: seq<Candidate>, threshold: real, visualised: bool): IntendedOutcome
    requires WellFormed(query.image) && forall c :: c in cs ==> Decoded(c)
  {
    var img := EnsureCorrectColorFormat(query.image);
    if img.Failure? || !GrayConvertible(img.value) then IntendedFailed
    else if forall j :: 0 <= j < |query.contours| ==> query.contours[j].area <= 0.0 then IntendedNoForeground
    else
      var box := query.contours[FirstLargest(query.contours)].box;
      var m := MatchesList(query.keypoints, cs);
      var best := FirstBest(m);
      if !visualised then IntendedFailed
      else IntendedPredicted(RoiCrop(box, query.width, query.height), best.0, best.1,
                             Leaderboard(m), GoodMatch(best.1, threshold))
  }

  /**
   * The intended run reports "no good match" with an empty leaderboard when
   * nothing was scored, and agrees with the run as written whenever the
   * best name is not empty.
   */
  lemma {:induction false} IntendedReportsNoMatch(query: Query, cs: seq<Candidate>, threshold: real, visualised: bool)
    requires WellFormed(query.image) && forall c :: c in cs ==> Decoded(c)
    ensures var q := IntendedPredict(query, cs, threshold, visualised);
      q.IntendedPredicted? && MatchesList(query.keypoints, cs) == [] ==>
        q.best == None && q.score == NegInf && q.leaderboard == [] && !q.goodMatch
    ensures var q := IntendedPredict(query, cs, threshold, visualised);
      var p := Predict(query, cs, threshold, visualised);
      q.IntendedPredicted? && q.best.Some? && q.best.value != [] ==>
        p == Predicted(q.roi, q.best.value, q.score.value, q.leaderboard, q.goodMatch)
  {
  }
}
