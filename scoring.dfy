/**
 * The arithmetic and ranking of `predict_pokemon` and `calculate_similarity`
 * (Cogs/ai.py): the keypoint ratio, equal-weight fusion, numpy mean and
 * `round(x, 4)`, the stable descending sort of the candidate list, the top-6
 * leaderboard and the strict threshold test.
 */
module Scoring {
  import opened Wrappers

  /** `highest_score[0]`: minus infinity until a candidate has been scored. */
  datatype Score = NegInf | Finite(value: real)

  /** One `(pokemon_name, combined_similarity)` element of `matches_list`. */
  datatype Entry = Entry(name: string, score: real)

  /**
   * `len(matches) / len(kp1) if kp1 else 0`: the share of query keypoints with
   * a cross-checked match, 0 when the query region has no keypoints at all.
   */
  function StructuralScore(matchCount: nat, queryKeypoints: nat): (r: real)
    ensures queryKeypoints == 0 ==> r == 0.0
    ensures queryKeypoints > 0 ==> r * (queryKeypoints as real) == matchCount as real
    ensures 0.0 <= r
    ensures matchCount <= queryKeypoints ==> r <= 1.0
  {
    if queryKeypoints == 0 then 0.0 else matchCount as real / queryKeypoints as real
  }

  /** `(similarity_score + contour_similarity[0]) / 2`: both scores weigh the same. */
  function CombinedScore(structural: real, regional: real): (r: real)
    ensures r - structural == regional - r
    ensures (if structural <= regional then structural else regional) <= r
    ensures r <= (if structural <= regional then regional else structural)
  {
    (structural + regional) / 2.0
  }

  /**
   * `highest_score[0] > threshold`: a best score exactly at the threshold, or
   * no scored candidate at all, is reported as "No good match found".
   */
  function GoodMatch(best: Score, threshold: real): (r: bool)
    ensures r ==> best.Finite? && best.value > threshold
    ensures best.Finite? && best.value > threshold ==> r
    ensures best == Finite(threshold) ==> !r
  {
    match best
    case NegInf => false
    case Finite(v) => v > threshold
  }

  // ---------------------------------------------------------------------------
  // numpy mean and round(x, 4)

  function Sum(values: seq<real>): real {
    if values == [] then 0.0 else values[0] + Sum(values[1..])
  }

  /** `np.mean` over a non-empty list, in exact arithmetic. */
  function Mean(values: seq<real>): real
    requires |values| > 0
  {
    Sum(values) / (|values| as real)
  }

  lemma {:induction false} SumBounds(values: seq<real>, lo: real, hi: real)
    requires forall k :: 0 <= k < |values| ==> lo <= values[k] <= hi
    ensures (|values| as real) * lo <= Sum(values) <= (|values| as real) * hi
  {
    if values != [] {
      SumBounds(values[1..], lo, hi);
    }
  }

  /** The mean lies between any lower and upper bound of the values it averages. */
  lemma {:induction false} MeanBounds(values: seq<real>, lo: real, hi: real)
    requires |values| > 0
    requires forall k :: 0 <= k < |values| ==> lo <= values[k] <= hi
    ensures lo <= Mean(values) <= hi
  {
    SumBounds(values, lo, hi);
    var n := |values| as real;
    assert Mean(values) * n == Sum(values);
  }

  /**
   * Round half to even, as numpy rounds: the nearest integer, and on a tie the
   * even one of the two neighbours.
   */
  function RoundHalfEven(x: real): (r: int)
    ensures r as real - x <= 0.5 && x - r as real <= 0.5
    ensures (r as real - x == 0.5 || x - r as real == 0.5) ==> r % 2 == 0
  {
    var f := x.Floor;
    var d := x - f as real;
    if d < 0.5 then f
    else if d > 0.5 then f + 1
    else if f % 2 == 0 then f
    else f + 1
  }

  /** `round(x, 4)`: x to the nearest multiple of 1/10000, ties to even. */
  function Round4(x: real): (r: real)
    ensures r - x <= 1.0 / 20000.0 && x - r <= 1.0 / 20000.0
  {
    RoundHalfEven(x * 10000.0) as real / 10000.0
  }

  /** Rounding to four decimals keeps a value of [0, 1] in [0, 1]. */
  lemma {:induction false} Round4InUnit(x: real)
    requires 0.0 <= x <= 1.0
    ensures 0.0 <= Round4(x) <= 1.0
  {
    var k := RoundHalfEven(x * 10000.0);
    assert 0 <= k <= 10000;
  }

  /** Rounding keeps a value of [0, m/10000] in [0, m/10000]: both bounds lie on the grid. */
  lemma {:induction false} Round4Within(x: real, m: nat)
    requires 0.0 <= x <= m as real / 10000.0
    ensures 0.0 <= Round4(x) <= m as real / 10000.0
  {
    var k := RoundHalfEven(x * 10000.0);
    assert 0.0 <= x * 10000.0 <= m as real;
    assert 0 <= k <= m;
  }

  /** A value already on the 1/10000 grid is left as it is. */
  lemma {:induction false} Round4OnGrid(k: int)
    ensures Round4(k as real / 10000.0) == k as real / 10000.0
  {
    var y := (k as real / 10000.0) * 10000.0;
    assert y == k as real;
    assert y.Floor == k;
  }

  // ---------------------------------------------------------------------------
  // sorted(matches_list, key=score, reverse=True)

  /**
   * Puts `e` before the first element that does not score higher, so an earlier
   * element stays ahead of later ones with the same score.
   */
  function InsertDesc(e: Entry, s: seq<Entry>): (r: seq<Entry>)
    ensures |r| == |s| + 1
  {
    if s == [] || e.score >= s[0].score then [e] + s
    else [s[0]] + InsertDesc(e, s[1..])
  }

  /** Python's stable `sorted(..., reverse=True)` on the score, as an insertion sort. */
  function SortDesc(s: seq<Entry>): (r: seq<Entry>)
    ensures |r| == |s|
  {
    if s == [] then [] else InsertDesc(s[0], SortDesc(s[1..]))
  }

  ghost predicate SortedDesc(s: seq<Entry>) {
    forall i, j :: 0 <= i < j < |s| ==> s[i].score >= s[j].score
  }

  /** The entries of `s` with score `v`, in their order in `s`. */
  function WithScore(s: seq<Entry>, v: real): seq<Entry> {
    if s == [] then []
    else (if s[0].score == v then [s[0]] else []) + WithScore(s[1..], v)
  }

  lemma {:induction false} InsertDescPermutation(e: Entry, s: seq<Entry>)
    ensures multiset(InsertDesc(e, s)) == multiset(s) + multiset{e}
  {
    if s != [] && e.score < s[0].score {
      InsertDescPermutation(e, s[1..]);
      assert s == [s[0]] + s[1..];
      assert InsertDesc(e, s) == [s[0]] + InsertDesc(e, s[1..]);
    }
  }

  lemma {:induction false} InsertDescSorted(e: Entry, s: seq<Entry>)
    requires SortedDesc(s)
    ensures SortedDesc(InsertDesc(e, s))
  {
    if s == [] || e.score >= s[0].score {
      SortedCons(e, s);
    } else {
      var t := InsertDesc(e, s[1..]);
      assert SortedDesc(s[1..]) by {
        forall i, j | 0 <= i < j < |s[1..]| ensures s[1..][i].score >= s[1..][j].score {
          assert s[1..][i] == s[i + 1] && s[1..][j] == s[j + 1];
        }
      }
      InsertDescSorted(e, s[1..]);
      InsertDescBelow(e, s[1..], s[0].score);
      SortedCons(s[0], t);
    }
  }

  /** An entry scoring at least every entry of a sorted sequence can go in front of it. */
  lemma SortedCons(x: Entry, t: seq<Entry>)
    requires SortedDesc(t) && forall k :: 0 <= k < |t| ==> t[k].score <= x.score
    ensures SortedDesc([x] + t)
  {
    var r := [x] + t;
    forall i, j | 0 <= i < j < |r| ensures r[i].score >= r[j].score {
      assert r[j] == t[j - 1];
      if i > 0 {
        assert r[i] == t[i - 1];
      }
    }
  }

  /** Inserting an entry under a bound that every entry respects keeps every entry under it. */
  lemma {:induction false} InsertDescBelow(e: Entry, s: seq<Entry>, b: real)
    requires e.score <= b && forall k :: 0 <= k < |s| ==> s[k].score <= b
    ensures forall k :: 0 <= k < |InsertDesc(e, s)| ==> InsertDesc(e, s)[k].score <= b
  {
    var r := InsertDesc(e, s);
    if s == [] || e.score >= s[0].score {
      assert r == [e] + s;
      assert forall k :: 1 <= k < |r| ==> r[k] == s[k - 1];
    } else {
      InsertDescBelow(e, s[1..], b);
      var t := InsertDesc(e, s[1..]);
      assert r == [s[0]] + t;
      assert forall k :: 1 <= k < |r| ==> r[k] == t[k - 1];
    }
  }

  /** The sort orders by descending score and is a permutation of its input. */
  lemma {:induction false} SortDescSortedPermutation(s: seq<Entry>)
    ensures SortedDesc(SortDesc(s))
    ensures multiset(SortDesc(s)) == multiset(s)
  {
    if s != [] {
      SortDescSortedPermutation(s[1..]);
      InsertDescSorted(s[0], SortDesc(s[1..]));
      InsertDescPermutation(s[0], SortDesc(s[1..]));
      assert s == [s[0]] + s[1..];
    }
  }

  lemma {:induction false} WithScoreInsert(e: Entry, s: seq<Entry>, v: real)
    ensures WithScore(InsertDesc(e, s), v) ==
            (if e.score == v then [e] else []) + WithScore(s, v)
  {
    var r := InsertDesc(e, s);
    if s == [] || e.score >= s[0].score {
      assert r == [e] + s;
      assert r[0] == e && r[1..] == s;
    } else {
      var t := InsertDesc(e, s[1..]);
      WithScoreInsert(e, s[1..], v);
      assert r == [s[0]] + t;
      assert r[0] == s[0] && r[1..] == t;
      var head := if s[0].score == v then [s[0]] else [];
      var mine := if e.score == v then [e] else [];
      assert WithScore(r, v) == head + WithScore(t, v);
      assert WithScore(s, v) == head + WithScore(s[1..], v);
      assert head == [] || mine == [];
    }
  }

  /** Stability: entries of equal score keep their relative order through the sort. */
  lemma {:induction false} SortDescStable(s: seq<Entry>, v: real)
    ensures WithScore(SortDesc(s), v) == WithScore(s, v)
  {
    if s != [] {
      SortDescStable(s[1..], v);
      WithScoreInsert(s[0], SortDesc(s[1..]), v);
    }
  }

  // ---------------------------------------------------------------------------
  // Best match and leaderboard

  /** Index k holds the first entry of `m` with the maximal score. */
  ghost predicate FirstMaxAt(m: seq<Entry>, k: int) {
    0 <= k < |m| &&
    (forall j :: 0 <= j < |m| ==> m[j].score <= m[k].score) &&
    (forall j :: 0 <= j < k ==> m[j].score < m[k].score)
  }

  lemma FirstMaxUnique(m: seq<Entry>, k1: int, k2: int)
    requires FirstMaxAt(m, k1) && FirstMaxAt(m, k2)
    ensures k1 == k2
  {
    var first, second := m[k1], m[k2];
  }

  /**
   * What the scan of `predict_pokemon` reports: no name and minus infinity for
   * an empty list, otherwise the name and score of the first entry that reaches
   * the maximum (a later entry replaces the best only when strictly greater).
   */
  ghost predicate IsFirstBest(m: seq<Entry>, best: Option<string>, score: Score) {
    if m == [] then best == None && score == NegInf
    else exists k :: FirstMaxAt(m, k) && best == Some(m[k].name) && score == Finite(m[k].score)
  }

  /** The head of the stable descending sort is the first entry with the maximal score. */
  lemma {:induction false} SortHeadIsFirstMax(m: seq<Entry>)
    requires m != []
    ensures exists k :: FirstMaxAt(m, k) && SortDesc(m)[0] == m[k]
  {
    var t := m[1..];
    assert forall j :: 1 <= j < |m| ==> m[j] == t[j - 1];
    if t == [] {
      assert FirstMaxAt(m, 0);
    } else {
      SortHeadIsFirstMax(t);
      var k' :| FirstMaxAt(t, k') && SortDesc(t)[0] == t[k'];
      var st := SortDesc(t);
      InsertDescHead(m[0], st);
      if m[0].score >= st[0].score {
        assert FirstMaxAt(m, 0);
      } else {
        assert FirstMaxAt(m, k' + 1);
      }
    }
  }

  /** The head after an insertion: the inserted entry when it scores at least the old head. */
  lemma InsertDescHead(e: Entry, s: seq<Entry>)
    ensures InsertDesc(e, s)[0] == if s == [] || e.score >= s[0].score then e else s[0]
  {
  }

  /** The leaderboard: the sorted list cut to its first six entries. */
  function Leaderboard(m: seq<Entry>): (r: seq<Entry>)
    ensures |r| == if |m| < 6 then |m| else 6
  {
    var sorted := SortDesc(m);
    if |sorted| <= 6 then sorted else sorted[..6]
  }

  lemma SortedPrefixDominates(s: seq<Entry>, n: nat, x: Entry, y: Entry)
    requires SortedDesc(s) && n <= |s|
    requires x in s[..n] && y in s[n..]
    ensures y.score <= x.score
  {
    var i :| 0 <= i < n && s[..n][i] == x;
    var j :| 0 <= j < |s| - n && s[n..][j] == y;
    assert s[i] == x && s[n + j] == y;
  }

  /**
   * The leaderboard holds up to six entries of `matches_list`, in descending
   * order, and no entry left off scores more than an entry shown.
   */
  lemma {:induction false} LeaderboardIsTopSix(m: seq<Entry>)
    ensures SortedDesc(Leaderboard(m))
    ensures multiset(Leaderboard(m)) <= multiset(m)
    ensures forall x, y :: x in Leaderboard(m) && y in multiset(m) - multiset(Leaderboard(m)) ==>
      y.score <= x.score
  {
    var sorted := SortDesc(m);
    SortDescSortedPermutation(m);
    var n := if |sorted| <= 6 then |sorted| else 6;
    var r := Leaderboard(m);
    assert r == sorted[..n];
    assert sorted == sorted[..n] + sorted[n..];
    assert multiset(m) == multiset(r) + multiset(sorted[n..]);
    forall x, y | x in r && y in multiset(m) - multiset(r) ensures y.score <= x.score {
      assert y in multiset(sorted[n..]);
      SortedPrefixDominates(sorted, n, x, y);
    }
  }

  /**
   * The best match tracked by the scan is the head of the leaderboard: the
   * first-wins rule and the stable sort agree on ties.
   */
  lemma {:induction false} BestHeadsLeaderboard(m: seq<Entry>, best: Option<string>, score: Score)
    requires m != [] && IsFirstBest(m, best, score)
    ensures best.Some? && score.Finite?
    ensures Leaderboard(m)[0] == Entry(best.value, score.value)
  {
    var k :| FirstMaxAt(m, k) && best == Some(m[k].name) && score == Finite(m[k].score);
    SortHeadIsFirstMax(m);
    var k2 :| FirstMaxAt(m, k2) && SortDesc(m)[0] == m[k2];
    FirstMaxUnique(m, k, k2);
  }
}
