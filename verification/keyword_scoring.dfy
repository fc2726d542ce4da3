/**
 * The keyword rank scorer of `src/processor/utils/keyword-scoring.ts`: a
 * keyword's position in an importance-ordered list becomes a weight in
 * [0.5, 1.0] along the curve 1 - 0.5 * sqrt(index / (length - 1)).
 */
module KeywordScoring {
  import opened JsMath

  /** `Array.prototype.indexOf`: the first position of `k` in `list`, or -1. */
  function IndexOf(list: seq<string>, k: string): (r: int)
    ensures -1 <= r < |list|
    ensures r == -1 <==> k !in list
    ensures 0 <= r ==> list[r] == k && forall j :: 0 <= j < r ==> list[j] != k
  {
    if |list| == 0 then -1
    else if list[0] == k then 0
    else
      var i := IndexOf(list[1..], k);
      if i == -1 then -1 else i + 1
  }

  /** The unclamped curve value at position `index` of a list of `length >= 2` keywords. */
  function RankCurve(index: nat, length: nat, sqrt: real -> real): real
    requires 2 <= length
  {
    1.0 - 0.5 * sqrt(index as real / (length - 1) as real)
  }

  /**
   * `getKeywordScore`: 0 for a keyword the list lacks, 1.0 in a one-element
   * list, otherwise the curve at the keyword's first position, kept within
   * [0.5, 1.0] by `Math.max(0.5, Math.min(1.0, score))`.
   */
  function KeywordScore(keyword: string, list: seq<string>, sqrt: real -> real): (r: real)
    ensures keyword !in list ==> r == 0.0
    ensures keyword in list ==> 0.5 <= r <= 1.0
    ensures keyword in list && |list| == 1 ==> r == 1.0
  {
    var index := IndexOf(list, keyword);
    if index == -1 then 0.0
    else if |list| == 1 then 1.0
    else
      var score := RankCurve(index, |list|, sqrt);
      var capped := if score < 1.0 then score else 1.0;
      if 0.5 < capped then capped else 0.5
  }

  /** Dividing by a positive denominator keeps the order of numerators. */
  lemma DivisionMonotone(a: real, b: real, d: real)
    requires 0.0 < d && a <= b
    ensures a / d <= b / d
  {
    assert (b / d - a / d) * d == b - a;
    SignOfFactor(b / d - a / d, d);
  }

  /** The normalized index `index / (length - 1)` lies in [0, 1]. */
  lemma NormalizedIndexInUnit(index: nat, length: nat)
    requires index < length && 2 <= length
    ensures 0.0 <= index as real / (length - 1) as real <= 1.0
  {
    var d := (length - 1) as real;
    DivisionMonotone(0.0, index as real, d);
    DivisionMonotone(index as real, d, d);
  }

  /** The curve stays inside [0.5, 1.0] at every position, so the clamp never changes the score. */
  lemma ClampIsInactive(keyword: string, list: seq<string>, sqrt: real -> real)
    requires IsSquareRoot(sqrt)
    requires keyword in list && 2 <= |list|
    ensures 0.5 <= RankCurve(IndexOf(list, keyword), |list|, sqrt) <= 1.0
    ensures KeywordScore(keyword, list, sqrt) == RankCurve(IndexOf(list, keyword), |list|, sqrt)
  {
    var index := IndexOf(list, keyword);
    NormalizedIndexInUnit(index, |list|);
    SqrtUnitInterval(sqrt, index as real / (|list| - 1) as real);
  }

  /** The curve is 1.0 at the front of the list. */
  lemma CurveAtFront(length: nat, sqrt: real -> real)
    requires IsSquareRoot(sqrt)
    requires 2 <= length
    ensures RankCurve(0, length, sqrt) == 1.0
  {
    SqrtOfZeroAndOne(sqrt);
    assert 0 as real / (length - 1) as real == 0.0;
  }

  /** The curve is 0.5 at the back of the list. */
  lemma CurveAtBack(length: nat, sqrt: real -> real)
    requires IsSquareRoot(sqrt)
    requires 2 <= length
    ensures RankCurve(length - 1, length, sqrt) == 0.5
  {
    SqrtOfZeroAndOne(sqrt);
    assert (length - 1) as real / (length - 1) as real == 1.0;
  }

  /** Index 0 scores exactly 1.0 and the last position exactly 0.5. */
  lemma EndpointScores(list: seq<string>, sqrt: real -> real)
    requires IsSquareRoot(sqrt)
    requires 2 <= |list|
    ensures KeywordScore(list[0], list, sqrt) == 1.0
    ensures IndexOf(list, list[|list| - 1]) == |list| - 1 ==>
              KeywordScore(list[|list| - 1], list, sqrt) == 0.5
  {
    assert IndexOf(list, list[0]) == 0;
    ClampIsInactive(list[0], list, sqrt);
    CurveAtFront(|list|, sqrt);
    if IndexOf(list, list[|list| - 1]) == |list| - 1 {
      ClampIsInactive(list[|list| - 1], list, sqrt);
      CurveAtBack(|list|, sqrt);
    }
  }

  /** A keyword whose first position is later never scores more than one whose first position is earlier. */
  lemma ScoreNonIncreasingInIndex(k1: string, k2: string, list: seq<string>, sqrt: real -> real)
    requires IsSquareRoot(sqrt)
    requires k1 in list && k2 in list
    requires IndexOf(list, k1) <= IndexOf(list, k2)
    ensures KeywordScore(k1, list, sqrt) >= KeywordScore(k2, list, sqrt)
  {
    if 2 <= |list| {
      var i, j := IndexOf(list, k1), IndexOf(list, k2);
      var d := (|list| - 1) as real;
      DivisionMonotone(i as real, j as real, d);
      DivisionMonotone(0.0, i as real, d);
      SqrtMonotone(sqrt, i as real / d, j as real / d);
      ClampIsInactive(k1, list, sqrt);
      ClampIsInactive(k2, list, sqrt);
    }
  }

  /** Past the front of the list the curve is strictly below 1.0. */
  lemma CurveBelowOneBehindFront(index: nat, length: nat, sqrt: real -> real)
    requires IsSquareRoot(sqrt)
    requires 0 < index < length
    ensures RankCurve(index, length, sqrt) < 1.0
  {
    var d := (length - 1) as real;
    DivisionMonotone(1.0, index as real, d);
    assert 0.0 < 1.0 / d;
    SqrtPositive(sqrt, index as real / d);
  }

  /** Only the first position of a list scores 1.0; every later first position scores strictly less. */
  lemma FullScoreOnlyAtFront(keyword: string, list: seq<string>, sqrt: real -> real)
    requires IsSquareRoot(sqrt)
    requires keyword in list
    ensures KeywordScore(keyword, list, sqrt) == 1.0 <==> IndexOf(list, keyword) == 0
  {
    var index := IndexOf(list, keyword);
    if 2 <= |list| {
      ClampIsInactive(keyword, list, sqrt);
      if index == 0 {
        CurveAtFront(|list|, sqrt);
      } else {
        CurveBelowOneBehindFront(index, |list|, sqrt);
      }
    }
  }

  /** A keyword listed twice is scored by its first position, because `indexOf` finds the first. */
  lemma RepeatedKeywordUsesFirstPosition(list: seq<string>, i: nat, j: nat, sqrt: real -> real)
    requires IsSquareRoot(sqrt)
    requires i < j < |list| && list[i] == list[j]
    requires forall m :: 0 <= m < i ==> list[m] != list[i]
    ensures IndexOf(list, list[j]) == i
    ensures KeywordScore(list[j], list, sqrt) == RankCurve(i, |list|, sqrt)
  {
    ClampIsInactive(list[j], list, sqrt);
  }
}
