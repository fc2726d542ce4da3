/**
 * The daily mood index, `calculateDailyMoodIndex`: every sentiment sample
 * that is not neutral and reaches the dead-zone threshold becomes an impact
 * of plus or minus the squared normalized confidence; the impacts are
 * sorted, a tenth of them is trimmed from each end, and the mean of the rest
 * is mapped from [-1, 1] onto [0, 100].
 */
module MoodIndex {
  import opened JsMath

  datatype Sentiment = Positive | Negative | Neutral

  /** One sentiment sample: a label, a confidence percentage and the subject it is about. */
  datatype SentimentAnalysis = SentimentAnalysis(sentiment: Sentiment, confidence: real, subject: string)

  /** Confidence below this percentage is ignored. */
  const DeadZoneThreshold: real := 30.0

  /** A sample that contributes an impact: not neutral and not in the dead zone. */
  predicate IsRetained(a: SentimentAnalysis)
  {
    a.sentiment != Neutral && !(a.confidence < DeadZoneThreshold)
  }

  /** `direction * ((confidence - 30) / 70) ^ 2`: positive samples push up, all others down. */
  function Impact(a: SentimentAnalysis): real
  {
    var direction := if a.sentiment == Positive then 1.0 else -1.0;
    var normalized := (a.confidence - DeadZoneThreshold) / (100.0 - DeadZoneThreshold);
    direction * (normalized * normalized)
  }

  /** The impacts of the retained samples, in input order. */
  function Impacts(results: seq<SentimentAnalysis>): (r: seq<real>)
    ensures |r| <= |results|
    ensures forall x :: x in r ==> exists a :: a in results && IsRetained(a) && x == Impact(a)
  {
    if results == [] then []
    else
      var init := results[..|results| - 1];
      var last := results[|results| - 1];
      assert forall a :: a in init ==> a in results;
      if IsRetained(last) then Impacts(init) + [Impact(last)] else Impacts(init)
  }

  lemma ImpactsSnoc(results: seq<SentimentAnalysis>, a: SentimentAnalysis)
    ensures Impacts(results + [a]) == if IsRetained(a) then Impacts(results) + [Impact(a)] else Impacts(results)
  {
    assert (results + [a])[..|results|] == results;
  }

  predicate Sorted(s: seq<real>)
  {
    forall i, j :: 0 <= i < j < |s| ==> s[i] <= s[j]
  }

  /** A value no larger than any element of a sorted sequence can go in front of it. */
  lemma SortedCons(a: real, s: seq<real>)
    requires Sorted(s)
    requires forall y :: y in s ==> a <= y
    ensures Sorted([a] + s)
  {
    var t := [a] + s;
    forall i, j | 0 <= i < j < |t| ensures t[i] <= t[j] {
      if i == 0 {
        assert t[j] == s[j - 1];
        assert s[j - 1] in s;
      } else {
        assert t[i] == s[i - 1] && t[j] == s[j - 1];
      }
    }
  }

  /** Inserting before a first element that is not smaller keeps the order. */
  lemma InsertInFront(x: real, s: seq<real>)
    requires Sorted(s) && (s == [] || x <= s[0])
    ensures Sorted([x] + s)
  {
    forall y | y in s ensures x <= y {
      HeadIsMinimum(s, y);
    }
    SortedCons(x, s);
  }

  /** Inserting after a smaller first element keeps that element in front. */
  lemma InsertBehind(x: real, s: seq<real>, rest: seq<real>)
    requires Sorted(s) && s != [] && s[0] < x
    requires Sorted(rest) && multiset(rest) == multiset(s[1..]) + multiset{x}
    ensures Sorted([s[0]] + rest)
  {
    assert s == [s[0]] + s[1..];
    forall y | y in rest ensures s[0] <= y {
      assert y in multiset(rest);
      if y != x {
        assert y in multiset(s[1..]);
        HeadIsMinimum(s, y);
      }
    }
    SortedCons(s[0], rest);
  }

  /** Inserts `x` into a sorted sequence before the first larger element. */
  function Insert(x: real, s: seq<real>): (r: seq<real>)
    requires Sorted(s)
    ensures Sorted(r)
    ensures multiset(r) == multiset(s) + multiset{x}
    ensures |r| == |s| + 1
  {
    if s == [] || x <= s[0] then
      InsertInFront(x, s);
      [x] + s
    else
      SortedTail(s);
      var rest := Insert(x, s[1..]);
      InsertBehind(x, s, rest);
      assert s == [s[0]] + s[1..];
      [s[0]] + rest
  }

  /** `impactfulScores.sort((a, b) => a - b)`: the impacts in ascending order. */
  function SortAscending(s: seq<real>): (r: seq<real>)
    ensures Sorted(r)
    ensures multiset(r) == multiset(s)
    ensures |r| == |s|
  {
    if s == [] then []
    else
      assert s == [s[0]] + s[1..];
      Insert(s[0], SortAscending(s[1..]))
  }

  /** `Math.floor(n * 0.1)`: the number of impacts trimmed from each end. */
  function TrimCount(n: nat): (t: nat)
    ensures t == n / 10
  {
    var q := n / 10;
    assert n as real * 0.1 == q as real + (n % 10) as real / 10.0;
    (n as real * 0.1).Floor
  }

  /** `reduce((sum, score) => sum + score, 0)`: the sum, added left to right. */
  function Sum(s: seq<real>): real
  {
    if s == [] then 0.0 else Sum(s[..|s| - 1]) + s[|s| - 1]
  }

  /** The mean of the middle of a sorted sequence of impacts, mapped from [-1, 1] onto [0, 100]. */
  function MoodOfSorted(sorted: seq<real>): int
  {
    var trimCount := TrimCount(|sorted|);
    var trimmed := sorted[trimCount..|sorted| - trimCount];
    if |trimmed| == 0 then 50
    else Round((Sum(trimmed) / |trimmed| as real + 1.0) * 50.0)
  }

  /** The index of a sequence of impacts: the trimmed mean of the sorted impacts, or 50 without impacts. */
  function MoodOfImpacts(scores: seq<real>): int
  {
    if |scores| == 0 then 50 else MoodOfSorted(SortAscending(scores))
  }

  /** The daily mood index of a batch of sentiment samples. */
  function MoodIndex(results: seq<SentimentAnalysis>): int
  {
    MoodOfImpacts(Impacts(results))
  }

  /** `calculateDailyMoodIndex`: collect the impacts, sort, trim, average and scale. */
  method CalculateDailyMoodIndex(results: seq<SentimentAnalysis>) returns (r: int)
    ensures r == MoodIndex(results)
  {
    var impactfulScores: seq<real> := [];
    for i := 0 to |results|
      invariant impactfulScores == Impacts(results[..i])
    {
      var result := results[i];
      assert results[..i + 1] == results[..i] + [result];
      ImpactsSnoc(results[..i], result);
      if result.sentiment == Neutral || result.confidence < DeadZoneThreshold {
        assert !IsRetained(result);
        assert impactfulScores == Impacts(results[..i + 1]);
        continue;
      }
      var direction := if result.sentiment == Positive then 1.0 else -1.0;
      var normalizedConfidence := (result.confidence - DeadZoneThreshold) / (100.0 - DeadZoneThreshold);
      var magnitude := normalizedConfidence * normalizedConfidence;
      ImpactFormula(result, direction, normalizedConfidence, magnitude);
      impactfulScores := impactfulScores + [direction * magnitude];
    }
    assert results[..|results|] == results;
    if |impactfulScores| == 0 {
      return 50;
    }
    ghost var impacts := impactfulScores;
    impactfulScores := SortAscending(impactfulScores);
    assert MoodIndex(results) == MoodOfSorted(impactfulScores);
    var trimCount := TrimCount(|impactfulScores|);
    TrimmedSliceNonEmpty(|impactfulScores|);
    var trimmedScores := impactfulScores[trimCount..|impactfulScores| - trimCount];
    if |trimmedScores| == 0 {
      // the source falls back to 50 here; the branch is dead, see TrimmedSliceNonEmpty
      assert false;
    }
    var totalScore := Sum(trimmedScores);
    var averageImpact := totalScore / |trimmedScores| as real;
    var moodIndex := (averageImpact + 1.0) * 50.0;
    r := Round(moodIndex);
    TrimmedMeanSteps(impactfulScores, trimCount, trimmedScores, totalScore, averageImpact, moodIndex);
  }

  /** The method's trim, sum, mean and scaling of a non-empty sorted sequence are `MoodOfSorted`. */
  lemma TrimmedMeanSteps(sorted: seq<real>, trimCount: nat, trimmed: seq<real>, total: real, average: real,
                         moodIndex: real)
    requires trimCount == TrimCount(|sorted|) && trimCount <= |sorted| - trimCount
    requires trimmed == sorted[trimCount..|sorted| - trimCount] && trimmed != []
    requires total == Sum(trimmed) && average == total / |trimmed| as real && moodIndex == (average + 1.0) * 50.0
    ensures Round(moodIndex) == MoodOfSorted(sorted)
  {
  }

  /** The loop's step-by-step computation of a retained sample's impact. */
  lemma ImpactFormula(a: SentimentAnalysis, direction: real, normalizedConfidence: real, magnitude: real)
    requires direction == if a.sentiment == Positive then 1.0 else -1.0
    requires normalizedConfidence == (a.confidence - DeadZoneThreshold) / (100.0 - DeadZoneThreshold)
    requires magnitude == normalizedConfidence * normalizedConfidence
    ensures direction * magnitude == Impact(a)
  {
  }

  lemma {:induction false} ImpactsConcat(a: seq<SentimentAnalysis>, b: seq<SentimentAnalysis>)
    ensures Impacts(a + b) == Impacts(a) + Impacts(b)
    decreases |b|
  {
    if b == [] {
      assert a + b == a;
    } else {
      var init := b[..|b| - 1];
      var last := b[|b| - 1];
      assert b == init + [last];
      assert a + b == (a + init) + [last];
      ImpactsConcat(a, init);
      ImpactsSnoc(a + init, last);
      ImpactsSnoc(init, last);
    }
  }

  /** A neutral or dead-zone sample, wherever it sits, does not change the index. */
  lemma DeadSampleIgnored(before: seq<SentimentAnalysis>, a: SentimentAnalysis, after: seq<SentimentAnalysis>)
    requires !IsRetained(a)
    ensures MoodIndex(before + [a] + after) == MoodIndex(before + after)
  {
    ImpactsConcat(before + [a], after);
    ImpactsSnoc(before, a);
    ImpactsConcat(before, after);
  }

  /** Without a retained sample there are no impacts and the index is the neutral 50. */
  lemma {:induction false} NothingRetainedGivesFifty(results: seq<SentimentAnalysis>)
    requires forall a :: a in results ==> !IsRetained(a)
    ensures Impacts(results) == []
    ensures MoodIndex(results) == 50
  {
    if results != [] {
      var init := results[..|results| - 1];
      assert results == init + [results[|results| - 1]];
      NothingRetainedGivesFifty(init);
    }
  }

  /** A positive sample pushes the index up, every other label down. */
  lemma ImpactSign(a: SentimentAnalysis)
    ensures a.sentiment == Positive ==> 0.0 <= Impact(a)
    ensures a.sentiment != Positive ==> Impact(a) <= 0.0
  {
    var n := (a.confidence - DeadZoneThreshold) / (100.0 - DeadZoneThreshold);
    assert 0.0 <= n * n;
  }

  /** A retained sample with confidence at most 100 has an impact in [-1, 1]. */
  lemma ImpactRange(a: SentimentAnalysis)
    requires IsRetained(a) && a.confidence <= 100.0
    ensures -1.0 <= Impact(a) <= 1.0
  {
    var n := (a.confidence - DeadZoneThreshold) / (100.0 - DeadZoneThreshold);
    assert 0.0 <= n <= 1.0;
    assert 0.0 <= n * n <= n;
  }

  /** The first element of a sorted sequence is its minimum. */
  lemma HeadIsMinimum(s: seq<real>, v: real)
    requires Sorted(s) && v in multiset(s)
    ensures s[0] <= v
  {
    var j :| 0 <= j < |s| && s[j] == v;
    if 0 < j {
      assert s[0] <= s[j];
    }
  }

  lemma SortedTail(s: seq<real>)
    requires Sorted(s) && s != []
    ensures Sorted(s[1..])
  {
    forall i, j | 0 <= i < j < |s| - 1 ensures s[1..][i] <= s[1..][j] {
      assert s[1..][i] == s[i + 1] && s[1..][j] == s[j + 1];
    }
  }

  /** Two sorted arrangements of the same values are the same sequence. */
  lemma {:induction false} SortedUnique(a: seq<real>, b: seq<real>)
    requires Sorted(a) && Sorted(b) && multiset(a) == multiset(b)
    ensures a == b
    decreases |a|
  {
    if a != [] {
      SortedSameHead(a, b);
      SortedTail(a);
      SortedTail(b);
      SortedUnique(a[1..], b[1..]);
      assert a == [a[0]] + a[1..] && b == [b[0]] + b[1..];
    }
  }

  /** Two sorted arrangements of the same non-empty values start alike and continue with the same values. */
  lemma SortedSameHead(a: seq<real>, b: seq<real>)
    requires Sorted(a) && Sorted(b) && multiset(a) == multiset(b) && a != []
    ensures b != [] && a[0] == b[0] && multiset(a[1..]) == multiset(b[1..])
  {
    assert a[0] in multiset(b);
    HeadIsMinimum(b, a[0]);
    assert b[0] in multiset(a);
    HeadIsMinimum(a, b[0]);
    RemoveHead(a);
    RemoveHead(b);
  }

  lemma RemoveHead(s: seq<real>)
    requires s != []
    ensures multiset(s[1..]) == multiset(s) - multiset{s[0]}
  {
    assert s == [s[0]] + s[1..];
  }

  /** The impacts a single sample adds. */
  function ImpactOf(a: SentimentAnalysis): seq<real>
  {
    if IsRetained(a) then [Impact(a)] else []
  }

  lemma ImpactsAround(p: seq<SentimentAnalysis>, a: SentimentAnalysis, q: seq<SentimentAnalysis>)
    ensures multiset(Impacts(p + [a] + q)) == multiset(Impacts(p + q)) + multiset(ImpactOf(a))
  {
    ImpactsConcat(p + [a], q);
    ImpactsSnoc(p, a);
    ImpactsConcat(p, q);
  }

  lemma RemoveAt(ys: seq<SentimentAnalysis>, j: nat)
    requires j < |ys|
    ensures ys == ys[..j] + [ys[j]] + ys[j + 1..]
    ensures multiset(ys[..j] + ys[j + 1..]) == multiset(ys) - multiset{ys[j]}
  {
    assert ys == ys[..j] + [ys[j]] + ys[j + 1..];
  }

  /** Reordering the samples reorders their impacts. */
  lemma {:induction false} ImpactsPermutation(xs: seq<SentimentAnalysis>, ys: seq<SentimentAnalysis>)
    requires multiset(xs) == multiset(ys)
    ensures multiset(Impacts(xs)) == multiset(Impacts(ys))
    decreases |xs|
  {
    if xs != [] {
      var init := xs[..|xs| - 1];
      var last := xs[|xs| - 1];
      assert xs == init + [last] + [];
      assert last in multiset(ys);
      var j :| 0 <= j < |ys| && ys[j] == last;
      RemoveAt(ys, j);
      RemoveAt(xs, |xs| - 1);
      ImpactsPermutation(init, ys[..j] + ys[j + 1..]);
      ImpactsAround(init, last, []);
      ImpactsAround(ys[..j], last, ys[j + 1..]);
      assert init + [] == init;
    }
  }

  /** The index does not depend on the order of the samples. */
  lemma MoodIndexIgnoresOrder(xs: seq<SentimentAnalysis>, ys: seq<SentimentAnalysis>)
    requires multiset(xs) == multiset(ys)
    ensures MoodIndex(xs) == MoodIndex(ys)
  {
    var a, b := Impacts(xs), Impacts(ys);
    ImpactsPermutation(xs, ys);
    assert |a| == |multiset(a)| == |multiset(b)| == |b|;
    SortedUnique(SortAscending(a), SortAscending(b));
    assert MoodOfImpacts(a) == MoodOfImpacts(b);
  }

  /** For at least one impact, trimming a tenth from each end leaves n - 2 * floor(n / 10) >= 1 of them. */
  lemma TrimmedSliceNonEmpty(n: nat)
    requires 1 <= n
    ensures TrimCount(n) <= n - TrimCount(n)
    ensures n - 2 * TrimCount(n) >= 1
  {
  }

  /** Cutting a sorted sequence in three keeps every element of a part below those of later parts. */
  lemma SortedThirds(s: seq<real>, low: seq<real>, kept: seq<real>, high: seq<real>)
    requires Sorted(s) && s == low + kept + high
    ensures multiset(low) + multiset(kept) + multiset(high) == multiset(s)
    ensures forall i, j :: 0 <= i < |low| && 0 <= j < |kept| ==> low[i] <= kept[j]
    ensures forall j, k :: 0 <= j < |kept| && 0 <= k < |high| ==> kept[j] <= high[k]
  {
    forall i, j | 0 <= i < |low| && 0 <= j < |kept| ensures low[i] <= kept[j] {
      assert low[i] == s[i] && kept[j] == s[|low| + j];
    }
    forall j, k | 0 <= j < |kept| && 0 <= k < |high| ensures kept[j] <= high[k] {
      assert kept[j] == s[|low| + j] && high[k] == s[|low| + |kept| + k];
    }
  }

  /** Trimming `t` from each end of a sorted permutation of the impacts, with `2 * t` at most their number. */
  lemma TrimOfSorted(scores: seq<real>, sorted: seq<real>, t: nat)
    requires Sorted(sorted) && multiset(sorted) == multiset(scores)
    requires 2 * t <= |sorted|
    ensures multiset(sorted[..t]) + multiset(sorted[t..|sorted| - t]) + multiset(sorted[|sorted| - t..])
            == multiset(scores)
    ensures forall i, j :: 0 <= i < t && t <= j < |sorted| - t ==> sorted[i] <= sorted[j]
    ensures forall j, k :: t <= j < |sorted| - t && |sorted| - t <= k < |sorted| ==> sorted[j] <= sorted[k]
  {
    var n := |sorted|;
    assert sorted == sorted[..t] + sorted[t..n - t] + sorted[n - t..];
    SortedThirds(sorted, sorted[..t], sorted[t..n - t], sorted[n - t..]);
  }

  /**
   * After sorting, the trim drops exactly floor(n / 10) impacts at each end,
   * none larger than a kept one at the bottom and none smaller at the top.
   */
  lemma TrimDropsExtremes(scores: seq<real>, sorted: seq<real>, t: nat)
    requires sorted == SortAscending(scores) && t == TrimCount(|scores|)
    ensures t == |scores| / 10 && 2 * t <= |sorted|
    ensures multiset(sorted[..t]) + multiset(sorted[t..|sorted| - t]) + multiset(sorted[|sorted| - t..])
            == multiset(scores)
    ensures forall i, j :: 0 <= i < t && t <= j < |sorted| - t ==> sorted[i] <= sorted[j]
    ensures forall j, k :: t <= j < |sorted| - t && |sorted| - t <= k < |sorted| ==> sorted[j] <= sorted[k]
  {
    TrimOfSorted(scores, sorted, t);
  }

  lemma {:induction false} SumAtLeast(s: seq<real>, lo: real)
    requires forall i :: 0 <= i < |s| ==> lo <= s[i]
    ensures |s| as real * lo <= Sum(s)
  {
    if s != [] {
      var init := s[..|s| - 1];
      assert forall i :: 0 <= i < |init| ==> init[i] == s[i];
      SumAtLeast(init, lo);
    }
  }

  lemma {:induction false} SumAtMost(s: seq<real>, hi: real)
    requires forall i :: 0 <= i < |s| ==> s[i] <= hi
    ensures Sum(s) <= |s| as real * hi
  {
    if s != [] {
      var init := s[..|s| - 1];
      assert forall i :: 0 <= i < |init| ==> init[i] == s[i];
      SumAtMost(init, hi);
    }
  }

  lemma MeanAtLeast(s: seq<real>, lo: real)
    requires s != []
    requires forall i :: 0 <= i < |s| ==> lo <= s[i]
    ensures lo <= Sum(s) / |s| as real
  {
    var n := |s| as real;
    SumAtLeast(s, lo);
    var m := Sum(s) / n;
    assert (m - lo) * n == Sum(s) - n * lo;
    SignOfFactor(m - lo, n);
  }

  lemma MeanAtMost(s: seq<real>, hi: real)
    requires s != []
    requires forall i :: 0 <= i < |s| ==> s[i] <= hi
    ensures Sum(s) / |s| as real <= hi
  {
    var n := |s| as real;
    SumAtMost(s, hi);
    var m := Sum(s) / n;
    assert (hi - m) * n == n * hi - Sum(s);
    SignOfFactor(hi - m, n);
  }

  /** Every sorted impact is the impact of some retained sample. */
  lemma SortedFromSamples(results: seq<SentimentAnalysis>, i: nat)
    requires i < |SortAscending(Impacts(results))|
    ensures exists a :: a in results && IsRetained(a) && SortAscending(Impacts(results))[i] == Impact(a)
  {
    var sorted := SortAscending(Impacts(results));
    assert sorted[i] in multiset(sorted);
    assert sorted[i] in Impacts(results);
  }

  lemma MoodOfSortedAtLeast(sorted: seq<real>, lo: real)
    requires sorted != [] && lo <= 0.0
    requires forall i :: 0 <= i < |sorted| ==> lo <= sorted[i]
    ensures Round((lo + 1.0) * 50.0) <= MoodOfSorted(sorted)
  {
    var t := TrimCount(|sorted|);
    var trimmed := sorted[t..|sorted| - t];
    assert forall i :: 0 <= i < |trimmed| ==> trimmed[i] == sorted[t + i];
    MeanAtLeast(trimmed, lo);
    RoundMonotone((lo + 1.0) * 50.0, (Sum(trimmed) / |trimmed| as real + 1.0) * 50.0);
  }

  lemma MoodOfSortedAtMost(sorted: seq<real>, hi: real)
    requires sorted != [] && 0.0 <= hi
    requires forall i :: 0 <= i < |sorted| ==> sorted[i] <= hi
    ensures MoodOfSorted(sorted) <= Round((hi + 1.0) * 50.0)
  {
    var t := TrimCount(|sorted|);
    var trimmed := sorted[t..|sorted| - t];
    assert forall i :: 0 <= i < |trimmed| ==> trimmed[i] == sorted[t + i];
    MeanAtMost(trimmed, hi);
    RoundMonotone((Sum(trimmed) / |trimmed| as real + 1.0) * 50.0, (hi + 1.0) * 50.0);
  }

  /**
   * When every retained impact is at least `lo <= 0` the index is at least
   * the image of `lo` (the neutral 50 is then no smaller).
   */
  lemma MoodIndexAtLeast(results: seq<SentimentAnalysis>, lo: real)
    requires lo <= 0.0
    requires forall a :: a in results && IsRetained(a) ==> lo <= Impact(a)
    ensures Round((lo + 1.0) * 50.0) <= MoodIndex(results)
  {
    RoundMonotone((lo + 1.0) * 50.0, 50.0);
    var impacts := Impacts(results);
    if impacts != [] {
      var sorted := SortAscending(impacts);
      forall i | 0 <= i < |sorted| ensures lo <= sorted[i] {
        SortedFromSamples(results, i);
      }
      MoodOfSortedAtLeast(sorted, lo);
    }
  }

  /** When every retained impact is at most `hi >= 0` the index is at most the image of `hi`. */
  lemma MoodIndexAtMost(results: seq<SentimentAnalysis>, hi: real)
    requires 0.0 <= hi
    requires forall a :: a in results && IsRetained(a) ==> Impact(a) <= hi
    ensures MoodIndex(results) <= Round((hi + 1.0) * 50.0)
  {
    RoundMonotone(50.0, (hi + 1.0) * 50.0);
    var impacts := Impacts(results);
    if impacts != [] {
      var sorted := SortAscending(impacts);
      forall i | 0 <= i < |sorted| ensures sorted[i] <= hi {
        SortedFromSamples(results, i);
      }
      MoodOfSortedAtMost(sorted, hi);
    }
  }

  /** With every confidence at most 100 the index lies in [0, 100]. */
  lemma MoodIndexInRange(results: seq<SentimentAnalysis>)
    requires forall a :: a in results ==> a.confidence <= 100.0
    ensures 0 <= MoodIndex(results) <= 100
  {
    forall a | a in results && IsRetained(a) ensures -1.0 <= Impact(a) <= 1.0 {
      ImpactRange(a);
    }
    MoodIndexAtLeast(results, -1.0);
    MoodIndexAtMost(results, 1.0);
  }

  /** When every retained sample is positive the index is at least 50. */
  lemma AllPositiveAtLeastFifty(results: seq<SentimentAnalysis>)
    requires forall a :: a in results && IsRetained(a) ==> a.sentiment == Positive
    ensures 50 <= MoodIndex(results)
  {
    forall a | a in results && IsRetained(a) ensures 0.0 <= Impact(a) {
      ImpactSign(a);
    }
    MoodIndexAtLeast(results, 0.0);
  }

  /** When every retained sample is negative the index is at most 50. */
  lemma AllNegativeAtMostFifty(results: seq<SentimentAnalysis>)
    requires forall a :: a in results && IsRetained(a) ==> a.sentiment == Negative
    ensures MoodIndex(results) <= 50
  {
    forall a | a in results && IsRetained(a) ensures Impact(a) <= 0.0 {
      ImpactSign(a);
    }
    MoodIndexAtMost(results, 0.0);
  }

  /** `n` copies of `x`. */
  function Repeat<T>(n: nat, x: T): (r: seq<T>)
    ensures |r| == n && forall i :: 0 <= i < n ==> r[i] == x
  {
    if n == 0 then [] else Repeat(n - 1, x) + [x]
  }

  lemma {:induction false} ImpactsOfRepeat(n: nat, a: SentimentAnalysis)
    requires IsRetained(a)
    ensures Impacts(Repeat(n, a)) == Repeat(n, Impact(a))
  {
    if n > 0 {
      var v := Impact(a);
      ImpactsOfRepeat(n - 1, a);
      assert Repeat(n, a) == Repeat(n - 1, a) + [a];
      ImpactsSnoc(Repeat(n - 1, a), a);
      assert Repeat(n, v) == Repeat(n - 1, v) + [v];
    }
  }

  lemma {:induction false} SumOfRepeat(n: nat, v: real)
    ensures Sum(Repeat(n, v)) == n as real * v
  {
    if n > 0 {
      assert Repeat(n, v)[..n - 1] == Repeat(n - 1, v);
      SumOfRepeat(n - 1, v);
    }
  }

  lemma {:induction false} SumConcat(a: seq<real>, b: seq<real>)
    ensures Sum(a + b) == Sum(a) + Sum(b)
    decreases |b|
  {
    if b == [] {
      assert a + b == a;
    } else {
      var init := b[..|b| - 1];
      assert (a + b)[..|a + b| - 1] == a + init;
      SumConcat(a, init);
    }
  }

  /** The impacts of the example batch: eighteen of 1/49 then two of -1. */
  lemma ExampleImpacts(subject: string)
    ensures Impacts(Repeat(18, SentimentAnalysis(Positive, 40.0, subject))
                    + Repeat(2, SentimentAnalysis(Negative, 100.0, subject)))
            == Repeat(18, 1.0 / 49.0) + Repeat(2, -1.0)
  {
    var mild := SentimentAnalysis(Positive, 40.0, subject);
    var strong := SentimentAnalysis(Negative, 100.0, subject);
    assert Impact(mild) == 1.0 / 49.0 && Impact(strong) == -1.0;
    ImpactsConcat(Repeat(18, mild), Repeat(2, strong));
    ImpactsOfRepeat(18, mild);
    ImpactsOfRepeat(2, strong);
  }

  /** A block of one value followed by a block of a value not below it is sorted. */
  lemma SortedBlocks(m: nat, x: real, n: nat, y: real)
    requires x <= y
    ensures Sorted(Repeat(m, x) + Repeat(n, y))
  {
    var s := Repeat(m, x) + Repeat(n, y);
    forall i, j | 0 <= i < j < |s| ensures s[i] <= s[j] {
      assert s[i] == (if i < m then x else y);
      assert s[j] == (if j < m then x else y);
    }
  }

  /** Sorting two blocks of equal values puts the block of the smaller value first. */
  lemma SortTwoBlocks(m: nat, y: real, n: nat, x: real)
    requires x <= y
    ensures SortAscending(Repeat(m, y) + Repeat(n, x)) == Repeat(n, x) + Repeat(m, y)
  {
    var impacts := Repeat(m, y) + Repeat(n, x);
    var expected := Repeat(n, x) + Repeat(m, y);
    SortedBlocks(n, x, m, y);
    assert multiset(expected) == multiset(impacts);
    SortedUnique(SortAscending(impacts), expected);
  }

  lemma ExampleTrimmedMood()
    ensures MoodOfSorted(Repeat(2, -1.0) + Repeat(18, 1.0 / 49.0)) == 51
  {
    var expected := Repeat(2, -1.0) + Repeat(18, 1.0 / 49.0);
    assert TrimCount(20) == 2;
    assert expected[2..18] == Repeat(16, 1.0 / 49.0);
    SumOfRepeat(16, 1.0 / 49.0);
  }

  /**
   * Eighteen mildly positive samples (confidence 40) and two strongly
   * negative ones (confidence 100): the trim drops both negatives and the
   * index is 51, above neutral.
   */
  lemma TrimmingExample(subject: string)
    ensures var results := Repeat(18, SentimentAnalysis(Positive, 40.0, subject))
                           + Repeat(2, SentimentAnalysis(Negative, 100.0, subject));
            Impacts(results) == Repeat(18, 1.0 / 49.0) + Repeat(2, -1.0) &&
            MoodIndex(results) == 51
  {
    var results := Repeat(18, SentimentAnalysis(Positive, 40.0, subject))
                   + Repeat(2, SentimentAnalysis(Negative, 100.0, subject));
    var impacts := Repeat(18, 1.0 / 49.0) + Repeat(2, -1.0);
    ExampleImpacts(subject);
    assert Impacts(results) == impacts;
    assert |impacts| == 20;
    SortTwoBlocks(18, 1.0 / 49.0, 2, -1.0);
    ExampleTrimmedMood();
    assert MoodIndex(results) == MoodOfSorted(SortAscending(impacts));
  }

  /** The plain mean of the same twenty impacts would give 46, below neutral. */
  lemma ExampleUntrimmedMean()
    ensures Round((Sum(Repeat(18, 1.0 / 49.0) + Repeat(2, -1.0)) / 20.0 + 1.0) * 50.0) == 46
  {
    SumConcat(Repeat(18, 1.0 / 49.0), Repeat(2, -1.0));
    SumOfRepeat(18, 1.0 / 49.0);
    SumOfRepeat(2, -1.0);
  }
}
