/**
 * The importance aggregator, `calculateOverallImportanceScore`: the initial
 * keyword score is multiplied by the heaviest category weight among the
 * flags, by a bonus for several flags and by a bonus for a macro flag, and
 * rounded.
 */
module Importance {
  import opened JsMath
  import opened KeywordFlags

  /** The category weights: positive 1.0, negative 1.3, macro 1.7. */
  function Weight(c: Category): real
  {
    match c
    case Positive => 1.0
    case Negative => 1.3
    case Macro => 1.7
  }

  predicate HasCategory(flags: seq<KeywordFlag>, c: Category)
  {
    exists f :: f in flags && f.category == c
  }

  /**
   * The heaviest weight among the flags' categories, 1.0 without flags: what
   * the running `Math.max(maxWeight, weights[flag.category])` arrives at.
   */
  function MaxWeight(flags: seq<KeywordFlag>): real
  {
    if HasCategory(flags, Macro) then 1.7
    else if HasCategory(flags, Negative) then 1.3
    else 1.0
  }

  /** The bonus for several flags: 1.2 from three flags on, 1.1 for exactly two. */
  function FlagCountBonus(count: nat): real
  {
    if count >= 3 then 1.2 else if count == 2 then 1.1 else 1.0
  }

  function MacroBonus(hasMacro: bool): real
  {
    if hasMacro then 1.3 else 1.0
  }

  /** The factor the initial score is multiplied by. */
  function Factor(maxWeight: real, count: nat, hasMacro: bool): real
  {
    maxWeight * FlagCountBonus(count) * MacroBonus(hasMacro)
  }

  /** The score once the heaviest weight, the flag-count bonus and the macro bonus are known. */
  function WeightedScore(initialScore: real, maxWeight: real, count: nat, hasMacro: bool): int
  {
    Round(initialScore * maxWeight * FlagCountBonus(count) * MacroBonus(hasMacro))
  }

  /** The overall importance score of an article with these flags and this initial keyword score. */
  function ImportanceScore(initialScore: real, flags: seq<KeywordFlag>): int
  {
    WeightedScore(initialScore, MaxWeight(flags), |flags|, HasCategory(flags, Macro))
  }

  /** `calculateOverallImportanceScore`: one pass over the flags, then the three factors and the rounding. */
  method CalculateOverallImportanceScore(initialScore: real, flags: seq<KeywordFlag>) returns (r: int)
    ensures r == ImportanceScore(initialScore, flags)
  {
    var score := initialScore;
    var maxWeight := 1.0;
    var hasMacro := false;
    for i := 0 to |flags|
      invariant maxWeight == MaxWeight(flags[..i])
      invariant hasMacro == HasCategory(flags[..i], Macro)
    {
      var flag := flags[i];
      assert flags[..i + 1] == flags[..i] + [flag];
      HasCategorySnoc(flags[..i], flag, Macro);
      HasCategorySnoc(flags[..i], flag, Negative);
      maxWeight := if maxWeight < Weight(flag.category) then Weight(flag.category) else maxWeight;
      if flag.category == Macro {
        hasMacro := true;
      }
    }
    assert flags[..|flags|] == flags;
    score := score * maxWeight;
    var count := |flags|;
    if count >= 3 {
      score := score * 1.2;
    } else if count == 2 {
      score := score * 1.1;
    }
    if hasMacro {
      score := score * 1.3;
    }
    r := Round(score);
    assert r == WeightedScore(initialScore, maxWeight, count, hasMacro);
  }

  lemma HasCategorySnoc(flags: seq<KeywordFlag>, f: KeywordFlag, c: Category)
    ensures HasCategory(flags + [f], c) == (HasCategory(flags, c) || f.category == c)
  {
    if HasCategory(flags + [f], c) {
      var g :| g in flags + [f] && g.category == c;
      assert g in flags || g == f;
    }
    if HasCategory(flags, c) {
      var g :| g in flags && g.category == c;
      assert g in flags + [f];
    }
    assert f in flags + [f];
  }

  /** The weight is the largest category weight present, or 1.0 when no weight is larger. */
  lemma MaxWeightIsLargest(flags: seq<KeywordFlag>)
    ensures forall f :: f in flags ==> Weight(f.category) <= MaxWeight(flags)
    ensures MaxWeight(flags) == 1.0 || exists f :: f in flags && Weight(f.category) == MaxWeight(flags)
  {
    forall f | f in flags ensures Weight(f.category) <= MaxWeight(flags) {
      assert HasCategory(flags, f.category);
    }
  }

  /** Applying the factors one after another is multiplying by their product. */
  lemma WeightedScoreIsScaled(x: real, w: real, n: nat, h: bool)
    ensures WeightedScore(x, w, n, h) == Round(x * Factor(w, n, h))
  {
    assert x * w * FlagCountBonus(n) * MacroBonus(h) == x * (w * FlagCountBonus(n) * MacroBonus(h));
  }

  /** With a weight in [1.0, 1.7] the combined factor lies between 1 and 1.7 * 1.2 * 1.3. */
  lemma FactorRange(w: real, n: nat, h: bool)
    requires 1.0 <= w <= 1.7
    ensures 1.0 <= Factor(w, n, h) <= 2.652
  {
  }

  lemma ScaleMonotone(x: real, y: real, m: real)
    requires x <= y && 0.0 <= m
    ensures x * m <= y * m
  {
    assert y * m - x * m == (y - x) * m;
  }

  lemma WeightedScoreMonotone(x: real, y: real, w: real, n: nat, h: bool)
    requires x <= y && 1.0 <= w <= 1.7
    ensures WeightedScore(x, w, n, h) <= WeightedScore(y, w, n, h)
  {
    var m := Factor(w, n, h);
    FactorRange(w, n, h);
    WeightedScoreIsScaled(x, w, n, h);
    WeightedScoreIsScaled(y, w, n, h);
    ScaleMonotone(x, y, m);
    RoundMonotone(x * m, y * m);
  }

  lemma WeightedScoreAtLeastInitial(x: real, w: real, n: nat, h: bool)
    requires 0.0 <= x && 1.0 <= w <= 1.7
    ensures Round(x) <= WeightedScore(x, w, n, h)
  {
    var m := Factor(w, n, h);
    FactorRange(w, n, h);
    WeightedScoreIsScaled(x, w, n, h);
    ScaleMonotone(1.0, m, x);
    RoundMonotone(x, x * m);
  }

  /** Without flags the score is the rounded initial score. */
  lemma NoFlagsKeepsInitial(initialScore: real)
    ensures ImportanceScore(initialScore, []) == Round(initialScore)
  {
  }

  /** 10 points with one macro flag: 10 * 1.7 * 1.3 = 22.1, rounded to 22. */
  lemma OneMacroFlagExample(k: string, c: int)
    ensures ImportanceScore(10.0, [KeywordFlag(k, Macro, c)]) == 22
  {
    var flags := [KeywordFlag(k, Macro, c)];
    assert flags[0] in flags;
    assert WeightedScore(10.0, 1.7, 1, true) == 22;
  }

  /** 10 points with three positive flags: 10 * 1.0 * 1.2 = 12. */
  lemma ThreePositiveFlagsExample(k1: string, k2: string, k3: string, c1: int, c2: int, c3: int)
    ensures ImportanceScore(10.0, [KeywordFlag(k1, Positive, c1), KeywordFlag(k2, Positive, c2),
                                   KeywordFlag(k3, Positive, c3)]) == 12
  {
    var flags := [KeywordFlag(k1, Positive, c1), KeywordFlag(k2, Positive, c2), KeywordFlag(k3, Positive, c3)];
    assert !HasCategory(flags, Macro) && !HasCategory(flags, Negative);
    assert WeightedScore(10.0, 1.0, 3, false) == 12;
  }

  /** For a fixed flag list a larger initial score never gives a smaller importance score. */
  lemma ImportanceMonotone(x: real, y: real, flags: seq<KeywordFlag>)
    requires x <= y
    ensures ImportanceScore(x, flags) <= ImportanceScore(y, flags)
  {
    WeightedScoreMonotone(x, y, MaxWeight(flags), |flags|, HasCategory(flags, Macro));
  }

  /** A non-negative initial score keeps at least its rounded value, so it stays non-negative. */
  lemma ImportanceAtLeastInitial(initialScore: real, flags: seq<KeywordFlag>)
    requires 0.0 <= initialScore
    ensures Round(initialScore) <= ImportanceScore(initialScore, flags)
    ensures 0 <= ImportanceScore(initialScore, flags)
  {
    WeightedScoreAtLeastInitial(initialScore, MaxWeight(flags), |flags|, HasCategory(flags, Macro));
  }

  lemma HasCategoryPermutation(a: seq<KeywordFlag>, b: seq<KeywordFlag>, c: Category)
    requires multiset(a) == multiset(b)
    ensures HasCategory(a, c) == HasCategory(b, c)
  {
    if HasCategory(a, c) {
      var f :| f in a && f.category == c;
      assert f in multiset(b);
    }
    if HasCategory(b, c) {
      var f :| f in b && f.category == c;
      assert f in multiset(a);
    }
  }

  /** The score depends only on the flags present, not on their order. */
  lemma ImportanceIgnoresFlagOrder(initialScore: real, a: seq<KeywordFlag>, b: seq<KeywordFlag>)
    requires multiset(a) == multiset(b)
    ensures ImportanceScore(initialScore, a) == ImportanceScore(initialScore, b)
  {
    HasCategoryPermutation(a, b, Macro);
    HasCategoryPermutation(a, b, Negative);
    assert |a| == |multiset(a)| == |multiset(b)| == |b|;
  }
}
