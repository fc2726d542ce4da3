# Crypto news scoring, modelled in Dafny

This project models the numeric core of a crypto news service. The service scrapes news articles from RSS feeds and ranks them by importance with keyword heuristics. It also condenses per-article sentiment into a daily market mood index. The modelled pieces are listed below.

- **Keyword rank score** (`getKeywordScore`, module `KeywordScoring`). A keyword's position in an importance-ordered list becomes a weight on the curve `1 - 0.5 * sqrt(index / (length - 1))`. The result is clamped to [0.5, 1.0], a one-element list scores 1.0, and a missing keyword scores 0.
- **Keyword flags and initial score** (`calculateInitialScoreAndFlags`, module `KeywordFlags`).
  - The positive, negative and macro lists are scanned in that order against `headline + " " + summary`.
  - A found keyword that is new gets a flag.
  - The flag is worth its rank score, times 1.5 when the headline holds the keyword, rounded.
  - The contributions add up to the initial keyword score.
  - The imperative scan (a `found` set, a flag array and a running total, threaded through three `forEach` loops) is a method. It is proved equal to a functional specification `FlagsFor`: all matches in scan order, keeping the first flag per keyword.
- **Overall importance score** (`calculateOverallImportanceScore`, module `Importance`). The initial score is multiplied by three factors and rounded:
  - the heaviest category weight among the flags (positive 1.0, negative 1.3, macro 1.7);
  - 1.2 for three or more flags, 1.1 for exactly two;
  - 1.3 when a macro flag is present.
- **Daily mood index** (`calculateDailyMoodIndex`, module `MoodIndex`).
  - Neutral samples and samples under 30 confidence are dropped.
  - Each remaining sample becomes `±((c - 30) / 70)²`.
  - The impacts are sorted, and 10 % (floored) is trimmed from each end.
  - The mean of the rest is mapped from [-1, 1] onto [0, 100] and rounded.
  - An empty sample gives 50.
- **Enrich and rank** (module `Enrichment`). Each article fetched for the daily digest gets its flags, its initial score and its overall score. The articles are then sorted most important first.
- **Scraper helpers** (module `Scraper`).
  - `stripHtml` is a global regular-expression replace of `<[^>]*>?` by the empty string.
  - The mapping of parsed RSS items to articles uses JavaScript `||` fallbacks.

`JsMath` holds the JavaScript primitives the core relies on:
- `Math.round`, as `floor(x + 0.5)`;
- `String.prototype.includes`;
- the square-root contract.

`Math.sqrt` is not computed. Every function that uses it takes it as a parameter `sqrt: real -> real`, and the lemmas that depend on its values require `IsSquareRoot(sqrt)`. `IsSquareRoot` asks for a non-negative exact square root on non-negative inputs.

The keyword lists come from a constants module (`./constants/keywords`) that is not part of this model. They are a parameter (`KeywordLists`) throughout.

`src/processor/processor.service.ts` contains line-for-line copies of the modelled `daily-processor.service.ts` methods. The copies are:
- the mood index at lines 391-444;
- the enrich-and-rank block at lines 679-703;
- the importance score at lines 738-766;
- the flags at lines 768-805.

One model covers both copies. The table cites the `daily-processor.service.ts` lines.

## Model

| member | source | states |
|---|---|---|
| JsMath.Round | src/processor/daily-processor.service.ts:280 | `Math.round` returns the integer within half a unit of its argument, with halves going up |
| JsMath.Includes | src/processor/daily-processor.service.ts:297-300 | `String.prototype.includes`: the needle occurs as a contiguous block of the text; `JsMath.IncludesInConcat` shows an occurrence in either part of a concatenation is an occurrence in the whole |
| KeywordScoring.IndexOf | src/processor/utils/keyword-scoring.ts:3 | `indexOf` returns -1 exactly when the keyword is absent; otherwise it returns a position holding the keyword with no earlier occurrence |
| KeywordScoring.RankCurve | src/processor/utils/keyword-scoring.ts:19-24 | the unclamped curve `1 - 0.5 * sqrt(index / (length - 1))`; it is 1.0 at the front (`KeywordScoring.CurveAtFront`), 0.5 at the back (`KeywordScoring.CurveAtBack`), strictly below 1.0 behind the front and within [0.5, 1.0] everywhere |
| KeywordScoring.CurveAtFront | src/processor/utils/keyword-scoring.ts:19-24 | at position 0 the curve is exactly 1.0 |
| KeywordScoring.CurveAtBack | src/processor/utils/keyword-scoring.ts:19-24 | at the last position the curve is exactly 0.5 |
| KeywordScoring.CurveBelowOneBehindFront | src/processor/utils/keyword-scoring.ts:19-24 | at every position after the first the curve is strictly below 1.0 |
| KeywordScoring.KeywordScore | src/processor/utils/keyword-scoring.ts:2-29 | an absent keyword scores 0; a listed keyword scores in [0.5, 1.0]; a keyword in a one-element list scores 1.0 |
| KeywordScoring.NormalizedIndexInUnit | src/processor/utils/keyword-scoring.ts:19 | the normalized index lies in [0, 1] for every position of a list of at least two |
| KeywordScoring.ClampIsInactive | src/processor/utils/keyword-scoring.ts:24-28 | the curve already lies in [0.5, 1.0], so the `Math.max`/`Math.min` clamp never changes the score |
| KeywordScoring.EndpointScores | src/processor/utils/keyword-scoring.ts:17-24 | the first keyword scores exactly 1.0; the last keyword scores exactly 0.5 when that is its first position |
| KeywordScoring.ScoreNonIncreasingInIndex | src/processor/utils/keyword-scoring.ts:17-28 | a keyword whose first position is earlier never scores less than a later one |
| KeywordScoring.FullScoreOnlyAtFront | src/processor/utils/keyword-scoring.ts:11-28 | a listed keyword scores 1.0 if and only if it sits at position 0 |
| KeywordScoring.RepeatedKeywordUsesFirstPosition | src/processor/utils/keyword-scoring.ts:3-24 | a keyword listed twice is scored at its first position |
| KeywordFlags.SearchText | src/processor/daily-processor.service.ts:287 | the searched text is the headline, one space and the summary, so it holds every keyword the headline holds (`KeywordFlags.HeadlineKeywordIsFlagged`) |
| KeywordFlags.Contribution | src/processor/daily-processor.service.ts:298-303 | a listed keyword contributes between 1 and 2 points after the title bonus and rounding |
| KeywordFlags.ContributionIsOneOrTwo | src/processor/daily-processor.service.ts:298-303 | a contribution is exactly 1 or 2; it is 2 if and only if the keyword heads its list and the headline holds it |
| KeywordFlags.Matches | src/processor/daily-processor.service.ts:297-305 | scanning a list raises a flag only for keywords the text holds, with the scanned category and the contribution scored against that list; every held keyword of the list is flagged |
| KeywordFlags.Candidates | src/processor/daily-processor.service.ts:311-317 | the matches of the positive, negative and macro scans concatenated in that order, before repeated keywords are dropped; its order is the scan order (`KeywordFlags.FlagsInScanOrder`) |
| KeywordFlags.FirstPerKeyword | src/processor/daily-processor.service.ts:288-307 | the found-keyword set drops later duplicates: the kept flags come from the candidates and cover the same keywords |
| KeywordFlags.CheckAndAdd | src/processor/daily-processor.service.ts:292-309 | a flag is appended exactly when the text holds the keyword and the found set lacks it; the found set and total stay the keywords and sum of the flags |
| KeywordFlags.FlagsFor | src/processor/daily-processor.service.ts:283-320 | the flags of an article: the first candidate per keyword; `KeywordFlags.CalculateInitialScoreAndFlags` returns exactly these, and `FlagIsFound`, `EveryFoundKeywordIsFlagged`, `FlagsAreDistinct`, `FlagCategoryIsFirstList`, `FlagContributions` and `FlagsInScanOrder` describe them |
| KeywordFlags.TotalContribution | src/processor/daily-processor.service.ts:290-306 | the running `initialKeywordScore`: the contributions summed in flag order; it lies between the flag count and twice it (`Enrichment.TotalAtLeastCount`) |
| KeywordFlags.ScanList | src/processor/daily-processor.service.ts:311-317 | one `forEach` over a list extends the flags exactly as `FlagsFor`'s first-per-keyword matches over that list do |
| KeywordFlags.CalculateInitialScoreAndFlags | src/processor/daily-processor.service.ts:283-320 | the flags are the first-per-keyword matches of the positive, negative and macro scans; the initial score is their total contribution |
| KeywordFlags.FirstPerKeywordDistinct | src/processor/daily-processor.service.ts:297 | dropping repeats leaves each keyword at most once |
| KeywordFlags.FirstPerKeywordEarliest | src/processor/daily-processor.service.ts:297-307 | the flag kept for a keyword is its earliest candidate |
| KeywordFlags.FlagsAreDistinct | src/processor/daily-processor.service.ts:288-307 | no keyword is flagged twice in one article |
| KeywordFlags.FlagIsFound | src/processor/daily-processor.service.ts:297-305 | every flag's keyword occurs in `headline + " " + summary` and in its category's list, with the contribution scored against that list |
| KeywordFlags.EveryFoundKeywordIsFlagged | src/processor/daily-processor.service.ts:311-317 | every listed keyword that the search text holds is flagged |
| KeywordFlags.HeadlineKeywordIsFlagged | src/processor/daily-processor.service.ts:287-300 | a listed keyword in the headline is flagged whatever the summary says |
| KeywordFlags.FlagCategoryIsFirstList | src/processor/daily-processor.service.ts:311-317 | a keyword held by several lists is flagged under the first list in scan order (positive, negative, macro) |
| KeywordFlags.FlagContributions | src/processor/daily-processor.service.ts:298-306 | every flag is worth 1 or 2 points; it is worth 2 exactly for its list's front keyword found in the headline |
| KeywordFlags.FlagsInScanOrder | src/processor/daily-processor.service.ts:311-317 | flags appear in scan order: by category, then by position in the list |
| Importance.Weight | src/processor/daily-processor.service.ts:260 | the category weights: positive 1.0, negative 1.3, macro 1.7 |
| Importance.MaxWeight | src/processor/daily-processor.service.ts:260-267 | the heaviest weight among the flags, 1.0 without flags; `Importance.MaxWeightIsLargest` shows it bounds every flag's weight and is attained |
| Importance.ImportanceScore | src/processor/daily-processor.service.ts:253-281 | the overall score in closed form; the loop of `Importance.CalculateOverallImportanceScore` returns it, and it is monotone in the initial score, never below it and independent of flag order |
| Importance.CalculateOverallImportanceScore | src/processor/daily-processor.service.ts:253-281 | the loop finds the heaviest category weight and whether a macro flag is present; the score is the rounded product of the initial score with the weight and the two bonuses |
| Importance.MaxWeightIsLargest | src/processor/daily-processor.service.ts:260-267 | the weight used is at least every flag's category weight, and it is 1.0 or the weight of some flag |
| Importance.WeightedScoreIsScaled | src/processor/daily-processor.service.ts:269-280 | applying the factors one after another is rounding the initial score times their product |
| Importance.FactorRange | src/processor/daily-processor.service.ts:260-278 | the combined factor lies between 1 and 1.7 * 1.2 * 1.3 = 2.652 |
| Importance.NoFlagsKeepsInitial | src/processor/daily-processor.service.ts:257-280 | without flags the score is the rounded initial score |
| Importance.OneMacroFlagExample | src/processor/daily-processor.service.ts:260-280 | 10 points with one macro flag give 22 |
| Importance.ThreePositiveFlagsExample | src/processor/daily-processor.service.ts:260-280 | 10 points with three positive flags give 12 |
| Importance.ImportanceMonotone | src/processor/daily-processor.service.ts:253-281 | for a fixed flag list, a larger initial score never gives a smaller score |
| Importance.ImportanceAtLeastInitial | src/processor/daily-processor.service.ts:253-281 | a non-negative initial score never drops below its rounded value, so the score is non-negative |
| Importance.ImportanceIgnoresFlagOrder | src/processor/daily-processor.service.ts:264-278 | reordering the flags does not change the score |
| MoodIndex.IsRetained | src/processor/daily-processor.service.ts:129-135 | a sample counts when it is not neutral and its confidence is not below 30; other samples change nothing (`MoodIndex.DeadSampleIgnored`) |
| MoodIndex.Impact | src/processor/daily-processor.service.ts:136-140 | plus or minus the squared normalized confidence `((c - 30) / 70)^2`, positive only for positive samples (`MoodIndex.ImpactSign`, `MoodIndex.ImpactRange`) |
| MoodIndex.Impacts | src/processor/daily-processor.service.ts:127-141 | the impacts number no more than the samples; each is the impact of a retained (non-neutral, confidence at least 30) sample |
| MoodIndex.SortAscending | src/processor/daily-processor.service.ts:150 | the ascending sort returns a sorted permutation of the impacts |
| MoodIndex.TrimCount | src/processor/daily-processor.service.ts:153 | `Math.floor(n * 0.1)` equals `n / 10` in integer division |
| MoodIndex.Sum | src/processor/daily-processor.service.ts:167 | the `reduce` sum added left to right; it lies between the count times a lower and an upper bound on the elements (`MoodIndex.SumAtLeast`, `MoodIndex.SumAtMost`) |
| MoodIndex.SumAtLeast | src/processor/daily-processor.service.ts:167 | when every element is at least `lo`, the sum is at least the count times `lo` |
| MoodIndex.SumAtMost | src/processor/daily-processor.service.ts:167 | when every element is at most `hi`, the sum is at most the count times `hi` |
| MoodIndex.MoodOfSorted | src/processor/daily-processor.service.ts:150-172 | the trim, mean and scaling of the sorted impacts; `MoodIndex.TrimDropsExtremes` describes the trim and `MoodIndex.TrimmedSliceNonEmpty` its non-empty result |
| MoodIndex.MoodIndex | src/processor/daily-processor.service.ts:120-172 | the index of a batch of samples: 50 without retained samples, otherwise the trimmed mean of the sorted impacts mapped onto [0, 100]; `MoodIndex.CalculateDailyMoodIndex` returns it, and it ignores sample order and lies in [0, 100] for confidences of at most 100 |
| MoodIndex.CalculateDailyMoodIndex | src/processor/daily-processor.service.ts:120-173 | the loop, sort, trim and mean compute the mood index of the samples |
| MoodIndex.DeadSampleIgnored | src/processor/daily-processor.service.ts:129-135 | inserting a neutral or low-confidence sample anywhere does not change the index |
| MoodIndex.NothingRetainedGivesFifty | src/processor/daily-processor.service.ts:143-145 | when no sample is retained there are no impacts and the index is 50 |
| MoodIndex.ImpactSign | src/processor/daily-processor.service.ts:136-140 | a positive sample has a non-negative impact; any other sample has a non-positive impact |
| MoodIndex.ImpactRange | src/processor/daily-processor.service.ts:136-140 | a retained sample with confidence at most 100 has an impact in [-1, 1] |
| MoodIndex.SortedUnique | src/processor/daily-processor.service.ts:150 | two sorted permutations of the same values are equal, so the sorted impacts are determined by their multiset |
| MoodIndex.ImpactsPermutation | src/processor/daily-processor.service.ts:129-141 | permuted samples give permuted impacts |
| MoodIndex.MoodIndexIgnoresOrder | src/processor/daily-processor.service.ts:129-172 | the index does not depend on the order of the samples |
| MoodIndex.TrimmedSliceNonEmpty | src/processor/daily-processor.service.ts:153-164 | trimming 10 % from each end of a non-empty list leaves at least one impact, so the fallback at line 161 never fires |
| MoodIndex.TrimDropsExtremes | src/processor/daily-processor.service.ts:150-159 | for the sorted impacts and the trim count, the count is `n / 10` and at most half of `n`; the dropped low end, the kept middle and the dropped high end partition the impacts; every dropped low is at most every kept impact, which is at most every dropped high |
| MoodIndex.MoodIndexAtLeast | src/processor/daily-processor.service.ts:166-172 | if every retained impact is at least `lo <= 0`, the index is at least `round((lo + 1) * 50)` |
| MoodIndex.MoodIndexAtMost | src/processor/daily-processor.service.ts:166-172 | if every retained impact is at most `hi >= 0`, the index is at most `round((hi + 1) * 50)` |
| MoodIndex.MoodIndexInRange | src/processor/daily-processor.service.ts:120-173 | with confidences at most 100 the index lies in [0, 100] |
| MoodIndex.AllPositiveAtLeastFifty | src/processor/daily-processor.service.ts:136-172 | when every retained sample is positive the index is at least 50 |
| MoodIndex.AllNegativeAtMostFifty | src/processor/daily-processor.service.ts:136-172 | when every retained sample is negative the index is at most 50 |
| MoodIndex.TrimmingExample | src/processor/daily-processor.service.ts:124-172 | 18 positive samples at confidence 40 and 2 negative at 100 have impacts 1/49 and -1; the trim drops both negatives and the index is 51 |
| MoodIndex.ExampleUntrimmedMean | src/processor/daily-processor.service.ts:166-172 | the plain mean of those twenty impacts would give 46, so the trim moves the index across neutral |
| Scraper.StripHtml | src/scraper/scraper.service.ts:235-237 | the regular-expression replace: a `<` and everything up to and including the next `>`, or to the end when no `>` follows, is deleted; the lemmas below state what it guarantees |
| Scraper.NoTagLeft | src/scraper/scraper.service.ts:235-237 | no `<` survives stripping, and the output is never longer than the input |
| Scraper.TextBeforeKept | src/scraper/scraper.service.ts:235-237 | text free of `<` at the front is kept verbatim, and stripping continues after it |
| Scraper.NoTagUnchanged | src/scraper/scraper.service.ts:235-237 | text without `<` is returned unchanged |
| Scraper.StripIdempotent | src/scraper/scraper.service.ts:235-237 | stripping twice equals stripping once |
| Scraper.StripIsSubsequence | src/scraper/scraper.service.ts:235-237 | the output is the input with some characters deleted |
| Scraper.UnclosedTagRemovesRest | src/scraper/scraper.service.ts:235-237 | a `<` with no later `>` removes everything from it to the end |
| Scraper.ClosedTagRemoved | src/scraper/scraper.service.ts:235-237 | a closed tag after tag-free text disappears, and the text on both sides is kept |
| Scraper.ClosingBracketEndsTag | src/scraper/scraper.service.ts:235-237 | `[^>]*>?` applied to a tag body followed by `>` consumes all of it |
| Scraper.BoldTagExample | src/scraper/scraper.service.ts:235-237 | `a<b>c` is stripped to `ac` |
| Scraper.FirstNonEmpty | src/scraper/scraper.service.ts:138-140 | the result is empty exactly when no candidate is present and non-empty; otherwise it is the value of a candidate with no present, non-empty candidate before it |
| Scraper.ItemToArticle | src/scraper/scraper.service.ts:136-143 | one feed item becomes an article; `Scraper.FeedArticleFields` states each field |
| Scraper.FeedArticles | src/scraper/scraper.service.ts:136-143 | one article per feed item, in item order |
| Scraper.FeedArticleFields | src/scraper/scraper.service.ts:136-143 | source is the argument; headline is the title, or empty when it is missing or empty; summary is the stripped first non-empty of content snippet, encoded content and summary, with no `<`; a url exactly for a non-empty link |
| Enrichment.Enrich | src/processor/daily-processor.service.ts:194-214 | one article enriched: headline, summary and source copied, flags `FlagsFor`, initial score their total, overall score `ImportanceScore`; `Enrichment.EnrichedScoreBounds` bounds the two scores |
| Enrichment.EnrichAll | src/processor/daily-processor.service.ts:194-214 | one enriched article per fetched article, in order, each the enrichment of its article |
| Enrichment.SortByImportance | src/processor/daily-processor.service.ts:216-218 | the sort returns a permutation of its input with non-increasing importance scores |
| Enrichment.EnrichAndRank | src/processor/daily-processor.service.ts:194-218 | the ranked list holds each enriched article as often as its article was fetched, most important first |
| Enrichment.RankedArticleOrigin | src/processor/daily-processor.service.ts:194-214 | every ranked article copies the headline, summary and source of a fetched article; its flags are that article's flags; its scores are computed from those flags |
| Enrichment.EveryArticleRanked | src/processor/daily-processor.service.ts:194-218 | every fetched article appears, enriched, in the ranking |
| Enrichment.TotalAtLeastCount | src/processor/daily-processor.service.ts:290-306 | with contributions of 1 or 2 per flag, the total lies between the flag count and twice it |
| Enrichment.EnrichedScoreBounds | src/processor/daily-processor.service.ts:195-207 | an enriched article's initial score is between 1 and 2 points per flag, and its overall score is not below it |

## Left out

- I/O and external services are not modelled: the HTTP fetch, the XML parsing, the database queries and writes, the language-model calls, the cron scheduling and the logging. The model starts from parsed feed items, fetched articles and sentiment results given as values.
- Floating point is not modelled: JavaScript numbers are modelled as exact reals. An IEEE rounding error that tips `Math.round` across a half is not captured.
- `Math.sqrt` is a parameter. Lemmas that depend on its values assume an exact square root.
- The keyword lists of `./constants/keywords` are not part of this model. Every result is stated for arbitrary lists.
- KeywordFlags.Contribution: the title bonus multiplies a keyword's weight by 1.5, but `Math.round` is applied to every contribution. A flag is therefore worth only 1 or 2 points (`KeywordFlags.ContributionIsOneOrTwo`), and the 1.5 factor shows only as the difference between those two values. The model follows the code.
- Enrichment.SortByImportance: `Array.prototype.sort` is stable, so equally important articles keep their fetch order. The model states only the ranking and the permutation, not that order among ties.
- Enrichment.EnrichAndRank: the enriched array is sorted in place in the source. The model builds it as a sequence and sorts it with a function, since the array is local and no other reference observes it.
- MoodIndex.SortAscending: the in-place numeric sort is modelled as a function returning a sorted permutation. Equal numbers are indistinguishable, so the result is the same.
- MoodIndex.CalculateDailyMoodIndex: the fallback `return 50` for an empty trimmed slice (line 161) is unreachable (`MoodIndex.TrimmedSliceNonEmpty`). The method asserts that branch dead instead of returning from it.
- MoodIndex.MoodIndexInRange: confidences above 100 are not clamped by the source. The range lemma therefore requires confidences of at most 100.
- Mongoose documents, the `url` and `createdAt` fields read by other stages, and the weekly processor are not part of this model.
