/**
 * The pre-processing stage of the daily digest: every stored article is
 * enriched with its keyword flags, its initial keyword score and its
 * overall importance score, and the enriched articles are ranked by
 * importance, most important first.
 */
module Enrichment {
  import opened JsMath
  import opened KeywordFlags
  import opened Importance
  import opened Scraper

  datatype EnrichedArticle = EnrichedArticle(
    headline: string,
    summary: string,
    source: string,
    flags: seq<KeywordFlag>,
    initialKeywordScore: int,
    overallImportanceScore: int)

  /** The enriched form of one stored article. */
  function Enrich(article: Article, lists: KeywordLists, sqrt: real -> real): EnrichedArticle
  {
    var flags := FlagsFor(article.headline, article.summary, lists, sqrt);
    var initialKeywordScore := TotalContribution(flags);
    EnrichedArticle(article.headline, article.summary, article.source, flags, initialKeywordScore,
                    ImportanceScore(initialKeywordScore as real, flags))
  }

  /** `articles.map(...)`: the enriched articles, in the order they were fetched. */
  function EnrichAll(articles: seq<Article>, lists: KeywordLists, sqrt: real -> real): (r: seq<EnrichedArticle>)
    ensures |r| == |articles|
    ensures forall i :: 0 <= i < |r| ==> r[i] == Enrich(articles[i], lists, sqrt)
  {
    seq(|articles|, i requires 0 <= i < |articles| => Enrich(articles[i], lists, sqrt))
  }

  /** Most important first: the importance scores never increase along the sequence. */
  predicate RankedByImportance(s: seq<EnrichedArticle>)
  {
    forall i, j :: 0 <= i < j < |s| ==> s[i].overallImportanceScore >= s[j].overallImportanceScore
  }

  lemma RankedCons(e: EnrichedArticle, s: seq<EnrichedArticle>)
    requires RankedByImportance(s)
    requires forall x :: x in s ==> x.overallImportanceScore <= e.overallImportanceScore
    ensures RankedByImportance([e] + s)
  {
    var t := [e] + s;
    forall i, j | 0 <= i < j < |t| ensures t[i].overallImportanceScore >= t[j].overallImportanceScore {
      if i == 0 {
        assert t[j] == s[j - 1];
        assert s[j - 1] in s;
      } else {
        assert t[i] == s[i - 1] && t[j] == s[j - 1];
      }
    }
  }

  /** In a ranked sequence no article is more important than the first. */
  lemma HeadIsMostImportant(s: seq<EnrichedArticle>, x: EnrichedArticle)
    requires RankedByImportance(s) && x in s
    ensures x.overallImportanceScore <= s[0].overallImportanceScore
  {
    var j :| 0 <= j < |s| && s[j] == x;
    if 0 < j {
      assert s[0].overallImportanceScore >= s[j].overallImportanceScore;
    }
  }

  lemma RankedTail(s: seq<EnrichedArticle>)
    requires RankedByImportance(s) && s != []
    ensures RankedByImportance(s[1..])
  {
    forall i, j | 0 <= i < j < |s[1..]|
      ensures s[1..][i].overallImportanceScore >= s[1..][j].overallImportanceScore
    {
      assert s[1..][i] == s[i + 1] && s[1..][j] == s[j + 1];
    }
  }

  /** Inserting before a first article that is not more important keeps the ranking. */
  lemma RankInFront(e: EnrichedArticle, s: seq<EnrichedArticle>)
    requires RankedByImportance(s)
    requires s == [] || s[0].overallImportanceScore <= e.overallImportanceScore
    ensures RankedByImportance([e] + s)
  {
    forall x | x in s ensures x.overallImportanceScore <= e.overallImportanceScore {
      HeadIsMostImportant(s, x);
    }
    RankedCons(e, s);
  }

  /** Inserting after a first article that is more important keeps that first article in front. */
  lemma RankBehind(e: EnrichedArticle, s: seq<EnrichedArticle>, rest: seq<EnrichedArticle>)
    requires RankedByImportance(s) && s != [] && e.overallImportanceScore < s[0].overallImportanceScore
    requires RankedByImportance(rest) && multiset(rest) == multiset(s[1..]) + multiset{e}
    ensures RankedByImportance([s[0]] + rest)
  {
    forall x | x in rest ensures x.overallImportanceScore <= s[0].overallImportanceScore {
      assert x in multiset(rest);
      if x != e {
        assert x in multiset(s[1..]);
        assert x in s;
        HeadIsMostImportant(s, x);
      }
    }
    RankedCons(s[0], rest);
  }

  /** Inserts `e` into a ranked sequence before the first article that is not more important. */
  function InsertByImportance(e: EnrichedArticle, s: seq<EnrichedArticle>): (r: seq<EnrichedArticle>)
    requires RankedByImportance(s)
    ensures RankedByImportance(r)
    ensures multiset(r) == multiset(s) + multiset{e}
    ensures |r| == |s| + 1
  {
    if s == [] || s[0].overallImportanceScore <= e.overallImportanceScore then
      RankInFront(e, s);
      [e] + s
    else
      RankedTail(s);
      var rest := InsertByImportance(e, s[1..]);
      RankBehind(e, s, rest);
      assert s == [s[0]] + s[1..];
      [s[0]] + rest
  }

  /**
   * `enrichedArticles.sort((a, b) => b.overallImportanceScore - a.overallImportanceScore)`:
   * the same articles, most important first.
   */
  function SortByImportance(s: seq<EnrichedArticle>): (r: seq<EnrichedArticle>)
    ensures RankedByImportance(r)
    ensures multiset(r) == multiset(s)
    ensures |r| == |s|
  {
    if s == [] then []
    else
      assert s == [s[0]] + s[1..];
      InsertByImportance(s[0], SortByImportance(s[1..]))
  }

  /**
   * The enrich-and-rank block: each article's flags and initial score, then
   * its overall score, then the ranking. The result holds every enriched
   * article exactly as often as the input holds its article, most important
   * first.
   */
  method EnrichAndRank(articles: seq<Article>, lists: KeywordLists, sqrt: real -> real)
    returns (ranked: seq<EnrichedArticle>)
    ensures |ranked| == |articles|
    ensures multiset(ranked) == multiset(EnrichAll(articles, lists, sqrt))
    ensures RankedByImportance(ranked)
  {
    var enriched: seq<EnrichedArticle> := [];
    for i := 0 to |articles|
      invariant |enriched| == i
      invariant forall j :: 0 <= j < i ==> enriched[j] == Enrich(articles[j], lists, sqrt)
    {
      var article := articles[i];
      var flags, initialKeywordScore := CalculateInitialScoreAndFlags(article.headline, article.summary, lists, sqrt);
      var overallImportanceScore := CalculateOverallImportanceScore(initialKeywordScore as real, flags);
      enriched := enriched + [EnrichedArticle(article.headline, article.summary, article.source, flags,
                                              initialKeywordScore, overallImportanceScore)];
    }
    assert enriched == EnrichAll(articles, lists, sqrt);
    ranked := SortByImportance(enriched);
  }

  /**
   * Every ranked article is the enrichment of some fetched article: its
   * headline, summary and source are copied, its flags are the keyword
   * flags of that headline and summary, and its two scores are computed
   * from those flags.
   */
  lemma RankedArticleOrigin(articles: seq<Article>, lists: KeywordLists, sqrt: real -> real,
                            ranked: seq<EnrichedArticle>, e: EnrichedArticle)
    requires multiset(ranked) == multiset(EnrichAll(articles, lists, sqrt))
    requires e in ranked
    ensures exists i :: 0 <= i < |articles| &&
              e.headline == articles[i].headline && e.summary == articles[i].summary &&
              e.source == articles[i].source &&
              e.flags == FlagsFor(articles[i].headline, articles[i].summary, lists, sqrt)
    ensures e.initialKeywordScore == TotalContribution(e.flags)
    ensures e.overallImportanceScore == ImportanceScore(e.initialKeywordScore as real, e.flags)
  {
    var all := EnrichAll(articles, lists, sqrt);
    assert e in multiset(all);
    var i :| 0 <= i < |all| && all[i] == e;
    assert e == Enrich(articles[i], lists, sqrt);
  }

  /** Every fetched article appears in the ranking, enriched. */
  lemma EveryArticleRanked(articles: seq<Article>, lists: KeywordLists, sqrt: real -> real,
                           ranked: seq<EnrichedArticle>, i: nat)
    requires multiset(ranked) == multiset(EnrichAll(articles, lists, sqrt))
    requires i < |articles|
    ensures Enrich(articles[i], lists, sqrt) in ranked
  {
    var all := EnrichAll(articles, lists, sqrt);
    assert all[i] in multiset(all);
  }

  /** Every flag contributing at least one point, the total is at least the number of flags. */
  lemma {:induction false} TotalAtLeastCount(flags: seq<KeywordFlag>)
    requires forall f :: f in flags ==> 1 <= f.scoreContribution <= 2
    ensures |flags| <= TotalContribution(flags) <= 2 * |flags|
    decreases |flags|
  {
    if flags != [] {
      var init := flags[..|flags| - 1];
      assert forall f :: f in init ==> f in flags;
      assert flags[|flags| - 1] in flags;
      TotalAtLeastCount(init);
    }
  }

  /**
   * An enriched article's initial score lies between one and two points per
   * flag, and its overall score is never below its initial score.
   */
  lemma EnrichedScoreBounds(article: Article, lists: KeywordLists, sqrt: real -> real)
    requires IsSquareRoot(sqrt)
    ensures var e := Enrich(article, lists, sqrt);
            |e.flags| <= e.initialKeywordScore <= 2 * |e.flags| &&
            e.initialKeywordScore <= e.overallImportanceScore
  {
    var flags := FlagsFor(article.headline, article.summary, lists, sqrt);
    forall f | f in flags ensures 1 <= f.scoreContribution <= 2 {
      FlagContributions(article.headline, article.summary, lists, sqrt, f);
    }
    TotalAtLeastCount(flags);
    var initial := TotalContribution(flags);
    ImportanceAtLeastInitial(initial as real, flags);
    RoundOfInteger(initial);
  }
}
