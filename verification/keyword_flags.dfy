/**
 * Keyword flag extraction, `calculateInitialScoreAndFlags`: the positive,
 * negative and macro keyword lists are scanned in that order against
 * `headline + " " + summary`; every keyword found raises one flag (a set of
 * keywords already found keeps it to one per keyword) worth its rank score,
 * times 1.5 when the headline holds it, rounded; the contributions add up to
 * the initial keyword score.
 */
module KeywordFlags {
  import opened JsMath
  import opened KeywordScoring

  datatype Category = Positive | Negative | Macro

  /** Position of a category in the scan order positive, negative, macro. */
  function ScanRank(c: Category): nat
  {
    match c
    case Positive => 0
    case Negative => 1
    case Macro => 2
  }

  datatype KeywordFlag = KeywordFlag(keyword: string, category: Category, scoreContribution: int)

  /** The three importance-ordered reference lists of `./constants/keywords`. */
  datatype KeywordLists = KeywordLists(positive: seq<string>, negative: seq<string>, macro: seq<string>)
  {
    function ListFor(c: Category): seq<string>
    {
      match c
      case Positive => positive
      case Negative => negative
      case Macro => macro
    }

    /** The category a keyword is flagged under: the first list, in scan order, that holds it. */
    function FirstCategory(k: string): Category
    {
      if k in positive then Positive else if k in negative then Negative else Macro
    }
  }

  /** The text searched for keywords: headline and summary joined by one space. */
  function SearchText(headline: string, summary: string): string
  {
    headline + " " + summary
  }

  /** Points one matched keyword adds: its rank score, times 1.5 when the headline holds it, rounded. */
  function Contribution(keyword: string, list: seq<string>, headline: string, sqrt: real -> real): (r: int)
    ensures keyword in list ==> 1 <= r <= 2
  {
    var score := KeywordScore(keyword, list, sqrt);
    Round(if Includes(headline, keyword) then score * 1.5 else score)
  }

  /** Only the most important keyword of a list, found in the headline, is worth two points. */
  lemma ContributionIsOneOrTwo(keyword: string, list: seq<string>, headline: string, sqrt: real -> real)
    requires IsSquareRoot(sqrt)
    requires keyword in list
    ensures Contribution(keyword, list, headline, sqrt) == 1 || Contribution(keyword, list, headline, sqrt) == 2
    ensures Contribution(keyword, list, headline, sqrt) == 2 <==>
              IndexOf(list, keyword) == 0 && Includes(headline, keyword)
  {
    FullScoreOnlyAtFront(keyword, list, sqrt);
  }

  /** The keywords of a sequence of flags. */
  function KeywordsOf(flags: seq<KeywordFlag>): set<string>
  {
    set f | f in flags :: f.keyword
  }

  lemma KeywordsOfConcat(a: seq<KeywordFlag>, b: seq<KeywordFlag>)
    ensures KeywordsOf(a + b) == KeywordsOf(a) + KeywordsOf(b)
  {
    var ab := a + b;
    forall k | k in KeywordsOf(ab) ensures k in KeywordsOf(a) + KeywordsOf(b) {
      var f :| f in ab && f.keyword == k;
      assert f in a || f in b;
    }
    forall k | k in KeywordsOf(a) + KeywordsOf(b) ensures k in KeywordsOf(ab) {
      if k in KeywordsOf(a) {
        var f :| f in a && f.keyword == k;
        assert f in ab;
      } else {
        var f :| f in b && f.keyword == k;
        assert f in ab;
      }
    }
  }

  lemma KeywordsOfSnoc(a: seq<KeywordFlag>, f: KeywordFlag)
    ensures KeywordsOf(a + [f]) == KeywordsOf(a) + {f.keyword}
  {
    KeywordsOfConcat(a, [f]);
    assert KeywordsOf([f]) == {f.keyword} by {
      assert f in [f];
    }
  }

  /**
   * The flags that scanning `keys`, a prefix of `list`, against `text` raises
   * before duplicates are dropped: one per keyword occurrence in `keys` that
   * `text` includes, in list order.
   */
  function Matches(keys: seq<string>, list: seq<string>, category: Category, text: string,
                   headline: string, sqrt: real -> real): (r: seq<KeywordFlag>)
    ensures forall f :: f in r ==>
              f.category == category && f.keyword in keys && Includes(text, f.keyword) &&
              f.scoreContribution == Contribution(f.keyword, list, headline, sqrt)
    ensures forall k :: k in keys && Includes(text, k) ==> k in KeywordsOf(r)
  {
    if keys == [] then []
    else
      var earlier := Matches(keys[..|keys| - 1], list, category, text, headline, sqrt);
      var k := keys[|keys| - 1];
      assert keys == keys[..|keys| - 1] + [k];
      if Includes(text, k) then earlier + [KeywordFlag(k, category, Contribution(k, list, headline, sqrt))]
      else earlier
  }

  /** Every match of the three scans, in scan order, before duplicates are dropped. */
  function Candidates(headline: string, summary: string, lists: KeywordLists, sqrt: real -> real): seq<KeywordFlag>
  {
    var text := SearchText(headline, summary);
    Matches(lists.positive, lists.positive, Positive, text, headline, sqrt)
    + Matches(lists.negative, lists.negative, Negative, text, headline, sqrt)
    + Matches(lists.macro, lists.macro, Macro, text, headline, sqrt)
  }

  /** Keeps the first flag of each keyword, in order: the effect of the `foundKeywords` set. */
  function FirstPerKeyword(flags: seq<KeywordFlag>): (r: seq<KeywordFlag>)
    ensures forall f :: f in r ==> f in flags
    ensures KeywordsOf(r) == KeywordsOf(flags)
  {
    if flags == [] then []
    else
      var kept := FirstPerKeyword(flags[..|flags| - 1]);
      var f := flags[|flags| - 1];
      assert flags == flags[..|flags| - 1] + [f];
      KeywordsOfSnoc(flags[..|flags| - 1], f);
      KeywordsOfSnoc(kept, f);
      if f.keyword in KeywordsOf(kept) then kept else kept + [f]
  }

  /** The flags `calculateInitialScoreAndFlags` returns for one article. */
  function FlagsFor(headline: string, summary: string, lists: KeywordLists, sqrt: real -> real): seq<KeywordFlag>
  {
    FirstPerKeyword(Candidates(headline, summary, lists, sqrt))
  }

  /** The running `initialKeywordScore`: contributions added left to right. */
  function TotalContribution(flags: seq<KeywordFlag>): int
  {
    if flags == [] then 0
    else TotalContribution(flags[..|flags| - 1]) + flags[|flags| - 1].scoreContribution
  }

  lemma MatchesSnoc(list: seq<string>, i: nat, category: Category, text: string, headline: string, sqrt: real -> real)
    requires i < |list|
    ensures Matches(list[..i + 1], list, category, text, headline, sqrt) ==
            Matches(list[..i], list, category, text, headline, sqrt) +
            (if Includes(text, list[i]) then [KeywordFlag(list[i], category, Contribution(list[i], list, headline, sqrt))] else [])
  {
    assert list[..i + 1][..i] == list[..i];
  }

  lemma FirstPerKeywordSnoc(flags: seq<KeywordFlag>, f: KeywordFlag)
    ensures FirstPerKeyword(flags + [f]) ==
            if f.keyword in KeywordsOf(FirstPerKeyword(flags)) then FirstPerKeyword(flags) else FirstPerKeyword(flags) + [f]
  {
    assert (flags + [f])[..|flags|] == flags;
  }

  lemma TotalContributionSnoc(flags: seq<KeywordFlag>, f: KeywordFlag)
    ensures TotalContribution(flags + [f]) == TotalContribution(flags) + f.scoreContribution
  {
    assert (flags + [f])[..|flags|] == flags;
  }

  /** Scanning one more keyword adds its flag exactly when the text holds it and it is new. */
  lemma ScanStep(scanned: seq<KeywordFlag>, list: seq<string>, i: nat, category: Category, text: string,
                 headline: string, sqrt: real -> real)
    requires i < |list|
    ensures var kept := FirstPerKeyword(scanned + Matches(list[..i], list, category, text, headline, sqrt));
            FirstPerKeyword(scanned + Matches(list[..i + 1], list, category, text, headline, sqrt)) ==
            if Includes(text, list[i]) && list[i] !in KeywordsOf(kept)
            then kept + [KeywordFlag(list[i], category, Contribution(list[i], list, headline, sqrt))]
            else kept
  {
    var before := scanned + Matches(list[..i], list, category, text, headline, sqrt);
    var candidate := KeywordFlag(list[i], category, Contribution(list[i], list, headline, sqrt));
    MatchesSnoc(list, i, category, text, headline, sqrt);
    if Includes(text, list[i]) {
      assert scanned + Matches(list[..i + 1], list, category, text, headline, sqrt) == before + [candidate];
      FirstPerKeywordSnoc(before, candidate);
    } else {
      assert scanned + Matches(list[..i + 1], list, category, text, headline, sqrt) == before;
    }
  }

  /**
   * The `checkAndAdd` closure: a keyword the text holds and the found set
   * lacks gets a flag worth its contribution, which is added to the total.
   */
  method CheckAndAdd(keyword: string, category: Category, list: seq<string>, text: string, headline: string,
                     sqrt: real -> real, found: set<string>, flags: seq<KeywordFlag>, total: int)
    returns (found': set<string>, flags': seq<KeywordFlag>, total': int)
    requires found == KeywordsOf(flags) && total == TotalContribution(flags)
    ensures flags' == if Includes(text, keyword) && keyword !in found
                      then flags + [KeywordFlag(keyword, category, Contribution(keyword, list, headline, sqrt))]
                      else flags
    ensures found' == KeywordsOf(flags') && total' == TotalContribution(flags')
  {
    found', flags', total' := found, flags, total;
    if Includes(text, keyword) && !(keyword in found) {
      var scoreContribution := KeywordScore(keyword, list, sqrt);
      if Includes(headline, keyword) {
        scoreContribution := scoreContribution * 1.5;
      }
      var flag := KeywordFlag(keyword, category, Round(scoreContribution));
      KeywordsOfSnoc(flags, flag);
      TotalContributionSnoc(flags, flag);
      flags' := flags + [flag];
      total' := total + flag.scoreContribution;
      found' := found + {keyword};
    }
  }

  /**
   * One `forEach` over a list with the `checkAndAdd` closure: the found-keyword
   * set, the flag array and the running score are threaded through.
   */
  method ScanList(list: seq<string>, category: Category, text: string, headline: string, sqrt: real -> real,
                  ghost scanned: seq<KeywordFlag>,
                  found: set<string>, flags: seq<KeywordFlag>, total: int)
    returns (found': set<string>, flags': seq<KeywordFlag>, total': int)
    requires flags == FirstPerKeyword(scanned)
    requires found == KeywordsOf(flags) && total == TotalContribution(flags)
    ensures flags' == FirstPerKeyword(scanned + Matches(list, list, category, text, headline, sqrt))
    ensures found' == KeywordsOf(flags') && total' == TotalContribution(flags')
  {
    found', flags', total' := found, flags, total;
    assert scanned + Matches(list[..0], list, category, text, headline, sqrt) == scanned;
    for i := 0 to |list|
      invariant flags' == FirstPerKeyword(scanned + Matches(list[..i], list, category, text, headline, sqrt))
      invariant found' == KeywordsOf(flags') && total' == TotalContribution(flags')
    {
      ScanStep(scanned, list, i, category, text, headline, sqrt);
      found', flags', total' := CheckAndAdd(list[i], category, list, text, headline, sqrt, found', flags', total');
    }
    assert list[..|list|] == list;
  }

  /** `calculateInitialScoreAndFlags`: the flags of one article and their total. */
  method CalculateInitialScoreAndFlags(headline: string, summary: string, lists: KeywordLists, sqrt: real -> real)
    returns (flags: seq<KeywordFlag>, initialKeywordScore: int)
    ensures flags == FlagsFor(headline, summary, lists, sqrt)
    ensures initialKeywordScore == TotalContribution(flags)
  {
    var text := SearchText(headline, summary);
    var foundKeywords: set<string> := {};
    flags, initialKeywordScore := [], 0;
    ghost var positives := Matches(lists.positive, lists.positive, Positive, text, headline, sqrt);
    ghost var negatives := Matches(lists.negative, lists.negative, Negative, text, headline, sqrt);
    ghost var macros := Matches(lists.macro, lists.macro, Macro, text, headline, sqrt);
    assert flags == FirstPerKeyword([]);
    foundKeywords, flags, initialKeywordScore :=
      ScanList(lists.positive, Positive, text, headline, sqrt, [], foundKeywords, flags, initialKeywordScore);
    assert [] + positives == positives;
    foundKeywords, flags, initialKeywordScore :=
      ScanList(lists.negative, Negative, text, headline, sqrt, positives, foundKeywords, flags, initialKeywordScore);
    foundKeywords, flags, initialKeywordScore :=
      ScanList(lists.macro, Macro, text, headline, sqrt, positives + negatives, foundKeywords, flags, initialKeywordScore);
    assert positives + negatives + macros == Candidates(headline, summary, lists, sqrt);
  }

  /** No keyword carries two flags. */
  predicate DistinctKeywords(flags: seq<KeywordFlag>)
  {
    forall i, j :: 0 <= i < j < |flags| ==> flags[i].keyword != flags[j].keyword
  }

  lemma {:induction false} FirstPerKeywordDistinct(flags: seq<KeywordFlag>)
    ensures DistinctKeywords(FirstPerKeyword(flags))
  {
    if flags != [] {
      var kept := FirstPerKeyword(flags[..|flags| - 1]);
      FirstPerKeywordDistinct(flags[..|flags| - 1]);
      var f := flags[|flags| - 1];
      if f.keyword !in KeywordsOf(kept) {
        var r := kept + [f];
        assert r == FirstPerKeyword(flags);
        forall i, j | 0 <= i < j < |r| ensures r[i].keyword != r[j].keyword {
          if j == |kept| {
            assert r[i] in kept;
            assert r[i].keyword in KeywordsOf(kept);
          }
        }
      } else {
        assert kept == FirstPerKeyword(flags);
      }
    }
  }

  /** The flag kept for a keyword is its earliest occurrence: it comes no later than any other. */
  lemma {:induction false} FirstPerKeywordEarliest(flags: seq<KeywordFlag>, f: KeywordFlag, j: nat)
    requires f in FirstPerKeyword(flags)
    requires j < |flags| && flags[j].keyword == f.keyword
    ensures f in flags[..j + 1]
  {
    var init := flags[..|flags| - 1];
    if j == |flags| - 1 {
      assert flags[..j + 1] == flags;
    } else {
      assert flags[j] == init[j] && init[j] in init;
      assert f.keyword in KeywordsOf(init);
      FirstPerKeywordEarliest(init, f, j);
      assert init[..j + 1] == flags[..j + 1];
    }
  }

  /** Each keyword is flagged at most once. */
  lemma FlagsAreDistinct(headline: string, summary: string, lists: KeywordLists, sqrt: real -> real)
    ensures DistinctKeywords(FlagsFor(headline, summary, lists, sqrt))
  {
    FirstPerKeywordDistinct(Candidates(headline, summary, lists, sqrt));
  }

  /**
   * A flag's keyword occurs in the search text and in the list of its
   * category, and its contribution is the one scored against that list.
   */
  lemma FlagIsFound(headline: string, summary: string, lists: KeywordLists, sqrt: real -> real, f: KeywordFlag)
    requires f in FlagsFor(headline, summary, lists, sqrt)
    ensures Includes(SearchText(headline, summary), f.keyword)
    ensures f.keyword in lists.ListFor(f.category)
    ensures f.scoreContribution == Contribution(f.keyword, lists.ListFor(f.category), headline, sqrt)
  {
    var text := SearchText(headline, summary);
    var p := Matches(lists.positive, lists.positive, Positive, text, headline, sqrt);
    var n := Matches(lists.negative, lists.negative, Negative, text, headline, sqrt);
    var m := Matches(lists.macro, lists.macro, Macro, text, headline, sqrt);
    assert p + n + m == Candidates(headline, summary, lists, sqrt);
    assert f in p + n + m;
    assert f in p || f in n || f in m;
  }

  /** Every listed keyword that the search text holds is flagged. */
  lemma EveryFoundKeywordIsFlagged(headline: string, summary: string, lists: KeywordLists, sqrt: real -> real,
                                   k: string)
    requires k in lists.positive || k in lists.negative || k in lists.macro
    requires Includes(SearchText(headline, summary), k)
    ensures k in KeywordsOf(FlagsFor(headline, summary, lists, sqrt))
  {
    var text := SearchText(headline, summary);
    var p := Matches(lists.positive, lists.positive, Positive, text, headline, sqrt);
    var n := Matches(lists.negative, lists.negative, Negative, text, headline, sqrt);
    var m := Matches(lists.macro, lists.macro, Macro, text, headline, sqrt);
    assert p + n + m == Candidates(headline, summary, lists, sqrt);
    KeywordsOfConcat(p, n);
    KeywordsOfConcat(p + n, m);
  }

  /** A kept flag whose keyword already occurs in a prefix of the candidates lies in that prefix. */
  lemma KeptFlagInPrefix(candidates: seq<KeywordFlag>, prefix: seq<KeywordFlag>, f: KeywordFlag)
    requires f in FirstPerKeyword(candidates)
    requires |prefix| <= |candidates| && candidates[..|prefix|] == prefix
    requires f.keyword in KeywordsOf(prefix)
    ensures f in prefix
  {
    var g :| g in prefix && g.keyword == f.keyword;
    var j :| 0 <= j < |prefix| && prefix[j] == g;
    FirstPerKeywordEarliest(candidates, f, j);
    assert candidates[..j + 1] == prefix[..j + 1];
  }

  /** A keyword held by several lists is flagged once, under the first list in scan order that holds it. */
  lemma FlagCategoryIsFirstList(headline: string, summary: string, lists: KeywordLists, sqrt: real -> real,
                                f: KeywordFlag)
    requires f in FlagsFor(headline, summary, lists, sqrt)
    ensures f.category == lists.FirstCategory(f.keyword)
  {
    var text := SearchText(headline, summary);
    var p := Matches(lists.positive, lists.positive, Positive, text, headline, sqrt);
    var n := Matches(lists.negative, lists.negative, Negative, text, headline, sqrt);
    var m := Matches(lists.macro, lists.macro, Macro, text, headline, sqrt);
    var candidates := p + n + m;
    assert candidates == Candidates(headline, summary, lists, sqrt);
    assert f in p || f in n || f in m;
    if f.keyword in lists.positive {
      assert candidates[..|p|] == p;
      KeptFlagInPrefix(candidates, p, f);
    } else if f.keyword in lists.negative {
      assert candidates[..|p + n|] == p + n;
      KeywordsOfConcat(p, n);
      KeptFlagInPrefix(candidates, p + n, f);
    }
  }

  /** A flag is worth 1 or 2 points, and 2 exactly for the front keyword of its list found in the headline. */
  lemma FlagContributions(headline: string, summary: string, lists: KeywordLists, sqrt: real -> real,
                          f: KeywordFlag)
    requires IsSquareRoot(sqrt)
    requires f in FlagsFor(headline, summary, lists, sqrt)
    ensures f.scoreContribution == 1 || f.scoreContribution == 2
    ensures f.scoreContribution == 2 <==>
              IndexOf(lists.ListFor(f.category), f.keyword) == 0 && Includes(headline, f.keyword)
  {
    FlagIsFound(headline, summary, lists, sqrt, f);
    ContributionIsOneOrTwo(f.keyword, lists.ListFor(f.category), headline, sqrt);
  }

  /** `a` is scanned before `b`: in an earlier list, or in the same list at an earlier first position. */
  predicate ScannedBefore(lists: KeywordLists, a: KeywordFlag, b: KeywordFlag)
  {
    || ScanRank(a.category) < ScanRank(b.category)
    || (a.category == b.category &&
        IndexOf(lists.ListFor(a.category), a.keyword) < IndexOf(lists.ListFor(b.category), b.keyword))
  }

  /** Flags ordered as the scan meets them. */
  predicate InScanOrder(lists: KeywordLists, flags: seq<KeywordFlag>)
  {
    forall i, j :: 0 <= i < j < |flags| ==> ScannedBefore(lists, flags[i], flags[j])
  }

  /** Every flag whose keyword is new at its position comes after all flags before it. */
  predicate NewKeywordsInScanOrder(lists: KeywordLists, flags: seq<KeywordFlag>)
  {
    forall i, j :: 0 <= i < j < |flags| && flags[j].keyword !in KeywordsOf(flags[..j]) ==>
      ScannedBefore(lists, flags[i], flags[j])
  }

  lemma {:induction false} FirstPerKeywordInScanOrder(lists: KeywordLists, flags: seq<KeywordFlag>)
    requires NewKeywordsInScanOrder(lists, flags)
    ensures InScanOrder(lists, FirstPerKeyword(flags))
  {
    if flags != [] {
      var init := flags[..|flags| - 1];
      var x := flags[|flags| - 1];
      forall i, j | 0 <= i < j < |init| && init[j].keyword !in KeywordsOf(init[..j])
        ensures ScannedBefore(lists, init[i], init[j])
      {
        assert init[..j] == flags[..j];
      }
      FirstPerKeywordInScanOrder(lists, init);
      var kept := FirstPerKeyword(init);
      if x.keyword !in KeywordsOf(kept) {
        var r := kept + [x];
        assert r == FirstPerKeyword(flags);
        assert flags[..|init|] == init;
        forall i, j | 0 <= i < j < |r| ensures ScannedBefore(lists, r[i], r[j]) {
          if j == |kept| {
            assert r[i] in init;
            var m :| 0 <= m < |init| && init[m] == r[i];
            assert flags[m] == r[i];
          }
        }
      } else {
        assert kept == FirstPerKeyword(flags);
      }
    }
  }

  /**
   * A keyword at position |init| of `list` that the text holds and that is
   * not among the keywords already found in `init` has its first position after that of every keyword of `init`.
   */
  lemma NewKeywordFollowsEarlier(list: seq<string>, init: seq<string>, k: string, w: string, seen: set<string>,
                                 text: string)
    requires |init| < |list| && init == list[..|init|] && list[|init|] == k
    requires forall x :: x in init && Includes(text, x) ==> x in seen
    requires Includes(text, k) && k !in seen && w in init
    ensures IndexOf(list, w) < IndexOf(list, k)
  {
    var p :| 0 <= p < |init| && init[p] == w;
    assert list[p] == w;
    assert k !in init;
    assert forall r :: 0 <= r < |init| ==> list[r] == init[r];
  }

  lemma AppendInScanOrder(lists: KeywordLists, flags: seq<KeywordFlag>, flag: KeywordFlag)
    requires NewKeywordsInScanOrder(lists, flags)
    requires flag.keyword !in KeywordsOf(flags) ==> forall x :: x in flags ==> ScannedBefore(lists, x, flag)
    ensures NewKeywordsInScanOrder(lists, flags + [flag])
  {
    var s := flags + [flag];
    forall i, j | 0 <= i < j < |s| && s[j].keyword !in KeywordsOf(s[..j])
      ensures ScannedBefore(lists, s[i], s[j])
    {
      if j < |flags| {
        assert s[..j] == flags[..j];
      } else {
        assert s[..j] == flags;
        assert s[i] in flags;
      }
    }
  }

  /** Within one list, a keyword met for the first time lies at a later first position than everything before it. */
  lemma {:induction false} MatchesNewKeywordsInListOrder(lists: KeywordLists, category: Category, keys: seq<string>,
                                                          text: string, headline: string, sqrt: real -> real)
    requires |keys| <= |lists.ListFor(category)| && keys == lists.ListFor(category)[..|keys|]
    ensures NewKeywordsInScanOrder(lists, Matches(keys, lists.ListFor(category), category, text, headline, sqrt))
  {
    var list := lists.ListFor(category);
    var found := Matches(keys, list, category, text, headline, sqrt);
    if keys != [] {
      var q := |keys| - 1;
      var init := keys[..q];
      var k := keys[q];
      assert init == list[..q];
      MatchesNewKeywordsInListOrder(lists, category, init, text, headline, sqrt);
      var earlier := Matches(init, list, category, text, headline, sqrt);
      if Includes(text, k) {
        var flag := KeywordFlag(k, category, Contribution(k, list, headline, sqrt));
        assert found == earlier + [flag];
        if k !in KeywordsOf(earlier) {
          forall x | x in earlier ensures ScannedBefore(lists, x, flag) {
            NewKeywordFollowsEarlier(list, init, k, x.keyword, KeywordsOf(earlier), text);
          }
        }
        AppendInScanOrder(lists, earlier, flag);
      } else {
        assert found == earlier;
      }
    }
  }

  /** Appending flags of a later category keeps new keywords in scan order. */
  lemma AppendLaterCategory(lists: KeywordLists, a: seq<KeywordFlag>, b: seq<KeywordFlag>)
    requires NewKeywordsInScanOrder(lists, a) && NewKeywordsInScanOrder(lists, b)
    requires forall x, y :: x in a && y in b ==> ScanRank(x.category) < ScanRank(y.category)
    ensures NewKeywordsInScanOrder(lists, a + b)
  {
    var s := a + b;
    forall i, j | 0 <= i < j < |s| && s[j].keyword !in KeywordsOf(s[..j])
      ensures ScannedBefore(lists, s[i], s[j])
    {
      if j < |a| {
        assert s[..j] == a[..j];
      } else if i < |a| {
        assert s[i] in a && s[j] in b;
      } else {
        assert s[..j] == a + b[..j - |a|];
        KeywordsOfConcat(a, b[..j - |a|]);
        assert s[i] == b[i - |a|] && s[j] == b[j - |a|];
      }
    }
  }

  /** Flags come in scan order: positive list, then negative, then macro, each in list order. */
  lemma FlagsInScanOrder(headline: string, summary: string, lists: KeywordLists, sqrt: real -> real)
    ensures InScanOrder(lists, FlagsFor(headline, summary, lists, sqrt))
  {
    var text := SearchText(headline, summary);
    var p := Matches(lists.positive, lists.positive, Positive, text, headline, sqrt);
    var n := Matches(lists.negative, lists.negative, Negative, text, headline, sqrt);
    var m := Matches(lists.macro, lists.macro, Macro, text, headline, sqrt);
    MatchesNewKeywordsInListOrder(lists, Positive, lists.positive, text, headline, sqrt);
    MatchesNewKeywordsInListOrder(lists, Negative, lists.negative, text, headline, sqrt);
    MatchesNewKeywordsInListOrder(lists, Macro, lists.macro, text, headline, sqrt);
    AppendLaterCategory(lists, p, n);
    assert forall x :: x in p + n ==> x in p || x in n;
    AppendLaterCategory(lists, p + n, m);
    assert p + n + m == Candidates(headline, summary, lists, sqrt);
    FirstPerKeywordInScanOrder(lists, p + n + m);
  }

  /** A listed keyword that the headline holds is always flagged, whatever the summary says. */
  lemma HeadlineKeywordIsFlagged(headline: string, summary: string, lists: KeywordLists, sqrt: real -> real,
                                 k: string)
    requires k in lists.positive || k in lists.negative || k in lists.macro
    requires Includes(headline, k)
    ensures k in KeywordsOf(FlagsFor(headline, summary, lists, sqrt))
  {
    IncludesInConcat(headline, " " + summary, k);
    assert SearchText(headline, summary) == headline + (" " + summary);
    EveryFoundKeywordIsFlagged(headline, summary, lists, sqrt, k);
  }
}
