/**
 * The two pure pieces of the RSS scraper: `stripHtml`, the global replace
 * of `/<[^>]*>?/gm` by the empty string, and the mapping of parsed feed
 * items to articles with JavaScript `||` fallbacks.
 */
module Scraper {

  datatype Option<T> = None | Some(value: T)

  /** The fields of a parsed RSS item the scraper reads; a missing field is `None`. */
  datatype FeedItem = FeedItem(
    title: Option<string>,
    contentSnippet: Option<string>,
    contentEncoded: Option<string>,
    summary: Option<string>,
    link: Option<string>)

  /** A scraped article as it is handed to storage. */
  datatype Article = Article(headline: string, summary: string, source: string, url: Option<string>)

  /** The position of the first `>` in `s`, or -1 when there is none. */
  function FirstClose(s: string): (k: int)
    ensures -1 <= k < |s|
    ensures k == -1 <==> '>' !in s
    ensures 0 <= k ==> s[k] == '>' && forall j :: 0 <= j < k ==> s[j] != '>'
  {
    if s == [] then -1
    else if s[0] == '>' then 0
    else
      var k := FirstClose(s[1..]);
      if k == -1 then -1 else k + 1
  }

  /**
   * What is left after a tag opened by `<`: `[^>]*` consumes everything up
   * to the next `>`, and `>?` consumes that `>` when there is one; without
   * a `>` nothing is left.
   */
  function AfterTag(s: string): (r: string)
    ensures |r| <= |s|
  {
    var k := FirstClose(s);
    if k == -1 then [] else s[k + 1..]
  }

  /** `html.replace(/<[^>]*>?/gm, '')`: every tag, closed or left open, removed. */
  function StripHtml(s: string): string
    decreases |s|
  {
    if s == [] then []
    else if s[0] == '<' then StripHtml(AfterTag(s[1..]))
    else [s[0]] + StripHtml(s[1..])
  }

  /** No `<` survives stripping, and stripping never lengthens the text. */
  lemma {:induction false} NoTagLeft(s: string)
    ensures '<' !in StripHtml(s)
    ensures |StripHtml(s)| <= |s|
    decreases |s|
  {
    if s != [] {
      if s[0] == '<' {
        NoTagLeft(AfterTag(s[1..]));
      } else {
        NoTagLeft(s[1..]);
      }
    }
  }

  /** Text without a `<` holds no tag and is returned unchanged. */
  lemma {:induction false} NoTagUnchanged(s: string)
    requires '<' !in s
    ensures StripHtml(s) == s
    decreases |s|
  {
    if s != [] {
      assert s == [s[0]] + s[1..];
      NoTagUnchanged(s[1..]);
    }
  }

  /** Stripping twice removes nothing more than stripping once. */
  lemma StripIdempotent(s: string)
    ensures StripHtml(StripHtml(s)) == StripHtml(s)
  {
    NoTagLeft(s);
    NoTagUnchanged(StripHtml(s));
  }

  /** `a` is `b` with some characters deleted. */
  predicate IsSubsequence(a: string, b: string)
    decreases |b|
  {
    if a == [] then true
    else if b == [] then false
    else (a[0] == b[0] && IsSubsequence(a[1..], b[1..])) || IsSubsequence(a, b[1..])
  }

  /** A subsequence of a suffix is a subsequence of the whole text. */
  lemma {:induction false} SubsequenceOfSuffix(a: string, b: string, n: nat)
    requires n <= |b| && IsSubsequence(a, b[n..])
    ensures IsSubsequence(a, b)
    decreases n
  {
    if 0 < n {
      assert b[1..][n - 1..] == b[n..];
      SubsequenceOfSuffix(a, b[1..], n - 1);
    }
  }

  /** Stripping only deletes characters: the output is a subsequence of the input. */
  lemma {:induction false} StripIsSubsequence(s: string)
    ensures IsSubsequence(StripHtml(s), s)
    decreases |s|
  {
    if s != [] {
      if s[0] == '<' {
        var rest := AfterTag(s[1..]);
        StripIsSubsequence(rest);
        var n := |s| - |rest|;
        var k := FirstClose(s[1..]);
        if k == -1 {
          assert s[|s|..] == rest;
        } else {
          assert s[k + 2..] == rest;
        }
        SubsequenceOfSuffix(StripHtml(rest), s, n);
      } else {
        StripIsSubsequence(s[1..]);
        assert StripHtml(s) == [s[0]] + StripHtml(s[1..]);
      }
    }
  }

  /** Appending text after a `>` does not move the first `>`. */
  lemma {:induction false} FirstCloseAppend(s: string, t: string)
    requires '>' in s
    ensures FirstClose(s + t) == FirstClose(s)
    decreases |s|
  {
    assert (s + t)[0] == s[0];
    if s[0] != '>' {
      assert (s + t)[1..] == s[1..] + t;
      FirstCloseAppend(s[1..], t);
    }
  }

  /** Text after a tag's closing `>` is unaffected by what follows it. */
  lemma AfterTagAppend(s: string, t: string)
    requires '>' in s
    ensures AfterTag(s + t) == AfterTag(s) + t
  {
    var k := FirstClose(s);
    FirstCloseAppend(s, t);
    SuffixOfAppend(s, t, k + 1);
  }

  lemma SuffixOfAppend(s: string, t: string, n: nat)
    requires n <= |s|
    ensures (s + t)[n..] == s[n..] + t
  {
  }

  /** A `<` with no `>` after it removes everything from that `<` to the end. */
  lemma {:induction false} UnclosedTagRemovesRest(p: string, q: string)
    requires '>' !in q
    ensures StripHtml(p + ['<'] + q) == StripHtml(p)
    decreases |p|, 1
  {
    if p == [] {
      var s := p + ['<'] + q;
      assert s[0] == '<' && s[1..] == q;
    } else if p[0] == '<' {
      UnclosedAfterTag(p, q);
    } else {
      UnclosedAfterText(p, q);
    }
  }

  lemma {:induction false} UnclosedAfterTag(p: string, q: string)
    requires p != [] && p[0] == '<' && '>' !in q
    ensures StripHtml(p + ['<'] + q) == StripHtml(p)
    decreases |p|, 0
  {
    var s := p + ['<'] + q;
    var tail := p[1..];
    assert s[0] == '<' && s[1..] == tail + (['<'] + q);
    if '>' in tail {
      AfterTagAppend(tail, ['<'] + q);
      UnclosedTagRemovesRest(AfterTag(tail), q);
      assert AfterTag(tail) + (['<'] + q) == AfterTag(tail) + ['<'] + q;
    } else {
      assert '>' !in tail + (['<'] + q);
    }
  }

  lemma {:induction false} UnclosedAfterText(p: string, q: string)
    requires p != [] && p[0] != '<' && '>' !in q
    ensures StripHtml(p + ['<'] + q) == StripHtml(p)
    decreases |p|, 0
  {
    var s := p + ['<'] + q;
    assert s[0] == p[0] && s[1..] == p[1..] + ['<'] + q;
    UnclosedTagRemovesRest(p[1..], q);
  }

  /** Text free of `<` in front is kept as it is, and stripping goes on after it. */
  lemma {:induction false} TextBeforeKept(p: string, t: string)
    requires '<' !in p
    ensures StripHtml(p + t) == p + StripHtml(t)
    decreases |p|
  {
    if p == [] {
      assert p + t == t;
    } else {
      assert p + t == [p[0]] + (p[1..] + t);
      StripText(p[0], p[1..] + t);
      TextBeforeKept(p[1..], t);
      assert [p[0]] + (p[1..] + StripHtml(t)) == p + StripHtml(t);
    }
  }

  /** A closed tag after text free of `<` disappears and the text around it is kept. */
  lemma ClosedTagRemoved(p: string, tag: string, q: string)
    requires '<' !in p && '>' !in tag
    ensures StripHtml(p + ['<'] + tag + ['>'] + q) == p + StripHtml(q)
  {
    var t := ['<'] + tag + ['>'] + q;
    calc {
      StripHtml(p + ['<'] + tag + ['>'] + q);
    == { assert p + ['<'] + tag + ['>'] + q == p + t; }
      StripHtml(p + t);
    == { TextBeforeKept(p, t); }
      p + StripHtml(t);
    == { ClosedTagAtStart(tag, q); }
      p + StripHtml(q);
    }
  }

  /** A character other than `<` is kept, and stripping goes on after it. */
  lemma StripText(c: char, rest: string)
    requires c != '<'
    ensures StripHtml([c] + rest) == [c] + StripHtml(rest)
  {
    assert ([c] + rest)[1..] == rest;
  }

  lemma ClosedTagAtStart(tag: string, q: string)
    requires '>' !in tag
    ensures StripHtml(['<'] + tag + ['>'] + q) == StripHtml(q)
  {
    var closed := tag + ['>'];
    var s := ['<'] + tag + ['>'] + q;
    assert s[0] == '<' && s[1..] == closed + q;
    ClosingBracketEndsTag(tag);
    AfterTagAppend(closed, q);
    assert AfterTag(closed) + q == q;
  }

  /** A tag body free of `>` ends at the `>` that follows it, and nothing of it is left. */
  lemma ClosingBracketEndsTag(tag: string)
    requires '>' !in tag
    ensures '>' in tag + ['>']
    ensures AfterTag(tag + ['>']) == []
  {
    var closed := tag + ['>'];
    assert closed[|tag|] == '>';
    var k := FirstClose(closed);
    assert forall j :: 0 <= j < |tag| ==> closed[j] == tag[j];
    assert k == |tag|;
  }

  /** JavaScript truthiness of an optional string: present and non-empty. */
  predicate Truthy(o: Option<string>)
  {
    o.Some? && o.value != []
  }

  /** `o || fallback` on an optional string. */
  function OrElse(o: Option<string>, fallback: string): string
  {
    if Truthy(o) then o.value else fallback
  }

  /** The first present, non-empty candidate, or the empty string. */
  function FirstNonEmpty(candidates: seq<Option<string>>): (r: string)
    ensures r == [] <==> forall i :: 0 <= i < |candidates| ==> !Truthy(candidates[i])
    ensures r != [] ==> exists i :: 0 <= i < |candidates| && candidates[i] == Some(r) &&
                                     forall j :: 0 <= j < i ==> !Truthy(candidates[j])
  {
    if candidates == [] then []
    else if Truthy(candidates[0]) then candidates[0].value
    else
      var r := FirstNonEmpty(candidates[1..]);
      assert r != [] ==> exists i :: 0 <= i < |candidates| && candidates[i] == Some(r) &&
                                     forall j :: 0 <= j < i ==> !Truthy(candidates[j]) by {
        if r != [] {
          var i :| 0 <= i < |candidates[1..]| && candidates[1..][i] == Some(r) &&
                   forall j :: 0 <= j < i ==> !Truthy(candidates[1..][j]);
          assert candidates[i + 1] == Some(r);
          forall j | 0 <= j < i + 1 ensures !Truthy(candidates[j]) {
            if 0 < j {
              assert candidates[j] == candidates[1..][j - 1];
            }
          }
        }
      }
      r
  }

  lemma FirstNonEmptyCons(o: Option<string>, rest: seq<Option<string>>)
    ensures FirstNonEmpty([o] + rest) == OrElse(o, FirstNonEmpty(rest))
  {
    assert ([o] + rest)[1..] == rest;
  }

  /** The mapping of one feed item to an article of the given source. */
  function ItemToArticle(item: FeedItem, source: string): Article
  {
    Article(
      OrElse(item.title, []),
      StripHtml(OrElse(item.contentSnippet, OrElse(item.contentEncoded, OrElse(item.summary, [])))),
      source,
      if Truthy(item.link) then Some(item.link.value) else None)
  }

  /** The `feed.items.map(...)` of the scraper: one article per item, in order. */
  function FeedArticles(items: seq<FeedItem>, source: string): (r: seq<Article>)
    ensures |r| == |items|
    ensures forall i :: 0 <= i < |r| ==> r[i] == ItemToArticle(items[i], source)
  {
    seq(|items|, i requires 0 <= i < |items| => ItemToArticle(items[i], source))
  }

  /**
   * Each article of the feed has the given source, the item's title as
   * headline (empty when it is missing or empty), the stripped first
   * non-empty of content snippet, encoded content and summary as summary,
   * and no `<` in its summary.
   */
  lemma FeedArticleFields(items: seq<FeedItem>, source: string, i: nat)
    requires i < |items|
    ensures var a := FeedArticles(items, source)[i];
            var item := items[i];
            a.source == source &&
            a.headline == (if Truthy(item.title) then item.title.value else []) &&
            a.summary == StripHtml(FirstNonEmpty([item.contentSnippet, item.contentEncoded, item.summary])) &&
            '<' !in a.summary &&
            (a.url.Some? <==> Truthy(item.link))
  {
    var item := items[i];
    FirstNonEmptyCons(item.summary, []);
    FirstNonEmptyCons(item.contentEncoded, [item.summary]);
    FirstNonEmptyCons(item.contentSnippet, [item.contentEncoded, item.summary]);
    assert [item.contentSnippet] + [item.contentEncoded, item.summary]
        == [item.contentSnippet, item.contentEncoded, item.summary];
    assert [item.contentEncoded] + [item.summary] == [item.contentEncoded, item.summary];
    assert [item.summary] + [] == [item.summary];
    NoTagLeft(OrElse(item.contentSnippet, OrElse(item.contentEncoded, OrElse(item.summary, []))));
  }

  /** `a<b>c` is stripped to `ac`. */
  lemma BoldTagExample()
    ensures StripHtml("a<b>c") == "ac"
  {
    ClosedTagRemoved("a", "b", "c");
    NoTagUnchanged("c");
    assert "a" + ['<'] + "b" + ['>'] + "c" == "a<b>c";
  }
}
