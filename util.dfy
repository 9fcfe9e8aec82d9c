/**
 * util.go: choosing the top articles from the model's ranking, and the
 * plain-text digest that lists them.
 */
module Util {
  import opened Common
  import opened Text

  /** The most articles selected. */
  const MaxTop := 10

  // ---------------------------------------------------------------------------
  // selectTopArticles

  /** The article a URL resolves to: the last valid article with that URL, as the map built from the list keeps it. */
  function Resolve(valid: seq<ArticleWithContent>, url: string): (r: Option<ArticleWithContent>)
    ensures r.None? <==> forall i :: 0 <= i < |valid| ==> valid[i].url != url
    ensures r.Some? ==> r.value.url == url && exists i :: 0 <= i < |valid| && valid[i] == r.value
                                                        && forall j :: i < j < |valid| ==> valid[j].url != url
    decreases |valid|
  {
    if valid == [] then None
    else if valid[|valid| - 1].url == url then Some(valid[|valid| - 1])
    else Resolve(valid[..|valid| - 1], url)
  }

  /** The articles the ranked entries resolve to, in ranked order, unmatched entries skipped and repeats kept. */
  function Matched(ranked: seq<RankedArticle>, valid: seq<ArticleWithContent>): seq<ArticleWithContent>
    decreases |ranked|
  {
    if ranked == [] then []
    else
      var before := Matched(ranked[..|ranked| - 1], valid);
      match Resolve(valid, ranked[|ranked| - 1].url)
      case None => before
      case Some(a) => before + [a]
  }

  /** The selection: the first MaxTop matched articles. */
  function TopArticles(ranked: seq<RankedArticle>, valid: seq<ArticleWithContent>): (top: seq<ArticleWithContent>)
    ensures |top| <= MaxTop
  {
    var m := Matched(ranked, valid);
    if |m| <= MaxTop then m else m[..MaxTop]
  }

  /** The lookup the source's map answers: Some(m[url]) when url is a key. */
  function Lookup(m: map<string, ArticleWithContent>, url: string): Option<ArticleWithContent>
  {
    if url in m then Some(m[url]) else None
  }

  /** selectTopArticles: a URL-to-article map built from validArticles, then an ordered, capped filter of the ranking. */
  method SelectTopArticles(rankedArticles: seq<RankedArticle>, validArticles: seq<ArticleWithContent>)
    returns (topArticles: seq<ArticleWithContent>)
    ensures topArticles == TopArticles(rankedArticles, validArticles)
  {
    var articleMap: map<string, ArticleWithContent> := map[];
    for i := 0 to |validArticles|
      invariant forall url :: Lookup(articleMap, url) == Resolve(validArticles[..i], url)
    {
      var art := validArticles[i];
      assert validArticles[..i + 1][..i] == validArticles[..i];
      articleMap := articleMap[art.url := art];
    }
    assert validArticles[..|validArticles|] == validArticles;
    topArticles := [];
    for k := 0 to |rankedArticles|
      invariant topArticles == Matched(rankedArticles[..k], validArticles)
      invariant |topArticles| < MaxTop
    {
      var ra := rankedArticles[k];
      assert rankedArticles[..k + 1][..k] == rankedArticles[..k];
      if ra.url in articleMap {
        assert Lookup(articleMap, ra.url) == Resolve(validArticles, ra.url);
        topArticles := topArticles + [articleMap[ra.url]];
      } else {
        assert Lookup(articleMap, ra.url) == Resolve(validArticles, ra.url);
      }
      if |topArticles| >= MaxTop {
        MatchedPrefix(rankedArticles, k + 1, validArticles);
        break;
      }
    }
    assert rankedArticles[..|rankedArticles|] == rankedArticles;
  }

  /** Matching a concatenation matches its halves. */
  lemma {:induction false} MatchedConcat(xs: seq<RankedArticle>, ys: seq<RankedArticle>, valid: seq<ArticleWithContent>)
    ensures Matched(xs + ys, valid) == Matched(xs, valid) + Matched(ys, valid)
    decreases |ys|
  {
    if ys == [] {
      assert xs + ys == xs;
    } else {
      var last := ys[|ys| - 1];
      assert (xs + ys)[..|xs + ys| - 1] == xs + ys[..|ys| - 1];
      MatchedConcat(xs, ys[..|ys| - 1], valid);
    }
  }

  /** Matching a prefix of the ranking gives a prefix of the matches. */
  lemma MatchedPrefix(ranked: seq<RankedArticle>, k: nat, valid: seq<ArticleWithContent>)
    requires k <= |ranked|
    ensures var m := Matched(ranked[..k], valid); |m| <= |Matched(ranked, valid)| && Matched(ranked, valid)[..|m|] == m
  {
    assert ranked == ranked[..k] + ranked[k..];
    MatchedConcat(ranked[..k], ranked[k..], valid);
  }

  /** Every selected article is a valid article whose URL is the URL of some ranked entry. */
  lemma {:induction false} MatchedFromValid(ranked: seq<RankedArticle>, valid: seq<ArticleWithContent>)
    ensures forall a :: a in Matched(ranked, valid) ==>
              a in valid && exists k :: 0 <= k < |ranked| && ranked[k].url == a.url
    decreases |ranked|
  {
    if ranked != [] {
      var init := ranked[..|ranked| - 1];
      MatchedFromValid(init, valid);
      forall a | a in Matched(ranked, valid)
        ensures a in valid && exists k :: 0 <= k < |ranked| && ranked[k].url == a.url
      {
        if a in Matched(init, valid) {
          var k :| 0 <= k < |init| && init[k].url == a.url;
          assert ranked[k] == init[k];
        } else {
          assert Resolve(valid, ranked[|ranked| - 1].url) == Some(a);
        }
      }
    }
  }

  /** Every selected article was looked up by the URL of some ranked entry and is a member of validArticles. */
  lemma TopFromValid(ranked: seq<RankedArticle>, valid: seq<ArticleWithContent>)
    ensures forall a :: a in TopArticles(ranked, valid) ==>
              a in valid && exists k :: 0 <= k < |ranked| && ranked[k].url == a.url
  {
    MatchedFromValid(ranked, valid);
    var m := Matched(ranked, valid);
    assert forall a :: a in TopArticles(ranked, valid) ==> a in m;
  }

  /** A ranked entry whose URL matches no valid article changes nothing, wherever it stands. */
  lemma UnmatchedSkipped(ranked: seq<RankedArticle>, k: nat, ra: RankedArticle, valid: seq<ArticleWithContent>)
    requires k <= |ranked|
    requires forall i :: 0 <= i < |valid| ==> valid[i].url != ra.url
    ensures TopArticles(ranked[..k] + [ra] + ranked[k..], valid) == TopArticles(ranked, valid)
  {
    MatchedConcat(ranked[..k] + [ra], ranked[k..], valid);
    MatchedConcat(ranked[..k], [ra], valid);
    MatchedConcat(ranked[..k], ranked[k..], valid);
    assert [ra][..0] == [];
    assert ranked[..k] + ranked[k..] == ranked;
  }

  /** When several valid articles share a URL, the last of them is the one selected for it. */
  lemma LastDuplicateWins(valid: seq<ArticleWithContent>, i: nat, j: nat)
    requires i < j < |valid| && valid[i].url == valid[j].url
    requires forall k :: j < k < |valid| ==> valid[k].url != valid[j].url
    ensures Resolve(valid, valid[i].url) == Some(valid[j])
  {
    var url := valid[j].url;
    var r := Resolve(valid, url);
    assert r.Some?;
    var w :| 0 <= w < |valid| && valid[w] == r.value && forall k :: w < k < |valid| ==> valid[k].url != url;
    assert w == j;
  }

  /** Matching does not deduplicate: a ranked entry listed twice, anywhere, yields its article twice, in place. */
  lemma RepeatsKept(xs: seq<RankedArticle>, ys: seq<RankedArticle>, zs: seq<RankedArticle>,
                    ra: RankedArticle, valid: seq<ArticleWithContent>, a: ArticleWithContent)
    requires Resolve(valid, ra.url) == Some(a)
    ensures Matched(xs + [ra] + ys + [ra] + zs, valid)
         == Matched(xs, valid) + [a] + Matched(ys, valid) + [a] + Matched(zs, valid)
  {
    assert [ra][..0] == [];
    assert Matched([ra], valid) == [a];
    MatchedConcat(xs, [ra], valid);
    MatchedConcat(xs + [ra], ys, valid);
    MatchedConcat(xs + [ra] + ys, [ra], valid);
    MatchedConcat(xs + [ra] + ys + [ra], zs, valid);
  }

  /** When both copies fall within the first MaxTop matches, the selection lists the article twice. */
  lemma RepeatsSelected(xs: seq<RankedArticle>, ys: seq<RankedArticle>, zs: seq<RankedArticle>,
                        ra: RankedArticle, valid: seq<ArticleWithContent>, a: ArticleWithContent)
    requires Resolve(valid, ra.url) == Some(a)
    requires |Matched(xs, valid)| + |Matched(ys, valid)| + 2 <= MaxTop
    ensures var top := TopArticles(xs + [ra] + ys + [ra] + zs, valid);
            var i := |Matched(xs, valid)|;
            var j := i + 1 + |Matched(ys, valid)|;
            j < |top| && top[i] == a && top[j] == a
  {
    RepeatsKept(xs, ys, zs, ra, valid, a);
  }

  // ---------------------------------------------------------------------------
  // buildPlainMessage

  const Greeting := "Hello,\n\nHere are your top positively-ranked news articles:\n\n"
  const DetailsHeader := "\nFull Ranking Details:\n\n"
  const Closing := "\nHave a great day!\n"

  /** One top article: "- Title URL" and a blank line. */
  function TopLine(n: int, art: ArticleWithContent): string
  {
    "- " + art.title + " " + art.url + "\n\n"
  }

  /** One ranked entry with its own Rank field: "Rank. Title URL - Category: C" and a blank line. */
  function RankLine(n: int, ra: RankedArticle): string
  {
    IntToString(ra.rank) + ". " + ra.title + " " + ra.url + " - Category: " + ra.category + "\n\n"
  }

  /** The digest: greeting, top articles, the details header, every ranked entry, closing. */
  function Digest(topArticles: seq<ArticleWithContent>, rankedArticles: seq<RankedArticle>): string
  {
    Greeting + Blocks(topArticles, 1, TopLine) + DetailsHeader + Blocks(rankedArticles, 1, RankLine) + Closing
  }

  /** buildPlainMessage: the message grown with `+=`, one block per article in two loops. */
  method BuildPlainMessage(topArticles: seq<ArticleWithContent>, rankedArticles: seq<RankedArticle>)
    returns (message: string)
    ensures message == Digest(topArticles, rankedArticles)
    ensures topArticles == [] && rankedArticles == [] ==> message == Greeting + DetailsHeader + Closing
  {
    message := Greeting;
    ghost var greeting := message;
    for i := 0 to |topArticles|
      invariant message == greeting + Blocks(topArticles[..i], 1, TopLine)
    {
      BlocksGrow(greeting, topArticles, i, 1, TopLine);
      message := message + TopLine(i + 1, topArticles[i]);
    }
    assert topArticles[..|topArticles|] == topArticles;
    message := message + DetailsHeader;
    ghost var head := message;
    for i := 0 to |rankedArticles|
      invariant message == head + Blocks(rankedArticles[..i], 1, RankLine)
    {
      BlocksGrow(head, rankedArticles, i, 1, RankLine);
      message := message + RankLine(i + 1, rankedArticles[i]);
    }
    assert rankedArticles[..|rankedArticles|] == rankedArticles;
    message := message + Closing;
  }

  /** The i-th top article's line sits between the lines of the articles before and after it. */
  lemma TopLinesInOrder(topArticles: seq<ArticleWithContent>, i: nat)
    requires i < |topArticles|
    ensures Blocks(topArticles, 1, TopLine)
         == Blocks(topArticles[..i], 1, TopLine)
            + ("- " + topArticles[i].title + " " + topArticles[i].url + "\n\n")
            + Blocks(topArticles[i + 1..], i + 2, TopLine)
  {
    BlocksAt(topArticles, i, 1, TopLine);
  }

  /** The k-th ranked entry's line, numbered by its own Rank field, sits between the lines before and after it. */
  lemma RankLinesInOrder(rankedArticles: seq<RankedArticle>, k: nat)
    requires k < |rankedArticles|
    ensures Blocks(rankedArticles, 1, RankLine)
         == Blocks(rankedArticles[..k], 1, RankLine)
            + (IntToString(rankedArticles[k].rank) + ". " + rankedArticles[k].title + " " + rankedArticles[k].url
               + " - Category: " + rankedArticles[k].category + "\n\n")
            + Blocks(rankedArticles[k + 1..], k + 2, RankLine)
  {
    BlocksAt(rankedArticles, k, 1, RankLine);
  }
}
