/**
 * news.go: the fifty-word excerpt and the accumulation of candidate articles
 * over at most three pages of search results.
 *
 * The news search API (fetchNews) and the download-and-extract step
 * (fetchArticleContent) are oracles: a page number yields a page of articles
 * or an error, and a URL yields the extracted text or an error.
 */
module News {
  import opened Common
  import opened Text

  /** maxAttempts: pages fetched at most. */
  const MaxAttempts := 3
  /** The number of accepted articles at which accumulation stops. */
  const TargetCount := 30
  /** Articles whose extracted text has fewer words are dropped. */
  const MinWords := 150
  /** The number of words in an excerpt. */
  const ExcerptLength := 50

  /** The network as news.go sees it. */
  datatype NewsApi = NewsApi(
    fetchNews: int -> Result<seq<Article>>,
    fetchArticleContent: string -> Result<string>)

  // ---------------------------------------------------------------------------
  // getFiftyWordExcerpt

  /** getFiftyWordExcerpt: the first fifty words joined by single spaces, or "" when there are fewer. */
  function FiftyWordExcerpt(text: string): (excerpt: string)
    ensures excerpt == "" <==> |Fields(text)| < ExcerptLength
  {
    var words := Fields(text);
    if |words| < ExcerptLength then "" else Join(words[..ExcerptLength], " ")
  }

  /** A non-empty excerpt consists of exactly the first fifty words of the text. */
  lemma ExcerptWords(text: string)
    requires |Fields(text)| >= ExcerptLength
    ensures Fields(FiftyWordExcerpt(text)) == Fields(text)[..ExcerptLength]
    ensures |Fields(FiftyWordExcerpt(text))| == ExcerptLength
  {
    FieldsOfJoin(Fields(text)[..ExcerptLength]);
  }

  /** Taking the excerpt of an excerpt changes nothing. */
  lemma ExcerptIdempotent(text: string)
    ensures FiftyWordExcerpt(FiftyWordExcerpt(text)) == FiftyWordExcerpt(text)
  {
    if |Fields(text)| >= ExcerptLength {
      ExcerptWords(text);
      var words := Fields(FiftyWordExcerpt(text));
      assert words[..ExcerptLength] == words;
    }
  }

  // ---------------------------------------------------------------------------
  // The specification of accumulateValidArticles

  /** The URLs of the articles held so far: the keys of the `seen` map. */
  function UrlsOf(held: seq<ArticleWithContent>): set<string>
  {
    set a | a in held :: a.url
  }

  lemma UrlsOfSnoc(held: seq<ArticleWithContent>, a: ArticleWithContent)
    ensures UrlsOf(held + [a]) == UrlsOf(held) + {a.url}
  {
    assert forall b :: b in held + [a] <==> b in held || b == a;
  }

  /** The article is excluded by the recent-URL map (a nil map excludes nothing). */
  predicate Excluded(url: string, recentMap: Option<map<string, bool>>)
  {
    recentMap.Some? && url in recentMap.value
  }

  /** What one article of a page contributes: the candidate built from it, or None when it is skipped. */
  function Admit(art: Article, held: seq<ArticleWithContent>, api: NewsApi,
                 recentMap: Option<map<string, bool>>): Option<ArticleWithContent>
  {
    if art.url in UrlsOf(held) || Excluded(art.url, recentMap) then None
    else
      match api.fetchArticleContent(art.url)
      case Failure(_) => None
      case Success(content) =>
        if |Fields(content)| < MinWords then None
        else
          var excerpt := FiftyWordExcerpt(content);
          if excerpt == "" then None else Some(ArticleWithContent(art.title, art.url, excerpt))
  }

  /**
   * An article is taken exactly when it is new, not excluded, and its content was fetched and has
   * at least MinWords words: the empty-excerpt test that follows never rejects such a text.
   */
  lemma AdmitExactly(art: Article, held: seq<ArticleWithContent>, api: NewsApi,
                     recentMap: Option<map<string, bool>>)
    ensures var r := Admit(art, held, api, recentMap);
            var content := api.fetchArticleContent(art.url);
            && (r.Some? <==> && art.url !in UrlsOf(held) && !Excluded(art.url, recentMap)
                             && content.Success? && |Fields(content.value)| >= MinWords)
            && (r.Some? ==> r.value == ArticleWithContent(art.title, art.url, FiftyWordExcerpt(content.value)))
  {
  }

  /** The articles held after scanning one page, starting from held; the scan stops once TargetCount are held. */
  function ScanPage(articles: seq<Article>, held: seq<ArticleWithContent>, api: NewsApi,
                    recentMap: Option<map<string, bool>>): seq<ArticleWithContent>
    decreases |articles|
  {
    if articles == [] then held
    else
      match Admit(articles[0], held, api, recentMap)
      case None => ScanPage(articles[1..], held, api, recentMap)
      case Some(a) =>
        if |held + [a]| >= TargetCount then held + [a]
        else ScanPage(articles[1..], held + [a], api, recentMap)
  }

  /** The articles held after pages 1..k have been scanned in turn. */
  function Held(k: nat, api: NewsApi, recentMap: Option<map<string, bool>>): seq<ArticleWithContent>
  {
    if k == 0 then []
    else
      var before := Held(k - 1, api, recentMap);
      match api.fetchNews(k)
      case Failure(_) => before
      case Success(articles) => ScanPage(articles, before, api, recentMap)
  }

  /** The articles of pages 1..k, in the order they were listed. */
  function Listed(k: nat, api: NewsApi): seq<Article>
  {
    if k == 0 then []
    else
      match api.fetchNews(k)
      case Failure(_) => Listed(k - 1, api)
      case Success(articles) => Listed(k - 1, api) + articles
  }

  // ---------------------------------------------------------------------------
  // accumulateValidArticles

  /**
   * accumulateValidArticles. `requested` lists the page numbers passed to fetchNews, in call order.
   * The number of pages fetched is pinned down: every page but the last was fetched while fewer than
   * TargetCount articles were held, and the run stops after the last one because it failed, because
   * TargetCount articles are held, or because MaxAttempts pages were fetched.
   */
  method AccumulateValidArticles(api: NewsApi, recentMap: Option<map<string, bool>>)
    returns (result: Result<seq<ArticleWithContent>>, requested: seq<int>)
    ensures 1 <= |requested| <= MaxAttempts
    ensures forall p :: 0 <= p < |requested| ==> requested[p] == p + 1
    ensures forall j :: 0 <= j < |requested| ==> |Held(j, api, recentMap)| < TargetCount
    ensures forall p :: 1 <= p < |requested| ==> api.fetchNews(p).Success?
    ensures result.Failure? <==> api.fetchNews(|requested|).Failure?
    ensures result.Failure? ==> result.error == api.fetchNews(|requested|).error
    ensures result.Success? ==> result.value == Held(|requested|, api, recentMap)
    ensures result.Success? && |requested| < MaxAttempts ==> |result.value| == TargetCount
    ensures result.Success? ==> |result.value| <= TargetCount && UniqueUrls(result.value)
    ensures result.Success? ==> forall a :: a in result.value ==> Admissible(a, api) && !Excluded(a.url, recentMap)
  {
    var validArticles: seq<ArticleWithContent> := [];
    var seen: set<string> := {};
    var attempts := 0;
    var page := 1;
    requested := [];
    while |validArticles| < TargetCount && attempts < MaxAttempts
      decreases MaxAttempts - attempts
      invariant 0 <= attempts <= MaxAttempts && page == attempts + 1
      invariant |requested| == attempts
      invariant forall p :: 0 <= p < attempts ==> requested[p] == p + 1
      invariant forall p :: 1 <= p <= attempts ==> api.fetchNews(p).Success?
      invariant forall j :: 0 <= j < attempts ==> |Held(j, api, recentMap)| < TargetCount
      invariant validArticles == Held(attempts, api, recentMap)
      invariant seen == UrlsOf(validArticles)
    {
      requested := requested + [page];
      var fetched := api.fetchNews(page);
      if fetched.Failure? {
        return Failure(fetched.error), requested;
      }
      validArticles, seen := ScanArticles(fetched.value, validArticles, seen, api, recentMap);
      attempts := attempts + 1;
      page := page + 1;
    }
    result := Success(validArticles);
    HeldBound(attempts, api, recentMap);
    HeldUnique(attempts, api, recentMap);
    HeldAdmissible(attempts, api, recentMap);
  }

  /** The inner loop of accumulateValidArticles over one page, with `seen` kept as the set of held URLs. */
  method ScanArticles(articles: seq<Article>, held: seq<ArticleWithContent>, heldUrls: set<string>,
                      api: NewsApi, recentMap: Option<map<string, bool>>)
    returns (validArticles: seq<ArticleWithContent>, seen: set<string>)
    requires heldUrls == UrlsOf(held) && |held| < TargetCount
    ensures validArticles == ScanPage(articles, held, api, recentMap)
    ensures seen == UrlsOf(validArticles)
  {
    validArticles, seen := held, heldUrls;
    for i := 0 to |articles|
      invariant seen == UrlsOf(validArticles)
      invariant |validArticles| < TargetCount
      invariant ScanPage(articles, held, api, recentMap) == ScanPage(articles[i..], validArticles, api, recentMap)
    {
      assert articles[i..][0] == articles[i] && articles[i..][1..] == articles[i + 1..];
      var art := articles[i];
      if art.url in seen {
        continue;
      }
      if recentMap.Some? && art.url in recentMap.value {
        continue;
      }
      var content := api.fetchArticleContent(art.url);
      if content.Failure? {
        continue;
      }
      var words := Fields(content.value);
      if |words| < MinWords {
        continue;
      }
      var excerpt := FiftyWordExcerpt(content.value);
      if excerpt == "" {
        continue;
      }
      UrlsOfSnoc(validArticles, ArticleWithContent(art.title, art.url, excerpt));
      validArticles := validArticles + [ArticleWithContent(art.title, art.url, excerpt)];
      seen := seen + {art.url};
      if |validArticles| >= TargetCount {
        return;
      }
    }
  }

  // ---------------------------------------------------------------------------
  // What accumulation promises

  /** No URL occurs twice. */
  ghost predicate UniqueUrls(xs: seq<ArticleWithContent>)
  {
    forall i, j :: 0 <= i < j < |xs| ==> xs[i].url != xs[j].url
  }

  /** The candidate's text was fetched, had at least MinWords words, and its excerpt is that text's non-empty excerpt. */
  ghost predicate Admissible(a: ArticleWithContent, api: NewsApi)
  {
    var content := api.fetchArticleContent(a.url);
    && content.Success?
    && |Fields(content.value)| >= MinWords
    && a.excerpt == FiftyWordExcerpt(content.value)
    && a.excerpt != ""
  }

  /** The candidate copies the title and URL of the listed article. */
  predicate CopiedFrom(a: ArticleWithContent, art: Article)
  {
    a.title == art.title && a.url == art.url
  }

  /** The candidates were copied from listed articles, in listing order, each article used at most once. */
  ghost predicate InListingOrder(xs: seq<ArticleWithContent>, listed: seq<Article>)
    decreases |listed|
  {
    if xs == [] then true
    else if listed == [] then false
    else (CopiedFrom(xs[0], listed[0]) && InListingOrder(xs[1..], listed[1..])) || InListingOrder(xs, listed[1..])
  }

  /** Articles listed before the matched ones do not disturb the order. */
  lemma {:induction false} InListingOrderAfter(xs: seq<ArticleWithContent>, pre: seq<Article>, listed: seq<Article>)
    requires InListingOrder(xs, listed)
    ensures InListingOrder(xs, pre + listed)
    decreases |pre|
  {
    if pre != [] {
      InListingOrderAfter(xs, pre[1..], listed);
      assert (pre + listed)[1..] == pre[1..] + listed;
      assert xs != [] ==> InListingOrder(xs, (pre + listed)[1..]);
    } else {
      assert pre + listed == listed;
    }
  }

  /** Orders of two consecutive stretches combine. */
  lemma {:induction false} InListingOrderConcat(xs: seq<ArticleWithContent>, ys: seq<ArticleWithContent>,
                                                l1: seq<Article>, l2: seq<Article>)
    requires InListingOrder(xs, l1) && InListingOrder(ys, l2)
    ensures InListingOrder(xs + ys, l1 + l2)
    decreases |l1|
  {
    if xs == [] {
      assert xs + ys == ys;
      InListingOrderAfter(ys, l1, l2);
    } else {
      assert (l1 + l2)[1..] == l1[1..] + l2;
      if CopiedFrom(xs[0], l1[0]) && InListingOrder(xs[1..], l1[1..]) {
        InListingOrderConcat(xs[1..], ys, l1[1..], l2);
        assert (xs + ys)[1..] == xs[1..] + ys;
      } else {
        InListingOrderConcat(xs, ys, l1[1..], l2);
      }
    }
  }

  /** Scanning a page only appends, and what it appends was copied from the page's articles in order. */
  lemma {:induction false} ScanPageAppends(articles: seq<Article>, held: seq<ArticleWithContent>, api: NewsApi,
                                           recentMap: Option<map<string, bool>>)
    ensures var r := ScanPage(articles, held, api, recentMap);
      |held| <= |r| && r[..|held|] == held && InListingOrder(r[|held|..], articles)
    decreases |articles|
  {
    var r := ScanPage(articles, held, api, recentMap);
    if articles != [] {
      match Admit(articles[0], held, api, recentMap)
      case None =>
        ScanPageAppends(articles[1..], held, api, recentMap);
      case Some(a) =>
        var held' := held + [a];
        if |held'| < TargetCount {
          ScanPageAppends(articles[1..], held', api, recentMap);
          assert r[|held|..][1..] == r[|held'|..];
        } else {
          assert r[|held|..] == [a];
          assert InListingOrder(r[|held|..][1..], articles[1..]);
        }
    }
  }

  /** A scan that starts below TargetCount ends with at most TargetCount. */
  lemma {:induction false} ScanPageBound(articles: seq<Article>, held: seq<ArticleWithContent>, api: NewsApi,
                                         recentMap: Option<map<string, bool>>)
    requires |held| < TargetCount
    ensures |ScanPage(articles, held, api, recentMap)| <= TargetCount
    decreases |articles|
  {
    if articles != [] {
      match Admit(articles[0], held, api, recentMap)
      case None =>
        ScanPageBound(articles[1..], held, api, recentMap);
      case Some(a) =>
        if |held + [a]| < TargetCount {
          ScanPageBound(articles[1..], held + [a], api, recentMap);
        }
    }
  }

  /** A scan never adds a URL that is already held, nor one twice. */
  lemma {:induction false} ScanPageUnique(articles: seq<Article>, held: seq<ArticleWithContent>, api: NewsApi,
                                          recentMap: Option<map<string, bool>>)
    requires UniqueUrls(held)
    ensures UniqueUrls(ScanPage(articles, held, api, recentMap))
    decreases |articles|
  {
    if articles != [] {
      match Admit(articles[0], held, api, recentMap)
      case None =>
        ScanPageUnique(articles[1..], held, api, recentMap);
      case Some(a) =>
        assert a.url !in UrlsOf(held);
        var held' := held + [a];
        assert UniqueUrls(held') by {
          forall i | 0 <= i < |held|
            ensures held'[i].url != a.url
          {
            assert held[i] in held;
          }
        }
        if |held'| < TargetCount {
          ScanPageUnique(articles[1..], held', api, recentMap);
        }
    }
  }

  /** Every article a scan adds passed the word-count and excerpt tests and is not excluded. */
  lemma {:induction false} ScanPageAdmits(articles: seq<Article>, held: seq<ArticleWithContent>, api: NewsApi,
                                          recentMap: Option<map<string, bool>>)
    requires forall a :: a in held ==> Admissible(a, api) && !Excluded(a.url, recentMap)
    ensures forall a :: a in ScanPage(articles, held, api, recentMap) ==> Admissible(a, api) && !Excluded(a.url, recentMap)
    decreases |articles|
  {
    if articles != [] {
      match Admit(articles[0], held, api, recentMap)
      case None =>
        ScanPageAdmits(articles[1..], held, api, recentMap);
      case Some(a) =>
        if |held + [a]| < TargetCount {
          ScanPageAdmits(articles[1..], held + [a], api, recentMap);
        }
    }
  }

  /** Accumulation never holds more than TargetCount articles when every earlier page was scanned below it. */
  lemma HeldBound(k: nat, api: NewsApi, recentMap: Option<map<string, bool>>)
    requires forall j :: 0 <= j < k ==> |Held(j, api, recentMap)| < TargetCount
    ensures |Held(k, api, recentMap)| <= TargetCount
  {
    if k > 0 {
      var before := Held(k - 1, api, recentMap);
      match api.fetchNews(k)
      case Failure(_) =>
      case Success(articles) =>
        ScanPageBound(articles, before, api, recentMap);
    }
  }

  /** No URL is held twice. */
  lemma {:induction false} HeldUnique(k: nat, api: NewsApi, recentMap: Option<map<string, bool>>)
    ensures UniqueUrls(Held(k, api, recentMap))
  {
    if k > 0 {
      HeldUnique(k - 1, api, recentMap);
      match api.fetchNews(k)
      case Failure(_) =>
      case Success(articles) =>
        ScanPageUnique(articles, Held(k - 1, api, recentMap), api, recentMap);
    }
  }

  /** Every held article passed the tests, and none is a key of the recent-URL map. */
  lemma {:induction false} HeldAdmissible(k: nat, api: NewsApi, recentMap: Option<map<string, bool>>)
    ensures forall a :: a in Held(k, api, recentMap) ==> Admissible(a, api) && !Excluded(a.url, recentMap)
  {
    if k > 0 {
      HeldAdmissible(k - 1, api, recentMap);
      match api.fetchNews(k)
      case Failure(_) =>
      case Success(articles) =>
        ScanPageAdmits(articles, Held(k - 1, api, recentMap), api, recentMap);
    }
  }

  /** The held articles keep the order in which they were listed, page by page. */
  lemma {:induction false} HeldInListingOrder(k: nat, api: NewsApi, recentMap: Option<map<string, bool>>)
    ensures InListingOrder(Held(k, api, recentMap), Listed(k, api))
  {
    if k > 0 {
      HeldInListingOrder(k - 1, api, recentMap);
      var before := Held(k - 1, api, recentMap);
      match api.fetchNews(k)
      case Failure(_) =>
      case Success(articles) =>
        var r := ScanPage(articles, before, api, recentMap);
        ScanPageAppends(articles, before, api, recentMap);
        InListingOrderConcat(before, r[|before|..], Listed(k - 1, api), articles);
        assert r == before + r[|before|..];
    }
  }

  /** A nil recent-URL map and an empty one select the same articles. */
  lemma {:induction false} NilMapExcludesNothing(k: nat, api: NewsApi)
    ensures Held(k, api, None) == Held(k, api, Some(map[]))
  {
    if k > 0 {
      NilMapExcludesNothing(k - 1, api);
      match api.fetchNews(k)
      case Failure(_) =>
      case Success(articles) =>
        ScanPageNilMap(articles, Held(k - 1, api, None), api);
    }
  }

  lemma {:induction false} ScanPageNilMap(articles: seq<Article>, held: seq<ArticleWithContent>, api: NewsApi)
    ensures ScanPage(articles, held, api, None) == ScanPage(articles, held, api, Some(map[]))
    decreases |articles|
  {
    if articles != [] {
      assert Admit(articles[0], held, api, None) == Admit(articles[0], held, api, Some(map[]));
      match Admit(articles[0], held, api, None)
      case None =>
        ScanPageNilMap(articles[1..], held, api);
      case Some(a) =>
        ScanPageNilMap(articles[1..], held + [a], api);
    }
  }
}
