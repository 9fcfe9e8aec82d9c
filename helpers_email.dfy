/**
 * helpers/email.go: the plain-text top-ten message that links to the
 * website. Its sending step applies the link-isolation rewrite of module
 * Email (the same code as email.go's).
 */
module HelpersEmail {
  import opened Common
  import opened Text
  import opened Email

  const Hello := "Hello,\n\n"
  const IntroText := "Here are your top 10 positively ranked articles for today:"
  const Intro := IntroText + "\n\n"
  /** The website line without its newlines, written in pieces so that the verifier sees its characters. */
  const WebsiteText := "Check out the latest " + "positive news articles " + "on our website \U{1F31F}: " + Link + "://bit.ly/3CNTB7C"
  /** The fixed line with the website's short link. */
  const WebsiteLine := WebsiteText + "\n\n"
  const Farewell := "\nHave a wonderful day!\n"

  /** One listed article: "n. Title", the URL, and a blank line. */
  function ListEntry(n: int, art: ArticleWithContent): string
  {
    IntToString(n) + ". " + art.title + "\n" + art.url + "\n\n"
  }

  /** The message: the three fixed header lines, one entry per article numbered from 1, the closing. */
  function WebsiteMessage(topArticles: seq<ArticleWithContent>): string
  {
    Hello + Intro + WebsiteLine + Blocks(topArticles, 1, ListEntry) + Farewell
  }

  /**
   * BuildPlainMessage: the message grown with `+=`. The pre-signed URL is
   * accepted and never read, so the result depends on the articles alone.
   */
  method BuildPlainMessage(topArticles: seq<ArticleWithContent>, preSignedURL: string) returns (plainMessage: string)
    ensures plainMessage == WebsiteMessage(topArticles)
    ensures topArticles == [] ==> plainMessage == Hello + Intro + WebsiteLine + Farewell
  {
    plainMessage := Hello;
    plainMessage := plainMessage + Intro;
    plainMessage := plainMessage + WebsiteLine;
    ghost var head := plainMessage;
    for i := 0 to |topArticles|
      invariant plainMessage == head + Blocks(topArticles[..i], 1, ListEntry)
    {
      BlocksGrow(head, topArticles, i, 1, ListEntry);
      plainMessage := plainMessage + ListEntry(i + 1, topArticles[i]);
    }
    assert topArticles[..|topArticles|] == topArticles;
    plainMessage := plainMessage + Farewell;
  }

  /** The message opens with the fixed header lines and ends with the closing line. */
  lemma MessageFrame(topArticles: seq<ArticleWithContent>)
    ensures var m := WebsiteMessage(topArticles);
            && Hello + Intro + WebsiteLine <= m
            && HasSuffix(m, Farewell)
  {
    var m := WebsiteMessage(topArticles);
    var header := Hello + Intro + WebsiteLine;
    var rest := Blocks(topArticles, 1, ListEntry) + Farewell;
    assert m == header + rest;
    assert m[..|header|] == header;
    assert m[|m| - |Farewell|..] == Farewell;
  }

  /** The i-th article is listed as entry number i + 1, between the entries before and after it. */
  lemma EntryAt(topArticles: seq<ArticleWithContent>, i: nat)
    requires i < |topArticles|
    ensures Blocks(topArticles, 1, ListEntry)
         == Blocks(topArticles[..i], 1, ListEntry)
            + (IntToString(i + 1) + ". " + topArticles[i].title + "\n" + topArticles[i].url + "\n\n")
            + Blocks(topArticles[i + 1..], i + 2, ListEntry)
  {
    BlocksAt(topArticles, i, 1, ListEntry);
  }

  /** The website line contains "http", so publishing the message always inserts at least one newline. */
  lemma WebsiteLineIsolated(topArticles: seq<ArticleWithContent>)
    ensures |LinkIsolated(WebsiteMessage(topArticles))| > |WebsiteMessage(topArticles)|
  {
    var pre := Hello + IntroText + "\n";
    var post := "\n" + Blocks(topArticles, 1, ListEntry) + Farewell;
    Regroup(Hello, IntroText, WebsiteText, Blocks(topArticles, 1, ListEntry), Farewell);
    assert OccursAt(WebsiteText, Link, 62);
    LinkLineGrows(pre, WebsiteText, post);
  }

  /** The message regrouped around the website line. */
  lemma Regroup(hello: string, intro: string, website: string, entries: string, farewell: string)
    ensures hello + (intro + "\n\n") + (website + "\n\n") + entries + farewell
         == (hello + intro + "\n") + "\n" + website + "\n" + ("\n" + entries + farewell)
  {
    assert "\n\n" == "\n" + "\n";
  }
}
