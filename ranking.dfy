/**
 * ranking.go: the prompt sent to the language model for up to thirty
 * articles, and the cleaning of the model's reply before it is decoded.
 *
 * The chat completion call and the JSON decoder are oracles: a request
 * yields the contents of the reply's choices or an error, and a text yields
 * the decoded ranking or a decoding error.
 */
module Ranking {
  import opened Common
  import opened Text

  /** Articles beyond this many are not sent. */
  const MaxPrompted := 30

  /** The fixed instruction text that opens every prompt. */
  const Instructions :=
    "Below are up to 30 articles with their title, URL, and a short excerpt (first 50 words of the article body). " +
    "Please analyze them and rank the articles from most positive to least positive, ensuring that the reader feels optimistic about the world. " +
    "Important: Only include an article if it is clearly positive. If fewer than 10 articles are clearly positive, return only those; do not add negative articles just to fill a top 10 list.\n\n" +
    "Follow these instructions exactly:\n\n" +
    "1. Exclude any articles that are about shopping, commerce, or product sales.\n" +
    "2. If there are many articles focused on self growth, self improvement, or positive thinking (self-help topics), include no more than 3 of those.\n" +
    "3. For each article, assign a suitable category from the following: business, entertainment, general, health, science, sports, technology, finance, world, arts, lifestyle.\n" +
    "4. Ensure that the final output includes only articles that are clearly positive. If fewer than 10 articles are clearly positive, return only those.\n" +
    "5. Return only a JSON array (with as many elements as are clearly positive) without any additional text. " +
    "Each JSON object must have the following fields: `rank` (an integer from 1 to N), `title`, `url`, and `category`.\n\n" +
    "Return only the JSON without any additional text.\n\nArticles:\n"

  const ModelName := "gpt-4"
  const SystemPrompt := "You are an expert sentiment analyst who curates news to inspire global positivity."

  /** A chat completion request: the model, the system message and the user message. */
  datatype ChatRequest = ChatRequest(model: string, system: string, user: string)

  // ---------------------------------------------------------------------------
  // Prompt assembly

  /** The articles that are sent: the first MaxPrompted of them. */
  function Used(articles: seq<ArticleWithContent>): (used: seq<ArticleWithContent>)
    ensures used <= articles
    ensures |used| == if |articles| <= MaxPrompted then |articles| else MaxPrompted
  {
    if |articles| > MaxPrompted then articles[..MaxPrompted] else articles
  }

  /** One article in the prompt: "n. Title: T", "URL: U", "Excerpt: E" and a blank line. */
  function PromptBlock(n: int, art: ArticleWithContent): string
  {
    IntToString(n) + ". Title: " + art.title + "\nURL: " + art.url + "\nExcerpt: " + art.excerpt + "\n\n"
  }

  /** The prompt: the instructions, then one block per used article, numbered from 1. */
  function Prompt(articles: seq<ArticleWithContent>): string
  {
    Instructions + Blocks(Used(articles), 1, PromptBlock)
  }

  /** The truncation and the `+=` loop that builds the prompt. */
  method BuildPrompt(articles: seq<ArticleWithContent>) returns (used: seq<ArticleWithContent>, prompt: string)
    ensures used <= articles && |used| <= MaxPrompted
    ensures |articles| > MaxPrompted ==> |used| == MaxPrompted
    ensures |articles| <= MaxPrompted ==> used == articles
    ensures prompt == Prompt(articles)
  {
    used := articles;
    if |used| > MaxPrompted {
      used := used[..MaxPrompted];
    }
    prompt := Instructions;
    ghost var head := prompt;
    for i := 0 to |used|
      invariant prompt == head + Blocks(used[..i], 1, PromptBlock)
    {
      BlocksGrow(head, used, i, 1, PromptBlock);
      prompt := prompt + PromptBlock(i + 1, used[i]);
    }
    assert used[..|used|] == used;
  }

  /** Articles past the thirtieth do not change the prompt. */
  lemma PromptIgnoresExtra(articles: seq<ArticleWithContent>, extra: seq<ArticleWithContent>)
    requires |articles| >= MaxPrompted
    ensures Prompt(articles + extra) == Prompt(articles)
  {
    assert (articles + extra)[..MaxPrompted] == articles[..MaxPrompted];
    if |articles| == MaxPrompted {
      assert articles[..MaxPrompted] == articles;
    }
    assert Used(articles + extra) == Used(articles);
  }

  /** The i-th used article appears as block number i + 1, between the blocks before and after it. */
  lemma PromptBlockAt(articles: seq<ArticleWithContent>, i: nat)
    requires i < |articles| && i < MaxPrompted
    ensures var used := Used(articles);
            Blocks(used, 1, PromptBlock)
            == Blocks(used[..i], 1, PromptBlock) + PromptBlock(i + 1, articles[i]) + Blocks(used[i + 1..], i + 2, PromptBlock)
  {
    var used := Used(articles);
    assert used[i] == articles[i];
    BlocksAt(used, i, 1, PromptBlock);
  }

  /** With no articles the prompt is the instructions alone. */
  lemma PromptOfNone()
    ensures Prompt([]) == Instructions
  {
    assert Blocks([], 1, PromptBlock) == "";
  }

  // ---------------------------------------------------------------------------
  // Cleaning the reply

  /** The Markdown code fence that may wrap the reply. */
  const Fence := "```"

  /** Trim whitespace, drop one leading and one trailing fence, trim again. */
  function Unfenced(text: string): (t: string)
    ensures t == [] || (!IsSpace(t[0]) && !IsSpace(t[|t| - 1]))
  {
    TrimSpace(TrimSuffix(TrimPrefix(TrimSpace(text), Fence), Fence))
  }

  /** The cut from the first '[' to the last ']' when that ']' comes after that '['; otherwise the text itself. */
  function Slice(t: string): (r: string)
    ensures r == t || (|r| >= 2 && r[0] == '[' && r[|r| - 1] == ']' && |r| <= |t|)
  {
    var start := IndexOfChar(t, '[');
    var end := LastIndexOfChar(t, ']');
    if start >= 0 && end >= 0 && end > start then t[start..end + 1] else t
  }

  /** The reply as decoded: the unfenced text, cut to its brackets. */
  function Clean(text: string): (r: string)
    ensures r == Unfenced(text) || (|r| >= 2 && r[0] == '[' && r[|r| - 1] == ']')
  {
    Slice(Unfenced(text))
  }

  /** t holds a '[' with a ']' somewhere after it. */
  predicate HasBracketPair(t: string)
  {
    exists i, j :: 0 <= i < j < |t| && t[i] == '[' && t[j] == ']'
  }

  /** With a '[' before a ']', the cut is exactly the text from the first '[' to the last ']'. */
  lemma SliceCuts(t: string)
    requires HasBracketPair(t)
    ensures exists s, e :: 0 <= s < e < |t|
                        && t[s] == '[' && (forall k :: 0 <= k < s ==> t[k] != '[')
                        && t[e] == ']' && (forall k :: e < k < |t| ==> t[k] != ']')
                        && Slice(t) == t[s..e + 1]
  {
    var i, j :| 0 <= i < j < |t| && t[i] == '[' && t[j] == ']';
    var s := IndexOfChar(t, '[');
    var e := LastIndexOfChar(t, ']');
  }

  /** Without a '[' before a ']', the text is passed on unchanged. */
  lemma SliceKeeps(t: string)
    requires !HasBracketPair(t)
    ensures Slice(t) == t
  {
    var s := IndexOfChar(t, '[');
    var e := LastIndexOfChar(t, ']');
  }

  /** A text that starts with '[' and ends with ']' is its own cut. */
  lemma SliceBracketed(r: string)
    requires |r| >= 2 && r[0] == '[' && r[|r| - 1] == ']'
    ensures Slice(r) == r
  {
    var s := IndexOfChar(r, '[');
    var e := LastIndexOfChar(r, ']');
    assert r[0..|r|] == r;
  }

  /** Unfencing a text that starts with '[' and ends with ']' changes nothing. */
  lemma UnfencedBracketed(r: string)
    requires |r| >= 2 && r[0] == '[' && r[|r| - 1] == ']'
    ensures Unfenced(r) == r
  {
    TrimSpaceOfTrimmed(r);
    assert r[0] != Fence[0];
    assert r[|r| - 1] != Fence[|Fence| - 1];
  }

  /** A text whose ends are not whitespace is its own TrimSpace. */
  lemma TrimSpaceOfTrimmed(s: string)
    requires s != [] && !IsSpace(s[0]) && !IsSpace(s[|s| - 1])
    ensures TrimSpace(s) == s
  {
    assert LeadingSpaces(s) == 0;
    assert s[0..] == s;
    assert TrailingSpaces(s) == 0;
  }

  /** With a '[' before a ']', cleaning yields the bracketed cut, and cleaning that again changes nothing. */
  lemma CleanIdempotent(text: string)
    requires HasBracketPair(Unfenced(text))
    ensures var r := Clean(text); |r| >= 2 && r[0] == '[' && r[|r| - 1] == ']'
    ensures Clean(Clean(text)) == Clean(text)
  {
    SliceCuts(Unfenced(text));
    var r := Clean(text);
    UnfencedBracketed(r);
    SliceBracketed(r);
  }

  /** A text wrapped in one fence, with whitespace around, loses the fence and the whitespace; the body is then trimmed. */
  lemma UnfencedStripsFence(pre: string, body: string, post: string)
    requires forall i :: 0 <= i < |pre| ==> IsSpace(pre[i])
    requires forall i :: 0 <= i < |post| ==> IsSpace(post[i])
    ensures Unfenced(pre + Fence + body + Fence + post) == TrimSpace(body)
  {
    var fenced := Fence + body + Fence;
    assert fenced[0] == '`' && fenced[|fenced| - 1] == '`';
    TrimSpaceAround(pre, fenced, post);
    assert pre + Fence + body + Fence + post == pre + fenced + post;
    assert Fence <= fenced;
    assert fenced[|Fence|..] == body + Fence;
    assert HasSuffix(body + Fence, Fence);
    assert (body + Fence)[..|body|] == body;
  }

  /** A fenced body without whitespace at its ends comes out exactly as the body. */
  lemma UnfencedStripsFenceOfTrimmed(pre: string, body: string, post: string)
    requires forall i :: 0 <= i < |pre| ==> IsSpace(pre[i])
    requires forall i :: 0 <= i < |post| ==> IsSpace(post[i])
    requires body != [] && !IsSpace(body[0]) && !IsSpace(body[|body| - 1])
    ensures Unfenced(pre + Fence + body + Fence + post) == body
  {
    UnfencedStripsFence(pre, body, post);
    TrimSpaceOfTrimmed(body);
  }

  /** Only one fence is removed at each end: a doubly fenced text keeps its inner fences. */
  lemma UnfencedStripsOnce(body: string)
    ensures Unfenced(Fence + Fence + body + Fence + Fence) == Fence + body + Fence
  {
    var inner := Fence + body + Fence;
    FencedIsTrimmed(body);
    UnfencedStripsFence([], inner, []);
    assert [] + Fence + inner + Fence + [] == Fence + Fence + body + Fence + Fence;
  }

  /** A fenced text has no whitespace at its ends. */
  lemma FencedIsTrimmed(body: string)
    ensures TrimSpace(Fence + body + Fence) == Fence + body + Fence
  {
    var inner := Fence + body + Fence;
    assert inner[0] == '`' && inner[|inner| - 1] == '`';
    TrimSpaceOfTrimmed(inner);
  }

  /** The usual reply shape: a fence with a language tag, the JSON array on its own line, a closing fence. */
  lemma CleanFencedJson()
    ensures Clean("```json\n[1]\n```") == "[1]"
  {
    var body := "json\n[1]\n";
    var t := "json\n[1]";
    assert "```json\n[1]\n```" == [] + Fence + body + Fence + [];
    UnfencedStripsFence([], body, []);
    TaggedBodyTrimmed();
    TaggedBodySliced();
  }

  lemma TaggedBodyTrimmed()
    ensures TrimSpace("json\n[1]\n") == "json\n[1]"
  {
    var x := "json\n[1]";
    assert "json\n[1]\n" == [] + x + "\n";
    assert x[0] == 'j' && x[|x| - 1] == ']';
    TrimSpaceAround([], x, "\n");
  }

  lemma TaggedBodySliced()
    ensures Slice("json\n[1]") == "[1]"
  {
    assert "json\n[1]" == "json\n" + "[" + "1" + "]";
    SliceAfterTag("json\n", "1");
  }

  /** A text ending in a bracketed part, with no '[' in front of it, is cut to that part. */
  lemma SliceAfterTag(tag: string, inner: string)
    requires '[' !in tag
    ensures Slice(tag + "[" + inner + "]") == "[" + inner + "]"
  {
    var t := tag + "[" + inner + "]";
    var s := IndexOfChar(t, '[');
    var e := LastIndexOfChar(t, ']');
    assert forall k :: 0 <= k < |tag| ==> t[k] == tag[k];
    assert t[|tag|] == '[';
    assert s == |tag|;
    assert t[|t| - 1] == ']';
    assert e == |t| - 1;
    assert t[s..e + 1] == "[" + inner + "]";
  }

  /** TrimSpace removes exactly the whitespace around a text whose ends are not whitespace. */
  lemma TrimSpaceAround(pre: string, x: string, post: string)
    requires forall i :: 0 <= i < |pre| ==> IsSpace(pre[i])
    requires forall i :: 0 <= i < |post| ==> IsSpace(post[i])
    requires x != [] && !IsSpace(x[0]) && !IsSpace(x[|x| - 1])
    ensures TrimSpace(pre + x + post) == x
  {
    var s := pre + x + post;
    var n := LeadingSpaces(s);
    assert s[|pre|] == x[0];
    assert forall k :: 0 <= k < |pre| ==> s[k] == pre[k];
    assert n == |pre|;
    var t := s[n..];
    assert t == x + post;
    var m := TrailingSpaces(t);
    assert t[|x| - 1] == x[|x| - 1];
    assert forall k :: 0 <= k < |post| ==> t[|x| + k] == post[k];
    assert m == |post|;
    assert t[..|t| - m] == x;
  }

  // ---------------------------------------------------------------------------
  // rankArticlesWithChatGPT

  /** The error reported when the reply cannot be decoded; it shows the cleaned text. */
  function ParseError(decodeError: string, cleaned: string): (msg: string)
    ensures HasSuffix(msg, cleaned)
  {
    "failed to parse JSON ranking: " + decodeError + "\nRaw output: " + cleaned
  }

  /** The failure standing in for the run-time panic on a reply without choices. */
  const NoChoices := "chat completion returned no choices"

  /**
   * rankArticlesWithChatGPT: build the prompt, send it, clean the first
   * choice's content and decode it. `complete` gives the contents of the
   * reply's choices; `decode` is the JSON decoder.
   */
  method RankArticles(
    articles: seq<ArticleWithContent>,
    complete: ChatRequest -> Result<seq<string>>,
    decode: string -> Result<seq<RankedArticle>>)
    returns (result: Result<seq<RankedArticle>>, request: ChatRequest)
    ensures request == ChatRequest(ModelName, SystemPrompt, Prompt(articles))
    ensures complete(request).Failure? ==> result == Failure(complete(request).error)
    ensures complete(request).Success? && complete(request).value == [] ==> result == Failure(NoChoices)
    ensures complete(request).Success? && complete(request).value != [] ==>
              var cleaned := Clean(complete(request).value[0]);
              && (decode(cleaned).Success? ==> result == decode(cleaned))
              && (decode(cleaned).Failure? ==> result == Failure(ParseError(decode(cleaned).error, cleaned)))
  {
    var used, prompt := BuildPrompt(articles);
    request := ChatRequest(ModelName, SystemPrompt, prompt);
    var resp := complete(request);
    if resp.Failure? {
      return Failure(resp.error), request;
    }
    if resp.value == [] {
      return Failure(NoChoices), request;
    }
    var resultText := Clean(resp.value[0]);
    var ranked := decode(resultText);
    if ranked.Failure? {
      return Failure(ParseError(ranked.error, resultText)), request;
    }
    return ranked, request;
  }
}
