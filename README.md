# positiveNews core, modelled in Dafny

positiveNews is a scheduled pipeline. It pulls candidate news articles from a
search API and downloads and extracts their text. It asks a language model to
rank the positive ones, picks the top ten and e-mails a digest. It can also
publish a website link and manage e-mail subscriptions. This project models
the deterministic parts of that pipeline and proves what they promise:

- **Accumulation** (`news.go`, module `News`). Up to three search pages are
  scanned for candidates. The scan deduplicates by URL and honours an
  optional recent-URL map. It drops texts under 150 words, cuts a 50-word
  excerpt and stops at 30 articles. The search API and the content extractor
  are oracle parameters.
- **Selection and digest** (`util.go`, module `Util`). The ranked entries are
  looked up by URL and capped at ten. The plain-text digest is built with
  `+=`.
- **Prompt and reply cleaning** (`ranking.go`, module `Ranking`). The input is
  truncated to 30 articles and the numbered prompt is built. The reply is
  trimmed, one code fence is stripped at each end, and the text is cut from
  the first `[` to the last `]`. The chat completion call and the JSON decoder
  are oracles.
- **Link isolation** (`email.go` and `helpers/email.go`, module `Email`). The
  message is split into lines, each line containing `http` gets an extra
  newline, and the lines are joined again. The two copies in the source are
  identical and share one model.
- **Website digest** (`helpers/email.go`, module `HelpersEmail`).
- **Unsubscribe** (`helpers/sns.go`, module `HelpersSns`). The first matching
  subscription is found, and the outcome is not found, pending or removed.
  The SNS calls are oracles.
- **Index page rewrite** (`helpers/s3.go`, module `HelpersS3`). The first
  quoted placeholder URL is replaced between a get and a put.

Module `Common` holds the records (`Article`, `ArticleWithContent`,
`RankedArticle`) and the `Option`/`Result`/`Status` wrappers that stand for
Go's `(value, error)` returns. Module `Text` gives the Go library behaviour
the core relies on: `strings.Fields`, `Split`, `Join`, `TrimSpace`,
`TrimPrefix`, `TrimSuffix`, `Index`, `LastIndex`, `Contains`,
`Replace(…, 1)` and the `%d` verb. Loops that build strings with `+=` are
specified with one generic `Blocks` function.

Three details of the code that the model keeps as written:
- The reply cleaner removes at most one leading and one trailing "```".
- The `util.go` digest marks each top article with "- ".
- `BuildPlainMessage` in `helpers/email.go` never reads its `preSignedURL`
  argument.

## Model

| member | source | states |
|---|---|---|
| Util.Resolve | util.go:8-14 | The URL map answers "absent" exactly when no valid article has the URL; otherwise it holds a valid article with that URL that no later valid article shares: the last one, as the map overwrite keeps it. |
| Util.TopArticles | util.go:17-19 | The selection never has more than 10 articles. |
| Util.SelectTopArticles | util.go:7-22 | The map-filling loop and the early-breaking selection loop return exactly `TopArticles`: the articles of the first 10 ranked entries whose URL resolves, in ranked order. |
| Util.Matched | util.go:13-16 | Defines the ordered filter: for each ranked entry in turn, the article its URL resolves to, unmatched entries skipped. |
| Util.MatchedConcat | util.go:13-16 | The filter is order-preserving: matching a concatenation of rankings concatenates the matches. |
| Util.MatchedPrefix | util.go:13-19 | Stopping early loses nothing: a prefix of the ranking matches a prefix of the full match list. |
| Util.MatchedFromValid | util.go:8-15 | Every matched article is a member of validArticles and carries the URL of some ranked entry. |
| Util.TopFromValid | util.go:8-15 | Every selected article is a member of validArticles, looked up by the URL of some ranked entry. |
| Util.UnmatchedSkipped | util.go:14 | Inserting a ranked entry that matches no valid article anywhere leaves the selection unchanged. |
| Util.LastDuplicateWins | util.go:9-11 | When two valid articles share a URL, the later one is what the URL resolves to. |
| Util.RepeatsKept | util.go:13-16 | A ranked entry listed twice anywhere in the ranking yields its article twice, each copy in its own place among the other matches: matching does not deduplicate. |
| Util.RepeatsSelected | util.go:13-19 | When both copies fall within the first 10 matches, the selection holds the article at both positions. |
| Util.BuildPlainMessage | util.go:25-36 | The message is the greeting, one "- Title URL" block per top article, the details header, one "Rank. Title URL - Category: C" block per ranked entry, and the closing. With both lists empty it is exactly greeting + header + closing. |
| Util.Digest | util.go:25-35 | Defines the digest: greeting, one `TopLine` per top article, the details header, one `RankLine` per ranked entry, closing. |
| Util.TopLinesInOrder | util.go:27-29 | The i-th top article's block sits between the blocks of the articles before and after it. |
| Util.RankLinesInOrder | util.go:31-33 | The k-th ranked entry's block uses its own Rank field and sits between the blocks before and after it. |
| News.FiftyWordExcerpt | news.go:63-69 | The excerpt is "" exactly when the text has fewer than 50 words. |
| News.ExcerptWords | news.go:68 | A non-empty excerpt has exactly 50 words: the first 50 words of the text. |
| News.ExcerptIdempotent | news.go:63-69 | Taking the excerpt of an excerpt returns it unchanged. |
| News.UrlsOfSnoc | news.go:105-110 | Appending an article adds exactly its URL to the set of held URLs, as `seen[art.URL] = true` does. |
| News.AccumulateValidArticles | news.go:72-123 | fetchNews is called on pages 1, 2, 3 in order, at most 3 times. It stops after the first failing page, after 3 pages, or once 30 articles are held. A page failure aborts with that error. Success returns the front-to-back scan `Held` of the fetched pages. The result has at most 30 articles, all URLs distinct, each admissible and not in the recent map. It holds exactly 30 when fewer than 3 pages were fetched. |
| News.Admit | news.go:84-104 | Defines the per-article filter: skipped when its URL is held or in the recent map, when the content fetch fails, when the text has fewer than 150 words or the excerpt is empty; otherwise the article with its excerpt. |
| News.AdmitExactly | news.go:84-104 | An article is taken exactly when it is new, not excluded, fetched, and at least 150 words long (the empty-excerpt test never rejects such a text); what is taken is its title, URL and 50-word excerpt. |
| News.ScanPage | news.go:83-114 | Defines one page scan: the articles in listing order, each filtered by `Admit`, stopping once 30 are held. |
| News.Held | news.go:76-122 | Defines the articles held after pages 1..k in turn; a failing page adds nothing (the method stops there). |
| News.ScanArticles | news.go:83-114 | The inner loop over one page, entered with fewer than 30 held: it returns exactly `ScanPage` of the page, and `seen` stays the set of held URLs. |
| News.ScanPageAppends | news.go:83-109 | Scanning a page only appends to what is held. What it appends is copied (title, URL) from the page's articles in listing order. |
| News.ScanPageBound | news.go:111-113 | A page scan that starts below 30 ends with at most 30. |
| News.ScanPageUnique | news.go:84-86 | A page scan never adds a URL already held, nor one twice. |
| News.ScanPageAdmits | news.go:87-104 | Every added article had content, at least 150 words, and the non-empty 50-word excerpt of that content. Its URL is not a key of the recent map. |
| News.HeldBound | news.go:78 | If every earlier stage held fewer than 30, the next stage holds at most 30. |
| News.HeldUnique | news.go:84-86 | No URL is held twice after any number of pages. |
| News.HeldAdmissible | news.go:87-109 | After any number of pages, every held article passed the content, word-count and excerpt tests and is not excluded. |
| News.HeldInListingOrder | news.go:83-109 | The held articles keep the order in which they were listed, page by page. |
| News.NilMapExcludesNothing | news.go:87-91 | A nil recent map selects the same articles as an empty one. |
| News.ScanPageNilMap | news.go:87-91 | The same for a single page scan. |
| Ranking.Used | ranking.go:15-17 | The articles sent are a prefix of the input: all of them when there are at most 30, otherwise the first 30. |
| Ranking.PromptBlock | ranking.go:30 | Defines one article's block: "n. Title: T\nURL: U\nExcerpt: E\n\n". |
| Ranking.Prompt | ranking.go:18-31 | Defines the prompt: the instruction text, then one `PromptBlock` per used article, numbered from 1. |
| Ranking.BuildPrompt | ranking.go:15-31 | Returns the truncated articles and the prompt: the fixed instructions followed by one numbered block per used article. |
| Ranking.PromptIgnoresExtra | ranking.go:15-17 | Articles past the thirtieth do not change the prompt. |
| Ranking.PromptBlockAt | ranking.go:29-31 | The i-th used article appears as block number i+1, in input order, between the blocks before and after it. |
| Ranking.PromptOfNone | ranking.go:18-31 | With no articles, the prompt is the instructions alone. |
| Ranking.Unfenced | ranking.go:49-52 | After trimming, stripping the fences and trimming again, the text neither starts nor ends with whitespace. |
| Ranking.Slice | ranking.go:53-57 | The cut is either the text itself or a text no longer than it that starts with '[' and ends with ']' (where it comes from: `Ranking.SliceCuts`). |
| Ranking.Clean | ranking.go:49-57 | The cleaned reply is either the unfenced text or a bracketed text of at least two characters. |
| Ranking.SliceCuts | ranking.go:53-56 | If a '[' occurs before a ']', the cut is exactly the text from the first '[' to the last ']', inclusive. |
| Ranking.SliceKeeps | ranking.go:55-57 | If no '[' occurs before a ']', the text is passed on unchanged. |
| Ranking.SliceBracketed | ranking.go:53-57 | A text that starts with '[' and ends with ']' is its own cut. |
| Ranking.UnfencedBracketed | ranking.go:49-52 | Trimming and fence stripping leave a text that starts with '[' and ends with ']' unchanged. |
| Ranking.TrimSpaceOfTrimmed | ranking.go:49 | A text whose ends are not whitespace is unchanged by TrimSpace. |
| Ranking.CleanIdempotent | ranking.go:49-57 | In the sliced case, the cleaned text starts with '[' and ends with ']', and cleaning it again leaves it unchanged. |
| Ranking.TrimSpaceAround | ranking.go:49 | TrimSpace removes exactly the whitespace around a text whose ends are not whitespace. |
| Ranking.UnfencedStripsFence | ranking.go:49-52 | Any body wrapped in one fence, with whitespace around, comes out as the body trimmed of its own surrounding whitespace (the newlines after "```" and before the closing "```" included). |
| Ranking.UnfencedStripsFenceOfTrimmed | ranking.go:49-52 | A fenced body whose ends are not whitespace comes out exactly as the body. |
| Ranking.FencedIsTrimmed | ranking.go:52 | A fenced text has no whitespace at its ends, so TrimSpace leaves it alone. |
| Ranking.CleanFencedJson | ranking.go:49-57 | The usual reply "```json\n[1]\n```" is cleaned to "[1]": the fences go, the tag "json" is cut off by the slice. |
| Ranking.TaggedBodyTrimmed | ranking.go:52 | The second TrimSpace removes the newline left before the closing fence. |
| Ranking.TaggedBodySliced | ranking.go:53-57 | The slice drops a language tag in front of the array. |
| Ranking.SliceAfterTag | ranking.go:53-57 | Any text ending in a bracketed part, with no '[' before it, is cut to exactly that part. |
| Ranking.UnfencedStripsOnce | ranking.go:50-51 | Only one fence is removed at each end: any doubly fenced body keeps its inner fences. |
| Ranking.ParseError | ranking.go:62 | The decoding error message ends with the cleaned text. |
| Ranking.RankArticles | ranking.go:14-65 | Sends model "gpt-4", the fixed system message and the prompt. An API error is returned as is. Otherwise the first choice is cleaned and decoded. A decoding error gives "failed to parse JSON ranking: …\nRaw output: <cleaned>". |
| Email.Isolated | email.go:22-26 | One output line per input line, in order. A line containing "http" gets exactly one '\n' appended; every other line is unchanged. |
| Email.IsolateLine | email.go:23-25 | Defines one line's rewrite: "\n" appended when the line contains "http". |
| Email.LinkIsolated | email.go:21-27 | Defines the published message: split on "\n", each line rewritten, joined with "\n". |
| Email.IsolateLinks | email.go:21-27 | The in-place array rewrite followed by the join equals splitting on '\n', rewriting each line and joining with '\n'. |
| Email.IsolatedJoinLength | email.go:22-27 | Joining the rewritten lines gives one more character per line that contains "http". |
| Email.LinkIsolatedLength | email.go:21-27 | The output length is the input length plus the number of lines that contain "http". |
| Email.IsolatedWithoutLinks | email.go:22-26 | Lines without "http" are left as they are. |
| Email.LinkIsolatedIdentity | email.go:21-27 | A message none of whose lines contains "http" is sent unchanged. |
| Email.JoinedLineEndsBlank | email.go:27 | In a join with '\n', a part ending in '\n' that is not the last is followed by a second '\n'. |
| Email.LinkLineFollowedByBlank | email.go:23-27 | An "http" line that is not the message's last line appears in the output at its line position followed by two '\n'. |
| Email.LinkLineGrows | helpers/email.go:38-44 | A message with a whole line containing "http" strictly grows when rewritten. |
| HelpersEmail.WebsiteMessage | helpers/email.go:17-26 | Defines the website digest: the three fixed lines, one numbered entry per article, the closing. |
| HelpersEmail.BuildPlainMessage | helpers/email.go:16-29 | The message is the three fixed header lines, one "i. Title\nURL\n\n" entry per article numbered from 1, and the closing. It does not depend on the pre-signed URL. With no articles it is exactly the header lines plus the closing. |
| HelpersEmail.MessageFrame | helpers/email.go:17-26 | The message begins with "Hello,\n\n", the intro line and the website line, and ends with "\nHave a wonderful day!\n". |
| HelpersEmail.EntryAt | helpers/email.go:22-24 | The i-th article is entry number i+1, in input order. |
| HelpersEmail.WebsiteLineIsolated | helpers/email.go:20-44 | The website line contains "http", so sending the message always inserts at least one newline. |
| HelpersSns.FirstMatch | helpers/sns.go:57-63 | Returns the position of the first subscription whose endpoint is present and equal to the e-mail, or -1 when there is none. |
| HelpersSns.ChosenArn | helpers/sns.go:57-63 | Defines the ARN the search settles on: the first match's, or "" when nothing matches. |
| HelpersSns.UnsubscribeUser | helpers/sns.go:41-84 | A config or listing failure returns ("", wrapped error) and makes no Unsubscribe call. An empty chosen ARN gives the not-found message, and "PendingConfirmation" gives the pending message; neither is an error and neither calls Unsubscribe. Otherwise Unsubscribe is called exactly once with the chosen ARN: failure gives ("", "failed to unsubscribe …"), success gives "Successfully unsubscribed <email>". |
| HelpersSns.FirstMatchAfter | helpers/sns.go:58-63 | Non-matching subscriptions in front shift the first match by their number. |
| HelpersSns.NonMatchesSkipped | helpers/sns.go:58-63 | Non-matching subscriptions in front do not change the chosen ARN. |
| HelpersSns.LaterIgnored | helpers/sns.go:58-62 | Once the e-mail has a subscription, later listed subscriptions are never considered. |
| HelpersSns.EmptyArnHidesLater | helpers/sns.go:57-68 | A first match with an empty ARN means "not found", even when a later match has a real ARN. |
| HelpersS3.UpdatedIndex | helpers/s3.go:93 | Without the placeholder the page is unchanged. Otherwise the result is the text before its first occurrence, then the quoted URL, then the text after that occurrence. |
| HelpersS3.UpdateIndexHTML | helpers/s3.go:69-110 | A get or read failure returns its wrapped error and uploads nothing. Otherwise exactly the updated page is uploaded once, and a put failure returns "failed to upload updated index.html: …". |
| HelpersS3.UrlInserted | helpers/s3.go:93 | The quoted pre-signed URL stands where the first placeholder stood. |
| HelpersS3.LaterPlaceholderKept | helpers/s3.go:93 | Only the first occurrence is replaced: a later placeholder survives, shifted by the change in length. |
| HelpersS3.SurroundingsKept | helpers/s3.go:93 | The text before and after the replaced placeholder is carried over, and the length changes by the difference in length. |
| Text.Fields | news.go:64 | Every field is a non-empty run of non-whitespace characters. |
| Text.FieldsSkipsSpace | news.go:64 | A leading whitespace character is skipped; with `Text.FieldsAfterWord` this fixes the fields of any text. |
| Text.FieldsAfterWord | news.go:64 | A word followed by nothing or by whitespace is the first field. |
| Text.FieldsOfJoin | news.go:68 | Words joined with single spaces split back into the same words. |
| Text.Split | email.go:21 | Splitting gives at least one piece, and no piece contains the separator. |
| Text.JoinSplit | email.go:21-27 | Joining the pieces of a split with the separator gives back the string. |
| Text.SplitAtSep | email.go:21 | Splitting at a separator splits the pieces on either side. |
| Text.SplitWithoutSep | email.go:21 | A string without the separator is one piece. |
| Text.JoinLineAt | email.go:27 | The i-th part sits at its line start in the join and, unless it is the last, is followed by the separator. |
| Text.Join | email.go:27 | Defines `strings.Join`: the parts with the separator between neighbours; `Text.JoinSplit` is its round trip with `Split`. |
| Text.TrimPrefix | ranking.go:50 | When the text starts with the prefix, prefix + result is the text; otherwise the text is returned as is. |
| Text.TrimSuffix | ranking.go:51 | When the text ends with the suffix, result + suffix is the text; otherwise the text is returned as is. |
| Text.ReplaceFirst | helpers/s3.go:93 | Defines `strings.Replace(s, pat, repl, 1)`: the first occurrence replaced, or the text unchanged; `HelpersS3.UpdatedIndex` states it. |
| Text.IntToString | util.go:32 | Defines the `%d` rendering: a "-" for negatives, then the decimal digits; `Text.IntToStringValue` reads it back. |
| Text.TrimSpace | ranking.go:49 | The result neither starts nor ends with whitespace. |
| Text.IndexOfChar | ranking.go:53 | -1 exactly when the character is absent; otherwise the first position holding it. |
| Text.LastIndexOfChar | ranking.go:54 | -1 exactly when the character is absent; otherwise the last position holding it. |
| Text.Index | helpers/s3.go:93 | -1 when the pattern does not occur; otherwise the first position where it occurs. |
| Text.NatToStringValue | util.go:32 | The %d rendering of a natural number reads back as that number. |
| Text.IntToStringValue | ranking.go:30 | The %d rendering of any integer, sign included, reads back as that integer, so block numbers are rendered faithfully. |
| Text.BlocksConcat | util.go:27-33 | A `+=` loop over a concatenation produces the blocks of the first part, then those of the second numbered on. |

## Left out

- Network and SDK calls are not modelled: NewsAPI, HTTP download and readability extraction, the OpenAI client, and every S3, SNS, DynamoDB and Secrets Manager client. Each is an oracle parameter where the core calls it.
- JSON decoding and encoding are not modelled. The ranking decoder is an oracle that may fail.
- The clock, date formatting and the two-second sleep between pages are not modelled; they do not change any result.
- `main.go` orchestration, `helpers/dynamo.go`, `helpers/secrets.go`, `SubscribeUser`, `SendEmail`, `NewSNSClient`, `UploadJSONToS3` and `GeneratePreSignedURL` are not modelled: they are thin SDK wrappers. A failed recent-URL lookup leaving the map nil is covered by `News.NilMapExcludesNothing`.
- The publish step of both e-mail senders and their configuration-load error are not modelled; only the link-isolation rewrite between them is.
- Logging (`fmt.Println`/`Printf`) is not modelled.
- Pagination of the subscription list is not followed by the source, so one listed page is modelled.
- The language model's ranking and what the prompt wording means are external behaviour.
- Strings are sequences of Unicode code points, whereas Go strings are UTF-8 bytes: every index, position, length and shift stated here (`Text.Index`, `Text.IndexOfChar`, `Text.LastIndexOfChar`, `HelpersS3.UrlInserted`, `HelpersS3.LaterPlaceholderKept`, `HelpersS3.SurroundingsKept`, the length lemmas of `Email`) counts code points where Go counts bytes. The text cut between '[' and ']', the fields, the replaced span and the joined and split lines are the same either way. Byte strings that are not valid UTF-8, such as an arbitrary fetched index.html body, are not modelled.
- `Text.IsSpace` lists the Unicode White_Space characters that Go's `unicode.IsSpace` accepts. It is not derived from Unicode tables.
- News.AccumulateValidArticles: the content oracle is a function of the URL. A URL that failed or was rejected, and appears again on a later page, is fetched again and gets the same answer.
- Ranking.RankArticles: a reply with no choices makes the source panic at `resp.Choices[0]`. The model returns `Failure(NoChoices)` instead.
- Ranking.RankArticles: the cleaned reply is computed with the pure `Clean` function rather than statement by statement; `Clean` follows the same four calls and the same slice.
- HelpersSns.UnsubscribeUser: a listed subscription with a nil ARN pointer would panic in the source. The model's ARN is always a string.
- HelpersS3.UpdateIndexHTML: the discarded configuration-load error and the object's content type are not modelled.
