/**
 * The records shared by the pipeline (common.go and its copy helpers/common.go),
 * and the small wrappers used in place of Go's (value, error) returns.
 */
module Common {

  datatype Option<+T> = None | Some(value: T)

  /** A Go `(T, error)` return: either the value or the error's message. */
  datatype Result<+T> = Success(value: T) | Failure(error: string)

  /** A Go call that returns only an `error`. */
  datatype Status = Ok | Failed(error: string)

  /** An article as listed by the news search API (`Article`). */
  datatype Article = Article(title: string, description: string, url: string)

  /** A candidate kept by the accumulator (`ArticleWithContent`). */
  datatype ArticleWithContent = ArticleWithContent(title: string, url: string, excerpt: string)

  /** One entry of the language model's ranking (`RankedArticle`). */
  datatype RankedArticle = RankedArticle(rank: int, title: string, url: string, category: string)
}
