/** The records the article core reads and writes. */
module Model {

  /** model.Article. Timestamps are Unix nanoseconds; `tagList` does not
      distinguish a nil slice from an empty one: no reader inside this core
      does, although the JSON encoding of a response writes nil as null. */
  datatype Article = Article(
    articleId: int,
    slug: string,
    title: string,
    description: string,
    body: string,
    tagList: seq<string>,
    createdAt: int,
    updatedAt: int,
    favoritesCount: int,
    author: string)

  /** Go's zero value `model.Article{}`. */
  const ZeroArticle := Article(0, "", "", "", "", [], 0, 0, 0, "")

  /** model.ArticleTag: the row linking one tag to one article. */
  datatype ArticleTag = ArticleTag(tag: string, articleId: int, createdAt: int)

  /** The errors the core returns. `AwsError(code)` is an error of the AWS
      SDK, identified by its code; `OtherError` stands for every other
      storage or transport error. */
  datatype Error =
    | InputError(field: string, message: string)
    | AwsError(code: string)
    | OtherError
    | UnreachableCode
}
