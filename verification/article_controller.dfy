/** The two article records controller/ArticleController.go builds from a
    request body: the merge of an update into the stored article, and a
    freshly posted article. */
module ArticleController {
  import opened Results
  import opened Model

  /** ArticlePutRequest. An absent or null "tagList" decodes to a nil slice,
      which is `None`; an empty JSON list is `Some([])`. */
  datatype ArticlePutRequest = ArticlePutRequest(
    title: string,
    description: string,
    body: string,
    tagList: Option<seq<string>>)

  /** createNewArticle, with `now` standing for time.Now().UTC().UnixNano().
      Identity fields come from the stored article; each text field takes the
      request's value unless it is empty, and the tag list unless it is nil;
      the slug is left empty rather than recomputed. */
  function CreateNewArticle(request: ArticlePutRequest, stored: Article, now: int): (a: Article)
    ensures a.articleId == stored.articleId
    ensures a.createdAt == stored.createdAt
    ensures a.favoritesCount == stored.favoritesCount
    ensures a.author == stored.author
    ensures a.updatedAt == now
    ensures a.slug == ""
    ensures request.title != "" ==> a.title == request.title
    ensures request.title == "" ==> a.title == stored.title
    ensures request.description != "" ==> a.description == request.description
    ensures request.description == "" ==> a.description == stored.description
    ensures request.body != "" ==> a.body == request.body
    ensures request.body == "" ==> a.body == stored.body
    ensures request.tagList.Some? ==> a.tagList == request.tagList.value
    ensures request.tagList.None? ==> a.tagList == stored.tagList
  {
    var merged := Article(
      stored.articleId, "", request.title, request.description, request.body,
      (match request.tagList case Some(tags) => tags case None => []),
      stored.createdAt, now, stored.favoritesCount, stored.author);
    var merged := if merged.title == "" then merged.(title := stored.title) else merged;
    var merged := if merged.description == "" then merged.(description := stored.description) else merged;
    var merged := if merged.body == "" then merged.(body := stored.body) else merged;
    if request.tagList.None? then merged.(tagList := stored.tagList) else merged
  }

  /** A request that sets nothing changes no content: only the update time
      moves and the slug is cleared. */
  lemma EmptyRequestKeepsContent(stored: Article, now: int)
    ensures CreateNewArticle(ArticlePutRequest("", "", "", None), stored, now)
      == stored.(slug := "", updatedAt := now)
  {
  }

  /** A non-nil empty tag list clears the tags instead of keeping them. */
  lemma EmptyTagListClearsTags(request: ArticlePutRequest, stored: Article, now: int)
    requires request.tagList == Some([])
    ensures CreateNewArticle(request, stored, now).tagList == []
  {
  }

  /** Applying the same update twice is applying it once. */
  lemma MergeIdempotent(request: ArticlePutRequest, stored: Article, t1: int, t2: int)
    ensures CreateNewArticle(request, CreateNewArticle(request, stored, t1), t2) == CreateNewArticle(request, stored, t2)
  {
  }

  /** The record PostArticles hands to PutArticle, with `now` standing for
      the request time in Unix nanoseconds: no identifier or slug yet, no
      favorites, the current user as author, and the tags exactly as sent. */
  function NewArticle(request: ArticlePutRequest, username: string, now: int): (a: Article)
    ensures a.articleId == 0 && a.slug == ""
    ensures a.createdAt == now && a.updatedAt == now
    ensures a.favoritesCount == 0
    ensures a.author == username
    ensures a.title == request.title && a.description == request.description && a.body == request.body
    ensures request.tagList.Some? ==> a.tagList == request.tagList.value
    ensures request.tagList.None? ==> a.tagList == []
  {
    Article(
      0, "", request.title, request.description, request.body,
      (match request.tagList case Some(tags) => tags case None => []),
      now, now, 0, username)
  }
}
