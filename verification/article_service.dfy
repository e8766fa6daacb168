/** service/ArticleService.go: creating articles under optimistic identifier
    allocation, validating and dispatching listings, rebuilding ordered
    results from batched reads, and resolving slugs.

    The storage engine, the random generator and slug.Make are not part of
    this model: their answers arrive as parameters (sequences of oracle
    outcomes, oracle functions, a ready-made slug prefix). */
module ArticleService {
  import opened Results
  import opened Seqs
  import opened GoInt
  import opened Strconv
  import opened Model

  const MaxTags := 5
  /** The loop gives up once a failed call was numbered MaxAttempt (from 0),
      so it makes at most MaxCalls calls. */
  const MaxAttempt := 5
  const MaxCalls := MaxAttempt + 1
  const MaxDepth := 1000
  const NotExistsCondition := "attribute_not_exists(ArticleId)"

  /** model.MaxArticleId. Its value is not part of this model; Int63n needs
      MaxArticleId - 1 to be positive, and it is an int64. */
  type IdBound = n: int | 2 <= n <= MaxInt64 witness 2

  // ---------------------------------------------------------------------
  // Creating an article

  /** The error code the AWS SDK gives a failed condition on a single-item
      write, and the only code the create loop retries on. */
  const ConditionalCheckFailedCode := "ConditionalCheckFailedException"
  /** The error code of a TransactWriteItems call that the storage engine
      cancelled; its cancellation reasons say why, one per item. */
  const TransactionCanceledCode := "TransactionCanceledException"
  /** The cancellation reason of an item whose condition failed. */
  const ConditionalCheckFailedReason := "ConditionalCheckFailed"

  /** What the storage engine answers to one TransactWriteItems call:
      success, an AWS SDK error with its code and, for a cancelled
      transaction, the cancellation reasons in item order, or an error that
      is not an AWS SDK error. */
  datatype TxOutcome =
    | Committed
    | AwsFailure(code: string, cancellationReasons: seq<string>)
    | OtherFailure

  /** One write of the creation transaction. */
  datatype TxItem =
    | PutArticleItem(article: Article, condition: string)
    | PutTagItem(link: ArticleTag)
    | AddArticleCount(tag: string, amount: int)

  /** What PutArticle does to the outside world, in order: `Submit(a)` is a
      TransactWriteItems call carrying BuildTransaction(a), `Reseed` a call
      of RenewArticleIdRand. */
  datatype Event = Submit(article: Article) | Reseed

  /** The error a failed call returns. */
  function OutcomeError(o: TxOutcome): (e: Option<Error>)
    ensures e.None? <==> o.Committed?
    ensures o.AwsFailure? ==> e == Some(AwsError(o.code))
    ensures o.OtherFailure? ==> e == Some(OtherError)
  {
    match o
    case Committed => None
    case AwsFailure(code, _) => Some(AwsError(code))
    case OtherFailure => Some(OtherError)
  }

  /** Lines 38-39 of PutArticle: the code retries exactly on an AWS SDK
      error whose code is ConditionalCheckFailedException. */
  predicate RetriedAsWritten(o: TxOutcome) {
    o.AwsFailure? && o.code == ConditionalCheckFailedCode
  }

  /** The answer to a call whose identifier was already taken. Item 0 of
      the transaction is the only one with a condition, so the storage
      engine reports the collision either as a failed condition or as a
      cancelled transaction whose first item failed its condition. */
  predicate IdCollision(o: TxOutcome) {
    && o.AwsFailure?
    && (|| o.code == ConditionalCheckFailedCode
        || (&& o.code == TransactionCanceledCode
            && |o.cancellationReasons| > 0
            && o.cancellationReasons[0] == ConditionalCheckFailedReason))
  }

  /** A cancelled transaction whose article item failed its condition is an
      identifier collision, and the code as written does not retry it. */
  lemma CanceledCollisionNotRetried()
    ensures var o := AwsFailure(TransactionCanceledCode, [ConditionalCheckFailedReason, "None", "None"]);
      IdCollision(o) && !RetriedAsWritten(o)
  {
  }

  /** Every answer the code as written retries is an identifier collision. */
  lemma RetriedAsWrittenIsCollision(o: TxOutcome)
    requires RetriedAsWritten(o)
    ensures IdCollision(o)
  {
  }

  /** Lines 48-49 of putArticleWithRandomId: `draw` is what Int63n(bound - 1)
      returned; the article gets identifier 1 + draw and the slug
      `slugPrefix-<hex id>`, and nothing else changes. */
  function WithRandomId(article: Article, slugPrefix: string, bound: IdBound, draw: int): (a: Article)
    requires 0 <= draw < bound - 1
    ensures 1 <= a.articleId < bound
    ensures a.slug == slugPrefix + "-" + FormatHex(a.articleId)
    ensures a.title == article.title && a.description == article.description && a.body == article.body
    ensures a.tagList == article.tagList && a.createdAt == article.createdAt && a.updatedAt == article.updatedAt
    ensures a.favoritesCount == article.favoritesCount && a.author == article.author
  {
    article.(articleId := 1 + draw, slug := slugPrefix + "-" + FormatHex(1 + draw))
  }

  /** The two writes per tag, in tag-list order: link the tag, then add one
      to its article count. */
  function TagItems(tags: seq<string>, articleId: int, createdAt: int): (items: seq<TxItem>)
    ensures |items| == 2 * |tags|
    ensures forall i :: 0 <= i < |tags| ==>
      && items[2 * i] == PutTagItem(ArticleTag(tags[i], articleId, createdAt))
      && items[2 * i + 1] == AddArticleCount(tags[i], 1)
  {
    if tags == [] then []
    else
      var last := tags[|tags| - 1];
      TagItems(tags[..|tags| - 1], articleId, createdAt)
        + [PutTagItem(ArticleTag(last, articleId, createdAt)), AddArticleCount(last, 1)]
  }

  /** The transaction putArticleWithRandomId submits. */
  function BuildTransaction(article: Article): (items: seq<TxItem>)
    ensures |items| == 1 + 2 * |article.tagList|
    ensures items[0] == PutArticleItem(article, NotExistsCondition)
    ensures forall i :: 0 <= i < |article.tagList| ==>
      && items[1 + 2 * i] == PutTagItem(ArticleTag(article.tagList[i], article.articleId, article.createdAt))
      && items[2 + 2 * i] == AddArticleCount(article.tagList[i], 1)
  {
    [PutArticleItem(article, NotExistsCondition)] + TagItems(article.tagList, article.articleId, article.createdAt)
  }

  /** Net change the items make to the article count of `tag`. */
  function CounterDelta(items: seq<TxItem>, tag: string): int {
    if items == [] then 0
    else
      var last := items[|items| - 1];
      CounterDelta(items[..|items| - 1], tag)
        + (if last.AddArticleCount? && last.tag == tag then last.amount else 0)
  }

  /** Number of tag links for `tag` the items write. */
  function LinkCount(items: seq<TxItem>, tag: string): nat {
    if items == [] then 0
    else
      var last := items[|items| - 1];
      LinkCount(items[..|items| - 1], tag) + (if last.PutTagItem? && last.link.tag == tag then 1 else 0)
  }

  lemma {:induction false} CountsOfConcat(a: seq<TxItem>, b: seq<TxItem>, tag: string)
    ensures CounterDelta(a + b, tag) == CounterDelta(a, tag) + CounterDelta(b, tag)
    ensures LinkCount(a + b, tag) == LinkCount(a, tag) + LinkCount(b, tag)
    decreases |b|
  {
    if b != [] {
      assert (a + b)[..|a + b| - 1] == a + b[..|b| - 1];
      CountsOfConcat(a, b[..|b| - 1], tag);
    } else {
      assert a + b == a;
    }
  }

  lemma {:induction false} TagItemsCounts(tags: seq<string>, articleId: int, createdAt: int, tag: string)
    ensures CounterDelta(TagItems(tags, articleId, createdAt), tag) == multiset(tags)[tag]
    ensures LinkCount(TagItems(tags, articleId, createdAt), tag) == multiset(tags)[tag]
  {
    if tags != [] {
      var init := tags[..|tags| - 1];
      var last := tags[|tags| - 1];
      var front := TagItems(init, articleId, createdAt);
      var pair := [PutTagItem(ArticleTag(last, articleId, createdAt)), AddArticleCount(last, 1)];
      assert TagItems(tags, articleId, createdAt) == front + pair;
      TagItemsCounts(init, articleId, createdAt, tag);
      CountsOfConcat(front, pair, tag);
      assert CounterDelta(pair, tag) == (if last == tag then 1 else 0) by {
        assert pair[..1] == [pair[0]];
        assert [pair[0]][..0] == [];
        assert CounterDelta([pair[0]], tag) == 0;
      }
      assert LinkCount(pair, tag) == (if last == tag then 1 else 0) by {
        assert pair[..1] == [pair[0]];
        assert [pair[0]][..0] == [];
        assert LinkCount([pair[0]], tag) == (if last == tag then 1 else 0);
      }
      assert multiset(tags)[tag] == multiset(init)[tag] + (if last == tag then 1 else 0) by {
        assert tags == init + [last];
      }
    }
  }

  /** The transaction raises the count of every tag by exactly the number of
      times it occurs in the tag list, and writes that many links for it:
      duplicates are not removed. */
  lemma TransactionCountsTags(article: Article, tag: string)
    ensures CounterDelta(BuildTransaction(article), tag) == multiset(article.tagList)[tag]
    ensures LinkCount(BuildTransaction(article), tag) == multiset(article.tagList)[tag]
  {
    var head := [PutArticleItem(article, NotExistsCondition)];
    TagItemsCounts(article.tagList, article.articleId, article.createdAt, tag);
    CountsOfConcat(head, TagItems(article.tagList, article.articleId, article.createdAt), tag);
    assert head[..0] == [];
  }

  /** The call putArticleWithRandomId makes when Int63n returned `draw`. */
  function Attempt(article: Article, slugPrefix: string, bound: IdBound, draw: int): Event
    requires 0 <= draw < bound - 1
  {
    Submit(WithRandomId(article, slugPrefix, bound, draw))
  }

  predicate DrawsInRange(bound: IdBound, draws: seq<int>) {
    forall i :: 0 <= i < |draws| ==> 0 <= draws[i] < bound - 1
  }

  /** The first `n` calls, each followed by a reseed of the generator. */
  function ReseededCalls(article: Article, slugPrefix: string, bound: IdBound, draws: seq<int>, n: nat): (t: seq<Event>)
    requires n <= |draws| && DrawsInRange(bound, draws)
    ensures |t| == 2 * n
  {
    if n == 0 then []
    else ReseededCalls(article, slugPrefix, bound, draws, n - 1) + [Attempt(article, slugPrefix, bound, draws[n - 1]), Reseed]
  }

  /** Call number k of the first `n` uses draw k, and a reseed follows it. */
  lemma {:induction false} ReseededCallsAlternate(article: Article, slugPrefix: string, bound: IdBound, draws: seq<int>, n: nat)
    requires n <= |draws| && DrawsInRange(bound, draws)
    ensures var t := ReseededCalls(article, slugPrefix, bound, draws, n);
      forall k :: 0 <= k < n ==>
        t[2 * k] == Attempt(article, slugPrefix, bound, draws[k]) && t[2 * k + 1] == Reseed
  {
    if n > 0 {
      var t := ReseededCalls(article, slugPrefix, bound, draws, n);
      var r := ReseededCalls(article, slugPrefix, bound, draws, n - 1);
      var e := Attempt(article, slugPrefix, bound, draws[n - 1]);
      assert t == r + [e, Reseed];
      ReseededCallsAlternate(article, slugPrefix, bound, draws, n - 1);
      forall k | 0 <= k < n
        ensures t[2 * k] == Attempt(article, slugPrefix, bound, draws[k]) && t[2 * k + 1] == Reseed
      {
        if k < n - 1 {
          assert t[2 * k] == r[2 * k] && t[2 * k + 1] == r[2 * k + 1];
        } else {
          assert t[2 * k] == e && t[2 * k + 1] == Reseed;
        }
      }
    }
  }

  /** PutArticle with putArticleWithRandomId inlined, retrying on the
      answers `retryOn` accepts. Call number i draws `draws[i]` and gets
      storage answer `outcomes[i]`. Returns the article as last submitted,
      the error, and the events in order. A call is retried only after an
      answer `retryOn` accepts, and after at most MaxCalls calls the last
      call's own error is returned. */
  method PutArticleRetrying(article: Article, slugPrefix: string, bound: IdBound, draws: seq<int>,
                            outcomes: seq<TxOutcome>, retryOn: TxOutcome -> bool)
    returns (written: Article, err: Option<Error>, trace: seq<Event>)
    requires |draws| >= MaxCalls && |outcomes| >= MaxCalls
    requires DrawsInRange(bound, draws)
    requires forall o :: retryOn(o) ==> !o.Committed?
    ensures |article.tagList| > MaxTags ==>
      && err == Some(InputError("tagList", "cannot add more than 5 tags per article"))
      && trace == []
      && written == article
    ensures |article.tagList| <= MaxTags ==>
      var last := |trace| / 2;
      && |trace| % 2 == 1
      && last < MaxCalls
      && trace == ReseededCalls(article, slugPrefix, bound, draws, last) + [Attempt(article, slugPrefix, bound, draws[last])]
      && (forall i :: 0 <= i < last ==> retryOn(outcomes[i]))
      && (last < MaxAttempt ==> !retryOn(outcomes[last]))
      && written == WithRandomId(article, slugPrefix, bound, draws[last])
      && err == OutcomeError(outcomes[last])
    ensures |article.tagList| <= MaxTags && (forall i :: 0 <= i < MaxCalls ==> retryOn(outcomes[i])) ==>
      |trace| == 2 * MaxCalls - 1 && err == OutcomeError(outcomes[MaxAttempt]) && err.Some?
    ensures err == None <==> |article.tagList| <= MaxTags && outcomes[|trace| / 2] == Committed
  {
    if |article.tagList| > MaxTags {
      return article, Some(InputError("tagList", "cannot add more than 5 tags per article")), [];
    }
    trace := [];
    var attempt := 0;
    while true
      invariant 0 <= attempt <= MaxAttempt
      invariant trace == ReseededCalls(article, slugPrefix, bound, draws, attempt)
      invariant forall i :: 0 <= i < attempt ==> retryOn(outcomes[i])
      decreases MaxAttempt - attempt
    {
      written := WithRandomId(article, slugPrefix, bound, draws[attempt]);
      trace := trace + [Submit(written)];
      assert |trace| / 2 == attempt;
      var outcome := outcomes[attempt];
      if outcome == Committed {
        return written, None, trace;
      }
      if attempt >= MaxAttempt {
        return written, OutcomeError(outcome), trace;
      }
      if !retryOn(outcome) {
        return written, OutcomeError(outcome), trace;
      }
      trace := trace + [Reseed];
      attempt := attempt + 1;
    }
  }

  /** PutArticle as written: an answer with code
      ConditionalCheckFailedException is followed by a reseed and another
      call, up to MaxCalls calls, after which that error itself is
      returned. No other answer is retried, so a collision the storage
      engine reports as a cancelled transaction ends the loop after one call
      with that error. */
  method PutArticleAsWritten(article: Article, slugPrefix: string, bound: IdBound, draws: seq<int>, outcomes: seq<TxOutcome>)
    returns (written: Article, err: Option<Error>, trace: seq<Event>)
    requires |draws| >= MaxCalls && |outcomes| >= MaxCalls
    requires DrawsInRange(bound, draws)
    ensures |article.tagList| > MaxTags ==>
      && err == Some(InputError("tagList", "cannot add more than 5 tags per article"))
      && trace == []
      && written == article
    ensures |article.tagList| <= MaxTags ==>
      var last := |trace| / 2;
      && |trace| % 2 == 1
      && last < MaxCalls
      && trace == ReseededCalls(article, slugPrefix, bound, draws, last) + [Attempt(article, slugPrefix, bound, draws[last])]
      && (forall i :: 0 <= i < last ==> outcomes[i].AwsFailure? && outcomes[i].code == ConditionalCheckFailedCode)
      && (last < MaxAttempt ==> !RetriedAsWritten(outcomes[last]))
      && written == WithRandomId(article, slugPrefix, bound, draws[last])
      && err == OutcomeError(outcomes[last])
    ensures |article.tagList| <= MaxTags && (forall i :: 0 <= i < MaxCalls ==> RetriedAsWritten(outcomes[i])) ==>
      |trace| == 2 * MaxCalls - 1 && err == Some(AwsError(ConditionalCheckFailedCode))
    ensures err == None <==> |article.tagList| <= MaxTags && outcomes[|trace| / 2] == Committed
    ensures |article.tagList| <= MaxTags && outcomes[0].AwsFailure? && outcomes[0].code == TransactionCanceledCode ==>
      |trace| == 1 && err == Some(AwsError(TransactionCanceledCode))
  {
    written, err, trace := PutArticleRetrying(article, slugPrefix, bound, draws, outcomes, RetriedAsWritten);
  }

  /** PutArticle, retrying on every identifier collision however the
      storage engine reports it. More than 5 tags gives the input error with
      no call; otherwise calls and reseeds alternate, every call before the
      last collided, and the loop stops at the first answer that is not a
      collision or after MaxCalls calls, returning that answer's error. */
  method PutArticle(article: Article, slugPrefix: string, bound: IdBound, draws: seq<int>, outcomes: seq<TxOutcome>)
    returns (written: Article, err: Option<Error>, trace: seq<Event>)
    requires |draws| >= MaxCalls && |outcomes| >= MaxCalls
    requires DrawsInRange(bound, draws)
    ensures |article.tagList| > MaxTags ==>
      && err == Some(InputError("tagList", "cannot add more than 5 tags per article"))
      && trace == []
      && written == article
    ensures |article.tagList| <= MaxTags ==>
      var last := |trace| / 2;
      && |trace| % 2 == 1
      && last < MaxCalls
      && trace == ReseededCalls(article, slugPrefix, bound, draws, last) + [Attempt(article, slugPrefix, bound, draws[last])]
      && (forall i :: 0 <= i < last ==> IdCollision(outcomes[i]))
      && (last < MaxAttempt ==> !IdCollision(outcomes[last]))
      && written == WithRandomId(article, slugPrefix, bound, draws[last])
      && err == OutcomeError(outcomes[last])
    ensures |article.tagList| <= MaxTags && (forall i :: 0 <= i < MaxCalls ==> IdCollision(outcomes[i])) ==>
      |trace| == 2 * MaxCalls - 1 && err == Some(AwsError(outcomes[MaxAttempt].code))
    ensures err == None <==> |article.tagList| <= MaxTags && outcomes[|trace| / 2] == Committed
  {
    written, err, trace := PutArticleRetrying(article, slugPrefix, bound, draws, outcomes, IdCollision);
  }

  // ---------------------------------------------------------------------
  // Listing articles

  /** The listing strategy GetArticles dispatches to. */
  datatype Filter = NoFilter | ByAuthor(author: string) | ByTag(tag: string) | ByFavorited(username: string)

  /** A validated listing request. */
  datatype Listing = Listing(filter: Filter, offset: int, limit: int)

  /** The filters whose argument is non-empty. */
  function ActiveFilters(author: string, tag: string, favorited: string): set<Filter> {
    (if author != "" then {ByAuthor(author)} else {})
      + (if tag != "" then {ByTag(tag)} else {})
      + (if favorited != "" then {ByFavorited(favorited)} else {})
  }

  /** getNumFilters. */
  function NumFilters(author: string, tag: string, favorited: string): (n: nat)
    ensures n == |ActiveFilters(author, tag, favorited)|
    ensures n <= 3
    ensures n == 0 <==> author == "" && tag == "" && favorited == ""
  {
    (if author != "" then 1 else 0) + (if tag != "" then 1 else 0) + (if favorited != "" then 1 else 0)
  }

  /** Lines 106-122 of GetArticles. `depth` is the value the code compares
      with MaxDepth in place of offset + limit. */
  function CheckPage(offset: int, limit: int, depth: int, numFilters: nat): (r: Option<Error>)
    ensures r == None <==> 0 <= offset && 0 < limit && depth <= MaxDepth && numFilters <= 1
    ensures offset < 0 ==> r == Some(InputError("offset", "must be non-negative"))
    ensures 0 <= offset && limit <= 0 ==> r == Some(InputError("limit", "must be positive"))
    ensures 0 <= offset && 0 < limit && depth > MaxDepth ==>
      r == Some(InputError("offset + limit", "must be smaller or equal to 1000"))
    ensures 0 <= offset && 0 < limit && depth <= MaxDepth && numFilters > 1 ==>
      r == Some(InputError("author, tag, favorited", "only one of these can be specified"))
  {
    if offset < 0 then Some(InputError("offset", "must be non-negative"))
    else if limit <= 0 then Some(InputError("limit", "must be positive"))
    else if depth > MaxDepth then Some(InputError("offset + limit", "must be smaller or equal to 1000"))
    else if numFilters > 1 then Some(InputError("author, tag, favorited", "only one of these can be specified"))
    else None
  }

  /** Lines 124-140 of GetArticles: no filter, else author, then tag, then
      favorited; the final "unreachable code" error is never returned. */
  function Dispatch(author: string, tag: string, favorited: string): (r: Result<Filter, Error>)
    ensures r.Ok?
    ensures r.value == NoFilter <==> ActiveFilters(author, tag, favorited) == {}
    ensures r.value != NoFilter ==> r.value in ActiveFilters(author, tag, favorited)
    ensures author != "" ==> r.value == ByAuthor(author)
    ensures author == "" && tag != "" ==> r.value == ByTag(tag)
  {
    if NumFilters(author, tag, favorited) == 0 then Ok(NoFilter)
    else if author != "" then Ok(ByAuthor(author))
    else if tag != "" then Ok(ByTag(tag))
    else if favorited != "" then Ok(ByFavorited(favorited))
    else Err(UnreachableCode)
  }

  /** The listing of a request that passed validation keeps its offset and
      limit and uses its one active filter, or none. */
  predicate ListsRequest(l: Listing, offset: int, limit: int, author: string, tag: string, favorited: string) {
    && l.offset == offset
    && l.limit == limit
    && (l.filter == NoFilter <==> ActiveFilters(author, tag, favorited) == {})
    && (l.filter != NoFilter ==> ActiveFilters(author, tag, favorited) == {l.filter})
  }

  function ToListing(f: Result<Filter, Error>, offset: int, limit: int): Result<Listing, Error> {
    match f
    case Ok(filter) => Ok(Listing(filter, offset, limit))
    case Err(e) => Err(e)
  }

  /** GetArticles up to the storage query, as written: Go's `offset + limit`
      on 64-bit ints wraps around before it is compared with MaxDepth. */
  function PlanListingAsWritten(offset: Int64, limit: Int64, author: string, tag: string, favorited: string)
    : (r: Result<Listing, Error>)
    ensures r.Ok? <==>
      0 <= offset && 0 < limit && Wrap64(offset + limit) <= MaxDepth && NumFilters(author, tag, favorited) <= 1
    ensures r.Err? ==> r.error.InputError?
    ensures r.Ok? ==> ListsRequest(r.value, offset, limit, author, tag, favorited)
  {
    match CheckPage(offset, limit, Wrap64(offset + limit), NumFilters(author, tag, favorited))
    case Some(e) => Err(e)
    case None => ToListing(Dispatch(author, tag, favorited), offset, limit)
  }

  /** The depth check of the code as written lets a page lie past MaxDepth:
      with offset MaxInt64 and limit 1 the sum wraps to MinInt64. */
  lemma DepthCheckWrapsAround()
    ensures PlanListingAsWritten(MaxInt64, 1, "", "", "") == Ok(Listing(NoFilter, MaxInt64, 1))
    ensures PlanListing(MaxInt64, 1, "", "", "").Err?
  {
  }

  /** GetArticles up to the storage query, with the depth check done on the
      true sum. A request passes exactly when its page lies within MaxDepth
      and at most one filter is set; the listing then uses the one filter
      set, or none. */
  function PlanListing(offset: Int64, limit: Int64, author: string, tag: string, favorited: string)
    : (r: Result<Listing, Error>)
    ensures r.Ok? <==>
      0 <= offset && 0 < limit && offset + limit <= MaxDepth && NumFilters(author, tag, favorited) <= 1
    ensures r.Err? ==> r.error.InputError?
    ensures r.Ok? ==> ListsRequest(r.value, offset, limit, author, tag, favorited)
  {
    match CheckPage(offset, limit, offset + limit, NumFilters(author, tag, favorited))
    case Some(e) => Err(e)
    case None => ToListing(Dispatch(author, tag, favorited), offset, limit)
  }

  // ---------------------------------------------------------------------
  // Rebuilding ordered results from a batched read

  /** The storage queries GetArticles issues, as oracles. */
  datatype Store = Store(
    queryAll: (int, int) -> Result<seq<Article>, Error>,
    queryByAuthor: (string, int, int) -> Result<seq<Article>, Error>,
    idsByTag: (string, int, int) -> Result<seq<int>, Error>,
    idsByFavorite: (string, int, int) -> Result<seq<int>, Error>,
    batchGet: (seq<int>, int) -> Result<seq<Article>, Error>)

  /** No two articles share an identifier. */
  predicate DistinctIds(articles: seq<Article>) {
    forall i, j :: 0 <= i < j < |articles| ==> articles[i].articleId != articles[j].articleId
  }

  /** ReverseIndexInt64: each identifier to a position holding it (the last
      one, when an identifier repeats). */
  function ReverseIndex(ids: seq<int>): (m: map<int, nat>)
    ensures forall id :: id in m <==> id in ids
    ensures forall id :: id in m ==> m[id] < |ids| && ids[m[id]] == id
    ensures Distinct(ids) ==> forall i :: 0 <= i < |ids| ==> ids[i] in m && m[ids[i]] == i
  {
    if ids == [] then map[]
    else ReverseIndex(ids[..|ids| - 1])[ids[|ids| - 1] := |ids| - 1]
  }

  /** The loop of lines 251-264: each fetched article overwrites the slot its
      identifier maps to; an identifier missing from the index reads Go's
      map default, slot 0. */
  function PlaceAll(slots: seq<Article>, index: map<int, nat>, fetched: seq<Article>): (r: seq<Article>)
    requires |slots| > 0
    requires forall id :: id in index ==> index[id] < |slots|
    ensures |r| == |slots|
    decreases |fetched|
  {
    if fetched == [] then slots
    else
      var a := fetched[0];
      var p := if a.articleId in index then index[a.articleId] else 0;
      PlaceAll(slots[p := a], index, fetched[1..])
  }

  /** The first fetched article with identifier `id`, if any. */
  function FindById(fetched: seq<Article>, id: int): (r: Option<Article>)
    ensures r.None? <==> forall j :: 0 <= j < |fetched| ==> fetched[j].articleId != id
    ensures r.Some? ==> r.value in fetched && r.value.articleId == id
  {
    if fetched == [] then None
    else if fetched[0].articleId == id then Some(fetched[0])
    else FindById(fetched[1..], id)
  }

  function ArticleOr(found: Option<Article>, default: Article): Article {
    match found
    case Some(a) => a
    case None => default
  }

  lemma {:induction false} PlaceAllById(slots: seq<Article>, index: map<int, nat>, fetched: seq<Article>, id: int)
    requires |slots| > 0
    requires forall k :: k in index ==> index[k] < |slots|
    requires forall k1, k2 :: k1 in index && k2 in index && k1 != k2 ==> index[k1] != index[k2]
    requires forall j :: 0 <= j < |fetched| ==> fetched[j].articleId in index
    requires DistinctIds(fetched)
    requires id in index
    ensures PlaceAll(slots, index, fetched)[index[id]] == ArticleOr(FindById(fetched, id), slots[index[id]])
    decreases |fetched|
  {
    if fetched != [] {
      var a := fetched[0];
      var rest := fetched[1..];
      var slots' := slots[index[a.articleId] := a];
      assert DistinctIds(rest) by {
        forall i, j | 0 <= i < j < |rest| ensures rest[i].articleId != rest[j].articleId {
          assert rest[i] == fetched[i + 1] && rest[j] == fetched[j + 1];
        }
      }
      PlaceAllById(slots', index, rest, id);
      if a.articleId == id {
        assert FindById(rest, id).None? by {
          forall j | 0 <= j < |rest| ensures rest[j].articleId != id {
            assert rest[j] == fetched[j + 1];
          }
        }
      }
    }
  }

  /** The output of getArticlesByArticleIds once BatchGetItems answered
      `fetched`: one slot per requested identifier, zero-valued until an
      article fills it. */
  function Reconstruct(ids: seq<int>, fetched: seq<Article>): (r: seq<Article>)
    requires ids != []
    ensures |r| == |ids|
  {
    PlaceAll(seq(|ids|, _ => ZeroArticle), ReverseIndex(ids), fetched)
  }

  /** With distinct identifiers, every fetched article sits at the position
      of its identifier, and every identifier storage did not return leaves
      the zero Article in its slot: nothing is compacted. */
  lemma ReconstructPlacesById(ids: seq<int>, fetched: seq<Article>)
    requires ids != [] && Distinct(ids)
    requires DistinctIds(fetched)
    requires forall j :: 0 <= j < |fetched| ==> fetched[j].articleId in ids
    ensures forall i :: 0 <= i < |ids| ==>
      Reconstruct(ids, fetched)[i] == ArticleOr(FindById(fetched, ids[i]), ZeroArticle)
  {
    var index := ReverseIndex(ids);
    var slots := seq(|ids|, _ => ZeroArticle);
    forall i | 0 <= i < |ids|
      ensures Reconstruct(ids, fetched)[i] == ArticleOr(FindById(fetched, ids[i]), ZeroArticle)
    {
      PlaceAllById(slots, index, fetched, ids[i]);
    }
  }

  /** getArticlesByArticleIds: no storage call for an empty list; otherwise
      one batched read whose error is passed on. */
  function GetArticlesByIds(ids: seq<int>, limit: int, batchGet: (seq<int>, int) -> Result<seq<Article>, Error>)
    : (r: Result<seq<Article>, Error>)
    ensures ids == [] ==> r == Ok([])
    ensures r.Ok? ==> |r.value| == |ids|
    ensures ids != [] ==> (r.Err? <==> batchGet(ids, limit).Err?)
    ensures ids != [] && batchGet(ids, limit).Err? ==> r == Err(batchGet(ids, limit).error)
    ensures ids != [] && batchGet(ids, limit).Ok? ==> r == Ok(Reconstruct(ids, batchGet(ids, limit).value))
  {
    if ids == [] then Ok([])
    else
      match batchGet(ids, limit)
      case Err(e) => Err(e)
      case Ok(fetched) => Ok(Reconstruct(ids, fetched))
  }

  /** The ordered articles for a list of identifiers an index query
      answered, or that query's error. */
  function ArticlesOfIds(ids: Result<seq<int>, Error>, limit: int, store: Store): Result<seq<Article>, Error> {
    match ids
    case Err(e) => Err(e)
    case Ok(ids) => GetArticlesByIds(ids, limit, store.batchGet)
  }

  /** GetArticles, with the depth check of PlanListing: validation first, so
      a rejected request yields its input error whatever storage would have
      answered; a valid request goes to the query of its one filter, or to
      the unfiltered one, and that query's answer or error is passed on. A
      tag or favorite listing has one entry per identifier its index query
      returned. */
  function GetArticles(offset: Int64, limit: Int64, author: string, tag: string, favorited: string, store: Store)
    : (r: Result<seq<Article>, Error>)
    ensures PlanListing(offset, limit, author, tag, favorited).Err? ==> r.Err? && r.error.InputError?
    ensures PlanListing(offset, limit, author, tag, favorited).Err? ==>
      r == Err(PlanListing(offset, limit, author, tag, favorited).error)
    ensures PlanListing(offset, limit, author, tag, favorited).Ok? ==>
      && (author == "" && tag == "" && favorited == "" ==> r == store.queryAll(offset, limit))
      && (author != "" ==> r == store.queryByAuthor(author, offset, limit))
      && (tag != "" ==> r == ArticlesOfIds(store.idsByTag(tag, offset, limit), limit, store))
      && (favorited != "" ==> r == ArticlesOfIds(store.idsByFavorite(favorited, offset, limit), limit, store))
    ensures tag != "" && r.Ok? && store.idsByTag(tag, offset, limit).Ok?
      ==> |r.value| == |store.idsByTag(tag, offset, limit).value|
    ensures favorited != "" && r.Ok? && store.idsByFavorite(favorited, offset, limit).Ok?
      ==> |r.value| == |store.idsByFavorite(favorited, offset, limit).value|
  {
    match PlanListing(offset, limit, author, tag, favorited)
    case Err(e) => Err(e)
    case Ok(listing) =>
      match listing.filter
      case NoFilter => store.queryAll(offset, limit)
      case ByAuthor(a) => store.queryByAuthor(a, offset, limit)
      case ByTag(t) => ArticlesOfIds(store.idsByTag(t, offset, limit), limit, store)
      case ByFavorited(u) => ArticlesOfIds(store.idsByFavorite(u, offset, limit), limit, store)
  }

  // ---------------------------------------------------------------------
  // Resolving a slug

  /** strings.LastIndexByte: the last position holding `c`, or -1. */
  function LastIndexByte(s: string, c: char): (i: int)
    ensures -1 <= i < |s|
    ensures i == -1 <==> c !in s
    ensures 0 <= i ==> s[i] == c && forall j :: i < j < |s| ==> s[j] != c
  {
    if s == [] then -1
    else if s[|s| - 1] == c then |s| - 1
    else LastIndexByte(s[..|s| - 1], c)
  }

  /** Lines 289-297 of GetArticleBySlug: the identifier a slug names, read as
      hex after its last '-'. Never negative, since that text holds no '-'. */
  function SlugId(slug: string): (r: Option<Int64>)
    ensures '-' !in slug ==> r == None
    ensures |slug| > 0 && slug[|slug| - 1] == '-' ==> r == None
    ensures r.Some? ==> 0 <= r.value
    ensures r.Some? <==> ('-' in slug &&
      var digits := Unsigned(slug[LastIndexByte(slug, '-') + 1..]);
      digits != [] && AllHexDigits(digits) && DigitsValue(digits) <= MaxInt64)
    ensures r.Some? ==> '-' in slug && r.value == DigitsValue(Unsigned(slug[LastIndexByte(slug, '-') + 1..]))
  {
    var dash := LastIndexByte(slug, '-');
    if dash == -1 then None
    else
      var suffix := slug[dash + 1..];
      assert suffix == [] || suffix[0] != '-' by {
        if suffix != [] {
          assert suffix[0] == slug[dash + 1];
        }
      }
      ParseHexInt64(suffix)
  }

  /** Slugs the lookup refuses: no '-', nothing after the last '-', a sign
      with no digits, a character that is not a hex digit. */
  lemma SlugIdRejects()
    ensures SlugId("title") == None && SlugId("t-") == None
    ensures SlugId("t-+") == None && SlugId("t-g") == None
  {
    assert LastIndexByte("t-+", '-') == 1 && "t-+"[2..] == "+" && Unsigned("+") == [];
    assert LastIndexByte("t-g", '-') == 1 && "t-g"[2..] == "g";
  }

  /** A '+' before the digits and upper-case digits are accepted, and only
      the text after the last '-' is read. */
  lemma SlugIdAccepts()
    ensures SlugId("t-+a") == Some(10) && SlugId("a-b-1F") == Some(31)
  {
    assert LastIndexByte("t-+a", '-') == 1 && "t-+a"[2..] == "+a" && Unsigned("+a") == "a";
    assert LastIndexByte("a-b-1F", '-') == 3 && "a-b-1F"[4..] == "1F" && Unsigned("1F") == "1F";
  }

  /** Any prefix, whatever slug.Make produced, followed by '-' and the hex
      form of an identifier, resolves back to that identifier. */
  lemma SlugRoundTrip(prefix: string, id: nat)
    requires id <= MaxInt64
    ensures SlugId(prefix + "-" + FormatHex(id)) == Some(id)
  {
    var hex := FormatHex(id);
    var slug := prefix + "-" + hex;
    assert slug[|prefix|] == '-';
    assert forall j :: |prefix| < j < |slug| ==> slug[j] == hex[j - |prefix| - 1];
    var dash := LastIndexByte(slug, '-');
    assert dash == |prefix|;
    assert slug[dash + 1..] == hex;
    FormatParseRoundTrip(id);
  }

  /** GetArticleBySlug: a malformed slug is an input error and reads
      nothing; otherwise the answer is the point read of its identifier. */
  function GetArticleBySlug(slug: string, getItem: Int64 -> Result<Article, Error>): (r: Result<Article, Error>)
    ensures SlugId(slug).None? ==> r == Err(InputError("slug", "invalid"))
    ensures SlugId(slug).Some? ==> r == getItem(SlugId(slug).value)
    ensures '-' !in slug ==> r == Err(InputError("slug", "invalid"))
  {
    match SlugId(slug)
    case None => Err(InputError("slug", "invalid"))
    case Some(id) => getItem(id)
  }

  /** The slug WithRandomId assigns names the identifier it assigns. */
  lemma AssignedSlugResolves(article: Article, slugPrefix: string, bound: IdBound, draw: int)
    requires 0 <= draw < bound - 1
    ensures var a := WithRandomId(article, slugPrefix, bound, draw);
      SlugId(a.slug) == Some(a.articleId)
  {
    var a := WithRandomId(article, slugPrefix, bound, draw);
    var id: nat := 1 + draw;
    var slug := slugPrefix + "-" + FormatHex(id);
    assert a.slug == slug && a.articleId == id;
    SlugRoundTrip(slugPrefix, id);
  }

  /** An article created with a drawn identifier is found again by its slug. */
  lemma CreatedArticleFoundBySlug(article: Article, slugPrefix: string, bound: IdBound, draw: int,
                                  getItem: Int64 -> Result<Article, Error>)
    requires 0 <= draw < bound - 1
    ensures GetArticleBySlug(WithRandomId(article, slugPrefix, bound, draw).slug, getItem) == getItem(1 + draw)
  {
    AssignedSlugResolves(article, slugPrefix, bound, draw);
  }
}
