# Article core of a RealWorld blogging backend, in Dafny

This project models the article core of a Go backend for the RealWorld
blogging application (articles, tags, favorites) that stores its data in
DynamoDB. It covers three parts:

- **Creating an article** (`PutArticle`). An article with more than five tags is
  refused. Otherwise a random identifier is drawn and the slug
  `slug.Make(title) + "-" + hex(id)` is formed. The article row, one tag link
  per tag and one `+1` counter update per tag go out in a single conditional
  transaction. The write is retried with a fresh generator only when the
  storage error has the code `ConditionalCheckFailedException`.
- **Listing articles** (`GetArticles`). The paging bounds and the filters are
  validated in a fixed order. The request is then dispatched to the unfiltered,
  by-author, by-tag or by-favorite listing. The tag and favorite listings
  rebuild ordered results from one batched read.
- **Resolving a slug** (`GetArticleBySlug`). This is the inverse of the slug
  construction: the hex text after the last `-` is the identifier.

Two pure helpers from the controller and utility layers are also modelled: the
merge that turns an update request into the new article record, and the small
string-set library.

Modules, one per concern:

- `Results`: `Option` and `Result`.
- `Seqs`: `Distinct`.
- `GoInt`: the `int64` range and Go's wrap-around addition.
- `Strconv`: `FormatInt(n, 16)` and `ParseInt(s, 16, 64)`.
- `Model`: `Article`, `ArticleTag` and the error kinds.
- `StringSet`: `util/StringSet.go`.
- `ArticleService`: `service/ArticleService.go`.
- `ArticleController`: the record-building parts of
  `controller/ArticleController.go`.

What the program gets from outside enters the model as parameters:

- The random generator: `draws[i]` is what `Int63n(MaxArticleId - 1)` returned
  for call `i`. `RenewArticleIdRand` shows up as a `Reseed` event.
- The storage engine: `outcomes[i]` is the answer to the i-th
  `TransactWriteItems` call. It is `Committed`, or `AwsFailure(code,
  cancellationReasons)` for an AWS SDK error with its error code and the
  per-item cancellation reasons, or `OtherFailure` for an error that is not
  an AWS SDK error. The read paths take oracle functions: `Store`, `getItem`
  and `batchGet`.
- `slug.Make`: the caller passes the slug prefix it produced.
- The clock: `now` is a parameter.
- `model.MaxArticleId` is not part of this model. It is the parameter
  `bound: IdBound`, any int64 of at least 2.

Three behaviours of the code that a reader might not expect. The model keeps
all three as the code has them:

- The create loop checks `attempt >= maxAttempt` only after a failed call. It
  therefore makes up to **six** calls, and when all six collide it returns the
  last collision error itself. There is no separate conflict error.
- `getArticlesByArticleIds` does not compact. An identifier that the batched
  read did not return leaves Go's zero `Article` in its slot, and the result
  always has one entry per requested identifier.
- `createNewArticle` leaves `Slug` empty. It does not recompute it from a new
  title.

Two more behaviours look unintended; they are listed under "## Findings".
Each is modelled twice: once as written and once corrected. The rest of the
model uses the corrected member.

- The depth check `offset+limit > maxDepth` wraps around on 64-bit ints.
  `PlanListingAsWritten` has it as written. `PlanListing`, which
  `GetArticles` uses, checks the true sum.
- The create loop retries only on the error code
  `ConditionalCheckFailedException`. A transaction whose condition fails is
  reported as a cancelled transaction, with code
  `TransactionCanceledException` and the reason `ConditionalCheckFailed` for
  the article item. `PutArticleAsWritten` keeps the code's test.
  `PutArticle` retries on every identifier collision (`IdCollision`). Both
  run the same loop, `PutArticleRetrying`.

## Model

| member | source | states |
|---|---|---|
| GoInt.Wrap64 | service/ArticleService.go:115 | Go's `offset+limit` on 64-bit ints is the int64 congruent to the true sum modulo 2^64, and equals the sum when that fits |
| Strconv.FormatHex | service/ArticleService.go:49 | `FormatInt(n, 16)` writes only lower-case hex digits, at least one, with a leading '0' exactly when n is zero |
| Strconv.FormatHexRoundTrip | service/ArticleService.go:49 | the digits FormatInt writes denote the number written |
| Strconv.ParseHexInt64 | service/ArticleService.go:294 | `ParseInt(s, 16, 64)` succeeds exactly when s, without one leading '+' or '-', is a non-empty run of hex digits of either case whose value fits in an int64 with that sign; the result is that value, negated after a '-'. A bare sign, empty text and a non-hex character after the optional sign are refused |
| Strconv.ParseHexInt64Examples | service/ArticleService.go:294 | "+", "-", "g1" and "x1" are refused; "-1" reads as -1 and "+A" as 10 |
| Strconv.FormatParseRoundTrip | service/ArticleService.go:294 | parsing what FormatInt wrote gives back every non-negative int64 |
| StringSet.FromSlice | util/StringSet.go:11-17 | the set holds v exactly when v occurs in the slice, so it is no larger than the slice |
| StringSet.Difference | util/StringSet.go:19-27 | the result is exactly the members of s missing from other: a subset of s, all of s when other is empty, empty when other is s |
| StringSet.ToSlice | util/StringSet.go:29-35 | the slice lists every member once and nothing else, so its length is the set's size |
| StringSet.EnumerationLength | util/StringSet.go:29-35 | any duplicate-free listing of exactly a set's members is as long as the set is large |
| StringSet.SliceRoundTrip | util/StringSet.go:11-35 | slice to set to slice gives no duplicates, the same elements as the input slice, the same set again, and no more entries than the input |
| ArticleService.WithRandomId | service/ArticleService.go:47-49 | the assigned identifier lies in [1, MaxArticleId), the slug is prefix + "-" + hex(id), and every other field is unchanged |
| ArticleService.AssignedSlugResolves | service/ArticleService.go:48-49 | the slug assigned at creation parses back to the identifier assigned with it |
| ArticleService.TagItems | service/ArticleService.go:67-96 | two writes per tag in list order: tag i is linked at position 2i with (tag, id, createdAt) and counted at 2i+1 with ADD 1 |
| ArticleService.BuildTransaction | service/ArticleService.go:56-96 | the transaction has 1 + 2·len(tags) items: the article put guarded by attribute_not_exists(ArticleId), then for tag i a link put at 1+2i and a +1 update at 2+2i |
| ArticleService.TransactionCountsTags | service/ArticleService.go:67-96 | the transaction raises each tag's counter by, and writes as many links as, the tag's number of occurrences in the tag list: duplicates are not removed |
| ArticleService.ReseededCallsAlternate | service/ArticleService.go:27-44 | in the trace of n retried calls, call k uses draw k and is followed by exactly one reseed |
| ArticleService.OutcomeError | service/ArticleService.go:30-42 | a call fails exactly when storage did not commit, and it fails with storage's own error: the AWS error code, or the non-AWS error |
| ArticleService.CanceledCollisionNotRetried | service/ArticleService.go:38-39 | a transaction cancelled because the article item failed its condition is an identifier collision, but its code `TransactionCanceledException` is not the one the code retries on |
| ArticleService.RetriedAsWrittenIsCollision | service/ArticleService.go:38-39 | every answer the code retries on is an identifier collision, so the corrected retry test only adds cases |
| ArticleService.PutArticleRetrying | service/ArticleService.go:17-45 | more than 5 tags gives the "tagList" input error with no call and no draw. Otherwise calls and reseeds alternate, call k uses draw k, and every call before the last got an answer the retry test accepts. The loop stops at the first answer it refuses or after 6 calls. The error is the last call's own: none on commit, the last retried error after 6 retried answers |
| ArticleService.PutArticleAsWritten | service/ArticleService.go:17-45 | as written: more than 5 tags gives the "tagList" input error with no call. Otherwise calls and reseeds alternate, call k uses draw k, and every call before the last failed with code ConditionalCheckFailedException. An earlier last call got an answer without that code. The error is the last call's own: none exactly on commit, ConditionalCheckFailedException after 6 such answers. A first answer with code TransactionCanceledException ends the loop after one call with that error |
| ArticleService.PutArticle | service/ArticleService.go:17-45 | corrected retry test: the shape of PutArticleRetrying, with every call before the last an identifier collision and the last one not a collision unless it is the 6th. After 6 collisions the last collision's AWS error is returned. It succeeds exactly when the last call committed |
| ArticleService.NumFilters | service/ArticleService.go:143-155 | the count equals the number of distinct active filters, is at most 3, and is zero exactly when all three arguments are empty |
| ArticleService.CheckPage | service/ArticleService.go:106-122 | validation passes exactly when offset >= 0, limit > 0, depth <= 1000 and at most one filter is set; otherwise it fails in the order offset, limit, depth, filters, each with its own field and message |
| ArticleService.Dispatch | service/ArticleService.go:124-140 | the "unreachable code" error is never returned; no filter is chosen exactly when none is active; otherwise the chosen one is active, author first, then tag |
| ArticleService.PlanListingAsWritten | service/ArticleService.go:105-140 | the code as written: a request is accepted exactly when offset >= 0, limit > 0, the wrapped 64-bit sum offset+limit <= 1000 and at most one filter is set; every rejection is an input error; the accepted listing keeps offset and limit and uses the single active filter, or none |
| ArticleService.DepthCheckWrapsAround | service/ArticleService.go:114-117 | offset MaxInt64 with limit 1 passes the depth check as written, but the page lies beyond 1000 and the corrected check rejects it |
| ArticleService.PlanListing | service/ArticleService.go:105-140 | a request is accepted exactly when offset >= 0, limit > 0, offset+limit <= 1000 and at most one filter is set; every rejection is an input error; the accepted listing keeps offset and limit and uses the single active filter, or none |
| ArticleService.GetArticles | service/ArticleService.go:105-141 | with the corrected depth check, a rejected request yields exactly its validation error whatever storage would answer. A valid request returns the unfiltered query's answer when no filter is set and the author query's answer for an author. For a tag or a favoriting user, it is the index query's error or the batched reconstruction of its identifiers. A tag or favorite listing has one entry per identifier the index returned |
| ArticleService.ReverseIndex | service/ArticleService.go:249 | the map's keys are exactly the listed identifiers, each mapped to a position that holds it; with distinct identifiers, to its own position |
| ArticleService.PlaceAll | service/ArticleService.go:251-264 | placing fetched articles never changes the number of slots |
| ArticleService.Reconstruct | service/ArticleService.go:248-264 | the rebuilt list has one slot per requested identifier |
| ArticleService.ReconstructPlacesById | service/ArticleService.go:248-264 | with distinct identifiers, slot i holds the fetched article whose identifier is ids[i], or the zero Article when none was fetched: nothing is compacted |
| ArticleService.GetArticlesByIds | service/ArticleService.go:225-266 | an empty list gives an empty result with no read. Otherwise the call fails exactly when the batched read fails, with the read's own error. A success is the batched answer placed into one slot per requested identifier by `Reconstruct` |
| ArticleService.LastIndexByte | service/ArticleService.go:289 | the result is -1 exactly when the character is absent; otherwise it is a position holding it with no later occurrence |
| ArticleService.SlugId | service/ArticleService.go:289-297 | a slug names an identifier exactly when it has a '-' and the text after the last '-', without a leading '+', is a non-empty run of hex digits whose value fits in an int64; the identifier is that value, so it is never negative |
| ArticleService.SlugIdRejects | service/ArticleService.go:289-297 | "title" (no '-'), "t-" (nothing after it), "t-+" (a bare sign) and "t-g" (not hex) name no identifier |
| ArticleService.SlugIdAccepts | service/ArticleService.go:289-297 | "t-+a" names 10 and "a-b-1F" names 31: a '+' and upper-case digits are read, and only the text after the last '-' counts |
| ArticleService.SlugRoundTrip | service/ArticleService.go:289-297 | any prefix followed by '-' and the hex form of an identifier resolves to that identifier |
| ArticleService.GetArticleBySlug | service/ArticleService.go:288-306 | a malformed slug gives the "slug" / "invalid" input error; otherwise the answer is the point read of the identifier it names |
| ArticleService.CreatedArticleFoundBySlug | service/ArticleService.go:288-306 | the slug given at creation looks up the identifier given at creation |
| ArticleController.CreateNewArticle | controller/ArticleController.go:270-300 | identifier, creation time, favorites count and author come from the stored article; title, description and body take the request value unless empty; tags take the request list unless it is nil; the update time is now; the slug is empty |
| ArticleController.EmptyRequestKeepsContent | controller/ArticleController.go:283-297 | a request with every field empty or nil keeps the stored title, description, body and tags |
| ArticleController.EmptyTagListClearsTags | controller/ArticleController.go:295-297 | a non-nil empty tag list replaces the stored tags |
| ArticleController.MergeIdempotent | controller/ArticleController.go:270-300 | applying the same update twice gives the same record as applying it once |
| ArticleController.NewArticle | controller/ArticleController.go:318-326 | a posted article has equal creation and update times, the current user as author, no favorites, no identifier or slug yet, and the tag list exactly as sent |

## Left out

- HTTP handlers, routing, CORS, JSON envelopes and `util.ParseBody`: these are request and response I/O.
- DynamoDB itself: marshalling, `QueryItems`, `BatchGetItems`, `GetItemByKey`, `GetArticleIdsByTag` and `GetFavoriteArticleIdsByUsername`. These are oracles in the model, so the over-fetch-and-discard paging inside `QueryItems` and the chunking inside `BatchGetItems` are not modelled.
- Marshalling errors in `putArticleWithRandomId` (lines 51-54 and 74-77): they cannot occur for these record types, so they are not modelled.
- `ArticleIdRand` and `RenewArticleIdRand`: these hold randomness in process-global state. Draws are a parameter sequence, and a reseed is only recorded as an event.
- `slug.Make` and `time.Now`: the slug prefix and the timestamps are parameters.
- `ReverseIndexInt64` is not part of this model. It is assumed to map each identifier to its last position.
- `GetArticleRelatedProperties`, `GetFeed`, `UpdateArticle` and `DeleteArticle`: these service functions are not part of this model.
- `ArticleService.PutArticle`: each event records the article submitted, not the transaction items. The items are `BuildTransaction` of that article, whose contract states their shape.
- `ArticleService.GetArticles`: it validates with the corrected depth check of `PlanListing`, not the wrapping one of the code as written. The code's own validation is `PlanListingAsWritten`; the two differ only on requests whose true offset+limit exceeds the int64 range.
- `ArticleService.ReconstructPlacesById`: it assumes distinct requested identifiers, and fetched identifiers that are distinct and were all requested. Otherwise the code as written sends an unrequested identifier to slot 0, through Go's map default, and `PlaceAll` models that but nothing is proved about it.
- Duplicate tags: storage engines that refuse two operations on one item in a transaction would reject such a transaction. That refusal is one more `AwsFailure` outcome here and is not derived.
- User, comment, favorite, follow and tag controllers: these are single-record reads and writes outside the article core.

## Findings

| source | as written | input that shows it | evidently intended | confidence | as-written member | corrected member |
|---|---|---|---|---|---|---|
| service/ArticleService.go:38-39 | the loop retries only when the error code is `ConditionalCheckFailedException`; DynamoDB reports a failed condition inside `TransactWriteItems` as `TransactionCanceledException` with the cancellation reason `ConditionalCheckFailed`, so a colliding identifier ends the loop | the first call draws an identifier that is taken; storage answers `TransactionCanceledException` with reasons [`ConditionalCheckFailed`, `None`, …], and the loop returns that error after one call | retry on every identifier collision, however storage reports it | not executed; medium, since it rests on the storage engine's documented error codes, which the source does not show | ArticleService.PutArticleAsWritten, ArticleService.CanceledCollisionNotRetried | ArticleService.PutArticle |
| service/ArticleService.go:115 | `offset+limit > maxDepth` is evaluated on 64-bit ints, so a large offset makes the sum wrap to a negative number and the depth check passes | offset = 9223372036854775807 and limit = 1: the sum wraps to -9223372036854775808, and the request is accepted | reject every page whose true end lies past 1000 | not executed; high | ArticleService.PlanListingAsWritten, ArticleService.DepthCheckWrapsAround | ArticleService.PlanListing |
