# Marketplace listings backend — a verified model

This project models the server side of a small Mercado Libre listing manager. The
NestJS backend keeps a local table of publications and synchronises it with the
marketplace. It also stores the OAuth tokens it uses to call the marketplace, and it
asks a language model for advice on a listing. Two revisions of the backend are
modelled side by side:

- the multi-tenant `backend/` tree: tokens and publications belong to an owner;
- the older single-tenant `Backend/` tree: one token table for everyone, and plain CRUD
  over the publications.

The model has these modules:

- `Common`: optional values and results, the HTTP exception kinds the services throw,
  the JavaScript truthiness of a nullable string, and an upstream reply (body, or
  status plus error body).
- `Newest`: "newest row first", the ordering every lookup uses:
  - `Latest` is `findOne` ordered by `createdAt DESC`;
  - `CollectNewestFirst` is `find` with the same order;
  - `Page` is `skip`/`take`.
- `MeliIds`: the marketplace id parser `extractItemOrProductId`. It is an explicit
  leftmost-match search for `ML` + 0–2 letters + optional `-` + at least 5 digits, on
  the trimmed input.
- `MeliTokenModel`, `MeliTokens`, `LegacyMeliTokens`: the token store and its refresh
  rules.
  - `MeliTokens.TokenStore` is a class over the sequence of token rows.
  - The single-tenant revision runs the same store with no owner.
- `MeliTypes`, `MeliItems`, `LegacyMeliItems`: reading items from the marketplace,
  importing them, and creating and updating them there.
  - Every HTTP answer is an input.
  - An operation returns the payload it hands to the publications upsert, plus the
    writes it sent.
- `PublicationModel`, `Publications`, `LegacyPublications`: the publications table.
  - The newer table is a class over a map from id to row, in which item ids are unique.
    It covers upsert, pause/activate, visibility, paging and update.
  - The older table is plain CRUD.
- `Analysis`: the cached listing analysis and its stock metrics. The language model
  call is an outcome passed in.

Clocks, fresh ids, configuration values and every upstream answer are parameters.
Timestamps are integer milliseconds.

The code and the design description disagree in one place. In `createItemFromApp`, a
failed description post raises BadRequest inside a `try`. The outer `catch` of that
`try` keys on `error.response.status`, which a framework HTTP exception does not
have, so the caller sees InternalServerError, not BadRequest. The model follows the
code.

## Model

| member | source | states |
|---|---|---|
| MeliIds.ExtractItemOrProductId | backend/src/meli/meli.service.ts:186-204 | blank input is BadRequest, every failure is BadRequest, and an answer comes only from a match in the searched text |
| MeliIds.TrimFacts | backend/src/meli/meli.service.ts:187 | trimming leaves nothing exactly when every character is JavaScript white space |
| MeliIds.MatchesAtIff | backend/src/meli/meli.service.ts:196 | the greedy matcher succeeds at a position exactly when the pattern matches there, taking the full digit run |
| MeliIds.FindMatchIsLeftmost | backend/src/meli/meli.service.ts:196 | the search returns the leftmost match, and finds none only when no position matches |
| MeliIds.ExtractIsLeftmostMatch | backend/src/meli/meli.service.ts:186-204 | parsing succeeds exactly when the padded (or URL) target holds a match; the id is the upper-cased prefix plus the digits of the leftmost match, hyphen dropped |
| MeliIds.BlankIdIsBadRequest | backend/src/meli/meli.service.ts:187-189 | empty or white-space-only input is BadRequest |
| MeliIds.ExtractedIdIsCanonical | backend/src/meli/meli.service.ts:198-200 | every parsed id is `ML`, up to two upper-case letters, then at least five digits |
| MeliIds.ExtractIsIdempotent | backend/src/meli/meli.service.ts:186-204 | parsing a parsed id returns it unchanged |
| MeliIds.ShortIdExample | backend/src/meli/meli.service.ts:197-203 | an id with four digits is rejected with BadRequest |
| MeliIds.CanonicalIdParsesToItself | backend/src/meli/meli.service.ts:192-200 | a canonical id given alone parses to itself |
| MeliIds.BareIdExample | backend/src/meli/meli.service.ts:192-200 | a bare canonical id parses to itself |
| Newest.LatestIsNewest | backend/src/meli/meli.service.ts:645-648 | the newest-row lookup finds nothing exactly when no row qualifies, else the one newest qualifying row |
| Newest.NewestIsUnique | backend/src/meli/meli.service.ts:645-648 | at most one row is the newest qualifying one |
| Newest.LatestSeesOnlyKeys | backend/src/meli/meli.service.ts:645-648 | the newest-row lookup depends only on which rows qualify and on their creation times |
| Newest.FindLatest | backend/src/meli/meli.service.ts:645-648 | the row-by-row scan returns the newest qualifying row |
| Newest.CollectNewestFirst | backend/src/publications/publications.service.ts:90-96 | the result lists every qualifying row once, newest first |
| Newest.InsertKeepsNewestFirst | backend/src/publications/publications.service.ts:92 | inserting at the insertion point keeps the newest-first order |
| Newest.Page | backend/src/publications/publications.service.ts:88-94 | a page is the `take` rows after the first `skip`, or fewer at the end |
| MeliTokenModel.LatestToken | backend/src/meli/meli.service.ts:644-655 | the lookup returns a row of the owner, or NotFound |
| MeliTokenModel.LatestTokenIsNewest | backend/src/meli/meli.service.ts:644-655 | NotFound exactly when the owner has no row; otherwise the owner's newest row |
| MeliTokenModel.RefreshedFacts | backend/src/meli/meli.service.ts:701-705 | a refresh replaces the access token and type, keeps the old refresh token if none is returned, keeps the old scope if none is returned, and sets expiresAt to now + expires_in·1000 |
| MeliTokenModel.RefreshOutcome | backend/src/meli/meli.service.ts:680-713 | missing client credentials are InternalServerError, a failed call is Unauthorized, an answer is merged |
| MeliTokenModel.EnsureOutcome | backend/src/meli/meli.service.ts:657-678 | the store keeps its size, an error writes nothing, and NotFound is raised exactly when there is no environment token and no stored token in scope |
| MeliTokenModel.EnsureWithoutRefresh | backend/src/meli/meli.service.ts:657-668 | an environment token is returned untouched; no stored token is NotFound; a token not expiring within 60 s is returned and nothing is written |
| MeliTokenModel.EnsureWritesOnlyARefresh | backend/src/meli/meli.service.ts:664-677 | the store changes only by one successful refresh of the owner's newest token, attempted only when it expires soon and has a refresh token |
| MeliTokenModel.EnsureUnauthorized | backend/src/meli/meli.service.ts:670-674 | an expiring token without a refresh token, or a refused refresh, is Unauthorized |
| MeliTokenModel.LatestTokenAfterUpdate | backend/src/meli/meli.service.ts:701-707 | refreshing a row in place does not change which row is the newest |
| MeliTokenModel.RefreshThenUseStored | backend/src/meli/meli.service.ts:657-678 | after a successful refresh with a lifetime above the buffer, the next call uses the stored row without refreshing again |
| MeliTokenModel.HasValidToken | backend/src/meli/meli.service.ts:715-728 | an environment token is valid; otherwise validity needs an owner, a stored token for that owner, and that token not expiring within the buffer |
| MeliTokenModel.HasValidTokenAgreesWithEnsure | backend/src/meli/meli.service.ts:715-728 | hasValidToken is true exactly when ensureAccessToken would answer without refresh or error; without an owner only an environment token counts |
| MeliTokens.AuthUrlParams | backend/src/meli/meli.service.ts:89-103 | authorization parameters carry the client id, redirect URI and owner as `state`, plus `app_state` only when given; a missing client id is InternalServerError |
| MeliTokens.TokenStore.GetLatestToken | backend/src/meli/meli.service.ts:644-655 | the scan answers the owner's newest token |
| MeliTokens.TokenStore.RefreshAccessToken | backend/src/meli/meli.service.ts:680-713 | the outcome is the refresh rule; only on success is row i replaced by the merged row |
| MeliTokens.TokenStore.EnsureAccessToken | backend/src/meli/meli.service.ts:657-678 | result and new store are those of the token rule |
| MeliTokens.TokenStore.HandleCallback | backend/src/meli/meli.service.ts:106-122 | a successful exchange appends one row with expiresAt = now + expires_in·1000, owned by a non-empty `state`; failures store nothing and are InternalServerError |
| MeliTokens.CallbackTokenIsUsedNext | backend/src/meli/meli.service.ts:106-122 | a token stored by the callback is the one the owner's next lookup finds |
| LegacyMeliTokens.AuthUrlParams | Backend/src/meli/meli.service.ts:30-44 | the single-tenant URL appends `state` only when a non-empty one is supplied |
| LegacyMeliTokens.SingleTenantLookup | Backend/src/meli/meli.service.ts:212-222 | the ownerless lookup fails only on an empty table, and otherwise returns the newest row of the whole table |
| MeliTypes.DescriptionText | backend/src/meli/meli.service.ts:162 | the description is the non-empty plain text, else the non-empty text, else none |
| MeliItems.FetchItem | backend/src/meli/meli.service.ts:473-531 | the policy 403 is Forbidden; 401/403 retries without the token (public 404 is NotFound, else Forbidden for 403, Unauthorized for 401); 404 is NotFound; anything else, a missing status counting as 500, is InternalServerError |
| MeliItems.FetchItemsFromProduct | backend/src/meli/meli.service.ts:560-600 | items from either read; when both fail, 401/403 is Unauthorized and anything else InternalServerError |
| MeliItems.FetchItemDescription | backend/src/meli/meli.service.ts:533-558 | the description from either read, none when both fail |
| MeliItems.ImportFailure | backend/src/meli/meli.service.ts:174-181 | the outer catch passes NotFound and InternalServerError and wraps everything else as InternalServerError |
| MeliItems.PayloadFor | backend/src/meli/meli.service.ts:160-175 | the upsert payload copies the item and owner, uses the description text or the fallback, and keeps the raw item and description as metadata |
| MeliItems.ImportItem | backend/src/meli/meli.service.ts:124-183 | parse and token failures are wrapped; a found item is imported; a NotFound item is retried as a product whose first item is imported; every failure of that branch is NotFound; other fetch errors are InternalServerError |
| MeliItems.CreateBody | backend/src/meli/meli.service.ts:222-256 | the item body carries the request's fields and the fixed listing terms; BRAND and MODEL always, plus COLOR, IS_DUAL_SIM and CARRIER exactly for MLA1055; the request's pictures, or the default one when none are given |
| MeliItems.CreateItemFromApp | backend/src/meli/meli.service.ts:206-313 | a failed category lookup, or a non-leaf category (BadRequest), ends before any post; for a leaf category the item is always posted, then the description exactly when it is non-empty and the item post answered; success exactly when the item post, the description post and the read-back all succeed, answering the payload of the item read back; 401/403 on the post is Unauthorized, every other failure InternalServerError |
| MeliItems.PutBody | backend/src/meli/meli.service.ts:327-331 | title and status go into the PUT body only when non-empty, price and quantity whenever given; the body is empty exactly when the request changes nothing |
| MeliItems.UpdateWrites | backend/src/meli/meli.service.ts:333-348 | the PUT is sent exactly when the body is non-empty; the description is posted after it exactly when one is given and the PUT, if sent, succeeded; nothing else is written |
| MeliItems.UpdateItemFromApp | backend/src/meli/meli.service.ts:315-375 | title and status are sent only when non-empty, price and quantity whenever given; no PUT for an empty body; the description is posted whenever given; success exactly when every call succeeds; any failure is InternalServerError |
| LegacyMeliItems.FetchItem | Backend/src/meli/meli.service.ts:121-144 | 404 is NotFound; every other failure, 401/403 included, is InternalServerError |
| LegacyMeliItems.FetchItemsFromProduct | Backend/src/meli/meli.service.ts:164-182 | any product failure is InternalServerError |
| LegacyMeliItems.FetchItemDescription | Backend/src/meli/meli.service.ts:146-162 | one authenticated attempt; a failure is no description |
| LegacyMeliItems.LegacyPayload | Backend/src/meli/meli.service.ts:97-110 | an empty description text gives no description; no permalink and no owner |
| LegacyMeliItems.ImportItem | Backend/src/meli/meli.service.ts:62-119 | the id is used verbatim; the product fallback turns every failure into NotFound; the outer catch passes NotFound and InternalServerError |
| LegacyMeliItems.FetchItemAgreesWhenAnswered | Backend/src/meli/meli.service.ts:121-162 | when the authenticated read answers, both revisions return the same item, and the same description when that read answers |
| LegacyMeliItems.UnauthorizedReadDiffers | Backend/src/meli/meli.service.ts:121-144 | a 401 that the public read would answer is an item in the newer revision and InternalServerError in the older |
| PublicationModel.DerivedPermalink | backend/src/publications/publications.service.ts:327-332 | a non-empty stored permalink is kept; otherwise an `MLA<digits>` id gives the built URL; otherwise the stored value |
| PublicationModel.MapToDto | backend/src/publications/publications.service.ts:326-355 | the DTO copies every field of the row except the permalink, which is derived |
| PublicationModel.ListedRowsAreVisible | backend/src/publications/publications.service.ts:95-124 | ownerless rows are visible to everyone; a listed row is visible; an owner's list omits ownerless rows |
| PublicationModel.HandleQueryError | backend/src/publications/publications.service.ts:315-324 | code 23505 is Conflict; any other error is rethrown |
| Publications.ItemRowIsUnique | backend/src/publications/publications.service.ts:246-249 | in a valid table, the lookup by item id finds the one row holding it |
| Publications.UpsertedDescriptions | backend/src/publications/publications.service.ts:262-276 | descriptions change only for a non-empty text: the first is overwritten (text and metadata), or one is created |
| Publications.Upsert | backend/src/publications/publications.service.ts:245-305 | when a row holds the item it is overwritten with the payload's fields, keeps its permalink when the payload has none, changes owner only for a non-empty payload owner, gets the upserted descriptions, and no key is added; otherwise one new unpaused row under the new id holds the payload, its permalink and owner |
| Publications.UpsertKeepsTable | backend/src/publications/publications.service.ts:245-305 | an upsert keeps item ids unique, leaves one row holding the payload, adds at most one row, touches no other row, and keeps each row's pause flag and creation time; it adds at most one description |
| Publications.UpsertTwiceKeepsOneRow | backend/src/publications/publications.service.ts:245-305 | two upserts of one item leave one row, holding the second payload |
| Publications.SetPaused | backend/src/publications/publications.service.ts:187-243 | NotFound for an unknown id, Conflict for another owner's row, else only that row's pause flag changes |
| Publications.PauseThenActivate | backend/src/publications/publications.service.ts:187-243 | pause then activate leaves the row as it was, with the flag false |
| Publications.RemoteRequest | backend/src/publications/publications.service.ts:147-156 | the remote update sends each given field or the stored one, and the given description, else the first stored one, else empty |
| Publications.LocallyUpdated | backend/src/publications/publications.service.ts:164-182 | a local update merges the given fields, makes a signed-in caller the owner, and writes a given description into the first description or a new one |
| Publications.LocalUpdateKeepsTable | backend/src/publications/publications.service.ts:164-168 | a local update without an item-id clash keeps the table valid, and the caller may then see the row |
| Publications.PageIsListed | backend/src/publications/publications.service.ts:90-96 | every row on a page is in the caller's list and visible to the caller |
| Publications.PublicationTable.FindOne | backend/src/publications/publications.service.ts:101-112 | NotFound exactly when the row is missing or another owner's; otherwise its DTO |
| Publications.PublicationTable.FindByMeliItemId | backend/src/publications/publications.service.ts:114-126 | null when no row holds the item or it is another owner's; otherwise its DTO |
| Publications.PublicationTable.FindAll | backend/src/publications/publications.service.ts:84-99 | the page (default 50 from 0) of the caller's rows (all without a caller), newest first |
| Publications.PublicationTable.UpsertFromMeli | backend/src/publications/publications.service.ts:245-305 | the table becomes the upsert of the payload, stays valid, and the answer is the row holding the item |
| Publications.PublicationTable.PausePublication | backend/src/publications/publications.service.ts:187-221 | NotFound or Conflict change nothing; otherwise the flag is set whatever the remote answer, and `pausedInMeli` is item id and caller present and remote pause succeeded |
| Publications.PublicationTable.ActivatePublication | backend/src/publications/publications.service.ts:223-243 | same checks as pause; the flag is cleared with no remote call |
| Publications.PublicationTable.Update | backend/src/publications/publications.service.ts:128-185 | no ownership check; with an item id and a caller, the marketplace update then an upsert, any failure BadRequest; otherwise the local merge, an item-id clash being Conflict |
| Publications.PublicationTable.UpdateRemotely | backend/src/publications/publications.service.ts:145-162 | the marketplace path succeeds exactly when every marketplace call does, then the table is the upsert of the item read back; any failure is BadRequest and changes nothing |
| Publications.PublicationTable.UpdateLocally | backend/src/publications/publications.service.ts:164-182 | an item id another row holds is Conflict and changes nothing; otherwise the row becomes its local merge |
| LegacyPublications.NewRow | Backend/src/publications/publications.service.ts:18-37 | one row with the given fields, plus one description only when the text is non-empty |
| LegacyPublications.Assigned | Backend/src/publications/publications.service.ts:82 | given fields overwrite, the others stay |
| LegacyPublications.EmptyUpdateChangesNothing | Backend/src/publications/publications.service.ts:82 | an update with no fields leaves the row unchanged |
| LegacyPublications.AssignIsIdempotent | Backend/src/publications/publications.service.ts:82 | applying the same update twice is applying it once |
| LegacyPublications.MapToDto | Backend/src/publications/publications.service.ts:100-119 | the DTO carries every modelled column of the row and its descriptions unchanged |
| LegacyPublications.MapToDtoIsLossless | Backend/src/publications/publications.service.ts:100-119 | two rows with the same DTO are the same row |
| LegacyPublications.LegacyPublicationTable.Create | Backend/src/publications/publications.service.ts:18-40 | one new row (and description only when non-empty); an item id already in the table is the unhandled database error, under the unique item-id constraint assumed below |
| LegacyPublications.LegacyPublicationTable.FindOne | Backend/src/publications/publications.service.ts:51-62 | NotFound exactly for an unknown id, no owner filtering |
| LegacyPublications.LegacyPublicationTable.FindByMeliItemId | Backend/src/publications/publications.service.ts:64-71 | null exactly when no row holds the item |
| LegacyPublications.LegacyPublicationTable.FindAll | Backend/src/publications/publications.service.ts:42-49 | every row exactly once, newest first |
| LegacyPublications.LegacyPublicationTable.Update | Backend/src/publications/publications.service.ts:73-86 | NotFound for an unknown id; otherwise the given fields overwrite and the rest stay |
| LegacyPublications.LegacyPublicationTable.Remove | Backend/src/publications/publications.service.ts:88-98 | NotFound for an unknown id; otherwise that row is gone and the others are untouched |
| LegacyPublications.ListingCoversTable | Backend/src/publications/publications.service.ts:42-49 | the full listing is as long as the table |
| Analysis.StockStatusOf | backend/src/analysis/analysis.service.ts:57-63 | low for at most 2, medium for 3 to 5, healthy above |
| Analysis.StockStatusIsMonotone | backend/src/analysis/analysis.service.ts:57-63 | more stock never gives a lower level |
| Analysis.RequestFor | backend/src/analysis/analysis.service.ts:55-80 | the request carries the publication's id, title, price, status, quantities and category, the stock level, a ratio only for positive stock, and the first description or empty |
| Analysis.LlmFailure | backend/src/analysis/analysis.service.ts:102-110 | 429 or `insufficient_quota` is the quota 503; any other failure the generic 503 |
| Analysis.AnalysisOutcome | backend/src/analysis/analysis.service.ts:25-127 | the records only grow, by at most one, and not on an error; a request is sent only for a loaded publication and describes it (its error results are stated in Analysis.ModelAskedOnlyOnMiss) |
| Analysis.ModelAskedOnlyOnMiss | backend/src/analysis/analysis.service.ts:30-117 | a failed load is NotFound; an unforced call with a cached analysis returns the newest one; the model is asked only on a miss or when forced, and only with an API key; a missing key on a miss or forced call is the ServiceUnavailable error; a thrown call is `LlmFailure` of its status and code; an empty or unparsable answer is Unhandled; none of these saves anything |
| Analysis.SavesAtMostOnce | backend/src/analysis/analysis.service.ts:112-126 | exactly one record is appended on a fresh success, with the model name or `gpt-4o-mini`; nothing otherwise |
| Analysis.SavedAnalysisIsCached | backend/src/analysis/analysis.service.ts:37-48 | after a saved analysis, the next unforced call returns it and neither asks nor saves |
| Analysis.AnalysisStore.AnalyzePublication | backend/src/analysis/analysis.service.ts:25-127 | result, records and request are those of the analysis rule |

## Left out

- HTTP transport, URL encoding and logging are not modelled. Every upstream call is a reply given as a parameter. Timestamps, fresh ids and configuration values are parameters too.
- MeliIds.ExtractItemOrProductId: `decodeURIComponent` is modelled as the identity. The operation requires input without `%`, because percent-decoding is library behaviour.
- The regular expression is modelled over the ASCII letters that `[A-Z]` with the `i` flag matches. JavaScript's full Unicode white-space set is used only for trimming.
- A URL example of the parser (`https://x/MLA-123456789`) is not proved as a concrete lemma. It is covered by ExtractIsLeftmostMatch.
- Database failures other than the unique violation of the item id are left out. The out-of-range bounds of the list query are left out too; they are preconditions taken from its validators.
- Races between concurrent upserts or refreshes are left out. Everything is sequential.
- The language model call, the parsing of its JSON and the floating-point sold-to-stock ratio are left out. Only whether a ratio is present is kept.
- `getProfile`, `listOwnItems`, `getCategories` (with its static fallback list) and the internals of `pauseItem` are left out. Pausing is reduced to whether the remote pause succeeds.
- The newer `create` and `createAndPublishToMeli` are left out: they are thin wrappers around the table and around MeliItems.CreateItemFromApp.
- The authentication service is left out: it is bcrypt and JWT, foreign libraries.
- Controllers, modules, DTO decorators and the frontend are not part of this model.
- The older `importItem` calls an `upsertFromMeli` that the older publications service does not define. LegacyMeliItems.ImportItem ends with the payload it would hand over.
- LegacyPublications.ValidRows: the older publication entity is not part of this model, and the older service checks no uniqueness itself. Its unique `meli_item_id` constraint is carried over from the newer entity (backend/src/publications/entities/publication.entity.ts:16). LegacyPublicationTable.Create and LegacyPublicationTable.Update rest on that assumption for their Unhandled result on a duplicate item id.
- The update DTO of the newer publications service is taken to be the optional form of the create DTO.
- The order of rows with equal creation times is left open by the database. The model resolves such ties by store order.
- The newer `update` routes to the marketplace only when the row's item id and the caller are non-empty. The remote step is then modelled by MeliItems.UpdateItemFromApp, with its token given as a parameter.
- MapToDto: the `updatedAt` column is not modelled, so the DTO does not carry it. Neither row datatype has an update timestamp; this applies to PublicationModel.MapToDto and LegacyPublications.MapToDto.
- Publications.PublicationTable.FindAll: requires a valid table. Its ensures states the page up to the order of rows with equal creation times.
