# local-help: neighbourhood lost-and-found, home addresses, ratings, chat and posts

This project models the server side and two pages of the local-help
application in Dafny and proves properties of the model.

The server side is five tRPC routers, each over one table:

- `lostFound`: list an item, search nearby items, look an item up, change its status, list one's own items, list the categories.
- `address`: register a home address and verify it against the caller's live position.
- `rating`: rate another user, probe an existing rating, average a user's ratings, page through them newest first.
- `chat`: send a direct message and read a two-party conversation in time order.
- `post`: create a skill post and fetch the latest one.

Each table is a class. It holds the rows as a sequence and a serial-id counter. A ghost `Valid` predicate states the table's invariants.

- State-changing operations are methods with `modifies` clauses. Their postconditions give the whole new table state.
- Read operations are functions, or methods that change nothing. A read that filters rows in a loop is proved against a recursive specification function such as `Nearby`, `MineOf` or `Conversation`. Lemmas then prove that the specification function keeps exactly the right rows.
- Ordering uses one insertion sort over an array with a caller-supplied comparator, `Sorting.SortBy`. It is proved to sort and to permute.

The two pages are classes holding the React state. Each handler is a method that may change only the fields its setters touch; field-level `modifies` frames enforce this.

- The lost-and-found page: the query parameters it sends, when the query runs, and the client-side search and ordering.
- The home-address form: which coordinate source a submission uses, and when it is refused.

Modelling choices:

- **Distance.** Both distance formulas are a parameter `dist: (Coord, Coord) -> real`: the JavaScript haversine in `address.ts` and the SQL `acos` formula in `lostfound.ts`.
- **Parsing.** JavaScript's `parseFloat` is a parameter `parse: string -> Option<real>`, where `None` stands for `NaN`. The database's `::numeric` cast is a separate parameter `cast`. It gives a number, the numeric `NaN`, or `None` when the cast fails.
- **Failures.** The address and rating routers throw tRPC errors, and the model names their codes (`UNAUTHORIZED`, `NOT_FOUND`, `BAD_REQUEST`). The lost-and-found and chat routers throw plain `Error`s, which reach the client as `INTERNAL_SERVER_ERROR` with a message. For those, the model's failure (`Unauthorized`, `NotFound`, `Forbidden`) names the reason the message gives. A schema rejection is `BAD_REQUEST` everywhere.
- **Columns.** A write fails with `DatabaseError` when a text is longer than its `varchar(n)` column allows, counted in characters (src/server/db/schema.ts:20-107). How a `numeric(10, 6)` column reads, rounds and prints a post's coordinate is a parameter `numeric`. It gives the stored text, or `None` when the column refuses the value.
- **Caller.** The signed-in caller is an `Option<UserId>`. `LoggedIn` holds when it is present and non-empty, matching the routers' `!userId` test.
- **Time.** The clock is a `now: int` parameter.
- **Display names.** Names from the identity provider are parameters (`names`, `name`, `creator`). Only the fallback names "Anonymous User" and "Unknown User" are modelled.

## Behaviour worth noting

- The default nearby radius is 1.5 km: `input.maxDistance || 1.5` in src/server/api/routers/lostfound.ts:69. A radius of 0 also gives 1.5 km.
- The nearby search returns the caller's own items too; its query has no filter on the owner (src/server/api/routers/lostfound.ts:91-121).
- A stored coordinate of `NaN` puts a row at distance 0 from every origin. Consider a row that passes the query's inner filter: it is active, and its type and category match. If its stored coordinate is not a numeric literal, the whole nearby search answers with no rows (src/server/api/routers/lostfound.ts:95-97, 127-130). Rows that fail the inner filter are never cast.
- The category filter is pasted into the SQL text between apostrophes (src/server/api/routers/lostfound.ts:112-114). A category with an unbalanced apostrophe makes the query fail, and the catch then answers with no rows. Other quoting can change which rows match. The model compares the category as a value.
- The title bounds 3..100 count UTF-16 code units, as JavaScript measures a string, so a character outside the Basic Multilingual Plane counts twice. The `varchar(100)` column counts characters, so any title the request schema accepts fits it.

## Model

| member | source | states |
|---|---|---|
| Address.Verification | src/server/api/routers/address.ts:109-146 | An already verified row succeeds as `AlreadyVerified`. An unverified row becomes `NewlyVerified` exactly when both positions parse and their distance is at most 1.5 km; the bound is inclusive. Every other case is `BAD_REQUEST`. |
| Address.FirstFor | src/server/api/routers/address.ts:41-43 | The lookup by user returns a row of that user, or `None` exactly when the user has no row. |
| Address.MarkVerifiedFinds | src/server/api/routers/address.ts:131-134 | After the update that sets `verified` on the user's rows, the lookup of that user finds the row it found before, now verified and otherwise unchanged. |
| Address.VerificationIdempotent | src/server/api/routers/address.ts:98-134 | When a verification succeeds, the table left behind (marked verified on `NewlyVerified`, unchanged on `AlreadyVerified`) gives a lookup that finds the caller's row verified. Every later verification then answers `AlreadyVerified`, from any position. |
| Address.MarkVerifiedKeeps | src/server/api/routers/address.ts:131-134 | Setting `verified` on a user's rows keeps ids issued and unique and one row per user. |
| Address.OverwriteRows | src/server/api/routers/address.ts:47-57 | The update keeps the row count and every row's id and owner. It leaves other users' rows untouched. It gives the caller's rows the new address and coordinates, with `verified` false. |
| Address.OverwriteKeeps | src/server/api/routers/address.ts:45-57 | Overwriting the row of a user who has one keeps ids unique and one row per user. The user's row then holds the new address and coordinates, unverified. |
| Address.OverwriteKeepsOthers | src/server/api/routers/address.ts:47-57 | Overwriting one user's rows leaves the set of other users' rows the same. |
| Address.AppendKeeps | src/server/api/routers/address.ts:58-68 | Inserting a row with a fresh id for a user who has none keeps ids unique and one row per user. The user's row is then the new one. |
| Address.AddressBook.GetUserAddress | src/server/api/routers/address.ts:73-78 | The result is a row of the caller's, or `None` exactly when the caller has no row. An absent caller is looked up as the empty id. |
| Address.AddressBook.Find | src/server/api/routers/address.ts:98-100 | The table's lookup by user: a row of that user, or `None` exactly when the user has no row. |
| Address.AddressBook.SetAddress | src/server/api/routers/address.ts:39-70 | The write fails with `DatabaseError` exactly in two cases: the address or a coordinate is longer than 255 characters, or the caller has no row and an id longer than 255 characters would be inserted (src/server/db/schema.ts:70-79). A failure changes nothing. Otherwise, a caller with a row has it overwritten and no row is added, and a caller without one gets one row appended. `Ok(true)` and `Ok(false)` only record which branch ran; the router itself returns the database driver's result. On success, the caller's row holds the given address and coordinates and is unverified. Other users' rows are the same set before and after. Ids and owners stay unique. |
| Address.AddressBook.VerifyAddress | src/server/api/routers/address.ts:88-148 | `UNAUTHORIZED` for an absent caller and `NOT_FOUND` for a caller without a row; neither changes the table. Otherwise the result is `Verification` of the caller's row. The table changes only on `NewlyVerified`, and then only by setting `verified` on the caller's rows. On success, the lookup of the caller then finds the same row, verified. |
| LostFound.NearbySound | src/server/api/routers/lostfound.ts:91-121 | Every returned row comes from the table and is active. It passes the type and category filters, and the cast reads its stored coordinates. It carries the SQL distance from the origin, which is strictly below the radius. |
| LostFound.NearbyComplete | src/server/api/routers/lostfound.ts:91-121 | Every active row that passes the filters, whose stored coordinates the cast reads, and that lies strictly inside the radius is returned, with its distance. |
| LostFound.NotANumberIsNearby | src/server/api/routers/lostfound.ts:94-99 | A selected row whose stored coordinate casts to `NaN` is returned at distance 0 for any positive radius, because `LEAST(1.0, NaN)` is 1.0. |
| LostFound.MineOfExact | src/server/api/routers/lostfound.ts:254-281 | The owner listing keeps exactly the owner's rows whose type and status match. An absent type means "lost" and an absent status means "active". |
| LostFound.CategoriesExact | src/server/api/routers/lostfound.ts:288-294 | A string is a category exactly when some row has it as its non-null category. |
| LostFound.WithId | src/server/api/routers/lostfound.ts:217-219 | The lookup by id returns a table row with that id, or `None` exactly when no row has it. |
| LostFound.ScanNearby | src/server/api/routers/lostfound.ts:91-124 | One pass over the table yields exactly `Nearby`. It reports a cast failure exactly when some selected row has a stored coordinate that the `::numeric` cast rejects. |
| LostFound.ItemTable.Create | src/server/api/routers/lostfound.ts:13-51 | A title outside 3..100 UTF-16 code units is `BAD_REQUEST`. An absent caller then fails with the plain error "You must be logged in". After that, a text too long for its column fails with `DatabaseError`: category 50; location, coordinates, contact and owner 255; image URL 1024 (src/server/db/schema.ts:90-107). None of these inserts anything. The insert succeeds exactly when none applies. Then exactly one row is appended with the input fields. The new row is `active` and owned by the caller, whatever the input says. |
| LostFound.WellFormedTitleFits | src/server/api/routers/lostfound.ts:17 | A title within the request schema's 100 code units fits the `varchar(100)` column. |
| Text.Utf16Length | src/server/api/routers/lostfound.ts:17 | A string's JavaScript length lies between its character count and twice that count. It is 0 exactly for the empty string. |
| Text.Utf16LengthOfBmp | src/server/api/routers/lostfound.ts:17 | A string of Basic Multilingual Plane characters has one code unit per character. |
| Text.Utf16LengthOfAstral | src/server/api/routers/lostfound.ts:17 | A character above U+FFFF adds two code units. |
| LostFound.ItemTable.GetNearbyItems | src/server/api/routers/lostfound.ts:65-130 | The origin is the registered address only when the request asks for it, the caller is signed in and has a row; otherwise it is the input coordinates, both read with `parseFloat`. An origin that is `NaN` gives no rows. So does a selected row with a stored coordinate the `::numeric` cast rejects. Otherwise the result is a permutation of `Nearby` with radius `maxDistance \|\| 1.5`, in non-decreasing distance. |
| LostFound.ItemTable.GetById | src/server/api/routers/lostfound.ts:136-199 | An unparsable or unknown id fails, as the re-thrown "Failed to fetch item". Otherwise the result is the row with that id. Its distance is reported only for a signed-in caller whose registered address and the item both have non-empty coordinates. It is the SQL distance, and 0 when any of the four coordinates is `NaN`. The creator name falls back to "Anonymous User". |
| LostFound.ItemTable.UpdateStatus | src/server/api/routers/lostfound.ts:210-236 | Fails, in this order, when signed out, for a missing item, and for another owner's item; each is a plain error with its own message, and none changes anything. It succeeds exactly for the signed-in owner. Then only that item's `status` and `updatedAt` change. |
| LostFound.ItemTable.GetUserItems | src/server/api/routers/lostfound.ts:246-284 | Fails with a plain error when signed out. Otherwise the router runs one of four literal queries, and the result is a permutation of `MineOf`. It contains exactly the caller's matching rows, newest first. |
| LostFound.ItemTable.GetCategories | src/server/api/routers/lostfound.ts:287-295 | Every non-null category appears once and only once. No other string appears. The result is in ascending order. |
| Rating.AboutExact | src/server/api/routers/rating.ts:21 | The rows about a user are exactly the table rows whose `userId` is that user. |
| Rating.SumBounds | src/server/api/routers/rating.ts:50 | Scores within 1..5 sum to between one and five times their count. |
| Rating.AboutSumBounds | src/server/api/routers/rating.ts:15-21 | When every stored score is within 1..5, the sum of a user's scores is within one to five times the user's rating count. |
| Rating.MeanBounds | src/server/api/routers/rating.ts:17 | For a positive count, the mean times the count gives back the sum, and the mean lies within 1..5. |
| Rating.PairRow | src/server/api/routers/rating.ts:65-70 | The lookup by (rated user, rater) returns a row of that pair, or `None` exactly when the pair has none. |
| Rating.RescoreRows | src/server/api/routers/rating.ts:74-84 | The update keeps every row's id and pair. It gives the pair's rows the new score and time. Their comment becomes the new one when given; an absent comment is dropped from the `SET`, so the old one stays. Every other row is unchanged. |
| Rating.RescoreKeeps | src/server/api/routers/rating.ts:72-86 | Re-rating an existing pair keeps ids unique, one row per pair and scores within 1..5. The pair's row is then its old row with the new score and time, keeping its id, and keeping its comment unless a new one is given. |
| Rating.InsertKeeps | src/server/api/routers/rating.ts:87-97 | Rating a new pair with a fresh id keeps ids unique, one row per pair and scores within 1..5. |
| Rating.InsertFinds | src/server/api/routers/rating.ts:65-70 | After a new pair's row is appended, the lookup of that pair finds exactly the new row. |
| Rating.PrefixIsNewest | src/server/api/routers/rating.ts:120-125 | In a newest-first list, nothing past a prefix is newer than anything in the prefix. |
| Rating.PageOf | src/server/api/routers/rating.ts:120-131 | The first `limit` rows of a newest-first ordering are taken from the rows and are newest first. Nothing left behind is newer. The row just past them, when there is one, is left behind and is the newest of those left behind. |
| Rating.NewestFrom | src/server/api/routers/rating.ts:128-130 | In a newest-first list, the row at a position is no older than any row from that position on. |
| Rating.NewestPage | src/server/api/routers/rating.ts:120-131 | Fetching `limit + 1` rows newest first and popping the extra one yields `min(limit, count)` rows, newest first, with nothing newer left out. The cursor is present exactly when more than `limit` rows exist. It is the id of a row left out that no other left-out row is newer than. |
| Rating.RatingTable.RateUser | src/server/api/routers/rating.ts:47-105 | A score outside 1..5 and rating oneself are `BAD_REQUEST` and change nothing. A new pair whose rated or rater id is longer than the 255 characters of its column (src/server/db/schema.ts:81-88) fails with `DatabaseError` ("Failed to submit rating") and changes nothing. It succeeds exactly in every other case. `updated` is true exactly when the pair had a row. That row is then rescored in place: it keeps its id, and it keeps its comment when none is given. Otherwise one row is appended with the given comment. Afterwards the pair's row carries the new score. One row per pair is preserved. |
| Rating.RatingTable.HasRated | src/server/api/routers/rating.ts:165-181 | `hasRated` holds exactly when the pair has a row. `currentRating` is present exactly then, and is that row's score. |
| Rating.RatingTable.GetUserRating | src/server/api/routers/rating.ts:12-36 | `totalRatings` is the number of rows about the user. With none, the average is 0. Otherwise the average times the count is the sum of the scores, and the average lies within 1..5. The name falls back to "Unknown User". |
| Rating.RatingTable.GetUserRatingsDetails | src/server/api/routers/rating.ts:110-154 | A limit outside 1..100 is refused; the default limit is 10. The page holds `min(limit, count)` of the user's ratings, newest first, with nothing newer left out. `nextCursor` is present exactly when more than `limit` exist. It is the id of the newest rating left out. Each rater's name falls back to "Anonymous User". |
| Chat.ConversationExact | src/server/api/routers/chat.ts:40-44 | A conversation holds exactly the messages from one participant to the other, in either direction. |
| Chat.ConversationSymmetric | src/server/api/routers/chat.ts:41-43 | The conversation of u with o is the conversation of o with u. |
| Chat.ConversationOfSent | src/server/api/routers/chat.ts:20-24 | A sent message ends the conversation between its sender and receiver. |
| Chat.ConversationOfOthers | src/server/api/routers/chat.ts:20-24 | A sent message leaves every other conversation unchanged. |
| Chat.ChatTable.SendMessage | src/server/api/routers/chat.ts:8-26 | An empty message is `BAD_REQUEST`. An absent caller then fails with the plain error "User not authenticated". Neither inserts anything. Otherwise exactly one message from the caller to the receiver is appended. |
| Chat.ChatTable.GetMessages | src/server/api/routers/chat.ts:28-47 | Fails with the plain error "User not authenticated" exactly when signed out. Otherwise the result is a permutation of the conversation. It holds exactly the messages between the two users, oldest first. |
| Post.Latest | src/server/api/routers/post.ts:22-26 | `None` exactly for no posts. Otherwise it is a post of the table, and no post is newer. |
| Post.LatestOfAppend | src/server/api/routers/post.ts:9-24 | After a post is added, the latest time is the larger of the old latest and the new post's time. A post no newer than the latest leaves the latest post unchanged. |
| Post.PostTable.Create | src/server/api/routers/post.ts:8-19 | No caller check. The insert fails with `DatabaseError` exactly when the skill, description or `userId` is longer than 256 characters, or the `numeric(10, 6)` column refuses a coordinate (src/server/db/schema.ts:20-35). A failure changes nothing. Otherwise exactly one post is appended. It carries the input's texts, including the caller-supplied `userId`, and the coordinates as the column stores them. |
| Post.PostTable.GetLatest | src/server/api/routers/post.ts:21-27 | The result is `Latest` of the table, so the promises proved about `Latest` hold of it. |
| LostFoundPage.MatchingExact | src/app/lost-found/page.tsx:113-121 | The search keeps exactly the rows that match the lower-cased query, and never adds rows. |
| LostFoundPage.SearchExact | src/app/lost-found/page.tsx:110-121 | An empty query keeps every row. A non-empty one keeps exactly the matching rows. Every row kept was among the fetched rows. |
| LostFoundPage.TitleDecides | src/app/lost-found/page.tsx:115-120 | A row with a title is kept exactly when its lower-cased title contains the lower-cased query; its other fields do not count. |
| LostFoundPage.OrderIsTotal | src/app/lost-found/page.tsx:124-134 | "recent" (a row without a date counts as 0) and "distance" (a missing distance counts as infinite) each compare every pair and are transitive. |
| LostFoundPage.RecentAsWrittenIgnoresDates | src/app/lost-found/page.tsx:127-129 | The page's `createdAt ?? 0` comparison rates every pair of nearby rows as equal. So every order of them passes for newest first, the oldest first included. |
| LostFoundPage.RecentOrdersByDate | src/app/lost-found/page.tsx:127-129 | With the date read as `createdAt ?? created_at`, the way the page reads it when it shows the date at line 487, "recent" compares nearby rows by their stored creation times. A list it orders is newest first by those times. |
| LostFoundPage.Page.constructor | src/app/lost-found/page.tsx:42-53 | The page starts with an empty query, 1 km both chosen and applied, "recent", no filters applied, no position, the switch off, the "all" tab, no category and no rows. |
| LostFoundPage.Page.QueryParams | src/app/lost-found/page.tsx:87-94 | Latitude and longitude are "0" without a browser position, else the position. The registered address is requested only when the switch is on and an address exists. No type is sent on the "all" tab. The category is passed through. A non-zero applied distance becomes the router's radius. |
| LostFoundPage.Page.QueryEnabled | src/app/lost-found/page.tsx:100 | The nearby query runs exactly when a browser position is known. The registered-address fallback after `??` is never reached. |
| LostFoundPage.Page.RefreshFilteredItems | src/app/lost-found/page.tsx:107-138 | With no rows, the list is unchanged. Otherwise the list is a permutation of the search result, ordered by the chosen sort. "recent" uses the corrected date of the finding below. |
| LostFoundPage.Page.SetSearchQuery | src/app/lost-found/page.tsx:141-143 | Only the query changes. |
| LostFoundPage.Page.SetDistance | src/app/lost-found/page.tsx:146-148 | Only the slider's distance changes; the distance sent is not touched. |
| LostFoundPage.Page.ApplyFilters | src/app/lost-found/page.tsx:151-154 | The slider's distance becomes the one sent, and filters are marked applied. |
| LostFoundPage.Page.ResetFilters | src/app/lost-found/page.tsx:157-162 | Both distances return to 1 km, the category is cleared and filters are no longer applied. |
| LostFoundPage.Page.SelectCategory | src/app/lost-found/page.tsx:291 | "all" clears the category; any other value selects it. |
| LostFoundPage.Page.SetSortOption | src/app/lost-found/page.tsx:408 | Only the sort option changes. |
| LostFoundPage.Page.SetActiveTab | src/app/lost-found/page.tsx:426 | Only the tab changes. |
| LostFoundPage.Page.SetUseRegisteredAddress | src/app/lost-found/page.tsx:357 | Only the switch changes. |
| LostFoundPage.Page.SetLocation | src/app/lost-found/page.tsx:71-84 | The position becomes the callback's, or none on error. |
| LostFoundPage.Page.ReceiveUserAddress | src/app/lost-found/page.tsx:64-68 | A registered address turns the switch on. Its absence leaves the switch as it was. |
| AddressPage.AddressForm.constructor | src/app/account/address/page.tsx:23-51 | The form starts empty: no position, manual entry off, no chosen result, the drawer closed, no save pending and no calls. |
| AddressPage.AddressForm.SubmitBlocked | src/app/account/address/page.tsx:401 | The button is blocked exactly when a save is pending, or when there is no chosen result, no position and no manual entry. A submission blocked for the second reason would send empty coordinates. An enabled button means no save is pending. |
| AddressPage.AddressForm.HandleSubmit | src/app/account/address/page.tsx:197-252 | An empty address stops the submission. So does an empty chosen latitude or longitude. Otherwise exactly one `setAddress` call is made, with the address and the chosen pair, and the save becomes pending. No call is made in any other case, and the pending flag is then unchanged. |
| AddressPage.AddressForm.SaveSettled | src/app/account/address/page.tsx:51-66 | When the answer to the save arrives, success or error, the save is no longer pending. The button is then blocked only when no coordinate source is available. |
| AddressPage.AddressForm.HandleAddressChange | src/app/account/address/page.tsx:255-261 | The address changes and the chosen result is dropped. The next submission then uses the manual fields or the position. |
| AddressPage.AddressForm.SetManualEntry | src/app/account/address/page.tsx:339-345 | Checking drops the chosen result, so the manual fields decide. Unchecking keeps it. |
| AddressPage.AddressForm.EditManualLat | src/app/account/address/page.tsx:357-360 | The latitude changes and the chosen result is dropped. With manual entry on, the new latitude is the one sent. |
| AddressPage.AddressForm.EditManualLong | src/app/account/address/page.tsx:369-372 | The longitude changes and the chosen result is dropped. With manual entry on, the new longitude is the one sent. |
| AddressPage.AddressForm.SelectAddress | src/app/account/address/page.tsx:172-195 | The result's name becomes the address. Its coordinates fill the manual fields and become the chosen pair, which the next submission sends. The drawer closes. |
| AddressPage.AddressForm.LoadRegistered | src/app/account/address/page.tsx:103-114 | The registered row fills the address and the manual fields, and becomes the chosen pair. |
| AddressPage.AddressForm.SetLocation | src/app/account/address/page.tsx:82-100 | The position becomes the callback's, or none on error. |

## Left out

- Haversine trigonometry, the SQL `acos` distance and all floating point: distances come from the `dist` parameter. The metre rounding and the `toFixed` distance labels are presentation.
- The SQL text the nearby query builds: only the predicate the query expresses is modelled. A category whose apostrophes break or change the query text, as noted above, is not modelled.
- Identity-provider lookups: display names are parameters, and only the fallback names are modelled.
- Geocoding (the Nominatim search and reverse lookup on the address form) and browser geolocation: positions arrive through `SetLocation` and `SelectAddress`.
- The address form's verification dialog (`handleStartVerification`): it only forwards a position to `verifyAddress` and shows messages.
- React effect scheduling: `RefreshFilteredItems` and `ReceiveUserAddress` are the effects' bodies, called explicitly rather than on dependency changes.
- The `!!user` condition that gates the registered-address query on the lost-and-found page: `hasUserAddress` is whatever that query returned.
- Realtime subscriptions, the chat UI, the landing and animation components, and the other pages.
- The conversation lookup-or-create routine and the `getConversations`, `getUserPosts` and `deletePost` procedures: they are not in the routers this model covers.
- Concurrency: the read-then-write upserts in `setAddress` and `rateUser` are modelled as sequential steps.
- The insert helper in src/server/queries.ts, which duplicates `post.create`.
- The `protectedProcedure` middleware is not part of this model. Each handler's own check of the caller is modelled. For `sendMessage`, the input schema's check of an empty message comes first.
- Database failures: the routers' `INTERNAL_SERVER_ERROR` paths for an unreachable database are not modelled. The model covers two kinds of failure. Writes fail on values that do not fit their columns. The nearby query's catch is taken for a row whose stored coordinate fails the numeric cast.
- Columns.Fits: PostgreSQL cuts a too-long value to the column's length instead of refusing it when only spaces lie past the limit; the model refuses every too-long value.
- Post.PostTable.Create: how `numeric(10, 6)` parses, rounds and prints a coordinate is the `numeric` parameter. The model does not state that the stored value has six decimals or fewer than five integer digits.
- Chat.Message: the table's random uuid id is a counter.
- Text.StrLe: the database collation that orders categories is replaced by plain lexicographic order on characters.
- Text.Lower: `toLowerCase` is modelled on ASCII letters only.
- Rating.RatingTable.RateUser: the score is an integer. A fractional score passes the input schema but is rejected by the integer column; the model does not represent this.
- Rating.RatingTable.GetUserRatingsDetails: the `cursor` input is not modelled, because the query builder's `findMany` has no cursor option and the value is ignored. The limit is an integer; a fractional `limit` passes the input schema, but the model cannot express it.
- Rating.RatingTable.GetUserRating: the average is the exact mean, not the database's rounded `avg`.
- Post.Latest: among posts with the same newest time, the database may return any one; the model returns the first in table order.
- LostFoundPage.Page.RefreshFilteredItems: dates that do not parse, and so compare as `NaN`, are not modelled. Stability of the sort is not stated, so neither is the order among rows that compare equal.
- Geo.ParseCoord: infinite values (`parseFloat("Infinity")` and the numeric `Infinity`) are not modelled; `parse` and `cast` give a real, `NaN` or nothing.
- Sorting.SortBy: `Array.prototype.sort` is stable, but the model does not prove that its insertion sort is.

## Findings

| source | as written | input that shows it | evidently intended | confidence | as-written member | corrected member |
|---|---|---|---|---|---|---|
| src/app/lost-found/page.tsx:127-129 | The "recent" sort reads `createdAt ?? 0`. The nearby rows come from a raw SQL query (src/server/api/routers/lostfound.ts:91-124), whose key is the column name `created_at` (src/server/db/schema.ts:105). Every row therefore compares as time 0. | Two nearby items created at times 1 and 2, fetched in that order. "recent" leaves the older one first. | Order by `createdAt ?? created_at`, as the page already does when it shows the date (src/app/lost-found/page.tsx:487). | high; not executed | LostFoundPage.RecentAsWrittenIgnoresDates | LostFoundPage.RecentOrdersByDate |
