# Tweet-window logic of a #IoT search proxy, in Dafny

This project models the core of `helpers/twitter.js` in a small web service.
The service reports how many tweets about #IoT, and how many distinct authors,
appeared in the last hour. The core has three parts:

- **Window filter** (`filterTweetsCount`). It keeps the tweets whose
  `created_at` lies in the inclusive window `[startHour, currentHour]`,
  compared minute by minute, and keeps their order. Module `WindowFilter`
  models it as a function over `seq<Tweet>`.
- **Distinct authors** (`filterTweetsUsers`). It filters first. Then it
  inserts each tweet's `user.id` into the dictionary `userObj` if the id is
  not there yet, and returns the dictionary's keys. Module `Users` models it
  as a method whose loop updates a `map` and the key order. The method is
  proved equal to the specification function `Distinct`.
- **Paginated fetch** (`getTweetsData`). It asks the token endpoint only when
  the module-level `token` is unset. It fetches the first page, then keeps
  following `search_metadata.next_results` while a remembered "last item"
  date is after `startHour`. Module `Fetcher` models it as the class
  `TwitterClient`, which holds `token` as a field. Its method loops with the
  source's variables (`tweets`, `lastItemDate`, `nextPage`). It is proved
  equal to the specification functions `PageLoop` and `TweetsData`, and the
  lemmas about their results are proved next to them.

Timestamps are whole seconds since the epoch, in UTC (`Tweets.Timestamp`).
Comparing two timestamps "at minute granularity" means comparing `t / 60`.
Dafny's division by a positive constant rounds down, which is what
truncating a moment to the start of its minute does.

The upstream API is the value `Upstream.Service`. It holds the token
endpoint's reply and a total function from a search request (its bearer
token and its path) to a reply (a status code and a parsed page). A status
other than 200 rejects with that status (`Upstream.Receive`). A page's
absent `next_results` is the empty cursor. So an absent cursor and an empty
cursor both produce the first-page query (`Upstream.SearchPathFirstPage`).

The loop test lags one page behind, and the model keeps that. Each
iteration first re-reads the date of the last tweet accumulated *so far*,
and only then fetches and appends the next page. The test before page
`k + 1` (for `k >= 2`) therefore reads the date reached after page `k - 1`.
Two consequences are proved:

- When the first page's last tweet is after the cutoff, the loop fetches
  every page up to the first one after which the last accumulated tweet is
  not after the cutoff, and then one page more (`FetchStopsOnePageLate`).
- A call never returns after exactly two searches (`NeverTwoSearches`).

### Where the code does not do what its comments suggest

The comment above the loop reads as "stop once the tweets reach back to the
cutoff". The model follows the code, which differs from that reading in
three ways:

- One might expect a first page P1 whose oldest tweet is after the cutoff,
  followed by a page P2 that reaches past it, to take exactly two requests.
  The code makes three and returns P1, P2 and a third page
  (`Fetcher.TwoPagesFetchThree`).
- One might expect the loop to look at the oldest tweet of the page it just
  fetched. The code looks at the last element of the *accumulated* array,
  which differs when a page comes back empty.
- One might expect the window to be `start <= timestamp <= end` in seconds.
  The code compares minutes, so its window also takes in the rest of the
  end minute and the whole start minute (`Tweets.InWindowSeconds`,
  `Tweets.InWindowMinuteGranularity`).

A first page without `next_results` sends the next request back to the
first-page query. With the same reply each time, a first page newer than
the cutoff then makes the source loop forever; in the model the page bound
ends it (`Fetcher.MissingCursorNeverReturns`).

## Model

| member | source | states |
|---|---|---|
| `Tweets.Minute` | helpers/twitter.js:92-94 | the minute of a timestamp is the one whose 60 seconds contain it (rounded down, also for negative times) |
| `Tweets.InWindow` | helpers/twitter.js:92-94 | reference definition of `isBetween(start, end, 'minutes', '[]')`: the minute of the timestamp lies between the two end minutes, inclusive; what that means in seconds is stated by `Tweets.InWindowSeconds` and `Tweets.InWindowCoversExactRange` |
| `Tweets.InWindowSeconds` | helpers/twitter.js:94 | `isBetween(start, end, 'minutes', '[]')` holds exactly from the first second of the start minute to the last second of the end minute |
| `Tweets.InWindowCoversExactRange` | helpers/twitter.js:94 | every timestamp between the two ends, inclusive, is in the window |
| `Tweets.InWindowMinuteGranularity` | helpers/twitter.js:94 | a tweet 35 s after the end, in the same minute, is kept; one in the next minute is not |
| `WindowFilter.FilterTweetsCount` | helpers/twitter.js:87-98 | the result is no longer than the input and empty for an empty input; a tweet is in the result if and only if it is in the input and inside the window |
| `WindowFilter.FilterIsSubsequence` | helpers/twitter.js:91-97 | the filter keeps the original order: its result is a subsequence of the input |
| `WindowFilter.FilterMultiplicity` | helpers/twitter.js:91-97 | every in-window tweet keeps all its copies, and every other tweet keeps none |
| `WindowFilter.FilterConcat` | helpers/twitter.js:91-97 | filtering pages joined together equals joining the filtered pages |
| `WindowFilter.FilterIdempotent` | helpers/twitter.js:91-97 | filtering twice with the same window is filtering once |
| `WindowFilter.FilterKeepsAllInWindow` | helpers/twitter.js:91-97 | when every tweet is inside the window, the whole input is returned unchanged |
| `Users.Authors` | helpers/twitter.js:114-115 | reference definition of the `user.id` of each tweet in order; `Users.AuthorsMembers` states which ids it holds |
| `Users.Distinct` | helpers/twitter.js:111-119 | the keys of a dictionary filled by insert-if-absent have no duplicates, are exactly the inserted values, and are no more than them |
| `Users.FilterTweetsUsers` | helpers/twitter.js:109-120 | the returned ids are the first-occurrence list of the filtered tweets' authors: no duplicates, an id is returned if and only if some filtered tweet has it as `user.id`, and there are no more ids than filtered tweets |
| `Users.AuthorsMembers` | helpers/twitter.js:114-115 | an id is among the authors exactly when some tweet carries it |
| `Users.DistinctCardinality` | helpers/twitter.js:119 | the number of keys returned is the number of distinct author ids |
| `Users.DistinctIsSubsequence` | helpers/twitter.js:113-119 | the keys are a subsequence of the authors |
| `Users.DistinctPrefixes` | helpers/twitter.js:113-119 | the keys after any prefix of the insertions are a prefix of the final keys, so each key keeps the place of its first occurrence |
| `Users.DistinctFixedPoint` | helpers/twitter.js:113-119 | the keys equal the input exactly when the input has no duplicates |
| `Users.ExampleWindowKeepsAll` | helpers/twitter.js:87-98 | 10:05, 10:30 and 10:30 posts with window 10:00-10:30 are all kept |
| `Users.DistinctExample` | helpers/twitter.js:113-119 | authors a, b, a give the keys a, b |
| `Users.ExampleWindowAuthors` | helpers/twitter.js:109-120 | the example posts have the two authors a and b |
| `Upstream.Receive` | helpers/twitter.js:16-28 | a reply resolves with its body if and only if its status is 200, and otherwise rejects with that status |
| `Upstream.SearchPath` | helpers/twitter.js:62-68 | reference definition of the requested path: the search endpoint followed by the cursor, or by the fixed first-page query when the cursor is falsy; `Upstream.SearchPathFirstPage` and `Upstream.SearchPathInjective` state which cursors give the same path |
| `Upstream.SearchPathFirstPage` | helpers/twitter.js:62-64 | a cursor asks for the first page again if and only if it is empty or is the first-page query |
| `Upstream.SearchPathInjective` | helpers/twitter.js:64-68 | distinct non-empty cursors request distinct paths |
| `Fetcher.PageLoop` | helpers/twitter.js:144-152 | reference definition of the `while` loop, with the date re-read before each append; its properties are stated by `Fetcher.PageLoopShape`, `Fetcher.PageLoopFetches`, `Fetcher.PageLoopStops`, `Fetcher.PageLoopRejected` and `Fetcher.PageLoopRejectsAtLast` |
| `Fetcher.NextRequest` | helpers/twitter.js:148 | reference definition of one iteration's request: the page the current cursor names, signed with the token |
| `Fetcher.NextState` | helpers/twitter.js:145-151 | reference definition of one iteration's new loop variables: the tweets with the page appended, the date of the last tweet from before the append, and the page's `next_results` |
| `Fetcher.PageLoopShape` | helpers/twitter.js:144-152 | the loop only ever appends to the accumulated tweets; it never yields the empty-first-page error; it makes at most `fuel` requests, exactly `fuel` when the bound stops it; and every request carries the same bearer token |
| `Fetcher.PageLoopFetches` | helpers/twitter.js:144-152 | a loop that returns has had every request accepted, followed `next_results` from page to page, and returns its starting tweets followed by the fetched pages in order |
| `Fetcher.PageLoopStops` | helpers/twitter.js:144-146 | a loop that returns stopped at the first failing test, and each test read the date from before the latest append |
| `Fetcher.PageLoopRejected` | helpers/twitter.js:148 | a loop rejected with a status stopped at a request whose reply had that (non-200) status |
| `Fetcher.PageLoopRejectsAtLast` | helpers/twitter.js:144-151 | every loop request but the last got status 200, and a last reply with another status makes the loop reject with exactly that status |
| `Fetcher.PageLoopFirstRequest` | helpers/twitter.js:148 | the first request of the loop, if any, asks for the page its starting cursor names |
| `Fetcher.StuckOnFirstPage` | helpers/twitter.js:144-151 | with an empty cursor and a first-page reply that is accepted, has no `next_results` and ends after the cutoff, the loop fetches that page again and again and only the page bound ends it |
| `Fetcher.ConsStops` | helpers/twitter.js:145-151 | one more iteration in front of a stopped loop keeps the lagging stop condition |
| `Fetcher.TweetsData` | helpers/twitter.js:130-154 | the token endpoint is asked if and only if no token is held; a held token is kept; a token fetched with status 200 is the endpoint's reply, and it is the one stored; the call has no token exactly when the token request was rejected, and then there is no search and no result; all searches carry the token; at most `1 + maxPages` searches happen, exactly that many when the bound stops the loop |
| `Fetcher.FetchFollowsPages` | helpers/twitter.js:135-153 | a call that returns made at least one search, starting at the first page and following each reply's `next_results`, all with status 200, and returns the pages joined in fetch order |
| `Fetcher.FetchStopsOnePageLate` | helpers/twitter.js:138-152 | one search exactly when the first page's last tweet is not after the cutoff; otherwise at least three searches, with every test passing until the page after which the last accumulated tweet is not after the cutoff, and one more page fetched after it |
| `Fetcher.NeverTwoSearches` | helpers/twitter.js:144-152 | a call that returns never made exactly two searches |
| `Fetcher.MissingCursorRefetchesFirstPage` | helpers/twitter.js:62-64 | in every call that searches at least twice after a first page without `next_results`, the second request asks for the first page again |
| `Fetcher.MissingCursorNeverReturns` | helpers/twitter.js:135-151 | a call whose first page is accepted, lacks `next_results` and ends after the cutoff never returns its tweets: it runs until the page bound, which stands in for the source's endless loop |
| `Fetcher.OnePageSuffices` | helpers/twitter.js:135-144 | a non-empty first page whose last tweet is not after the cutoff is returned as is, after one search |
| `Fetcher.TwoPagesFetchThree` | helpers/twitter.js:144-152 | a newer first page and a second page that reaches past the cutoff give three searches and all three pages |
| `Fetcher.TokenRejected` | helpers/twitter.js:131-133 | a rejected token request ends the call with its status, before any search, with no token held |
| `Fetcher.RejectionCarriesStatus` | helpers/twitter.js:131-151 | a call rejects only with a non-200 status that the token reply (before any search) or the last search reply returned |
| `Fetcher.SearchRejectionPropagates` | helpers/twitter.js:135-151 | every search of a call but the last was accepted, and a last search answered with another status makes the call reject with exactly that status; with `Fetcher.RejectionCarriesStatus` this is an if-and-only-if |
| `Fetcher.EmptyFirstPage` | helpers/twitter.js:138-139 | the call fails for want of a last item exactly when the first page comes back with status 200 and no statuses |
| `Fetcher.TwitterClient.constructor` | helpers/twitter.js:4 | a fresh module holds no token and has made no requests |
| `Fetcher.TwitterClient.GetToken` | helpers/twitter.js:40-53 | one token request, resolving or rejecting as its reply's status says |
| `Fetcher.TwitterClient.GetTweets` | helpers/twitter.js:62-77 | one search request for the path the cursor names, appended to the request log |
| `Fetcher.TwitterClient.GetTweetsData` | helpers/twitter.js:130-154 | returns, sets `token` to, counts token requests and appends search requests exactly as `TweetsData` says, starting from the token held before the call |
| `Fetcher.TwitterClient.FollowPages` | helpers/twitter.js:144-153 | the `while` loop returns and logs exactly what `PageLoop` says from the first page's state |

## Left out

- `promisifyHttpsRequest`, `https.request`, assembling the body from chunks, and `JSON.parse` (helpers/twitter.js:13-34). These are network I/O. Each request is one call to the `Service` value, which gives back a status code and an already-parsed body. A body that fails to parse, or one without `statuses` or `search_metadata`, is not modelled. `JSON.parse` reads a `user.id` above 2^53 as a rounded double, so two authors can share one key in `userObj` and the source can count fewer distinct authors than `Users.DistinctCardinality` gives; ids are exact integers here. A request that never settles hangs the call, since there is no timeout; the `Service` value always answers.
- Base64 encoding of the credentials and the request headers in `getToken` and `getTweets` (helpers/twitter.js:40-53, 66-74). These are library calls with no logic of their own. The token endpoint's reply is a field of `Service`, and a search request records the token it carries.
- Parsing and formatting dates with `moment` and `Date`. Timestamps are already-parsed whole seconds, so millisecond precision is not modelled.
- `routes/index.js` and `app.js`. They compute now minus one hour, call the helpers, and wrap `result.length` in JSON.
- Concurrency. Two requests that both start without a token race on the module-level `token` (helpers/twitter.js:4, 131-133). Only one call at a time is modelled.
- Fetcher.TwitterClient.GetTweetsData: the source loop has no bound and runs forever if the upstream never returns a page old enough. The model takes a bound `maxPages` on the pages requested after the first one, and ends with `PageLimit` when the loop would go past it. Nothing is claimed about termination of the unbounded original.
- Users.FilterTweetsUsers: JavaScript turns the ids into strings and lists integer-like keys in ascending order. The model keeps ids as integers in insertion order. This is the same as the source when ids are not array-index-like.
- Users.Distinct: the same number-to-string conversion of keys is not modelled.
