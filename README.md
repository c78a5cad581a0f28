# J5chat invitation tokens, modelled in Dafny

J5chat hands out invitation tokens. An admin generates them on the
dashboard, copies an invite link, and a newcomer pastes that link on the
invite page, which asks the server to redeem the token before registration.
This project models that lifecycle and proves its properties:

- `token_store.dfy` (module `TokenStore`) models the admin routes of
  `backend/routes/admin.js`. The tokens table is a `map` from identifier to
  record held by the class `Store`. Its methods are `/generate` (a loop
  inserting one row per random draw), `/tokens` (every row, newest first),
  `/use-token` (the guard chain and the mode's update) and `DELETE
  /tokens/:token`. The pure function `Redeem` is the specification of one
  redemption. `WellFormed` is the invariant every written row keeps: a
  shared token's count never passes its limit, its emails stay distinct, and
  it has one log entry per email. A time token is bound to an email exactly
  when it has been used.
- `admin_dashboard.dfy` (module `AdminDashboard`) models the pure parts of the
  dashboard: the Expired/Used/Unused status, the tab-and-search filter, the
  split into time-based and shared tables, the copied invite link and the
  bodies the two generate buttons send.
- `invite_page.dfy` (module `InvitePage`) models the invite page's Continue
  button as a method returning what one press leaves behind: the toast, the
  request sent, the token stored and the redirect. It also holds the link
  round trip and the error-message fallback chain.
- `text.dfy` (module `Text`) holds the JavaScript string built-ins these rely
  on: `indexOf`, `includes`, `replace` with a string pattern, `split`, and
  ASCII case mapping. `includes` and `replace` are each proved equal to a
  reference reading by positions, and `split` is proved inverse to `join`;
  the case mapping is given by its definition only.
- `wrappers.dfy` holds `Option`, for missing lookups and for values where a JSON
  `null` and a left-out field mean the same. `TokenStore.Field` keeps the two
  apart where the route treats them differently.

Times are integer milliseconds passed in as `now`. The four random bytes of
each identifier are passed in as a `Draw`.

The routes do not say what happens when a shared token at its limit is
redeemed again by an email it already holds. One might expect "Email already
used", whatever the count. The code checks the limit first, so that request
gets "Usage limit reached". The model follows the code, and
`TokenStore.SharedLimitTwoScenario` shows that case.

## Model

| member | source | states |
|---|---|---|
| Text.IndexOf | j5chat-pages/src/pages/InvitePage.jsx:61-65 | the index is the first position holding the character, or the length when there is none |
| Text.ContainsIffOccurs | j5chat-pages/src/pages/AdminDashboard.jsx:123 | `includes` holds exactly when the needle occurs at some position of the haystack |
| Text.ContainsEmpty | j5chat-pages/src/pages/AdminDashboard.jsx:123 | every string includes the empty string |
| Text.ReplaceFirst | j5chat-pages/src/pages/InvitePage.jsx:63 | a string without the pattern comes back unchanged |
| Text.ReplaceFirstAt | j5chat-pages/src/pages/InvitePage.jsx:63 | when the pattern first occurs at i, the result is the text before i, the replacement, and the text after the occurrence |
| Text.SplitOn | j5chat-pages/src/pages/InvitePage.jsx:62-64 | splitting gives at least one piece and no piece holds the separator |
| Text.JoinSplit | j5chat-pages/src/pages/InvitePage.jsx:62-64 | joining the pieces with the separator gives the string back |
| Text.SplitWithoutSeparator | j5chat-pages/src/pages/InvitePage.jsx:62-64 | a string without the separator is one piece |
| TokenStore.HexLower | backend/routes/admin.js:22 | hex text has two characters per byte, all lower-case hex digits |
| TokenStore.TokenIdShape | backend/routes/admin.js:22 | every issued identifier is `J5-` followed by eight upper-case hex digits |
| TokenStore.HexLowerInjective | backend/routes/admin.js:22 | the hex text determines the bytes |
| TokenStore.TokenIdInjective | backend/routes/admin.js:22 | two draws give the same identifier only when they are the same bytes |
| TokenStore.NullIsNotLeftOut | backend/routes/admin.js:18-26 | the defaults cover left-out fields only: a left-out count means 1 and a `null` count 0 tokens; a left-out mode means time, while a `null` mode gives a row with neither expiry nor limit |
| TokenStore.EffectiveLimit | backend/routes/admin.js:26 | `usageLimit \|\| 100`: a given non-zero limit is kept, an absent or zero one becomes 100, and the result is never 0 |
| TokenStore.NewRecord | backend/routes/admin.js:24-46 | a new row: expiry two minutes after creation for time tokens only, the effective limit for usage tokens only, count 0, no ip, time, name or email, empty email list and log; the row is well formed |
| TokenStore.Redeem | backend/routes/admin.js:82-120 | a refusal is never "not found"; an accepted redemption keeps identifier, creation time, mode and limit, and happens only when the token is neither expired nor at its limit |
| TokenStore.RedeemKeepsWellFormed | backend/routes/admin.js:86-119 | a successful redemption keeps a row well formed: count within the limit, emails distinct, one log entry per email, time binding consistent |
| TokenStore.ExpiredComesFirst | backend/routes/admin.js:82-84 | an expired token is refused as expired, whatever its limit, mode or binding |
| TokenStore.LimitComesSecond | backend/routes/admin.js:86-88 | a token at its limit that is not expired is refused for the limit, before the mode's own check |
| TokenStore.ExpiryIsStrict | backend/routes/admin.js:82 | a token whose expiry equals now, or that has no expiry, is not refused as expired |
| TokenStore.FalsyLimitNeverReached | backend/routes/admin.js:86 | a row whose limit is absent or zero is never refused for the limit |
| TokenStore.TimeRedemption | backend/routes/admin.js:90-101 | time mode: refused as an email mismatch exactly when another non-empty email is bound; otherwise binds ip, time, email and name, sets expiry to now plus 24 hours and leaves the usage fields alone |
| TokenStore.TimeRebindRefreshesExpiry | backend/routes/admin.js:91-101 | redeeming a redeemed time token again with the same email inside its window succeeds and restarts the 24-hour window |
| TokenStore.UsageRedemption | backend/routes/admin.js:102-119 | usage mode: refused exactly when the email was already used; otherwise exactly one email, one count and one log entry `{email, now, ip}` are added and nothing else changes (in particular `used_at` stays unset) |
| TokenStore.OtherModeAlwaysAccepted | backend/routes/admin.js:82-122 | a row of any mode other than time or usage, a `null` mode included, is accepted on every redemption and left unchanged |
| TokenStore.ReplayKeepsWellFormed | backend/routes/admin.js:86-119 | across any run of redemption attempts a row stays well formed and keeps its mode and limit |
| TokenStore.UsageCountsSuccesses | backend/routes/admin.js:102-119 | for a shared token the count, the email list and the log each grow by exactly the number of successful redemptions |
| TokenStore.SharedTokenSuccessesBounded | backend/routes/admin.js:86-88 | a shared token created with a positive limit is redeemed successfully at most that many times |
| TokenStore.TimeBindingSticks | backend/routes/admin.js:90-93 | once a time token is bound to a non-empty email it stays bound to that email whatever is attempted |
| TokenStore.SharedLimitTwoScenario | backend/routes/admin.js:86-106 | with limit 2, two distinct emails succeed; then both a third email and a repeat of the first are refused for the limit |
| TokenStore.ValidTableInsert | backend/routes/admin.js:28-47 | storing a well-formed row under its own identifier keeps the table valid |
| TokenStore.FreshIdsStep | backend/routes/admin.js:21-51 | a new candidate, not yet in the table, extends the issued list and keeps it fresh and repeat-free |
| TokenStore.GenerateStep | backend/routes/admin.js:21-52 | one more successful insert extends the table by exactly that identifier's new row |
| TokenStore.NewRows | backend/routes/admin.js:21-52 | the rows of one generate request include a row for every issued identifier |
| TokenStore.NewRowsAppend | backend/routes/admin.js:28-51 | issuing one more identifier adds exactly its row |
| TokenStore.IssuedIdsAppend | backend/routes/admin.js:51 | issuing one more identifier adds exactly that identifier to the issued set |
| TokenStore.NewRowsKeys | backend/routes/admin.js:28-51 | a generate request inserts rows under exactly the identifiers it issues |
| TokenStore.NewRowsAt | backend/routes/admin.js:28-47 | with no identifier repeated, each issued identifier's row is the fresh row of its mode created at now |
| TokenStore.InsertionPoint | backend/routes/admin.js:60 | the position after every row at least as new and before the first strictly older one |
| TokenStore.InsertNewestFirst | backend/routes/admin.js:60 | inserting at that position keeps the list newest first and every other row in its place |
| TokenStore.ListStep | backend/routes/admin.js:58-61 | placing one pending row lists one more key, each row once and newest first |
| TokenStore.Store.Generate | backend/routes/admin.js:17-55 | returns `count` entries (default 1, mode default `time`), the i-th named by the i-th draw, fresh and distinct; the table becomes the old table plus their new rows; a colliding identifier makes the insert fail, which ends the request with the earlier rows kept; `issued` is then what was inserted, and no list reaches the client, since `res.json` is never reached |
| TokenStore.Store.List | backend/routes/admin.js:58-66 | every row of the table exactly once, ordered by non-increasing creation time |
| TokenStore.Store.UseToken | backend/routes/admin.js:69-127 | the reply is not found for an unknown identifier and otherwise `Redeem` of the stored row; only an accepted redemption writes, to that row only, and the table stays valid |
| TokenStore.Store.Delete | backend/routes/admin.js:130-138 | answers 200 whether or not the identifier exists; removes that row only and leaves every other row unchanged |
| AdminDashboard.Filter | j5chat-pages/src/pages/AdminDashboard.jsx:113-127 | `filter` keeps exactly the elements that pass, every occurrence of each, and drops every occurrence of the others |
| AdminDashboard.ExpiredTakesPrecedence | j5chat-pages/src/pages/AdminDashboard.jsx:114-120 | a used token past its expiry shows Expired, otherwise Used |
| AdminDashboard.ExpiredAgreesWithServer | j5chat-pages/src/pages/AdminDashboard.jsx:115 | the dashboard shows Expired exactly when the server would refuse the token as expired |
| AdminDashboard.FreshTimeTokenStatus | j5chat-pages/src/pages/AdminDashboard.jsx:114-120 | a fresh time token shows Unused for its two-minute claim window and Expired after |
| AdminDashboard.RedeemedTimeTokenStatus | j5chat-pages/src/pages/AdminDashboard.jsx:114-120 | a redeemed time token shows Used for 24 hours after redemption and Expired after |
| AdminDashboard.SharedTokenAlwaysUnused | j5chat-pages/src/pages/AdminDashboard.jsx:114-120 | a well-formed shared token always shows Unused, however often it was redeemed |
| AdminDashboard.TabTest | j5chat-pages/src/pages/AdminDashboard.jsx:122 | the All tab passes every status; any other tab passes exactly its own status |
| AdminDashboard.EmptySearchMatchesAll | j5chat-pages/src/pages/AdminDashboard.jsx:123 | an empty search matches every token |
| AdminDashboard.SearchIgnoresCase | j5chat-pages/src/pages/AdminDashboard.jsx:123 | the search gives the same answer for a search text and its upper-case form |
| AdminDashboard.FilterIsSubsequence | j5chat-pages/src/pages/AdminDashboard.jsx:113-124 | filtering keeps order: the result is a subsequence of the input |
| AdminDashboard.FilterKeepsAll | j5chat-pages/src/pages/AdminDashboard.jsx:113-124 | when every element passes, the list comes back unchanged |
| AdminDashboard.FilterOfFilter | j5chat-pages/src/pages/AdminDashboard.jsx:126 | filtering twice is filtering once by both tests |
| AdminDashboard.FilterSplit | j5chat-pages/src/pages/AdminDashboard.jsx:126-127 | two exclusive tests split the elements passing either, every count preserved |
| AdminDashboard.FilteredTokensSpec | j5chat-pages/src/pages/AdminDashboard.jsx:113-124 | `filtered_tokens` is an order-preserving subsequence holding exactly the tokens that pass the tab test and the search |
| AdminDashboard.AllTabEmptySearchShowsAll | j5chat-pages/src/pages/AdminDashboard.jsx:113-124 | with the All tab and an empty search every token is listed, in order |
| AdminDashboard.ModePartition | j5chat-pages/src/pages/AdminDashboard.jsx:126-127 | the time and shared tables keep the filtered order, share no token, and together hold each filtered token of mode time or usage once |
| AdminDashboard.TimeBasedSpec | j5chat-pages/src/pages/AdminDashboard.jsx:113-126 | the time table is the tokens that pass the filter and have mode time, in order |
| AdminDashboard.TimeTokenRequestCreates | j5chat-pages/src/pages/AdminDashboard.jsx:56-58 | "Generate 1 Token" asks for one time token, which is open for two minutes |
| AdminDashboard.SharedTokenLimitIgnored | j5chat-pages/src/pages/AdminDashboard.jsx:66-72 | as written, "Generate Shared Token" creates one token whose limit is 100 whatever limit the admin typed |
| AdminDashboard.SharedTokenLimitHonoured | j5chat-pages/src/pages/AdminDashboard.jsx:66-72 | with the body key corrected, the typed non-zero limit becomes the shared token's limit |
| InvitePage.HandleContinue | j5chat-pages/src/pages/InvitePage.jsx:48-110 | an empty link asks for one; a link that is not a URL shows the generic error; a link without a token shows "Token missing from link."; only a link with a token sends a request, with that token and the caller's ip, name and email; the token is stored and the page redirects to the registration link exactly when the server accepts, with a success toast; a failure shows the message chosen from the server's answer |
| InvitePage.LinkIsUrl | j5chat-pages/src/pages/InvitePage.jsx:61 | the dashboard's invite link parses as a URL |
| InvitePage.LinkHash | j5chat-pages/src/pages/AdminDashboard.jsx:94 | the link the copy button builds has as its hash `#/register?` followed by `registration_token=` and the token |
| InvitePage.QueryHoldsToken | j5chat-pages/src/pages/InvitePage.jsx:62-65 | the query `registration_token=<t>` yields t for a token without `&` |
| InvitePage.LinkRoundTrip | j5chat-pages/src/pages/InvitePage.jsx:61-65 | the modelled link reading gives back the token the invite link was built from, for a non-empty token without `&`, `+` or `%`; characters the real URL parser removes or encodes are outside the model (see Left out) |
| InvitePage.IssuedTokenRoundTrip | j5chat-pages/src/pages/InvitePage.jsx:61-93 | every identifier the server issues survives the trip through the copied link, and the redirect is that same link |
| InvitePage.ServerMessageShown | j5chat-pages/src/pages/InvitePage.jsx:98-99 | the server's own message is shown whenever the answer carries one |
| InvitePage.StatusFallback | j5chat-pages/src/pages/InvitePage.jsx:98-103 | without a message the status fallback names not-found, expired and mismatch right, but calls a reached limit "Token expired" and a repeated email "Email mismatch" |
| InvitePage.GenericMessage | j5chat-pages/src/pages/InvitePage.jsx:98-103 | a failure without an HTTP answer, or with an unlisted status and no message, shows "Invalid or already used token." |

## Left out

- HTTP and Express plumbing, the PostgreSQL pool and the 500 answers for database errors are not modelled. A handler's result is a value such as `Reply`, not a response written to a socket.
- Concurrency is not modelled. Each `/use-token` call is one atomic step, so the race between its SELECT and its UPDATE is not captured.
- The clock and `crypto.randomBytes` are parameters. One request reads the clock once, as `now`.
- JSON serialisation of `usage_logs` and ISO date strings are not modelled. Log entries are typed values and times are integers.
- Admin login, `backend/routes/onboard.js`, the onboarding page, the other static pages and every piece of rendering are not part of this model. That covers toasts, modals, the clipboard, `setTimeout`, `localStorage` and navigation beyond the values `HandleContinue` returns.
- The table schema is not part of the source. The model assumes `token` is the table's key, so an identifier collision makes the insert fail and ends `/generate`. The rows inserted before the collision stay.
- A `mode` other than `time` or `usage`, including `null`, is modelled as `Other`. Such a token has no expiry and no limit, and redeeming it succeeds without changing the row.
- Request fields `ip`, `fullName` and `email` are strings. A JSON `null` email is not modelled. A bound email of `""` counts as no email, because JavaScript treats `""` as false.
- `count` and `usageLimit` are integers, left out, or `null`. Non-integer, string and NaN values, and JavaScript's coercion of them, are not modelled.
- InvitePage.ParsesAsUrl: `new URL` is read as "the link starts with a scheme and a colon". Host validation, whitespace trimming and other URL errors are not modelled.
- InvitePage.LinkRoundTrip: the modelled `Hash` keeps every character of the link. The real URL parser deletes tabs and line breaks, trims leading and trailing spaces and control characters, and percent-encodes spaces, quotes, `<`, `>`, backquotes and non-ASCII characters in the fragment. The round trip is therefore promised for the real parser only for tokens without such characters. Every identifier the server issues is `J5-` and hex digits, so `IssuedTokenRoundTrip` is not affected.
- TokenStore.Store.Generate: a failed insert is modelled as `aborted`. The real request then fails without an answer body, so the partial `issued` list is internal to the model.
- InvitePage.QueryGet: `URLSearchParams` is read as a split on `&` and `=`. Percent-decoding, `+` as a space and the dropping of empty pairs are not modelled, so the round trip excludes tokens holding `&`, `+` or `%`.
- Text.ToLower: only ASCII letters change case. Unicode case mapping is not modelled. Token identifiers are ASCII.
- The dashboard's detail view and its refetch after each action are not modelled. Refetching lists the table again, which `Store.List` models.

## Findings

| source | as written | input that shows it | evidently intended | confidence | as-written member | corrected member |
|---|---|---|---|---|---|---|
| j5chat-pages/src/pages/AdminDashboard.jsx:68-72 | "Generate Shared Token" sends the limit under the key `usage_limit`, but `/generate` reads `usageLimit` (backend/routes/admin.js:18), so the route sees no limit and uses 100 | the admin types 5 in the limit field and presses "Generate Shared Token"; the new token has limit 100 | the typed limit becomes the token's limit | high; not executed | AdminDashboard.SharedTokenLimitIgnored | AdminDashboard.SharedTokenLimitHonoured |
