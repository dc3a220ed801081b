# Verification of the enterprise template's stateful core

A Dafny model of the parts of the template whose correctness is hard to see from one
function: refresh-token rotation under interleaved requests, the Postgres rate limiter,
the percent codec with the path sanitiser and cookies built on it, the migration runner,
the gateway's token cache, the stream buffer of the generated client, the CSRF double
submit, and the workflow pin lint. `dafny verify dfyconfig.toml` takes the whole directory.

## How it is organised

| file | models |
|---|---|
| `Options`, `Text` | an option type; JavaScript strings as UTF-16 code units, `split`, `join`, `indexOf`, `trim` |
| `Utf8`, `PercentCodec` | RFC 3629 and `encodeURIComponent`/`decodeURIComponent` (section 19.2.6 of ECMA-262), used by all modules below that touch text from the network |
| `PathSanitizer` | the proxy's five-round sanitiser |
| `UrlPath`, `GatewayPath` | how a URL parser reads a path (section 4.4 of the URL Standard), and the way of a path from the generated client through the proxy to the private API |
| `Cookies`, `SetCookies` | the Cookie parser against a printed Cookie header, the Set-Cookie printer against a browser (sections 5.2 to 5.4 of RFC 6265) |
| `Csrf`, `AuthStore`, `LogoutProgress` | the middleware's check, and runs of one browser's store, jar and logouts against it |
| `RateLimit`, `RateBound` | the one-row fixed-window counter against a limiter that keeps the whole log, and how much passes in any interval |
| `JwtExpiry`, `AuthTables`, `AuthHandlers` | the two expiries of a refresh token, the SQL statements, the handlers run on their own |
| `Rotation`, `RotationRuns` | login, refresh, logout and revoke-all in any interleaving, one statement a step |
| `RotationOverlap`, `RotationRace` | when two refreshes of one token are both answered |
| `RotationSerial`, `RotationChains` | one request at a time: the balance, and the chain of rotations of each login |
| `RotationLogout` | what a logout or a revoke-all leaves behind in any interleaving |
| `RotationProgress` | that logins and refreshes go through, whose account a login changes, and when a token runs out |
| `Migrations` | one runner, and any number of concurrent, crashing runners |
| `TokenCache` | single flight over `cached`/`inflight`, with resets |
| `StreamBuffer` | the message buffer and wake-up handlers with any number of consumers |
| `WorkflowPins` | the lint's regular expressions with a matching semantics, and what a clean exit means |

Code that updates objects is a class whose methods are proved against functions on values;
the theorems about whole runs are lemmas about those same functions. In the interleaved
models a step is what the source does between two awaits, or one SQL statement, and the
lemmas quantify over every sequence of enabled steps. Errors and thrown exceptions are
`None` or an error answer; clocks, random draws, network answers and crashes are inputs.

## What the proofs say about the code

Where the code and its comments or the obvious expectation part ways, the code is modelled
and the exact condition is proved:

- `refresh-token-model.ts` says rotation links a token to its replacement. The handlers never
  pass a replacement, so `replaced_by` stays null in every run (`RotationRuns.RevocationIsFinal`).
- A refresh token is not single-use: two overlapping refreshes of one token can both be
  answered (`RotationOverlap.OverlappingRefreshesBothSucceed`). Once one has been answered
  another can be if and only if it had looked the token up before
  (`RotationRace.SecondRefreshIsAnswered`), and two that have both looked it up can both be
  (`RotationRace.BothCanBeAnswered`). Unrevoked rows obey the balance of
  `RotationRuns.Conservation`; when requests do not overlap, the chain of each login has at most
  one unrevoked token (`RotationChains.ChainsAreLogins`, `RotationChains.OneTokenPerLogin`).
- The limiter lets up to `2 * limit - 1` counted requests through in sixty seconds, and that
  many can pass within a microsecond (`RateBound.AnyMinute`, `RateBound.BoundIsReached`). A
  counter at the largest INTEGER makes the statement fail, and the limiter then admits
  (`RateBound.FullCounterAdmits`).
- Sanitising is idempotent exactly when five decodes removed every "%"
  (`PathSanitizer.IdempotentIffFiveRoundsSuffice`). A path that shows a ".." segment after any
  of the first five decodes is refused (`PathSanitizer.FiveLayersAreRefused`); behind a sixth
  layer of escapes it is accepted (`PathSanitizer.SixLayersAreNotIdempotent`).
- The proxy puts the decoded path into a URL again. A "?" or "#" in a segment then ends the
  path, a backslash separates segments, "%2e" is a dot, and a space at the end of the URL is
  dropped. The sanitiser looks for none of these, so an accepted path is not always fetched
  under the base URL: it is, for every base, if and only if no ".." that the parser sees comes
  when none of the path's own segments is left to pop (`UrlPath.StaysUnderEveryBase`). Without
  "%", backslash, and anything that cuts the path short it always is
  (`GatewayPath.SanitizedPathStays`). Inputs for which it is not: the segments "..?", "..#" and
  ".. " (`GatewayPath.CutSegmentLeavesBase`), every segment of ".." and a backslash
  (`GatewayPath.BackslashLeavesBase`), ".." under six layers (`GatewayPath.SixLayersLeaveBase`).
- Short of that, the segment "a?b" is read as "/a" (`GatewayPath.QueryMarkCutsPath`). The exact
  condition under which the private API reads the path the caller means is
  `GatewayPath.ClientToPrivateApi`. A segment with a literal "%" never arrives
  (`GatewayPath.DelimitersDoNotArrive`), nor does a "." or ".." segment, which URL parsers
  take for a step in the tree (`GatewayPath.DotsDoNotArrive`).
- `parseCookies` writes into an object literal, so a cookie named `__proto__` is lost; every
  other map of printable cookies reads back (`Cookies.MapRoundTrip`).
- A logout begun after the response to another and before its `finally` block still holds
  the token, but the browser has dropped the cookie: it is refused as missing
  (`AuthStore.OverlappingLogoutIsRefused`). In every interleaving a logout passes if and only if
  it goes out with a token held and the cookie live, and it is never a mismatch
  (`AuthStore.EveryLogoutIsJudged`).
- `resetTokenCache` during a request lets a second one start beside it
  (`TokenCache.ResetBreaksSingleFlight`); the number of requests stays within one plus the resets.
- Migrations run in code unit order. An upgraded database has run them in the order of a fresh
  one if and only if every new name sorts after every old one
  (`Migrations.UpgradeOrderIsFresh`), which a tenth file, named `10_...`, does not
  (`Migrations.TenthFileRunsOutOfOrder`).
- The lint flags a reference without "@" only for "${{" (`WorkflowPins.NoAtIsNotFlagged`):
  `uses: actions/checkout` passes (`WorkflowPins.UnreferencedActionPasses`). The rule for every
  `uses:` line is `WorkflowPins.UsesLineIsFlagged`.

## Model

| member | source | states |
|---|---|---|
| Utf8.EncodeThenDecode | apps/api/lib/cookies.ts:39 | the UTF-8 form of every scalar value decodes to it, and its first byte tells its length |
| Utf8.DecodeThenEncode | apps/api/lib/cookies.ts:29 | every accepted byte sequence is the one encoding of what it decodes to: no overlong forms, no surrogates |
| Utf8.PrefixFree | apps/api/lib/csrf.ts:31-32 | a byte string has at most one first scalar value |
| PercentCodec.RoundTrip | apps/api/lib/cookies.ts:29-39 | `encodeURIComponent` fails on exactly the strings with an unpaired surrogate, and decoding gives every other string back |
| PercentCodec.EncodeAlphabet | apps/api/lib/cookies.ts:39 | encoded text holds only unreserved characters and "%", so none of ";", "=", "/" or a space |
| PercentCodec.EncodeFixes | apps/api/lib/cookies.ts:39 | a text is encoded as itself if and only if it has only letters, digits and "-_.!~*'()" |
| PercentCodec.EscapeMeans | apps/api/lib/cookies.ts:39 | an escape is "%" and the byte's two hex digits with capital letters |
| PercentCodec.DecodeShrinks | apps/api/gateway/path.ts:27-32 | a decode changes a string exactly when it holds a "%", and then strictly shortens it |
| PercentCodec.DecodeConcat | apps/api/gateway/path.ts:27 | decoding works piece by piece after any part that decodes on its own |
| PercentCodec.EscapesDecode | apps/api/lib/cookies.ts:29 | escaped bytes, digits in either case, decode to a text if and only if they are its UTF-8 form |
| PercentCodec.BarePercentThrows | apps/api/gateway/path.ts:26-30 | a "%" that two hex digits do not follow makes decoding fail, wherever it stands |
| PercentCodec.BytesInjective | apps/api/lib/csrf.ts:30-34 | well-formed strings with the same UTF-8 bytes are equal |
| PathSanitizer.HasControlCharacter | apps/api/gateway/path.ts:9-15 | the scan finds a control character exactly when one is there |
| PathSanitizer.SanitizePath | apps/api/gateway/path.ts:22-38 | the loop with its early break and refusals computes the five-round sanitisation |
| PathSanitizer.AcceptedPathIsSafe | apps/api/gateway/path.ts:34-37 | every accepted path has one leading slash, no empty segment, no "..", no control character |
| PathSanitizer.RefusalMeans | apps/api/gateway/path.ts:24-36 | a path is refused if and only if one of five decodes fails or they leave a control character (below 0x20, or 0x7F) or a ".." segment |
| PathSanitizer.AcceptedSegments | apps/api/gateway/path.ts:35-37 | an accepted path has the non-empty segments of the five times decoded path, in order, and no others |
| PathSanitizer.SlashesAreSqueezed | apps/api/gateway/path.ts:37 | two slashes count as one, and at the ends they count for nothing |
| PathSanitizer.RoundsShrink | apps/api/gateway/path.ts:24-33 | any number of rounds shortens a path with a "%", leaves any other alone and keeps a leading slash |
| PathSanitizer.FixedPoints | apps/api/gateway/path.ts:22-38 | a path is returned unchanged if and only if it is safe and "%"-free |
| PathSanitizer.IdempotentIffFiveRoundsSuffice | apps/api/gateway/path.ts:24-37 | sanitising an accepted path again changes nothing if and only if five rounds removed every "%" |
| PathSanitizer.EncodingHidesNothing | apps/api/gateway/path.ts:17-33 | a path that up to five decodes turn into a "%"-free one gets the verdict of that one, however it was escaped |
| PathSanitizer.FiveLayersAreRefused | apps/api/gateway/path.ts:17-36 | every raw path that at most five decodes turn into one with a ".." segment is refused, whatever else it holds |
| PathSanitizer.SixLayersAreNotIdempotent | apps/api/gateway/path.ts:24 | "/%2e%2e" under five or more further layers is accepted, sanitising the result changes it, and what is left decodes to ".." in the end |
| PercentCodec.DecodeAtSlash | apps/api/gateway/path.ts:27-35 | what decodes as a whole decodes on both sides of each slash: no escape reaches across one |
| UrlPath.PathOfUncut | apps/api/gateway/proxy.ts:71 | a URL parser sees the whole of a path exactly when it has no "?" or "#" and does not end the URL in a space, and otherwise less |
| UrlPath.CollapseKeeps | apps/api/gateway/proxy.ts:71 | what a path adds to a base comes from its own segments, without dot segments, and is no longer than they are |
| UrlPath.DotsCollapse | apps/api/gateway/proxy.ts:71 | a "." goes away, a ".." takes the segment before it along, and at the end either leaves an empty last segment |
| UrlPath.StaysUnderEveryBase | apps/api/gateway/proxy.ts:71 | a path is fetched under every base URL if and only if it never climbs: no ".." as the parser sees it comes with none of the path's own segments left |
| UrlPath.PlainPathIsReadBack | apps/api/gateway/proxy.ts:83 | the parser's percent-encoding of a "%"-free path decodes to that path |
| UrlPath.WeightOfPathText | apps/api/gateway/proxy.ts:83 | no percent-encoded path decodes to more text than went into it |
| GatewayPath.RequestIsUnchanged | apps/web/src/lib/encore-client.ts:208-226 | the URL parsers of client and server leave the encoded path alone unless a segment is "." or ".." |
| GatewayPath.DotsMean | apps/web/src/lib/encore-client.ts:208-226 | what the parser takes for "." and ".." are exactly the texts that decode to them |
| GatewayPath.PrefixIsCut | apps/api/gateway/proxy.ts:50-54 | the handler cuts "/api/v1/data" off, and nothing left is "/" |
| GatewayPath.ClientToGateway | apps/api/gateway/proxy.ts:50-54 | the sanitiser returns the intended path if and only if it is safe and "%"-free, for every list of well-formed segments without "." and ".." |
| GatewayPath.ClientToPrivateApi | apps/api/gateway/proxy.ts:50-83 | for every list of well-formed segments, base URL and query: the private API reads the intended path if and only if it is safe and free of "%", "?", "#", backslashes and "." segments and does not end the URL in a space |
| GatewayPath.ForwardsDecodedPath | apps/api/gateway/proxy.ts:50-54 | any raw path that decodes to a rooted path is forwarded as that path if and only if it is safe and "%"-free |
| GatewayPath.PlainSegmentsArrive | apps/web/src/lib/encore-client.ts:212-214 | plain segments are read by the private API, and splitting what it reads gives the list back |
| GatewayPath.DelimitersDoNotArrive | apps/api/gateway/proxy.ts:71 | a list with a "%", "?", "#" or backslash in some segment is never read as intended |
| GatewayPath.DotsDoNotArrive | apps/api/gateway/proxy.ts:50 | nor is one with a "." or ".." segment: the private API reads less than the caller means |
| GatewayPath.SanitizedPathStays | apps/api/gateway/proxy.ts:54-71 | for every raw path: a sanitised path without "%" and backslash that nothing cuts short is fetched under every base URL |
| GatewayPath.CutSegmentLeavesBase | apps/api/gateway/proxy.ts:71 | the segments "..?", "..#" and, at the end of a URL, ".. " are accepted and climb |
| GatewayPath.BackslashLeavesBase | apps/api/gateway/proxy.ts:71 | every segment that begins with ".." and a backslash and holds no other special character is accepted and climbs |
| GatewayPath.SixLayersLeaveBase | apps/api/gateway/path.ts:24 | "/%2e%2e" under five further layers is accepted and climbs |
| GatewayPath.QueryMarkCutsPath | apps/api/gateway/proxy.ts:71 | the segment "a?b" is accepted and read as "/a" |
| Cookies.ParseCookies | apps/api/lib/cookies.ts:19-36 | the parsing loop writes exactly the bindings of the ";"-separated parts, with undecodable values kept raw |
| Cookies.BindingMeans | apps/api/lib/cookies.ts:23-33 | a part binds a name to a value if and only if it is that name, "=" and a raw value, blanks apart, that decodes to it or, if it does not decode, is it; the name neither empty nor `__proto__` |
| Cookies.RawValueIsKept | apps/api/lib/cookies.ts:28-32 | a value that does not decode is read as it is |
| Text.TrimMeans | apps/api/lib/cookies.ts:25-26 | only blanks are trimmed, and all of them at both ends |
| Cookies.CollectIsLastWins | apps/api/lib/cookies.ts:22-34 | the result maps each bound name to its last binding, and no other name |
| Cookies.PrintedHeaderReadsBack | apps/api/lib/cookies.ts:19-39 | a printed Cookie header reads back with the last duplicate winning and `__proto__` lost |
| Cookies.MapRoundTrip | apps/api/lib/cookies.ts:19-39 | any listing of a map of printable cookies reads back as that map less `__proto__`, so as that map if and only if it has no such name |
| SetCookies.SerializeCookie | apps/api/lib/cookies.ts:38-48 | the pushes build the header of the specification, and a value that cannot be encoded throws |
| SetCookies.PrintedCookieIsRead | apps/api/lib/cookies.ts:38-48 | a browser following section 5.2 of RFC 6265 reads back the name, the encoded value, Max-Age, Expires, Path, SameSite, HttpOnly and Secure |
| SetCookies.AllCookiesAreGuarded | apps/api/lib/cookie-config.ts:26-34 | every cookie of a login, a refresh, a csrf-token request and a logout is read as HttpOnly, SameSite=Lax, for "/", and Secure exactly in production |
| SetCookies.Response.AppendSetCookie | apps/api/lib/cookies.ts:50-55 | the header keeps all earlier values in order and gains one, whatever form it had |
| SetCookies.Response.SetAuthCookies | apps/api/lib/cookies.ts:57-63 | appends the access and refresh cookies in that order, or throws exactly when one cannot be encoded |
| SetCookies.Response.SetCsrfCookie | apps/api/lib/cookies.ts:65-67 | appends the csrf cookie, or throws exactly when it cannot be encoded |
| SetCookies.Response.ClearAuthCookies | apps/api/lib/cookies.ts:69-73 | appends an expired cookie for each of the three names |
| SetCookies.AuthCookiesAreStored | apps/api/lib/cookies.ts:57-63 | after the response the jar is the old one with the new pair, for fifteen minutes and seven days |
| SetCookies.ClearedCookiesAreGone | apps/api/lib/cookies.ts:69-73 | after the cookies `ClearAuthCookies` appends, the jar is the old one without access_token, refresh_token and csrf_token |
| RateLimit.RateLimiter.Increment | apps/api/lib/rate-limit.ts:34-53 | one upsert on one bucket; null when the statement does not run, overflows or its answer is lost |
| RateLimit.RateLimiter.WithinLimit | apps/api/lib/rate-limit.ts:55-67 | refuses exactly a counted breach, and changes no other bucket |
| RateLimit.BucketInjective | apps/api/lib/rate-limit.ts:56 | two requests share a bucket if and only if they share tier and key, colons in keys included |
| RateLimit.Isolation | apps/api/db/migrations/5_rate_limit.up.sql:9-18 | a client's answers are those of its own requests alone: other clients, the other tier and prunings at any moments are invisible |
| RateLimit.PruneTakesExpired | apps/api/db/migrations/5_rate_limit.up.sql:16-17 | a prune deletes exactly the rows whose window is over |
| RateLimit.RowRefinesLog | apps/api/lib/rate-limit.ts:36-67 | the row answers every history like a limiter that keeps the log: count, window start and expiry are read off the log |
| RateLimit.WindowsAreApart | apps/api/lib/rate-limit.ts:39-46 | successive windows open more than sixty seconds apart, and expiry is always the start plus sixty seconds |
| RateBound.SlidingIntervalBound | apps/api/lib/rate-limit.ts:34-67 | any closed interval of length L admits by count at most limit times L/60s rounded up, plus limit - 1 |
| RateBound.ClientBound | apps/api/lib/rate-limit.ts:34-67 | the same bound for one client on a table shared with all others, both tiers and prunings |
| RateBound.AnyMinute | apps/api/lib/rate-limit.ts:15-17 | at most 199 and 19 counted admissions in any sixty seconds |
| RateBound.BoundIsReached | apps/api/lib/rate-limit.ts:39-46 | for every limit a history that attains the bound |
| RateBound.TierBoundsAreReached | apps/api/lib/rate-limit.ts:15-17 | 199 and 19 are reached within a microsecond |
| RateBound.RefusedOnlyWhenBusy | apps/api/lib/rate-limit.ts:55-67 | a request is refused only if the backend answered and had run at least `limit` requests of the client in the sixty seconds before |
| RateBound.FullCounterAdmits | apps/api/lib/rate-limit.ts:40-60 | when one window has counted as many requests as the column holds, the next one in it is let through uncounted |
| JwtExpiry.RowOutlivesToken | apps/api/lib/jwt.ts:62-73 | whenever the signature check accepts a token its row is unexpired, by less than a second plus the signing time |
| JwtExpiry.AcceptedForSevenDays | apps/api/lib/jwt.ts:62-73 | a token is accepted for 604800 whole seconds from the second it was signed in |
| AuthTables.UpsertKeeps | apps/api/auth/user-model.ts:8-28 | an upsert keeps one account per lower-cased email; that account keeps id and email and takes name and roles from the profile, every other account stays as it is, and a new one has the email as given |
| AuthTables.LowerMeans | apps/api/db/migrations/6_user_account_email_text.up.sql:9 | lower-cased emails are equal if and only if the emails differ in the case of ASCII letters only |
| AuthTables.StoreKeeps | apps/api/auth/refresh-token-model.ts:14-28 | an insert adds exactly one unrevoked, unlinked row with the expiry given, changes no other and keeps the indexes and foreign key |
| AuthTables.StoreIsRefused | apps/api/db/migrations/3_refresh_token.up.sql:5-14 | an insert fails if and only if the token is stored already or its user is not |
| AuthTables.FindActiveFindsIt | apps/api/auth/refresh-token-model.ts:30-37 | the lookup finds the token's unrevoked, unexpired row if and only if there is one |
| AuthTables.RevokeKeeps | apps/api/auth/refresh-token-model.ts:39-45 | a revoke takes exactly that row from the unrevoked ones, stamps it, and changes no other row and no revoked one |
| AuthTables.RevokeAllKeeps | apps/api/auth/refresh-token-model.ts:47-52 | exactly the user's unrevoked rows are stamped, and no other row changes |
| AuthHandlers.AuthDatabase.UpsertUserFromProfile | apps/api/auth/user-model.ts:8-28 | the upsert statement on the stored tables |
| AuthHandlers.AuthDatabase.StoreRefreshToken | apps/api/auth/refresh-token-model.ts:14-28 | the insert, refused on a duplicate hash or an unknown user |
| AuthHandlers.AuthDatabase.FindActiveRefreshToken | apps/api/auth/refresh-token-model.ts:30-37 | the lookup by hash |
| AuthHandlers.AuthDatabase.RevokeRefreshToken | apps/api/auth/refresh-token-model.ts:39-45 | the conditional revoke |
| AuthHandlers.AuthDatabase.RevokeAllUserTokens | apps/api/auth/refresh-token-model.ts:47-52 | the revoke of a user's rows |
| AuthHandlers.AuthDatabase.IssueTokenPair | apps/api/auth/service.ts:20-40 | the minted refresh token is stored for its subject, or nothing changes |
| AuthHandlers.AuthDatabase.FinalizeLogin | apps/api/auth/service.ts:42-61 | a login gives the email's one account name and roles of the profile and stores one unrevoked row, good for seven days, for it; no other account or row changes |
| AuthHandlers.AuthDatabase.Refresh | apps/api/auth/refresh.ts:21-47 | on its own a refresh trades the presented token for one new token of the same user, good for seven days, and is denied in exactly four cases; where not granted it changes nothing |
| AuthHandlers.AuthDatabase.Logout | apps/api/auth/logout.ts:14-35 | on its own a logout revokes exactly the presented token, if active |
| Rotation.StepKeeps | apps/api/auth/refresh.ts:24-45 | every step of every request keeps the whole invariant and takes nothing back |
| RotationRuns.Conservation | apps/api/auth/refresh.ts:34-45 | in every interleaving: unrevoked rows = logins + refreshes between insert and revoke + late revokes - rows logged out; and each stored refresh is between insert and revoke or has revoked, in time or late |
| RotationRuns.RevocationIsFinal | apps/api/auth/refresh-token-model.ts:39-52 | a revoked row never changes again and no row is ever linked |
| RotationRuns.SpentTokenIsRefused | apps/api/auth/refresh.ts:34-45 | once a refresh of a token has been answered, every later lookup of it is denied |
| RotationLogout.LoggedOutTokenIsRefused | apps/api/auth/logout.ts:18-22 | once a logout of a stored token has been answered, every later lookup of it, by a refresh or a logout, finds nothing, in every interleaving |
| RotationLogout.LogoutTakesOneRow | apps/api/auth/logout.ts:20-21 | a logout that has found its row revokes it and logs one row, unless somebody else has revoked it since |
| RotationLogout.LogoutLooksUp | apps/api/auth/logout.ts:18-20 | a logout goes on exactly if the presented token has an unrevoked, unexpired row, and with that row |
| RotationLogout.RevokedUserIsOut | apps/api/auth/refresh-token-model.ts:47-52 | after a revoke-all no lookup ever finds a token of that user stored before, and no other user's row is revoked |
| RotationProgress.RefreshIsDecided | apps/api/auth/refresh.ts:24-37 | a refresh is denied exactly where the signature check fails or no unrevoked, unexpired row has its token, and a denial changes nothing |
| RotationProgress.LiveTokenIsAnswered | apps/api/auth/refresh.ts:24-46 | in every reachable state a refresh of an accepted token with a live row can be answered, and leaves as many unrevoked rows |
| RotationProgress.SigningIsForAWeek | apps/api/lib/jwt.ts:62-73 | a login or refresh signs a new token of its user whose `exp` and row expiry are seven days from the two clock readings |
| RotationProgress.LoginIsAnswered | apps/api/auth/service.ts:42-61 | in every reachable state a login can be answered: it changes its own account only and stores one row, good for seven days |
| RotationProgress.AnyRequestCanBreakOff | apps/api/auth/refresh.ts:34-46 | in every reachable state a request under way can break off, and what it has written stays: a refresh between insert and revoke leaves both rows |
| RotationProgress.AccountsComeFromLogins | apps/api/auth/user-model.ts:8-28 | in every run each account has name and roles of a login with its own email |
| RotationProgress.TokenOfAWeekAgoIsRefused | apps/api/lib/jwt.ts:62-73 | once seven days have passed a token is refused, whatever happened meanwhile |
| RotationRuns.RotationStaysWithUser | apps/api/auth/refresh.ts:27-41 | the old token's row, the new token's row and both subjects are one existing user's |
| RotationRuns.AcceptedTokenHasLiveRow | apps/api/lib/jwt.ts:62-73 | in every reachable state a stored token the signature check accepts has an unexpired row of its own subject |
| RotationRuns.OneAccountPerEmail | apps/api/db/migrations/6_user_account_email_text.up.sql:7-9 | accounts with one lower-cased email are one account for good |
| RotationSerial.SerialRotation | apps/api/auth/refresh.ts:24-45 | one request at a time no revoke is late, and unrevoked rows are logins less rows logged out |
| RotationOverlap.OverlappingRefreshesBothSucceed | apps/api/auth/refresh.ts:34-42 | a reachable state in which two refreshes of the one token of one login have been answered and it has two unrevoked tokens |
| RotationRace.FoundGoesOn | apps/api/auth/refresh.ts:34-45 | in every reachable state the next step of a refresh that has found its row is its next step, never a denial or a failed insert |
| RotationRace.SecondRefreshIsAnswered | apps/api/auth/refresh.ts:34-45 | once a refresh of a token has been answered, another can still be answered if and only if it has looked the token up already |
| RotationRace.BothCanBeAnswered | apps/api/auth/refresh.ts:34-45 | two refreshes that have both looked a token up can both be answered; the second leaves the unrevoked rows the first leaves and its own, counted already if it has stored it |
| RotationRace.FoundCounts | apps/api/auth/refresh.ts:41-42 | a refresh adds its row and takes the presented one away only if nobody else has, whatever happens between its steps |
| RotationChains.ChainsAreLogins | apps/api/auth/service.ts:20-50 | one request at a time: each row's chain goes back to a row that starts one, and the chains are as many as the logins |
| RotationChains.OneTokenPerLogin | apps/api/auth/refresh.ts:24-45 | one request at a time a chain has at most one unrevoked row unless a refresh in it is, or broke off, between insert and revoke |
| Migrations.Database.Migrate | apps/api/scripts/migrate.mjs:33-50 | the loop applies the untracked files in order, and on a failure exactly those before it |
| Migrations.RerunIsIdle | apps/api/scripts/migrate.mjs:34-38 | after a completed run nothing is left to apply |
| Migrations.SortedOnce | apps/api/scripts/migrate.mjs:29-31 | there is one way to sort a set of files |
| Migrations.UpgradeOrderIsFresh | apps/api/scripts/migrate.mjs:29-38 | an upgrade has run the files in the order of a fresh database if and only if every new name sorts after every old one |
| Migrations.TenthFileRunsOutOfOrder | apps/api/scripts/migrate.mjs:29-38 | a new file named `10_...` sorts before an old one named `2_...`, and the upgrade order is then not the fresh one |
| Migrations.Commits | apps/api/scripts/migrate.mjs:40-44 | a commit adds the next file over exactly the state its SQL ran on, whoever else is running |
| Migrations.ConcurrentRunners | apps/api/scripts/migrate.mjs:33-50 | any number of runners, crashing anywhere: the tracked files are a duplicate-free prefix, the schema is its replay, and one finished runner means the whole list |
| Migrations.NewRunnerCanFinish | apps/api/scripts/migrate.mjs:33-50 | after any run of any runners a new one can finish and leave every file applied, if the files run on a fresh database |
| TokenCache.Cache.GetAccessToken | apps/api/gateway/token-cache.ts:52-61 | serves, joins or starts a request, and registers it |
| TokenCache.Cache.OnResponse | apps/api/gateway/token-cache.ts:43-49 | a success is cached with its expiry; a failure leaves the cache |
| TokenCache.Cache.OnFinally | apps/api/gateway/token-cache.ts:57-59 | clears whatever request is registered |
| TokenCache.Cache.Reset | apps/api/gateway/token-cache.ts:64-67 | forgets both |
| TokenCache.OutstandingRequests | apps/api/gateway/token-cache.ts:52-67 | never more than one outstanding request plus one per reset |
| TokenCache.RegisteredIsOutstanding | apps/api/gateway/token-cache.ts:56-60 | the registered request is outstanding: no caller joins one that is over |
| TokenCache.ResetBreaksSingleFlight | apps/api/gateway/token-cache.ts:64-67 | a reachable state with one reset and two outstanding requests |
| TokenCache.JoinersAgree | apps/api/gateway/token-cache.ts:56-60 | all who waited for one request get the same token or the same failure |
| TokenCache.WaitersShareOneRequest | apps/api/gateway/token-cache.ts:56-60 | without resets all waiters wait for the registered request |
| TokenCache.ServedTokensAreFresh | apps/api/gateway/token-cache.ts:53-55 | a token from the cache was fetched and had more than sixty seconds left |
| TokenCache.RequestsAreSpaced | apps/api/gateway/token-cache.ts:47-61 | without resets requests never overlap and, after a success, are at least its stated seconds (an hour if none) less sixty seconds apart |
| TokenCache.WaiterGetsTheAnswer | apps/api/gateway/token-cache.ts:43-60 | in every reachable state a waiting caller gets the token of the answer, which is cached with its stated lifetime, or the failure; nothing is registered then |
| TokenCache.CallAfter | apps/api/gateway/token-cache.ts:52-61 | after any time a cached token is served exactly while it has more than sixty seconds left; else a call waits for the registered request or starts one |
| StreamBuffer.WebSocketConnection.ResolveHasUpdateHandlers | apps/web/src/lib/encore-client.ts:393-400 | wakes exactly the registered consumers and forgets the handlers |
| StreamBuffer.WebSocketConnection.HasUpdate | apps/web/src/lib/encore-client.ts:402-407 | registers one more handler |
| StreamBuffer.WebSocketConnection.OnDisconnect | apps/web/src/lib/encore-client.ts:384-390 | an error or close wakes everybody |
| StreamBuffer.StreamIn.OnMessage | apps/web/src/lib/encore-client.ts:470-475 | buffers the message and wakes everybody; data that does not parse changes nothing |
| StreamBuffer.StreamIn.Resume | apps/web/src/lib/encore-client.ts:487-496 | the iterator's loop from one suspension to the next |
| StreamBuffer.StepKeeps | apps/web/src/lib/encore-client.ts:466-497 | every step keeps losslessness and wakefulness |
| StreamBuffer.LosslessFifo | apps/web/src/lib/encore-client.ts:470-496 | for any consumers in any interleaving: delivered, then buffered, is what was received, in order |
| StreamBuffer.NobodySleepsThrough | apps/web/src/lib/encore-client.ts:374-407 | a sleeping consumer has its handler registered, the buffer is empty and the socket not closed |
| StreamBuffer.DrainAfterClose | apps/web/src/lib/encore-client.ts:487-496 | after a close a consumer gets all buffered messages in order and then the end |
| StreamBuffer.EndMeansAllDelivered | apps/web/src/lib/encore-client.ts:487-496 | in every run a consumer is at its end only on a closed socket, when all that was received has been delivered |
| StreamBuffer.RunDecides | apps/web/src/lib/encore-client.ts:487-496 | a consumer takes the first message, ends or sleeps: on a buffer that is not empty, an empty one and a closed socket, an empty one and another |
| StreamBuffer.WaiterGetsNext | apps/web/src/lib/encore-client.ts:393-407 | in every run a waiting consumer can run after the next message or close, and gets that message if it is the first to run, or is at its end |
| StreamBuffer.OnlySleepersWake | apps/web/src/lib/encore-client.ts:393-400 | in every run a message or a close wakes exactly the waiting consumers |
| StreamBuffer.EndIsFinal | apps/web/src/lib/encore-client.ts:492 | whoever is at the end stays there |
| StreamBuffer.ClosingIsNotTheEnd | apps/web/src/lib/encore-client.ts:478-493 | after `close()` no message comes, and a consumer still waits until the socket is closed |
| StreamBuffer.AllCanBeDelivered | apps/web/src/lib/encore-client.ts:470-496 | for every list of messages some run delivers them all to one consumer |
| Csrf.ComparesStrings | apps/api/lib/csrf.ts:30-34 | the byte comparison is equality of strings up to unpaired surrogates |
| Csrf.ExemptMeans | apps/api/lib/csrf.ts:17-24 | exempt are GET, HEAD, OPTIONS and TRACE in any case and the paths that end in "/callback" or "/auth/refresh", and nothing else |
| Csrf.CheckDecides | apps/api/lib/csrf.ts:42-60 | what is not exempt passes if and only if header and cookie both give a token and they are equal up to unpaired surrogates; it is a mismatch if and only if both are there and differ |
| Csrf.OnlyTheTokenPasses | apps/api/lib/csrf.ts:42-60 | a request with a live csrf cookie passes if and only if it sends that cookie's token; anything else sent is a mismatch; without a live cookie nothing passes |
| Csrf.CsrfCookieIsRead | apps/api/lib/csrf.ts:42-60 | from any listing of a jar's live cookies the middleware reads the token exactly when the csrf cookie is live |
| AuthStore.LogoutIsChecked | apps/api/lib/csrf.ts:17-24 | POST on the logout path is not exempt |
| AuthStore.Store.EnsureCsrfToken | apps/web/src/stores/auth.store.ts:24-40 | holds a token, joins the fetch or starts one |
| AuthStore.Store.OnFetched | apps/web/src/stores/auth.store.ts:29-37 | keeps the fetched token; a failure leaves it |
| AuthStore.Store.Intercept | apps/web/src/stores/auth.store.ts:56-61 | a header goes out exactly while a non-empty token is held and the method is one of the four, and it is that token |
| AuthStore.MutationIsJudged | apps/web/src/stores/auth.store.ts:56-61 | on every path each method the interceptor adds the token to is one the check examines: it passes with a token held and a live cookie and is missing one otherwise, exempt paths apart |
| AuthStore.OnlyTheCookiesTokenPasses | apps/api/lib/csrf.ts:42-60 | in every reachable state, whoever made the request: it passes if and only if the csrf cookie is live and the header is the token in it |
| AuthStore.TokenServesFifteenMinutes | apps/api/lib/cookies.ts:65-67 | a fetched token serves for 900 seconds, unless the cookies are cleared elsewhere |
| AuthStore.Store.OnLogoutOver | apps/web/src/stores/auth.store.ts:199-206 | the token is dropped, a running fetch is not |
| AuthStore.PostIsJudged | apps/api/lib/csrf.ts:42-60 | the verdict on a logout's request: passed with a token and a live cookie, otherwise missing |
| AuthStore.EveryLogoutIsJudged | apps/web/src/stores/auth.store.ts:174-207 | in every interleaving a logout passes if and only if it went out with a token held and the cookie live, and is never a mismatch |
| AuthStore.SerialLogouts | apps/web/src/stores/auth.store.ts:174-207 | with non-overlapping logouts each passes exactly when its fetch succeeded and the cookie was live, and no token is held between them |
| AuthStore.OverlappingLogoutIsRefused | apps/web/src/stores/auth.store.ts:195-206 | a reachable state in which a logout begun between another's response and its `finally` block is refused |
| AuthStore.PostIsPossible | apps/web/src/stores/auth.store.ts:182-184 | in every reachable state a ready logout has a Cookie header to send |
| LogoutProgress.LogoutCanEnd | apps/web/src/stores/auth.store.ts:174-207 | from every reachable state every logout can come to its end, even if its fetch and its request fail |
| LogoutProgress.LoneLogoutPasses | apps/web/src/stores/auth.store.ts:174-207 | in every reachable state with no token held or fetched a logout whose fetch succeeds can pass, and leaves no token and none of the three cookies |
| WorkflowPins.Lint | tools/lint/workflow-pins.sh:115-153 | reports exactly the flagged lines, each once and in order, and exits 1 exactly when there is one |
| WorkflowPins.LineIsFlagged | tools/lint/workflow-pins.sh:97-148 | every line whatsoever is flagged if and only if it is a `uses:` line whose reference is no `docker://` image and has "${{" after it or an "@" without a full SHA |
| WorkflowPins.UsesMeans | tools/lint/workflow-pins.sh:105 | the leading expression matches exactly spaces, it may be "-" and more spaces, and "uses:" |
| WorkflowPins.StepIsFlagged | tools/lint/workflow-pins.sh:97-143 | a step "- uses: name@ref", however it is indented, is flagged if and only if it has "${{", a "#" in the name or no forty hex digits and an end after the "@" |
| WorkflowPins.TagIsFlagged | tools/lint/workflow-pins.sh:97-143 | so every step pinned to a shorter tag is flagged |
| WorkflowPins.DockerMeans | tools/lint/workflow-pins.sh:108 | the docker expression matches exactly when `docker://` follows the spaces |
| WorkflowPins.DynamicMeans | tools/lint/workflow-pins.sh:113 | the dynamic expression matches exactly when an opening "${{" follows `uses:` |
| WorkflowPins.PinnedMeans | tools/lint/workflow-pins.sh:97 | the pinned expression matches exactly when forty lower-case hex digits and an end follow the first "@" and no "#" precedes it |
| WorkflowPins.LintIsExact | tools/lint/workflow-pins.sh:97-143 | a `uses:` line whose reference is not `docker://`, starts with none of ".", "/", "@" and has an "@" before any space is passed if and only if it has no "${{", no "#" before that "@" and a full SHA after it |
| WorkflowPins.CleanExitMeansPinned | tools/lint/workflow-pins.sh:97-151 | when nothing is flagged every such line of every file is pinned |
| WorkflowPins.UsesLineIsFlagged | tools/lint/workflow-pins.sh:97-143 | every `uses:` line is flagged if and only if its reference is no `docker://` image and either "${{" follows or the first word has an "@" that no full SHA follows |
| WorkflowPins.NoAtIsNotFlagged | tools/lint/workflow-pins.sh:102-143 | a line without "@" is flagged if and only if it is no `docker://` image and has "${{" |
| WorkflowPins.UnreferencedActionPasses | tools/lint/workflow-pins.sh:138-142 | `uses: actions/checkout` is not flagged |

## Left out

- JwtExpiry.RowOutlivesToken: one clock for the application, which sets both expiries, and for the database, whose `now()` the lookup reads.
- RSA signatures, SHA-256, random draws and timing: signatures unforgeable, the hash injective, ids, `jti` and row keys fresh, comparisons plain.
- RateLimit: `now()` is taken to be non-decreasing in the order the upserts take effect; the truncation of an UNLOGGED table after a crash and the header parsing of `clientKey` are not modelled.
- Rotation.StepKeeps: users are never deleted (the foreign key would then delete their rows), a request without a cookie is only in the stand-alone handler, audit writes and the other claims of a token are not modelled.
- AuthTables.UpsertKeeps: `lower()` is ASCII lowering; of a profile only email, name and roles are kept.
- GatewayPath.ClientToPrivateApi: a base URL with a query or fragment of its own, requests not made by the generated client, and a private API that does other than decode its path once.
- Cookies.ParseCookies: reading a name the object inherits, such as `toString`, from the parsed object.
- SetCookies.PrintedCookieIsRead: the jar uses Max-Age, which wins over Expires; which requests a cookie then goes with, by Path, SameSite and Secure, is not modelled.
- AuthStore.EveryLogoutIsJudged: one tab, so that nobody else replaces the csrf cookie; a jar with only cookies this server printed; interceptor and send in one task; the auth handler before the check; `fetchUser`, `login`, `checkStatus` and the fields `user`, `loading` and `error`.
- Csrf.CsrfCookieIsRead: a header given as a list, of which the first is taken.
- Migrations.ConcurrentRunners: SQL is a partial function of the schema, the listing comes sorted and without duplicates, and a lock on a tracking row waits until the holder ends; connections are not modelled.
- TokenCache.RequestsAreSpaced: fractional or missing lifetimes beyond the default, and a clock that goes back.
- StreamBuffer: `StreamInOut` repeats the code of `StreamIn`; sending and `StreamOut` have no buffer.
- WorkflowPins.Lint: how the files are found, the usage error, files grep takes for binary, and locales in which `[[:space:]]` or `[0-9a-f]` hold more than the ASCII characters.
- `handleProxy` beyond the path: status mapping, header and body forwarding, error masking.
- `isSafeRedirect`, `hasRole`, `frontendUrl`, `isGatewayConfigured`: one-branch predicates.
- Security headers, health probes, role checks, log redaction, Redis, environment readers, UI, CI, deployment: easy or outside the modelled state.
