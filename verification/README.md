# Verified model of the Auctoritas browser client

This project models the stateful and algebraic core of the Auctoritas single-page-application SDK, an OAuth and OpenID
Connect client that runs in the browser, and proves what its parts promise together.

- **The token cache** (`CacheKeys`, `KeyAmbiguity`, `Scope`, `CacheModel`, `Cache`, `CacheRuns`, `RefreshProvenance`,
  `CacheLimits`, `CacheEffects`).
  `Cache` holds the mutable objects: a store that hands out its wrappers by reference, the key manifest that lives in the
  store it indexes, and the manager, whose `get` overwrites a shared wrapper in place. Every method is proved against a
  transition of `CacheModel`, in which slots refer to wrappers by identity. `CacheRuns` and `RefreshProvenance` follow all
  runs of `set`, `get`, `clear` and `clearSync` under any clock: where each returned token came from, how fresh it is, what
  the manifest lists, what a logout leaves. `CacheLimits` says exactly when two expectations fail,
  `CacheEffects` what a single get leaves behind.
- **Silent token acquisition** (`PromiseUtils`, `SilentToken`, `SilentProvenance`). Single flight per key, two cache
  checks, the tab lock with its retries, the exchange, the store and the release, as steps of any number of callers on any
  number of pages and client configurations over one cache.
- **The refresh-token worker and its error routing** (`Worker`, `Http`, `RefreshGrant`, `Responses`, `WorkerMode`). The
  message handler is cut at its wait, so that messages interleave; its replies travel through `sendMessage`, the retry
  loop of `getJSON` and the `catch` clause of the refresh grant. `Responses` says what each response comes to, and
  `WorkerMode` closes the loop with the page's cache.
- **Keys across paths** (`ClientKeys`): how options become scopes, audiences, cache keys and worker pairs.
- **Codecs and decisions** (`Percent`, `Base64Url`, `Base64Table`, `QueryString`, `Jwt`), and the one-shot login transactions
  (`Transactions`).

`Strings`, `Colons` and `Wrappers` hold JavaScript's string operations, the places of `::` in a text, and the shared
datatypes.

Conventions. Assigning to the name `__proto__` sets an object's prototype or, for a text, does nothing; names are then read
through it. Clock readings are milliseconds and lifetimes seconds, both real numbers; where the source floors, the model
floors. `None` is `undefined`. Strings that pass through the codecs are seen as their bytes, one character below 256 each.

Where the source and its own expectations differ, the model follows the source. The test in
`__tests__/cache/cache-manager.test.ts:137-148` expects `get` to restore a missing manifest entry; the code has no such
step, and neither has the model.

## Model

| member | source | states |
|---|---|---|
| CacheKeys.RoundTrip | src/cache/shared.ts:26-39 | Parsing a printed key gives its four components back if and only if none contains `::` and none of prefix, client id and audience ends with a colon |
| CacheKeys.ToKeyInjective | src/cache/shared.ts:26-28 | Two distinct well-formed keys never print alike |
| CacheKeys.ToKeyNotInjective | src/cache/shared.ts:26-28 | Without well-formedness two different keys can print alike |
| KeyAmbiguity.SharesTextExactly | src/cache/shared.ts:26-28 | A key shares its text with no other key if and only if it is well formed and none of client id, audience and scope starts with a colon |
| KeyAmbiguity.SharesTextUnderPrefixExactly | src/cache/shared.ts:26-28 | Among keys with one prefix, as in the cache: if and only if none of client id, audience and scope contains `::`, neither client id nor audience ends with a colon, and neither audience nor scope starts with one |
| KeyAmbiguity.NeverManifestKey | src/cache/key-manifest.ts:50-52 | A cache key never equals the manifest key of a client whose id does not hold two separators, so no entry overwrites the index |
| KeyAmbiguity.ManifestKeyCollidesExactly | src/cache/key-manifest.ts:50-52 | Some cache key equals the manifest key if and only if the client id holds two separators that do not overlap |
| Scope.SplitSpacesIsWords | src/scope.ts:10 | On trimmed text the regular-expression split yields exactly the white-space separated tokens |
| Scope.DedupeOrder | src/scope.ts:4 | The set-based deduplication keeps each element once, in the order of first occurrences |
| Scope.UniqueScopesIs | src/scope.ts:9-11 | The normalised scope is the distinct tokens of all arguments, in order, single-spaced, for any white space in the arguments |
| Scope.UniqueScopesTokens | src/scope.ts:9-11 | Read back, the result has distinct tokens, and a token is in it if and only if it is in some argument |
| Scope.UniqueScopesNest | src/scope.ts:9-11 | Normalising any run of arguments first changes nothing |
| Scope.UniqueScopesIdempotent | src/scope.ts:9-11 | Normalising twice is normalising once |
| Scope.UniqueScopesReadd | src/scope.ts:9-11 | Re-adding in front scopes that already lead the list changes nothing |
| Scope.UniqueScopesReaddPart | src/scope.ts:9-11 | Re-adding the default and the raw client scope changes nothing even after `offline_access` was inserted behind them |
| Scope.WhiteSpaceSeparates | src/scope.ts:10 | Each of ECMAScript's white-space characters, inside an argument, separates tokens as separate arguments do; no other character ends a token |
| CacheModel.GetValid | src/cache/cache-manager.ts:23-65 | A get keeps the store well formed: each key enumerated once, every slot referring to a wrapper that exists |
| CacheModel.SetValid | src/cache/cache-manager.ts:67-78 | A set keeps the store well formed |
| CacheModel.ClearValid | src/cache/cache-manager.ts:80-94 | A clear keeps the store well formed |
| CacheModel.RemoveAllSlots | src/cache/cache-manager.ts:86-91 | Removing a list of keys one by one leaves exactly the other slots, unchanged |
| CacheModel.WithoutOrder | src/cache/key-manifest.ts:31-32 | Dropping a key keeps the order of the others |
| Cache.InMemoryCache.Set | src/cache/cache-memory.ts:8-10 | The record gains or overwrites this key; a new key is enumerated last, an old one keeps its place |
| Cache.InMemoryCache.Get | src/cache/cache-memory.ts:12-20 | Hands out the stored object itself, or undefined |
| Cache.InMemoryCache.Remove | src/cache/cache-memory.ts:22-24 | The key is gone, every other entry and their order stay |
| Cache.InMemoryCache.AllKeys | src/cache/cache-memory.ts:26-28 | The keys in enumeration order |
| Cache.CacheKeyManifest.Add | src/cache/key-manifest.ts:15-25 | The listed keys become the old ones and this one, without duplicates; the store is untouched elsewhere |
| Cache.CacheKeyManifest.Remove | src/cache/key-manifest.ts:27-40 | The key is no longer listed, an emptied list is dropped from the store, no wrapper entry is changed |
| Cache.CacheKeyManifest.Get | src/cache/key-manifest.ts:42-44 | The listed keys, or undefined |
| Cache.CacheKeyManifest.Clear | src/cache/key-manifest.ts:46-48 | Only the manifest's own slot is removed |
| Cache.CacheManager.constructor | src/cache/cache-manager.ts:15-21 | A manager adopts any well-formed store with whatever it holds; over an empty one it starts in the empty state |
| Cache.CacheManager.Get | src/cache/cache-manager.ts:23-65 | The whole new state, aliased wrappers included, and the answer are those of the get transition: exact key, else first listed superset; an expired wrapper is stripped in place and written under the requested key, or the requested key is dropped |
| Cache.CacheManager.Locate | src/cache/cache-manager.ts:27-38 | The object found is the one under the exact key, else under the first matching listed key |
| Cache.CacheManager.Retire | src/cache/cache-manager.ts:48-62 | With a refresh token the shared wrapper is reduced to it and written under the requested key without listing it; without one the requested key is dropped from store and manifest |
| Cache.CacheManager.Set | src/cache/cache-manager.ts:67-78 | The new state is that of the set transition, with a fresh wrapper; older wrappers are untouched |
| Cache.CacheManager.WrapCacheEntry | src/cache/cache-manager.ts:112-125 | A fresh wrapper that expires at the smaller of floored now plus `expires_in` and the token's `exp` |
| Cache.CacheManager.Clear | src/cache/cache-manager.ts:80-94 | The new state is that of the unfiltered clear transition |
| Cache.CacheManager.ClearSync | src/cache/cache-manager.ts:99-110 | The new state is that of the synchronous clear; it throws exactly when the store cannot list its keys |
| Cache.CacheManager.RemoveEach | src/cache/cache-manager.ts:88-91 | The loop removes exactly the listed keys |
| Cache.CacheManager.GetCacheKeys | src/cache/cache-manager.ts:127-131 | The manifest's keys when there is a manifest, the store's own otherwise |
| CacheRuns.RunInvariant | src/cache/cache-manager.ts:23-110 | Over every run each complete entry in the store is the body of the latest set on its key, with the expiry computed then and no clear since; the manifest lists distinct present keys, among them that of every complete entry |
| CacheRuns.AccessTokenProvenance | src/cache/cache-manager.ts:23-65 | Every complete entry a get returns is the body of the latest set on some key that answers the request, not cleared since, and not expired at the clock reading |
| CacheRuns.AnswersMeans | src/cache/cache-manager.ts:145-165 | On well-formed keys, answering means the same client and audience and all the requested scopes |
| CacheRuns.ServedTokenIsFresh | src/cache/cache-manager.ts:45-64 | With the adjustment of 60 a served token was stored less than 1000 (expires_in - 59) ms ago and is more than 59000 ms from its `exp`, through both floors and the minimum, for any clock |
| CacheRuns.HeldStays | src/cache/cache-manager.ts:23-78 | Any operation that does not overwrite an entry, and any get that does not see it expired, leaves it in place |
| CacheRuns.SetThenGet | src/cache/cache-manager.ts:23-78 | What was set, and neither overwritten, cleared nor seen expired since, is what a get of its key returns |
| CacheRuns.ClearDropsFull | src/cache/cache-manager.ts:80-110 | A clear at any reachable state leaves no complete entry; a store that lists its keys is left empty |
| CacheRuns.ClearLogsOut | src/AuctoritasClient.ts:894-897 | After a clear and until the next set no get on any key returns more than a refresh token, so nobody is authenticated |
| CacheRuns.ClearEmpties | src/AuctoritasClient.ts:961-966 | In a store with `allKeys` nothing survives either form of clear, whatever was run before |
| CacheRuns.ManifestAgrees | src/cache/key-manifest.ts:15-48 | Over every run listed keys are distinct and present, and every data entry that is not listed holds a refresh token alone |
| RefreshProvenance.TokensInvariant | src/cache/cache-manager.ts:45-56 | Over every run each stripped entry's token was set under a key covering the slot it now sits in, however often it was stripped and moved |
| RefreshProvenance.RefreshTokenProvenance | src/cache/cache-manager.ts:23-65 | Every refresh token a get returns was set under a key covering the request; without a manifest, after the last clear |
| RefreshProvenance.CoversMeans | src/cache/cache-manager.ts:145-165 | On well-formed keys, covering means the same client and audience and a superset of the scopes |
| CacheLimits.ServedExactly | src/cache/cache-manager.ts:27-64 | A complete entry is served if and only if the requested key is stored and fresh, or is not stored and the first listed key in enumeration order that matches is fresh |
| CacheLimits.ShadowedExactly | src/cache/cache-manager.ts:145-165 | A request that some fresh listed entry answers goes unserved if and only if the requested key is stored but expired or stripped, or is not stored and an earlier listed first match is |
| CacheLimits.RunServedExactly | src/cache/cache-manager.ts:27-64 | After every run the serving condition is that one |
| RefreshProvenance.NamedInvariant | src/cache/cache-manager.ts:145-165 | After every run all stored keys carry the prefix, so none is the text that a failed search is looked up as |
| CacheLimits.ExpiredEntryShadows | src/cache/cache-manager.ts:58-59 | Of two stored entries that answer a request, an expired first one without a refresh token hides the fresh second one, and the get changes nothing: expiry removes the requested key, not the matched one |
| CacheLimits.ShadowInstance | src/cache/cache-manager.ts:58-59 | Inputs that show it exist |
| CacheLimits.ClearEmptiesExactly | src/cache/cache-manager.ts:80-94 | With a manifest a clear empties the store if and only if every data key is listed |
| CacheLimits.StrippedTokenOutlivesClear | src/cache/cache-manager.ts:49-55 | A strip under a narrower key is not listed: its refresh token survives a later clear and is still served |
| CacheLimits.StrippedTokenInstance | src/cache/cache-manager.ts:49-55 | Inputs that show it exist |
| CacheEffects.GetServes | src/cache/cache-manager.ts:64 | A get that finds an unexpired wrapper returns its body and changes nothing |
| CacheEffects.GetStrips | src/cache/cache-manager.ts:49-55 | A get that finds an expired wrapper with a refresh token changes that wrapper's body and the requested key's slot, and nothing else |
| CacheEffects.GetDrops | src/cache/cache-manager.ts:58-61 | A get that finds an expired wrapper without one leaves the requested key neither in the store nor in the manifest, and all else as it was |
| CacheEffects.StripIsShared | src/cache/cache-manager.ts:50 | Because wrappers are shared, every key that held the stripped one serves the refresh token alone from then on |
| CacheEffects.ExpiredExactly | src/cache/cache-manager.ts:45-48 | For whole seconds an entry is usable up to exact millisecond ends, one from its `exp` and one from the second it was stored in |
| CacheEffects.StaleMakesRoom | src/cache/cache-manager.ts:58-59 | Once an entry without a refresh token was seen expired under its own key, a fresh entry with more scopes answers requests for that key |
| CacheEffects.SetAgainKeepsSelection | src/cache/key-manifest.ts:15-25 | Storing a listed key again changes no request's selected key |
| CacheEffects.ClearSyncThrowsExactly | src/cache/cache-manager.ts:99-103 | The synchronous clear throws exactly when the store cannot list its keys, and then changes nothing |
| PromiseUtils.RetryPromise | src/promise-utils.ts:15-26 | Succeeds if and only if some permitted call does, and stops at the first that does; the lock loop of the protocol takes the same steps |
| PromiseUtils.SinglePromiseMap.SinglePromise | src/promise-utils.ts:3-13 | Joins the pending promise of the key or starts a new one |
| PromiseUtils.SinglePromiseMap.Finally | src/promise-utils.ts:6-9 | After the callback has its outcome, removes the entry and nothing else; the promise itself is not settled yet |
| PromiseUtils.SinglePromiseMap.SettleStage | src/promise-utils.ts:6-9 | The engine's steps around it: the callback's promise settles before, the promise that callers hold after |
| PromiseUtils.SingleFlight | src/promise-utils.ts:1-13 | In every run the map has an entry for a key exactly when one promise for it is pending or has not run its `finally`, and it is that promise |
| PromiseUtils.CallbacksNeverOverlap | src/promise-utils.ts:3-13 | Two callbacks for one key never run at the same time |
| PromiseUtils.OutcomeStable | src/promise-utils.ts:3-13 | From the moment the callback has an outcome it is the one that all who joined will see; a cleared promise is never listed again |
| PromiseUtils.LaterCallIsNew | src/promise-utils.ts:3-13 | Whenever callers can see a promise's outcome its entry is gone and no later call joins it |
| PromiseUtils.SettlesInOrder | src/promise-utils.ts:6-9 | The callback's outcome comes while the entry is still there, then the entry goes unseen, then the callers see the outcome |
| SilentToken.NextInv | src/AuctoritasClient.ts:772-832 | Every step of every caller keeps the lock, the flights and the runs consistent |
| SilentToken.CriticalSectionsNeverOverlap | src/AuctoritasClient.ts:789-831 | In every interleaving at most one caller is inside, the lock is held exactly while one is, and a finished caller never holds it, on any exit |
| SilentToken.CallersShareOutcome | src/AuctoritasClient.ts:762-769 | Callers that join a listed flight hold the same run, and a settled flight has the outcome of its run |
| SilentToken.OwnMovesBounded | src/AuctoritasClient.ts:772-832 | Over any interleaving the own steps of a run and the rank that is left never exceed the rank it had |
| SilentToken.HolderReleases | src/AuctoritasClient.ts:789-831 | From any reachable state a run takes at most eighteen steps of its own, and one that holds the lock has finished and released it after six |
| SilentToken.NeverStuck | src/AuctoritasClient.ts:772-832 | A run that has not finished always has a step of its own to take, whatever the others hold |
| SilentToken.SpentStays | src/AuctoritasClient.ts:789-824 | Once a key has been exchanged no calm step exchanges it again |
| SilentToken.ExchangeSpends | src/AuctoritasClient.ts:810-817 | A successful exchange for a key is about to store under that same key |
| SilentToken.AtMostOneExchange | src/AuctoritasClient.ts:772-832 | From any reachable state, while nobody clears, no unfinished call for the key ignores the cache and the stored entry stays fresh, a key is successfully exchanged at most once, among any number of callers |
| SilentToken.LoginServesSilentCall | src/AuctoritasClient.ts:777-787 | After a login with the same options a silent call returns the login's token from its first check, without the lock |
| SilentProvenance.CacheIsRun | src/AuctoritasClient.ts:772-832 | In every interleaving the shared cache is that of one sequence of cache operations, so whatever holds of all runs of the cache holds of it |
| SilentProvenance.TokenProvenance | src/AuctoritasClient.ts:777-823 | In every interleaving a call that ends with a token got it from its own exchange, or from one of its cache checks, which found it in the body of the latest set on an answering key, not cleared since and fresh by a minute |
| SilentProvenance.StartedAsAsked | src/AuctoritasClient.ts:754-770 | A run keeps for ever the page, client, normalised options and cache preference of the call that started it |
| SilentProvenance.IgnoringCallExchanges | src/AuctoritasClient.ts:777-787 | In every interleaving a call with `ignoreCache` that starts a run ends with a token only if that run exchanged for it |
| SilentProvenance.LoginServesNewCall | src/AuctoritasClient.ts:777-787 | A new call without it, finding no flight, is answered by its first step while the login's entry is fresh, and takes no lock |
| SilentProvenance.ExchangeIsStored | src/AuctoritasClient.ts:810-823 | After a run's exchange and store the cache holds exactly the response's members under the run's key |
| SilentProvenance.PathsFit | src/AuctoritasClient.ts:810-812 | In every interleaving a run goes to the iframe first exactly if its client uses no refresh tokens |
| SilentProvenance.GrantTriedExactly | src/AuctoritasClient.ts:1079-1092 | The refresh grant is tried exactly when there is a worker or the lookup under the run's own key, without adjustment, has a refresh token |
| SilentProvenance.FailureProvenance | src/AuctoritasClient.ts:789-831 | In every interleaving a call fails only because its exchange failed or exactly ten attempts at the lock did |
| SilentProvenance.FlightEnds | src/promise-utils.ts:6-9 | Once a run has finished, three steps of its promise show its outcome to the callers and free the flight |
| SilentProvenance.CallerTokenProvenance | src/AuctoritasClient.ts:754-769 | That key is the caller's own, for every caller that joined the flight with options that cannot be mistaken in it |
| ClientKeys.ParamsScope | src/AuctoritasClient.ts:293-328 | The authorize parameters of a silent call have the audience and scope that were looked up, although normalised again |
| ClientKeys.RefreshScope | src/AuctoritasClient.ts:1073-1077 | The reassigned scope of the refresh grant is the scope that was looked up, although it starts from the raw client scope |
| ClientKeys.SilentScopeIs | src/AuctoritasClient.ts:258-270 | The scope of a silent call is the distinct tokens of `openid`, the default scope, the client's, `offline_access` with refresh tokens, and the call's own, in that order |
| ClientKeys.LookupKeyIs | src/AuctoritasClient.ts:778-782 | The looked-up key in full: the call's own audience, even an undefined one, before the client's, and `default` for an empty one |
| ClientKeys.SilentKeyCoherent | src/AuctoritasClient.ts:810-817 | On the iframe, refresh and refresh-then-iframe paths the entry is stored under the key that was looked up, if and only if the response does not name another client |
| ClientKeys.WorkerPairCoherent | src/api.ts:30-34 | The worker's pair is the audience and scope of the looked-up key on every path, and that of a login with the same options |
| ClientKeys.LoginKeyCoherent | src/AuctoritasClient.ts:507-515 | A login stores under the key that a silent call with the same options looks up, and stores under unless its response names another client |
| ClientKeys.UserKeyCoherent | src/AuctoritasClient.ts:539-551 | `getUser` reads that key if and only if no empty or undefined audience option overrides a real one of the client |
| ClientKeys.FlightKeyCoherent | src/AuctoritasClient.ts:762-769 | Calls share a flight if and only if their requests are equal, and then look up one cache key, for clean audiences |
| ClientKeys.FlightKeyShared | src/AuctoritasClient.ts:768 | An undefined audience and the audience "undefined" share a flight although their cache keys differ |
| ClientKeys.FlightSafeExactly | src/AuctoritasClient.ts:768 | Everyone of a client who shares the flight of a request looks up its cache key if and only if the audience is defined, is not the text "undefined", contains no `::` and ends with no colon, and the scope contains no `::` and starts with no colon; so a call without any audience never is |
| ClientKeys.FlightSafeAcrossExactly | src/AuctoritasClient.ts:768 | The same for everyone on the page, whatever the client, if and only if in addition the client id contains no `::` and ends with no colon and the audience starts with none |
| Worker.TokenWorker.ReceiveMessage | src/worker/token.worker.ts:44-65 | An unreadable body or a missing token is answered early; otherwise the request goes out, with the stored token put in where it was lacking |
| Worker.TokenWorker.SettleMessage | src/worker/token.worker.ts:76-121 | Network error, timeout and unreadable response leave the map alone; a parsed response stores its refresh token or deletes the stored one, and the posted copy has none |
| Worker.TokenWorker.RunOthers | src/worker/token.worker.ts:34-122 | The map after any batch of other message halves |
| Worker.RepliesCarryNoToken | src/worker/token.worker.ts:101-113 | No message that the worker posts carries a non-empty refresh token |
| Worker.KeyInjective | src/worker/token.worker.ts:6 | The joined key tells pairs apart when audiences hold no bar |
| Worker.KeyNotInjective | src/worker/token.worker.ts:6 | With a bar in an audience two pairs share a key |
| Worker.KeyUnsharedExactly | src/worker/token.worker.ts:6 | A pair has its key to itself if and only if neither its audience nor its scope holds a bar |
| Worker.RefinesPairs | src/worker/token.worker.ts:4-18 | Over every interleaving in which no other pair shares its key, the string-keyed map holds for a pair the refresh token of the last parsed response for it, or nothing if that had none |
| Worker.NoBarUnshared | src/worker/token.worker.ts:6 | Where audiences hold no bar no other pair shares the key |
| Worker.RefinesExactly | src/worker/token.worker.ts:4-18 | The map agrees with the last parsed response for a pair over all runs if and only if neither text of the pair holds a bar |
| Worker.HeldTokensTruthy | src/worker/token.worker.ts:101-108 | The worker never holds an empty token |
| Responses.OwnRequestGoesOut | src/worker/token.worker.ts:49 | A request that is no refresh grant, or brings its own token, goes out unchanged whatever the worker holds |
| Responses.OwnRequestSends | src/worker/token.worker.ts:44-80 | So a code exchange sends exactly its own body in every attempt, with a worker or without |
| Responses.CachedTokenSent | src/AuctoritasClient.ts:1110-1126 | A refresh grant with a cached token sends that token in every attempt |
| Responses.AttemptsExactly | src/AuctoritasClient.ts:1087-1092 | A refresh grant makes attempts exactly when there is a cached token or a worker, and otherwise goes to the iframe |
| Responses.AttemptIsHistory | src/worker/token.worker.ts:34-122 | An attempt leaves the worker with what its whole history of message halves leaves, the attempt's own included |
| Http.GetJson | src/http.ts:94-152 | Result, number of messages, requests sent and the worker's final map are those of the tries: at most three, ending at the first attempt that is not rejected |
| Http.FetchLoop | src/http.ts:103-126 | The loop ends with either the last rejection or the resolved attempt, never both |
| Http.SwitchFetch | src/http.ts:70-92 | One attempt through the worker, with other messages before and during it, or directly |
| Http.RetriesExactly | src/http.ts:106-126 | All attempts but the last were rejected, and stopping early means that the last was not |
| Http.RejectedExactly | src/worker/worker.utils.ts:8-22 | An attempt is retried if and only if the request went out and the network or the timeout failed it, with a non-empty message in the worker; without a worker an unreadable response counts too |
| Responses.SuccessDelivers | src/http.ts:128-151 | A successful response brings the caller the response's own access token, ID token, lifetime and client id, and its refresh token exactly without a worker |
| Responses.SuccessExactly | src/http.ts:94-152 | A request succeeds if and only if the response that ends it does, and its request went out |
| Responses.ErrorReported | src/http.ts:135-149 | An error response surfaces with its description or the stock one, as an MFA error exactly for `mfa_required`, else under its own code or `request_error` |
| Responses.DirectFailureSurfaces | src/http.ts:128-133 | Without a worker, network failures and unreadable responses surface after all attempts with their message, or `Failed to fetch` |
| Responses.DirectTimeoutSurfaces | src/http.ts:35-41 | So do timeouts, with their own message |
| Responses.UnreadableThroughWorker | src/worker/token.worker.ts:114-121 | Through a worker an unreadable response is not retried and surfaces as a request error |
| Responses.UnparsableBody | src/worker/token.worker.ts:44-47 | A body that the worker cannot parse surfaces likewise, after one message and without a fetch |
| Responses.EmptyMessageThroughWorker | src/worker/worker.utils.ts:14-18 | A network failure without a message is not retried through a worker: reading the reply fails |
| RefreshGrant.TokenUsingRefreshToken | src/AuctoritasClient.ts:1087-1141 | Iframe at once when neither the cache nor a worker can have a token; otherwise the routed result of the tries, with the messages and requests made |
| RefreshGrant.MissingTokenFallsBack | src/AuctoritasClient.ts:1127-1138 | A token missing from the worker reaches the iframe fallback after exactly one message and no fetch |
| RefreshGrant.AllTriesFail | src/http.ts:106-126 | While the network fails, every attempt is made and each request carries the same stored token, if no other response for the pair intervenes |
| RefreshGrant.NetworkFailuresSurface | src/AuctoritasClient.ts:1109-1141 | Network failures reach the caller after exactly three attempts with the last message, unless that message is one the fallback looks for |
| RefreshGrant.HttpErrorEndsLoop | src/http.ts:135-149 | An HTTP error response is never retried and becomes an error |
| Responses.ErrorRouted | src/AuctoritasClient.ts:1127-1141 | An error response falls back to the iframe exactly on the two descriptions looked for, and otherwise surfaces as reported |
| Responses.SuccessGranted | src/AuctoritasClient.ts:1143-1150 | A successful refresh grants the response's own tokens |
| WorkerMode.GetNeverStrips | src/cache/cache-manager.ts:49-55 | Where no wrapper holds a refresh token a get overwrites no wrapper and returns complete entries only |
| WorkerMode.AnswersTokenFree | src/worker/token.worker.ts:101-113 | Whatever the worker and the network do, the attempt that concludes a request brings no refresh token to the page |
| WorkerMode.StepRecords | src/AuctoritasClient.ts:1110-1126 | Every answer of a get and every posted request is on record, a code exchange's without a token, a refresh grant's with the token that it found |
| WorkerMode.PageNeverHoldsRefreshToken | src/AuctoritasClient.ts:1029-1059 | Over every run of logins, iframe exchanges, refreshes, gets and logouts no cache wrapper, no answer and no posted message holds a refresh token |
| WorkerMode.StripUnreachable | src/cache/cache-manager.ts:49-55 | Hence the strip branch is unreachable in worker mode |
| WorkerMode.LogoutKeepsWorkerTokens | src/AuctoritasClient.ts:961-966 | Logout empties the page's cache and leaves every token in the worker |
| WorkerMode.RefreshSendsLoginToken | src/AuctoritasClient.ts:1109-1126 | After a login whose response had a refresh token, with no later response for its pair, the next silent refresh with the same options sends exactly that token |
| WorkerMode.LoginStoresResponse | src/AuctoritasClient.ts:657-673 | After a code exchange answered with tokens, the page's cache holds, under the key the next silent call looks up, exactly the response's access token, ID token and lifetime |
| WorkerMode.RefreshStoresResponse | src/AuctoritasClient.ts:810-817 | So it does after a refresh grant that was answered with tokens for this client |
| WorkerMode.LoginAuthenticates | src/AuctoritasClient.ts:894-897 | Until that entry expires `getUser` finds the login's user, unless an empty audience option overrides the client's |
| Percent.PercentRoundTrip | src/utils.ts:175-180 | Percent-decoding inverts `encodeURIComponent` on every byte string, as in section 2.1 of RFC 3986 |
| Percent.EncodeFacts | src/utils.ts:175-180 | Encoded text is made of plain characters and percent signs only, is never shorter, and is the text itself exactly when every character is plain |
| Percent.EscapeIs | src/utils.ts:178 | Exactly the unreserved characters of old stay; any other byte becomes a percent sign and two upper-case digits |
| Percent.DecodesExactly | src/utils.ts:25 | Decoding succeeds if and only if every percent sign starts a two-digit escape |
| Percent.EscapeAllRoundTrip | src/utils.ts:220-228 | The byte-wise escapes that `decodeB64` builds decode to the bytes they were built from |
| Base64Url.RoundTrip | src/utils.ts:214-238 | Decoding inverts encoding for every byte sequence; the text has ceil(4n/3) characters, all URL-safe, without padding, as in sections 4 and 5 of RFC 4648 |
| Base64Url.BitsRoundTrip | src/utils.ts:220-228 | Cutting bytes into groups of six bits and joining them loses nothing |
| Base64Url.ReplacementInvertible | src/utils.ts:214-217 | The replacement table lands in the URL-safe alphabet and the decoder's replacements undo it |
| Base64Url.EncodeInjective | src/utils.ts:233-238 | Distinct digests have distinct challenges |
| Base64Url.ChallengeLength | src/utils.ts:233-238 | A 32-byte digest gives 43 characters, as in section 4.2 of RFC 7636 |
| Base64Table.EncodeFollowsTable | src/utils.ts:233-238 | The encoder writes the bits of the bytes in groups of six, zero bits after the last, with the table of section 5 of RFC 4648, stated without the encoder's helpers |
| Base64Table.PaddedRoundTrip | src/utils.ts:220-223 | Padded base64 has a multiple of four characters and decodes to the bytes it was made of |
| Base64Table.AtobIgnoresBlanks | src/utils.ts:222 | Blanks anywhere are not seen |
| Base64Table.AtobRejects | src/utils.ts:222 | A character outside the alphabet makes decoding throw |
| Base64Table.DigitsDecodeExactly | src/utils.ts:222 | Digits alone decode if and only if none is left over |
| QueryString.ParseQueryResult | src/utils.ts:15-33 | The loop computes the parse: cut at the hash, later fields overwrite, a text named `__proto__` stays unset, any broken escape throws |
| QueryString.FieldRoundTrip | src/utils.ts:178 | A created field parses to its encoded key and its decoded value, and contains no separator |
| QueryString.OnlyPlainKeysReturn | src/utils.ts:24-25 | Keys are not decoded and one name cannot be assigned, so all members can come back only if every key is plain and none is `__proto__` |
| QueryString.RoundTrip | src/utils.ts:15-33 | Parsing created parameters gives the defined members back if and only if there is one, every key needs no encoding, none is `__proto__`, and `expires_in` is missing or empty |
| QueryString.EmptyParses | src/utils.ts:22-25 | The empty query string parses to one member, with the empty key and the text "undefined" |
| QueryString.HashIgnored | src/utils.ts:16-18 | What follows the first hash is not seen |
| QueryString.ValueEnds | src/utils.ts:24-25 | A value ends at a second equal sign |
| QueryString.ExpiryParsed | src/utils.ts:28-30 | A non-empty `expires_in` comes back as a number, all other members as text |
| QueryString.UndefinedLeftOut | src/utils.ts:177 | An undefined member leaves no trace in the query |
| Jwt.PartitionClaims | src/jwt.ts:47-54 | The loop assigns every member to the claims and the unregistered ones to the user, the prototype setter included |
| Jwt.UserMember | src/jwt.ts:6-54 | Under any name but `__proto__` the profile reads the payload's last value if the name is not a registered claim; all other names are read through a prototype that the payload brings |
| Jwt.ClaimsMember | src/jwt.ts:47-50 | The claims read every member of the payload, over the raw token, over the members of a prototype that the payload brings |
| Jwt.ClaimsFromPrototype | src/jwt.ts:47-54 | A payload that has its claims in a `__proto__` object is judged exactly as if they were the token's own |
| Jwt.DecodesEncoded | src/jwt.ts:39-61 | A token made of two base64url-encoded texts and a dot-free signature decodes to what the JSON parser makes of exactly those texts |
| Jwt.DecodesExactly | src/jwt.ts:39-61 | A token decodes if and only if it is three dot-free, non-empty parts of which the first two parse |
| Jwt.ProfileClaims | src/jwt.ts:6-54 | Protocol claims stay out of the profile, subject and profile claims come in |
| Jwt.AcceptsExactly | src/jwt.ts:63-205 | `verify` accepts if and only if the token decodes, issuer, subject, algorithm, audience or authorized party, nonce, organization and the numeric claims match, and the clock reading lies in the time window; section 3.1.3.7 of OpenID Connect Core 1.0 |
| Jwt.AcceptedTimesAreAnInterval | src/jwt.ts:161-200 | For a fixed token the accepted non-zero clock readings are exactly one closed interval of milliseconds, from `nbf` less the leeway to the earlier of `exp` and `auth_time` plus `max_age`, plus the leeway |
| Jwt.WindowEnds | src/jwt.ts:161-186 | The window's ends in plain milliseconds, with sixty seconds for a missing or zero leeway; an end that is no date does not count |
| Jwt.ZeroIsNoReading | src/jwt.ts:162 | A clock reading of zero counts as none, and none means the system's |
| Jwt.RejectionMeans | src/jwt.ts:70-202 | The error of a rejected token names something that is wrong with it, stated for each of the twenty errors on its own |
| Jwt.LeewayWidens | src/jwt.ts:161-190 | More leeway, zero counting as sixty, accepts whatever less accepts, with dates in reach |
| Jwt.LeewayWidensExactly | src/jwt.ts:161-190 | All larger leeways accept too if and only if no bounding date lies beyond the far end of the date range |
| Jwt.FarExpiryNarrows | src/jwt.ts:161-175 | Any token that matches but expires just beyond the date range behaves so |
| Jwt.FarDatesNarrow | src/jwt.ts:161-175 | A token and options that are accepted with sixty seconds of leeway and rejected as expired with sixty-one |
| Transactions.TransactionManager.constructor | src/transaction-manager.ts:19-22 | A reload picks up what was stored |
| Transactions.TransactionManager.Create | src/transaction-manager.ts:24-30 | Memory and storage both hold the new transaction, other keys are untouched |
| Transactions.TransactionManager.Remove | src/transaction-manager.ts:36-39 | Neither memory nor storage holds one afterwards |
| Transactions.TransactionManager.HandleRedirectCallback | src/AuctoritasClient.ts:609-638 | Without a query, with a broken escape or without a usable transaction nothing changes; otherwise the transaction is gone before the error is raised or the code, if any, exchanged with it |
| Transactions.RedirectRoundTrip | src/AuctoritasClient.ts:612-640 | A redirect back with created parameters, a code among them and no error, leads to the exchange of exactly that code |
| Transactions.OutcomeExactly | src/AuctoritasClient.ts:609-638 | For each outcome of a callback, exactly when it comes, with the error's text or the code and transaction, and what stays pending |
| Transactions.SecondMarkUnseen | src/AuctoritasClient.ts:612-620 | A second question mark is no part of the query |
| Transactions.MemoryMirrorsStorage | src/transaction-manager.ts:19-39 | Over every run of creates, callbacks and reloads the memory field agrees with storage |
| Transactions.PendingIsLatest | src/transaction-manager.ts:24-39 | A pending transaction is the latest one created, with no exchange since |
| Transactions.PendingExactly | src/transaction-manager.ts:19-39 | A transaction is pending if and only if it was created and since then none was created or used up: reloads and vain callbacks keep it |
| Transactions.ExchangeUsesLatest | src/AuctoritasClient.ts:622-663 | Each exchange uses the verifier and nonce of the latest create, with no exchange between the two |
| Transactions.OneExchangePerCreate | src/AuctoritasClient.ts:402-410 | Two exchanges never stem from one create |

## Left out

- Network, iframes, popups, the page's location and timers: their results are arbitrary values carried by the steps.
- The tab lock is an atomic mutex whose acquisition may fail; its expiry when a tab dies is not modelled.
- SHA-256, random values, JSON, UTF-8 and `parseInt` are foreign code: fresh values and decoded structures are parameters, text is a byte view.
- Interleaving inside one cache or manifest operation: each operation is one step, so two overlapping `add` calls that lose a key are outside the model.
- `clear` and `clearSync` with a client filter: the client only ever calls them unfiltered.
- Stores that hand out copies instead of the stored object: after a strip they differ observably from the in-memory store.
- Values that other programs or other clients write into the same store: the runs of the cache start from an empty store, though a manager may adopt any.
- A throwing or rejecting cache, storage or clock: every call of theirs completes.
- Times and lifetimes as floating-point numbers: the model uses reals, and integers in ID tokens; fractions and values beyond 2^53 there are not modelled.
- Strings are sequences of characters without surrogate pairs; text outside the byte range handed to the percent decoder passes through, and escapes that are no UTF-8 are not rejected.
- Jwt.RejectionMeans: of several things wrong with a token it does not say which is named first; a header that is JSON `null` is reported as undecodable.
- Query parameter values other than strings, which `encodeURIComponent` turns into text first.
- RefreshProvenance.RefreshTokenProvenance: with a manifest it does not say that no clear came since, because that is false (CacheLimits.StrippedTokenOutlivesClear).
- SilentToken.AtMostOneExchange: assumes that no token response for the key names another client, which would move the stored entry (ClientKeys.SilentKeyCoherent).
- SilentToken.NeverStuck: the next step exists; that the network, the cache and the lock answer in the end is not claimed.
- An empty error message posted by the worker resolves without a `json` member; the wording of the resulting engine error is a constant here.
- Members of token responses that the SDK only passes on, such as the MFA token.
- Cookie storage and its one-day expiry, the authentication and organization cookies, constructor defaults, error classes, logout URLs and worker feature detection: settled by one reading.
