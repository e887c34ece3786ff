# EdgeSphere: verified models of its stateful services

EdgeSphere is a self-hosted platform of small services behind a gateway. This
project models the parts of it that keep state or compute something delicate,
and proves what they promise over every run.

| file | models |
|---|---|
| `TokenBucket.dfy`, `SlidingWindow.dfy`, `RateLimitService.dfy` | the gateway's two rate limiters over Redis keys that expire |
| `Utf8.dfy`, `Base64.dfy`, `RefreshToken.dfy`, `Sessions.dfy` | refresh tokens: their text, and the session set kept beside the map of live tokens |
| `CdnKey.dfy`, `CdnCache.dfy`, `CdnTiers.dfy`, `CdnPurge.dfy` | the edge cache: memory over Redis over the origin, what each tier answers, and how far an invalidation reaches |
| `PartMath.dfy`, `PartList.dfy`, `Multipart.dfy`, `MultipartRuns.dfy` | cutting a file into parts, the upload sessions that put it together again, and what they leave on record |
| `SharedKey.dfy`, `PurgePattern.dfy` | the shared cache-key builder and the glob patterns that purge those keys |
| `Batcher.dfy` | the analytics consumer's batching |
| `DeadLetter.dfy` | the gateway's dead-letter queue |
| `FileVersions.dfy` | the version rows of stored files |
| `Strings.dfy`, `Wrappers.dfy` | splitting, joining and ordering text; options |

Every stateful service has the same shape. A pure `Step` says what one request,
timer or expiry does; a run is a sequence of events, and a function gives the
state after it; the theorems range over all runs. A class with the service's own
fields follows the source statement by statement, and each of its methods is
proved to take exactly the step the theorems are about. What a step gives the caller
and leaves in the store is besides stated in every reachable state by what the run
asked and was answered before, constants written out, without the functions the step is
made of. Requests to the cache are
cut at every wait for Redis or the origin, a purge between its Redis deletion and
its event, upload requests where they call the object store, where it answers and
where they wait for the database, and the batcher and its shutdown at the hand-over:
the pieces of any number of requests come in any order, mixed with expiries, timers,
invalidations and failures of the stores. Requests to the other services are single
steps.

Times are milliseconds from a clock that does not go back. At the very instant its
time-to-live ends a key may still be read and may already be dropped; after it, it
reads as absent. Redis, the object store, Kafka and the database are ideal: maps,
sorted sets, and a queue that delivers once. Ids, etags, hashes and the answers of
those stores are parameters.

Where the code falls short of a promise, the condition under which it keeps it is
proved, with a run that breaks it otherwise:

- The token bucket's bound holds on every run for a whole-number capacity exactly when
  the capacity is at most sixty seconds of refill: a larger bucket is refilled early by
  the expiry of its key (`TokenBucket.BoundedExactly`). Refused calls leave no trace on
  any run exactly when it is that small or every millisecond earns a token: otherwise a
  refused call prolongs the key (`TokenBucket.RefusedTracelessExactly`,
  `TokenBucket.RefusedCallShows`).
- The sliding window counts exactly on all runs in which calls ask for windows of a
  given set, exactly when that set holds one window; on a single run it is enough that
  the window asked for does not grow (`SlidingWindow.ExactForOneWindow`,
  `SlidingWindow.ExactCount`). Every caller in the gateway uses the default window.
  Calls without a reply from Redis are admitted on top
  (`SlidingWindow.WindowBound`).
- Devices and tokens agree, and at most five tokens of a user are redeemable, exactly as
  long as no mint evicts the device it adds, which happens exactly when the clock stands
  still and its name sorts first; six logins within a millisecond do it
  (`Sessions.AlwaysConsistent`, `Sessions.EvictsItselfExactly`,
  `Sessions.SixLoginsAtOnce`).
- Two requests share a cache entry exactly when bucket and key, joined with a colon, are
  one text and their parameters print alike (`CdnKey.CacheKeyExact`). So the cache is
  transparent for a set of requests exactly when those of them that share an entry have
  one answer (`CdnCache.TransparentExactly`). A request without parameters and one with
  five undefined ones share an entry, though only the second is transformed
  (`CdnCache.MixedCallsShareAnEntry`); a colon in a bucket name makes two files share
  one (`CdnCache.ColonServesAnotherFile`). The controller makes requests of the second
  kind only, and no bucket that exists has a colon in its name
  (apps/storage-service/src/buckets/dto/bucket.dto.ts:5), which is enough for a request
  to a bucket without one (`CdnCache.OrdinaryIsUnmixed`).
- An invalidation event for a file reaches that file alone, of the files whose names and
  parameters hold no colon, unless the region has the name of its bucket: then it takes
  the bucket named like its key as well (`CdnPurge.ReachExact`).
- A purge that reaches the file's Redis key is final, whatever happens until its event
  and after it, exactly when no request has a body of the file in hand at the Redis
  deletion: one that has puts it back (`CdnCache.PurgeIsFinalExactly`,
  `CdnCache.PendingOutlivesPurge`).
- With as many parts as asked for and none on the way, completion succeeds exactly
  when no part number was sent twice, as long as no part reaches the object store before
  the list does (`Multipart.CompletionExact`, `Multipart.ResentWhileCompleting`). What
  it joins is always the file (`Multipart.AssembledIsFile`).
- An ended upload session stays ended exactly when no part of it was on the way: such
  a part, when it comes back, sets the session in the store again
  (`Multipart.EndedForGoodExactly`, `Multipart.AbortedWhileWaiting`).
- Brackets and backslashes in a file's name make its purge pattern match other text than
  the name, so it can miss the very key it was built from: exactly when the pattern's
  pieces read no text after a colon of the key (`PurgePattern.OwnKeyCoveredExactly`,
  `PurgePattern.UnclosedMatchesEndsOnly`, `PurgePattern.BracketsEscape`).
- A shutdown leaves nothing behind exactly when its flush could hand everything over and
  no event arrives before it has disconnected, or the last that does fills a batch
  (`Batcher.ShutdownExact`, `Batcher.ArrivalIsLeft`).
- A file has at most one latest row exactly as long as no multipart upload of it
  completes while it has one (`FileVersions.AlwaysOneLatest`,
  `FileVersions.TwoAssembledAreLatest`). Its versions stay in order besides exactly as
  long as every upload that demotes a row inserts one, the latest row is deleted only as
  the file's last, and a multipart upload completes only as its first
  (`FileVersions.VersionsOrdered`, `FileVersions.DeletingLatestRepeatsVersions`,
  `FileVersions.FailedInsertionRepeatsVersions`).

The retry delays documented in docs/PHASE4.md are not the code's: the handler waits
ten seconds at most (apps/gateway/src/events/dlq.service.ts:98). The model follows
the code and keeps no delay.

## Model

| member | source | states |
|---|---|---|
| TokenBucket.HashInvariant | apps/gateway/src/rate-limit/rate-limit.service.ts:18-40 | in every reachable state, whatever the capacity and the rate, the stored tokens lie between 0 and the capacity and the key lives sixty seconds from the last call |
| TokenBucket.Potential | apps/gateway/src/rate-limit/rate-limit.service.ts:18-39 | if the capacity is at most sixty seconds of refill or no key expires, admitted calls since any instant plus tokens still to be found never exceed the capacity plus what was earned since |
| TokenBucket.BurstBound | apps/gateway/src/rate-limit/rate-limit.service.ts:14-47 | in every run and every interval at most capacity + rate * seconds calls are admitted, expiries included when the capacity is at most sixty seconds of refill, and for any capacity when no key expires |
| TokenBucket.TwoBursts | apps/gateway/src/rate-limit/rate-limit.service.ts:36-40 | a run of two full bursts sixty seconds apart, both admitted because the key expired between them |
| TokenBucket.BoundedExactly | apps/gateway/src/rate-limit/rate-limit.service.ts:14-47 | for whole-number capacities the bound holds on all runs if and only if the capacity is at most sixty seconds of refill |
| TokenBucket.Refines | apps/gateway/src/rate-limit/rate-limit.service.ts:20-26 | under the same condition the lazily refilled hash and a continuously rising level agree at every later instant |
| TokenBucket.SameFluidSameOutcome | apps/gateway/src/rate-limit/rate-limit.service.ts:28-34 | under the same condition two runs with the same continuous level give the next call the same outcome, the one the level gives |
| TokenBucket.RefusalsLeaveNoTrace | apps/gateway/src/rate-limit/rate-limit.service.ts:23-39 | if the capacity is at most sixty seconds of refill, deleting any set of refused calls and expiries from a run changes no other call's outcome |
| TokenBucket.TracelessExactly | apps/gateway/src/rate-limit/rate-limit.service.ts:23-40 | for whole-number capacities refused calls and expiries together can be deleted from all runs if and only if the capacity is at most sixty seconds of refill |
| TokenBucket.RefusedTracelessExactly | apps/gateway/src/rate-limit/rate-limit.service.ts:23-40 | for whole-number capacities refused calls alone can be deleted from all runs without changing another outcome if and only if the capacity is at most sixty seconds of refill or the rate at least a thousand a second |
| TokenBucket.RefusedCallShows | apps/gateway/src/rate-limit/rate-limit.service.ts:30-40 | where neither holds deleting a single refused call changes outcomes: the call had kept an emptied key from expiring |
| TokenBucket.ResetIsHonoured | apps/gateway/src/rate-limit/rate-limit.service.ts:42-46 | for every capacity of at least one and every positive rate a refused caller that returns at resetAt or later is admitted if nobody was admitted in between |
| TokenBucket.RemainingIsExact | apps/gateway/src/rate-limit/rate-limit.service.ts:28-44 | in every reachable state `remaining` is exactly the number of further calls that are admitted at the same instant |
| TokenBucket.ResetExact | apps/gateway/src/rate-limit/rate-limit.service.ts:42-46 | `resetAt` is missing exactly for a rate of zero; otherwise it is the earliest instant, whole seconds from now, at which the next call is admitted: refused a second or more before it, admitted from it on where a token can be held |
| SlidingWindow.OutlivesCalls | apps/gateway/src/rate-limit/rate-limit.service.ts:58 | the key never expires before every recorded call has left any window still asked for |
| SlidingWindow.ExpiryKeepsNothing | apps/gateway/src/rate-limit/rate-limit.service.ts:56-58 | an expiry drops no entry that the trim of a later call would have kept |
| SlidingWindow.Tracks | apps/gateway/src/rate-limit/rate-limit.service.ts:54-58 | from the trim horizon on, the stored set and the full history of calls agree |
| SlidingWindow.ExactCount | apps/gateway/src/rate-limit/rate-limit.service.ts:49-78 | on every run whose windows do not grow a recorded call is admitted if and only if the recorded calls of its window, admitted or refused and itself included, are within its limit; `remaining` is what is left of the limit, or 0, and `resetAt` is now plus the window |
| SlidingWindow.KeyLifetime | apps/gateway/src/rate-limit/rate-limit.service.ts:58 | a call sets its key to live for the least number of whole seconds that covers the window |
| SlidingWindow.WindowBound | apps/gateway/src/rate-limit/rate-limit.service.ts:65-71 | an interval no longer than the window of the last recorded call it admits holds at most as many admitted calls as that call's limit and the calls without a pipeline reply together |
| SlidingWindow.ExpiryInvisible | apps/gateway/src/rate-limit/rate-limit.service.ts:58 | a run with its expiries deleted gives every call the same verdict |
| SlidingWindow.GrowingWindowForgets | apps/gateway/src/rate-limit/rate-limit.service.ts:55-57 | whenever a later call asks for a longer window, a run exists in which a call is admitted past its limit |
| SlidingWindow.ExactForOneWindow | apps/gateway/src/rate-limit/rate-limit.service.ts:49-78 | all runs in which calls ask for windows of a given set count exactly if and only if the set holds at most one window |
| RateLimitService.RateLimiter.TokenBucket | apps/gateway/src/rate-limit/rate-limit.service.ts:14-47 | one call updates its identifier's hash and verdict as the token-bucket step says and touches nothing else |
| RateLimitService.RateLimiter.SlidingWindow | apps/gateway/src/rate-limit/rate-limit.service.ts:49-78 | one call updates its identifier's set and verdict as the window step says; without a pipeline reply it admits, stores nothing and reports the whole limit as remaining and now plus the window as the reset |
| RateLimitService.RateLimiter.ExpireKeys | apps/gateway/src/rate-limit/rate-limit.service.ts:40-58 | expiry drops exactly the identifier's keys whose time is over |
| Utf8.RoundTrip | apps/auth-service/src/auth/auth.service.ts:257 | reading back the UTF-8 bytes of any text gives the text |
| Utf8.EncodeExact | apps/auth-service/src/auth/auth.service.ts:257 | a character is written in the shortest of the four forms, whose bits are its code (section 3 of RFC 3629) |
| Utf8.MalformedReads | apps/auth-service/src/auth/auth.service.ts:85 | a byte that starts no character, or that no continuation follows, reads as U+FFFD, and reading goes on behind it |
| Base64.RoundTrip | apps/auth-service/src/auth/auth.service.ts:257 | decoding undoes encoding for every length and padding (section 4 of RFC 4648) |
| Base64.WholeQuanta | apps/auth-service/src/auth/auth.service.ts:257 | an encoded text is four characters for every three bytes begun |
| Base64.EncodeByQuanta | apps/auth-service/src/auth/auth.service.ts:257 | every three bytes are four letters for their twenty-four bits; one or two at the end are filled up with zeros and two or one '=' (section 4 of RFC 4648) |
| Base64.DigitsAreTheAlphabet | apps/auth-service/src/auth/auth.service.ts:257 | the letters are A-Z, a-z, 0-9, + and / in that order |
| Base64.ReadsLeniently | apps/auth-service/src/auth/auth.service.ts:85 | decoding stops at the first '=', takes the URL-safe letters for their like and passes over every other character |
| RefreshToken.ParseMint | apps/auth-service/src/auth/auth.service.ts:85-89 | parsing a minted token gives back exactly its user, device and uuid if and only if none holds a colon; otherwise it is rejected |
| RefreshToken.ParseExact | apps/auth-service/src/auth/auth.service.ts:85-89 | any text parses to three parts if and only if it reads, as base64 and UTF-8, as those parts without colons and with colons between them |
| RefreshToken.MintInjective | apps/auth-service/src/auth/auth.service.ts:256-257 | different users, devices or uuids give different tokens |
| RefreshToken.RefreshKeyInjective | apps/auth-service/src/auth/auth.service.ts:272 | two live-token keys coincide only for the same user and device |
| Sessions.EnrolKeepsLimit | apps/auth-service/src/auth/auth.service.ts:259-269 | after a mint that does not evict the device it adds, that device is in the set, at most five are, and only the evicted one has left |
| Sessions.ClockSparesNewest | apps/auth-service/src/auth/auth.service.ts:260-268 | a mint with a later score than all others never evicts the device it adds |
| Sessions.MintKeepsExactly | apps/auth-service/src/auth/auth.service.ts:246-280 | a mint keeps the limit of five and the agreement of tokens and devices if and only if it does not evict the device it adds |
| Sessions.StepKeepsExactly | apps/auth-service/src/auth/auth.service.ts:83-119 | login, refresh and logout each keep limit and agreement if and only if no device is evicted by its own mint |
| Sessions.AlwaysConsistent | apps/auth-service/src/auth/auth.service.ts:246-276 | at every moment of a run no user has more than five devices and every stored token belongs to one of them, if and only if no mint of the run evicts the device it adds |
| Sessions.MovingClockSuffices | apps/auth-service/src/auth/auth.service.ts:260-268 | on a run whose clock moves between requests no mint does |
| Sessions.AtMostFiveRedeemable | apps/auth-service/src/auth/auth.service.ts:246-276 | at any time of any such run at most five refresh tokens of a user are redeemable |
| Sessions.StepEntry | apps/auth-service/src/auth/auth.service.ts:91-117 | a request changes the stored token of a user and device exactly by minting, redeeming, logging out or evicting |
| Sessions.RedeemableExactly | apps/auth-service/src/auth/auth.service.ts:91-94 | a token is redeemable if and only if it is the one last minted for its user and device, is not expired, and the device was since neither redeemed, logged out nor evicted |
| Sessions.TokensAreFresh | apps/auth-service/src/auth/auth.service.ts:256-257 | no two requests of a run issue the same token |
| Sessions.RedeemedOnce | apps/auth-service/src/auth/auth.service.ts:83-107 | over any run a refresh token is accepted at most once |
| Sessions.LoginExact | apps/auth-service/src/auth/auth.service.ts:246-276 | in every reachable state a login adds its device with the current time as score and stores its token for seven days; where that makes more than five devices the one with the least score, then the least name, leaves with its token; nothing else changes |
| Sessions.RefreshExact | apps/auth-service/src/auth/auth.service.ts:83-107 | in every reachable state a refresh is accepted if and only if its token is the one stored, unexpired, for the user and device it names; it is deleted and, for an active user, replaced as by a login from that device, or from the user agent's where it names none; a refused one changes nothing |
| Sessions.LogoutExact | apps/auth-service/src/auth/auth.service.ts:109-119 | in every reachable state a logout with a text of three parts takes the second part's device out of the calling user's set and deletes its token, and nothing else; any other text changes nothing |
| Sessions.LoggedOutForGood | apps/auth-service/src/auth/auth.service.ts:109-119 | a token of a user with which that user has logged out is redeemable at no moment of the rest of any run |
| Sessions.EvictsItselfExactly | apps/auth-service/src/auth/auth.service.ts:262-268 | a mint evicts its own device exactly when the set is over its limit and every other device has a later score, or the same score and a later name |
| Sessions.SelfEvictionBreaksAgreement | apps/auth-service/src/auth/auth.service.ts:262-276 | the token minted in that case is redeemable for a device in no session set |
| Sessions.SixLoginsAtOnce | apps/auth-service/src/auth/auth.service.ts:246-276 | six logins of a user within one millisecond, the last from the device whose name sorts first, are such a run |
| Sessions.AuthSessions.GenerateTokenPair | apps/auth-service/src/auth/auth.service.ts:246-280 | mints for the given device, or for the user-agent hash when there is none, and returns the token it stored |
| Sessions.AuthSessions.RefreshTokens | apps/auth-service/src/auth/auth.service.ts:83-107 | redeems a stored token and mints the next for the device it names, refuses anything else, and consumes the token of a disabled user without minting |
| Sessions.AuthSessions.Logout | apps/auth-service/src/auth/auth.service.ts:109-119 | takes the step of `Sessions.LogoutExact`: removes the token and the device named by the parsed token, or nothing |
| CdnKey.StringifyInjective | apps/cdn-service/src/cdn/cdn.service.ts:66 | the JSON text tells any two five-field parameter objects apart, whatever their texts hold |
| CdnKey.ObjectShut | apps/cdn-service/src/cdn/cdn.service.ts:66-67 | no parameter object's JSON text starts inside another's, so the file key before it cannot be confused with it |
| CdnKey.ObjectWritten | apps/cdn-service/src/cdn/cdn.service.ts:66 | the JSON text is the members between braces, with commas between them, each its quoted name, a colon and its value |
| CdnKey.EscapeAllReads | apps/cdn-service/src/cdn/cdn.service.ts:66 | an escaped text reads back as itself (section 7 of RFC 8259) |
| CdnKey.NatTextExact | apps/cdn-service/src/cdn/cdn.service.ts:66 | a number is printed as its decimal digits without a leading zero |
| CdnKey.CacheKeyExact | apps/cdn-service/src/cdn/cdn.service.ts:66-67 | two requests share a cache key if and only if bucket and key joined with a colon are the same text and the parameters are the same |
| CdnKey.ColonFreeTextIsFile | apps/cdn-service/src/cdn/cdn.service.ts:67 | for buckets without colons that text names one bucket and key |
| CdnKey.ColonBucketsCollide | apps/cdn-service/src/cdn/cdn.service.ts:67 | a colon in a bucket name makes two files share every key |
| CdnCache.AlwaysTraced | apps/cdn-service/src/cdn/cdn.service.ts:69-144 | if each body there is of a cache key, cached or in the hands of a request, was fetched in an earlier run, then after any further run it was fetched in one of the two, recently enough for its expiry |
| CdnCache.BoundedStaleness | apps/cdn-service/src/cdn/cdn.service.ts:64-145 | on a run in which no other request that shares its entry got a body from the origin, the body any request is served is the direct answer of some instant earlier by at most the two waits, for the Redis store and for its reply or the remaining time-to-live, and the two times-to-live together |
| CdnCache.FetchedIsDirect | apps/cdn-service/src/cdn/cdn.service.ts:99-145 | a request that fetched is served exactly the direct answer (`CdnTiers.DirectExact`) of the instant it fetched, whatever was cached or purged meanwhile |
| CdnCache.Transparent | apps/cdn-service/src/cdn/cdn.service.ts:64-145 | on such a run, while the origin file is unchanged for that long, every answer is exactly the direct one (`CdnTiers.DirectExact`) |
| CdnCache.TransparentExactly | apps/cdn-service/src/cdn/cdn.service.ts:64-145 | over an unchanging origin every answer to requests of a given set is the direct one (`CdnTiers.DirectExact`) on all runs, if and only if requests of the set that share an entry have one answer |
| CdnCache.OrdinaryIsUnmixed | apps/cdn-service/src/cdn/cdn.service.ts:64-145 | where buckets with files have no colon and requests five parameters, nobody's requests for whatever bucket mix with those for a bucket without a colon |
| CdnCache.MixedCallsShareAnEntry | apps/cdn-service/src/cdn/cdn.service.ts:66-140 | on a node that has just served an image without parameters, a request with five undefined ones is served it untransformed, though the transformation would change it |
| CdnCache.ColonServesAnotherFile | apps/cdn-service/src/cdn/cdn.service.ts:67 | on a node that has just served a file, a request for the file that is not there but whose name has the colon elsewhere is served it |
| CdnCache.KeyIncludesText | apps/cdn-service/src/cdn/cdn.service.ts:55-67 | the handler's filter texts occur in every key of the file and of the bucket |
| CdnCache.PurgedFile | apps/cdn-service/src/cdn/cdn.service.ts:54-56 | after an event naming bucket and key, memory holds nothing for that file under any parameters |
| CdnCache.PurgedBucket | apps/cdn-service/src/cdn/cdn.service.ts:57-59 | after an event naming only a bucket, memory holds nothing for that bucket |
| CdnCache.PurgeErasesThePast | apps/cdn-service/src/cdn/cdn.service.ts:50-97 | from the purge event on every request for the file is answered as by any node that has nothing in memory for it, the same in Redis and the same requests for it under way |
| CdnCache.PurgeIsFinalExactly | apps/cdn-service/src/cdn/cdn.service.ts:50-145 | for every run, the deletion of the file's Redis key, any steps, the purge event and any steps: every body served after the event was fetched after the Redis deletion, if and only if no request had a body of the file in hand at the deletion |
| CdnCache.PendingOutlivesPurge | apps/cdn-service/src/cdn/cdn.service.ts:76-140 | a request that has a body of the file in hand when the event is handled, waiting for the remaining time-to-live or for its Redis store, puts it back, and the next request is served that |
| CdnTiers.DirectExact | apps/cdn-service/src/cdn/cdn.service.ts:107-127 | a file is answered with its data and header, or "application/octet-stream" where the header is absent or empty; with the transformation of that, or its failure, if and only if parameters are given and the type is, letter for letter up to ASCII capitals, one of the six image types; a missing file fails |
| CdnTiers.StaleAsPromised | apps/cdn-service/src/cdn/cdn.service.ts:64-145 | on a run in which no other request sharing its entry got a body, every body served is what the file of some instant, at most the two waits and the two times-to-live earlier, is to be answered with |
| CdnTiers.FetchedAsPromised | apps/cdn-service/src/cdn/cdn.service.ts:99-145 | a request that fetched is served what the file of the instant of its fetch is to be answered with |
| CdnTiers.ColdServes | apps/cdn-service/src/cdn/cdn.service.ts:64-145 | a node with nothing in it serves a request that answer as a miss, and fails where the file is missing, its transformation throws or the time-to-live is not positive |
| CdnTiers.TiersAnswer | apps/cdn-service/src/cdn/cdn.service.ts:69-97 | a request once served is a hit in memory exactly until memory's time-to-live ends, then a hit in Redis exactly until Redis's ends and only if the remaining time can be read, and then goes to the origin |
| CdnTiers.RedisFillsMemory | apps/cdn-service/src/cdn/cdn.service.ts:91-94 | what Redis gave is a hit in memory for memory's time-to-live from then on |
| CdnPurge.InvalidationExact | apps/cdn-service/src/cdn/cdn.service.ts:50-61 | in every reachable state an event deletes exactly the memory entries whose key has its bucket and non-empty key, or else its non-empty bucket, between colons, and changes nothing else |
| CdnPurge.ReachExact | apps/cdn-service/src/cdn/cdn.service.ts:54-67 | where region, buckets, keys and text parameters hold no colon and its key ends in no quote, an event for a file takes another file's entry, under any parameters, if and only if it is the same file, or the region and the other's bucket are its bucket and key |
| CdnCache.CdnService.ServeFile | apps/cdn-service/src/cdn/cdn.service.ts:64-76 | one request answers from memory or asks Redis |
| CdnCache.CdnService.OnRedisRead | apps/cdn-service/src/cdn/cdn.service.ts:76-81 | with an entry it can parse the request asks for the remaining time-to-live, else it goes to the origin |
| CdnCache.CdnService.OnTtlRead | apps/cdn-service/src/cdn/cdn.service.ts:81-96 | fills memory and answers, or goes to the origin where the time-to-live cannot be read |
| CdnCache.CdnService.OnOriginAnswer | apps/cdn-service/src/cdn/cdn.service.ts:102-127 | takes the origin's answer, transformed where it is an image and parameters are given, or fails; which, `CdnTiers.DirectExact` states |
| CdnCache.CdnService.StoreFetched | apps/cdn-service/src/cdn/cdn.service.ts:129-137 | fills Redis, or fails with it |
| CdnCache.CdnService.OnStored | apps/cdn-service/src/cdn/cdn.service.ts:139-144 | fills memory and answers |
| CdnCache.CdnService.OnInvalidation | apps/cdn-service/src/cdn/cdn.service.ts:51-61 | deletes exactly the memory entries whose key includes the event's text |
| PartMath.RangesTile | packages/shared/src/phase4.ts:184-193 | the part ranges start at 0, are contiguous, end at the total, are full but for a non-empty last one, and the part after the last is empty |
| PartMath.PartCountExact | packages/shared/src/phase4.ts:184-187 | the part count is the least number, at least one, of five-megabyte parts that hold the total |
| PartMath.ByteInOnePart | packages/shared/src/phase4.ts:189-193 | every byte lies in exactly one part |
| PartMath.SizesSum | packages/shared/src/phase4.ts:189-193 | the sizes of the first parts sum to where they end, and all of them to the total |
| PartMath.GlueAll | packages/shared/src/phase4.ts:184-193 | cutting any file and joining the parts in order gives the file |
| PartList.SortSorts | apps/storage-service/src/multipart/multipart.service.ts:77 | sorting the completed parts orders them by number and keeps each of them |
| PartList.CompleteList | apps/storage-service/src/multipart/multipart.service.ts:72-77 | as many in-range parts as asked for sort to exactly 1, 2, .. partCount if and only if no number repeats |
| Multipart.AlwaysConsistent | apps/storage-service/src/multipart/multipart.service.ts:22-64 | in every reachable state part numbers lie in 1 .. partCount, partCount is the shared one, the store holds every part listed or on the way back of an upload it still has, and lists on the way to it are whole |
| Multipart.StoreHolds | apps/storage-service/src/multipart/multipart.service.ts:49-64 | if every part sent carries that part's bytes, the store holds nothing but cuts of the file |
| Multipart.AssembledIsFile | apps/storage-service/src/multipart/multipart.service.ts:66-81 | on every interleaving, whenever the object store accepts the completion of a session for a file of this size, it joins exactly the file from the list 1, 2, .. partCount |
| Multipart.CompletionExact | apps/storage-service/src/multipart/multipart.service.ts:66-92 | a completion called with all parts listed and none on the way back, however long it is on its way, is accepted if and only if no number was sent twice, as long as no part of the session reaches the store meanwhile |
| Multipart.ResentWhileCompleting | apps/storage-service/src/multipart/multipart.service.ts:77-79 | the run in which a part sent again reaches the store before the list, and the list is refused |
| Multipart.RoundTrip | apps/storage-service/src/multipart/multipart.service.ts:22-101 | cut a file, send each part once in any order, complete: the object is the file, whatever happened before and whoever else waits |
| Multipart.EndedIsRefused | apps/storage-service/src/multipart/multipart.service.ts:66-116 | after the completion or abort that ended a session with no part on the way back, every later part, completion or status request on it is refused and an abort does nothing |
| Multipart.EndedForGoodExactly | apps/storage-service/src/multipart/multipart.service.ts:58-116 | a completion or abort ends its session for good, on every continuation of the run, if and only if no part of it is on the way back from the object store |
| Multipart.LatePartReopens | apps/storage-service/src/multipart/multipart.service.ts:58-63 | a part on the way when its session ended makes the session, refused until then, known again |
| Multipart.AbortedWhileWaiting | apps/storage-service/src/multipart/multipart.service.ts:49-110 | the run: open, send a part, abort; the part comes back last, and the session is in progress with one part |
| Multipart.AssembledOnce | apps/storage-service/src/multipart/multipart.service.ts:79 | over any run and interleaving an upload is assembled at most once |
| Multipart.CompletedOnce | apps/storage-service/src/multipart/multipart.service.ts:79-92 | over any run completions of an upload come back at most as often as it was assembled, so at most once, even if saving the file record fails |
| MultipartRuns.SessionIsOpened | apps/storage-service/src/multipart/multipart.service.ts:22-44 | on every run an upload has a session if and only if it was opened, with the bucket, key, size and store id it was last opened with and the part count of that size |
| MultipartRuns.InitiateExact | apps/storage-service/src/multipart/multipart.service.ts:22-46 | an initiation is answered with the part count, and no part has come back |
| MultipartRuns.OpenExact | apps/storage-service/src/multipart/multipart.service.ts:34-110 | a session is in the store if and only if it was opened, or a part of it came back, since its last completion or abort was answered as done |
| MultipartRuns.PartExact | apps/storage-service/src/multipart/multipart.service.ts:49-58 | in every reachable state a part is sent on if and only if its session is open and its number, where it is one, lies in 1 .. the part count; otherwise it is refused and nothing changes |
| MultipartRuns.TransferExact | apps/storage-service/src/multipart/multipart.service.ts:58-64 | a part that is sent, stored and heard of is answered with its size, held under its number and tag, and listed last |
| MultipartRuns.CompleteExact | apps/storage-service/src/multipart/multipart.service.ts:66-79 | in every reachable state a completion is sent on, with exactly the listed parts in order of their numbers, if and only if the session is open and as many parts came back as it asks for |
| MultipartRuns.CompletionAnswered | apps/storage-service/src/multipart/multipart.service.ts:79-101 | a joined upload whose completion has not come back is answered as completed if and only if the database takes the row, which is then the last one, with the bucket, key and size it was opened with; nothing else is answered |
| MultipartRuns.RecordsExact | apps/storage-service/src/multipart/multipart.service.ts:82-90 | over every run and interleaving the saved rows are exactly one for each completion answered as completed, in that order, with the bucket, key and size its upload was opened with |
| MultipartRuns.RoundTripRecorded | apps/storage-service/src/multipart/multipart.service.ts:22-101 | cut a file, send each part once in any order, complete, whatever happened before: the object is the file, its row is the last, the client is told so and the session is refused from then on |
| MultipartRuns.AbortExact | apps/storage-service/src/multipart/multipart.service.ts:104-108 | in every reachable state an abort of an open session is sent on, and of any other is done at once without a change |
| MultipartRuns.AbortedExact | apps/storage-service/src/multipart/multipart.service.ts:108-109 | an abort that the object store takes drops that upload there and its session when it is heard of, and nothing else |
| MultipartRuns.StatusExact | apps/storage-service/src/multipart/multipart.service.ts:112-128 | in every reachable state a status request tells how many parts came back of how many asked for, or that the session is not open |
| MultipartRuns.OthersUntouched | apps/storage-service/src/multipart/multipart.service.ts:22-128 | in every reachable state a request leaves session, standing and stored parts of every other upload as they were, and none but an accepted list changes an object |
| MultipartRuns.FailuresLeaveNoTrace | apps/storage-service/src/multipart/multipart.service.ts:58-108 | a request that the object store or the database refuses fails and leaves sessions, stored parts, objects and rows as they were |
| Multipart.MultipartService.InitiateUpload | apps/storage-service/src/multipart/multipart.service.ts:22-47 | opens a session with the shared part count |
| Multipart.MultipartService.UploadPart | apps/storage-service/src/multipart/multipart.service.ts:49-58 | refuses unknown sessions and out-of-range numbers, otherwise sends the part |
| Multipart.MultipartService.PartArrived | apps/storage-service/src/multipart/multipart.service.ts:58 | the object store takes the part of an upload it has |
| Multipart.MultipartService.PartUploaded | apps/storage-service/src/multipart/multipart.service.ts:60-63 | lists the part and sets its session in the store |
| Multipart.MultipartService.CompleteUpload | apps/storage-service/src/multipart/multipart.service.ts:66-77 | refuses incomplete sessions; otherwise sorts in place and sends the list |
| Multipart.MultipartService.PartsJoined | apps/storage-service/src/multipart/multipart.service.ts:79 | the object store joins the list if it is acceptable then |
| Multipart.MultipartService.FileSaved | apps/storage-service/src/multipart/multipart.service.ts:81-101 | saves the row and deletes the session, or leaves both alone where the database fails (`MultipartRuns.CompletionAnswered`) |
| Multipart.MultipartService.AbortUpload | apps/storage-service/src/multipart/multipart.service.ts:104-106 | sends the abort of an open session and does nothing to an unknown one |
| Multipart.MultipartService.UploadDropped | apps/storage-service/src/multipart/multipart.service.ts:108 | the object store drops an upload it has |
| Multipart.MultipartService.UploadAborted | apps/storage-service/src/multipart/multipart.service.ts:109 | deletes the session once the object store has dropped its upload |
| Multipart.MultipartService.GetUploadStatus | apps/storage-service/src/multipart/multipart.service.ts:112-128 | reports the listed and the expected parts of an open session and changes nothing |
| SharedKey.SortedUnique | packages/shared/src/phase2.ts:135 | fields with distinct names have one sorted order, whatever the sort |
| SharedKey.OrderDoesNotMatter | packages/shared/src/phase2.ts:126-141 | two orderings of the same transform entries give the same key |
| SharedKey.TextInjective | packages/shared/src/phase2.ts:136-137 | for names and values without commas and equals signs the printed field list can be parsed back |
| SharedKey.SuffixExact | packages/shared/src/phase2.ts:132-138 | for such names and values two suffixes are equal exactly when both objects are empty or neither is, and their defined fields are the same |
| SharedKey.KeyIsSortedFields | packages/shared/src/phase2.ts:126-141 | the key is region, bucket and key and, where there is a transforms object, behind a colon its defined fields in the order of their names, each as name=value, with commas between |
| PurgePattern.PurgeCovers | packages/shared/src/phase2.ts:143-147 | for buckets and keys without brackets and backslashes the patterns for a file, a non-empty prefix of its key and its bucket match the file's key in every region and for all transforms |
| PurgePattern.PurgeExact | packages/shared/src/phase2.ts:143-147 | for text without special characters a pattern matches exactly the keys that start with "cdn:" and hold the text after a later colon |
| PurgePattern.PurgeReachesExactly | packages/shared/src/phase2.ts:143-147 | for such names the pattern of a file, a prefix or a bucket matches exactly the keys that start with "cdn:" and have the bucket, a slash and the file's key, or else the prefix, after a later colon |
| PurgePattern.BracketsMeanTheirCharacter | packages/shared/src/phase2.ts:143-147 | the pattern for a key with a one-character class, or a backslash before a character, matches what that for the key with just the character does |
| PurgePattern.FilePatternExact | packages/shared/src/phase2.ts:143-147 | the pattern for a bucket and key of any characters, escapes and classes, lists, ranges and negated ones, but no stars, matches exactly the keys that start with "cdn:" and in which its pieces read the text after a later colon |
| PurgePattern.OwnKeyCoveredExactly | packages/shared/src/phase2.ts:143-147 | so such a file's key is covered by its own pattern if and only if the pieces read its text after a later colon |
| PurgePattern.UnclosedMatchesEndsOnly | packages/shared/src/phase2.ts:143-147 | the pattern for a name with a bracket left open matches exactly the keys that end where its pieces do |
| PurgePattern.BracketsEscape | packages/shared/src/phase2.ts:144 | the patterns for a bracketed "x" and for a backslash and an "x" do not match those keys |
| Batcher.NothingLost | apps/analytics-service/src/kafka/kafka-consumer.service.ts:44-84 | under every interleaving the batches handed over followed by the current batch are exactly the request events received, in order |
| Batcher.OneAtATime | apps/analytics-service/src/kafka/kafka-consumer.service.ts:70-84 | at most one hand-over is running, the flag says whether one is, and no batch handed over is empty |
| Batcher.TickCatchesUp | apps/analytics-service/src/kafka/kafka-consumer.service.ts:42 | a tick with no hand-over running leaves everything received handed over |
| Batcher.MessageExact | apps/analytics-service/src/kafka/kafka-consumer.service.ts:45-63 | in every reachable state, timer or no timer, a request event joins the batch, and if that makes a thousand and no hand-over is running the whole batch is handed over at once, otherwise nothing; every other message changes nothing |
| Batcher.SettledThenTick | apps/analytics-service/src/kafka/kafka-consumer.service.ts:42-83 | until the shutdown everything received is handed over once the running hand-over has ended and the timer has fired |
| Batcher.ShutdownExact | apps/analytics-service/src/kafka/kafka-consumer.service.ts:86-93 | a shutdown leaves nothing behind when it disconnects if and only if its flush had nothing to leave and nothing arrived after it, or the last arrival filled the batch while no hand-over was running; short of a full batch it leaves exactly what its flush left and what arrived |
| Batcher.LeftForGood | apps/analytics-service/src/kafka/kafka-consumer.service.ts:86-93 | nothing after the disconnect hands over what was left |
| Batcher.ArrivalIsLeft | apps/analytics-service/src/kafka/kafka-consumer.service.ts:86-91 | an event that arrives while the shutdown waits for its flush is left behind, though no hand-over was running |
| Batcher.KafkaConsumer.FlushBatch | apps/analytics-service/src/kafka/kafka-consumer.service.ts:70-78 | hands the whole batch over unless it is empty or a hand-over is running |
| Batcher.KafkaConsumer.EachMessage | apps/analytics-service/src/kafka/kafka-consumer.service.ts:45-63 | adds a parsed request event, flushing at a thousand, and ignores every other message |
| Batcher.KafkaConsumer.OnTimer | apps/analytics-service/src/kafka/kafka-consumer.service.ts:42 | flushes as long as the timer has not been cleared |
| Batcher.KafkaConsumer.OnSettled | apps/analytics-service/src/kafka/kafka-consumer.service.ts:79-83 | ends a hand-over, well or badly, allows the next, and lets a shutdown that waited for it go on |
| Batcher.KafkaConsumer.OnModuleDestroy | apps/analytics-service/src/kafka/kafka-consumer.service.ts:86-90 | clears the timer and flushes, and waits for the flush where it started one |
| Batcher.KafkaConsumer.OnDisconnected | apps/analytics-service/src/kafka/kafka-consumer.service.ts:91 | the consumer gets no more messages |
| DeadLetter.AttemptsInRange | apps/gateway/src/events/dlq.service.ts:43-73 | every queued message has an attempt in 0 .. 3 and is marked never to be retried exactly at 3 |
| DeadLetter.Conservation | apps/gateway/src/events/dlq.service.ts:56-111 | messages enqueued are those pending, retried, given up or whose resend failed; original failures are those pending, retried, given up or lost in publishing |
| DeadLetter.HandleUsesFuel | apps/gateway/src/events/dlq.service.ts:88-111 | handling a message makes the sum of 4 - attempt over the queue smaller, whatever the broker answers |
| DeadLetter.HandlingsBounded | apps/gateway/src/events/dlq.service.ts:80-115 | over any run the queue is handled at most four times per original failure |
| DeadLetter.RetriesBounded | apps/gateway/src/events/dlq.service.ts:67-111 | an original failure causes at most three resends and four dead-letter messages |
| DeadLetter.FailExact | apps/gateway/src/events/dlq.service.ts:43-65 | in every reachable state a failed publication is queued as attempt 0 with a delay of half a minute, or lost where the broker refuses it |
| DeadLetter.DelaysOfQueued | apps/gateway/src/events/dlq.service.ts:67-73 | queued messages of attempts 0, 1, 2 and 3 carry a delay of half a minute, five minutes, half an hour and never |
| DeadLetter.HandleExact | apps/gateway/src/events/dlq.service.ts:88-111 | in every reachable state handling a message of attempt 3 counts it as given up and resends nothing; one of attempt 0, 1 or 2 is resent, and where the broker refuses that queued last as the next attempt of the same failure, or lost where it refuses that too |
| DeadLetter.GivenUpExactly | apps/gateway/src/events/dlq.service.ts:88-107 | over any run a message is given up when handled if and only if its failure has been resent exactly three times |
| DeadLetter.OneFate | apps/gateway/src/events/dlq.service.ts:43-111 | over any run a reported failure is either queued, in one message, or was resent with success, given up or lost, once |
| DeadLetter.BoundsAreReached | apps/gateway/src/events/dlq.service.ts:67-111 | the run in which the broker refuses three resends and takes four publications; the next handling gives up |
| DeadLetter.DlqService.PublishToDlq | apps/gateway/src/events/dlq.service.ts:43-65 | queues the message with its attempt and delay, or loses it where the broker refuses |
| DeadLetter.DlqService.EachMessage | apps/gateway/src/events/dlq.service.ts:80-115 | takes the step of `DeadLetter.HandleExact`: gives up, resends, or queues the message again with the next attempt |
| FileVersions.AlwaysOneLatest | apps/storage-service/src/files/files.service.ts:58-77 | at every moment of a run of uploads, deletes and completed multipart uploads at most one row of a file is marked latest, if and only if no multipart upload of it completes while it has a latest row |
| FileVersions.TwoAssembledAreLatest | apps/storage-service/src/multipart/multipart.service.ts:82-90 | two completed multipart uploads of one key leave two latest rows of version 1 |
| FileVersions.VersionsOrdered | apps/storage-service/src/files/files.service.ts:58-113 | at every moment of a run a file's versions are distinct and its one latest row has the greatest, if and only if every upload that demoted a row inserted one, every delete of the latest row was of the only row, and a multipart upload completed only where there was none |
| FileVersions.StepOrderedExactly | apps/storage-service/src/files/files.service.ts:58-113 | the same of a single event |
| FileVersions.VersionsCount | apps/storage-service/src/files/files.service.ts:58-77 | over runs whose events for a file are uploads that insert, its versions are exactly 1 .. n, each once, and n is the latest |
| FileVersions.DownloadFinds | apps/storage-service/src/files/files.service.ts:83-93 | over such runs a download finds exactly the version asked for, or the last upload when none is |
| FileVersions.UploadExact | apps/storage-service/src/files/files.service.ts:58-77 | in every reachable state an upload demotes the latest row it finds, which keeps its version, and inserts the next version as the latest, or version 1 where there is none; no other row changes, and none is added where the insertion fails |
| FileVersions.DeleteExact | apps/storage-service/src/files/files.service.ts:104-114 | in every reachable state a delete removes exactly the row of the file it found, the latest or not, and finds none only where the file has none |
| FileVersions.AssembledExact | apps/storage-service/src/multipart/multipart.service.ts:82-90 | in every reachable state a completed multipart upload adds a latest row of version 1 and changes no other row |
| FileVersions.DeletingLatestRepeatsVersions | apps/storage-service/src/files/files.service.ts:58-113 | after the latest of two rows is deleted the next upload repeats version 1 |
| FileVersions.FailedInsertionRepeatsVersions | apps/storage-service/src/files/files.service.ts:61-77 | after an insertion that failed the file has no latest row and the next upload repeats version 1 |
| FileVersions.FilesService.FindOne | apps/storage-service/src/files/files.service.ts:59-107 | returns some row that meets the condition, or nothing when none does |
| FileVersions.FilesService.UploadFile | apps/storage-service/src/files/files.service.ts:58-77 | demotes the latest row and inserts the next version, the two saves being separate |
| FileVersions.FilesService.DeleteFile | apps/storage-service/src/files/files.service.ts:104-114 | removes some row of the file, whichever the database returns, or finds none |
| FileVersions.FilesService.SaveAssembled | apps/storage-service/src/multipart/multipart.service.ts:82-90 | inserts a row under the bucket's name with the defaults, version 1 and the latest |

## Left out

- Overlapping calls of one rate-limited identifier, one user or one file row: each such request is one step.
- Transform parameters that the query parser turns into arrays or objects: `fmt` and `fit` are texts here (apps/cdn-service/src/cdn/cdn.controller.ts:57-59).
- Keys with stars beside brackets or backslashes: how their patterns match is stated for one class or escape only (`PurgePattern.BracketsMeanTheirCharacter`).
- Several edge nodes of one region over one Redis: the runs are those of one node, so a body in another node's hands is not in them.
- The circuit breaker, which wraps a library; opossum is not part of this model.
- Passwords, JWT signing, hashing and image transformation: their results are parameters.
- Redis pipelines that fail half way: a pipeline without a usable reply has stored nothing.
- Text with unpaired surrogates, which JavaScript strings may hold and Dafny strings may not, and numbers so large that JSON prints them with an exponent.
- ETags and remaining times-to-live of cached responses, which are taken from the clock and do not affect the body.
- The cache service's purge by Redis pattern: whether it reaches a key is a premise of the purge theorems.
- A part number that is not a number: it passes the range check of apps/storage-service/src/multipart/multipart.service.ts:54, and the model lets the object store refuse it.
- Upload progress in percent, the expiry date of an upload session, and the check of file sizes and bucket owners.
- The locale's collation of transform names: the field names are lower-case ASCII words, for which it is the order of their characters.
- Dead-letter messages put on the queue by other programs, and the seconds waited before a resend.
- Bytes of old file versions, which the code overwrites.
- API keys, profiles, buckets, analytics queries, alerts, the dashboard and the deployment files.
- The Go edge server, an undeployed prototype.
