# Lead auction: protocol, cache, limiter and text-processing proofs

A Dafny model of the stateful and the parsing parts of a lead-auction API, with proofs about whole runs.
`dafny verify dfyconfig.toml` checks everything.

| file | what it models |
|---|---|
| `PostClaim.dfy`, `ClaimTerms.dfy`, `SaleLimits.dfy` | the race of POST requests for one lead: the conditional claim, routing, the router's write, and the write-behind updates that land later; on what terms a lead is claimed; and when exactly a lead can be sold twice |
| `JsonText.dfy`, `BraceScanner.dfy`, `ExampleSplicer.dfy` | compact JSON, the scanner for an object's closing brace, and the splicing of examples into the OpenAPI text |
| `RateLimiter.dfy` | the fixed-window limit per publisher |
| `KeyScan.dfy`, `CacheService.dfy`, `CacheRuns.dfy`, `CacheWitnesses.dfy`, `CacheIsolation.dfy` | Redis key patterns, the two-level cache, runs of several processes whose calls overlap over one Redis, runs that reach the bounds, and environments that share a Redis |
| `ConfigTable.dfy`, `QualificationConfigs.dfy`, `RuleSets.dfy`, `RuleSetRaces.dfy`, `ZipLists.dfy` | the table of rule sets, the bulk lookup and its cache key, the rule-set handlers one after another and interleaved, the ZIP tables |
| `Text.dfy`, `EnvFile.dfy` | trimming and string order, the tolerant environment-file loader |
| `Prelude.dfy` | options, results, lists, orders and sorting |

## How the program's parts appear

**The post claim** is a transition system: one lead row, request handlers in phases, claim statements in flight, a
queue of updates, and a clock. Every SQL statement is one atomic step. A claim may land after its acknowledgement is
lost; a handler may vanish at any point; a queued update may be delayed, reordered, repeated or lost, and its two
statements (`write_behind_queue.rs:807-934` and `:937-1035`) are separate steps. A sale is a buyer's acceptance as the
router sees it. Safety rests on what the ping left behind and on what buyers answer. `SellsOnceExactly` says for every
state before the first post when a lead can be sold twice: exactly if its window is open and some queued ping update
writes an empty post id, or one that looks like a token while the lead is free. `AnswerEndsSaleExactly` says which post
ids a buyer may answer: any but the empty one, the seller's own token and the token of an update still queued.
`StepKeepsInvExactly` is the invariant behind both, and it is exact too: the steps that keep it are the harmless ones.

**The scanner** is an imperative loop nest, proved equal to a three-state automaton on every byte string; the automaton
is then related to JSON trees by induction on the grammar (RFC 8259, sections 4 to 7). **The splicer** is proved
equal to replacing all spans at once, and, on serialised trees, to replacing the example objects in the tree.

**The cache** is a class over a shared Redis object. Entries carry the instant at which the source was read for them, as
bookkeeping. Redis calls may fail, and a failed write may have been applied. For runs, a call is split into its look into
L1, its look into L2, the refill, the fetch and the two stores, and the steps of any number of calls by any processes
interleave with each other, with evictions, deletions and garbage; `AloneIsTheMethod` shows that an uninterrupted call
is the method. A slack bounds the time from finding or fetching a value to storing it. JSON coding is a pair of
functions; `Usable` says that decoding inverts encoding and that `null` does not decode as a bare value, and optional
values are coded on top of that. Two environments whose steps interleave over one Redis do not notice each other, as
long as their names hold no colon (`EnvironmentsAreIsolated`, `ColonsMeet`).

**The limiter** works on nanoseconds with the truncation to whole seconds and the saturation at zero that the clock
type has. Clock readings are taken before the lock, so a run is a list of readings in the order of service.

**Rule sets and ZIP lists** are tables changed statement by statement, with faults between statements; rule-set handlers
are modelled one after another and, in `RuleSetRaces.dfy`, with their statements interleaved. **The bulk lookup** works on
the same table and receives the database's ordered answer, of which only the query's promise is assumed. **The environment
loader** takes Unicode's letter tables as a parameter.

## Where code, comments and intent disagree

The model follows the code in each case.

- The comment at `leads.rs:1923` says that the finalising update takes effect while the token is present. The router
  overwrites the token unconditionally before that update is enqueued (`ping_tree_router.rs:1451-1453`, `2207-2218`),
  so the update never matches and `sold_at` is not set by a two-step sale (`SoldAtNeverSetByPosts`).
- A routing error after the claim enqueues no release, and a retry after a lost acknowledgement sees its own token as a
  duplicate. A handler that ends early orphans its lead exactly if the row shows its token (`FailOrphansExactly`,
  `UnheardClaimIsLost`), and only a token-less update that writes an empty post id frees it again
  (`OrphanReopenedExactly`, `OrphanIsPermanent`).
- Nothing makes the ping's token-less updates drain before a claim. A missing post id is bound as the empty string, so
  `COALESCE` erases the row's post id (`write_behind_queue.rs:1005`, `1017`), and such an update reopens a sold lead
  (`LatePingSellsTwice`).
- The nominal 360 requests an hour is a bound per window, not per hour: 719 in one hour is reached, and 360 for every
  hour begun and 359 more in longer intervals (`RateBoundIsReached`).
- A lifetime of zero means no expiry (`ZeroTtlNeverExpires`), and deleting a key from L2 leaves the L1 of every process as
  it was: older values are served from there for one hour more, plus the slack if a refill was pending, and from nowhere
  else (`DeletionIsFelt`, `DeletionBoundIsReached`).
- A process whose L1 holds `null` for a key answers an optional reader with an absent value while a bare or skip-none
  reader in the same process finds the value in L2 (`ReadersAgree`).
- An activation that fails between its two statements can leave a buyer with no active rule set
  (`FailedActivationDisarms`); overlapping activations leave two active ones unless one runs wholly before the other
  (`TwoActivationsExactly`, `OneActiveExactly`). With rule sets changed serially the lookup has one right result
  (`LookupAfterRunIsDetermined`).
- `find_by_buyer_ids` orders by creation time only: with two newest configs of one buyer the result is not determined
  by the request (`ResultIsDetermined`).

## Model

| member | source | states |
|---|---|---|
| PostClaim.StepKeepsInvExactly | crates/api/src/routes/leads.rs:1464-1559 | The invariant behind the safety results, step by step: the holder's token or the usable sale stays in the row and only finished workers have queued updates, exactly if the step is harmless; when a lead sells twice is the matter of SaleLimits |
| PostClaim.NoDoubleSale | crates/api/src/routes/leads.rs:1464-1481 | In every harmless run at most one worker holds the lead and at most one sale is made |
| PostClaim.DisciplinedIsHarmless | crates/api/src/routes/leads.rs:3622-3636 | With drained ping updates and usable post ids every run is harmless, whatever the interleaving |
| SaleLimits.SellsOnceExactly | crates/api/src/routes/leads.rs:1464-1559 | Before the first post, over all runs with usable answers and no further ping updates: the lead is sold at most once if and only if its window is over, or no queued update writes an empty post id and, while the lead is free, none writes one that looks like a token |
| SaleLimits.DrainedLeadSellsOnce | crates/api/src/routes/leads.rs:3622-3636 | A lead whose queued ping updates all write usable post ids, or that has none, is sold at most once over any interleaving of claims, retries, crashes, refusals and delayed updates |
| SaleLimits.AnswerEndsSaleExactly | crates/core/src/services/ping_tree_router.rs:1443-1453 | With the ping drained, a buyer's answer makes its sale the last one if and only if the window is over or the post id is neither empty, nor the seller's token, nor the token of a queued update |
| PostClaim.OneHolder | crates/api/src/routes/leads.rs:1473-1473 | Two workers past the claim and not finished are the same worker |
| PostClaim.FreeMeansIdle | crates/api/src/routes/leads.rs:1473-1473 | A lead that the claim statement can take is neither held nor sold |
| PostClaim.SaleIsPermanent | crates/core/src/services/ping_tree_router.rs:2207-2218 | A written sale keeps its post id and status through every harmless run and can never be claimed again |
| PostClaim.DelayedUpdateSparesHolder | crates/api/src/routes/leads.rs:1938-1954 | Neither statement of any queued token-carrying update changes the row while a worker holds the lead: no stale release hits a later claim |
| PostClaim.WrittenShutsOutTokens | crates/core/src/services/write_behind_queue.rs:807-945 | After a written sale no token-carrying update changes the row, however late or often it runs |
| PostClaim.NoClaimAfterWindow | crates/api/src/routes/leads.rs:1473-1473 | Once ten minutes have passed no worker ever comes to hold the lead, and any new sale is by one that already held it; no assumption on the run is needed |
| PostClaim.FailOrphansExactly | crates/api/src/routes/leads.rs:1993-2028 | An unfinished handler that ends early, in whatever phase, leaves the lead orphaned if and only if the row shows its token |
| PostClaim.RoutingErrorOrphans | crates/api/src/routes/leads.rs:1993-2028 | That is so for every handler past its claim and before the router's write |
| PostClaim.UnheardClaimIsLost | crates/api/src/routes/leads.rs:1467-1559 | Once a claim has landed unheard, every step that ends the handler's wait orphans the lead |
| PostClaim.LostAckOrphans | crates/api/src/routes/leads.rs:1467-1523 | At every try but the last: the claim lands unacknowledged, is retried, and the retry is told that the promise was already posted |
| PostClaim.OrphanIsPermanent | crates/api/src/routes/leads.rs:1993-2028 | An orphaned lead stays so and is not sold in any run without token-less updates |
| PostClaim.OrphanReopenedExactly | crates/core/src/services/write_behind_queue.rs:936-1035 | A step frees an orphaned lead if and only if it is a token-less update that writes an empty post id |
| PostClaim.SoldAtNeverSetByPosts | crates/core/src/services/write_behind_queue.rs:807-860 | The token-guarded finalisation never takes effect: sold_at is unchanged by every run without token-less updates |
| PostClaim.ClaimableLeadSells | crates/api/src/routes/leads.rs:1466-1487 | A request with the right promise within the window claims a free lead, and its buyer may accept: safety is not bought by refusing everybody; that the promise must be right is LandTakesExactly |
| ClaimTerms.LandTakesExactly | crates/api/src/routes/leads.rs:1471-1487 | A claim that lands takes a row exactly if its post id is null or empty, its promise is the claim's and it is at most ten minutes old; then only the post id changes, otherwise nothing; and the worker routes or stops accordingly |
| ClaimTerms.NothingWithoutClaim | crates/api/src/routes/leads.rs:1464-1487 | Over any run, a worker whose own claim never lands while the row can be taken with the promise it arrived with neither routes, holds nor sells the lead |
| ClaimTerms.HoldersClaimedOnTerms | crates/api/src/routes/leads.rs:1464-1487 | Whoever holds or has sold a lead arrived with one promise and had its own claim land while the row could be taken with it |
| ClaimTerms.WrongPromiseGetsNothing | crates/api/src/routes/leads.rs:1473-1473 | A worker that arrives with a promise the row never has gets nothing, whatever else happens |
| ClaimTerms.AtMostFourClaims | crates/api/src/routes/leads.rs:1468-1481 | In every run a request sends its claim at most four times |
| ClaimTerms.UpdateOutcome | crates/core/src/services/write_behind_queue.rs:801-1035 | What both statements of a queued update together do to the row, field by field, with and without a token, held or not |
| ClaimTerms.FinaliseWouldRecord | crates/api/src/routes/leads.rs:1922-1937 | If the row still showed the token, the finalisation would record status, time and post id of the sale |
| ClaimTerms.ReleaseOnlyEmpties | crates/api/src/routes/leads.rs:1938-1954 | A release changes nothing but the placeholder; the status it carries is never written |
| PostClaim.RefusedLeadSellsNext | crates/api/src/routes/leads.rs:1938-1954 | After a refusal and its release, another request claims and sells the lead |
| PostClaim.ReopenedLeadSellsTwice | crates/api/src/routes/leads.rs:1473-1473 | Any step that empties the post id of a sold lead within the window can be followed by a second sale |
| SaleLimits.LatePingSellsTwice | crates/api/src/routes/leads.rs:3622-3636 | From every initial state with an open window and a queued ping update without post id, whatever the row shows, a run sells the lead twice |
| SaleLimits.TokenPingSellsTwice | crates/core/src/services/write_behind_queue.rs:936-1035 | The same from every free lead with a queued ping update whose post id looks like a token |
| PostClaim.EmptyPostIdSellsTwice | crates/core/src/services/ping_tree_router.rs:1443-1453 | Without usable post ids: a buyer that answers with an empty one makes a second sale possible |
| PostClaim.EchoedTokenSellsTwice | crates/core/src/services/write_behind_queue.rs:807-945 | A buyer that answers with the token itself revives the finalisation, whose second statement frees the lead for a second sale |
| JsonText.ContentReadBack | crates/api/src/openapi.rs:1004-1018 | The serialised text that the scanner is given: string content, once escaped, is read back exactly and has no control characters |
| BraceScanner.FindMatchingBrace | crates/api/src/openapi.rs:998-1030 | On every byte string, malformed or not, the loops terminate and agree with the string-aware automaton |
| BraceScanner.MatchingBraceIsFirstClose | crates/api/src/openapi.rs:997-1030 | The result is the first index at which the string-aware depth is zero, and there is none exactly if the depth stays positive to the end |
| BraceScanner.ContentIsNeutral | crates/api/src/openapi.rs:1004-1018 | Whatever bytes a string holds, reading their escaped form neither leaves the string nor changes the depth |
| BraceScanner.ValueIsNeutral | crates/api/src/openapi.rs:1002-1028 | Reading any serialised JSON value inside an object returns to the same lexer state and never reaches depth zero |
| BraceScanner.ObjectSpan | crates/api/src/openapi.rs:997-1030 | For every JSON object in any surroundings, the scan from its opening brace ends at its own closing brace |
| ExampleSplicer.FindFromExact | crates/api/src/openapi.rs:987-992 | A search gives the first occurrence at or after the start, and none exactly if there is none |
| ExampleSplicer.OpenFoundExactly | crates/api/src/openapi.rs:985-992 | The search ends at a given brace if and only if the five landmarks, each the first of its kind after the one before, lead there |
| ExampleSplicer.ExampleFound | crates/api/src/openapi.rs:985-995 | If the key found is the intended one and its value is an object, with any white space around the colon, the search ends at that object's brace |
| ExampleSplicer.ReplaceRequestBodyExamples | crates/api/src/openapi.rs:1034-1053 | The replacement loop equals the fold of single replacements over the sorted spans, including where a range would panic |
| ExampleSplicer.SpansSorted | crates/api/src/openapi.rs:1047-1047 | The sort yields a permutation in descending order of the opening brace |
| ExampleSplicer.LastToFirstIsAllAtOnce | crates/api/src/openapi.rs:1046-1052 | For any number of disjoint spans, replacing from last to first never panics and gives the untouched segments and replacements in turn |
| ExampleSplicer.SortedSplice | crates/api/src/openapi.rs:1040-1052 | Disjoint spans found in any order are replaced as if all at once |
| ExampleSplicer.FilledIsRendered | crates/api/src/openapi.rs:1034-1053 | Serialising a tree with its gaps plugged is writing the plugs' texts into the text around the gaps |
| ExampleSplicer.HolesClose | crates/api/src/openapi.rs:985-1030 | Given the right opening braces, the scanner gives every example its exact span |
| ExampleSplicer.HolesReplaced | crates/api/src/openapi.rs:1046-1052 | The examples' spans are disjoint and in order, and replacing them plugs the gaps with the new texts and keeps all other bytes |
| ExampleSplicer.ExamplesReplaced | crates/api/src/openapi.rs:983-1053 | Splicing a serialised tree gives the serialisation of the same tree with only the examples replaced, in whatever order the replacements are listed, if the openings found are the examples' |
| ExampleSplicer.MarkedExamplesReplaced | crates/api/src/openapi.rs:985-1053 | The same end to end, from the landmarks in the text alone; paths without landmarks, such as those not in the document, do not hinder the others |
| ExampleSplicer.AbsentPathIsUnmarked | crates/api/src/openapi.rs:987-987 | A path that the document does not have leads nowhere |
| ExampleSplicer.LandmarksSpelled | crates/api/src/openapi.rs:988-989 | The media type and the key searched for, as text |
| RateLimiter.Limiter.Check | crates/api/src/routes/leads.rs:870-920 | One call decides and updates the publisher's bucket as specified, gives the whole new state, and leaves every other publisher's bucket alone |
| RateLimiter.WindowsMoveForward | crates/api/src/routes/leads.rs:872-882 | With clock readings in any order a window start never goes back, and successive windows start at least 3600 s apart |
| RateLimiter.WindowAdmitsAtMostLimit | crates/api/src/routes/leads.rs:884-919 | Each window admits at most 360 requests over the whole run |
| RateLimiter.RefusedExactly | crates/api/src/routes/leads.rs:884-917 | In every run a request is refused if and only if its window has admitted 360 before it, also if its reading lies before the window |
| RateLimiter.BudgetStep | crates/api/src/routes/leads.rs:872-919 | An admission inside the interval costs one unit of what the publisher may still be admitted, and no step gains any |
| RateLimiter.AdmittedWithinBudget | crates/api/src/routes/leads.rs:870-920 | From any bucket a run admits no more than its budget for the interval |
| RateLimiter.RateBound | crates/api/src/routes/leads.rs:870-920 | Any interval of T admits at most 360 for each hour begun and 359 more, but only 360 for each if it exceeds whole hours by just one nanosecond; readings out of order by at most `slack` cost no more than T + slack would |
| RateLimiter.HourBound | crates/api/src/routes/leads.rs:29-30 | No hour admits more than 719 requests if readings are in order |
| RateLimiter.PublishersAreIndependent | crates/api/src/routes/leads.rs:871-878 | In a run of requests by all publishers, each publisher's requests meet what they would meet alone |
| RateLimiter.PublisherRateBound | crates/api/src/routes/leads.rs:870-920 | The rate bound for every publisher over every run of the whole limiter |
| RateLimiter.RateBoundIsReached | crates/api/src/routes/leads.rs:879-882 | For every length of interval an orderly run reaches the bound, so none smaller holds |
| RateLimiter.HourBoundIsReached | crates/api/src/routes/leads.rs:879-882 | A run admits exactly 719 requests in one hour |
| RateLimiter.BusyRunIsOrdered | crates/api/src/routes/leads.rs:872-872 | The clock readings of those runs are in order |
| RateLimiter.RetryAfterIsExact | crates/api/src/routes/leads.rs:884-887 | Waiting as told is enough if and only if the reading was not taken before the window opened, and one second less is never enough |
| KeyScan.LiteralPrefix | crates/core/src/cache.rs:408-410 | A glob-free prefix followed by a star matches exactly the keys with that prefix |
| KeyScan.PrefixPatternExact | crates/core/src/cache.rs:408-410 | Among prefixes without character classes, the pattern means the prefix if and only if the prefix has no wildcard and no backslash |
| CacheService.Redis.Get | crates/core/src/redis.rs:180-214 | A read gives the live entry under the prefixed key, or nothing, or an error |
| CacheService.Redis.SetWithTtl | crates/core/src/redis.rs:220-235 | A write sets one key with the deadline that the lifetime gives, none if it is zero; an error leaves open whether it was applied |
| CacheService.Cache.Get | crates/core/src/cache.rs:42-84 | A lookup in L2 alone: its result, and which of the counters moves |
| CacheService.Cache.SetWithTtl | crates/core/src/cache.rs:172-220 | A write to L2 under the cache's key; without Redis it succeeds and does nothing |
| CacheService.Cache.GetOrInsertWith | crates/core/src/cache.rs:224-337 | Result, whether the source was asked, both levels and both counters are those of the lookup specification |
| CacheService.Cache.GetOrInsertWithSkipNone | crates/core/src/cache.rs:342-402 | The same for the variant, and it returns an absent value only if the source gave one in this very call |
| CacheService.Redis.DeleteInBatches | crates/core/src/cache.rs:437-443 | Deleting in batches of 100 is one deletion of all the keys, or of those up to the batch that failed |
| CacheService.ReachSpelled | crates/core/src/cache.rs:438-442 | Batches are of 100 keys: how many are gone after a failure at any batch |
| CacheService.Cache.DeleteByPrefix | crates/core/src/cache.rs:406-450 | When it succeeds, and what exactly is gone then and after a failure at any batch |
| CacheService.ScannedKeys | crates/core/src/cache.rs:415-435 | The keys gathered are those of all pages, in order, duplicates included |
| CacheService.DelAppend | crates/core/src/cache.rs:439-442 | Deleting two lists of keys one after the other is deleting them as one, and the counts add up, whatever they share |
| CacheService.DelRemovesKeys | crates/core/src/cache.rs:440-440 | Exactly the given keys are removed |
| CacheService.DelCountsLiveKeys | crates/core/src/cache.rs:440-441 | The count is the number of distinct live keys among those given |
| CacheService.DeletesExactlyThePrefix | crates/core/src/cache.rs:404-446 | With a complete SCAN and a glob-free prefix, exactly the live keys with the prefix go, every other entry stays as it is, and the count is the number of keys removed |
| CacheService.PrefixOfL2Key | crates/core/src/cache.rs:408-410 | An entry's Redis key has the deletion's prefix if and only if its cache key has the caller's prefix |
| CacheIsolation.KeySpelled | crates/core/src/redis.rs:176-178 | An entry's key is the environment, a colon, cache, a colon and the caller's key |
| CacheIsolation.KeysApart | crates/core/src/redis.rs:176-178 | For names without colons, two entries have the same key if and only if they are the same entry of the same environment |
| CacheIsolation.ColonsMeet | crates/core/src/redis.rs:176-178 | With a colon in a name, keys of two environments can be the same |
| CacheIsolation.CacheKeysApart | crates/core/src/cache.rs:44-44 | A Redis key of an environment is a cache entry's if and only if it begins with cache and a colon |
| CacheIsolation.PrefixesApart | crates/core/src/cache.rs:408-410 | A deletion's prefix is one of an entry's key if and only if both are of one environment and the caller's prefix is one of the caller's key |
| CacheIsolation.DepositSpares | crates/core/src/redis.rs:220-235 | Storing in one environment changes no entry of another |
| CacheIsolation.LookupIgnores | crates/core/src/redis.rs:180-214 | An entry of another environment is never found |
| CacheIsolation.DeletionSpares | crates/core/src/cache.rs:406-446 | A deletion by prefix, however far it gets, changes no entry of another environment |
| CacheIsolation.EnvironmentsAreIsolated | crates/core/src/cache.rs:224-450 | However the steps of two environments over one Redis interleave, the first one's steps are a run by themselves, with the same caches, calls and entries, and its next step is answered the same |
| CacheRuns.OptionalSound | crates/api/src/routes/leads.rs:966-967 | Coding optional values on top of bare ones is invertible if and only if no bare value is coded as null |
| CacheRuns.AloneIsTheMethod | crates/core/src/cache.rs:224-402 | The steps of one call, uninterrupted, answer what the reader's method does and leave the same caches and counters, for all three readers, times and faults |
| CacheRuns.StepServes | crates/core/src/cache.rs:224-450 | Every step of any call, and every eviction, deletion and garbage write, keeps all entries and pending calls genuine and bounded, and what it hands over is so too |
| CacheRuns.RunKeepsInv | crates/core/src/cache.rs:224-450 | So does every run, however the calls of all processes overlap |
| CacheRuns.StalenessBound | crates/core/src/cache.rs:222-337 | After any run from cold caches with overlapping calls, a value served is one the source gave for that key, found or fetched during the call, less than the longest lifetime plus 3600 seconds plus twice the slack after its birth |
| CacheWitnesses.StalenessIsReached | crates/core/src/cache.rs:271-286 | For every lifetime and slack a run of two processes serves a value one millisecond below the bound |
| CacheRuns.Transparent | crates/core/src/cache.rs:222-402 | If the source is fixed per key, a value served after any run with overlapping calls is exactly what the source would give |
| CacheRuns.SkipNoneIsFresh | crates/core/src/cache.rs:339-402 | In any such run, an absent value from the skip-none reader is what the source says in that very step, which the call itself asked |
| CacheRuns.ReadersAgree | crates/api/src/cache_warmup.rs:123-129 | In one state, a present value served from the caches to the bare or the skip-none reader is served to both, with the same effect; what is served to the optional reader is served to all; and it is served to the optional reader if and only if its L1 holds no live null |
| CacheWitnesses.ZeroTtlNeverExpires | crates/core/src/redis.rs:230-235 | With a lifetime of zero a run serves the first value at any later time, whatever the source gives by then |
| CacheRuns.DeletionIsFelt | crates/core/src/cache.rs:404-446 | After a key is deleted from L2 and over any further run: a call is served a value older than the deletion less the slack if and only if it looks into an L1 with a live readable entry of one, or ends a refill that had found one; the former ends one hour after the deletion or the last such refill, and without a refill pending at the deletion there is none |
| CacheWitnesses.DeletionBoundIsReached | crates/core/src/cache.rs:404-446 | With and without a pending refill, a run serves such a value in the last millisecond that the bound allows |
| QualificationConfigs.AllNone | crates/core/src/models/buyer_qualification_config.rs:56-59 | The early result has exactly the requested buyers, all without a config |
| QualificationConfigs.KeepFirst | crates/core/src/models/buyer_qualification_config.rs:80-86 | Each requested buyer gets its first row and no other buyer appears |
| QualificationConfigs.FindByBuyerIds | crates/core/src/models/buyer_qualification_config.rs:32-89 | On either path the domain is exactly the requested ids and each value is a newest eligible config, or none exactly if there is none; and when it fails |
| QualificationConfigs.FirstIsNewest | crates/core/src/models/buyer_qualification_config.rs:63-86 | The first row of a buyer in the ordered answer is a newest eligible config of that buyer |
| QualificationConfigs.ResultIsDetermined | crates/core/src/models/buyer_qualification_config.rs:68-68 | The result depends on the set of buyers only, not on order, repetition or path, if and only if no buyer has two newest configs |
| QualificationConfigs.OneActiveMeansNoTies | crates/core/src/models/buyer_qualification_config.rs:64-70 | A table with at most one active config per buyer has no ties |
| QualificationConfigs.LookupAfterRunIsDetermined | crates/core/src/models/buyer_qualification_config.rs:32-89 | After any requests to the rule-set handlers, served serially, the lookup has exactly one right result: each buyer's active config if it is enabled |
| QualificationConfigs.UpdateReachesLookup | crates/api/src/routes/dashboard.rs:5957-6037 | After a done update of a buyer's active rule set every right result gives that rule set with its new fields if it is then active and enabled, and nothing for the buyer otherwise |
| QualificationConfigs.CreateReachesLookup | crates/api/src/routes/dashboard.rs:5692-5753 | After a done create that asks for activation every right result gives the new rule set, unless it was created disabled |
| QualificationConfigs.KeyIsTheSet | crates/api/src/cache_warmup.rs:393-399 | Two cache keys are equal if and only if the sets of ids are |
| QualificationConfigs.KeySpelled | crates/api/src/cache_warmup.rs:394-399 | The key's text for two buyers in either order |
| QualificationConfigs.JoinInjective | crates/api/src/cache_warmup.rs:396-399 | Different lists of ids never join to the same text |
| QualificationConfigs.SharedKeySharesResult | crates/core/src/services/ping_tree_router.rs:415-435 | A result cached under a key is right for everybody who computes that key, and equals a fresh one if there are no ties |
| RuleSets.RuleSetTable.CreateRuleSet | crates/api/src/routes/dashboard.rs:5668-5801 | Answer and table after a create, with a fault possible at either statement |
| RuleSets.RuleSetTable.UpdateRuleSet | crates/api/src/routes/dashboard.rs:5916-6040 | Answer and table after an update, field by field, with a fault possible at either statement |
| RuleSets.RuleSetTable.DeleteRuleSet | crates/api/src/routes/dashboard.rs:6321-6370 | Answer and table after a delete |
| RuleSets.HandleKeepsOneActive | crates/api/src/routes/dashboard.rs:5711-5753 | Every request, failing ones included, keeps at most one active rule set per buyer |
| RuleSets.AtMostOneActive | crates/api/src/routes/dashboard.rs:5998-6037 | So does every sequence of requests |
| RuleSets.ActivationOutcome | crates/api/src/routes/dashboard.rs:5711-5753 | A successful activation leaves exactly the new rule set active; a failed one leaves the new one, the former one or none |
| RuleSets.FailedActivationDisarms | crates/api/src/routes/dashboard.rs:5998-6037 | An activation, create or update, leaves a buyer that had an active rule set with none if and only if it was not that rule set's own update, its first statement took effect and its second was not reached or did not |
| RuleSets.OtherBuyersUntouched | crates/api/src/routes/dashboard.rs:6001-6004 | No request changes a rule set of another buyer |
| RuleSets.UpdatedRow | crates/api/src/routes/dashboard.rs:5939-6037 | A done update leaves the row with every given field and every other field kept, and id, buyer and creation time; not-found exactly if the buyer has no such rule set, and then nothing changes |
| RuleSets.UpdateDoneExactly | crates/api/src/routes/dashboard.rs:5957-6040 | An update of an existing rule set is done if and only if no statement that it runs fails |
| RuleSets.CreatedRow | crates/api/src/routes/dashboard.rs:5687-5753 | When a create is done, and its row: enabled unless told otherwise, active only if told so |
| RuleSets.DeletedRow | crates/api/src/routes/dashboard.rs:6321-6332 | When a delete is done and when it finds nothing, and that the row is then gone |
| RuleSets.OtherRowsKept | crates/api/src/routes/dashboard.rs:5711-5753 | Whatever becomes of a request, no other row appears, vanishes or changes, but for deactivation in the same buyer by a request that asks for activation |
| RuleSetRaces.AloneIsHandle | crates/api/src/routes/dashboard.rs:5711-5753 | A handler whose statements nobody interrupts leaves the table that the single request does |
| RuleSetRaces.OneActiveExactly | crates/api/src/routes/dashboard.rs:5711-5753 | Over any run of interleaved handlers, failing and vanishing ones included, each buyer has at most one active rule set throughout if and only if no activating write finds a rival: a rule set that another handler activated since this one's deactivation and that is still active |
| RuleSetRaces.StepKeepsOneActiveExactly | crates/api/src/routes/dashboard.rs:5998-6037 | A single statement keeps the invariant if and only if it is not such a write |
| RuleSetRaces.RivalsComeFromWrites | crates/api/src/routes/dashboard.rs:6001-6037 | Rivals arise only by another handler's activating write for the same buyer in that interval |
| RuleSetRaces.RivalUndone | crates/api/src/routes/dashboard.rs:6321-6326 | Such a write may be undone before it matters: a delete of the rule set ends the rivalry |
| RuleSetRaces.ExclusiveKeepsOneActive | crates/api/src/routes/dashboard.rs:5711-5753 | If no activating write takes effect between another handler's deactivation and its write for the same buyer, the invariant holds throughout any run |
| RuleSetRaces.TwoActivationsExactly | crates/api/src/routes/dashboard.rs:5711-5753 | Of the six orders of two activations' statements, exactly the two serial ones leave one active rule set |
| ZipLists.ZipTables.FindOrCreateZipList | crates/api/src/routes/dashboard.rs:6374-6416 | The buyer's oldest list of the kind, with nothing changed, or a new empty one if there is none |
| ZipLists.ZipTables.AddZips | crates/api/src/routes/dashboard.rs:6446-6465 | Exactly the payload's five-digit ZIPs that are new to the list are added, whatever white space surrounds them, but for inserts that fail |
| ZipLists.ValidZipsExactly | crates/api/src/routes/dashboard.rs:6447-6464 | A text counts if and only if it is five digits and the payload has it with any white space before and after |
| ZipLists.KindOfKey | crates/api/src/routes/dashboard.rs:6428-6434 | The key zip_blacklist is the blacklist's and zip_whitelist the whitelist's |
| ZipLists.ZipTables.StoreZips | crates/api/src/routes/dashboard.rs:6434-6465 | The view of that buyer and kind becomes the union with the payload's ZIPs, or stays as it is if a statement fails; every other view is unchanged, so the kinds never mix; and at most a new list appears, even in a failure after its creation |
| ZipLists.ZipTables.ExtractAndStoreZipCodes | crates/api/src/routes/dashboard.rs:6420-6519 | Each kind is moved from the config to the tables, or stays wholly in the config if its list or an earlier one failed; which of the two, and all else unchanged |
| ZipLists.ZipTables.LoadZipCodes | crates/api/src/routes/dashboard.rs:6522-6563 | The loaded ZIPs of each kind are the view in strictly ascending order |
| ZipLists.ListingIsUnique | crates/api/src/routes/dashboard.rs:6531-6535 | A view has only one such listing, however the ZIPs are spread over lists |
| ZipLists.LoadedAddsNothing | crates/api/src/routes/dashboard.rs:6447-6451 | Every ZIP accepted from a loaded listing is already in the view |
| ZipLists.RowsAdded | crates/api/src/routes/dashboard.rs:6453-6459 | Rows added to a list enlarge the view of that list's buyer and kind and no other |
| ZipLists.MergedConfig | crates/api/src/routes/dashboard.rs:5625-5643 | Merging shows the tables' ZIPs under both keys and changes no other key of the config |
| Text.TrimSplits | crates/api/src/routes/dashboard.rs:6449-6449 | Trimming takes white space from both ends and leaves none there |
| Text.TrimIsTheMiddle | crates/api/src/routes/dashboard.rs:6449-6449 | However white space is put around a trimmed text, trimming gives it back |
| Text.LeqExactly | crates/api/src/routes/dashboard.rs:6535-6535 | The order of ZIPs: a prefix first, else by the first character that differs |
| ZipLists.ZipTables.SaveBack | crates/api/src/routes/dashboard.rs:5964-5977 | Loading, merging and saving back changes no view, with several lists of a kind and failing inserts included, and stores the config without its ZIP keys |
| EnvFile.Environment.LoadEnvLocalTolerant | crates/api/src/main.rs:35-98 | The loop sets the variables and returns the count that the line-by-line meaning of the file gives |
| EnvFile.ParsedAssignment | crates/api/src/main.rs:40-92 | A line with an equals sign binds the trimmed text before the first one, if it is a key, to the cleaned and trimmed text after it |
| EnvFile.BindsNothingExactly | crates/api/src/main.rs:49-60 | Such a line binds nothing if and only if that text is empty, begins with neither letter nor underscore, or has a character that is none of letter, digit and underscore |
| EnvFile.CleanedExactly | crates/api/src/main.rs:61-89 | A value written in double or single quotes or bare, as a URL after psql or not, is cleaned to itself if and only if the form suits it |
| EnvFile.LoadOutcomeExactly | crates/api/src/main.rs:36-97 | Loading panics if and only if some value has a NUL character; the bindings before it take effect, the last of a key winning; otherwise all are counted |
| EnvFile.BindingRoundTrip | crates/api/src/main.rs:49-92 | A binding written in double or single quotes or bare, with any white space around key and value, or as a DATABASE_URL after psql with quotes of its own, is read back exactly if and only if the form suits the value; it is read as a binding of some value in any case |
| EnvFile.NoiseIsSkipped | crates/api/src/main.rs:40-49 | Lines that are blank, start with a hash sign once trimmed, or have no equals sign bind nothing |
| EnvFile.WrittenLinesParse | crates/api/src/main.rs:39-60 | A written file splits into lines that mean what was written, in order |
| EnvFile.FileRoundTrip | crates/api/src/main.rs:35-98 | Writing any bindings, each in any form that suits it, between lines to be skipped and loading them gives exactly those bindings over the old environment, the last one winning, and counts all of them |

## Left out

- HTTP requests and responses, verbose output, logging, metrics and debug files: no state that the properties speak of.
- SQL text, audit logs, prechecks and the columns campaign, buyer, ping id and vertical data: the properties do not depend on them.
- The fullpost branch and the ping auction: of the ping only its updates to the lead row are modelled, as queued token-less updates; the synchronous one at `leads.rs:3556-3619` sets the same columns as the first statement of the queued one.
- Buyers' own view of a sale: a buyer that accepts while its answer is lost counts as a refusal, because the program sees it so.
- A router write that lands after its handler has given up: it would only put the buyer's post id where the orphaned token is.
- Uniqueness of INPROG tokens: each handler's token is its name, so distinct handlers have distinct tokens.
- Scanner depth as a 32-bit number: an overflow needs more than four billion opening braces.
- ExampleSplicer.ReplaceRequestBodyExamples: a range that is not on character boundaries would also panic; spans start and end at braces, so there are none.
- The spans and the identifiers sorted are immutable lists here, not vectors sorted in place.
- A poisoned limiter lock: nothing inside the critical section can panic, so the unlimited path after poisoning is not modelled.
- Limiter counts as 32-bit numbers: they never exceed 360.
- The limiter's buckets of idle publishers, which are never removed: memory, not behaviour.
- A Redis write that lands later than the slack after its fetch, such as one whose call has long been given up.
- The two JSON parsers tried in turn on a cached text are one decoder, and coding a value never fails.
- Capacity limits of L1 as a number: any entry may be evicted at any time.
- Cache hit rate, default lifetimes, `set`, `exists`, `increment` and `increment_with_ttl`: single Redis calls or arithmetic.
- KeyScan.PrefixPatternExact: prefixes with character classes are not characterised; keys are characters where Redis compares bytes.
- SCAN itself: its pages are a parameter, and completeness is assumed as Redis promises it for keys present throughout.
- Early errors of the rule-set handlers (a failing existence query, a buyer without a vertical): they leave the table as it was, like an unknown buyer or a failed delete.
- ZIP columns of other widths: codes have at most five characters, as the column type has it (`migrations/20250105000003_create_buyer_zip_lists.sql:18`).
- Order of ZIP codes under the database's collation: lexicographic here, which agrees on digits.
- Cache warm-up counters and the queries that choose what to warm: shallow loops around the cache's own operations.
- Configuration precedence, secrets, credentials, e-mail and Redis connections: network calls and library wrappers.
