# A verified model of the Agent Enrollment Protocol crates

The repository implements a protocol by which software agents enroll at Services, with a Platform that may
hold their identities. This project models the parts of it that carry state or that promise something about
all inputs, and proves those promises.

| module | what it models |
|---|---|
| `KeyedLock` | the registry of per-key locks behind every memory store: fetch, wait, work, leave, release, drop, with reference counts and cancellation |
| `CommandStore`, `CommandOutcomes` | the idempotent-command stores of Service and Platform, run concurrently and compared with an atomic store, and what their calls achieve |
| `IdentityStore`, `IdentityOutcomes` | the Platform's four identity tables under concurrent creation and status updates, and what a call is answered |
| `Assertions` | single use of client assertions at a Service: whole-second windows against exact expiries |
| `HostedVerification` | the Platform's verification: replay store inside idempotent execution |
| `CacheControl`, `Freshness`, `Inspect`, `InspectOutcomes` | the Agent's discovery: field parser, freshness arithmetic, two-key cache, redirects and revalidation |
| `Enrollment` | enrollment records, document obligations and the gate before a grant |
| `Authorization`, `Credentials` | the authorization field, the Service's credential store, and the Agent's header against it |
| `PortableDocument`, `ValueLimits` | the explicit-stack document validator and the threaded-counter limit check, each against a plain definition |
| `OpenApiPath` | the choice of the most specific path template |
| `DidWeb`, `AgentDid` | did:web resolution, minted Agent DIDs, and the check that a Platform publishes where they resolve |
| `Polling` | the status polling loop and the staged Sign loop |
| `Common`, `Text` | shared sum types; splitting, joining and searching text |

Concurrency is modelled as a step system. A run is a list of steps; a step that is not enabled changes
nothing, so a statement about every list of steps is one about every interleaving. Steps are the pieces of a
call between awaits; a call may be cancelled at each await. Where the source changes state in place, a class
does too, and its methods are proved to be those steps.

Instants and durations are whole nanoseconds unless a name says seconds. Clocks, randomness, the network,
policies, handlers, the digest, base64, date readers and the URL parser are parameters that may answer
anything; where a theorem needs more of one, it says so.

Five statements that a reader might expect fail. Each has an input that shows it and the exact condition under
which it holds:

- the lock registry becomes empty: `KeyedLock.EntryCanOutliveItsCalls` and `CancelledCallLeavesEntry`, exactly
  when `KeyedLock.EntryRemainsIff` says;
- an assertion is accepted once under any clock: `Assertions.StaleClockAcceptsTwice`, exactly when
  `Assertions.SingleUseIff` says;
- different assertions have different replay keys: `HostedVerification.ReplayKeyCollision`, exactly when
  `HostedVerification.KeysCollideIff` says;
- a field line that does not parse does not parse when joined: `CacheControl.JoinedMayParseAlone`, exactly when
  `CacheControl.FailingLineJoinsIff` says;
- a passing probe makes a Platform's DIDs resolve: `AgentDid.ProbeCanMislead`, exactly when
  `AgentDid.ProbeDecides` says.

Check the project with `dafny verify dfyconfig.toml`.

## Model

| member | source | states |
|---|---|---|
| `KeyedLock.MutualExclusion` | crates/aep-service/src/store.rs:177-249 | In every run from an empty registry, with any interleaving and a cancellation at either await, two calls inside the critical section of one key are one call |
| `KeyedLock.RegisteredThroughout` | crates/aep-service/src/store.rs:187-202 | In every run, a call that waits, works or is about to release holds exactly the lock object now registered for its key |
| `KeyedLock.ApplyInv` | crates/aep-platform/src/store.rs:249-273 | Every step keeps exact reference counts (map entries plus holders), registered locks, exact owners, fresh identities and one key per lock |
| `KeyedLock.CountTwoIsAlone` | crates/aep-service/src/store.rs:196-198 | With exact counts, a registered lock whose count is two is referred to by no call but the one that leaves |
| `KeyedLock.ReleaseRemovesIffAlone` | crates/aep-platform/src/store.rs:60-74 | Releasing removes the entry if and only if no other call holds a reference to the lock |
| `KeyedLock.StepPhases` | crates/aep-service/src/store.rs:206-249 | A step changes the phase of its own call only and never gives it a lock for another key |
| `KeyedLock.ApplyCounts` | crates/aep-service/src/store.rs:177-202 | Each step keeps every lock's strong count equal to its map entries plus the calls that hold it |
| `KeyedLock.EntryCanOutliveItsCalls` | crates/aep-service/src/store.rs:187-202 | A concrete run of two finishing calls, each seeing the other's reference, after which an unused entry stays registered |
| `KeyedLock.CancelledCallLeavesEntry` | crates/aep-service/src/store.rs:206-249 | A concrete run of one call, never contended and cancelled at work, whose entry stays for good |
| `KeyedLock.KeyRemovedIff` | crates/aep-service/src/store.rs:187-202 | Of all steps exactly a release of the key with no other holder removes its entry |
| `KeyedLock.EntryRemainsIff` | crates/aep-service/src/store.rs:177-249 | In every run after which all calls of a key are over, the key is still registered if and only if the last of them to let go was cancelled, or released while another call held a reference |
| `KeyedLock.SharedRegistry.Fetch` | crates/aep-service/src/store.rs:177-185 | Fetching makes or shares the key's lock and is the Enter step of the protocol |
| `KeyedLock.SharedRegistry.Lock` | crates/aep-service/src/store.rs:214 | Taking a free lock is the Acquire step and changes owners only |
| `KeyedLock.SharedRegistry.Unlock` | crates/aep-platform/src/store.rs:290-327 | Dropping the guard is the Exit step: the lock is free and still registered |
| `KeyedLock.SharedRegistry.ReleaseEntry` | crates/aep-service/src/store.rs:187-202 | The entry is gone afterwards exactly when the caller was the only holder; the new state is the Release step's |
| `KeyedLock.SharedRegistry.DropReference` | crates/aep-platform/src/store.rs:287-331 | The last drop of a call is the DropArc step: one reference fewer, and the call is finished |
| `CommandStore.RunsAreAtomic` | crates/aep-service/src/store.rs:206-249 | In every interleaving with a nondecreasing clock, each key's log is a run of the atomic store in lock order, each event not before those earlier were over and none after the clock, and every reply a call holds is one of its entries |
| `CommandStore.ExecutionsApart` | crates/aep-platform/src/store.rs:278-331 | Two successful executions under one key complete more than 3600 s apart, although every call purges all keys |
| `CommandStore.StoredApart` | crates/aep-service/src/store.rs:218-240 | In any atomic run, of two stored results the later is past the retention of the earlier |
| `CommandStore.RepliesComeFromLatest` | crates/aep-service/src/store.rs:221-228 | A replay repeats the latest stored response of its key, stored before and unexpired at the answer's instant and asked with the same material; a conflict is exactly such a record asked with other material |
| `CommandStore.ReplyAtReading` | crates/aep-service/src/store.rs:215-228 | In every run a replay or conflict is decided by the clock reading the call itself took: by the result stored last before that reading, then still within retention |
| `CommandOutcomes.SuccessIsStored` | crates/aep-service/src/store.rs:230-241 | In every run a call whose operation succeeds is next to store that success and cannot be cancelled; its answer is that response as created, stored and logged with the clock at completion, dated by the Platform if it was not |
| `CommandOutcomes.NoneRunsWithinTheHour` | crates/aep-platform/src/store.rs:290-325 | In every run, once an operation has succeeded no operation of its key runs for more than an hour |
| `CommandOutcomes.LaterCallReplays` | crates/aep-service/src/store.rs:216-228 | In every run a later call of the key that looks within the hour is answered from that success: its response for the same command and request hash, a conflict otherwise |
| `CommandOutcomes.UninterruptedRun` | crates/aep-service/src/store.rs:206-249 | From any state, the steps of one call that finds its lock free run to the end and leave the records and answer of the whole call |
| `CommandStore.AtomicInOrder` | crates/aep-platform/src/store.rs:290-327 | In an atomic run no event comes before an earlier one was over |
| `CommandStore.ApplyInv` | crates/aep-service/src/store.rs:206-249 | Every step keeps: records are the latest stored or expired, running operations are ones the atomic store would run, replies are logged |
| `CommandStore.HitInv` | crates/aep-service/src/store.rs:216-228 | A lookup that finds a live record answers as the atomic store does at that instant |
| `CommandStore.MissInv` | crates/aep-platform/src/store.rs:292-297 | A lookup that purges and finds nothing leaves the key with no live stored result, so its operation may run |
| `CommandStore.InsertInv` | crates/aep-service/src/store.rs:231-242 | Storing a completed operation extends the atomic run and spoils no other call's stage |
| `CommandStore.Alone` | crates/aep-platform/src/store.rs:286-290 | While a call is in its critical section no other call of its key is |
| `CommandStore.MemoryIdempotencyStore.Lookup` | crates/aep-service/src/store.rs:216-220 | Afterwards exactly the records within retention remain, of every key, and the answer is the key's own |
| `CommandStore.MemoryIdempotencyStore.Serve` | crates/aep-platform/src/store.rs:291-327 | Records and outcome are those of one uninterrupted call, the creation time completed for the Platform |
| `CommandStore.MemoryIdempotencyStore.Execute` | crates/aep-service/src/store.rs:206-249 | A whole call: refused without any change when incomplete, otherwise the uninterrupted result and the five registry steps in order |
| `CommandStore.MemoryIdempotencyStore.Hold` | crates/aep-service/src/store.rs:211-214 | Fetching and awaiting the lock is Enter then Acquire, and keeps the registry invariant |
| `CommandStore.MemoryIdempotencyStore.LetGo` | crates/aep-platform/src/store.rs:327-331 | Guard drop, entry release and reference drop are Exit, Release and DropArc, and keep the registry invariant |
| `IdentityStore.IndexesAgree` | crates/aep-platform/src/store.rs:78-141 | After any interleaving of creations, cancellations and status updates each index is in bijection with the records and agrees with their fields |
| `IdentityStore.OneIdentityPerScope` | crates/aep-platform/src/store.rs:79-141 | All successful calls for one principal and Service return the same identity, but for its status and last update |
| `IdentityStore.RecordedForever` | crates/aep-platform/src/store.rs:79-141 | An identity recorded for a scope stays that scope's identity through every later run |
| `IdentityOutcomes.ScopeIsFoundAgain` | crates/aep-platform/src/store.rs:93-103 | In every run a call that looks while its scope has an identity answers with that stored identity and keeps the answer |
| `IdentityOutcomes.FreeScopeCreates` | crates/aep-platform/src/store.rs:102-106 | A call that looks while no record has its scope goes on to create |
| `IdentityOutcomes.SoundCreationIsKept` | crates/aep-platform/src/store.rs:105-138 | In every run a creation sound for its scope is next to be inserted and cannot be cancelled; it is answered and recorded if and only if none of its three names is then taken |
| `IdentityOutcomes.UninterruptedRun` | crates/aep-platform/src/store.rs:79-141 | From any reachable state, the steps of one call that finds its lock free run to the end with the answer and tables its scope calls for |
| `IdentityStore.ApplyInv` | crates/aep-platform/src/store.rs:79-223 | Every step keeps the tables consistent, the scope of a creating call free, and every reply recorded |
| `IdentityStore.Alone` | crates/aep-platform/src/store.rs:90-92 | No two calls of one scope are in their critical sections at once |
| `IdentityStore.InsertedConsistent` | crates/aep-platform/src/store.rs:112-137 | Inserting unused material under a free scope keeps all four tables in bijection and everything already recorded |
| `IdentityStore.StatusUpdatedConsistent` | crates/aep-platform/src/store.rs:210-223 | A status update keeps the tables consistent and every scope's identity |
| `IdentityStore.MemoryIdentityStore.FindInScope` | crates/aep-platform/src/store.rs:93-100 | Finds an identity if and only if some record has that principal and Service |
| `IdentityStore.MemoryIdentityStore.FindByAgentDid` | crates/aep-platform/src/store.rs:48-58 | Finds an identity if and only if some record has that Agent DID |
| `IdentityStore.MemoryIdentityStore.Insert` | crates/aep-platform/src/store.rs:111-138 | Succeeds exactly for unused material, then extends all four tables; otherwise nothing changes |
| `IdentityStore.MemoryIdentityStore.FindOrCreate` | crates/aep-platform/src/store.rs:79-141 | A whole call: an empty scope is refused, a scope's identity is returned unchanged, a sound creation with new names is stored and returned, and anything else is an error that changes nothing |
| `IdentityStore.MemoryIdentityStore.UpdateStatus` | crates/aep-platform/src/store.rs:210-223 | Changes the status and update time of one existing record, and nothing else |
| `Assertions.WindowBeforeExpiry` | crates/aep-service/src/authentication.rs:67-86 | Whenever the whole-second window admits an assertion, its stored expiry, with any fractional clock and skew and through saturation, is strictly ahead |
| `Assertions.GuardSurvives` | crates/aep-service/src/authentication.rs:75-86 | No later call at a nondecreasing instant removes the record of a spent assertion before its expiry |
| `Assertions.GuardRefuses` | crates/aep-service/src/authentication.rs:48-86 | A spent assertion presented again is refused, whichever of the window and the store refuses it |
| `Assertions.GuardedThroughout` | crates/aep-service/src/store.rs:115-128 | From its acceptance on, an assertion stays recorded or expired through the rest of the run |
| `Assertions.SingleUse` | crates/aep-service/src/authentication.rs:35-87 | Over any run with nondecreasing clock readings at the store, from any contents, an assertion (subject, identifier, expiry) is accepted at most once |
| `Assertions.SingleUseIff` | crates/aep-service/src/authentication.rs:35-87 | With clock readings in any order: after an acceptance its subject and identifier are never accepted again if and only if no call reads the clock, at the store, at or past the expiry by the time the pair is presented |
| `Assertions.AcceptedAgainIff` | crates/aep-service/src/store.rs:115-128 | The next presentation of an accepted assertion is accepted if and only if a reading at or past its expiry came strictly between the two |
| `Assertions.KeyAcceptedAgainIff` | crates/aep-service/src/store.rs:115-128 | The next presentation of a pair, of whatever expiry, is accepted if and only if a call since, this one included, read the clock at or past the first expiry |
| `Assertions.NondecreasingNeverPurges` | crates/aep-service/src/authentication.rs:210-220 | Nondecreasing readings never do that before a presentation of the same assertion, because the window closes by the expiry |
| `Assertions.StaleClockAcceptsTwice` | crates/aep-service/src/store.rs:115-128 | A concrete run where it fails: a later reading purges the record and an earlier one accepts the assertion again |
| `Assertions.AcceptsExactly` | crates/aep-service/src/authentication.rs:48-86 | A call is accepted if and only if issuer, subject, audience, operation, resource, method, five-minute lifetime, whole-second window and representable expiry are as documented and no unexpired record has the pair; the pair is then recorded until expiry plus skew |
| `Assertions.MemoryReplayStore.Consume` | crates/aep-service/src/store.rs:115-128 | True exactly when the store held no unexpired record of the pair; then the pair is recorded until its expiry |
| `Assertions.MemoryReplayStore.AuthenticateAssertion` | crates/aep-service/src/authentication.rs:35-87 | Accepts exactly the field-by-field conditions with no unexpired record, returns the verified claims, and leaves the live records with the pair until expiry plus skew |
| `HostedVerification.OneVerification` | crates/aep-platform/src/platform.rs:512-580 | In every run at most one execution vouches for an assertion; any two replies that do share principal, idempotency key, operation and request hash |
| `HostedVerification.VerifiedByWinner` | crates/aep-platform/src/platform.rs:670-716 | A verified reply leads back to the one execution that consumed the assertion, under the same key and material |
| `HostedVerification.ReplayKeyInjective` | crates/aep-platform/src/platform.rs:550-556 | With no NUL in its first three parts the joined replay key determines Service, operation, Agent and identifier |
| `HostedVerification.ReplayKeyCollision` | crates/aep-platform/src/platform.rs:550-556 | A concrete pair that the Platform lets through and that shares a replay key: a Service DID with a NUL, and an identifier with one, for two Agents |
| `HostedVerification.KeysCollideIff` | crates/aep-platform/src/platform.rs:550-556 | Two Service DIDs let different assertions share a replay key if and only if one goes on from the other by NUL, operation, NUL, Agent DID, and then ends or has another NUL |
| `HostedVerification.ConsumedOnlyByItself` | crates/aep-platform/src/platform.rs:550-566 | In every run without a NUL before an identifier, a verification is unseen if and only if it is unexpired and no unexpired one of the same Service, operation, Agent and identifier was consumed |
| `HostedVerification.RepliesAsTold` | crates/aep-platform/src/platform.rs:564-579 | In every run, once an execution has consumed, its reply, unless it fails, vouches for its assertion if that was unseen and for none if it was not |
| `HostedVerification.VerifiedAlone` | crates/aep-platform/src/platform.rs:564-579 | With nothing between, an execution consumes, replies as told and stores that reply |
| `HostedVerification.ConsumeInv` | crates/aep-platform/src/platform.rs:562-566 | Consuming keeps every winner recorded or expired, every spent key a winner's, and every positive verdict about what the execution itself consumed |
| `HostedVerification.StoreStepInv` | crates/aep-platform/src/platform.rs:692-716 | Every step of the idempotent store, the verifying reply included, keeps what replies vouch for |
| `HostedVerification.MemoryReplayStore.Consume` | crates/aep-platform/src/store.rs:347-363 | True exactly for a nonempty key, an expiry ahead and no unexpired record; then the key is recorded |
| `CacheControl.LinesJoin` | crates/aep-agent/src/http_response.rs:140-164 | Field lines that each parse give, joined by commas, the same directives (RFC 9110 section 5.3) |
| `CacheControl.TwoLinesJoin` | crates/aep-agent/src/http_response.rs:140-164 | After a line that parses, joining another parses as the two do apart, failure included |
| `CacheControl.ParsesPrinted` | crates/aep-agent/src/http_response.rs:140-164 | Parsing inverts printing for every list of directives with absent, token or quoted-string arguments (RFC 9110 sections 5.6.2 and 5.6.4) |
| `CacheControl.ParsesOne` | crates/aep-agent/src/http_response.rs:149-156 | Parsing inverts printing for one directive, escapes kept |
| `CacheControl.DirectivesSplit` | crates/aep-agent/src/http_response.rs:144-161 | Parsing goes on after a comma, with any spaces before it, as if it started afresh |
| `CacheControl.JoinedMayParseAlone` | crates/aep-agent/src/http_response.rs:142-156 | A concrete line that does not parse alone and does once joined: a quoted string spans the comma |
| `CacheControl.FailingLineJoinsIff` | crates/aep-agent/src/http_response.rs:140-164 | For a line that does not parse, some continuation makes the join parse if and only if the line ends inside a quoted string |
| `CacheControl.TakeToken` | crates/aep-agent/src/http_response.rs:219-231 | Takes the longest token, leaves the rest, and consumes input whenever it succeeds |
| `CacheControl.TakeParameterValue` | crates/aep-agent/src/http_response.rs:233-259 | Takes a token or a quoted string up to its first unescaped quote, in bounds, and consumes input whenever it succeeds |
| `CacheControl.TakeDirective` | crates/aep-agent/src/http_response.rs:149-156 | Takes one directive and leaves less input |
| `CacheControl.LineLoop` | crates/aep-agent/src/http_response.rs:143-161 | The cursor loop gives the grammar's directives of one line, or fails where the grammar does |
| `CacheControl.CacheDirectives` | crates/aep-agent/src/http_response.rs:140-164 | All lines, in order; one that fails makes the whole fail |
| `Freshness.FreshMeansYoung` | crates/aep-agent/src/http_response.rs:65-117 | A fresh entry's own age, whole-second request delay and resident time add up to less than its lifetime, and so does the time since its Date, with no saturation in the way (RFC 9111 sections 4.2 and 4.2.3) |
| `Freshness.FreshIff` | crates/aep-agent/src/http_response.rs:65-117 | From its receipt on an entry is fresh if and only if it may be stored, no directive says no-cache, its age and lifetime can be told, and it is younger than the lifetime by its stated age and by its Date |
| `Freshness.LifetimeIs` | crates/aep-agent/src/http_response.rs:82-108 | From parsed directives: one max-age in seconds goes first, several or an unreadable one leave none, then Expires less Date and never negative, then 300 s |
| `Freshness.StorableIff` | crates/aep-agent/src/http_response.rs:56-63 | A response may be stored if and only if Cache-Control parses and names no-store in no case, and no stretch of Vary between commas is a star |
| `Freshness.NamesSpelled` | crates/aep-agent/src/http_response.rs:56-84 | The three directive names the model looks for are no-store, no-cache and max-age |
| `Freshness.FreshUntilDeadline` | crates/aep-agent/src/http_response.rs:65-117 | From its receipt on an entry is fresh exactly until one fixed instant |
| `Freshness.StaleStaysStale` | crates/aep-agent/src/http_response.rs:112-117 | For fixed headers a stale entry never becomes fresh again as the clock grows |
| `Freshness.StoredAge` | crates/aep-agent/src/http_response.rs:35-42 | Reading back the stored Age gives the response's age plus the request delay, saturated at 64 bits, and fails exactly when the response's Age does |
| `Freshness.LifetimeBounded` | crates/aep-agent/src/http_response.rs:82-108 | No lifetime reaches the longest duration, so a saturated age is never fresh |
| `Freshness.DigitsValue` | crates/aep-agent/src/http_response.rs:126-130 | Reading a rendered decimal gives the number |
| `Freshness.KeepHeaders` | crates/aep-agent/src/http_response.rs:21-34 | The loop keeps exactly the lines of each cached field from the response, or from the prior entry, never the prior Age or Date |
| `Freshness.BuildCacheHeaders` | crates/aep-agent/src/http_response.rs:14-44 | The loop and the age correction together give the stored headers |
| `Inspect.SuccessIsBound` | crates/aep-agent/src/inspect.rs:216-276 | Every success has a final URL that is a safe target on the Service's origin, and a did:web Service DID whose document URL has that origin |
| `Inspect.RequestsBounded` | crates/aep-agent/src/inspect.rs:44-115 | One inspection sends at most six requests, each a safe redirect from the one before |
| `Inspect.FetchChain` | crates/aep-agent/src/inspect.rs:47-115 | From any URL and redirect count: the chain is safe, bounded by what is left, and its entry belongs to its last URL |
| `Inspect.ChainSafe` | crates/aep-agent/src/inspect.rs:106-113 | The end of a chain of safe redirects is a safe target of its start's reference |
| `Inspect.SafeTransitive` | crates/aep-agent/src/inspect.rs:270-276 | Safe redirection is transitive |
| `Inspect.SessionCacheOk` | crates/aep-agent/src/inspect.rs:17-168 | After any session the cache is empty or holds one storable, origin-bound entry under exactly the advertised and its final URL |
| `Inspect.InspectKeepsCache` | crates/aep-agent/src/inspect.rs:17-168 | Every inspection, whatever its outcome, keeps the cache in that shape |
| `Inspect.UpdatedOk` | crates/aep-agent/src/inspect.rs:142-164 | An update leaves exactly the new entry under its two keys, or nothing when it may not be stored: no orphan of the previous final URL |
| `Inspect.DocumentsWereReceived` | crates/aep-agent/src/inspect.rs:116-141 | Any document a session returns, cached or revalidated, answered a request that one of its inspections sent, as a successful response of the right type and size from the Service's origin |
| `InspectOutcomes.ServedFromCacheIff` | crates/aep-agent/src/inspect.rs:19-46 | An inspection sends nothing if and only if the cache holds a usable entry whose deadline the clock has not reached; it then answers that entry's document, and otherwise first asks the entry's final URL or the advertised one |
| `InspectOutcomes.SucceedsIff` | crates/aep-agent/src/inspect.rs:44-168 | An inspection that sends anything succeeds if and only if a chain of at most five safe redirects, asked with the usable entry's validators, ends in a 304 or a sound document bound to its origin; it sent that chain, answers that entry and stores it under both URLs, or neither |
| `InspectOutcomes.ExchangeIff` | crates/aep-agent/src/inspect.rs:47-135 | What an inspection fetches is exactly the end of such a chain, told from status, Location, validators and headers |
| `Inspect.InspectedDocument` | crates/aep-agent/src/inspect.rs:116-164 | One inspection returns and caches only a document that answered its own last request or the one already cached |
| `Inspect.FetchedDocument` | crates/aep-agent/src/inspect.rs:116-135 | A chain's entry holds the document that answered its last request, or the cached one after a 304 |
| `Inspect.EntryFromLast` | crates/aep-agent/src/inspect.rs:47-135 | The entry of a chain was given by the visit to its last URL, after exactly the redirects that led there |
| `Inspect.Follow` | crates/aep-agent/src/inspect.rs:44-168 | The redirect loop equals the recursive chain and never reaches its unreachable end |
| `Inspect.Session.Reuse` | crates/aep-agent/src/inspect.rs:19-33 | An entry whose final URL is unsafe or whose headers may not be stored is dropped, with its alias when that is safe; any other is returned and kept |
| `Inspect.Session.Inspect` | crates/aep-agent/src/inspect.rs:17-168 | Result, cache and requests are those of one inspection, and earlier requests are kept |
| `Inspect.Session.InspectAll` | crates/aep-agent/src/inspect.rs:17-168 | Any number of inspections from an empty cache keeps its shape and sends at most six requests each |
| `Inspect.Session.Store` | crates/aep-agent/src/inspect.rs:142-164 | The three cache operations together give the updated cache |
| `Enrollment.RunEvolves` | crates/aep-service/src/service.rs:396-519 | Over any serial run with any policy: Agent DID, creation time, status and its time stay; claim names never vanish; acknowledgements only grow; the record's own required list only shrinks |
| `Enrollment.RunOwesLess` | crates/aep-service/src/service.rs:458-536 | Over any serial run with any policy no document an Agent does not owe comes to be owed |
| `Enrollment.UpdateEvolves` | crates/aep-service/src/service.rs:474-513 | One saved update does the same, and the merge gives each claim the request's value if it has one, else the old |
| `Enrollment.UpdateSettlesDeclared` | crates/aep-service/src/service.rs:486-503 | After a saved update that acknowledges A the outstanding documents are, in order, the previous ones minus A |
| `Enrollment.NewRecordOwesUndeclared` | crates/aep-service/src/service.rs:421-451 | A new record owes exactly the required documents it did not declare |
| `Enrollment.FirstEnrollmentIff` | crates/aep-service/src/service.rs:414-456 | The first enrollment makes the record, field by field and with the status the policy decides, if and only if nothing required is missing; the response reports that status, and otherwise nothing changes |
| `Enrollment.UpdateIff` | crates/aep-service/src/service.rs:458-519 | A later enrollment changes the record, field by field, if and only if the policy agrees and nothing required is left missing; otherwise nothing changes |
| `Enrollment.SettledDocuments` | crates/aep-service/src/service.rs:521-536 | The outstanding list after a change that settles A is the previous list without A |
| `Enrollment.AcceptedExactly` | crates/aep-service/src/service.rs:538-554 | Accepted ids extend the existing ones by exactly the declared ids the Service lists |
| `Enrollment.HandlerRunsIff` | crates/aep-service/src/service.rs:166-209 | A fresh grant runs its handler if and only if the record is Active, the grant type is handled, every claim is present and every required document is settled |
| `Enrollment.DecisionDecidesGrant` | crates/aep-service/src/service.rs:166-209 | An accepted Agent's handler runs once every required document was acknowledged, a deferred Agent is blocked as pending, a rejected one is not recognized |
| `Enrollment.AcknowledgingListedDocumentsSuffices` | crates/aep-service/src/service.rs:194-209 | Once claims are complete, acknowledging what a refused grant lists lets the next grant run |
| `Enrollment.AgentAcceptsWhatItSends` | crates/aep-agent/src/commands.rs:21-81 | Of every enrolled response of the Service, the Agent's acknowledgement check refuses only answers to acknowledgements it does not send |
| `Enrollment.Service.AcceptedDocuments` | crates/aep-service/src/service.rs:538-554 | The pushing loop gives the accepted ids |
| `Enrollment.Service.ExecuteEnroll` | crates/aep-service/src/service.rs:396-456 | Response and store are those of one enrollment command, errors and first records included |
| `Enrollment.Service.UpdateEnrollment` | crates/aep-service/src/service.rs:458-519 | The field-by-field update gives the updated record, or leaves the store alone |
| `Credentials.AgentHeaderAuthenticates` | crates/aep-agent/src/authentication.rs:168-207 | The header an Agent builds from a saved credential makes the store return that credential if and only if it is unrevoked and unexpired and it is an API key, the carrier is Standard, or the secret has no comma |
| `Credentials.AtMostOneMatch` | crates/aep-service/src/credentials.rs:289-318 | In every reachable store a request authenticates at most one record |
| `Credentials.RunUnique` | crates/aep-service/src/credentials.rs:367-387 | Over any run grant type, header and digest identify at most one record, revoked ones included |
| `Credentials.RevokedForever` | crates/aep-service/src/credentials.rs:329-387 | After a revocation that credential never authenticates again, and neither its id nor its digest can be issued again under that type and header |
| `Credentials.RevocationEndsIt` | crates/aep-service/src/credentials.rs:329-358 | From either revocation of a stored credential on, whatever happens next, no request authenticates it |
| `Credentials.RevocationTouchesOnly` | crates/aep-service/src/credentials.rs:329-358 | A revocation sets the time of the records of that Agent, grant type and, for one, identifier, and changes nothing else |
| `Credentials.SavedIff` | crates/aep-service/src/credentials.rs:360-431 | A credential is stored, as a digest under its header, if and only if it is sound, agrees with its issue, and its id and secret are new; otherwise nothing changes |
| `Credentials.SeveralProveNothing` | crates/aep-service/src/credentials.rs:295-298 | Headers that each authenticate a credential authenticate none when sent together |
| `Credentials.RunPersists` | crates/aep-service/src/credentials.rs:329-387 | A record never changes but for its revocation, which is never taken back |
| `Credentials.RenderedIsPresented` | crates/aep-service/src/credentials.rs:452-506 | A rendered credential alone in a request is presented once, under either carrier, unless a comma spoils the dedicated one |
| `Credentials.Authenticate` | crates/aep-service/src/credentials.rs:289-318 | Scanning the records in any order returns exactly the one record the request authenticates |
| `Credentials.MemoryCredentialStore.SaveRecord` | crates/aep-service/src/credentials.rs:360-387 | Saves exactly valid records with an unused id and secret; otherwise nothing changes |
| `Credentials.MemoryCredentialStore.RevokeOne` | crates/aep-service/src/credentials.rs:329-344 | Revokes the named record of that Agent and grant type, and nothing else |
| `Credentials.MemoryCredentialStore.RevokeAll` | crates/aep-service/src/credentials.rs:346-358 | Revokes exactly the records of that Agent and grant type |
| `Authorization.ParseInvertsRender` | crates/aep-core/src/http.rs:87-157 | Parsing inverts rendering if and only if a dedicated credential has no comma |
| `Authorization.ParsesExactly` | crates/aep-core/src/http.rs:116-157 | Parsing accepts exactly: a scheme in any case, blanks, one visible token, blanks; and no comma under the dedicated header |
| `Authorization.RenderNormalizes` | crates/aep-core/src/http.rs:87-157 | What was parsed can be rendered and parses as the same again |
| `PortableDocument.Validate` | crates/aep-core/src/documents.rs:239-294 | Reports no issue if and only if the recursive definition admits the document: header, nonempty content and summary, block count, nesting, list and text bounds |
| `PortableDocument.CheckBlocks` | crates/aep-core/src/documents.rs:255-292 | The worklist, with its early stop, finds nothing exactly when every block is valid at its depth and there are at most 1024; it terminates on the size left |
| `PortableDocument.CheckBlock` | crates/aep-core/src/documents.rs:268-291 | One block and its children left for later are together valid exactly when the block is |
| `PortableDocument.CheckItems` | crates/aep-core/src/documents.rs:282-290 | Finds nothing exactly for 1 to 128 items within the text bound |
| `PortableDocument.Replaced` | crates/aep-core/src/documents.rs:262-280 | Popping a block and pushing its children one level deeper removes one from the size left and keeps what must be valid |
| `ValueLimits.WithinValueLimits` | crates/aep-service/src/service.rs:776-807 | The short-circuiting traversal accepts exactly when the member total, the deepest nesting and every string and name are within bounds |
| `ValueLimits.WithinLimits` | crates/aep-service/src/service.rs:780-807 | From any count so far: accepts exactly when the plain conditions hold, and then adds exactly the members of the value |
| `ValueLimits.DepthOkIff` | crates/aep-service/src/service.rs:788-799 | What the traversal asks at each depth is a bound on the deepest nesting |
| `OpenApiPath.MatchOpenApiPath` | crates/aep-core/src/openapi.rs:108-174 | Answers a template exactly when one list position matches most specifically, Ambiguous for several, NotDocumented for none, and refuses an invalid target |
| `OpenApiPath.OrderIrrelevant` | crates/aep-core/src/openapi.rs:122-169 | Rearranging the templates cannot change the outcome, repeated templates included |
| `OpenApiPath.TiesAreAlike` | crates/aep-core/src/openapi.rs:128-164 | What ties with a most specific match is exactly what differs from it in placeholder names only |
| `OpenApiPath.LiteralPreferred` | crates/aep-core/src/openapi.rs:128-164 | Of two templates the more specific is literal at the first position where exactly one has a placeholder |
| `OpenApiPath.BestIsTop` | crates/aep-core/src/openapi.rs:151-164 | What the scan holds at the end is a most specific match, and its flag says whether there is another |
| `OpenApiPath.MatchSegments` | crates/aep-core/src/openapi.rs:128-150 | The inner loop matches exactly segments that are equal or placeholders, and then gives the specificity vector |
| `OpenApiPath.TryTemplate` | crates/aep-core/src/openapi.rs:122-150 | One template matches exactly when its segments do, count included, and then with their specificity |
| `OpenApiPath.OneTrailingSlash` | crates/aep-core/src/openapi.rs:214-221 | Equivalent mode ignores one final slash, if and only if the path is the root or did not end in one already |
| `OpenApiPath.UpperExactly` | crates/aep-core/src/openapi.rs:112 | The method of a match is the request's with its ASCII letters in upper case and nothing else changed |
| `DidWeb.DecodeEncode` | crates/aep-platform/src/document.rs:292-294 | Percent decoding inverts percent encoding for every byte string |
| `DidWeb.ResolvedWhereNamed` | crates/aep-core/src/did_web.rs:28-80 | A resolved URL splits into the authority, the identifier's own parts and the document name: no part adds or drops a segment, is a dot segment once decoded, or starts a query or fragment |
| `DidWeb.HostResolves` | crates/aep-core/src/did_web.rs:59-80 | A bare host resolves to its well-known document, and a path part after it to the document under that path |
| `DidWeb.HostStaysHost` | crates/aep-core/src/did_web.rs:201-242 | A host that passes holds only letters, digits, hyphens, dots, colons and brackets |
| `DidWeb.LabelsMakeHost` | crates/aep-core/src/did_web.rs:201-242 | Nonempty labels of letters, digits and hyphens make a host, alone or with a port of up to five digits |
| `DidWeb.PartKeepsInside` | crates/aep-core/src/did_web.rs:245-253 | A part whose decoding is an allowed segment holds no slash, question mark or number sign, escaped or not |
| `AgentDid.MintedResolves` | crates/aep-core/src/did_web.rs:28-80 | A minted DID resolves, to its host, prefix and escaped identifier, exactly when host, prefix parts and identifier are ones a URL can carry |
| `AgentDid.ProbeDecides` | crates/aep-platform/src/platform.rs:56-69 | When the probe passes, every allowed identifier resolves to its published URL if and only if the template's placeholder stands where the identifier stands in the resolved URL |
| `AgentDid.OnceSuffices` | crates/aep-platform/src/platform.rs:56-69 | When the probe passes and its word occurs once in the probe URL, every allowed identifier resolves to its published URL |
| `AgentDid.ValidationDecides` | crates/aep-platform/src/platform.rs:56-69 | Both results hold of the word the Platform probes with |
| `AgentDid.ProbeCanMislead` | crates/aep-platform/src/platform.rs:56-69 | Otherwise it can fail: a Platform whose prefix is the probe word passes with a template that misplaces the identifier |
| `AgentDid.CreateServiceScopedAgentDid` | crates/aep-platform/src/document.rs:33-56 | The pushing loop mints the joined, encoded parts, and refuses an empty identifier or a host that is not in normal form |
| `AgentDid.PushParts` | crates/aep-platform/src/document.rs:47-53 | The loop appends exactly the nonempty prefix parts, encoded and in order |
| `Polling.WaitForActive` | crates/aep-agent/src/commands.rs:100-145 | For any replies and any clock: at most floor(timeout/interval)+1 calls, total sleep at most the timeout, every earlier reply a waiting one before the timeout, and an outcome that says what the last reply and the clock were |
| `Polling.AttemptsExactly` | crates/aep-agent/src/commands.rs:115-120 | The bound on calls is one more than the whole intervals in the timeout |
| `Polling.HonestTimeout` | crates/aep-agent/src/commands.rs:112-143 | When every sleep takes its time, a timeout is never reported with an interval or more left |
| `Polling.Sign` | crates/aep-agent/src/platform_provider.rs:543-611 | For any keys, replies and resolver: at most eight Sign calls, no two with one idempotency key, each stage carrying the resolution of the one before, and signed exactly when the last reply completed |

## Left out

- HTTP transports, the axum and tower adapters, examples, the conformance harness and scripts: input and output plumbing.
- JSON decoding, RFC 3339 and HTTP-date text: the model starts from decoded values and from instants.
- The URL parser: URLs are records in `Inspect`; in `DidWeb` a parameter gives the normal form of an authority, and a path that passes the segment check is its own normal form.
- Signature verification, key import, SHA-256, base64 and `media_type_matches`: parameters. No collision assumption is made; credential uniqueness is over digests.
- Mutex poisoning, problem bodies, titles and headers, Debug redaction, and the flat field validators of `protocol.rs`, `inspect.rs` and `claims.rs` in the core crate: long and branch-local.
- Stores seeded with records by their `new(records)` constructors: runs start from empty stores, except where a statement says from any contents.
- Overflow of `stored_at + RETENTION` at the end of representable time.
- Concurrent enrollments under different idempotency keys, which can overwrite each other: enrollment runs are serial.
- Enrollment.HandlerRunsIff: is about a fresh grant; a replayed one answers from the idempotency store, whose behaviour is `CommandStore`.
- MemoryIdentityStore.list: filtering, library sort, reversal and slicing; it changes nothing and no other property depends on it.
- HostedVerification.OneVerification: takes clock readings as nondecreasing in the order in which calls consume; the Service's store, of the same shape, is treated for readings in any order by `Assertions.SingleUseIff`.
- Inspect: the loopback exception for plain HTTP documents and the session's inspect lock are not modelled; inspections of one session are serial. A custom cache is any map handed to one inspection; the shape theorem is about the memory cache.
- DidWeb: the loopback option, which changes the scheme only, and fetching the resolved document.
- Credentials: the order of several presentations, since the store only uses their number and a lone one's value; `has_presentation`; seeded revocation times.
- ValueLimits: the bound on the encoded length, a comparison before the traversal, and absent claims, which pass.
- PortableDocument: issue texts and paths; issues are told apart by kind only.
- Authorization: error codes of a refused field; a refusal is one value.
- OpenApiPath: the security resolution and the URL resolution of the same file, which are branch-local.
- Polling: the contents of replies beyond what decides the next step; deletion of revoked credentials.
