# Zbierak delivery and ingest: a verified model

Zbierak collects errors. An SDK queues events, keeps what it cannot send in a
disk spool and retries; a server stores events idempotently, groups them into
issues and keeps their status, tags and history; an outbox worker delivers
notifications. This project models those state machines in Dafny and proves what
they keep over every run, up to the property they exist for together: the SDK may
send an event any number of times, and the server counts it exactly once.

The project is checked with `dafny verify dfyconfig.toml`. Each row of the table
below names the member whose contract states the property.

## How it is built

Each machine has a pure step function and a `class` whose methods change its
fields the way the code does. The methods are proved to do exactly what the step
function says, and the properties of runs are lemmas about the step function.
Ghost fields record what the properties talk about: the fate of every event, the
accepts of the log throttle, the life of every outbox row.

- `EndToEnd.dfy` puts SDK and server together over a network that loses, delays
  and repeats requests and responses, with any other traffic in between.
  `EndToEndProgress.dfy` says exactly when everything pending can still be
  delivered.
- `Delivery.dfy` is the SDK protocol: captures from any thread, a bounded queue,
  one worker, the spool, flush and shutdown, split at the points where a capture
  can interfere. `DeliverySteps.dfy` says what each action does in terms of queue,
  files, status codes and fates. `DeliveryRuns.dfy` proves conservation of events over all runs,
  `DeliveryOrder.dfy` what an answered flush and a finished shutdown mean, and
  `DeliveryProgress.dfy` that nothing accepted can get stuck.
- `Spool.dfy` is the byte-bounded directory and one undisturbed drain of it;
  `SpoolRuns.dfy` follows it through stores, removals and restarts.
- `Ingest.dfy` is the server's tables and handlers, `IngestRuns.dfy` their
  invariant and its consequences.
- `Outbox.dfy` is the lease and backoff protocol under crashes, and
  `Notifications.dfy` joins it to the issue store that inserts its rows.
- `LoginThrottle.dfy` and `LogThrottle.dfy` are the two throttles, with their
  bounds over whole runs; `LogDecisions.dfy` says which logs are accepted, on what
  was accepted before.
- `Fingerprint.dfy`, `Tags.dfy` and `Slug.dfy` are the kernels the machines rest
  on; `FingerprintParts.dfy` says what the fingerprint walk finds and when that
  tells events apart; `Text.dfy` holds the facts about strings, sorting, joining and splitting,
  `Runs.dfy` what holds of runs whatever their steps.

Clocks are integers that do not run backwards. SHA-256 and BLAKE3 are not
modelled: hashes are an arbitrary function, and grouping is stated on the text
that is hashed. Freshness of random ids (spool file names, storage ids) is a
precondition, or a guard of the step.

## Where the code and its documentation disagree

- `crates/zbierak-sdk/src/bevy.rs:72-75` promises at most `max_events_per_window`
  log events per *rolling* window. The code resets fixed windows, so twice as
  many can fall into one window length: `StraddleDoubles` gives the run for every
  configuration, `RollingBound` the bound that does hold, and
  `RollingMaximumExactly` the exact condition under which the promise is kept.
- `crates/zbierak-sdk/src/bevy.rs:87` promises to skip an identical message within
  the suppression time. Clearing the full table forgets messages too early:
  `ForgettingRepeats` is a run for every configuration that lets three logs through
  in time, and `SuppressionExactly` the exact condition under which the promise is
  kept. `DuplicateSuppression` is what holds of all configurations.
- `src/handlers.rs:3046-3048` says separator runs collapse to single hyphens. At
  49 characters the code drops the hyphen and joins the words: `HyphenDropped`
  is an input, `CollapseExactly` the exact condition. `SlugContent` shows that no
  letter or digit is lost by it.
- `crates/zbierak-protocol/src/lib.rs:66-68` says the server chooses a fingerprint
  when explicit components are absent. `src/handlers.rs:2251-2259` deserialises
  the body with a derived visitor, which also accepts an array of fields by
  position, while `src/fingerprint.rs:3-24` looks fields up by name. In such a
  body components do not become the fingerprint (`PositionalComponentsIgnored`;
  `ExplicitExactly` states exactly when) and do not keep it apart from events
  without components: `ApartExactly` states that they do so exactly in objects, and
  `ComponentsReadAsUser` gives accepted pairs with nothing collected. A body in
  which nothing is collected is grouped by all of its text, event id and time
  included (`BareFallsBack`; `GroupingReadsOnlyProjection` states exactly which
  events the projection decides).
- `crates/zbierak-sdk/src/blocking.rs:220-222` calls an event spilled to disk safe.
  `crates/zbierak-sdk/src/lib.rs:357` numbers spool files per process, so after a
  restart within one millisecond the file just stored sorts before an older one,
  and when the two do not fit together it is evicted at once (`RestartInOneTick`).
  With a clock that moves on across restarts every event just stored survives its
  store (`StoredSurvives`); `SurvivesExactly` is the condition in any listing.
- Explicit fingerprint components may contain newlines, and are joined by
  newlines before hashing, so `["a\nb"]` and `["a", "b"]` are one group.
  `NewlineCollision` shows the accepted events, `ExplicitCollision` states exactly
  when two lists meet.

## Model

| member | source | states |
|---|---|---|
| `EndToEnd.ExactlyOnce` | crates/zbierak-sdk/src/blocking.rs:354-406 | over every interleaving of SDK steps, arrivals (repeated, late, with lost responses) and other traffic: each accepted event is pending, delivered or known lost; each event id the server holds, acknowledged or not, has exactly one row in exactly one issue, was accepted exactly once (never again if it was stored at the start), is counted once and notified at most once; and each delivered event is held |
| `EndToEnd.NothingPendingAllCounted` | README.md:361-364 | when nothing is pending and nothing was rejected, evicted or dropped, every accepted event is delivered and counted exactly once |
| `EndToEnd.DeliveredGrouped` | src/handlers.rs:2255-2266 | barring a hash collision with its own body, a delivered event whose row has a hash is counted in the issue of its own fingerprint |
| `EndToEnd.SidesAlone` | crates/zbierak-sdk/src/blocking.rs:390-406 | composed, SDK and server each make a run they could make alone, so every result about one side holds in the composition |
| `EndToEnd.AckedRecorded` | src/handlers.rs:2283-2314 | a success answer means the event is stored under its hash, or under a row that predates hashing |
| `EndToEnd.LedgerStep` | crates/zbierak-sdk/src/blocking.rs:400-405 | the SDK counts an event as delivered only on a success response to the event it awaits, and never forgets a captured one |
| `EndToEndProgress.PendingDeliverable` | src/handlers.rs:2283-2314 | from every reachable state before a stop, sends and arrivals alone can settle everything pending as delivered and counted once, losing nothing, if and only if no row holds a pending event's id under another hash and no two pending events claim one id with different hashes (unless a row without a hash answers for both) |
| `EndToEndProgress.NextCarries` | crates/zbierak-sdk/src/blocking.rs:362-450 | each step of a worker whose sends succeed delivers a pending event or keeps it pending, makes nothing else pending, and takes no delivery back |
| `EndToEndProgress.RequestAccepted` | src/handlers.rs:2268-2314 | a request is answered with success when no row holds its id under another hash, and adds at most its own row |
| `Delivery.Client.constructor` | crates/zbierak-sdk/src/blocking.rs:327-332 | a client starts idle on the spool it finds, whose events it accounts for |
| `Delivery.Client.CaptureEvent` | crates/zbierak-sdk/src/blocking.rs:223-236 | queues if there is room, else spools; the whole new state and the answer, the stopped and refused cases included |
| `Delivery.Client.Store` | crates/zbierak-sdk/src/lib.rs:263-283 | the spool after a store with the evicted events accounted for, or nothing changed on refusal |
| `Delivery.Client.TryFlush` | crates/zbierak-sdk/src/blocking.rs:304-316 | a flush command is queued exactly when there is room and the worker runs |
| `Delivery.Client.BeginShutdown` | crates/zbierak-sdk/src/async_client.rs:336-337 | marks every clone stopped and nothing else |
| `Delivery.Client.TryPostShutdown` | crates/zbierak-sdk/src/async_client.rs:338 | the stop command goes behind everything queued, and is queued exactly when the client is stopping, there is room and the worker runs |
| `Delivery.Client.ReceiveCommand` | crates/zbierak-sdk/src/blocking.rs:362-388 | takes the oldest command: send, drain for a flush, or stop; a timeout drains without a reply |
| `Delivery.Client.FinishDelivery` | crates/zbierak-sdk/src/blocking.rs:364-371 | delivered, rejected, or spooled for retry (dropped if the spool refuses), by the response |
| `Delivery.Client.ContinueDrain` | crates/zbierak-sdk/src/blocking.rs:420-433 | deadline, empty spool, or the oldest readable file goes out, corrupt ones before it removed |
| `Delivery.Client.FinishRedelivery` | crates/zbierak-sdk/src/blocking.rs:434-448 | a settled file is removed and counted; a retryable response ends the drain with its report |
| `DeliverySteps.CaptureMeaning` | crates/zbierak-sdk/src/blocking.rs:223-236 | in a running client with a fresh file name: with room the event is queued and no file changes; without, it is accepted if and only if the bound is positive and holds its body, and the files are then the longest suffix that fits of the listing with its file in place, its own kept if its name sorts last; otherwise, and in a stopping client, nothing changes |
| `DeliverySteps.CaptureAnswer` | crates/zbierak-sdk/src/blocking.rs:223-236 | accepted, or exactly `SenderStopped`, `Disabled` or `EventTooLarge`, by these conditions |
| `DeliverySteps.StoredBounded` | crates/zbierak-sdk/src/lib.rs:263-283 | when a store is refused and why, and else what is left of the old listing with the new file |
| `DeliverySteps.ClassifyMeaning` | crates/zbierak-sdk/src/blocking.rs:390-406 | 200..299 delivers; no response, 408, 429 and 500..599 retry; every other status is final |
| `DeliverySteps.SendMeaning` | crates/zbierak-sdk/src/blocking.rs:364-371 | on status codes: delivered, rejected without a file, or placed in the spool under its bound, and dropped exactly when it does not fit the spool |
| `DeliverySteps.ResendMeaning` | crates/zbierak-sdk/src/blocking.rs:434-448 | on status codes: a settled file goes and is counted; after no response, 408, 429 or 5xx every file stays and the drain ends with its report |
| `DeliverySteps.FatesOfRun` | crates/zbierak-sdk/src/blocking.rs:390-406 | in every run delivered grows only on 200..299, rejected only on a status outside 200..299, 408, 429 and 500..599, and dropped only when a retry meets a queued event |
| `DeliverySteps.DrainNextMeaning` | crates/zbierak-sdk/src/blocking.rs:420-433 | past the deadline the drain reports all files left; before it the corrupt ones in front go, and the next is sent or the drain reports none left |
| `DeliverySteps.ReceiveMeaning` | crates/zbierak-sdk/src/blocking.rs:362-377 | the oldest command is taken: an event is sent, a flush drains for its caller, a stop command stops the worker |
| `DeliverySteps.RequestsMeaning` | crates/zbierak-sdk/src/async_client.rs:336-338 | flush and stop commands go behind everything queued, exactly while there is room and a worker, the stop only once stopping |
| `DeliveryRuns.Conservation` | crates/zbierak-sdk/src/blocking.rs:223-236 | in every reachable state the accepted events are, with multiplicity, exactly those queued, in flight, spooled, delivered, rejected, evicted and dropped |
| `DeliveryRuns.StepValid` | crates/zbierak-sdk/src/blocking.rs:354-450 | every single action keeps the conservation law, the order of the spool, and the tracking of a file resent while captures evict |
| `DeliveryRuns.ResendConserved` | crates/zbierak-sdk/src/blocking.rs:434-442 | settling a resent file keeps the sum, also when a capture evicted that file during the send |
| `DeliveryOrder.BoundsKept` | crates/zbierak-sdk/src/lib.rs:334-354 | the queue never exceeds its capacity, and the spool its byte bound, or the size it was found with while that is larger |
| `DeliveryOrder.FlushMeansAttempted` | crates/zbierak-sdk/src/blocking.rs:288-324 | an answered flush has had every event queued before it attempted; flushes are answered in order, each at most once |
| `DeliveryOrder.StopMeansAttempted` | crates/zbierak-sdk/src/async_client.rs:326-345 | when the worker has stopped, every event ever queued was attempted and every accepted one is spooled or settled |
| `DeliveryOrder.DrainRefines` | crates/zbierak-sdk/src/blocking.rs:408-450 | undisturbed, the worker's drain steps leave the files and the report of the sequential drain |
| `DeliveryProgress.CatchUp` | crates/zbierak-sdk/src/blocking.rs:362-388 | from every reachable state before a stop command, successful sends settle all that is pending, lose nothing, and answer every queued flush |
| `DeliveryProgress.StepServed` | crates/zbierak-sdk/src/blocking.rs:372-375 | every step keeps each flush taken either answered or being served |
| `DeliveryProgress.StopReached` | crates/zbierak-sdk/src/async_client.rs:336-345 | from every reachable state with a stop command queued, worker steps lead to the stopped state |
| `Spool.PaddedOrder` | crates/zbierak-sdk/src/lib.rs:276 | zero-padded digits order as the numbers do, and are equal only for equal numbers |
| `Spool.NameOrder` | crates/zbierak-sdk/src/lib.rs:276 | file-name order is numeric order on (timestamp, sequence) |
| `Spool.BoundedMeaning` | crates/zbierak-sdk/src/lib.rs:334-354 | eviction keeps the longest suffix, in name order, that fits the bound |
| `Spool.RunningTotal` | crates/zbierak-sdk/src/lib.rs:345-352 | the eviction loop, started on the sum of the sizes, never saturates its subtraction and leaves that suffix |
| `Spool.StoreMeaning` | crates/zbierak-sdk/src/lib.rs:263-283 | when a store succeeds, and then: order, bound, and exactly when the stored event itself survives |
| `Spool.NewestSurvives` | crates/zbierak-sdk/src/lib.rs:263-283 | an event stored under a name that sorts last survives its own store |
| `SpoolRuns.StoredSurvives` | crates/zbierak-sdk/src/lib.rs:263-283 | over every run of stores, removals, other spools' stores and restarts with a clock that does not run backwards and moves on across restarts, every event just stored is in the spool |
| `SpoolRuns.StepStamped` | crates/zbierak-sdk/src/lib.rs:272-276 | every such step keeps all file names stamped before the next (timestamp, sequence) |
| `SpoolRuns.SurvivesExactly` | crates/zbierak-sdk/src/lib.rs:334-354 | in any listing, the event survives its own store if and only if it fits together with the files named after it |
| `SpoolRuns.RestartInOneTick` | crates/zbierak-sdk/src/lib.rs:357 | the numbering restarts with the process: for every bound and any two events that fit alone but not together, a store in the millisecond of the earlier process's last one succeeds and evicts its own event |
| `Spool.DrainMeaning` | crates/zbierak-sdk/src/blocking.rs:408-450 | a drain settles as many events as min(first round that is expired or retryable, events), counts as delivered exactly its success responses, sends one more exactly when a retryable response stops it, keeps order, leaves a suffix, and initial = delivered + rejected + corrupt + remaining |
| `Spool.DrainComplete` | crates/zbierak-sdk/src/blocking.rs:408-450 | with enough settling rounds it sends every event and empties the spool |
| `Spool.Directory.constructor` | crates/zbierak-sdk/src/lib.rs:253-261 | opens the directory as it is found |
| `Spool.Directory.Store` | crates/zbierak-sdk/src/lib.rs:263-283 | the listing after a store, or the error with nothing changed |
| `Spool.Directory.EnforceBound` | crates/zbierak-sdk/src/lib.rs:334-354 | the loop over the listing with its running total leaves the bounded suffix |
| `Spool.Directory.Oldest` | crates/zbierak-sdk/src/lib.rs:288-304 | the oldest readable entry, after deleting the corrupt ones before it |
| `Spool.Directory.Remove` | crates/zbierak-sdk/src/lib.rs:306-308 | exactly the named file goes, if it is there |
| `Spool.WithoutMeaning` | crates/zbierak-sdk/src/lib.rs:306-308 | deleting a name takes exactly the file of that name, and the order stays |
| `Spool.Directory.DrainSpool` | crates/zbierak-sdk/src/blocking.rs:408-450 | the loop leaves the files and reports the counts of the sequential drain |
| `Spool.Sum` | crates/zbierak-sdk/src/lib.rs:345 | the running total of the sizes |
| `Ingest.IngestedIndexed` | migrations/0002_idempotency_roles_activity.sql:24-25 | no ingest violates the unique index on producer ids or on fingerprints |
| `Ingest.InsertLabels` | src/handlers.rs:2363-2379 | the loop with its room counter adds labels in order until fifty are stored |
| `Ingest.Store.IngestEvent` | src/handlers.rs:2239-2436 | the whole transaction: new state and answer, unchanged on every error, both unique indexes kept |
| `Ingest.Store.AcceptEvent` | src/handlers.rs:2316-2426 | everything a new event writes, and the issue it answers with |
| `Ingest.Store.AnswerDuplicate` | src/handlers.rs:2283-2314 | a known id touches only the key's last use, and is refused without a write when the body differs |
| `Ingest.Store.GroupEvent` | src/handlers.rs:2316-2355 | finds or opens the issue of the fingerprint; reopening a resolved one records a regression |
| `Ingest.Store.MergeLabels` | src/handlers.rs:2356-2380 | the labels merged into the issue's tags under the limit |
| `Ingest.Store.SetIssueStatus` | src/handlers.rs:1142-1180 | status and log after the change, nothing for a foreign issue or an equal status |
| `Ingest.Store.ReplaceIssueTags` | src/handlers.rs:1019-1065 | tags and log after the replacement, nothing when the set is the same |
| `Ingest.Store.UpdateIssueTags` | src/handlers.rs:2665-2682 | normalises, then replaces; nothing changes when normalisation fails |
| `Ingest.Store.constructor` | migrations/0001_initial.sql:54-82 | empty tables satisfy the indexes |
| `IngestRuns.TablesConsistent` | src/handlers.rs:2268-2384 | in every reachable state each issue's count is the number of its events, raw and processed events pair up, producer ids and fingerprints are unique, and each event sits in the issue of its fingerprint |
| `IngestRuns.GroupedByFingerprint` | src/handlers.rs:2316-2355 | two events of a project share an issue exactly when they share a fingerprint |
| `IngestRuns.IngestNeverBreaks` | src/handlers.rs:2283-2294 | with a fresh row id the duplicate path always finds its row, and an event is accepted exactly when its id is not stored |
| `IngestRuns.ReplayedAnswer` | src/handlers.rs:2295-2314 | the answer to a stored id after any run: refused unchanged if the stored hash differs, else the original issue and fingerprint with only the key's last use written |
| `IngestRuns.ReplayIdempotent` | README.md:226-228 | the same from the accepting request on: whatever happens between, the replay answers as the first did, or is refused when the body differs |
| `IngestRuns.AcceptCountsOne` | src/handlers.rs:2323-2355 | accepting adds one to the count of exactly the issue of its fingerprint, opened unresolved if there was none, leaves all other issues alone, answers with that issue, and adds exactly the raw and processed rows of the request, its key included |
| `IngestRuns.AcceptNotifies` | src/handlers.rs:2389-2425 | accepting notifies exactly when it opens or reopens an issue, and then exactly the project's enabled endpoints |
| `IngestRuns.OthersCountNothing` | src/handlers.rs:2283-2314 | no other request, ingest or manual, changes a count, an event row or the outbox |
| `IngestRuns.CountedOnce` | src/handlers.rs:2267-2314 | over any run an event id is accepted exactly once if it is ever stored, never forgotten, and notified no more often than accepted |
| `IngestRuns.HistoryFaithful` | src/handlers.rs:1161-1177 | from any database whose log is complete, the empty one included: the log replays from unresolved to the current status with every `from` matching; each manual tag set is contained in the next one's `from`; regressions and their notifications are one list; tags stay valid and at most fifty |
| `IngestRuns.IngestStatuses` | src/handlers.rs:2323-2344 | an ingest changes a status exactly when it joins a resolved issue, which becomes unresolved |
| `IngestRuns.IngestTags` | src/handlers.rs:2358-2380 | an accepted event leaves min(50, stored and labels together) tags, removes none, adds only its own, and touches no other issue's |
| `IngestRuns.LabelsMerge` | src/handlers.rs:2363-2379 | the capped insertion yields exactly as many tags as fit, between the stored ones and the union |
| `IngestRuns.IngestLabels` | src/handlers.rs:2363-2379 | of a new event's labels the first that fit are added, in their order |
| `IngestRuns.StatusLoggedWhenChanged` | src/handlers.rs:1153-1178 | a status change reaches exactly the project's issues, is logged exactly when it changes something, and touches nothing else |
| `IngestRuns.EditLoggedWhenChanged` | src/handlers.rs:1015-1065 | a manual edit succeeds if and only if the issue is the project's, every non-blank entry is valid and at most fifty are distinct; it then stores exactly the tags named, answers with them strictly sorted, and logs the two sorted sets exactly when they differ; otherwise nothing changes, and the error says which; no other issue's tags and no other table change |
| `IngestRuns.ApplyValid` | src/handlers.rs:2239-2436 | every request keeps the whole invariant of the tables, which does not depend on the log |
| `IngestRuns.ApplyLogged` | src/handlers.rs:1161-1177 | every request keeps a complete log complete |
| `Outbox.RetryDelayMonotone` | src/outbox.rs:196-205 | over all integers the delay never shrinks, lies between 5 seconds and a day, and its intermediate product stays small |
| `Outbox.RetryDelayExactly` | src/outbox.rs:196-205 | 5 seconds at zero and below, twice the one before up to the ninth attempt, 3600 at ten and eleven, a day from twelve on |
| `Outbox.BackoffClosedForm` | src/outbox.rs:196-205 | the first n-1 delays sum to 12310 + 86400 * (n - 12) seconds for n >= 12 |
| `Outbox.Server.constructor` | migrations/0001_initial.sql:105-116 | an empty outbox with an idle worker |
| `Outbox.Server.ClaimNext` | src/outbox.rs:46-61 | claims the smallest eligible id and leases it, or nothing exactly when none is eligible |
| `Outbox.Server.Deliver` | src/outbox.rs:106-120 | marks delivered, reschedules, or leaves the row leased when the outcome is lost |
| `Outbox.Server.TakeTurn` | src/outbox.rs:29-36 | one claim and, if a row was claimed, its delivery |
| `Outbox.Server.Run` | src/outbox.rs:23-44 | the worker loop is the run of its claims and deliveries |
| `Outbox.LifeLawful` | src/outbox.rs:46-61 | in every run, crashes included, each row's life is lawful: attempts count up, a claim follows a failure after its delay or an expired lease, nothing follows a delivery |
| `Outbox.DeliveredIsFinal` | src/outbox.rs:107-117 | a delivered row is never claimed again |
| `Outbox.LeaseExclusive` | src/outbox.rs:48-50 | two claims of one row are separated by a failure or by more than 60 seconds |
| `Outbox.CumulativeBackoff` | src/outbox.rs:167-172 | when every earlier attempt failed, the n-th claim is attempt n and waits out the whole backoff since the first, in closed form from the twelfth |
| `Outbox.NeverStranded` | src/outbox.rs:49-50 | in every reachable state an undelivered row is claimable exactly from the later of its due time and lock time + 61, and never later than a day after the last step |
| `Outbox.EnqueueMeaning` | migrations/0001_initial.sql:105-116 | a new row has a new id, no attempts, and is due exactly from its own insertion time; no other row changes |
| `Outbox.ClaimMeaning` | src/outbox.rs:46-61 | a claim takes the smallest due row, counts one attempt and hides it for a minute; it takes none exactly when none is due |
| `Outbox.FinishMeaning` | src/outbox.rs:106-120 | the row is delivered exactly on success, due again after its delay on failure, and left leased when the result is lost; no other row changes |
| `Outbox.EverythingDelivered` | src/outbox.rs:23-44 | after any run, crashes included, a restarted worker with a willing destination delivers every row, in one turn for each undelivered one |
| `Outbox.PatientTurn` | src/outbox.rs:46-61 | a turn a day later delivers the oldest undelivered row and touches no other |
| `Notifications.OneRowPerEndpoint` | src/handlers.rs:2415-2425 | over every run of requests, endpoint deletions and worker actions with crashes: an event has at most one outbox row for an endpoint, has one exactly when its batch names the endpoint, keeps it until the endpoint is deleted, and the row is never claimed again once delivered |
| `Notifications.EveryEndpointNotified` | src/outbox.rs:23-44 | from every reachable state, each endpoint a batch named and nobody deleted has its row delivered after one turn per undelivered row of a restarted worker with willing destinations |
| `Notifications.EndpointDeleted` | migrations/0001_initial.sql:107 | deleting an endpoint deletes exactly its outbox rows and changes no other |
| `Notifications.StepValid` | src/handlers.rs:2389-2425 | every request, endpoint deletion and worker action keeps rows and batches in step |
| `LoginThrottle.Throttle.constructor` | migrations/0004_security_hardening.sql:1 | an empty table |
| `LoginThrottle.Throttle.LoginFailure` | src/auth.rs:47-74 | the table after the one upsert |
| `LoginThrottle.Throttle.LogIn` | src/handlers.rs:420-479 | the order of the checks: nothing is recorded for a bad token or while locked |
| `LoginThrottle.LockedExactlyAfterFifth` | src/auth.rs:45-74 | after every run the identity is locked exactly for the 900 seconds after each fifth of the failures recorded since its last success, the counter is the last one's place in its group of five, and there is a row exactly when there is such a failure |
| `LoginThrottle.LockNeverExtended` | src/auth.rs:53-60 | nothing attempted under an active lock changes the row |
| `LoginThrottle.RunInvariant` | src/auth.rs:47-74 | for every run, successes included, the row agrees with the failures since the last success: attempts outside a lock with a valid token and wrong credentials; they come in groups of five with 900 seconds between groups |
| `LoginThrottle.FailuresInSpan` | src/auth.rs:18-19 | T seconds hold at most 5 * (T / 900 + 1) of the failures recorded since the identity's last success |
| `LoginThrottle.SuccessForgets` | src/auth.rs:76-83 | a success outside a lock removes the identity's row and no other, and the next failure counts one |
| `LoginThrottle.SameIdentity` | src/auth.rs:31-33 | padding and the case of ASCII letters do not make another identity |
| `LogThrottle.Throttle.constructor` | crates/zbierak-sdk/src/bevy.rs:489-495 | the default state |
| `LogThrottle.Throttle.ProcessCaptured` | crates/zbierak-sdk/src/bevy.rs:518-576 | the loop over a batch is the run of its logs, and hands on exactly the accepted messages in order |
| `LogThrottle.Throttle.Process` | crates/zbierak-sdk/src/bevy.rs:525-574 | one pass: window, maximum, duplicate, queueing, table |
| `LogThrottle.RunWindowed` | crates/zbierak-sdk/src/bevy.rs:526-543 | accepts sit inside their windows, windows are a window length apart, and the counters describe the current one |
| `LogThrottle.WindowBound` | crates/zbierak-sdk/src/bevy.rs:540-543 | one fixed window never holds more than the maximum |
| `LogThrottle.RollingBound` | crates/zbierak-sdk/src/bevy.rs:524-543 | any half-open interval one window long holds at most twice the maximum |
| `LogThrottle.StraddleDoubles` | crates/zbierak-sdk/src/bevy.rs:72-75 | for every configuration with a maximum and more than one tick per window a run reaches twice the maximum |
| `LogThrottle.RollingMaximumExactly` | crates/zbierak-sdk/src/bevy.rs:72-86 | the documented rolling maximum holds of all runs if and only if the maximum is zero or the window at most one tick |
| `LogThrottle.DuplicateSuppression` | crates/zbierak-sdk/src/bevy.rs:544-570 | equal accepted messages less than the suppression time apart have a table clearing strictly between; clearings times the table limit never exceed the accepts; the table holds at most max(1, limit) messages |
| `LogThrottle.SuppressionExactly` | crates/zbierak-sdk/src/bevy.rs:87-90 | equal accepted messages are at least the suppression time apart in all runs if and only if the time or the maximum is zero, or windows of at least a tick let too few logs through: at most two for a time of one tick, or one for a time of at most a window and a tick |
| `LogThrottle.ForgettingRepeats` | crates/zbierak-sdk/src/bevy.rs:566-569 | for every other configuration a run fills the table and accepts a message twice within the suppression time |
| `LogThrottle.SuppressedMeansRepeated` | crates/zbierak-sdk/src/bevy.rs:544-550 | only a message accepted less than the suppression time ago is suppressed |
| `LogDecisions.RunJudged` | crates/zbierak-sdk/src/bevy.rs:525-574 | after every run a log is accepted if and only if the client takes it, its window has room (it is new, or holds fewer accepts than the maximum) and no accept of its message since the last clearing is less than the suppression time old; it clears the table exactly when the messages accepted since the last clearing reach the limit; a refused log leaves the accepts unchanged, and is counted as dropped exactly when its window is full |
| `Fingerprint.Collect` | src/fingerprint.rs:26-62 | the recursive walk pushes exactly the texts its specification lists, in order |
| `Fingerprint.CollectTexts` | src/fingerprint.rs:28-32 | the loop over the text keys |
| `Fingerprint.CollectNested` | src/fingerprint.rs:33-44 | the loop over the nested keys |
| `Fingerprint.CollectedPruned` | src/fingerprint.rs:26-62 | deleting at every depth all that the walk does not read leaves its result unchanged |
| `Fingerprint.GroupingReadsOnlyProjection` | src/fingerprint.rs:3-24 | for every accepted event, object or positional array: all accepted events that agree with it on the projection hash the same text if and only if it is an object or something is collected in it |
| `Fingerprint.SameProjectionSameGroup` | src/fingerprint.rs:3-24 | accepted events that agree on the projection are one group when one is an object or has something collected |
| `Fingerprint.FallbackExactly` | src/fingerprint.rs:16-20 | the canonical fallback is reached exactly by accepted arrays in which nothing is collected; all others without explicit components hash their collected parts |
| `Fingerprint.BareFallsBack` | src/handlers.rs:2251-2260 | the array of version, id, time and message is accepted and hashed as its whole text |
| `Fingerprint.ExplicitApart` | crates/zbierak-protocol/src/lib.rs:130-140 | an accepted object with explicit components never shares the hashed text of any accepted event without them, positional ones included |
| `Fingerprint.ApartExactly` | crates/zbierak-protocol/src/lib.rs:66-68 | an accepted event with components shares its hashed text with no event without them if and only if it is an object |
| `Fingerprint.ComponentsReadAsUser` | src/fingerprint.rs:64-78 | accepted arrays in which nothing is collected: up to three components, and the same texts by position in the user, hash the same text |
| `Fingerprint.ExplicitExactly` | src/fingerprint.rs:4-15 | components are what is hashed if and only if the body is an object; giving them changes the hashed text if and only if the body is an object or an array in which nothing is collected |
| `Fingerprint.PositionalComponentsIgnored` | src/fingerprint.rs:4-6 | accepted arrays with an error type, with and without components, hash the same text |
| `Fingerprint.CollectedBegin` | src/fingerprint.rs:26-62 | every collected part begins with one of the four text keys or with `frame:` |
| `FingerprintParts.CollectedExactly` | src/fingerprint.rs:26-62 | a text is collected if and only if some object reached through array items and `frames`, `stack_frames`, `stacktrace`, `exceptions`, `exception` and `error` holds it: as `exception_type`, `error_type`, `type` or `message`, or as its file and function under their two spellings |
| `FingerprintParts.ObjectOrder` | src/fingerprint.rs:28-56 | an object's parts are its four texts in order, what its six nested fields hold in order, and its own frame |
| `FingerprintParts.ArrayOrder` | src/fingerprint.rs:57-61 | an array's parts are those of its items in order, and scalars hold none |
| `FingerprintParts.PlaceDecides` | src/fingerprint.rs:16-23 | two accepted objects without components and with single-line parts, which differ at one place at any depth, hash the same text if and only if the same is collected there |
| `FingerprintParts.FrameDecides` | src/fingerprint.rs:45-56 | another file or function in one frame at any depth is another hashed text, for files without a colon |
| `FingerprintParts.TextDecides` | src/fingerprint.rs:28-32 | another text under one of the four keys at any depth is another hashed text |
| `FingerprintParts.StackHashed` | src/fingerprint.rs:95-100 | a message and a stack of one frame hash as their two lines |
| `FingerprintParts.CanonicalLists` | src/fingerprint.rs:64-78 | the fallback text lists an object's fields once each by ascending key, and an array's items in place |
| `FingerprintParts.StringsRead` | src/fingerprint.rs:7-11 | components that are texts are read in order, others skipped |
| `Fingerprint.ExplicitCollision` | src/fingerprint.rs:7-14 | two explicit fingerprints share a group exactly when their lines agree |
| `Fingerprint.ExplicitInjective` | src/fingerprint.rs:7-14 | for single-line components that is equality of the lists; with newlines it is not, by example |
| `Fingerprint.NewlineCollision` | src/fingerprint.rs:7-14 | two accepted events, one with a component of two lines and one with two components, are one group |
| `Tags.ValidateTagMeaning` | src/tags.rs:12-32 | exactly the padded valid tags are accepted, as their trimmed form |
| `Tags.NormalizeTags` | src/tags.rs:34-56 | the loop with its seen-set computes the normalisation |
| `Tags.NormalizedMeaning` | src/tags.rs:34-56 | succeeds exactly when every non-blank entry is valid and at most fifty are distinct; yields each once, by first occurrence |
| `Tags.NormalizeIdempotent` | src/tags.rs:37-56 | normalising a normalised list changes nothing |
| `Tags.NormalizeCommaSeparated` | src/tags.rs:59-61 | the text form is normalised entry by entry |
| `Tags.FormRoundTrip` | src/templates/issue.html:114 | the edit form's text of any normal tag list parses back to that list, order included |
| `Tags.LabelsMeaning` | src/tags.rs:68-82 | the labels are exactly the event's valid `key:value` or `key` tags |
| `Tags.LabelsInOrder` | src/tags.rs:68-82 | the labels of a list are those of its parts, in order |
| `Tags.ValidateTagErrors` | src/tags.rs:17-32 | which rule a refused tag breaks |
| `Tags.NormalizeErrors` | src/tags.rs:37-56 | the error of the first invalid entry, or too many |
| `Text.SortedComparison` | src/handlers.rs:1034-1039 | a duplicate-free list sorted equals the stored listing exactly when the sets are equal |
| `Text.TrimExactly` | src/tags.rs:18 | trimming removes exactly the blanks at both ends |
| `Slug.Slugify` | src/handlers.rs:3049-3068 | the one-pass generator yields the closed form: words joined by hyphens, bounded to fifty characters |
| `Slug.SlugShape` | src/handlers.rs:3030-3044 | at most fifty characters, no leading, trailing or doubled hyphen, accepted by the validator exactly from two characters on |
| `Slug.SlugContent` | src/handlers.rs:3046-3068 | without its hyphens a slug is a prefix of the lowered letters and digits, all of them unless it has fifty characters |
| `Slug.SlugIdempotent` | src/handlers.rs:3049-3068 | slugs are fixed points of the generator |
| `Slug.CollapseExactly` | src/handlers.rs:3046-3048 | the slug is a prefix of the hyphenated name if and only if no hyphen would take the fiftieth place of a longer one |
| `Slug.HyphenDropped` | src/handlers.rs:3061-3063 | forty-nine letters, a space and a letter yield fifty letters without a hyphen |

## Left out

- HTTP, TLS, DNS, address policy and request signing: a send is a response or its loss; a response may also come from a proxy.
- Disk errors other than a disabled spool and an event too large, failing removals, and partial writes: the spool is its ordered listing.
- JSON text: an event carries its serialised body, which survives the spool unchanged; validation outside grouping is a precondition.
- SHA-256, BLAKE3, Argon2, HMAC and the other cryptography: hashes are an arbitrary function.
- Spool.Directory.Store: takes the clock and the random name part as parameters and requires the name to be unused.
- SpoolRuns.StoredSurvives: the counter is unbounded within its twenty digits; its wrap-around after 2^64 stores is not modelled, nor are foreign files in the directory.
- Fingerprint.ApartExactly: of deserialisation only what grouping relies on is modelled, so the event it exhibits for more than three components, or for a user that is not null, need not be one the service accepts; `ComponentsReadAsUser` is about accepted ones.
- Delivery.Client.CaptureEvent: takes an event that is already redacted and validated; breadcrumbs and the redactor are not modelled.
- Delivery.Client.Store: the worker deletes a spool file without the lock that guards a store. A store that meets a file vanishing under it while it enforces the bound returns an error although its event is on disk; that interleaving is not modelled.
- Delivery.Client.TryFlush: models one attempt to queue the command; the caller's own timeout ends its waiting, not the worker's drain.
- Delivery.Client.TryPostShutdown: for the blocking client the drop of the last handle plays the part of the explicit stop, and no capture can follow it; an async capture racing with the stop between its check and its send is one step here.
- Ingest.Store.IngestEvent: does not model first-seen and last-seen times, payload text or the notification's wording; the issue's slug and link are not part of this model.
- Ingest.Store.SetIssueStatus: sessions, roles and the anti-forgery token are checked before the transaction and are not modelled; nor is the acting user in the log.
- Ingest.Store.UpdateIssueTags: error messages are not modelled, so the form and the management API differ only in how they split the text.
- Interleavings inside one transaction: each handler is one atomic step.
- Deleting projects, which cascades through every table; the service has no such action.
- Comments and their activity entries: they touch none of the modelled columns.
- The rows of `outbox` appear in `Ingest` as one batch per event with its endpoints, and in `Outbox` as rows without payload; `Notifications` keeps the two in step.
- Outbox.Server.Run: one worker; sleeping between turns only moves the clock, and the stored error text with its truncation is not modelled.
- LoginThrottle.Throttle.LogIn: password checking is an outcome given with the attempt; audit records and session creation are not modelled.
- LogThrottle.Throttle.ProcessCaptured: message truncation, severity and the captured frames are not modelled; whether the client queues the event is an input.
- Fingerprint.Collect: numbers are kept as the text JSON writes for them, and how a string literal is quoted is a parameter; of deserialisation only what grouping relies on is modelled, for objects and for arrays by position.
- Stack capture, the panic hook, the tracing layer, the `wasm32` stubs, routing, templates and the OpenAPI description: input and output plumbing.
