# Northstar in Dafny

A model of the stateful protocols of the Northstar order platform and proofs about every run of them.
The repository holds two runtimes. The product runtime creates orders durably: a Redis lock and result
cache in front of a PostgreSQL transaction with a unique (tenant, idempotency key) constraint, and an
outbox of webhook deliveries worked off under leases. The lab runtime keeps everything in memory: a
bounded event log with subscriptions, an idempotency registry, token buckets, a circuit breaker and
retries.

Time is an integer number of nanoseconds. Code that works step by step is a method or a class whose
contract ties the new state to a function of the old one; what happens between critical sections -
other requests, other workers, the clock, failures - is a step system over that same function, and the
main results are about all of its runs.

| module | what it holds |
|---|---|
| `Orders`, `OrderSafety`, `OrderRequests`, `OrderAnswers`, `FirstResponse`, `OrderExclusion` | order creation as interleaved requests with lock and result expiry and with calls that fail or lose their answer; safety on all runs, what a request carries of its caller's, how it is answered undisturbed whatever Redis does, who answers "not replayed", mutual exclusion on runs without Redis faults |
| `OrderDriver` | the source's control flow for a creation, against arbitrary interference; each of its paths is a run of `Orders` |
| `Outbox`, `OutboxTiming`, `OutboxLeases`, `OutboxWorker`, `FailureText` | the delivery table, the accounts of claims and attempts over all runs, how long a lease keeps others away and a failure waits, what lease expiry changes, the worker's control flow as a run of them, and which failure texts can be stored |
| `EventLog`, `Retention`, `Subscriptions`, `Overflow`, `Cursors` | the event log with its channels; what it holds; runs of writers, readers, cancels, overflows and resets; when a subscriber is dropped; which cursors a client can come back with |
| `Breaker`, `Recovery`, `Idempotency`, `Coalescing`, `Limiter`, `Refunds`, `Admission`, `Retry` | the reliability primitives, their interleaved runs, when the circuit lets callers through, whom a duplicate call follows, late refunds, and the three-layer admission |
| `Dependency`, `Lab`, `LabRuns`, `LabCounters`, `LabOverlap` | the synthetic dependency behind breaker and retry, the service that composes all of it, its counters over all runs, and two overlapping equal calls |
| `Text`, `Signatures`, `SignatureHeaders`, `Fingerprint` | decimal and hexadecimal printing and parsing, the webhook signature header with one or more signatures, the request fingerprints |
| `Common`, `Domain` | shared value types |

## Where the code does not do what one might expect

Each of these has a lemma for the exact condition or the bound that does hold, and a run that shows the
failure unless the condition itself names the failing inputs.

- A delivery's attempts can exceed `max_attempts`: the failure report compares the worker's snapshot, not
  the row. What makes it possible is an expired lease. Until one expires - replays or not - one worker at a
  time holds the delivery, attempts stay within `max_attempts`, a dead letter has exactly `max_attempts`, and
  every report counts (`AttemptsWithoutExpiry`, `OneWorkerWithoutExpiry`, `EveryReportCounts`). Afterwards,
  without replays, the bound is `max_attempts` plus the number of expired leases (`AttemptsBound`), reached
  for every `max_attempts` and every number of expiries (`AttemptsBoundIsReached`).
- A 2xx answer is recorded exactly if its report still finds the row in processing, and only an expired lease
  can take the row away (`AcceptedIsRecordedIff`); it does so for every `max_attempts`, without any replay
  (`AcceptedIsLostAfterExpiry`).
- A delivery becomes a dead letter short of `max_attempts` exactly if a failure report's snapshot had reached
  `max_attempts` and the row, in processing again, has not; that takes an expired lease and a replay after it
  (`EarlyDeadLetterIff`, `EarlyDeadLetterNeedsBoth`), and happens for every `max_attempts` of at least 2
  (`StaleReportAfterReplay`).
- A key can have an order and a successful response without any response saying `replayed: false`
  (`FirstResponseMayBeMissing`). The request that wrote the order says it exactly if its insert was
  acknowledged and it did not fail to store its result (`FirstResponseIff`).
- A refund is not always the inverse of an allow. Straight after it, or with only a refill in between, it is
  (`RefundUndoesAllow`, `RefillBetweenIsHarmless`); with one more grant in between exactly if the tokens
  before and the inflow since fit into the bucket (`RefundAfterOneMore`); after any operations of which none
  was refused, exactly if without the request nothing would have been lost to the cap, or the bucket would
  end full, and otherwise it leaves more, never less (`LateRefundIff`, witness `LateRefundKeepsRefill`).
  The bound on passed requests holds either way.
- A failure is recorded iff its text is storable and the row is in processing (`MarkDeliveryFailed`). A text
  with a NUL is not, nor one with a character cut in two at 512 bytes, which happens to receivers that
  answer in perfect UTF-8 (`CutTextIsNotStorable`). A delivery whose failures all leave such a text is not
  dead-lettered but tried for ever (`UnrecordedFailuresNeverEnd`).
- A cursor does not say which log it was taken from, and `expired` looks only at the tenant's watermark
  (`ReconnectIff` puts the two cases together).
  While the log is still the one the cursor was taken from, replay and live events are what the client
  missed, whatever follows, exactly if watermark <= cursor (`GapFreeIff`). `expired` errs on both sides of
  that: never reported for cursor 0, and reported when the newest evicted event is the one the cursor names
  (`ReplayCompleteIff`, witness `ExpiredErrsBothWays`).
  After a Reset the client has seen none of the new log, and gets all of it exactly if nothing of its
  tenant was evicted and no event of its tenant is numbered at or below the old cursor (`WholeIff`).
  `expired` does not report the difference: an event that was given a number the client has already seen
  is silently lost (`OldCursorLosesEvent`). Nor does it report a cursor beyond the last number; the next
  event is then sent live although numbered below (`StaleCursorReceivesOldEvent`), straight after a Reset
  the first one (`CursorOutlivesReset`).
- The product fingerprint joins its fields with NUL characters; it determines source and external id
  exactly when neither contains one (`SourceIsPinnedIff`). A stored row contains none, and then its
  fingerprint belongs to no other request (`StoredPinsAll`). Event and quantity under the lab's
  fingerprint are always determined (`LabInjective`).
- A clock reading taken before the registry's lock may be old; a purge is visible to a later call exactly
  when that reading lies before an expiry the purge has seen (`PurgeShowsIff`); for every ttl a run makes
  such a call lead where it would have followed (`LateReadingSeesPurge`).
- A signature made at second 0 is rejected, and a tolerance of the largest `time.Duration` accepts every
  timestamp, because the subtraction saturates (`SignThenVerify`).
- With an odd maximal delay, doubling jumps to the maximum one nanosecond early in exactly one case
  (`DoubledIsCappedPower`).

And where the documentation says something else: `docs/ARCHITECTURE.md` admits by tenant, key, IP; the code,
and `Admission`, by key, tenant, IP.

## Model

| member | source | states |
|---|---|---|
| `OrderSafety.OneOrderOneEventOneDelivery` | `internal/product/postgres.go:74-156` | in every run - any interleaving, failed or half-failed calls, expired locks and results - no two orders share tenant and key, every order has exactly one event, and exactly one delivery iff its request had a webhook URL |
| `OrderSafety.SuccessNamesTheOrder` | `internal/product/service.go:61-88` | every success, first or replayed, from Redis, PostgreSQL or the fallback, carries the committed order of that tenant and key, committed under the caller's fingerprint |
| `OrderSafety.SuccessMatchesTheRequest` | `internal/product/service.go:48-59` | so the order has the tenant, event and quantity of the request, whatever characters that contains |
| `OrderRequests.RequestIsTheCallers` | `internal/product/service.go:37-59` | in every run the request made of a call carries its caller's tenant, key, event, quantity, source and external id (or their defaults) and the webhook URL for good; it ends invalid, at once and for good, iff a bound is broken |
| `OrderRequests.AnswerIsTheCallers` | `internal/product/service.go:61-88` | so in every run whoever is answered with an order gets the tenant, event and quantity it passed in |
| `OrderRequests.DeliveryIsTheCallers` | `internal/product/postgres.go:113-148` | in every run the row a call writes has its caller's tenant, event and quantity and calls for one delivery to the configured URL, none without one |
| `OrderAnswers.AloneIsAnswered` | `internal/product/service.go:61-88` | after any run a request nobody interferes with is answered, whatever its calls to Redis do: with the order of its key if that has the same four fields, a conflict if it has others, a new order of the caller's fields otherwise, and exactly that order is added; if Redis works, the replayed flag is exact, the result is stored and the lock is gone |
| `OrderAnswers.WaiterIsAnswered` | `internal/product/coordinator.go:47-80` | in every reachable state a request waiting for the lock is answered by its next look once the holder's result is there |
| `OrderAnswers.LockIsNamed` | `internal/product/coordinator.go:71-80` | in every run a lock carries the token of a request that has arrived |
| `OrderAnswers.FailureIsReported` | `internal/product/postgres.go:82-170` | in every reachable state a failed call to PostgreSQL fails the request, at once as the fallback and by its release otherwise; it touches Redis never, and the tables only if an insert took effect before its answer was lost |
| `OrderSafety.AtMostOneFirstResponse` | `internal/product/service.go:82-88` | at most one response per tenant and key has replayed = false |
| `FirstResponse.FirstResponseIff` | `internal/product/service.go:61-88` | in every run the request that wrote an order, once it has answered, answered "not replayed" iff its insert was acknowledged and it did not fail to store its result |
| `FirstResponse.FirstResponseOnlyIff` | `internal/product/coordinator.go:96-107` | any request answers "not replayed" iff its insert was acknowledged as the fallback, or acknowledged under the lock and its result stored |
| `FirstResponse.FirstResponseMayBeMissing` | `internal/product/service.go:67-73` | a run in which there is none although the order exists and was answered |
| `FirstResponse.PastAlways` | `internal/product/postgres.go:102-155` | at most one insert of a request takes effect, and a result is stored, or fails to be, once and only for an insert acknowledged under the lock |
| `OrderSafety.ConflictIsReal` | `internal/product/postgres.go:158-170` | a conflict, from Redis or PostgreSQL, means a committed order of that key with another fingerprint; "conflict committed without an order" is never returned |
| `OrderSafety.CacheAgreesWithDatabase` | `internal/product/coordinator.go:85-107` | every cached result is the committed order of its key together with the fingerprint it was committed under |
| `OrderSafety.ReleaseSparesOthers` | `internal/product/coordinator.go:134-139` | in any step of anyone a lock disappears only by the release of the request whose token it carries, or by expiry, and none is taken over |
| `OrderSafety.CommitKeepsDatabase` | `internal/product/migrations/001_init.sql:1-45` | the atomic commit keeps all constraints of the three tables together, in whatever order the drawn numbers commit: unique scopes, ids and sequence numbers, storable texts, one event per order, deliveries in step with the orders |
| `OrderSafety.InvariantAlways` | `internal/product/coordinator.go:47-108` | the invariant behind the above holds after every run |
| `OrderExclusion.OneExecutor` | `internal/product/coordinator.go:82-94` | while Redis neither fails nor expires anything, at most one request per key is inside execute, from the second result read to the release, and the lock carries its token |
| `OrderExclusion.ExecutedOnce` | `internal/product/coordinator.go:52-70` | while Redis neither fails nor expires anything, at most one request per key ever has its creation succeed, although the first result read races the owner's finish |
| `OrderExclusion.NobodyFallsBack` | `internal/product/service.go:67-73` | and then no request ever falls back to PostgreSQL alone |
| `OrderExclusion.InvariantAlways` | `internal/product/coordinator.go:64-107` | the exclusion invariant on all runs without Redis faults and expiry |
| `OrderDriver.Cluster.CreateOrder` | `internal/product/service.go:37-89` | under any interference and any failing calls, the method's every path is a run of the step system that ends its request, and order, replayed flag and error are that request's response; an order that comes back has the caller's own tenant, event and quantity; an invalid-input error iff a bound is broken, and then neither the tables nor Redis are touched |
| `OrderDriver.Cluster.Do` | `internal/product/coordinator.go:47-80` | the polling loop leaves its request either answered with what it returns, or at the fallback when it reports coordination unavailable |
| `OrderDriver.Cluster.Execute` | `internal/product/coordinator.go:82-108` | the same for the part under the lock, with the deferred release |
| `OrderDriver.Cluster.LoadResult` | `internal/product/coordinator.go:110-126` | the result read, its failure and its verdict on the fingerprint |
| `OrderDriver.Cluster.RepositoryCreate` | `internal/product/postgres.go:74-156` | the transaction returns the order, conflict or failure the step system arrives at, in both modes of being called |
| `OrderDriver.Cluster.ResolveConcurrentCreate` | `internal/product/postgres.go:158-170` | the read after a unique violation |
| `Outbox.DeliveryTable.ClaimDeliveries` | `internal/product/postgres.go:209-243` | claims as many due unlocked rows as there are, up to the clamped limit, moves exactly those to processing with one more attempt, and returns what the rows now hold; each was pending and due, or in processing and last touched the lease, in whole milliseconds, before; with fewer than the limit claimed no unlocked row left out was |
| `Outbox.ClaimSome` | `internal/product/postgres.go:213-228` | the same on values: each row taken once, no other row changed |
| `Outbox.DeliveryTable.MarkDeliverySucceeded` | `internal/product/postgres.go:245-257` | the whole new table; found iff the row was in processing |
| `Outbox.DeliveryTable.MarkDeliveryFailed` | `internal/product/postgres.go:259-276` | the whole new table; recorded iff the text is storable and the row in processing; the verdict comes from the snapshot, the guard from the row |
| `Outbox.DeliveryTable.ReplayDelivery` | `internal/product/postgres.go:303-316` | the whole new table; found iff a dead letter of that tenant |
| `Outbox.AttemptsBound` | `internal/product/postgres.go:259-268` | in every run, with no replay of the delivery: attempts = claims <= max_attempts + expired leases; a dead letter has attempts >= max_attempts; with no expired lease attempts <= max_attempts and a dead letter has exactly max_attempts |
| `Outbox.AttemptsBoundIsReached` | `internal/product/postgres.go:216-223` | for every max_attempts and every number of expired leases a run reaches that bound |
| `Outbox.ClaimsAreBounded` | `internal/product/postgres.go:303-308` | with replays: claims <= max_attempts * (replays + 1) + expired leases, because every rescheduling uses a claim-time snapshot of its own below max_attempts |
| `Outbox.DeliveredIsAbsorbing` | `internal/product/postgres.go:246-249` | no run changes a delivered row |
| `Outbox.DeadLetterLeavesOnlyByReplay` | `internal/product/postgres.go:304-308` | the only step that changes a dead letter is its tenant's replay, to pending |
| `Outbox.DeliveredWasAccepted` | `internal/product/webhook.go:87-101` | a delivered row has a worker that got a 2xx answer and reported it |
| `Outbox.EveryStepDescends` | `internal/product/webhook.go:75-116` | without expiry and replay every step that changes a delivery lowers a measure of at most 2 * max_attempts, so its processing ends |
| `OutboxLeases.AttemptsWithoutExpiry` | `internal/product/postgres.go:259-268` | in every run, with any number of replays but no expired lease of the delivery: attempts <= max_attempts, a dead letter has exactly max_attempts, a pending delivery fewer |
| `OutboxLeases.OneWorkerWithoutExpiry` | `internal/product/postgres.go:213-228` | so long one worker at a time holds the delivery, the row is in processing and equals its snapshot |
| `OutboxLeases.EveryReportCounts` | `internal/product/webhook.go:75-116` | so long every report took effect: a 2xx answer made the row delivered, any other gave it the snapshot's verdict |
| `OutboxLeases.AcceptedIsRecordedIff` | `internal/product/postgres.go:245-257` | in every reachable state a 2xx report is recorded and delivers iff it finds the row in processing; otherwise nothing changes and a lease has expired |
| `OutboxLeases.EarlyDeadLetterIff` | `internal/product/postgres.go:259-276` | in every reachable state a failure report makes a dead letter short of max_attempts iff the row is in processing with fewer attempts than max_attempts and the snapshot has at least that many; the snapshot is then from before a replay and a lease has expired |
| `OutboxLeases.EarlyDeadLetterNeedsBoth` | `internal/product/postgres.go:303-308` | in every run a dead letter short of max_attempts has seen an expired lease and a replay |
| `OutboxLeases.AcceptedIsLostAfterExpiry` | `internal/product/postgres.go:216-223` | for every max_attempts, with leases of a minute and no replay, a run in which a 2xx answer is not recorded |
| `OutboxLeases.StaleReportAfterReplay` | `internal/product/postgres.go:259-268` | for every max_attempts of at least 2, with leases of a minute, a run in which a worker from before a replay dead-letters the delivery at attempt 1 and the 2xx answer of the current worker is lost |
| `Outbox.BackoffIsCappedDoubling` | `internal/product/webhook.go:124-130` | the n-th failure waits min(2^(n-1) s, 60 s), never less than the failure before; the cut of the shift at 6 loses nothing |
| `OutboxTiming.LeaseKeepsOthersAway` | `internal/product/postgres.go:213-228` | in every run a claim of a row in processing takes it iff the last change of the row, a claim, lies the lease in whole milliseconds or more before |
| `OutboxTiming.PendingIsClaimedWhenDue` | `internal/product/postgres.go:216-216` | in every run a claim of a pending row takes it iff it is due |
| `OutboxTiming.RowIsStamped` | `internal/product/postgres.go:221-223` | in every run a row carries the time of the last step that changed it, a claim iff it is in processing |
| `OutboxTiming.ReclaimsAreExpiredLeases` | `internal/product/postgres.go:216-217` | in every run the number of expired leases in the accounts above is the number of claims that took the row from processing |
| `OutboxTiming.FailurePutsOff` | `internal/product/postgres.go:259-276` | in every reachable state the k-th attempt's failure, short of max_attempts, makes a row in processing due min(2^(k-1), 60) seconds later, and otherwise a dead letter |
| `OutboxTiming.PendingWaits` | `internal/product/postgres.go:213-228` | whatever follows, the first change of a pending row is a claim no earlier than it is due |
| `OutboxTiming.ReplayStartsOver` | `internal/product/postgres.go:303-316` | in every reachable state a replay makes its tenant's dead letter pending, due at once, with no attempt counted, and changes no other row |
| `OutboxTiming.EnqueuedIsDue` | `internal/product/postgres.go:140-148` | in every reachable state a new delivery is pending and due at once with no attempt counted; an id is used once |
| `OutboxWorker.Worker.ProcessBatch` | `internal/product/webhook.go:56-73` | the claim finds the old state after what others did first and takes min(limit, due) of the due rows there, each once, as new jobs of this worker and no others; an error iff the claiming statement failed or lost its reply, and then nothing is processed; otherwise, however the goroutines interleave with each other and with others, each claimed delivery is reported by one later statement, closed with the receiver's answer if that statement could take effect and left answered if not; all of it a run of the step system |
| `OutboxWorker.Worker.ClaimBatch` | `internal/product/webhook.go:57-60` | the claim's part of that |
| `OutboxWorker.Worker.Process` | `internal/product/webhook.go:75-102` | the job ends reported with the receiver's answer, or answered if its report was lost or its failure text cannot be stored; the worker's other jobs stay untouched; no error and a metric "delivered" exactly for a 2xx answer recorded and acknowledged |
| `OutboxWorker.Worker.Finish` | `internal/product/webhook.go:91-101` | the part after the answer, by each fate of its statement |
| `OutboxWorker.Worker.Fail` | `internal/product/webhook.go:104-116` | the failure report with the backoff of the snapshot's attempt; the metric counts the recorded status exactly if the report was recorded and acknowledged |
| `OutboxWorker.UnrecordedFailuresNeverEnd` | `internal/product/webhook.go:104-109` | for every max_attempts and every n a run in which nobody can record a failure reaches an n-th attempt in processing |
| `FailureText.CutTextIsNotStorable` | `internal/product/webhook.go:92-95` | a storable body whose cut at 512 bytes leaves, behind any ASCII prefix, a text that is not UTF-8 |
| `FailureText.StorableIff` | `internal/product/webhook.go:92-95` | a text can be stored iff it is the UTF-8 (RFC 3629, section 3) of Unicode scalar values other than NUL |
| `OutboxWorker.BatchIsSteps` | `internal/product/postgres.go:222-225` | the one claiming statement does what a row of single claims does, in any order |
| `EventLog.Memory.SaveOrder` | `internal/store/memory.go:42-81` | the whole new store: number, log, trimmed window, watermarks, fan-out with close on overflow |
| `EventLog.FanOut` | `internal/store/memory.go:69-79` | the delivery loop, in any order of subscribers: sends or closes exactly the wanted open channels, never sends to or closes a closed one |
| `Overflow.SaveReachesIff` | `internal/store/memory.go:69-79` | in every reachable state a save reaches a registered subscriber it concerns iff its channel has room: the event joins what is waiting and the subscriber stays; otherwise it is closed and removed; others notice nothing |
| `Overflow.ClosedBy` | `internal/store/memory.go:69-79` | in every reachable state a step closes an open channel iff it is a save of an event for it that finds exactly its capacity waiting, its cancel, or a Reset |
| `Overflow.BufferAsAsked` | `internal/store/memory.go:145-162` | a subscription has its tenant and the buffer it asked for, 32 if less than 1, and keeps both in every run |
| `Overflow.ReaderTakesOldest` | `internal/store/memory.go:145-162` | a reader takes the oldest waiting event, from a closed channel too |
| `EventLog.RaiseMarks` | `internal/store/memory.go:64-66` | the watermark loop |
| `Retention.HoldsTheLatest` | `internal/store/memory.go:42-68` | in every run the store holds all orders saved since the last Reset, and the log exactly the events of the latest of these saves, as many as asked for, or 500 if less than one was |
| `EventLog.Memory.SubscribeSince` | `internal/store/memory.go:145-175` | the whole new store, the replay and the expired flag |
| `EventLog.Memory.CancelSubscription` | `internal/store/memory.go:164-173` | closes and removes its own subscriber, and does nothing when it is gone |
| `EventLog.Memory.EventsSince` | `internal/store/memory.go:93-103` | the tenant's retained events above a number, in log order |
| `EventLog.Memory.RecentEvents` | `internal/store/memory.go:105-117` | the newest events, newest first, as many as asked for |
| `EventLog.Memory.ResetStore` | `internal/store/memory.go:177-188` | closes every subscriber once and empties the store; subscriber numbers go on |
| `Subscriptions.ReplayThenLiveIsGapFree` | `internal/store/memory.go:145-175` | for 0 < cursor <= nextSequence and not expired, after any further run, while registered: replay followed by all events sent is exactly the tenant's events above the cursor, strictly ascending |
| `Subscriptions.ExpiredIff` | `internal/store/memory.go:150-150` | expired iff the cursor is positive and some evicted event of the tenant has a number at or above it |
| `Subscriptions.ReplayCompleteIff` | `internal/store/memory.go:62-68` | the replay is complete iff the watermark is at most the cursor; exactly when `expired` errs and on which side |
| `Subscriptions.AboveIsExact` | `internal/store/memory.go:152-156` | the replay filter keeps exactly the tenant's events above the cursor, ascending |
| `Subscriptions.SentIsAlwaysPrefix` | `internal/store/memory.go:69-79` | consumed plus buffered is always a prefix of what the subscriber wants since it subscribed, all of it while registered; open iff registered |
| `Subscriptions.ClosedForGood` | `internal/store/memory.go:73-78` | a closed channel stays closed and is never sent to again |
| `Subscriptions.CancelTouchesOnlyItsOwn` | `internal/store/memory.go:164-173` | in every reachable state a cancel changes at most its own subscriber and channel, however late, and a second call nothing |
| `Cursors.ReconnectIff` | `internal/store/memory.go:145-175` | for every cursor taken in any run and every run after it, for every buffer and continuation, while registered: without a Reset in between, replay and live events are the tenant's events above the cursor iff watermark <= cursor; after one, they are the tenant's whole new log iff nothing of it was evicted or is numbered at or below the cursor |
| `Cursors.GapFreeIff` | `internal/store/memory.go:145-175` | in every reachable state, for a cursor into the present log: replay and live events together are the tenant's events above it for every buffer and continuation iff watermark <= cursor <= nextSequence |
| `Cursors.WholeIff` | `internal/store/memory.go:145-175` | in every reachable state, for a client that has seen none of the present log: they are the tenant's whole log for every buffer and continuation iff the watermark is 0 and no tenant event is numbered at or below the cursor |
| `Cursors.OldCursorLosesEvent` | `internal/store/memory.go:177-188` | for every retention and buffer: after save, Reset, save, the reader of event 1 comes back with cursor 1, is not told expired, and is neither replayed nor sent the new event 1 |
| `Cursors.ExpiredErrsBothWays` | `internal/store/memory.go:150-150` | with retention 1 and two saves cursor 0 is not expired and has missed an event, cursor 1 is expired and has missed none |
| `Subscriptions.GoodCursorIsGapFree` | `internal/store/memory.go:150-156` | the direction from the cursor, reported expired or not |
| `Cursors.StaleCursorReceivesOldEvent` | `internal/store/memory.go:145-160` | in every reachable state a cursor beyond the last number is not reported expired, and the tenant's next event, numbered at or below it, is sent live |
| `Cursors.NothingAboveNext` | `internal/store/memory.go:152-156` | although none of the tenant's events then lies above that cursor |
| `Cursors.CursorOutlivesReset` | `internal/store/memory.go:177-188` | straight after a Reset every cursor that was in range before it is accepted and receives event 1 |
| `Subscriptions.InvariantAlways` | `internal/store/memory.go:42-188` | log, window, watermarks and channels fit together after every run |
| `Breaker.CircuitBreaker.BeforeRequest` | `internal/reliability/breaker.go:127-141` | Closed: a ticket and no change; Open: a ticket, HalfOpen, the probe set and the generation one higher iff now >= openedAt + openTimeout, and no change otherwise; HalfOpen: a ticket iff no probe is out |
| `Breaker.CircuitBreaker.AfterRequest` | `internal/reliability/breaker.go:143-170` | the same for a completion |
| `Breaker.CircuitBreaker.CurrentState` | `internal/reliability/breaker.go:101-107` | answers HalfOpen, with a new generation and no probe, iff the circuit was Open for openTimeout or longer, and changes nothing otherwise |
| `Breaker.CircuitBreaker.Reset` | `internal/reliability/breaker.go:116-125` | closed, cleared, with a new generation |
| `Breaker.TicketsAlways` | `internal/reliability/breaker.go:127-186` | in every run a ticket of the current generation has the current state; a HalfOpen circuit has its probe flag set iff exactly one such ticket is outstanding, and none otherwise; an Open circuit has none |
| `Breaker.CompletionCountsIffCurrent` | `internal/reliability/breaker.go:147-149` | a completion of an older generation changes nothing; one of the current generation changes the state unless it is a success of a Closed circuit without failures |
| `Breaker.ClosedAdmitsOneWithoutProbe` | `internal/reliability/breaker.go:132-139` | one outstanding current ticket does not by itself mean a probe |
| `Breaker.RefinesAutomaton` | `internal/reliability/breaker.go:143-186` | in every run the breaker's state is what an automaton over the history of accepted outcomes says |
| `Breaker.CounterIsTrailingFailures` | `internal/reliability/breaker.go:151-169` | the counter is the length of the trailing run of accepted failures since the circuit last became Closed or was reset, below the threshold, and 0 when not Closed |
| `Breaker.OpensExactlyAtThreshold` | `internal/reliability/breaker.go:166-169` | a Closed circuit opens in exactly the step that accepts the threshold-th consecutive failure |
| `Recovery.AdmitsIff` | `internal/reliability/breaker.go:127-141` | in every run a caller is admitted iff the circuit is Closed, or Open since openTimeout or longer by the step that opened it, or HalfOpen with no probe among the outstanding operations |
| `Recovery.OpensIff` | `internal/reliability/breaker.go:143-170` | in every run a step opens the circuit iff it reports a current operation's failure that is the threshold-th in a row or the probe's |
| `Recovery.OpenedAtIsOpeningTime` | `internal/reliability/breaker.go:180-186` | while Open the circuit remembers the clock reading of the step that opened it |
| `Recovery.ProbeDecides` | `internal/reliability/breaker.go:151-165` | in every run the probe's success closes the circuit with a clean count and its failure opens it again |
| `Breaker.AdmissionBound` | `internal/reliability/breaker.go:127-186` | from an opening at t0, while never Closed, at most floor((t - t0) / openTimeout) operations are admitted by t |
| `Breaker.AdmissionBoundIsTight` | `internal/reliability/breaker.go:172-178` | for every k a run admits exactly k operations in k timeouts |
| `Idempotency.IdempotencyRegistry.Begin` | `internal/reliability/idempotency.go:97-117` | the first locked section computes the registry and the decision whose meaning is `Coalescing.CallerEnters` |
| `Idempotency.IdempotencyRegistry.Finish` | `internal/reliability/idempotency.go:120-129` | the second locked section |
| `Idempotency.DeleteStale` | `internal/reliability/idempotency.go:146-152` | the deletion loop removes exactly the expired entries and counts them |
| `Idempotency.IdempotencyRegistry.PurgeExpiredLocked` | `internal/reliability/idempotency.go:142-155` | forced or due, it purges and returns how many; otherwise it changes nothing |
| `Idempotency.OneLeaderPerScope` | `internal/reliability/idempotency.go:96-117` | at most one leader per tenant and key in flight, and the map holds its pending entry |
| `Idempotency.FailureDeletesOwnEntry` | `internal/reliability/idempotency.go:125-127` | a failing leader's delete removes its own entry and no other |
| `Idempotency.SuccessfulLeadersAreTtlApart` | `internal/reliability/idempotency.go:101-116` | a later leader of the scope registers no sooner than ttl after the earlier one completed successfully, however old its own clock reading |
| `Idempotency.ReplayNamesOneLeader` | `internal/reliability/idempotency.go:108-110` | a replayed result is the result of one leader with the same scope and fingerprint |
| `Coalescing.CallerEnters` | `internal/reliability/idempotency.go:96-117` | in every reachable state a new caller is refused iff the holder of its scope - a running call, or a success still in the map that expires after the reading - has another fingerprint, waits on the holder's cell iff it has the same, and leads, registered now, iff there is none |
| `Coalescing.OneHolder` | `internal/reliability/idempotency.go:101-117` | a scope has at most one holder |
| `Coalescing.RunningIsJoined` | `internal/reliability/idempotency.go:101-131` | in every reachable state a caller that finds a call of its scope running gets what that then reports, success or error, if its fingerprint is the same, and a conflict otherwise |
| `Coalescing.SuccessIsReplayed` | `internal/reliability/idempotency.go:101-131` | for the ttl after a success, whatever else happens, a repeated call gets that very result and one with another fingerprint a conflict, as long as no reading of the clock has reached the expiry |
| `Coalescing.PurgedInTime` | `internal/reliability/idempotency.go:142-155` | in every run a call that enters with a reading min(ttl, one minute) after the last purge leaves no result in the map that is expired at that reading |
| `Idempotency.PurgingIsInvisible` | `internal/reliability/idempotency.go:142-155` | with readings in lock order no call can tell this registry from one that never purges |
| `Idempotency.PurgeShowsIff` | `internal/reliability/idempotency.go:97-100` | a purge changes the next decision iff the scope's result was expired at the purge and is not at the caller's reading; it removes exactly the stale entries |
| `Idempotency.LateReadingSeesPurge` | `internal/reliability/idempotency.go:97-113` | for every ttl a run in which a caller with a late reading leads with purging and follows without |
| `Idempotency.InvariantAlways` | `internal/reliability/idempotency.go:89-131` | map, entries and callers fit together after every run |
| `Limiter.TokenBucketLimiter.Allow` | `internal/reliability/limiter.go:54-77` | computes all buckets and the answer whose meaning is `AllowIff` |
| `Limiter.AllowIff` | `internal/reliability/limiter.go:54-77` | a new key passes from a full burst; an old one iff its tokens plus rate per second since its last reading, capped at the burst, are at least one; exactly what that leaves, and no other bucket changes |
| `Limiter.FlowIsRate` | `internal/reliability/limiter.go:66-69` | inflow is rate tokens a second, in proportion to the time |
| `Limiter.AllowedIff` | `internal/reliability/limiter.go:66-77` | after any operations a request passes iff start + inflow + refunds - grants - losses to the cap is at least one |
| `Limiter.BurstPasses` | `internal/reliability/limiter.go:60-77` | of n more requests at the moment a key is first seen min(n, burst - 1) pass |
| `Limiter.WaitingPasses` | `internal/reliability/limiter.go:66-77` | whoever waits for one token to flow in passes |
| `Limiter.TokenBucketLimiter.Refund` | `internal/reliability/limiter.go:81-87` | all buckets after the call |
| `Limiter.TokensConserved` | `internal/reliability/limiter.go:60-86` | exact bookkeeping over any sequence of operations and clock readings: tokens = start + inflow + refunds - grants - what the cap discarded, between 0 and burst |
| `Limiter.WindowBound` | `internal/reliability/limiter.go:66-76` | net grants in any window are at most the tokens at its start plus inflow |
| `Limiter.LifetimeBound` | `internal/reliability/limiter.go:60-76` | over a bucket's life, its first grant included: grants - refunds <= burst + rate * (last - created), readings out of order or not |
| `Limiter.RefundUndoesAllow` | `internal/reliability/limiter.go:79-87` | a refund straight after an allow leaves what refill alone would |
| `Refunds.LateRefundIff` | `internal/reliability/limiter.go:66-87` | after any operations of which none was refused, at any readings: a refund leaves what they leave without the refunded request iff without it nothing is lost to the cap or the bucket ends full; it never leaves less |
| `Refunds.LateRefundBalance` | `internal/reliability/limiter.go:66-87` | after any operations at all: iff grants plus losses to the cap agree with and without the request, or the bucket is full either way |
| `Refunds.RefundAfterOneMore` | `internal/reliability/limiter.go:66-87` | with one more grant in between: iff tokens before plus inflow until then fit into the bucket |
| `Refunds.RefillBetweenIsHarmless` | `internal/reliability/limiter.go:66-87` | with only a refill in between the refund takes the request back completely |
| `Refunds.LateRefundKeepsRefill` | `internal/reliability/limiter.go:79-87` | a bucket that ends a token above |
| `Admission.RateLimit` | `internal/httpapi/server.go:238-261` | run alone: passes iff all three layers allow; a rejection leaves every earlier bucket as refill alone would and later layers untouched |
| `Admission.PassedObeyEveryLayer` | `internal/httpapi/server.go:243-259` | under any interleaving of requests the number that passed obeys every layer's bound for every key |
| `Admission.BoundAlways` | `internal/httpapi/server.go:243-258` | the same for tokens held by requests still on their way, refunds pending |
| `Retry.DoublingLoop` | `internal/reliability/retry.go:78-85` | the loop computes the recursive doubling and never overflows an int64 |
| `Retry.DoubledIsCappedPower` | `internal/reliability/retry.go:78-85` | that doubling is min(base * 2^k, max), except one more when max is odd and base * 2^k = max - 1 |
| `Retry.DoubledGrows` | `internal/reliability/retry.go:77-85` | delays never shrink from one retry to the next and stay at most max |
| `Retry.RetryDelay` | `internal/reliability/retry.go:77-92` | the pause the lemmas below describe, between 0 and max |
| `Retry.JitterStays` | `internal/reliability/retry.go:87-91` | jitter moves the delay by at most its fraction either way, rounding included, and the cap only lowers it |
| `Retry.PauseIsSpreadPower` | `internal/reliability/retry.go:77-92` | every pause comes from base * 2^k capped at max, exactly without jitter |
| `Retry.JitterSweeps` | `internal/reliability/retry.go:87-90` | the random number sweeps the range: 0 shortens by the whole fraction, one half leaves the delay, a larger one never shortens |
| `Retry.RetryValue` | `internal/reliability/retry.go:33-75` | at most Attempts calls, one pause of exactly the prescribed length between any two; every call before the last failed retryably, with neither context nor pause interrupted; success iff the last call succeeded, with its value; every failure has one of the three causes, with its number of pauses; together at most (Attempts - 1) * max of pause |
| `Retry.RetryLoop` | `internal/reliability/retry.go:48-68` | the loop of it |
| `Retry.TotalPause` | `internal/reliability/retry.go:61-64` | the pauses together are within count * max |
| `Signatures.Verify` | `internal/product/signatures.go:41-74` | the method accepts iff the header has a nonzero timestamp within tolerance and a candidate that decodes to the expected bytes |
| `Signatures.ReadHeader` | `internal/product/signatures.go:42-55` | the parsing loop: the last timestamp and all candidates in order |
| `Signatures.SignThenVerify` | `internal/product/signatures.go:14-74` | what was signed is accepted iff the second is not 0 and tolerance <= 0, or the distance from now is within tolerance, or tolerance is the largest duration |
| `SignatureHeaders.EverySecretVerifies` | `internal/product/signatures.go:41-74` | a header with one signature per secret is accepted, in time, for exactly the secrets that give one of those MACs, so for each of them wherever it stands |
| `SignatureHeaders.CandidatesAreAll` | `internal/product/signatures.go:43-55` | the candidates are the values of all v1 fields |
| `SignatureHeaders.TimestampIsLast` | `internal/product/signatures.go:43-51` | the timestamp is the last t field's, or 0 |
| `SignatureHeaders.SpaceIsIgnored` | `internal/product/signatures.go:45-45` | space around a field changes nothing |
| `Signatures.SignedHeaderParses` | `internal/product/signatures.go:14-18` | the printed header parses back to its second and its one signature |
| `Signatures.SignedIsInjective` | `internal/product/signatures.go:16-16` | the signed text determines timestamp and payload |
| `Signatures.AcceptedElsewhereIsCollision` | `internal/product/signatures.go:63-72` | a signature accepted for another payload or secret is a collision of the HMAC on different texts |
| `Text.ParseFormat` | `internal/product/signatures.go:15-51` | decimal printing and `ParseInt` are inverse on int64 |
| `Text.ParseReads` | `internal/product/signatures.go:51-51` | digits read as their number, with either sign, cut to the 64-bit range |
| `Text.ParseStops` | `internal/product/signatures.go:51-51` | digits followed by anything else read as 0, unless they alone exceed 64 bits |
| `Text.HexRoundTrip` | `internal/product/signatures.go:63-79` | hexadecimal encoding and decoding are inverse |
| `Text.HexDecodeIff` | `internal/product/signatures.go:67-72` | exactly even strings of hexadecimal digits decode, two digits to the byte |
| `Text.HexValueIff` | `internal/product/signatures.go:67-72` | digits of either case, and nothing else |
| `Fingerprint.LabInjective` | `internal/app/service.go:117-117` | the lab fingerprint determines event and quantity, NUL or not |
| `Fingerprint.ProductInjective` | `internal/product/service.go:129-132` | the product fingerprint determines all four fields when source and external id have no NUL |
| `Fingerprint.StoredPinsAll` | `internal/product/service.go:129-132` | the fingerprint of fields without NUL belongs to no other fields, whatever those contain |
| `Fingerprint.SourceIsPinnedIff` | `internal/product/service.go:129-132` | exactly then it determines source and external id |
| `Dependency.Simulator.Reserve` | `internal/upstream/simulator.go:54-82` | counts the call; succeeds iff the caller waits longer than 35 ms (healthy), 650 ms (slow), or 45 ms on every third call (flaky), never when unavailable |
| `Dependency.Execute` | `internal/app/service.go:120-133` | breaker, retry loop and dependency together move as `Order` says |
| `Dependency.FlakyAlwaysSucceeds` | `internal/app/service.go:92-133` | in flaky mode, from a Closed circuit, every one of any number of orders succeeds within 3 calls and the circuit stays Closed |
| `Dependency.HealthyAlwaysSucceeds` | `internal/app/service.go:92-133` | in healthy mode every order succeeds with its first call |
| `Dependency.FailingDependencyBoundsWork` | `internal/app/service.go:87-96` | while the dependency is down any number of orders make at most 9 calls plus 3 per full 4 seconds |
| `Dependency.ThirdFailureCutsOff` | `internal/app/service.go:87-96` | the third failing order, after nine calls, opens the circuit; orders are then rejected without a call until 4 seconds after its end, and not from then on |
| `Lab.Service.CreateOrder` | `internal/app/service.go:106-168` | one call alone: the whole new state of store, registry, breaker and dependency, the response, the counters and the samples; an error and no change for input out of bounds |
| `Lab.Service.Reset` | `internal/app/service.go:235-251` | the whole new state |
| `LabRuns.CountersAreConserved` | `internal/app/service.go:106-168` | in every run with Reset: total = succeeded + failed + suppressed + calls in flight, and with none in flight events logged = orders stored = succeeded |
| `LabCounters.CountersCountCalls` | `internal/app/service.go:106-168` | in every run with Reset each counter is the number of calls that ended its way: created, replayed, failed, and begun |
| `Lab.WindowSlides` | `internal/app/service.go:253-264` | recording one outcome after another keeps the latest 40 |
| `LabRuns.SuccessIsStoredAndFits` | `internal/app/service.go:119-167` | every success, first or replayed, is a stored order with the caller's own tenant, event and quantity |
| `LabRuns.OneOrderPerKeyAndTtl` | `internal/app/service.go:119-146` | two successful leaders of one key registered at least 30 minutes apart, the later after the earlier one's result had expired |
| `LabRuns.ReplayFits` | `internal/app/service.go:117-119` | a replay's order is that of a leader with the same tenant and key, and was made for the same event and quantity |
| `LabOverlap.OverlappingCallsShareOneOrder` | `internal/app/service.go:119-167` | in every run, of two calls with equal inputs of which the second enters while the first leads: if the first creates an order the second replays that very order, unless its caller has given up; if the first fails so does the second |
| `LabOverlap.OverlappingCallsSucceed` | `internal/app/service.go:106-168` | from every reachable state in which nobody holds the key two such calls make one order of their fields, one answers created and one replayed, counted as one success and one suppressed duplicate |
| `LabRuns.UninterruptedIsServe` | `internal/app/service.go:106-168` | the call of `Lab.Service.CreateOrder` is one run of the interleaved steps, whatever the dependency answers |
| `LabRuns.InvariantAlways` | `internal/app/service.go:106-251` | registry, store, calls and counters fit together after every run, resets included |

## Left out

- Timestamps of orders and events, the order status (always confirmed) and the texts of error messages: orders are compared by id, tenant, event, quantity and sequence.
- PostgreSQL: a transaction is a read followed by one atomic commit-or-violation step; ids and sequence numbers are drawn afresh, in no order; a statement with a NUL in a text parameter fails; which due rows ORDER BY and LIMIT pick is left open.
- Redis: each call is one step that works, fails without effect, or works and loses its answer; lock tokens are request numbers; a cached value that does not decode, or is incomplete, is such a failing call.
- A process that crashes is a request or worker that takes no further step.
- `OrderDriver.Cluster.CreateOrder`: cancellation of a waiting request is a bound on its polls, chosen by the caller for every value.
- White space at the ends of a refused receiver's body, which the source trims, and the texts of transport errors: a failure text is any bytes.
- `OutboxWorker.Worker.ProcessBatch`: a request that cannot be built, and a worker stopped in the middle, are a refusal and a job that never reports.
- Lengths in input checks count characters, not bytes.
- Random ids are fresh, SHA-256 of a fingerprint is injective, HMAC is any function.
- Rounding of float64 and conversions beyond int64 (a jittered delay with a maximum above half the int64 range): tokens, rates and jitter are reals.
- Wrap-around of the uint64 counters and of clock readings beyond the range of `time.Time`.
- Panics inside callbacks; a nil `Retryable`, `RandFloat` or `Sleep`, which get defaults.
- `Dependency.Execute`: the pauses between attempts and cancellation during them; `Retry.RetryValue` has both.
- `Lab.Service.CreateOrder`: a follower of a pending call would wait; with nobody else running there is no pending call (`LabRuns.NothingPending`), and the model's branch for it answers with an error. Calls that do wait are in `LabRuns` and `LabOverlap`.
- The dependency's answer to an interleaved leader in `LabRuns` is any answer; the breaker's own interleavings are in `Breaker`.
- Go maps are visited in any order; pointers and channels shared between goroutines are indices into a sequence.
- `Memory.Get`, `Count`, `List`, `GetOrder`, `ListOrders`, `ListDeliveries`, `Snapshot` and `Ready`: plain reads.
- HTTP handlers, WebSocket, metrics, logging, configuration, migrations as text, the base64 signature check, the Stripe and Shopify payload parsers, `cmd`, `web`, `scripts`, `deploy`.
- Liveness of goroutine scheduling: safety, bounds and the end of each delivery's processing only.
