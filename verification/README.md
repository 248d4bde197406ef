# Nimbus Commerce: a verified model of the order saga

The repository is an event-driven shop: orders reserve stock under an optimistic lock, payments move
through a state machine, a transactional outbox is drained to Kafka by polling relays, a deduplicating
consumer completes or compensates orders, and Redis backs a dedupe store, an idempotency lock, a circuit
breaker and a rate limiter. Each part is a state machine with atomic steps that interleave. This project
models those steps in Dafny and proves statements about every run.

`dafny verify dfyconfig.toml` checks everything.

| file | what it models |
|---|---|
| `Saga.dfy`, `SagaWitness.dfy` | the whole system: orders, payments, outbox, relays, broker, consumers, compensation |
| `RelayBatch.dfy`, `RelayTick.dfy`, `RelayStats.dfy`, `RelayFleet.dfy`, `RelayWitness.dfy` | one relay batch, one tick and draining, the statistics, any number of relays, when rows are lost |
| `Orders.dfy`, `Inventory.dfy` | placing an order under interference, status updates and handlers; reserve, release and concurrent sessions on a stock row |
| `Payments.dfy`, `PaymentEvents.dfy`, `IdempotencyLock.dfy` | payment transitions and histories, event contents, the token lock with TTL |
| `ConsumerOffsets.dfy`, `Dedupe.dfy`, `Messaging.dfy` | offset bookkeeping, dedupe before handling, the envelope's wire form and content hash |
| `Breaker.dfy`, `RateLimiter.dfy` | the circuit breaker and the sliding-window limiter |

Code that changes objects step by step is a class or a method on an array; its postcondition ties the new
state to a function of the old one, and the run theorems are about that function.

## Assumptions

- Row locks and `SKIP LOCKED` behave as in PostgreSQL; a transaction takes effect at its commit, and a row
  read is a value snapshot (ORM identity-map and session synchronisation effects are not modelled).
- Clocks do not go backwards, and the Redis server and its clients agree on the time. A Redis key is live
  while the clock has not passed its deadline (as in tests/fakes/fake_redis.py:93-95).
- Lock tokens, order ids and sorted-set members are unique. A row or an order is named by its creation index.
- uuid5 (section 5.5 of RFC 9562) is injective on the canonical content.

## Where the code and its comments disagree

The model follows the code.

- src/modules/inventory/services.py:190-194 calls `release` idempotent through `expected_version`; the
  UPDATE neither checks nor bumps the version, and the handler releases even when the status update was
  skipped. `Saga.CompensationConservesIffOrderOpen` says exactly when that is harmless.
- src/workers/outbox_relay.py:483-484 says the published rows are marked; they are marked by count.
  `RelayBatch.MarkedIsPublishedIffInOrder` gives the exact condition for a batch,
  `RelayFleet.ProcessedIsConfirmedIffInOrder` for whole runs, and `RelayWitness.RowsCanBeLostIff` says for which
  settings a row can be lost.
- src/core/consumer.py:180-181 says a failed message will be redelivered; only if no later record of the
  batch succeeded (`ConsumerOffsets.FailedIsRedeliveredIffNoneLaterHandled`), and then dedupe skips it
  (`Dedupe.NotHandledAgainWhileKeyLives`).
- src/modules/payments/services.py:417-418 says the commit happens before the lock is released; the function
  only adds rows to the session, so the caller commits after the release, and it is the row lock that
  serialises payments.
- The diagram in src/modules/payments/models.py:20-25 has no PENDING to DECLINED edge; the transition table does.
- `build_payment_event` never writes `order_id`; a payment event names an order only when the caller passes
  one (`PaymentEvents.OrderOnlyFromExtra`).
- A DECLINED payment has no handler (src/modules/orders/consumer.py:103-115), so its order keeps its stock
  (`Saga.DeclineHoldsStock`).
- The comments on the limiter's settings (src/core/config.py:145-148) promise 429 above the limit and a blacklisting
  above the threshold; that is what happens in all runs exactly when the blacklisting outlives the window
  (`RateLimiter.GraduatedIffOutlives`), which nothing checks when the settings are read.

## Model

| member | source | states |
|---|---|---|
| Saga.StockConservation | src/modules/orders/consumer.py:140-200 | End to end, over every interleaving of orders, payment transitions, relay steps with outages and lost commits, redeliveries and handler commits or rollbacks: if each order belongs to at most one payment and dedupe neither fails open nor expires, available stock plus the quantity of non-FAILED orders is the initial stock |
| Saga.UnconditionalLedger | src/modules/inventory/services.py:201-215 | With no assumption at all: available = initial − ordered + quantity of every committed payment_failed run, and never negative |
| Saga.ConservedIffSettled | src/modules/orders/consumer.py:158-200 | In every reachable state conservation holds if and only if every FAILED order of the stock had exactly one committed compensation and every other order none |
| Saga.CompensationConservesIffOrderOpen | src/modules/orders/consumer.py:161-190 | From any state that conserves the order's stock, whatever the order's status, a committed payment_failed run conserves it if and only if the order was still PENDING or RESERVED |
| Saga.NoOtherOutcome | src/modules/orders/consumer.py:117-165 | If each order belongs to at most one payment and the delivery invariant of dependable dedupe holds (messages, keys and events in flight are committed events, none of them handled twice), then while a capture or failure is in flight no outcome of the same order was handled before |
| Saga.OutcomeFindsOrderReserved | src/modules/orders/consumer.py:117-165 | Under those conditions a capture or failure in flight always finds its order RESERVED, so update_order_status never skips it |
| Saga.OrderStatusIsExact | src/modules/orders/services.py:189-243 | In every run with one payment per order and dependable dedupe, an order is FAILED exactly if its failure was handled, PAID exactly if its capture was handled, and RESERVED otherwise |
| Saga.DeclineHoldsStock | src/modules/orders/consumer.py:103-115 | In every such run, an order with a declined payment is RESERVED in every later state and its stock was never given back |
| Saga.OrderMoves | src/modules/orders/services.py:210-243 | An order only ever changes by the committed handler of a payment event that names it: a capture makes a RESERVED order PAID, a failure a PENDING or RESERVED one FAILED, and nothing but the status changes |
| Saga.DecidedIsFinal | src/modules/orders/services.py:210-236 | With no assumption on dedupe, payments or relays, an order that is PAID, FAILED or SHIPPED is unchanged in every later state of every run |
| Saga.ReceiveIsDedupeCheck | src/core/consumer.py:218-224 | The saga's delivery step is check_and_record: an event is taken up exactly when it is called new, and its key is there exactly when it is live in Redis |
| Saga.HandleIsExact | src/core/consumer.py:238-244 | A handler that ends frees its consumer; rolled back or raised it changes nothing else, committed it has the effect of its status's handler |
| Saga.PlacedIsAStep | src/modules/orders/services.py:122-168 | A place_order that succeeds is the saga's step on the table its UPDATE met |
| Saga.SecondDeliveryBreaksConservation | src/core/dedupe.py:63-69 | A second delivery of a compensated order's failure breaks conservation, both when dedupe fails open and when its key has expired |
| Saga.AbandonedStaysAbandoned | src/core/consumer.py:238-244 | An event whose handler rolled back or never ran after its key was recorded is never handled again while dedupe is dependable, however often it is redelivered |
| Saga.StoredMessagesAreRows | src/workers/outbox_relay.py:466-474 | In every run each message in the broker is the announcement of an outbox row, and the relays' own invariant holds inside the saga |
| SagaWitness.OneDeliveryRestoresStock | tests/integration/test_saga_e2e.py:307-386 | A concrete run meets every condition of the conservation theorem and ends with the order FAILED and all stock available again |
| SagaWitness.FailOpenDeliveryOversupplies | src/core/dedupe.py:65-69 | The same run with one fail-open redelivery offers more stock than exists |
| SagaWitness.ExpiredKeyOversupplies | src/core/dedupe.py:57-62 | So does the same run with one redelivery after the dedupe key expired |
| SagaWitness.SecondPaymentOversupplies | src/modules/orders/consumer.py:158-190 | A run in which dedupe is dependable but one order has two payments, one captured and one failed, leaves the order PAID and its stock available again |
| RelayBatch.MarkedIsPublishedIffInOrder | src/workers/outbox_relay.py:499-507 | The rows marked by count are the published rows if and only if no row with an unexpected error precedes a published one |
| RelayBatch.MarksAsManyAsPublished | src/workers/outbox_relay.py:499-507 | Exactly as many rows are marked as were published, for every outcome sequence |
| RelayBatch.OutOfOrderMarksTransient | src/workers/outbox_relay.py:428-442 | Out of order, some row that was not published is marked processed |
| RelayBatch.BatchLowersWeight | src/workers/outbox_relay.py:377-442 | A flushed batch lowers the remaining work by at least its length, although marking by count may leave a published row unresolved |
| RelayBatch.FateCases | src/workers/outbox_relay.py:379-440 | Which outcome leads to which of the five fates, both directions |
| RelayTick.OutboxRelay.VisitRow | src/workers/outbox_relay.py:378-440 | One row's publish attempt: out of attempts it is failed unpublished; a BrokerUnavailableError, and only that, stops the batch; another InfrastructureError, and only that, is permanent and fails the row; every raised publish costs one attempt |
| RelayTick.OutboxRelay.PublishBatch | src/workers/outbox_relay.py:374-442 | The loop leaves each row as its outcome demands up to the first outage, touches no row beyond it, and returns the three counters and the stop flag |
| RelayTick.OutboxRelay.MarkBatch | src/workers/outbox_relay.py:493-507 | The first published_count rows without the failed flag become processed, nothing else changes |
| RelayTick.OutboxRelay.ProcessBatch | src/workers/outbox_relay.py:282-298 | Publishing and marking together write what the batch functions say when there is no outage |
| RelayTick.OutboxRelay.Tick | src/workers/outbox_relay.py:257-332 | New table and new statistics of a tick; an outage, a lost commit or a failed claim changes no persisted row and credits nothing as published; it returns the number of rows that became processed |
| RelayTick.TickRow | src/workers/outbox_relay.py:284-312 | What any tick does to any row: nothing if the claim fails, the commit is lost, the row is not claimed, or a claimed row with attempts left finds the broker down; otherwise attempts and failed flag as its publish demands |
| RelayTick.TickCounts | src/workers/outbox_relay.py:314-322 | rows_published grows by the rows that became processed, rows_skipped_poison by those that became failed; when polls, ticks and rows_seen grow |
| RelayTick.TickFailures | src/workers/outbox_relay.py:284-294 | rows_failed grows by the publishes that raised; after an outage by what makes the three counters add up |
| RelayTick.OldestIsClaimedFirst | src/workers/outbox_relay.py:336-353 | A claimable row older than all others is the first of the claim |
| RelayStats.StatsCountRows | src/workers/outbox_relay.py:257-332 | In every run of a relay, through outages, lost commits and arrivals, rows_published is the number of processed rows and rows_skipped_poison the number of failed rows |
| RelayTick.BatchAccounting | src/workers/outbox_relay.py:399-413 | published + failed + poison is rows + permanent errors, and after an outage the larger of rows and visited rows + permanent errors |
| RelayTick.MarkingFlushes | src/workers/outbox_relay.py:486-507 | On claimed rows, the loop by count is the marking the batch lemmas reason about |
| RelayTick.TickBoundsAttempts | src/workers/outbox_relay.py:379-390 | No tick lets attempt_count exceed max_attempts |
| RelayTick.CalmTickMakesProgress | src/workers/outbox_relay.py:257-332 | Without outage, claim failure or commit failure a tick lowers the sum of (max_attempts + 1 − attempt_count) over unresolved rows by at least the number of rows it claimed |
| RelayTick.Drains | src/workers/outbox_relay.py:257-332 | With batch size at least 1, any finite outbox is fully processed or failed after as many calm ticks as that sum, whichever rows are claimed and however attempts end |
| RelayFleet.RunsStayValid | src/workers/outbox_relay.py:336-353 | Any number of relays, every interleaving: in-flight claims are pairwise disjoint and hold only unresolved rows, retry counters stay bounded, the broker holds only rows |
| RelayFleet.ResolvedIsFinal | src/workers/outbox_relay.py:344-352 | A row persisted as processed or failed never changes and is never published again |
| RelayFleet.CommitMarksPublishedIffInOrder | src/workers/outbox_relay.py:296-312 | One commit persists as processed exactly the published rows of its batch if and only if the batch is in order |
| RelayFleet.ProcessedIsConfirmedIffInOrder | src/workers/outbox_relay.py:282-312 | In every run of any number of relays, the rows processed during the run are those whose publish was acknowledged in a batch that committed, if and only if every committed batch was in order; otherwise some processed row was not |
| RelayFleet.ConfirmedIsStored | src/workers/outbox_relay.py:466-474 | What a committed batch published is in the broker, and stays there |
| RelayFleet.ProcessedWasPublished | src/workers/outbox_relay.py:282-312 | If every committed batch is in order, a row is processed only after the broker stored it, in any interleaving |
| RelayFleet.OutOfOrderCommitLosesRow | src/workers/outbox_relay.py:428-442 | An out-of-order commit marks an unpublished row processed, and if the broker did not have it by then no later step ever publishes it |
| RelayFleet.FailedWasRejected | src/workers/outbox_relay.py:379-427 | In every run of any number of relays a row is persisted as failed only if a relay found it without attempts left or a publish of it raised an InfrastructureError other than an outage |
| RelayFleet.OutageOnlyAborts | src/workers/outbox_relay.py:284-294 | Once a publish with attempts left finds the broker down, its batch can only be aborted, with no row changed |
| RelayFleet.StoredByPublish | src/workers/outbox_relay.py:379-394 | Messages reach the broker only by a publish, and a row without attempts left is not published |
| RelayWitness.FirstRowIsLost | src/workers/outbox_relay.py:428-442 | A run from the empty outbox, for every batch size of at least two: a row is processed that the broker never stored, and no continuation ever publishes it |
| RelayWitness.RowsCanBeLostIff | src/workers/outbox_relay.py:499-507 | Some run loses a row if and only if the batch size is at least two and at least one attempt is allowed |
| RelayFleet.TickIsARun | src/workers/outbox_relay.py:257-332 | The sequential tick is a run of the interleaved machine with the same effect on the table and leaves no lock |
| Orders.OrderSession.ReserveAsRead | src/modules/orders/services.py:103-120 | One attempt, with the exact condition of each end: StockNotFoundError without a row, OutOfStockError at the version just read with too little stock, ConcurrentUpdateError when reserve reads another version or the guarded UPDATE matches no row; only success writes, exactly one reservation |
| Orders.OrderSession.ReserveWithRetries | src/modules/orders/services.py:101-120 | The loop goes on only after a conflict, and at most to the third attempt |
| Orders.OrderSession.AddOrder | src/modules/orders/services.py:122-168 | The RESERVED order with total = price × quantity and its one outbox row, added together |
| Orders.OrderSession.PlaceOrder | src/modules/orders/services.py:94-170 | Whatever other transactions do between reads and UPDATEs: at most three attempts; either exactly one reservation, one RESERVED order with total = price × quantity and one outbox row, or an error with no write. Placed, StockNotFoundError and OutOfStockError exactly when the first attempt that does not conflict ends so, ConcurrentUpdateError exactly when all three conflict |
| Orders.OrderSession.UpdateOrderStatus | src/modules/orders/services.py:189-243 | To PAID only from RESERVED, to FAILED only from PENDING or RESERVED, every other order unchanged; missing order and refused target |
| Orders.OrderSession.OnPaymentCaptured | src/modules/orders/consumer.py:117-138 | Exactly the named order becomes PAID, if it was RESERVED; a malformed id is ignored, a missing order raises |
| Orders.OrderSession.OnPaymentFailed | src/modules/orders/consumer.py:140-200 | The named order becomes FAILED if it was PENDING or RESERVED, and whatever its status its quantity is added to its stock row and to no other; when it raises |
| Inventory.StockSession.Reserve | src/modules/inventory/services.py:111-180 | The exact condition of success and of each error, from the row read and the row other transactions left; only success writes, one reservation on the latter row |
| Inventory.StockSession.Release | src/modules/inventory/services.py:183-215 | Adds the quantity whatever the expected version, -1 for a missing row |
| StockRow.NoOversell | src/modules/inventory/services.py:129-173 | In every interleaving of reads, UPDATEs under the row lock, releases, commits and rollbacks the available quantity is never negative and is what the committed history produces |
| StockRow.ReservationReports | src/modules/inventory/services.py:175-180 | Committed reservations report consecutive versions, and leave available what they reported plus whatever was released between their read and their commit |
| StockRow.ReserveSteps | src/modules/inventory/services.py:129-173 | When the read step goes on and when the UPDATE goes through, both directions |
| StockRow.TransactionEnds | src/modules/inventory/services.py:153-173 | A rollback leaves row and history, a commit writes the pending row, and either gives up the lock |
| Payments.PaymentHistories | src/modules/payments/services.py:366-397 | In every run the committed events of a payment are a path of the transition table from PENDING ending in the stored status: at most three events, no status twice, at most one of capture, decline and failure |
| Payments.HistoriesEnumerated | src/modules/payments/services.py:366-386 | The paths from PENDING are exactly the eight listed histories |
| Payments.OneOfEightHistories | src/modules/payments/services.py:366-397 | In every run, whatever calls are made, refused or rolled back, a payment has gone through one of those eight histories |
| Payments.EventsOfOnePayment | src/modules/payments/services.py:440-480 | No two events of one payment have the same status or are two of capture, decline and failure |
| Payments.PaymentSession.ProcessPayment | src/modules/payments/services.py:446-480 | An allowed transition writes the status and appends its event; otherwise nothing is written and the call is refused as not found or already processed |
| Payments.ProcessIsExact | src/modules/payments/services.py:446-480 | A committed, allowed transition changes the stored status and announces it; any other call leaves no trace |
| PaymentEvents.ContentIdentifiesTransition | src/modules/payments/services.py:282-297 | Payment events with equal content hashes are about the same payment and status, whatever the extra payload |
| PaymentEvents.PaymentHashStableIffExtraStable | src/modules/payments/services.py:300-318 | A payment event keeps its dedupe id through the relay and the wire if and only if every object in the extra payload dumps to the text it prints as |
| PaymentEvents.OrderOnlyFromExtra | src/modules/payments/services.py:282-290 | The consumer finds an order id in a payment event if and only if the caller supplied one that is, or dumps to, a text, and it is that text |
| PaymentEvents.RoutedByStatus | src/modules/orders/consumer.py:103-115 | After relay and wire, a payment event reaches the capture handler exactly for CAPTURED and the compensating handler exactly for FAILED |
| PaymentEvents.ConsumerSeesFacts | src/modules/payments/services.py:282-290 | The payload the consumer reads, field by field, with the extra payload overriding |
| IdempotencyLock.MutualExclusionUntilExpiry | src/modules/payments/services.py:154-196 | In every run two callers are both between acquire and release on a key only if the TTL of one elapsed before the other acquired |
| IdempotencyLock.AtMostOneWithinTtl | src/modules/payments/services.py:162-168 | At most one caller holds a key within its TTL |
| IdempotencyLock.ReleaseDeletesOnlyItsOwn | src/modules/payments/services.py:72-78 | A release deletes only the entry carrying its own token |
| IdempotencyLock.ReleaseIsExact | src/modules/payments/services.py:72-78 | In every run a release within the TTL removes exactly its key, and a late one changes nothing |
| IdempotencyLock.ReleaseFreesKey | src/modules/payments/services.py:209-232 | After a release within the TTL the next caller acquires the key at once, for its own TTL |
| IdempotencyLock.SlowHolderOverlaps | src/modules/payments/services.py:209-260 | A concrete run in which a slow caller overlaps with the next one, and its release leaves the other's lock |
| IdempotencyLock.RedisLocks.AcquireLock | src/modules/payments/services.py:152-196 | Refuses an empty key and a non-positive TTL; acquires exactly when Redis answers and the key is not live; an open breaker and a Redis error, before or after the key was stored, leave no holder |
| IdempotencyLock.RedisLocks.ReleaseLock | src/modules/payments/services.py:199-232 | Reports released exactly when Redis answers within the holder's TTL, and then the key is gone; false when the breaker is open or the TTL elapsed, with nothing deleted; raises on any other error |
| ConsumerOffsets.PollAndDispatch | src/core/consumer.py:165-187 | The offset committed for each partition is one past its last handled record, and a partition with none is left out |
| ConsumerOffsets.ResumeBounds | src/core/consumer.py:165-170 | With ascending offsets that is one past the largest handled offset |
| ConsumerOffsets.FailedIsRedeliveredIffNoneLaterHandled | src/core/consumer.py:171-181 | A failed record is at or above the committed offset if and only if no later record of its partition in the batch was handled |
| ConsumerOffsets.StillAheadIffNothingHandledBeyond | src/core/consumer.py:157-193 | Over any number of polls, lost commits and restarts, an offset is still ahead of the committed one if and only if no committed poll handled it or anything beyond it |
| ConsumerOffsets.RestartRefetchesIff | src/core/consumer.py:180-193 | A restart fetches an offset again if and only if no committed poll handled it or anything beyond it |
| Dedupe.InvocationIsExact | src/core/consumer.py:218-240 | Exactly when a delivery reaches its handler, in terms of the last recording of its id |
| Dedupe.CheckIsExact | src/core/dedupe.py:57-69 | Every answer from the history: an error exactly when the call raises, a duplicate exactly when Redis answers within the lifetime of the last recording, new otherwise |
| Dedupe.HandledTwiceOnlyAfterExpiry | src/core/dedupe.py:57-69 | While Redis answers, a handler runs twice for one content only after the key's whole lifetime |
| Dedupe.NotHandledAgainWhileKeyLives | src/core/consumer.py:218-244 | Once the key is recorded the event is not handled again while it lives, even if the handler rolled back or the Redis call raised after storing |
| Dedupe.RedisDedupe.CheckAndRecord | src/core/dedupe.py:39-69 | Set-if-absent with TTL, the fail-open answer, the raised error and the two ValueErrors |
| Dedupe.HandleMessage | src/core/consumer.py:195-244 | When the call returns, when it raises and when the handler's transaction commits: unstarted consumer, tombstones, malformed records, events, and a missing session factory noticed only after the key was recorded |
| Messaging.ConsumerHashIsDedupeIdIffStable | src/core/messaging.py:144-162 | The hash the consumer computes for a republished row is the row's dedupe_id if and only if every payload object, at any depth, dumps to the text it prints as |
| Messaging.WireRoundTrip | src/core/messaging.py:117-142 | A valid envelope survives to_bytes and from_bytes with only its payload objects turned into JSON, whatever defaults the reader would draw |
| Messaging.HashIgnoresDefaults | src/core/messaging.py:117-162 | Documents without an event id or timestamp are accepted or refused alike on every delivery and always hash to the same dedupe id |
| Messaging.SameHashIff | src/core/messaging.py:144-162 | Two events have the same dedupe id exactly when they agree on event type, aggregate, schema version and canonical payload |
| Messaging.WireFields | src/core/messaging.py:117-133 | The document on the wire, field by field |
| Messaging.ReadingFillsDefaults | src/core/messaging.py:117-142 | Reading accepts only valid envelopes and fills absent fields with their defaults |
| Messaging.DumpKeepsContentIffStable | src/core/messaging.py:151-161 | Canonical content is unchanged by dumping to JSON if and only if the payload is stable |
| CircuitBreaker.FieldsRefineHistory | src/core/cache.py:126-160 | Under every interleaving the failure counter is the number of failures since the last success or reset, the state is closed iff that is below fail_max, and opened_at is the latest of them iff not closed |
| CircuitBreaker.AdmissionIsExact | src/core/cache.py:111-115 | A call is admitted if and only if that number is below fail_max or reset_timeout has passed since the latest failure |
| CircuitBreaker.NothingAdmittedWhileTripped | src/core/cache.py:126-145 | After the tripping failure nothing is admitted for reset_timeout unless a late success or a reset is recorded |
| CircuitBreaker.HalfOpenTestIsRedundant | src/core/cache.py:135-140 | In every reachable state the half-open disjunct never changes what recording a failure does |
| CircuitBreaker.LateSuccessReopensGate | src/core/cache.py:147-153 | A concrete run in which a late success lets a call in before reset_timeout |
| CircuitBreaker.AsyncCircuitBreaker.Admit | src/core/cache.py:111-133 | First step of a call as a state change |
| CircuitBreaker.AsyncCircuitBreaker.RecordFailure | src/core/cache.py:135-145 | Recording a failure as a state change |
| CircuitBreaker.AsyncCircuitBreaker.RecordSuccess | src/core/cache.py:147-153 | Recording a success as a state change |
| CircuitBreaker.AsyncCircuitBreaker.Make | src/core/cache.py:64-81 | Construction is refused exactly for non-positive parameters |
| RateLimiter.CountIsWindowCount | src/modules/gateway/abuse.py:150-176 | In every run with a monotone clock the count is the number of counted checks in (now − window, now], whatever the key expiry did, and decides the status |
| RateLimiter.NoWindowOverrun | src/modules/gateway/abuse.py:171-176 | No interval as long as the window contains more OK answers than the limit |
| RateLimiter.BlacklistedUntilExpiry | src/modules/gateway/abuse.py:150-153 | After a blacklisting every request up to its expiry is already blacklisted |
| RateLimiter.AlreadyBlacklistedIff | src/modules/gateway/abuse.py:150-153 | A request is refused as already blacklisted if and only if an earlier one was blacklisted at most a TTL before |
| RateLimiter.AnswerIsExact | src/modules/gateway/abuse.py:150-176 | Every answer of every run from the history alone: refused within a TTL of a blacklisting, else OK, 429 or blacklisted exactly by the number of counted requests in its window; a client within the limit is never refused unless blacklisted |
| RateLimiter.FirstAfterExpiry | src/modules/gateway/abuse.py:155-169 | The first request after expiry has count 1, if the blacklisting outlives the window |
| RateLimiter.CleanRestartIffOutlives | src/modules/gateway/abuse.py:155-169 | That holds in all runs if and only if the blacklisting outlives the window, whatever the limits |
| RateLimiter.BlacklistingIsGraduated | src/modules/gateway/abuse.py:165-174 | If the threshold is not negative and the blacklisting outlives the window, a blacklisting happens at exactly threshold + 1 requests, after at least threshold − limit of them were answered 429 in the same window |
| RateLimiter.GraduatedIffOutlives | src/modules/gateway/abuse.py:150-176 | For every valid setting, every blacklisting of every run is graduated in that sense if and only if the threshold is not negative and the blacklisting outlives the window |
| RateLimiter.OutlivesInSeconds | src/core/config.py:145-148 | In whole seconds, outliving the window is a blacklist TTL of at least the window |
| RateLimiter.ShortBlacklistCountsOn | src/modules/gateway/abuse.py:155-169 | For every setting with a shorter blacklisting: after a burst that is blacklisted, a request between the TTL and the end of the window is blacklisted again at the next higher count |
| RateLimiter.TenSecondWindow | src/modules/gateway/abuse.py:155-169 | A setting of that kind: a ten-second window and a one-second blacklisting |
| RateLimiter.FingerprintsAreIndependent | src/modules/gateway/abuse.py:296-314 | In any interleaving of clients each fingerprint is limited as if it were alone |
| RateLimiter.SlidingWindow.Evaluate | src/modules/gateway/abuse.py:150-176 | The script, command by command, on one fingerprint's keys: the status exactly by the count, the deadlines it sets, and no other fingerprint touched |

## Left out

- FastAPI assembly, middleware, HTTP error shapes, headers, logging and telemetry.
- Password hashing, JWTs, SHA-256 fingerprints, UUID generation; hashes and tokens are abstract values.
- SQLAlchemy engine, pooling, search_path handling, ORM identity map and session synchronisation, migrations.
- aiokafka fetch positions within a session, rebalancing, producer start and stop, network timing.
- The users module, settings validation, worker start, stop and sleep, and the database breaker.
- The abuse layer's BYPASSED result and its composition with the breaker; breaker and limiter are proved separately.
- `last_error` texts, `processed_at` and the timestamps in the relay statistics.
- Messaging.WireRoundTrip: JSON text is represented by its value; parsing of UUIDs and datetimes and the type coercions of validation (a number given as text) are not modelled.
- Saga.StockConservation: a transaction acts at its commit; the finer interleaving of reads and UPDATEs inside one is the subject of StockRow and Orders.OrderSession.PlaceOrder.
