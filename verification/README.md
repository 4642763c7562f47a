# Dafny model of emwin-rs

emwin-rs receives weather bulletins, parses them, keeps and persists the products, and fires alerts on
them. This project models the parts of it that are hard to get right and proves what they promise, for
every input and for every interleaving of workers, producers, crashes and clock ticks.

| file | component |
|---|---|
| `DeliveryProtocol.dfy`, `ClaimLog.dfy` | delivery attempts: claim under a lease, deliver, finalize with `claimed_at` as fencing token |
| `AlertFiring.dfy`, `DeliveryKey.dfy` | source events: claim, judge rules, insert alerts and attempts, mark processed; the `:`-separated delivery key |
| `PersistenceQueue.dfy`, `ProductQueue.dfy`, `QueueHistory.dfy` | the two bounded queues with a semaphore, one dropping and one draining on close, and what they share |
| `PersistRetry.dfy` | the two-stage retry loop, with the trace of its calls |
| `RetainedFiles.dfy` | the cache of completed files |
| `PoolInit.dfy` | single-flight creation of the database pool |
| `Readings.dfy`, `DayTime.dfy` | day-hour-minute groups read against a reference time |
| `Ugc.dfy`, `Text.dfy` | UGC shorthand |
| `SlashScan.dfy`, `LineRuns.dfy`, `VtecSegments.dfy`, `VtecLaws.dfy`, `LineLaws.dfy` | VTEC candidates, the segment splitter, and what it sees in a line |
| `Geometry.dfy`, `PolygonValidity.dfy` | point in polygon, polygon acceptance |
| `IncidentFold.dfy` | the fold of VTEC rows into incident updates |

## How the model is built

Tables, queues and caches are classes whose methods change their fields as the source does. Each method is
proved equal to a function on values. A protocol is a state machine over those functions: `Step` lists what
can happen next, `Enabled` says when, `After` gives the new state, and `IsRun` relates a sequence of states
to a sequence of steps. One SQL statement or transaction, one section under a mutex and one await point are
one step each, so everything that can interleave in the source can interleave here. A crash drops a
worker's memory at any point.

Loops of the source are methods with loops. What a loop computes is stated by a definition of its own
(least instant, nearest instant, even crossing count, longest run of lines, minimum over rows) and not by
the loop. Where code and definition share a small predicate or a constant, a lemma says it once more without
that predicate, in numbers and letters.

Outside calls are parameters: the writer and the sink of `PersistRetry` are arbitrary functions of the
trace so far, `VtecSegments` works for every parser of a single candidate, alert rules may match or not.
Times are integers in nano- or microseconds.

Clocks: the claim statements compare with a cutoff from the worker's clock and write a token from the
database's clock. The two may differ by `skew`. What needs a bound on it, and which, is proved exactly:

| property | holds in every interleaving if and only if |
|---|---|
| at most one alert per rule and trigger, its attempts, processed implies fired, attempt limit, final rows | always, even when two workers hold the same live claim |
| a processed event never changes (`ProcessedBoundIsExact`) | skew < lease |
| only the latest claimant finalizes a row (`FencingBoundIsExact`) | skew < lease |
| `attempt_no` counts finalizations (`LifecycleBoundIsExact`) | skew < lease, or skew < 5 s, or a single attempt |
| claim tokens of a row strictly increase (`ClockBoundIsExact`) | skew < lease, and skew < 5 s or a single attempt |

Where code and comments disagree the model follows the code:

- `crates/emwin-parser/src/body/support.rs:26` says that slash candidates do not cross lines. They do: the
  search at lines 41-45 skips line breaks. `CandidatesAcross` says exactly when, `CandidateCrossesLines`
  gives the texts, and `SegmentCodeAcrossLines` a whole segment with such a code.
- `resolve_day_time_not_before` can return an instant before the reference, and `resolve_day_time_nearest`
  one that is not the nearest, when the day is 29, 30 or 31 and a month around the reference is too short.
  The contracts of the two methods give the condition; for days 1 to 28 it never arises.

## Model

| member | source | states |
|---|---|---|
| `DeliveryProtocol.DeliveryTable.ClaimDue` | crates/emwin-db/src/postgres/alerting.rs:506-542 | claims the due, unlocked rows in id order up to the limit, stamps them with the database time, leaves every other row alone, and skips a due unlocked row only when the limit was used up by lower ids |
| `DeliveryProtocol.DeliveryTable.UpdateDeliveryAttempt` | crates/emwin-db/src/postgres/alerting.rs:741-768 | changes the row exactly if it is in progress under the given token, reports whether it did, keeps `claimed_at` only for delivered rows |
| `DeliveryProtocol.ClaimableExactly` | crates/emwin-db/src/postgres/alerting.rs:509-522 | a worker may claim a row if and only if its clock is within the skew and the row is pending or waiting with its retry time not in the future, or in progress and claimed at least a lease ago on the worker's clock |
| `DeliveryProtocol.StepKeepsBase` | crates/emwin-alert/src/worker.rs:434-676 | under any clocks every claim, decision, finalization, crash, insertion and tick keeps rows in step with their claim history, claims in the history, and attempt numbers within the limit |
| `DeliveryProtocol.StepKeepsInv` | crates/emwin-db/src/postgres/alerting.rs:506-542 | with clocks within the lease every step also keeps this: a held claim with the newest token of its row is the newest claim, and its row has not moved on |
| `DeliveryProtocol.TokensStrictlyIncrease` | crates/emwin-db/src/postgres/alerting.rs:513-536 | with clocks within the lease and the shortest backoff the claim tokens of a row strictly increase, and a token in the table is the newest |
| `DeliveryProtocol.Fencing` | crates/emwin-db/src/postgres/alerting.rs:746-767 | with clocks within the lease a finalization changes the table exactly if its worker made the latest claim and the row is still in progress; it then changes that row only, and a stale worker's changes nothing |
| `DeliveryProtocol.FencingBoundIsExact` | crates/emwin-db/src/postgres/alerting.rs:741-768 | only the latest claimant ever changes a row by a finalization, in every interleaving, if and only if the skew is below the lease |
| `DeliveryProtocol.LeaseIsExclusive` | crates/emwin-db/src/postgres/alerting.rs:506-542 | what the lease is for: until the lease less the skew has passed, a held claim is the newest of its row, the row is in progress under it, and its attempt number is unchanged |
| `DeliveryProtocol.LeaseEndsExactly` | crates/emwin-db/src/postgres/alerting.rs:509-522 | from that moment on, and not before, some worker clock lets another worker claim the row |
| `DeliveryProtocol.AttemptsWithinLimit` | crates/emwin-alert/src/worker.rs:434-676 | under any clocks `attempt_no` never passes the maximum and reaches it only in delivered or failed rows |
| `DeliveryProtocol.AttemptLifecycle` | crates/emwin-alert/src/worker.rs:434-676 | `attempt_no` equals the number of effective finalizations of the row, with clocks within the lease or within the shortest backoff |
| `DeliveryProtocol.SkewOfBothLosesAttempt` | crates/emwin-alert/src/worker.rs:606-629 | with clocks apart by both, a concrete interleaving with two finalizations and one attempt counted |
| `DeliveryProtocol.LifecycleBoundIsExact` | crates/emwin-alert/src/worker.rs:434-676 | `attempt_no` counts finalizations in every interleaving if and only if the skew is below the lease or the shortest backoff, or there is a single attempt |
| `DeliveryProtocol.OutcomeIsRecorded` | crates/emwin-alert/src/worker.rs:434-676 | an effective finalization records the outcome of the delivery its worker made for this row under this claim, nothing having ended that decision in between: delivered exactly after success; after a retryable failure below the limit a retry 5, 15, 45 or 90 seconds after the worker's clock, for attempt number 1, 2, 3 or more; failed otherwise |
| `DeliveryProtocol.DecisionOrigin` | crates/emwin-alert/src/worker.rs:434-676 | a decision a worker holds stems from an earlier delivery of that worker for the claim still at the head of its batch, with no finalization or crash of it since |
| `DeliveryProtocol.WaitsNeverShrink` | crates/emwin-alert/src/worker.rs:606-629 | of two retries recorded for one row the later waits at least as long after its delivery as the earlier, and both between 5 and 90 seconds |
| `DeliveryProtocol.TerminalRowsNeverChange` | crates/emwin-db/src/postgres/alerting.rs:513-536 | under any clocks delivered and failed rows never change again, whatever claims workers still hold |
| `DeliveryProtocol.SkewOfOneLeaseBreaksFencing` | crates/emwin-db/src/postgres/alerting.rs:512-531 | with clocks a lease apart, a concrete interleaving in which a stale worker finalizes a row that another worker claimed last |
| `DeliveryProtocol.SkewOfBackoffRepeatsToken` | crates/emwin-alert/src/worker.rs:606-629 | with a worker clock behind by the shortest backoff, a concrete interleaving in which two claims share a token |
| `DeliveryProtocol.ClockBoundIsExact` | crates/emwin-db/src/postgres/alerting.rs:506-542 | tokens increase in every interleaving if and only if the skew is below the lease and, unless there is a single attempt, below the shortest backoff |
| `DeliveryKey.KeysAgreeExactly` | crates/emwin-alert/src/worker.rs:974-986 | two delivery keys are equal if and only if the rule is the same and so is the product id, or the incident source event, although source ids may contain `:` |
| `DeliveryKey.TargetKeysAgreeExactly` | crates/emwin-db/src/postgres/alerting.rs:444-458 | two attempt keys are equal if and only if alert key and contact point are |
| `DeliveryKey.DecimalIsTheNumeral` | crates/emwin-alert/src/worker.rs:974-986 | the text of an id is the one decimal numeral with its value: no leading zero, a minus sign exactly for negative ids |
| `DeliveryKey.ProductKeyText` | crates/emwin-alert/src/worker.rs:976-978 | the key of a product in letters: rule numeral, `:product_available:`, source id, `:fire` |
| `DeliveryKey.IncidentKeyText` | crates/emwin-alert/src/worker.rs:979-984 | the key of an incident in letters: rule numeral, `:incident_change:`, source id, `:`, event numeral, `:fire` |
| `DeliveryKey.TargetKeyText` | crates/emwin-db/src/postgres/alerting.rs:446-455 | an attempt key is the alert key, `:` and the numeral of the contact point |
| `AlertFiring.AlertStore.ClaimPending` | crates/emwin-db/src/postgres/alerting.rs:366-394 | claims the unprocessed events with no live claim in id order up to the limit, and skips an unlocked one only when the limit was used up by lower ids |
| `AlertFiring.AlertStore.MarkSourceProcessed` | crates/emwin-db/src/postgres/alerting.rs:396-412 | sets `processed_at` exactly if the claim token is the stored one; `processed_at` itself is not looked at |
| `AlertFiring.AlertStore.InsertAlertWithAttempts` | crates/emwin-db/src/postgres/alerting.rs:414-460 | inserts the alert and one attempt per target in order, or nothing on a key conflict, and says which |
| `AlertFiring.ClaimableExactly` | crates/emwin-db/src/postgres/alerting.rs:366-394 | a worker may claim an event if and only if its clock is within the skew and the event is unprocessed and never claimed, or claimed at least a lease ago on the worker's clock |
| `AlertFiring.StepKeepsFiring` | crates/emwin-alert/src/worker.rs:273-404 | under any clocks every step of every worker keeps alert rows distinct and complete, and every match found has its alert row or is about to be inserted |
| `AlertFiring.StepKeepsTokens` | crates/emwin-db/src/postgres/alerting.rs:366-412 | with clocks within the lease every step keeps claim tokens increasing, and no worker holds the claim under which an event was processed |
| `AlertFiring.FireAtMostOnce` | crates/emwin-alert/src/worker.rs:299-400 | in every interleaving, under any clocks and with events claimed twice, one rule and one product, or one rule and one incident source event, have at most one alert row |
| `AlertFiring.OneAttemptPerTarget` | crates/emwin-db/src/postgres/alerting.rs:436-460 | under any clocks every alert row has exactly one attempt row per target of the rule it was inserted for, in target order, with that target's contact point and key |
| `AlertFiring.ProcessedImpliesFired` | crates/emwin-alert/src/worker.rs:299-400 | under any clocks, when a worker marks an event it has judged all rules it loaded, and for each rule it found to match there is from then on an alert row of that rule for the same product, or for this incident source event |
| `AlertFiring.MarkHitsUnprocessed` | crates/emwin-db/src/postgres/alerting.rs:396-412 | with clocks within the lease the marking UPDATE hits exactly for the latest claimant, and then the event was unprocessed |
| `AlertFiring.ProcessedIsFinal` | crates/emwin-db/src/postgres/alerting.rs:366-412 | with clocks within the lease a processed event is never claimed, marked or changed again |
| `AlertFiring.SkewOfOneLeaseMarksTwice` | crates/emwin-db/src/postgres/alerting.rs:396-412 | with clocks a lease apart, a concrete interleaving in which a second worker marks a processed event and changes its time |
| `AlertFiring.ProcessedBoundIsExact` | crates/emwin-db/src/postgres/alerting.rs:366-412 | a processed event never changes in any interleaving if and only if the skew is below the lease |
| `AlertFiring.AlertsOnlyGrow` | crates/emwin-db/src/postgres/alerting.rs:414-460 | alert rows are only appended, and an event's kind and source id never change |
| `PersistenceQueue.SharedQueue.constructor` | crates/emwin-db/src/runtime/queue.rs:21-33 | an empty open queue of capacity at least one without permits |
| `PersistenceQueue.SharedQueue.Enqueue` | crates/emwin-db/src/runtime/queue.rs:45-74 | rejects after close; when full evicts the oldest and reports its key, otherwise adds a permit; the new request goes last and is counted once |
| `PersistenceQueue.SharedQueue.Close` | crates/emwin-db/src/runtime/queue.rs:86-96 | drops and counts what is pending and adds one permit, the first time only |
| `PersistenceQueue.SharedQueue.PopRequest` | crates/emwin-db/src/runtime/worker.rs:120-123 | removes and returns the oldest request, or nothing |
| `PersistenceQueue.SharedQueue.NoteOutcome` | crates/emwin-db/src/runtime/worker.rs:56-102 | counts one outcome; a stale drop counts as retry-exhausted too |
| `PersistenceQueue.NoLostWakeup` | crates/emwin-db/src/runtime/worker.rs:43-54 | while open, free permits plus the held one equal the pending length; a pop finds nothing only after close, so the `continue` branch is never taken; a waiting worker with work or with a closed queue has a permit |
| `PersistenceQueue.EnqueueEvictsWhenFull` | crates/emwin-db/src/runtime/queue.rs:45-74 | in every interleaving an enqueue puts the request last, costs the oldest one its place exactly if `capacity` are pending, adds a permit otherwise, and changes nothing after close |
| `PersistenceQueue.NeverBlockedAfterClose` | crates/emwin-db/src/runtime/worker.rs:43-54 | after close the worker can always take a step until it has stopped |
| `PersistenceQueue.StopsAfterClose` | crates/emwin-db/src/runtime/worker.rs:43-54 | after close the worker takes at most four more steps, whatever producers do meanwhile |
| `PersistenceQueue.DrainedForever` | crates/emwin-db/src/runtime/worker.rs:125-128 | once the queue is closed and empty, which is what `is_closed` reports, it stays so, and no request is accepted, taken, evicted or dropped any more |
| `PersistenceQueue.PendingIsNewest` | crates/emwin-db/src/runtime/queue.rs:45-74 | while open, pending is exactly the newest part of the accepted history, at most the capacity long, and requests left in the order they came |
| `PersistenceQueue.Conservation` | crates/emwin-db/src/runtime/worker.rs:56-102 | enqueued = evicted + pending + in flight + persisted + failed + stale-dropped + dropped at close in every state, and retry-exhausted equals stale-dropped |
| `ProductQueue.ProductProducer.constructor` | crates/emwin-live/src/product_processor.rs:109-124 | an empty open queue of capacity at least one without permits |
| `ProductQueue.ProductProducer.Enqueue` | crates/emwin-live/src/product_processor.rs:133-159 | rejects after close; when full evicts the oldest and reports its name, otherwise adds a permit |
| `ProductQueue.ProductProducer.Close` | crates/emwin-live/src/product_processor.rs:173-180 | closes once, keeps what is pending, adds one permit |
| `ProductQueue.ProductProducer.Pop` | crates/emwin-live/src/product_processor.rs:182-184 | removes and returns the oldest item, or nothing |
| `ProductQueue.NoLostWakeup` | crates/emwin-live/src/product_processor.rs:223-289 | permits match the pending length while open and exceed it after close, also with the shutdown branch that pops without a permit; an empty pop ends the loop |
| `ProductQueue.EnqueueEvictsWhenFull` | crates/emwin-live/src/product_processor.rs:133-159 | in every interleaving an enqueue puts the item last, costs the oldest one its place exactly if `capacity` are pending, adds a permit otherwise, and changes nothing after close |
| `ProductQueue.DrainsAfterClose` | crates/emwin-live/src/product_processor.rs:223-289 | after close nothing is accepted or evicted, the loop ends within a number of steps that the pending length bounds, and what was pending is processed in order |
| `ProductQueue.DrainedForever` | crates/emwin-live/src/product_processor.rs:186-189 | once the queue is closed and empty, which is what `is_closed` reports, it stays so, and no item is accepted, taken or evicted any more |
| `ProductQueue.ExitConservation` | crates/emwin-live/src/product_processor.rs:223-289 | at loop exit enqueued = evicted + completed + failed, completed counts the items finished without an error, and the items processed since close are exactly those in flight or pending at it |
| `PersistRetry.DelaysGrow` | crates/emwin-db/src/runtime/retry.rs:117-123 | delays never decrease from one retry to the next and never pass the maximum delay or 64 times the initial one |
| `PersistRetry.WriteBlobs` | crates/emwin-db/src/runtime/worker.rs:130-151 | writes the blobs in order, each at most once, up to the first failure; on success returns one stored reference per blob in order, and always returns every reference this round obtained |
| `PersistRetry.Cleanup` | crates/emwin-db/src/runtime/worker.rs:268-282 | hands exactly the given references to delete, in order, and calls nothing else |
| `PersistRetry.WriteStage` | crates/emwin-db/src/runtime/worker.rs:171-222 | at most the budget of writes per blob, before each retry the next sleep of the schedule, no metadata call; on success the references are those of the last round of writes, in blob order; on a stale drop the budget was used up and every reference any round obtained was handed to delete |
| `PersistRetry.PersistRequestWithRetry` | crates/emwin-db/src/runtime/worker.rs:171-286 | for every writer, sink and close behaviour: both stages within their budget of tries, one sleep of the schedule before each retry and none otherwise, each after a retryable failure of an open queue, the sink called only with the references of the last round of writes before it, one per blob in order, deletions only on a stale drop, the failed stage reported, success exactly if the last call was a successful save |
| `PersistRetry.TriesInNumbers` | crates/emwin-db/src/runtime/worker.rs:284-286 | a stage tries at most once or `retry_max_attempts` times, and on a stale drop exactly the greater of the two |
| `PersistRetry.SleepsInNumbers` | crates/emwin-db/src/runtime/retry.rs:117-123 | sleeps are as many as retries, the k-th of a stage for 1, 2, 4, 8, 16, 32 and from then on 64 times the initial delay, or the maximum delay if that is less |
| `PersistRetry.RetriesOnlyWhileOpen` | crates/emwin-db/src/runtime/worker.rs:193-262 | a sleep comes right after a retryable failure with the queue open; a request fails only at a failure that is not retryable or with the queue closed |
| `PersistRetry.DropCleansUp` | crates/emwin-db/src/runtime/worker.rs:171-282 | on a stale drop every location written for the request is handed to delete, in the write stage always and in the save stage when a blob determines its location |
| `RetainedFiles.RetainUnexpired` | crates/emwin-live/src/retained.rs:117-135 | the retain over the order deque leaves exactly the unexpired files, in order, with no stale pair |
| `RetainedFiles.RetainLive` | crates/emwin-live/src/retained.rs:137-146 | keeps exactly the pairs whose generation is current |
| `RetainedFiles.PopUntilFits` | crates/emwin-live/src/retained.rs:75-87 | keeps the newest `max_entries` files; the deque never runs empty first |
| `RetainedFiles.ListNewestFirst` | crates/emwin-live/src/retained.rs:93-105 | the reversed, filtered walk lists each stored file once, newest first |
| `RetainedFiles.Store.constructor` | crates/emwin-live/src/retained.rs:27-35 | an empty store with at least one entry and at least one second of life |
| `RetainedFiles.Store.EvictExpired` | crates/emwin-live/src/retained.rs:117-135 | drops the expired files of the abstract list and leaves no stale pair |
| `RetainedFiles.Store.CompactStaleOrderEntries` | crates/emwin-live/src/retained.rs:137-146 | never changes the abstract list; drops exactly the stale pairs of a deque longer than four times `max_entries` and than 16, and does nothing otherwise |
| `RetainedFiles.Store.InsertProcessed` | crates/emwin-live/src/retained.rs:50-91 | the abstract list loses its expired files and the old file of that name, gains the new one, and keeps the newest `max_entries`; at most one stale pair remains, so compaction is never due |
| `RetainedFiles.Store.EachNameOnce` | crates/emwin-live/src/retained.rs:14-146 | between calls the abstract list holds each stored name once with its current file, as many as the map, at most `max_entries` |
| `RetainedFiles.Store.List` | crates/emwin-live/src/retained.rs:93-105 | the unexpired files' metadata, newest first, each name once |
| `RetainedFiles.Store.Get` | crates/emwin-live/src/retained.rs:107-110 | the unexpired file of that name, if any |
| `RetainedFiles.Store.Len` | crates/emwin-live/src/retained.rs:112-115 | the number of unexpired files |
| `RetainedFiles.Replay` | crates/emwin-live/src/retained.rs:14-146 | every answer of a new store to any sequence of calls at any clock readings is the plain list's answer |
| `RetainedFiles.GetByClock` | crates/emwin-live/src/retained.rs:50-135 | after any sequence of calls a look-up finds the file last inserted under its name if no clock reading since, its own included, is later than completion plus time to live and fewer than `max_entries` inserts followed, and finds nothing if some reading is later |
| `RetainedFiles.ListIsBoundedAndDistinct` | crates/emwin-live/src/retained.rs:50-105 | after any sequence of calls the list holds each name once, at most `max_entries` files, and right after an insert the inserted file is the newest |
| `PoolInit.Sink.Install` | crates/emwin-db/src/postgres/mod.rs:139-157 | an existing pool wins, otherwise the new one is installed and a pending reconnect is reported and cleared |
| `PoolInit.Sink.HandleRuntimeError` | crates/emwin-db/src/postgres/archive_service.rs:295-311 | on a connection error an installed pool is dropped and the reconnect flag set, and nothing happens otherwise |
| `PoolInit.SingleFlight` | crates/emwin-db/src/postgres/mod.rs:122-157 | at most one connect runs or awaits installation, no pool is installed meanwhile, so the third `existing` check never succeeds and the caller returns its own pool |
| `PoolInit.ReturnsPoolInPlace` | crates/emwin-db/src/postgres/mod.rs:122-157 | a call returns the pool that is in place at that moment, which was in place before or is the one it connected, and no longer holds the lock |
| `PoolInit.NeverStuck` | crates/emwin-db/src/postgres/mod.rs:130-142 | the lock is never left behind: a waiting call can take it or the call that holds it can move on |
| `PoolInit.ReplacedOnlyAfterReset` | crates/emwin-db/src/postgres/mod.rs:122-157 | an installed pool stays until a reset |
| `PoolInit.InstallsMatchResets` | crates/emwin-db/src/postgres/mod.rs:139-157 | every connect that reaches the last section installs its pool: such steps are resets of an installed pool plus the pool in place; a reconnect is pending exactly if a pool was reset and none is in place |
| `Geometry.PolygonBounds` | crates/emwin-parser/src/geo.rs:45-62 | no bounds exactly for no points; otherwise the least box around the points |
| `Geometry.PointInPolygon` | crates/emwin-parser/src/geo.rs:71-100 | true exactly on the boundary or with an odd number of edges crossed to the east, never for fewer than three points |
| `Geometry.CrossesExactly` | crates/emwin-parser/src/geo.rs:84-88 | an edge counts as crossed if and only if the latitude lies from its lower end up to but not including its upper end, and a point of the edge at that latitude is not west of the point |
| `Geometry.OddCrossingsCount` | crates/emwin-parser/src/geo.rs:92-94 | the toggling answers whether the set of crossed edges has odd size |
| `Geometry.CrossMeasuresOffset` | crates/emwin-parser/src/geo.rs:105-106 | the cross product is the offset from the edge's line, in edge lengths, times the squared length |
| `Geometry.EdgeIsOnSegment` | crates/emwin-parser/src/geo.rs:102-117 | every point of an edge is found on it |
| `Geometry.OnSegmentExactly` | crates/emwin-parser/src/geo.rs:102-117 | on the boundary means a cross product within 0.000000001 of zero and a place within 0.000000001 of the edge's box |
| `Geometry.InterceptBetween` | crates/emwin-parser/src/geo.rs:84-95 | the crossing longitude lies between the edge's ends |
| `Geometry.RingStraddlesEvenly` | crates/emwin-parser/src/geo.rs:71-100 | a closed ring changes sides of a latitude an even number of times |
| `Geometry.WestCrossesAll` | crates/emwin-parser/src/geo.rs:84-95 | for a point west of all edges, crossing and straddling coincide |
| `Geometry.InsideImpliesBounds` | crates/emwin-parser/src/geo.rs:45-117 | a point found inside lies in the polygon's bounds widened by 0.000000001, and in the bounds themselves unless it was found on the boundary |
| `Geometry.RotationKeepsInside` | crates/emwin-parser/src/geo.rs:71-100 | the answer does not depend on which vertex the ring starts at |
| `Geometry.RepeatedVertex` | crates/emwin-parser/src/geo.rs:71-117 | repeating the first vertex at the end adds to the points inside exactly those within EPSILON of that vertex |
| `PolygonValidity.HasSelfIntersection` | crates/emwin-parser/src/body/latlon.rs:454-476 | true exactly if two non-neighbouring edges pass the sign test |
| `PolygonValidity.ValidatePolygon` | crates/emwin-parser/src/body/latlon.rs:424-452 | rejects fewer than three points, then closes the ring and rejects exactly the rings with such a pair, also for rings of four or fewer points where the test is skipped |
| `PolygonValidity.SignTestIsExact` | crates/emwin-parser/src/body/latlon.rs:482-498 | the orientation sign test holds if and only if the two edges meet in a single point inside both |
| `PolygonValidity.AcceptedRings` | crates/emwin-parser/src/body/latlon.rs:424-498 | a polygon is accepted exactly if the closed ring, which extends the given points, has no two properly crossing edges `i` and `j` with another edge between them on both sides |
| `PolygonValidity.ClosedContains` | crates/emwin-parser/src/body/latlon.rs:424-452 | the ring returned contains exactly the points that the given polygon contains, and those within EPSILON of its first vertex |
| `DayTime.GregorianIsRegular` | crates/emwin-parser/src/time.rs:123-133 | months of the Gregorian calendar follow each other without gap, have 28 to 31 days (section 5.7 and Appendix C of RFC 3339), and of two neighbouring ones at least one has 31 |
| `DayTime.DayNumberFormula` | crates/emwin-parser/src/time.rs:123-133 | the day number of every date equals a closed formula over years that begin in March, without a table of month lengths or a leap-year rule; 1 January 1970 is day 0 |
| `DayTime.ReadingIsDate` | crates/emwin-parser/src/time.rs:123-133 | an instant reads a day, hour and minute if and only if it is the instant of a valid date with that day and those hours and minutes in nanoseconds |
| `DayTime.ClockReadingIsTime` | crates/emwin-parser/src/time.rs:32-60 | an instant reads an hour and minute if and only if its time since midnight is that many hours and minutes in nanoseconds |
| `DayTime.EveryInstantHasUtc` | crates/emwin-parser/src/time.rs:123-133 | every instant is the instant of some valid calendar date and time |
| `DayTime.UtcIsUnique` | crates/emwin-parser/src/time.rs:123-133 | and of one only |
| `DayTime.CandidateDatetimes` | crates/emwin-parser/src/time.rs:82-121 | answers exactly the valid day, hour and minute values, with the readings in the three months around the reference, at least one |
| `DayTime.NotBeforeIsExact` | crates/emwin-parser/src/time.rs:62-80 | the choice from three months is a global one: the earliest reading at or after the reference in the whole calendar exactly when one exists in this or the next month |
| `DayTime.ResolveDayTimeNotBefore` | crates/emwin-parser/src/time.rs:62-80 | valid inputs always resolve; the result is the earliest reading at or after the reference if and only if one lies in the reference's month from it on or in the next month, and otherwise the latest one before; for days 1 to 28 it is always the former and under 31 days away |
| `DayTime.NotBeforeMisses` | crates/emwin-parser/src/time.rs:62-80 | a concrete reference, noon of 31 January 2025, from which day 31 at 00:00 comes again but does not resolve to it |
| `DayTime.NearestIsExact` | crates/emwin-parser/src/time.rs:13-30 | the nearest of three months is nearest in the whole calendar exactly when no reading two months back is closer |
| `DayTime.ResolveDayTimeNearest` | crates/emwin-parser/src/time.rs:13-30 | valid inputs always resolve; the result is a nearest reading in the whole calendar if and only if the month before has the day or the reading two months back is no closer; for days 1 to 28 it always is, within 15.5 days, although distances are compared in whole seconds |
| `DayTime.NearestMisses` | crates/emwin-parser/src/time.rs:13-30 | a concrete reference, 1 March 2025, for which day 31 does not resolve to the nearest reading |
| `DayTime.NearestBySeconds` | crates/emwin-parser/src/time.rs:13-30 | the minimum by whole seconds of distance, the first one on a tie |
| `DayTime.ResolveClockTimeNearest` | crates/emwin-parser/src/time.rs:32-60 | valid HHMM inputs always resolve, to a globally nearest instant with that clock time, within 12 hours |
| `Ugc.ParseNumericRanges` | crates/emwin-parser/src/body/ugc.rs:469-496 | one number, one range or a list of range pairs, or nothing when a token is malformed or left over |
| `Ugc.CollectRange` | crates/emwin-parser/src/body/ugc.rs:407-413 | appends every number of one range in order under one state and class |
| `Ugc.CollectCodes` | crates/emwin-parser/src/body/ugc.rs:390-417 | every number of every range in order under one state and class |
| `Ugc.ParseSegment` | crates/emwin-parser/src/body/ugc.rs:390-417 | a full segment sets the carried prefix, a bare one uses it, anything else fails |
| `Ugc.ExpandUgcBlock` | crates/emwin-parser/src/body/ugc.rs:370-388 | the segments' codes in order with the prefix carried along; nothing if one fails or none is found |
| `Ugc.CanonicalRoundTrip` | crates/emwin-parser/src/body/ugc.rs:153-158 | expanding the `-`-joined canonical texts of codes gives back these codes in order |
| `Ugc.AcceptedTextRoundTrip` | crates/emwin-parser/src/body/ugc.rs:370-528 | every text that expands gives codes with a two-letter state and a number of at most 999, and their canonical texts expand to the same codes again |
| `Ugc.CanonicalLetters` | crates/emwin-parser/src/body/ugc.rs:153-158 | a canonical text is the two letters of the state, C, Z, F or M for the class, and three digits whose decimal value is the number |
| `Ugc.ReadCanonical` | crates/emwin-parser/src/body/ugc.rs:153-158 | and every such text is the canonical text of a code |
| `Ugc.SeparatorsAgree` | crates/emwin-parser/src/body/ugc.rs:374-377 | any run of commas and dashes separates as one dash does |
| `Ugc.SpacesDoNotCount` | crates/emwin-parser/src/body/ugc.rs:379-380 | white space around a segment changes nothing |
| `Ugc.BadSegmentRejects` | crates/emwin-parser/src/body/ugc.rs:379-380 | one non-empty segment that, trimmed, is neither a full segment nor a sequence of numbers spoils the whole block |
| `Ugc.FullRangeExpands` | crates/emwin-parser/src/body/ugc.rs:419-513 | a full range, its end written out or abbreviated, gives all its codes and carries its prefix |
| `Ugc.BareRangeExpands` | crates/emwin-parser/src/body/ugc.rs:390-513 | a bare range after a prefix gives what the full range with that prefix gives |
| `Ugc.SpelledOutExpands` | crates/emwin-parser/src/body/ugc.rs:370-417 | the first code in full and the rest as bare numbers give the same codes and carry the same prefix |
| `Ugc.SameInContext` | crates/emwin-parser/src/body/ugc.rs:370-388 | segments that expand alike under every prefix may replace each other inside any block |
| `Ugc.RangeFormsAgree` | crates/emwin-parser/src/body/ugc.rs:370-513 | inside any block a range, full or abbreviated, and the spelled-out list mean the same |
| `Ugc.FullPairsExpand` | crates/emwin-parser/src/body/ugc.rs:469-496 | a full segment of several ranges gives the concatenation of the ranges' codes and carries its prefix |
| `Ugc.BarePairsExpand` | crates/emwin-parser/src/body/ugc.rs:444-496 | so does a bare segment of several ranges after a carried prefix |
| `Ugc.PairFormsAgree` | crates/emwin-parser/src/body/ugc.rs:370-496 | inside any block several ranges in one segment mean the same as one segment per range |
| `SlashScan.NextSlash` | crates/emwin-parser/src/body/support.rs:36-48 | the next slash, whatever characters lie between |
| `SlashScan.ScanSlashDelimited` | crates/emwin-parser/src/body/support.rs:27-57 | the accepted ones, in order, among the pieces between neighbouring slashes of the text |
| `SlashScan.CandidatesAcross` | crates/emwin-parser/src/body/support.rs:27-57 | the candidates of two texts joined by a line break are those of the first, one that crosses the break if and only if both hold a slash, and those of the second |
| `SlashScan.CandidateCrossesLines` | crates/emwin-parser/src/body/support.rs:41-45 | texts whose one candidate holds a line break |
| `SlashScan.ParseVtecCodes` | crates/emwin-parser/src/body/vtec.rs:152-176 | every candidate of VTEC shape gives one code or one issue, in text order |
| `SlashScan.CodeBetweenSlashes` | crates/emwin-parser/src/body/vtec.rs:152-176 | between two slashes one code is read if and only if an upper-case letter and a dot come first and the parser accepts the candidate |
| `SlashScan.CodesAcross` | crates/emwin-parser/src/body/vtec.rs:152-176 | the codes of two texts joined by a line break are those of each, and of the candidate across it in between |
| `LineRuns.GroupingIsUnique` | crates/emwin-parser/src/body/vtec_events.rs:139-179 | the runs are the only way to cut the lines into longest runs that open on event content and end before `$$` or a boundary, leaving out only lines that open none |
| `VtecSegments.PushVtecSegment` | crates/emwin-parser/src/body/vtec_events.rs:181-190 | appends the joined lines exactly if a code parses in them, and empties the buffer |
| `VtecSegments.SplitVtecSegments` | crates/emwin-parser/src/body/vtec_events.rs:139-179 | the joined texts of exactly the runs in which a code parses, in order |
| `VtecLaws.SegmentsKeepOrder` | crates/emwin-parser/src/body/vtec_events.rs:139-179 | segments are disjoint ranges of input lines in input order; each begins with event content on a line that is not blank, and none holds `$$`, a UGC start after a VTEC line, or a VTEC line after both a VTEC and a geography line |
| `VtecLaws.SegmentsStop` | crates/emwin-parser/src/body/vtec_events.rs:148-162 | segments are not cut too often: one that ends before the last line is followed by `$$`, or holds a VTEC line and is followed by a UGC start, or holds a VTEC and a geography line and is followed by a VTEC line |
| `VtecLaws.HeadingJoinsCode` | crates/emwin-parser/src/body/vtec_events.rs:155-175 | a UGC start is in the segment of the first VTEC line after it unless `$$` comes between |
| `VtecLaws.ContentJoinsCode` | crates/emwin-parser/src/body/vtec_events.rs:164-198 | from `$$` or the start of the text on, a line with any of the five kinds of event content is in the segment of the first VTEC line unless `$$` comes between |
| `LineLaws.DelimiterExactly` | crates/emwin-parser/src/body/vtec_events.rs:148 | a delimiter is `$$` with white space around it and nothing else |
| `LineLaws.MarkerWords` | crates/emwin-parser/src/body/vtec_events.rs:204-221 | geography lines begin, after white space and in either case, with LAT...LON or TIME...MOT...LOC, wind and hail lines with HAILTHREAT, MAXHAILSIZE, WINDTHREAT or MAXWINDGUST |
| `LineLaws.UgcStartExactly` | crates/emwin-parser/src/body/vtec_events.rs:308-333 | a UGC start is, after white space, the canonical text of a code at the end of the line or before `-`, `>`, a comma, a blank or a tab |
| `LineLaws.LineEndings` | crates/emwin-parser/src/body/vtec_events.rs:140-147 | the splitter sees the same lines, without white space at their ends, whether they end with LF or CR LF |
| `VtecLaws.EveryVtecLineInOneSegment` | crates/emwin-parser/src/body/vtec_events.rs:139-190 | every line on which a VTEC code parses is in exactly one segment, whose parse holds that line's codes unbroken |
| `VtecLaws.NoCodeLost` | crates/emwin-parser/src/body/vtec_events.rs:139-190 | over all lines the segments' codes consist of the codes of the single lines, in order, and of the codes read across line breaks inside segments, each as often as it occurs |
| `VtecLaws.LinesSufficeExactly` | crates/emwin-parser/src/body/vtec_events.rs:139-190 | the segments' codes are exactly the codes of the single lines if and only if no code is read across any line break inside a segment |
| `VtecLaws.SegmentCodeAcrossLines` | crates/emwin-parser/src/body/vtec_events.rs:139-190 | lines at which the two differ: a UGC heading and two lines, none with a code, make one segment in which the code across the second break is read, for every parser that accepts that candidate |
| `VtecLaws.ParseVtecEventBody` | crates/emwin-parser/src/body/vtec_events.rs:48-137 | one event segment per raw segment, numbered 0 to n-1, each with at least one code, since the test for an empty parse never succeeds; no body exactly if there is no segment |
| `IncidentFold.KeyOrder` | crates/emwin-db/src/postgres/prepare.rs:341-347 | the derived key order is total |
| `IncidentFold.KeyTransitive` | crates/emwin-db/src/postgres/prepare.rs:341-347 | and transitive |
| `IncidentFold.FirstFieldDecides` | crates/emwin-db/src/postgres/prepare.rs:341-347 | the first differing field of office, phenomena, significance and number decides; texts compare by prefix or first differing character |
| `IncidentFold.StatusWords` | crates/emwin-db/src/postgres/prepare.rs:378-387 | NEW, CON, EXT, EXA and EXB stand for active, CAN for cancelled, EXP for expired, UPG for upgraded, and no other word for anything |
| `IncidentFold.PrepareIncidentUpdates` | crates/emwin-db/src/postgres/prepare.rs:323-376 | fails exactly for an invalid timestamp; otherwise one update per distinct key among status-O rows, in key order, with the minimum of the defined starts, the maximum of the defined ends, the last row's action and the status of the last row whose action maps to one |
| `IncidentFold.SummaryIsUnique` | crates/emwin-db/src/postgres/prepare.rs:378-411 | these conditions leave one value only for every field |
| `IncidentFold.ReorderingKeepsTimes` | crates/emwin-db/src/postgres/prepare.rs:389-411 | reordering the rows changes neither keys nor starts nor ends |

## Left out

- DeliveryProtocol.DeliveryTable.ClaimDue: attempt payload columns (error text, response code, timestamps other than `claimed_at` and `next_retry_at`) are not modelled, because no claim or finalization depends on them.
- AlertFiring.StepKeepsFiring: whether a rule matches, is silenced or is cooling down is an arbitrary verdict; with several workers the cooldown check and the insert are separate steps, so no cooldown property is stated.
- VtecLaws.ParseVtecEventBody: UGC, HVTEC, polygon, time-motion and wind-hail fields of a segment and the issue list are not modelled.
- DayTime.ResolveDayTimeNotBefore: the year range of the calendar library is not modelled, years are unbounded.
- Worker loops are modelled as interleaved steps and not as one loop per task, since what matters is what happens between their await points.
- Deletion of rules, contact points and alert rows, and the administrative statements around them.
- HTTP delivery, request signing, template rendering, transport retries and logging: a delivery is an arbitrary success, retryable failure or terminal failure.
- Results of blob deletion during clean-up are ignored, as in the source; backend health bookkeeping is left out.
- Saturation of 64-bit counters and generations: fewer than 2^64 - 1 operations are assumed.
- Floating-point rounding, great-circle distance and WKT output: coordinates are exact reals.
- Coordinate token repair and parsing in `latlon.rs`, and the capture of UGC blocks and their expiration before expansion.
- UGC text is taken as characters; a segment with multi-byte characters, on which byte slicing could panic, is not modelled as a panic.
- The fields of a VTEC code: the parser of one candidate is an arbitrary function, so what is proved holds for the source's, which accepts line breaks in action, office and phenomena.
- CAP, HVTEC and specialized bulletin parsers, the HTTP API, the command line, object storage and archive extraction: table lookups, library calls and input/output.
