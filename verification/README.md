# Strict-order retries over Kafka: a verified model

A consumer that fails on a message must not let later messages of the same key overtake it.
The library solves this with a lock per business key: the failing message goes to a *retry
topic*, its key is locked, and later messages of a locked key follow it there. Locks are shared
between instances through a compacted *redirect topic*: a record under a fresh id takes a lock,
a tombstone under the same id gives it back, and every instance keeps a reference count per
topic and key. A message that cannot be retried any more goes to a *dead-letter topic*.

The project models this in four layers and proves what the layers owe each other.

| files | content |
|---|---|
| `LockTable`, `LocalCoordinator` | the nested reference-count map, as values with the laws of whole histories, and as the class that updates it |
| `Headers`, `HeaderLists`, `Text`, `RetryHeaders`, `Messaging` | the two header implementations, the textual form of numbers and times, the headers of one hop, messages and a producer that fails when an arbitrary script says so |
| `RedirectLog`, `Cluster`, `Coordinator`, `CoordinatorCalls`, `Agreement`, `ClusterRefinement`, `Offsets`, `Restoring` | the redirect log: what it says, how it is replayed and compacted; N coordinators as a step machine; the coordinator class; exactly what its calls do to table, headers and topic; that table and log move together; that the class's calls are walks of the machine; catching up; restoring and synchronizing |
| `Tracker`, `TrackerProperties`, `TrackerCalls`, `RetrySchedule`, `DeadLetters`, `RetryChain`, `Chain*`, `Consumer`, `Backoff` | the tracker class and what its calls keep; what they send and when they are accepted; when a retried message is due; what a dead letter says; main and retry workers as a step machine with lock conservation, no loss, no overtaking, order of first successes, termination; marking; delays |

The classes (`LocalStateCoordinator`, `HeaderList`, `SaramaList`, `Producer`,
`KafkaStateCoordinator`, `ErrorTracker`, the redirect handlers, `Session`) mutate the fields the
source mutates; each method is proved equal to a function of the old state (`AcquireOutcome`,
`ReleaseOutcome`, `RedirectOutcome`, `MainOutcome`, ...), and the theorems are about those
functions. What such a function amounts to is also stated from the outside, without the helpers
it is made of: which calls to the producer must work, which messages are then on the wire, to
which topics and with which headers, and what has become of the table
(`CoordinatorCalls.AcquireExactly`, `ReleaseExactly`, `ReceivedExactly`, `TrackerCalls.CallsSend`,
`AcceptedExactly`, `RetrySchedule.HopSchedule`, `DeadLetters.LetterSent`). Two refinements tie the classes to the step machines: every call of the tracker, on
real headers and a real producer script, is a walk of the machine whose runs the `Chain*`
modules reason about (`ChainRefinement.CallsAreWalks`), and every acquire, release and received
record of a coordinator is a walk of the N-instance machine (`ClusterRefinement`).

## What the proofs found out

- **A tombstone is released under its record key.** `releaseMessage` passes the consumed message
  on unchanged, so the local coordinator releases `msg.Key()`, which is the lock id, and not the
  `key` header (resilience/coordinator_kafka.go:638-648, resilience/coordinator_local.go:39-64).
  The comment at resilience/coordinator_kafka.go:634-637 says otherwise; the model follows the
  code and keeps the documented reading as a second mode, `ByBusinessKey`. In the code's reading
  counts never fall too low (`Cluster.NeverTakenForFree`) but a key that another instance has
  released stays locked for ever wherever its lock record was consumed
  (`Cluster.RecordKeyGap`, `Cluster.ForeignReleaseNeverFrees`). In the documented reading
  instances converge (`Cluster.Converges`), but replaying a compacted log can free a key that is
  still held (`RedirectLog.BusinessKeyUnsafeUnderCompaction`).
- **A failed republication gives the lock away.** Publishing a message of the chain again and
  failing rolls back a lock that call did not take
  if any of the nine calls that follow works (`TrackerProperties.RepublishFailureGivesLockAway`);
  lock conservation holds up to exactly that step (`ChainLocks.BalancedExactly`).
- **A non-retriable failure in the chain keeps its lock** whatever `FreeOnDLQ` says
  (`TrackerProperties.NotRetriableKeepsLock`).
- **`MaxRetries = 0` with `FreeOnDLQ` never accepts a failing main message**: it is
  dead-lettered, the release it never needed is refused, and it is delivered again
  (`TrackerProperties.NeverAcceptedWithoutRetries`, `ChainTermination.EndlessWithoutRetries`).
- **A dead letter cannot free its lock.** With `FreeOnDLQ` off the key stays locked for manual
  intervention, but the letter has lost the lock id, so passing it to `Free` is refused
  (`DeadLetters.LetterCannotBeFreed`). Its reason is that of the failure before the last one
  (`DeadLetters.ExhaustedLetter`).
- **First successes stay in order only for two kinds of configuration**: no retries, or a single
  one with locks kept on dead-lettering. Under any other, two messages of a key on one partition
  are enough for a run that breaks the order (`ChainConfiguration.OrderByConfiguration`). It
  breaks in two ways, and in no other: a message that has not succeeded is published again behind
  a later one of its key, or, dead-lettered and not freed, it is handled again after a later one
  has been cleared (`ChainFirst.FirstSuccessesInOrder`, `ChainOvertaking.OrderExactly`). Neither
  happens while no retried message fails again
  (`ChainConfiguration.InOrderWithoutSecondFailures`).
- **Starting over with exactly the outstanding locks is not enough.** No message overtakes as
  long as a worker starts over with a table that counts a lock for every unmarked message of the
  retry topic (`ChainOrder.NoOvertaking`). One whose lock was released before it could be marked
  has none; handled again it gives away the lock of another, and a later message overtakes
  (`ChainRestart.RestartOvertakes`).
- **Rollbacks are exact only under a condition each.** A failed acquire leaves the table as it was
  if and only if the message named no other topic than the one locked
  (`CoordinatorCalls.AcquireExactly`), and a failed release if and only if the key was locked: of
  a free key it leaves a lock behind (`CoordinatorCalls.ReleaseExactly`).
- **Duplicate headers are read differently by kind of record**: a lock record by the first, a
  tombstone, which is copied before, by the last (`CoordinatorCalls.ReceivedExactly`).
- **The linear delay can wrap around to a negative number** (`Backoff.LinearOverflows`,
  `Backoff.LinearExactly`).
- **Restoring may never complete on a compacted topic.** A consumer that is given everything
  catches up if and only if every partition has a record from the last one below its target on
  (`Offsets.CatchesUpExactly`); with nothing written since, that fails exactly when the log ends
  in a tombstone whose id the compaction has dropped (`Offsets.OnlyDroppedTombstones`), which a
  log of three records shows (`Offsets.CompactedTailNeverCatchesUp`). Then only the time limit
  ends the restore.
- **`Synchronize` can end without having caught up**: when a wake-up comes after the deadline
  the waiter closes the same channel as on success (resilience/coordinator_kafka.go:339-344;
  `Restoring.WaitingEnds`, `Restoring.DeadlineLooksLikeSuccess`).
- **Records read again count again** (`RedirectLog.RereadingAdds`).
- **The adapter's deletion shows through other wrappers** of the same consumed message: they
  keep all slots, with the last record doubled (`SaramaHeaders.DeleteThroughWrapper`).

## Model

| member | source | states |
|---|---|---|
| LockTable.CountIsLargestSuffix | resilience/coordinator_local.go:28-64 | After any history of acquires and releases, balanced or not, the map is canonical (every count at least one, no empty inner map) and a key's count is the largest net over all suffixes of the history. |
| LockTable.OtherKeysDoNotMatter | resilience/coordinator_local.go:28-64 | A key's count is the same after the history restricted to that key, from any starting table. |
| LockTable.CanonicalUnique | resilience/coordinator_local.go:39-64 | Two canonical tables with the same counts are the same map: pruning leaves no trace of past locks. |
| LockTable.AcquireUndo | resilience/coordinator_kafka.go:138-198 | An optimistic acquire and its rollback cancel around an interleaved history if and only if that history alone never releases the key at zero, or leaves it free. |
| LockTable.ReleaseUndo | resilience/coordinator_kafka.go:222-267 | A release and its rollback cancel if and only if the key was held and the interleaved history, after the release, never releases it at zero. |
| LockTable.ShuffleOfBalanced | resilience/coordinator_local.go:39-64 | Any shuffle of histories that never release more than they acquired never releases at zero, and its count is the sum of the parts' nets. |
| LocalCoordinator.LocalStateCoordinator.GetRefCount | resilience/coordinator_local.go:97-105 | Count and presence of a key in the nested map. |
| LocalCoordinator.LocalStateCoordinator.IncrementRef | resilience/coordinator_local.go:108-116 | The new map and the new count. |
| LocalCoordinator.LocalStateCoordinator.DecrementRef | resilience/coordinator_local.go:120-132 | The new map, the new count, and whether the key existed; an absent key changes nothing. |
| LocalCoordinator.LocalStateCoordinator.Acquire | resilience/coordinator_local.go:28-36 | The new table is the specification's increment of the old, canonical again. |
| LocalCoordinator.LocalStateCoordinator.Release | resilience/coordinator_local.go:39-64 | The new table is the saturating decrement of the old under the topic header or else the message's topic; count, key and topic are pruned together. |
| LocalCoordinator.LocalStateCoordinator.IsLocked | resilience/coordinator_local.go:67-74 | Locked if and only if the count is positive. |
| Headers.ImplementationsAgree | resilience/message.go:197-271 | On duplicate-free lists any sequence of sets, deletions and clones leaves the order-preserving list and the swap-delete list duplicate-free with the same map and the same lookups. |
| Headers.AgreeExactlyWithoutDuplicates | adapter/sarama/message.go:94-104 | From one list, every sequence of edits leaves both implementations with the same map if and only if no key is repeated. |
| Headers.CopyMeaning | resilience/message.go:114-131 | A copied message has no duplicate key; every key stands where it first occurred with its last value, and lookups agree with `All` on the original. |
| Headers.CopyIsIdentityWithoutDuplicates | resilience/message.go:114-131 | Copying a duplicate-free message changes nothing. |
| Headers.CopyIdempotent | resilience/message.go:114-131 | Copying a copy changes nothing. |
| Headers.PutGet | resilience/message.go:210-226 | Setting a header is read back, and every other header reads as before. |
| Headers.FirstMatch | resilience/message.go:197-226 | What is read and what is overwritten is the first header with the key, in its place, whatever others there are. |
| Headers.FirstDropped | adapter/sarama/message.go:94-104 | The swapping deletion drops the first header with the key, the last one takes its place, and all others stay in theirs. |
| Headers.NoMatch | resilience/message.go:197-226 | Without such a header setting appends, and reading and the swapping deletion do nothing. |
| Headers.RemoveInOrder | resilience/message.go:241-252 | Deletion keeps the order of the headers it keeps: over two lists put together it is one deletion after the other. |
| HeaderLists.HeaderList.Get | resilience/message.go:197-207 | The first value under the key, or absence. |
| HeaderLists.HeaderList.Set | resilience/message.go:210-226 | Replaces the first occurrence in place, appends otherwise. |
| HeaderLists.HeaderList.Delete | resilience/message.go:241-252 | Removes every occurrence, keeping the order of the rest. |
| HeaderLists.HeaderList.All | resilience/message.go:229-238 | The map of last values. |
| HeaderLists.HeaderList.Clone | resilience/message.go:255-271 | A fresh list with the same headers; the original is untouched. |
| SaramaHeaders.SaramaList.Get | adapter/sarama/message.go:67-75 | The first value under the key, or absence. |
| SaramaHeaders.SaramaList.Set | adapter/sarama/message.go:78-91 | Same meaning as the other implementation; the replaced record object is mutated in place. |
| SaramaHeaders.SaramaList.Delete | adapter/sarama/message.go:94-104 | The last record moves into the first match's slot of the shared array and the slice shrinks by one. |
| SaramaHeaders.SaramaList.Append | adapter/sarama/message.go:87-90 | Appending takes the array's next slot when there is one, a fresh array otherwise. |
| SaramaHeaders.DeleteThroughWrapper | adapter/sarama/message.go:52-54 | After a deletion through one wrapper the message's records are all there still, the last one in the deleted one's place as well. |
| SaramaHeaders.SaramaList.Clone | adapter/sarama/message.go:117-126 | Fresh records with the same content, sharing nothing with the original. |
| SaramaHeaders.ToSaramaHeaders | adapter/sarama/message.go:138-159 | Every header, in order. |
| SaramaHeaders.ThroughSarama | adapter/sarama/message.go:138-159 | A library message sent through Sarama headers and copied on receipt has the same headers again when it had no duplicates. |
| Text.ItoaRoundTrip | resilience/message.go:284-359 | Every 64-bit integer survives being written as decimal text and read back. |
| Text.ItoaCanonical | resilience/message.go:334-359 | A number is written with a minus or no sign and without a leading zero, and its digits are worth it in decimal places. |
| Text.AtoiExactly | resilience/message.go:284-329 | A text reads as a number if and only if it is a sign or none followed by digits, at least one, whose value in decimal places it is, and it fits in 64 bits. |
| Text.HeaderReads | resilience/tracker.go:757-780 | A header reads as a number if and only if its first value spells it, as a time if those are its seconds, and the worker waits if and only if that time is still to come. |
| Text.IntRoundTrip | resilience/message.go:284-359 | The same through `SetHeader` and `GetHeaderValue`. |
| Text.TimeRoundTrip | resilience/message.go:284-359 | A time comes back floored to whole seconds, never later and less than a second earlier, and writing what was read is a fixed point. |
| Text.WakeUpWithinOneSecond | resilience/tracker.go:757-780 | The worker wakes at most one second before now plus delay and never after it. |
| Backoff.ExponentialBounds | resilience/backoff.go:37-74 | Every delay lies between initial and maximal delay, delays do not decrease, and once capped they stay capped; negative attempts count as zero. |
| Backoff.ExponentialExactly | resilience/backoff.go:61-74 | The delay is the maximum where the initial delay times the power of the attempt exceeds it, and otherwise that product cut to whole nanoseconds; the first delay is the initial one; negative attempts count as zero. |
| Backoff.GeometricTotal | resilience/backoff.go:61-74 | The uncapped waits of n attempts sum to the geometric sum: times multiplier less one, it is the initial delay times the n-th power less one. |
| Backoff.TotalIsGeometric | resilience/backoff.go:61-74 | The delays of n attempts, while none is capped, sum to the geometric sum up to one nanosecond an attempt. |
| Backoff.LinearClosedForm | resilience/backoff.go:132-144 | While the sum fits in 64 bits the delay is the capped line. |
| Backoff.LinearExactly | resilience/backoff.go:132-144 | For any attempt, the delay is the capped line if and only if the sum fits or wraps around to at least the cap. |
| Backoff.LinearWraps | resilience/backoff.go:132-144 | The delay is the 64-bit number congruent to the sum, unless that exceeds the maximum; negative attempts count as zero. |
| Backoff.LinearBounds | resilience/backoff.go:111-144 | Bounds, monotonicity and staying capped for the linear schedule while the sum fits. |
| Backoff.LinearOverflows | resilience/backoff.go:111-144 | An accepted configuration and an attempt with a negative delay. |
| Backoff.TotalWait | resilience/tracker.go:476-494 | Whichever schedule, the waits before exhaustion sum to at most MaxRetries times the maximal delay. |
| RedirectLog.OutstandingMeaning | resilience/coordinator_kafka.go:602-632 | An id is outstanding for a key if and only if its last record is a lock record of that key. |
| RedirectLog.CompactionKeepsOutstanding | resilience/coordinator_kafka.go:150-171 | Any compaction that keeps each id's last record, or drops ids whose last record is a tombstone, keeps the outstanding set of every key. |
| RedirectLog.CompactionSandwich | resilience/coordinator_kafka.go:150-171 | Outstanding count <= replay of the compacted log <= replay of the full log, with the exact condition for equality on either side. |
| RedirectLog.MergeOrderIrrelevant | resilience/coordinator_kafka.go:668-686 | Any two merges of the same uncompacted partition logs give every key the same count, in either reading of tombstones, and never release at zero. |
| RedirectLog.MergedCompaction | resilience/coordinator_kafka.go:465-543 | Any interleaving of partitions compacted each on its own counts, in the code's reading, at least the outstanding ids of every key, and exactly those if and only if no superseded lock record is left. |
| RedirectLog.RereadingAdds | resilience/coordinator_kafka.go:602-649 | Records read again add, in the code's reading, one for each lock record of the key among them, and nothing if and only if there is none. |
| RedirectLog.PartitionBalanced | resilience/coordinator_kafka.go:602-649 | One partition, where every id is locked before it is released, never releases a key more often than it locked it, in either reading. |
| RedirectLog.NetIsOutstanding | resilience/coordinator_kafka.go:602-649 | In the documented reading a partition's acquires less releases of a key are its outstanding ids. |
| RedirectLog.ReplayCountsLocks | resilience/coordinator_kafka.go:638-649 | In the code's reading replay counts every lock record still in the log, released or not. |
| RedirectLog.ReadingsDiffer | resilience/coordinator_kafka.go:634-648 | One acquire and one foreign release leave count zero in the documented reading and one in the code's. |
| RedirectLog.BusinessKeyUnsafeUnderCompaction | resilience/coordinator_kafka.go:634-648 | A compaction after which the documented reading frees a key that an outstanding id holds. |
| Cluster.StepKeepsValid | resilience/coordinator_kafka.go:122-274 | Every step of every instance (start, local acquire and release, publication, rollback, delivery) keeps: each id locked once and released at most once after that, pending work of instances disjoint, partitions consumed as prefixes, and each table exactly the ids the instance holds. |
| Cluster.NeverTakenForFree | resilience/coordinator_kafka.go:122-205 | In every run of N instances, in either reading, a count equals the ids held and is at least the outstanding ids the instance knows and is not releasing, so it never sees such a key as free. |
| Cluster.SameOutstanding | resilience/coordinator_kafka.go:602-632 | In every log the machine can write, the outstanding ids of a key by kind of record are those by last record, so the machine and the compaction results speak of one set. |
| Cluster.Converges | resilience/coordinator_kafka.go:602-649 | In the documented reading every caught-up quiet instance counts exactly the outstanding ids of every key, and any two have the same table. |
| Cluster.RecordKeyGap | resilience/coordinator_kafka.go:638-648 | In the code's reading the count exceeds the outstanding ids by exactly the ids others released, and is right if and only if there are none. |
| Cluster.ForeignReleaseNeverFrees | resilience/coordinator_kafka.go:638-648 | In the code's reading a key once released by another instance is never free again where its lock record was consumed. |
| ClusterRefinement.AcquireIsAWalk | resilience/coordinator_kafka.go:122-205 | Acquiring on real headers, table and producer script is the machine's walk of counting locally and then publishing or rolling back, with the same table, and with the records it added to the redirect topic of its topic, which are all it sent. |
| ClusterRefinement.ReleaseIsAWalk | resilience/coordinator_kafka.go:211-274 | The same for releasing, also a lock that another coordinator took or this one before it was restarted. |
| ClusterRefinement.ReceivingIsDelivery | resilience/coordinator_kafka.go:602-649 | Processing a received record gives the table its delivery gives the instance, in the code's reading. |
| Messaging.Producer.SendWithRetries | resilience/coordinator_kafka.go:173-192 | At most the given number of calls, stopping at the first success; at most one copy is written. |
| Messaging.ProducesOnce | resilience/coordinator_kafka.go:173-192 | Success if and only if one of the calls works; then the first that does has written the message, once, and no call follows it; otherwise all calls are made and nothing is written. |
| Messaging.NewFromMessage | resilience/message.go:114-131 | A fresh message with all fields and a fresh, copied header list. |
| Coordinator.KafkaStateCoordinator.EnsureLockHeaders | resilience/coordinator_kafka.go:123-136 | An id is drawn and set only when there is none, the topic only when absent. |
| Coordinator.KafkaStateCoordinator.CloneForRedirect | resilience/coordinator_kafka.go:145-148 | The coordinator's headers go into a fresh clone; the message keeps its own. |
| Coordinator.KafkaStateCoordinator.Acquire | resilience/coordinator_kafka.go:122-205 | Table, wire, ids drawn, headers and result are those of `AcquireOutcome`: count first, publish up to three times, take the count back on failure. |
| Coordinator.KafkaStateCoordinator.Release | resilience/coordinator_kafka.go:211-274 | Table, wire and result are those of `ReleaseOutcome`; without id or topic header nothing changes and the call fails. |
| Coordinator.KafkaStateCoordinator.IsLocked | resilience/coordinator_kafka.go:76-83 | Locked if and only if the local count is positive. |
| Coordinator.KafkaStateCoordinator.ProcessRedirectMessage | resilience/coordinator_kafka.go:602-632 | Own echoes change nothing, tombstones release, other records acquire, malformed ones are reported and change nothing. |
| Coordinator.KafkaStateCoordinator.ReleaseMessage | resilience/coordinator_kafka.go:638-649 | Releases under the record key, and reports a missing topic or key header. |
| CoordinatorCalls.AcquireExactly | resilience/coordinator_kafka.go:122-205 | An acquire succeeds if and only if one of three calls works. Then the key is counted once more, and one record has been written to the redirect topic of the topic, keyed by the lock id, with the id as payload, naming topic, key and writer, all other headers the message's. Otherwise nothing has been written, and the table is what it was if and only if the message named no other topic. |
| CoordinatorCalls.AcquireMarks | resilience/coordinator_kafka.go:123-136 | The message ends up with a lock id and a topic header, its own where it had them; an id is drawn only where it had none; its other headers read as before. |
| CoordinatorCalls.ReleaseExactly | resilience/coordinator_kafka.go:211-274 | Without lock id or topic header nothing happens and the release fails. Otherwise it succeeds if and only if one of three calls works; then the key is counted once less and one tombstone has been written to the redirect topic under the lock id; if not, nothing has been written, and the table is what it was if and only if the key was locked. |
| CoordinatorCalls.RefusedExactly | resilience/coordinator_kafka.go:602-649 | A received record is refused if and only if another coordinator wrote it and it lacks the topic or the key header. |
| CoordinatorCalls.ReceivedExactly | resilience/coordinator_kafka.go:602-649 | Otherwise, count by count: one's own changes nothing, a lock record adds one to the business key its headers name first, a tombstone takes one off its own record key under the topic its headers name last. |
| Agreement.RecordsReadBack | resilience/coordinator_kafka.go:143-171 | What the coordinator publishes says, when read, the id, topic, key and origin it meant, whatever headers the message carried. |
| Agreement.ReceivedAsWritten | resilience/coordinator_kafka.go:602-649 | A received record is consumed as the log record it stands for, in the code's reading. |
| Agreement.AcquireAgrees | resilience/coordinator_kafka.go:122-205 | Across success and failure the local count and the ids outstanding in the redirect topic of its topic change alike for every key: one more of both, or neither. |
| Agreement.ReleaseAgrees | resilience/coordinator_kafka.go:211-274 | The same for releasing an outstanding id: one fewer of both, or neither. |
| RetryHeaders.CopyWithout | resilience/tracker.go:580-590 | The loop that drops reserved headers keeps all others in order, without duplicates. |
| RetryHeaders.WithoutInOrder | resilience/tracker.go:580-590 | What it keeps stays in order: over two lists put together it is the one after the other. |
| RetryHeaders.HopReadsBack | resilience/tracker.go:592-604 | Every header of a hop is what the next call reads: id, topic, retry mark, reason, attempt, maximum, and both times in whole seconds. |
| RetryHeaders.RetriedWakeUp | resilience/tracker.go:757-780 | On the headers a redirect really writes, the worker wakes within the second before the scheduled time, and does not wait once it has come. |
| RetryHeaders.RedirectedHeaders | resilience/tracker.go:570-615 | A hop leaves no duplicates and keeps every unreserved header where and what it is. |
| Tracker.ErrorTracker.PublishToRetry | resilience/tracker.go:570-615 | Exactly one retry message, with key and payload of the original and the rewritten headers, or none. |
| Tracker.ErrorTracker.SendToDLQ | resilience/tracker.go:621-683 | Exactly one dead letter with key, payload, kept and added headers, or none; no lock changes. |
| Tracker.ErrorTracker.HandleMaxRetriesExceeded | resilience/tracker.go:707-750 | Dead-letters first, releases only after that and only with `FreeOnDLQ`; the result is the release's. |
| Tracker.ErrorTracker.RollBackLock | resilience/tracker.go:521-530 | Up to three releases, stopping at the first success. |
| Tracker.ErrorTracker.LockUnlessInChain | resilience/tracker.go:510-518 | A message already in the chain keeps its lock and nothing happens; any other acquires one. |
| Tracker.ErrorTracker.RedirectEnvelope | resilience/tracker.go:459-564 | World and result are those of `RedirectOutcome`: non-retriable, exhausted, already in the chain, or to be locked first, with the rollback after a failed publication. |
| Tracker.ErrorTracker.Redirect | resilience/tracker.go:429-433 | The same on a copy of the caller's message. |
| Tracker.ErrorTracker.Free | resilience/tracker.go:440-452 | A release on a copy of the caller's message. |
| Tracker.ErrorTracker.HandleMain | resilience/tracker.go:400-419 | The user's handler runs if and only if the key is free; the outcome is `MainOutcome`. |
| Tracker.ErrorTracker.HandleRetry | resilience/tracker.go:340-356 | Success frees, failure redirects again; the outcome is `RetryOutcome`. |
| TrackerProperties.RedirectAgrees | resilience/tracker.go:459-564 | Across every outcome of a redirect, under any producer failures, local counts and outstanding ids of every key change alike. |
| TrackerProperties.HandlersAgree | resilience/tracker.go:340-356 | The same for whole handler calls on the main and on the retry topic. |
| TrackerProperties.NeverAcceptedWithoutRetries | resilience/tracker.go:733-741 | `MaxRetries = 0` with `FreeOnDLQ`: the call fails although the dead letter is written. |
| TrackerProperties.NotRetriableKeepsLock | resilience/tracker.go:461-470 | A non-retriable failure in the chain is accepted and its lock stays, in table and log. |
| TrackerProperties.RepublishFailureGivesLockAway | resilience/tracker.go:513-542 | After a failed republication the call fails, and the message's lock is gone from table and log if and only if one of the nine calls that follow works; otherwise both are as they were. |
| TrackerProperties.FirstFailureUndone | resilience/tracker.go:510-542 | After a first redirect that fails behind its lock record, table and outstanding locks are what they were if one of the nine calls that follow works; otherwise the key stays locked. |
| TrackerProperties.HopsPreserve | resilience/tracker.go:570-615 | After n redirects user headers keep values and order, no key is duplicated, the attempt is n, and id, original topic and first failure time are those of the first hop. |
| TrackerProperties.NothingLeaks | resilience/coordinator_kafka.go:143-148 | Every header but the eight the chain writes reads as at the start, so no header the coordinator puts on its own records appears in a retried message. |
| TrackerCalls.CallsSend | resilience/tracker.go:459-683 | Whatever fails or is rolled back, every message a handler call sends goes to the redirect, retry or dead-letter topic of its message's original topic and names that topic itself; a redirect record names the message's key and the coordinator and is keyed by its lock id; a retry message or letter has the message's key and payload. |
| TrackerCalls.WireStaysAddressed | resilience/tracker.go:459-683 | In every run of handler calls, of any number of instances sharing the wire, each message on it was sent on behalf of some call's message and names the topic whose companion it went to. |
| TrackerCalls.AcceptedExactly | resilience/tracker.go:459-564 | A redirect is accepted if and only if the calls it needs work; then it has sent exactly a dead letter, a dead letter and a tombstone, a retry message, or a lock record and a retry message of the same id, and the table has moved accordingly. |
| RetrySchedule.RetryLands | resilience/tracker.go:510-615 | Every successful redirect ends with a message to the retry topic of the original topic, with key and payload of the original. |
| RetrySchedule.RetryReads | resilience/tracker.go:570-615 | It counts one attempt more and carries limit, reason, retry mark, original topic, and the lock id held or drawn. |
| RetrySchedule.RetryTimes | resilience/tracker.go:479-494 | It is due `backoff` of the attempts counted before after the redirect, and says when the message failed first; both floored to the second. |
| RetrySchedule.HopSchedule | resilience/tracker.go:476-615 | After n redirects of a user's message it is in the retry topic of its first topic, due backoff(n - 1) after the last redirect, with the last redirect's reason and the configured limit. |
| RetrySchedule.HopWakesUp | resilience/tracker.go:757-780 | The worker's n-th wake-up comes within the second before that time and never after it; once it has come the worker does not wait. |
| RetrySchedule.FollowsPredecessor | resilience/tracker.go:400-419 | A main message of a locked key, once accepted, is in the retry topic with the predecessor as its reason, whatever its own handler would have returned. |
| DeadLetters.LetterReads | resilience/tracker.go:621-683 | A dead letter keeps key and payload and names reason, source topic and number of attempts. |
| DeadLetters.LetterTimes | resilience/tracker.go:648-656 | It carries the moment it was written; it carries the time of the first failure exactly as the message tells it unless that is missing or the first second of the year 1, and then whatever the message itself said under that name. |
| DeadLetters.LetterKeeps | resilience/tracker.go:634-646 | It has no duplicate headers and keeps every other header where and what it is. |
| DeadLetters.LetterDrops | resilience/tracker.go:637-646 | It carries none of the dropped headers. |
| DeadLetters.LetterHeader | resilience/tracker.go:637-646 | Name by name: lock id, retry mark, attempts, limit and next time are gone, and every other header the letter does not add reads as before. |
| DeadLetters.LetterSent | resilience/tracker.go:707-731 | The first message such a redirect sends is that letter; its reason is the failure's where not retriable, otherwise the message's last one, or `max retries exceeded` where it has none. |
| DeadLetters.LetterCannotBeFreed | resilience/tracker.go:637-646 | Releasing with a dead letter is refused and changes nothing. |
| DeadLetters.ExhaustedLetter | resilience/tracker.go:707-731 | After MaxRetries hops the letter says MaxRetries attempts, the original topic and the time of the first failure, and the reason of the failure before the last. |
| RetryChain.StepKeepsShape | resilience/tracker.go:459-564 | In every state the retry topic holds only messages in the chain, on their key's lane, with an attempt of at most MaxRetries; main messages are as delivered. |
| ChainLocks.LocksConserved | resilience/tracker.go:510-554 | In every run without crashes and without giving a lock away: a key's count = its messages in the retry topic or being retried + first redirects between acquire and publication + dead letters that kept the lock + first redirects whose every rollback failed. |
| ChainLocks.BalancedExactly | resilience/tracker.go:513-542 | In every crash-free run the balance holds throughout if and only if no step rolls back the lock of a message already in the chain. |
| ChainLoss.NothingIsLost | resilience/tracker.go:459-564 | Under any failures and any redelivery, also by a worker that had marked all it was given, every main message is at all times unmarked, succeeded, dead-lettered, or unmarked in the retry topic, with its key and payload. |
| ChainOrder.UnlockedIsResolved | resilience/coordinator_local.go:67-74 | A message the workers have passed, of a key whose count is zero, has succeeded or was dead-lettered without keeping its lock. |
| ChainOrder.NoOvertaking | resilience/tracker.go:400-419 | Whenever the main worker calls the user's handler, every earlier message of the key on the partition has succeeded or was dead-lettered without keeping its lock, up to the handler's return, and also when workers start over at their last mark with a table that counts at least one lock for each unmarked retry message. |
| ChainRestart.RestartOvertakes | resilience/tracker.go:340-356 | From any start with three messages of a key on a partition: a run that is faithful but for one retry worker starting over between release and mark, its table counting exactly the locks held, after which the main worker is about to handle a message before an earlier one is resolved. |
| ChainFirst.FirstSuccessesInOrder | resilience/tracker.go:340-356 | As long as no message that has not succeeded is published again behind a later one of its key, or brought back by a failed release after a later one was cleared: of two messages of one key on one partition that have succeeded the earlier did so first. |
| ChainOvertaking.OrderExactly | resilience/tracker.go:513-542 | After any run without such a step, the next step is one if and only if a run that takes it and no other goes on to break the order. |
| ChainOvertaking.OvertakingHappens | resilience/tracker.go:513-542 | From any start with two messages of a key on a main partition, wherever two retries are allowed, a faithful run in which the later succeeds first. |
| ChainOvertaking.BringingBackHappens | resilience/tracker.go:733-741 | The same where one retry is allowed and exhausted messages are freed, by a tombstone that fails. |
| ChainConfiguration.OrderByConfiguration | resilience/tracker.go:472-494 | From any start, all faithful runs keep first successes in order if and only if the configuration allows no retry, or one with locks kept on dead-lettering, or no partition holds two messages of a key. |
| ChainConfiguration.InOrderWithoutSecondFailures | resilience/tracker.go:340-356 | In every faithful run in which no retried message fails again, first successes of a key on a partition come in its order. |
| ChainTermination.HandlingUsesAttempt | resilience/tracker.go:476-494 | With working infrastructure every handling step lowers the sum of MaxRetries + 1 - attempt over pending messages, and no step raises it. |
| ChainTermination.Progress | resilience/tracker.go:340-356 | Wherever a message is pending its worker can take a step. |
| ChainTermination.Terminates | resilience/tracker.go:472-494 | N messages drain in at most N * (MaxRetries + 1) handling steps, each is handled at most MaxRetries + 1 times, and one dead-lettered for exhaustion carries attempt exactly MaxRetries. |
| ChainTermination.Drained | resilience/tracker.go:707-750 | Where such a run can go no further everything is marked, every main message has succeeded or is dead-lettered, and the only locks left are those dead letters kept. |
| ChainTermination.EndlessWithoutRetries | resilience/tracker.go:733-741 | Without retries but with `FreeOnDLQ`, a failing message returns in four steps to where it started, with one more dead letter. |
| ChainRefinement.CallsAreWalks | resilience/tracker.go:400-564 | Every handler call on real headers, table and producer script is a walk of the step machine with the same table, the retry messages and the dead letters it stands for in order, a success listed if and only if the handler was called and succeeded, and marking if and only if the call succeeded. |
| Offsets.IsCaughtUpOffsets | resilience/coordinator_kafka.go:375-391 | True if and only if every partition with records is consumed up to the one below its target. |
| Offsets.CaughtUpMonotone | resilience/coordinator_kafka.go:375-391 | Being caught up survives more consumption and lower targets. |
| Offsets.CaughtUpIsCovered | resilience/coordinator_kafka.go:668-708 | With in-order delivery per partition in any interleaving, caught up means everything below the targets was applied, and conversely where the last record below each target exists. |
| Offsets.RestoreStopsExactly | resilience/coordinator_kafka.go:668-686 | Where the last record below each target exists, the first delivery after which the offsets have caught up is the one that completes the snapshot. |
| Offsets.CoverageExactly | resilience/coordinator_kafka.go:375-391 | Caught up and covered are the same for every in-order consumer if and only if the last record below every target exists. |
| Offsets.CatchesUpExactly | resilience/coordinator_kafka.go:375-391 | A consumer given everything catches up if and only if each target is reached or passed by an existing record; without that none ever does. |
| Offsets.RestoreCompletesExactly | resilience/coordinator_kafka.go:465-543 | From one compacted partition, restoring completes if and only if a record from the last below the snapshot on is kept. |
| Offsets.OnlyDroppedTombstones | resilience/coordinator_kafka.go:465-543 | With nothing written since, it fails if and only if the log ends in a tombstone whose id the compaction dropped. |
| Offsets.CompactedTailNeverCatchesUp | resilience/coordinator_kafka.go:465-543 | Such a log, a compaction of it and its delivery: everything is handed over and the offsets never catch up. |
| Restoring.RedirectFillHandler.Handle | resilience/coordinator_kafka.go:670-686 | Applies the record first, notes the offset only then, cancels when caught up; a rejected record leaves everything as it was. |
| Restoring.RedirectHandler.Handle | resilience/coordinator_kafka.go:697-708 | Applies the record first and notes the offset only then. |
| Restoring.Restore | resilience/coordinator_kafka.go:465-543 | A fresh handler given any records ends with the table of applying them one by one, the offsets of those applied, and cancelled if and only if the offsets had caught up; then everything below the targets has been applied, and, where the last record below each target exists, cancelled if and only if it has; given everything there is, cancelled if and only if each target is reached or passed by an existing record. |
| Restoring.RestoresReplay | resilience/coordinator_kafka.go:602-649 | What a starting coordinator makes of the records others wrote is the replay of the log they stand for. |
| Restoring.EveryPositionNoted | resilience/coordinator_kafka.go:602-649 | None of the records other coordinators wrote is rejected: every one is noted. |
| Restoring.RestoredCounts | resilience/coordinator_kafka.go:465-543 | Restored from partitions compacted each on its own, in any interleaving, a key counts at least its outstanding ids, and exactly those if and only if no superseded lock record is left. |
| Restoring.Follow | resilience/coordinator_kafka.go:697-708 | After any records the live handler has noted the offsets of those applied, and the table is that of applying them one by one. |
| Restoring.WaitForCatchUp | resilience/coordinator_kafka.go:328-348 | The loop is `Waiting`, which says how and at which wake-up the waiting ends. |
| Restoring.WaitingEnds | resilience/coordinator_kafka.go:328-348 | Each of the four ways the waiting can stand at look n has its exact condition: the targets are reached; the context has ended; the deadline has passed at the wake-up after n, whatever the offsets are; there was no other wake-up; and nothing ended it before. |
| Restoring.DeadlineLooksLikeSuccess | resilience/coordinator_kafka.go:339-344 | The channel can be closed although nothing has been consumed. |
| Restoring.Synchronize | resilience/coordinator_kafka.go:278-365 | When the waiter looks at what its consumer's handler has noted and the loop condition ends the waiting, everything below the targets had been applied by then; when anything else ends it and the last record below each target exists, at its last look it had not. |
| Consumer.ConsumeClaim | adapter/sarama/consumer.go:64-86 | Messages are handled and then marked, one after the other, up to the first that is not there, not waited for because the session is done, or fails; nothing else is handled or marked but that last one, in vain; an error is returned if and only if it failed. |
| Consumer.CommittedExactly | adapter/sarama/consumer.go:64-86 | The committed offset is the largest offset after a marked one, or where the session started. |
| Consumer.NothingSkipped | adapter/sarama/consumer.go:64-86 | Over any number of sessions, each starting at or before the committed offset, every message below the committed offset was handled without error. |

## Left out

- Brokers, consumer groups, admin calls and topic creation: topics are append-only sequences and publishing succeeds or fails as a script says. A failed publication writes nothing; one that fails after having written is not modelled.
- Contexts, timers and goroutines: concurrency is the interleaving of steps; waiting and the time limits are inputs. `retry.Do` ends only by success or by using up its attempts, not by an ended context.
- Lock ids are drawn from a script that the theorems assume fresh and distinct from business keys; `Cluster` enforces that and that each id is released by one instance at a time.
- Cluster.StepKeepsValid: every record reaches an instance at most once, and a restored instance goes on after what it restored. The source may read a record in the restore and again afterwards; what that adds to a count is `RedirectLog.RereadingAdds`.
- `RetryChain` keeps of a message's lock id only whether it is in the chain, keeps one instance's workers and no foreign records, and gives the key's retry lane as a function of the key. That a restored table counts at least the outstanding ids is `Restoring.RestoredCounts`; that these include one for each unmarked retry message is a hypothesis of `ChainOrder.NoOvertaking`.
- ChainLocks.LocksConserved: excludes workers that start over, since a restored table may count more locks than there are messages for; `ChainFirst` and `ChainTermination` exclude them too.
- Messaging.NewFromMessage: partition, offset and timestamp are not fields of the modelled message; nothing in the protocol reads them from it.
- User headers are assumed not to use the reserved names `id`, `topic`, `retry` and the retry headers (resilience/message.go:34-40) where hops are concerned.
- SaramaHeaders.SaramaList.Append: an array that has to grow grows by one slot; how much spare room Go's `append` leaves is not modelled.
- Offsets.CaughtUpMonotone: lower targets must stay positive or be zero, which is what a broker reports.
- Backoff.ExponentialBounds: over exact arithmetic; the rounding of `math.Pow` in 64-bit floating point is not modelled.
- Header text is ASCII decimal; that `GetHeaderValue` and `SetHeader` refuse types other than string, int and time is left to the types of the model.
- Constant backoff, configuration validation, topic names and prefixes, plain accessors, metrics, logging and the error channel: settled by reading one line, and without effect on locks or messages.
