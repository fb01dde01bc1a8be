# Log generator: transmission engine, renderer and readers

A Dafny model of the parts of the log generator that have to be right whatever the schedule, the templates and the
files are, with proofs of what they promise. Each module follows one source file or one class of it; what the source
updates in place is a class or a loop here, proved against a specification function, and the promises are lemmas about
those functions.

- `Lifecycle*.dfy`: one run of `StressTestService` as a state machine over atomic steps: supervisor, any number of
  workers, and the thread that calls `start`, `request_stop` and `stop`. Results of transport calls are arbitrary
  outcomes of a step. Proved over all interleavings: the start barrier, the absence of lost wake-ups, that every
  worker sends if nothing disturbs the run, termination of every weakly fair schedule after a stop, conservation of
  the statistics, and exactly when a published Failed lasts. `Progressing.dfy` holds the
  argument from fairness that the results on schedules share.
- `Transports.dfy`, `Packer.dfy`, `Streaming.dfy`, `FileOutput.dfy`, `FileWorkers.dfy`: the worker loops (packed UDP,
  plain UDP, TCP/TLS, FILE) with carried-over payloads and datagrams, batch limits, pacing, partial sends and
  counters; `FileTransport`.
- `Pacing.dfy`, `Cursors.dfy`: `RatePacer` and its rate bound, quotas and batch sizes, `TimestampCursor`,
  `RoundRobinCursor` and its block-reserving workers.
- `Framing.dfy`: RFC 6587 framing in both forms and the receivers that undo it.
- `Rendering.dfy`, `ProfileDraws.dfy`: rendering with its per-second, per-profile and per-segment caches, against
  uncached rendering.
- `Segments.dfy`, `StoredMarkers.dfy`, `Unwrapping.dfy`, `ScanLocality.dfy`, `Rescanning.dfy`, `Retokenizing.dfy`: the
  cutting of templates into segments and the timestamp markers: reading a written marker back, taking the added
  markers out again, scanning the tokenized text, tokenizing it again.
- `Compiling.dfy`: cutting and rendering put together.
- `TestCases.dfy`, `SanitizedCases.dfy`, `PreparationCache.dfy`, `CacheExamples.dfy`, `BrandNames.dfy`: test-case
  expansion, the preparation cache under concurrent callers, concrete runs of the cache, and what sanitizing does to
  the names of tokens.
- `CsvReader.dfy`, `CsvAccepted.dfy`, `CsvHeadings.dfy`: the CSV state machine against text written under section 2 of
  RFC 4180, in both directions.
- `AsyncLogger.dfy`: the asynchronous file logger as a state machine.
- `Text.dfy`, `Options.dfy`: byte strings, decimal numbers, and the Option type that the others share.

Conventions. A `string` is a byte string. Where the source calls code that is not modelled (rendering seen from the
sending loops, `PrivacyAnonymizer`, the tokenizer's patterns, local-time formatting), the model takes a function as a
parameter and the results hold for every such function. The clock is monotone and a pause lets at least one tick
pass.

The preparation cache asks of each requested template that its strings settle (tokenizing the tokenized sample or value
changes nothing more, as `tests/log_preparation_cache_tests.cpp` expects) and that the tokenizer turns none of its token
names into another valid name. It may turn a name into what is no name, as the code does with "MART"
(`NamesAreRewritten`). `TokenizingTwice` says for which samples the timestamp markers settle, `NamesAreKept` that the
replacements of brand names meet the second condition, and `SettlingMatters` and `NamesMatter` what goes wrong without
the one or the other.

Where the code does less than it seems to promise, the model keeps the code and says exactly what holds:

- *Failed can be lost.* The loads and stores of the state are separate, so a store that follows an older load
  overwrites Failed; `FailedCanBeLost` is a run that does it. `FailedIsLastingExactly`: a published Failed stays visible
  until `stop` takes over if and only if no thread is between such a load and its store.
  `LateRequestShowsStopping`: a late `request_stop` shows Stopping although nothing runs any more, and it stays so until
  `stop` (`StoppingStays`).
- *A second stop() does not wait.* It finds the supervisor taken over, stores Stopped and returns.
  `SecondStopCanReturnEarly` is a run in which a worker sends after that; `SecondStopIsSafeExactly` says when nothing
  runs any more at that point.
- *Cache keys collide* (`KeysCollide`), because the number of values per token is not part of the key. Two templates
  that both compile never get each other's entry (`KeyDetermines`), but a template that would be refused can be served
  another one's entry (`CollisionHidesRefusal`).
- *The table of the preparation cache can exceed 512 entries*, by at most one for each lost publishing race
  (`CacheIsTransparent`, `RacingInsertGrows`); `TableCanOverflow` reaches a table of 513.
- *The second -1 is a sentinel* of the render cache. `RenderHistory`: the outputs of a fresh log are all right if and
  only if its first call does not fall in that second (the instants in (-2 s, -1 s], calendar flag off);
  `FirstRendering` says it for one call. Later calls in that second do no harm.
- *Fractional digits are frozen* at the first call of a second. `HistoryIsExact`: an output is the uncached one byte for
  byte if and only if the shown digits of that call and this one agree. `FractionIsFrozen`: the epoch and half a second
  later, with one digit shown, give the same output twice.
- *Newline escaping is not invertible* (`EscapeCollides`); `UnescapeRoundTrip` says exactly for which payloads it is.
- *Octet counting* gives an empty payload the length 0, which section 3.4.1 of RFC 6587 does not allow:
  `OctetRoundTrip` decodes every list of payloads without an empty one, and no other.
- *A timestamp that contains "}}" or ends in "}"* does not survive its marker (`MarkerRoundTrip`). Taking the added
  markers out of the tokenized text restores the sample if and only if no wrapped timestamp has a "}}" that is followed
  by anything but braces (`UnwrappingRestores`).
- *An unclosed marker swallows the next one* (`BogusSwallows`): behind "{{TIMESTAMP:BOGUS:" a written marker is not found
  again, and a second pass would wrap its timestamp once more. `RescanFindsTheMarkers` says exactly for which samples the
  scan of the tokenized text finds the written and the kept markers and nothing else.
- *The ticket counter wraps* at 2^64; `WrapKeepsOrder` says for which template counts that is harmless.

## Model

| member | source | states |
|---|---|---|
| LifecycleBarrier.NobodySendsEarly | src/application/stress_test_service.cpp:472-505 | In every run, if some worker is about to send, all workers have connected and Running was published, exactly once. |
| LifecycleBarrier.RunningOnce | src/application/stress_test_service.cpp:489-492 | Running is entered at most once in a run, and the state reads Running only after that entry. |
| LifecycleBarrier.AbortedRunNeverSends | src/application/stress_test_service.cpp:680-705 | Once a connect has thrown, or the state has left Connecting for anything but Running, no worker is in the sending part of its loop in any later state of the run. |
| LifecycleBarrier.StepKeepsBarrier | src/application/stress_test_service.cpp:472-505 | Every step of every thread keeps the barrier invariant: the connected counter counts arrivals, and only the last arrival or a reader of Running passes. |
| LifecycleOpening.GateLetsIn | src/application/stress_test_service.cpp:499-505 | A worker that reads the state again after waiting enters its loop exactly if it reads Running, and ends otherwise. |
| LifecycleOpening.BarrierOpens | src/application/stress_test_service.cpp:472-505 | In every weakly fair schedule without exceptions, limits or calls from outside, every worker comes into its sending loop. |
| LifecycleOpening.EverybodySends | src/application/stress_test_service.cpp:472-689 | In every such schedule each worker has batches acknowledged at arbitrarily late moments. |
| LifecycleShape.StepKeepsShape | src/application/stress_test_service.cpp:399-450 | Every step keeps what the supervisor's place says about the workers: which are started, told to stop, joined. |
| LifecycleSync.StepKeepsSync | src/application/stress_test_service.cpp:419-432 | Every step keeps the stop protocol: exactly the thread that turned the token on owes the callback, and a supervisor that sleeps after that has its wake-up still coming. |
| LifecycleCompletion.NoLostWakeUp | src/application/stress_test_service.cpp:419-428 | In every run, if stop is requested and the supervisor sleeps, some thread is on its way into the callback that wakes it. |
| LifecycleProgress.NoStepRaises | src/application/stress_test_service.cpp:399-450 | No step of any thread, except a fresh call from outside, raises the measure of remaining work. |
| LifecycleProgress.HelpfulStepAdvances | src/application/stress_test_service.cpp:308-342 | From every reachable state on the way out with an unfinished thread, a named step is enabled and lowers the measure; it is never a spurious wake-up. |
| LifecycleProgress.HelpfulStays | src/application/stress_test_service.cpp:399-450 | A step that does not lower the measure leaves the helpful step what it was, so a fair scheduler gets to it. |
| LifecycleCompletion.HelpfulThreadAdvances | src/application/stress_test_service.cpp:452-689 | The helpful thread lowers the measure whatever its transport call answers: sent, limit or exception. |
| LifecycleCompletion.FairSchedulesFinish | src/application/stress_test_service.cpp:399-450 | Once stop is requested, or the supervisor failed, every infinite schedule that is weakly fair to each thread (one that can move from some moment on moves again) reaches a moment at which every thread is finished. |
| LifecycleCompletion.StopReturns | src/application/stress_test_service.cpp:308-342 | A call of stop() at any point of a run returns under every such schedule; then workers are joined, the state is Stopped, and the only step left is a further stop() that changes nothing. |
| LifecycleCompletion.ReturnedIsLast | src/application/stress_test_service.cpp:308-342 | Every state of a run after stop() has returned is the state in which it returned, so counters and state stay as they are. |
| LifecycleFailure.FailedStays | src/application/stress_test_service.cpp:297-342 | If the state reads Failed at some moment of a run and no thread is between an older load of it and the store that follows, it reads Failed at every later moment until stop() has taken the supervisor over. |
| LifecycleFailure.FailedIsLastingExactly | src/application/stress_test_service.cpp:297-342 | At the end of a run that reads Failed before stop() has taken over, every continuation shows Failed until then if and only if no thread holds such a stale load. |
| LifecycleFailure.FailedCanBeLost | src/application/stress_test_service.cpp:302-303 | A run in which a refused connection publishes Failed and request_stop then overwrites it with Stopping. |
| LifecycleFailure.LateRequestShowsStopping | src/application/stress_test_service.cpp:297-306 | In every configuration there is a run that reads Stopped when everything has ended, and differs from that only in Stopping after a later request_stop. |
| LifecycleFailure.StoppingStays | src/application/stress_test_service.cpp:297-342 | Once the supervisor has ended under a state that reads Stopping, it reads Stopping at every later moment of the run until a stop() comes to its join. |
| LifecycleFailure.SecondStopIsSafeExactly | src/application/stress_test_service.cpp:308-318 | A stop() that finds the supervisor taken over only stores Stopped; when it returns no worker and no supervisor step is enabled if and only if the supervisor thread has ended. |
| LifecycleFailure.SecondStopCanReturnEarly | src/application/stress_test_service.cpp:308-318 | A run in which a second stop() returns with the state Stopped while a worker is about to send, and the worker sends. |
| LifecycleStats.StatisticsConserved | src/application/stress_test_service.cpp:454-470 | At every moment, for each counter, published totals plus local counters plus batches between send and increment equal what transports acknowledged. |
| LifecycleStats.TotalsExactAfterJoin | src/application/stress_test_service.cpp:666-688 | After the join, on every exit path, the published totals equal what transports acknowledged. |
| LifecycleStats.LittleIsUnpublished | src/application/stress_test_service.cpp:511-513 | At every loop head a worker's unpublished messages are below its threshold; a FILE worker holds nothing back. |
| LifecycleErrors.ErrorsCountExceptions | src/application/stress_test_service.cpp:680-688 | In every run the error counter and the workers on their way to it add up to the exceptions met; a limit or a stop counts none. |
| LifecycleErrors.NoFailureWithoutException | src/application/stress_test_service.cpp:690-705 | Before the first exception nobody is on an error path and the state does not read Failed, whatever limits were met. |
| LifecycleErrors.RefusalEndsTheRun | src/application/stress_test_service.cpp:680-705 | After a limit or an exception a worker never comes back to sending; before it has ended, the state has left Running for good and the stop of the whole run is requested. |
| LifecycleErrors.ExceptionShowsFailed | src/application/stress_test_service.cpp:680-705 | Between a worker's exception and its stop request there is a moment at which the state reads Failed. |
| LifecycleErrors.StoppedWorkerSendsNothing | src/application/stress_test_service.cpp:515-580 | A worker that was told to stop, and is not in a call of its transport, sends nothing any more. |
| LifecycleErrors.EarlyStopStartsNobody | src/application/stress_test_service.cpp:399-418 | If the stop is requested before the supervisor looks for it, no worker is ever started. |
| Limits.WorkerCount | src/application/stress_test_service.cpp:245-251 | The worker count is between 1 and 64, at most the target when there is one, and 1 for FILE. |
| Limits.WorkerCountIsLargest | src/application/stress_test_service.cpp:245-251 | The count is the largest one within its bounds: 1 unless parallel and not FILE, at most 64 and what the runtime suggests, no more than the target. |
| Limits.QuotasShareTarget | src/application/stress_test_service.cpp:164-170 | The workers' quotas sum to the target, differ by at most 1, and are at least 1 when the target is positive. |
| Limits.StreamBatchEvents | src/application/stress_test_service.cpp:172-177 | A paced stream batch is one event or at most a 200th of a second of the quota; never more than 1024. |
| Limits.DatagramBatchEvents | src/application/stress_test_service.cpp:179-185 | A paced datagram batch is one event or at most a millisecond of the quota and at most the transport's preference. |
| Limits.FileBatchEvents | src/application/stress_test_service.cpp:193-201 | With any FILE limit set, a batch is one event. |
| Limits.BatchesAreLargest | src/application/stress_test_service.cpp:172-201 | Each batch size is the largest that its limit and its share of a second of the quota allow. |
| Pacing.DurationExact | src/application/stress_test_service.cpp:30-30 | For every batch the packer can build the product does not wrap, and the duration is the batch's exact time, rounded down to a nanosecond. |
| Pacing.HoldUntil | src/application/stress_test_service.cpp:37-45 | Sleeping in slices and then spinning returns only at or after the due time, unless a stop is seen; no sleep lasts more than 2 ms or reaches the due time, and none begins after a stop. |
| Pacing.RatePacer.Wait | src/application/stress_test_service.cpp:26-46 | Each wait moves the schedule by the d nanoseconds with quota * d <= 10^9 * events < quota * (d + 1), or to the reading if that leaves it more than a second behind, and returns no earlier than that unless stopped; a zero rate or batch changes nothing. |
| Pacing.ScheduleKeepsUp | src/application/stress_test_service.cpp:26-46 | The schedule is not slower than the quota: until a lag of more than a second resets it, quota times its distance from the start is at most 10^9 times the events. |
| Pacing.RateBound | src/application/stress_test_service.cpp:26-46 | After j waits with E events, 10^9 E is at most quota times the time since construction plus j (quota - 1). |
| Pacing.WindowBound | src/application/stress_test_service.cpp:33-36 | Any later window of waits exceeds that bound by at most one second's worth of events, despite catch-up resets. |
| Pacing.ServiceRateBound | src/application/stress_test_service.cpp:412-418 | All workers together send no more than the target allows, up to truncation per wait. |
| TimeRanges.TimestampCursor.Next | src/application/stress_test_service.cpp:90-100 | Worker w's k-th timestamp is start + (w + k W) mod span, within the range, without wrapping 64 bits. |
| TimeRanges.MakeCursor | src/application/stress_test_service.cpp:78-88 | The constructor refuses exactly the ranges that end before they start. |
| TimeRanges.EvenCoverage | src/domain/generator_config.hpp:54-59 | When each of W workers has made K calls, every second of the range was used floor or ceiling of K W / span times, exactly as stated by the remainder. |
| RoundRobin.RoundRobinCursor.Reserve | src/application/round_robin_cursor.hpp:23-28 | Reserving returns the old counter modulo the item count and advances the counter modulo 2^64; one item needs no counter. |
| RoundRobin.WorkerRoundRobinCursor.Next | src/application/stress_test_service.cpp:120-129 | A selection is the next ticket of the worker's block, modulo the item count; a new block is reserved exactly when the old one is spent. |
| RoundRobin.TicketsConserved | src/application/stress_test_service.cpp:114-136 | Under every interleaving and for every property of tickets, used and unspent tickets together are those below the shared counter. |
| RoundRobin.TicketsPartition | src/application/stress_test_service.cpp:114-136 | Each ticket below the counter was used once or lies in exactly one unspent block. |
| RoundRobin.Fairness | src/application/round_robin_cursor.hpp:23-28 | Under every interleaving any two templates' counts differ by at most 1 plus the number of workers holding a partly used block. |
| RoundRobin.SingleReservationsAreGlobalOrder | src/application/stress_test_service.cpp:509-509 | With reservations of one ticket the i-th selection of the whole service uses ticket i. |
| RoundRobin.WrapKeepsOrder | src/application/round_robin_cursor.hpp:27-27 | After the counter wraps at 2^64 the template sequence continues unbroken if and only if the template count divides 2^64. |
| Packer.FillPacket | src/application/stress_test_service.cpp:534-562 | One datagram holds the carried-over payload and fresh ones in order, 1 to 256 events, at most 65,507 bytes, above 60 KiB only a single event. It has no more events only because the next one does not fit, which is then carried over, because it has 256, or because the batch's budget of events is used up; an event too large for UDP ends the worker. |
| Packer.BuildBatch | src/application/stress_test_service.cpp:525-571 | A batch has at least one datagram, at most 600 KiB and at most the event target even with carry-overs, and it is as full as can be: each of its datagrams is closed for one of the three reasons, and the batch for a datagram that does not fit, which is carried over, or for a target reached. Every rendered payload is earlier, in the batch or carried over, in order. |
| Packer.BatchEventsBounded | src/application/stress_test_service.cpp:533-571 | No batch has more than 614,400 events. |
| Packer.PackedWorker.SendBatch | src/application/stress_test_service.cpp:576-591 | After pacing the worker asks for a stop; if there is none it hands the batch over exactly once, and is back at its loop head, the batch counted, exactly if the transport acknowledged it. It ends at a limit or broken exactly if the transport answered so; a stop sends nothing. |
| Packer.PackedWorker.Turn | src/application/stress_test_service.cpp:524-592 | A turn that goes on has sent one batch that is as full as the batch target, the event target and the datagram limits allow, with the worker's own quota; one that found a stop requested has sent nothing. |
| Packer.PackedWorker.Run | src/application/stress_test_service.cpp:524-592 | After any number of rounds the worker is at its loop head with one acknowledged batch for each round, or finished. Its recorded datagrams are exactly the batches that the transport acknowledged, in order; all are in the totals and paced, and every rendered event is sent or carried over. It ends at a limit or broken exactly if the transport's last answer was that, and otherwise only for a requested stop or an event too large for UDP. |
| Packer.HeadStream | src/application/stress_test_service.cpp:515-592 | At every loop head the framed stream of all rendered payloads is the sent datagrams, then the carried-over datagram, then the frame of the carried-over payload. |
| Packer.SentIsStreamPrefix | src/application/stress_test_service.cpp:580-591 | The bytes sent are always a prefix of the framed stream. |
| Counters.WorkerCounters.Flush | src/application/stress_test_service.cpp:457-470 | Flushing moves all that was counted into the totals and loses nothing. |
| Counters.WorkerCounters.Record | src/application/stress_test_service.cpp:586-591 | Counting a batch keeps local plus published exact; it publishes when the local messages reach the threshold, and only then. |
| Counters.ThresholdIsLargest | src/application/stress_test_service.cpp:511-513 | The threshold is the largest number of messages that a tenth of a second of the quota and 16,384 allow. |
| Streaming.BuildStreamBatch | src/application/stress_test_service.cpp:653-661 | A batch is the frames of the next payloads, at least one; it stops at the event limit or at the first frame that reaches the byte limit. |
| StreamWorkers.StreamWorker.Turn | src/application/stress_test_service.cpp:647-677 | A turn that hands a batch over hands over exactly one, with as many events as the event limit of the quota and the byte limit allow. |
| StreamWorkers.StreamWorker.Run | src/application/stress_test_service.cpp:647-677 | On TCP and TLS the bytes that the connection acknowledged are exactly the frames of the acknowledged events, one batch a round; after the loop the connection carries a prefix of the framed stream that contains them all. The worker ends at a limit or broken exactly if the last answer was that, and otherwise only for a requested stop; counters and pacing agree. |
| StreamWorkers.ReceiverDecodes | src/application/stress_test_service.cpp:138-162 | A receiver decodes the acknowledged bytes to the payload list: with octet counting if and only if no payload is empty, with newlines to the escaped payloads. |
| StreamWorkers.BuildPlainBatch | src/application/stress_test_service.cpp:616-627 | A plain UDP batch is the next payloads, one per datagram, with their exact byte count. |
| StreamWorkers.PlainWorker.Turn | src/application/stress_test_service.cpp:593-645 | A turn that hands payloads over hands over the next ones, as many as the batch limit says. |
| StreamWorkers.PlainWorker.Run | src/application/stress_test_service.cpp:593-645 | Plain UDP sends the rendered events one per datagram, in order; the acknowledged datagrams are exactly the first acknowledged events, all counted and paced, for single events and for batches. The worker ends at a limit or broken exactly if the last answer was that, and otherwise only for a requested stop. |
| Framing.Batch.AppendFrame | src/application/stress_test_service.cpp:138-162 | Both branches of newline framing and octet counting append exactly the frame of the payload. |
| Framing.EscapeIsIdentity | src/application/stress_test_service.cpp:147-161 | Escaping leaves no line break, and changes nothing exactly when there was none: the fast path agrees with the loop. |
| Framing.NewlineFrameSize | src/application/stress_test_service.cpp:187-191 | The computed size is the number of bytes appended. |
| Framing.OctetRoundTrip | src/application/stress_test_service.cpp:139-146 | Any concatenation of octet-counted frames decodes to the exact payload list, unless a payload is empty (section 3.4.1 of RFC 6587). |
| Framing.NewlineSplit | src/application/stress_test_service.cpp:147-161 | Cutting newline frames at every LF gives the escaped payloads in order (section 3.4.2 of RFC 6587). |
| Framing.UnescapeRoundTrip | src/application/stress_test_service.cpp:152-160 | An escaped payload reads back if and only if it held no spelled-out break before. |
| Framing.EscapeCollides | src/application/stress_test_service.cpp:152-160 | Two different payloads with the same line. |
| FileNames.FileNameInjective | src/infrastructure/file_transport.cpp:222-236 | Different indices give different file names. |
| FileNames.FileNameShape | src/infrastructure/file_transport.cpp:222-236 | A name is the timestamp, for every file but the first an underscore and its number in decimal with at least four digits, and the extension. |
| FileOutput.CountLogs | src/infrastructure/file_transport.cpp:174-175 | The line count used for the limit is the number of files the payload becomes. |
| FileOutput.FileTransport.CreateNext | src/infrastructure/file_transport.cpp:184-192 | The retry loop ends, takes the first free name at or after the next index, and touches no existing file. |
| FileOutput.FileTransport.Send | src/infrastructure/file_transport.cpp:160-201 | A payload is refused exactly if the time has run out, the bytes or the lines would exceed their limit, in this order; a refusal writes nothing, so nothing is written past the duration. An accepted payload becomes one new file per line in order, with increasing indices beside untouched older files, and the contents of the new files, concatenated, are the payload. |
| FileWorkers.FileWorker.Turn | src/application/stress_test_service.cpp:647-677 | A turn offers the transport as many next events as the FILE batch size and the byte limit allow, and goes on exactly if they were all written. |
| FileWorkers.FileWorker.Run | src/application/stress_test_service.cpp:647-677 | A FILE run writes one file per event in event order, at least one for each full round; every accepted batch is counted into the totals and paced. It ends with a limit only if the transport's answer was that limit, and by the count limit only with exactly that many files; otherwise only for a requested stop. |
| TestCases.CountOccurrences | src/application/log_renderer.cpp:107-115 | The count is the number of cuts at non-overlapping markers. |
| TestCases.SplitTiles | src/application/log_renderer.cpp:107-115 | The pieces between markers, joined with the marker, are the text. |
| TestCases.SplitIsClean | src/application/log_renderer.cpp:107-115 | No piece contains the marker, nor does one arise across a join before its place. |
| TestCases.ReplaceMarkers | src/application/log_renderer.cpp:127-133 | When the count agrees every search succeeds, and the result is the original pieces interleaved with the sanitized values, even if a value contains the marker. |
| TestCases.ExpandTestCase | src/application/log_renderer.cpp:117-136 | Expansion is token after token the interleaving above, or the error of the first token that is malformed or miscounted. |
| SanitizedCases.OneMarkerExpands | src/application/log_renderer.cpp:117-136 | The only marker of a template gives way to the sanitized value, whatever stands around it. |
| SanitizedCases.ExpansionIsSanitized | src/application/log_renderer.cpp:117-136 | A character that the template does not have and that sanitizing keeps out of every value is not in the expanded text, for any number of tokens and values. |
| TestCases.GroupingIsUnique | src/application/log_renderer.cpp:117-136 | Two groupings of the same flat list that both expand are the same grouping. |
| CacheKeys.BuildKey | src/application/log_preparation_cache.cpp:18-29 | The appending loops build the key of the sample and the flat list of tokens and values. |
| CacheKeys.KeyDecodes | src/application/log_preparation_cache.cpp:9-14 | A key determines the list of strings it was built from. |
| PreparationCache.KeysCollide | src/application/log_preparation_cache.cpp:18-29 | Two different groupings with one key. |
| PreparationCache.CollisionHidesRefusal | src/application/log_preparation_cache.cpp:45-49 | A template that is refused by itself can share its key with one that compiles. |
| PreparationCache.Renderer.KeyDetermines | src/application/log_preparation_cache.cpp:18-29 | Templates with equal keys that both compile compile to the same. |
| PreparationCache.Renderer.HitIsRight | src/application/log_preparation_cache.cpp:45-56 | A template that compiles compiles to whatever entry stands rightly under its key, although the entry may come from another template and by way of refused ones. |
| PreparationCache.Renderer.AliasIsRight | src/application/log_preparation_cache.cpp:53-56 | What is right under the tokenized key is right under the original one, even for a template that is refused by itself. |
| PreparationCache.LogPreparationCache.InsertAlias | src/application/log_preparation_cache.cpp:37-43 | Inserting replaces, or evicts one entry of a full table first; the table keeps at most 512 entries. |
| PreparationCache.LogPreparationCache.GetOrCompile | src/application/log_preparation_cache.cpp:45-84 | One caller at a time, for every regular item, refused ones included: the table stays right, the answer is direct compilation for every item that compiles, a refusal needs both keys absent, and the compilation counter counts exactly the misses that compile. With the answer the table has gained nothing but the two keys of the item, the original one with this answer, and lost at most two old entries; with room for two it has lost none, and a newly found item stands under both keys. |
| PreparationCache.LogPreparationCache.GetTwice | src/application/log_preparation_cache.cpp:45-84 | A new template compiles once: asking again for it or for its tokenized form gives the same answer without compiling. |
| PreparationCache.PublishedUnderBoth | src/application/log_preparation_cache.cpp:63-81 | In the critical section of concurrent callers, the published entry stands under the original key, and under the tokenized one unless the second insertion evicted it. |
| PreparationCache.StepKeepsGood | src/application/log_preparation_cache.cpp:45-95 | Every atomic section of every interleaved caller, with any regular items, keeps all entries and all answers in progress right. |
| PreparationCache.CacheIsTransparent | src/application/log_preparation_cache.cpp:45-95 | Under every interleaving of regular items, a call for an item that compiles returns what direct compilation returns, a call that throws was for an item that does not compile, and entries exceed 512 at most by the lost races. |
| PreparationCache.RacingInsertGrows | src/application/log_preparation_cache.cpp:67-70 | The loser of a publishing race enlarges a full table exactly when its original key is new. |
| CacheExamples.TableCanOverflow | src/application/log_preparation_cache.cpp:67-70 | A reachable state whose table has 513 entries. |
| CacheExamples.NamesMatter | src/application/log_preparation_cache.cpp:45-56 | A tokenizer under which every string settles but one name becomes another: a refused template shares its tokenized key with one template and its own key with another, although these two compile to different results. |
| CacheExamples.SettlingMatters | src/application/log_preparation_cache.cpp:45-61 | A sample that does not settle: the cache compiles the tokenized template, which gives something else than compiling the template. |
| BrandNames.ReplaceIgnoringCase | src/application/privacy_anonymizer.cpp:104-120 | The in-place loop replaces the occurrences from left to right, whatever their case, and searches no replacement again. |
| BrandNames.NoBrandRemains | src/application/privacy_anonymizer.cpp:273-279 | Whatever the text, after the five replacements none of the names is left in it in any case, not even across the seam of a replacement. |
| BrandNames.NamesAreKept | src/application/privacy_anonymizer.cpp:273-279 | The five replacements turn no token name into another one: they leave it alone or put a character in that no name has. |
| BrandNames.NamesAreRewritten | src/application/privacy_anonymizer.cpp:273-279 | "MART" is a valid name, becomes "company", and still meets the condition. |
| Segments.StyleRoundTrip | src/application/log_renderer.cpp:225-260 | The key of a style reads back as the style. |
| StoredMarkers.KnownKeys | src/application/log_renderer.cpp:225-260 | A key that reads as a style is that style's own key. |
| StoredMarkers.StoredInstantReads | src/application/log_renderer.cpp:262-282 | A stored ISO 8601 marker reads as that style and its instant, wherever it stands in a template. |
| Segments.MarkerRoundTrip | src/application/log_renderer.cpp:262-282 | A written marker reads back as the same style and value, wherever it stands, if and only if the value does not close it early. |
| Segments.MarkerCandidates | src/application/log_renderer.cpp:263-282 | The marker scan ends and yields the markers of the text: disjoint, in bounds, each read back as its style and value; every readable marker is among them unless it starts inside something skipped. |
| Segments.SweepIsMaximal | src/application/log_renderer.cpp:361-372 | Kept spans are disjoint and ordered, and every dropped candidate overlaps a kept one that starts no later. |
| Segments.CompileSegments | src/application/log_renderer.cpp:361-379 | The segments are those of the recursive cut; they tile the input, their spans are the kept candidates, and no literal is empty or doubled unless the input is empty. |
| Compiling.RenderingReplacesSpans | src/application/log_renderer.cpp:361-379 | Rendering a compiled sample without caches gives the sample with every kept span replaced: by the bound source or destination address, by the synthetic value of the profile, by the time of the instant with its fraction cut to the shown digits, whichever the span is. |
| Segments.TokenizeTimestamps | src/application/log_renderer.cpp:306-330 | The output is the input with every kept span replaced by its marker text. |
| Unwrapping.UnwrappingRestores | src/application/log_renderer.cpp:306-330 | Walking the output and replacing each added marker by the value that the scan reads there gives the input back, if and only if no wrapped timestamp has a "}}" followed by anything but braces. |
| Rescanning.RescanFindsTheMarkers | src/application/log_renderer.cpp:263-282 | Scanning the output finds exactly one marker per kept span, in its place and with its style and value, if and only if no plain timestamp closes its marker early, the prefixes between kept spans start only markers of unknown style that close before the next span, and nothing behind the last span is readable. |
| Rescanning.BogusSwallows | src/application/log_renderer.cpp:263-282 | Behind an unclosed prefix with an unknown style, a written marker is not found. |
| Retokenizing.TokenizeSample | src/application/log_renderer.cpp:262-330 | For any pattern matches that do not start like a marker, and however the sort breaks ties: the output is the sample with the kept spans wrapped, every kept span is a match or a marker read there, and scanning the output finds exactly their markers if and only if the sample is rescannable. |
| Retokenizing.TokenizingTwice | src/application/log_renderer.cpp:306-330 | On such a sample, if the patterns match nothing in the output but what starts inside a marker, tokenizing the output leaves it as it is. |
| Segments.WrittenTimestampsReadBack | src/application/log_renderer.cpp:306-330 | In the output, the marker written for a plain timestamp reads back as its style and exactly the original text, if and only if that text does not close a marker. |
| ProfileDraw.NextState | src/application/log_renderer.cpp:652-657 | The generator's state never becomes zero. |
| ProfileDraws.FirstProfiles | src/application/log_renderer.cpp:641-657 | The first log of a process draws the profiles 48, 25, 43, 20 and 46: seeding, shifts and the reduction to an index, with their constants. |
| Rendering.MakeCompiledLog | src/application/log_renderer.cpp:530-554 | Capacity, flags and the decision to cache profiles are those of the segments. |
| Rendering.PreparedLog.Render | src/application/log_renderer.cpp:659-709 | Each call gives the uncached rendering, with the drawn profile, at the instant whose timestamps were last made if that is of this second and flag and at its own otherwise, or a cached output of this profile made in this second; the caches stay sound. In the sentinel case the timestamps are missing, and the caches stand at second -1 with blank timestamps. |
| Rendering.OneSegmentShows | src/application/log_renderer.cpp:622-639 | Uncached, a log of one segment shows the literal text, the source address, the destination address, the synthetic value of its kind and profile, or the instant with its fraction cut to the shown digits. |
| Rendering.RenderOne | src/application/log_renderer.cpp:622-639 | The first rendering of a log whose one segment is not a timestamp shows that segment, with the profile of the first draw. |
| Rendering.RenderHistory | src/application/log_renderer.cpp:659-709 | For every history of calls on a fresh log, with a draw of its own for each: all outputs are the uncached rendering at an earlier or equal call of the same second and flag, if and only if the first call is not taken for the sentinel; and under a clock that never goes back, or without profile outputs, that call is the first of its run in this second. |
| Rendering.HistoryIsExact | src/application/log_renderer.cpp:421-433 | Such an output is byte for byte the uncached one if and only if every fractional digit shown agrees between the start of the run and the call itself. |
| Rendering.PlainEqualExactly | src/application/log_renderer.cpp:421-433 | Two instants of one second render alike if and only if the shown fractional digits agree in every timestamp. |
| Rendering.HistoryIsExactWhen | src/application/log_renderer.cpp:659-709 | In any history, an output is the uncached one when no earlier call of its second and flag differs in a shown digit. |
| Rendering.ClockIsContiguous | src/application/log_renderer.cpp:659-666 | Under a clock that never goes back the calls of one second follow one another. |
| Rendering.FractionIsFrozen | src/application/log_renderer.cpp:665-667 | A log that shows a fractional digit, rendered at the epoch and half a second later, gives out the epoch twice. |
| Rendering.FirstRendering | src/application/log_renderer.cpp:588-593 | The first rendering of a log with timestamps, with or without privacy tokens, is right if and only if its instant is not in (-2 s, -1 s] with the calendar flag off. |
| CsvReader.ParseCsv | src/infrastructure/csv_sample_log_source.cpp:27-113 | The loop with its six variables computes the automaton that the round trip is proved about. |
| CsvReader.CsvRoundTrip | src/infrastructure/csv_sample_log_source.cpp:27-113 | Every table written under section 2 of RFC 4180 parses back with CRLF and lone CR in fields as LF, with or without a final break, and is refused exactly for a NUL. |
| CsvAccepted.AcceptedExactly | src/infrastructure/csv_sample_log_source.cpp:27-113 | An input is accepted with given rows if and only if it is lines of readable cells with those values, each line with a break of any kind, the last break optional, and any number of blank lines. |
| CsvReader.LoadSamples | src/infrastructure/csv_sample_log_source.cpp:143-171 | The row checks, the heading rule and each error depend on the parse as the specification says. |
| CsvReader.LoadedOnce | src/infrastructure/csv_sample_log_source.cpp:149-171 | The parse fixes the result of loading. |
| CsvReader.LoadRoundTrip | src/infrastructure/csv_sample_log_source.cpp:149-171 | A written file with one non-empty sample per line loads as those samples, without a leading heading line. |
| CsvHeadings.HeadingExactly | src/infrastructure/csv_sample_log_source.cpp:115-127 | A field is a heading if and only if it is "sample", "sample_log" in any case, or the Korean heading in one word or two, between any blanks. |
| CsvHeadings.FileLoads | src/infrastructure/csv_sample_log_source.cpp:143-171 | A file of one-column lines, with or without a byte order mark, loads as exactly the samples in order, the first left out if and only if it is a heading. |
| AsyncLogger.LoggerConserves | src/infrastructure/async_file_logger.cpp:76-99 | At every moment of every interleaving, written entries are the first kept ones in order of the calls, the queue is within capacity, a call loses its entry only when it found the queue full, and the dropped total counts the lost calls. |
| AsyncLogger.NothingLostAtShutdown | src/infrastructure/async_file_logger.cpp:65-74 | When the destructor is through, the file holds the entries of all calls that kept theirs, in order, and the notices sum to the number of the others. |
| AsyncLogger.EveryCallIsSettled | src/infrastructure/async_file_logger.cpp:76-99 | In every run, the entries recorded as kept or lost are, one for one and in order, those that callers brought to a decision while the logger accepted. |
| AsyncLogger.EveryStepLowers | src/infrastructure/async_file_logger.cpp:109-148 | After the stop request every step of every thread lowers the remaining work, except calls that find the logger closed. |
| AsyncLogger.ShutdownProgress | src/infrastructure/async_file_logger.cpp:65-74 | Until the destructor has finished, some enabled step lowers the remaining work. |

## Left out

- GUI, packaging, CLI, JSON files, runtime paths: interface and file handling without an algorithm of their own.
- Sockets, TLS and `UdpTransport`: a transport is an object whose answers are arbitrary; on anything but success a part of the batch may have gone out.
- `std::regex` patterns, the anonymizer's field lists and synthetic profiles: candidates, sanitizer and tokenizer are parameters. That strings settle under the patterns is a hypothesis, not a result.
- Local-time conversion and `snprintf`: a timestamp's text is a function of token, truncated second, fraction and calendar flag; a negative remainder is folded as the code does.
- `snapshot()`, EPS metering, sleep granularity, thread priorities, log messages of the engine.
- The per-batch wall-clock timestamps of the sending loops and `CachedSystemClock`: the loops take the sequence of rendered payloads as given. The sequence may differ from run to run; what is proved holds for each.
- Ordering by `std::ranges::sort` is a precondition of the sweep (by position); ties by length and priority change which candidate is kept, not what is proved.
- I/O failures of the file transport (anything but a name collision) and of the logger; allocation failures.
- Wrap-around of the 64-bit statistics counters and file indices.
- RoundRobin.WorkerRoundRobinCursor.Next: requires ticket numbers below 2^64; what happens beyond is WrapKeepsOrder.
- Which entry an eviction of the preparation cache removes is left open, as it is up to the hash table.
- `PreparedLog` assignment from another log; it is construction again. The four per-profile arrays are one array of records, since the model reads and writes them together.
- The lifecycle machine steps through one run: `start` on a running service first calls `stop`, which ends the run. Callers of `request_stop` and of the first `stop()` are serialised by the lifecycle mutex and appear as one caller making calls in turn; a `stop()` that finds the supervisor taken over is a step of its own.
- Fairness in FairSchedulesFinish: a thread's move counts as such only if it is not a fresh call from outside; a caller that makes `request_stop` calls forever is excluded, a running `stop()` makes none.
- Rendering.HistoryIsExact: requires that both instants also round down to the same second, which AlikeSinceEpoch shows from the epoch on; before it, UTC and local conversion round differently, and which second a text shows is up to them.
- The packed loop's `pending_*` variables are one value, `Carry`.
- `LogRenderer::analyze`, which counts a template's tokens and lists its timestamp styles, and the switches that turn an enumerator into its name: one pass without branching state, read off their bodies.
