# PulsePort: verified models of its computing cores

PulsePort is a telemetry service. Collectors push samples into an in-memory registry; samples become
one-minute rows, fifteen-minute rows and a daily energy row in SQLite; thresholds raise alerts; a
browser receives live values over a WebSocket. This project models the parts between the operating
system and the user interface and proves what they keep over whole runs. `double` is `real`, the clock
is a parameter, and code that updates fields or buffers in place is a class or an array method whose
contract ties it to a function of the whole history; the theorems are about those functions.

| files | part of the system |
|---|---|
| `Bytes`, `Sha1`, `Base64`, `WebSocket`, `Handshake` | the handshake key (FIPS 180-4, RFC 4648), text frames (RFC 6455) and its worked handshake |
| `RingBuffer`, `MetricRegistry` | the ring with wrapping 64-bit positions, and the registry over it |
| `PowerPipeline` | the rolling power window and the energy counter |
| `AlertEvaluator` | sustained counting and cooldown |
| `Sampler` | the tick loop with 32-bit counters |
| `MigrationNames`, `MigrationSplit`, `MigrationRunner` | file names, UP/DOWN splitting and transactional application |
| `Types`, `Rollup`, `MinuteRuns`, `History`, `EndToEnd`, `DailyEnergy`, `Storage`, `Aggregator` | samples to rows, at three levels |

The specifications are independent of the loops. The SHA-1 digest uses the standard's Ch, Parity and Maj
and pads with the least solution of its congruence; padding is compared with the standard bit by bit, and
the whole key computation with the handshake of section 1.3 of RFC 6455, step by step over two blocks.
Decoders are written from the RFCs. The ring is compared with an unbounded queue, the rolling window
with the whole update history, the alert counter with a condition on the checks themselves, the stored
tables with a group-by of all samples, and interrupted migrations with an uninterrupted run.
Thresholds, units, texts and limits are stated in the theorems as the numbers and strings they are.

Several promises hold only under a condition. In each case the code is kept as it is and the condition
is proved to be exact, or a concrete input is given for which the promise fails:

- The bucket functions floor a timestamp exactly if it is non-negative or already aligned, because C++
  `%` truncates.
- The one-minute table is the group-by of all samples exactly if no sample comes after its minute was
  flushed for its key and minute 0, which doubles as "no bucket yet", is flushed before it is left.
  `include/pulseport/aggregator.h:24` asks for a call to `flush_1m` every 60 seconds; a call that falls inside a
  minute loses the first part of that minute, since the second row replaces the first. So does a restart
  of the service: the table stays complete exactly if the runs before and after it share no minute of any key.
- A fifteen-minute row also contains the minute that starts at its end, because the history query is
  closed at both ends (`src/storage/reader.cpp:24`). It is the half-open window exactly if that minute has no row.
  Likewise the minute at midnight is counted in two days.
- The ring is a queue exactly on the runs that never pop while overrun (for distinguishable items). Reads
  return items oldest first, as `include/pulseport/ring_buffer.h:46-47` says; the ring's unit tests
  expect the opposite order.
- A collector is periodic exactly up to an interval of 4294967000 ms.
- Splitting undoes printing exactly if neither the header nor the UP text contains `-- DOWN` and the
  header has no earlier UP line.
- Frames can be decoded exactly if the payload is shorter than 2^63 octets, and the SHA-1 length field is
  exact below 2^61 octets.
- The cooldown is skipped after an alert whose clock reading was not positive.
- The next migration run takes up where the last one stopped exactly if that one committed nothing, or
  `schema_version` has a row and the next file has another version. A failed INSERT of the first row, which is
  not noticed, a script that empties the table and two files with one version are the inputs that break it.
  After a failed COMMIT that keeps its transaction open, calls on the same connection commit nothing more and
  can still return 0. `docs/development.md` speaks of filename order; the code orders by number.

`apps/pulseport-service/main.cpp` never calls `accumulate` or `flush_15m`; the aggregator is modelled by its own contract.

## Model

| member | source | states |
|---|---|---|
| Sha1Routine.Sha1 | src/server/http_server.cpp:50-92 | for a message of any length the output buffer holds the digest of sections 5.1.1, 5.3.1 and 6.1.2 of FIPS 180-4; the worked handshake below fixes which digest that is |
| Sha1Routine.ProcessBlock | src/server/http_server.cpp:73-83 | the five working variables after eighty steps, added to the old hash words, are the compression of the block, whose steps the worked handshake fixes word by word |
| Sha1Routine.FillSchedule | src/server/http_server.cpp:66-71 | the eighty-word array holds the message schedule of the block at the offset |
| Sha1Routine.RoundFunction | src/server/http_server.cpp:75-79 | each branch gives the standard's logical function and constant of its step |
| Sha1Routine.ChooseAgrees | src/server/http_server.cpp:76 | the OR form of the source equals the XOR form of Ch |
| Sha1Routine.MajorityAgrees | src/server/http_server.cpp:78 | the OR form of the source equals the XOR form of Maj |
| Sha1Routine.RotateAgrees | src/server/http_server.cpp:63 | the two-shift rotation is a circular left rotation for both amounts used in a step |
| Sha1Routine.NextWordAgrees | src/server/http_server.cpp:70-71 | the rotated XOR of four earlier words is the schedule word of the standard |
| Sha1Routine.PaddedPrefixLength | src/server/http_server.cpp:54-55 | the search loop ends, at the least admissible length |
| Sha1Routine.PadBuffer | src/server/http_server.cpp:54-61 | the buffer is the padded message |
| Sha1Routine.WriteBitCount | src/server/http_server.cpp:59-61 | the eight octets at the end are the big-endian bit count reduced modulo 2^64, and nothing else changes |
| Sha1Routine.LoadWord | src/server/http_server.cpp:68-69 | shifting and OR-ing four octets gives their big-endian word |
| Sha1Routine.WriteDigest | src/server/http_server.cpp:85-91 | the twenty octets are the five words in big-endian order |
| Sha1Spec.PadFollowsStandard | src/server/http_server.cpp:54-61 | seen as bits, padding appends a one, the least number of zeros that reaches 448 modulo 512, and the 64-bit length |
| Sha1Spec.PaddedLength | src/server/http_server.cpp:54-56 | the padded length is a multiple of 64 and less than one block longer than necessary |
| Sha1Spec.ZeroOctetsLeast | src/server/http_server.cpp:55 | no smaller number of zero octets satisfies the congruence |
| Sha1Spec.LengthFieldExact | src/server/http_server.cpp:59-61 | the length field is the bit length modulo 2^64, and the bit length itself if and only if the message is shorter than 2^61 octets |
| Sha1Spec.UnpadPad | src/server/http_server.cpp:54-61 | the message can be recovered from its padded form |
| Base64Routine.Base64Encode | src/server/http_server.cpp:34-47 | the loop produces the encoding that is inverted, characterised and measured by the three laws below |
| Base64Laws.AlphabetValue | src/server/http_server.cpp:31-32 | the alphabet character at each index has that index as its RFC 4648 value |
| Base64Laws.DecodeEncode | src/server/http_server.cpp:34-47 | a strict section 4 decoder recovers every byte string |
| Base64Laws.DecodeExactlyEncodings | src/server/http_server.cpp:34-47 | a text decodes to some bytes if and only if it is the encoding of these bytes |
| Base64Laws.EncodedShape | src/server/http_server.cpp:34-47 | the length is 4 * ceil(n / 3), and `=` stands in the last zero, one or two places and nowhere else |
| Base64Laws.TestVectors | src/server/http_server.cpp:34-47 | `f`, `fo` and `foo` give `Zg==`, `Zm8=` and `Zm9v`, as in section 10 of RFC 4648 |
| WebSocketRoutine.WsAcceptKey | src/server/http_server.cpp:94-99 | the key decodes to the digest of client key plus GUID, and is always 28 characters with exactly one `=`, at the end |
| SlidingSha1.RunIsRounds | src/server/http_server.cpp:66-82 | keeping only sixteen schedule words, any number of steps gives the working variables and words of the full schedule; the worked example runs in this form |
| HandshakeExample.SampleDigest | src/server/http_server.cpp:50-92 | the digest of the sample key followed by the GUID is the twenty octets that section 1.3 of RFC 6455 prints |
| HandshakeExample.SampleHandshake | src/server/http_server.cpp:94-99 | the key that the server answers to `dGhlIHNhbXBsZSBub25jZQ==` is `s3pPLMBiTxaQ9kYGzzhZRbK+xOo=` and no other |
| WebSocketRoutine.BuildFrame | src/server/http_server.cpp:103-118 | the frame is the FIN/text octet, the length field and the payload; the frame laws below say what a decoder makes of it |
| WebSocketRoutine.PushLength64 | src/server/http_server.cpp:114-117 | the loop appends the 64-bit big-endian length |
| FrameLaws.FirstOctet | src/server/http_server.cpp:105 | bit by bit the first octet has FIN set, the reserved bits clear and opcode 1 |
| FrameLaws.FrameShape | src/server/http_server.cpp:106-118 | up to 125 octets the length follows as one unmasked octet, up to 65535 as 126 and two octets, beyond as 127 and eight, most significant first, and then comes the payload |
| FrameLaws.HeaderOfFrame | src/server/http_server.cpp:106-117 | a section 5.2 decoder reads back the payload length and the header size, for all three forms, whatever follows |
| FrameLaws.HeaderIsCanonical | src/server/http_server.cpp:107-117 | every header that the decoder accepts, which insists on the shortest form, is the one the source writes for that length |
| FrameLaws.FrameParses | src/server/http_server.cpp:103-118 | parsing a frame followed by anything gives the payload and leaves exactly the rest |
| FrameLaws.StreamDecodes | src/server/http_server.cpp:103-118 | a concatenation of frames decodes to the list of messages and every octet is consumed |
| FrameLaws.StreamsDecodeUniquely | src/server/http_server.cpp:103-118 | an octet string decodes to a list of messages if and only if it is the concatenation of their frames and all are shorter than 2^63 octets |
| Masks.PowerOfTwoTest | include/pulseport/ring_buffer.h:15 | the compile-time test holds of a positive capacity if and only if it is a power of two |
| Masks.MaskIsModulo | include/pulseport/ring_buffer.h:77 | masking with a power of two less one is the remainder |
| Masks.WrappedSlot | include/pulseport/ring_buffer.h:23 | a position that has wrapped at 2^64 still selects the slot of the unbounded position |
| Rings.RingBuffer.constructor | include/pulseport/ring_buffer.h:13-18 | a new ring is empty, for every capacity that the compile-time test admits, 0 included |
| Rings.RingBuffer.Push | include/pulseport/ring_buffer.h:21-25 | the history grows by the item and the ring invariant survives wrap-around |
| Rings.RingBuffer.Pop | include/pulseport/ring_buffer.h:28-35 | nothing exactly when the positions agree modulo 2^64; otherwise the newest item that shares the slot of the next unread one, which is that item itself exactly if the ring is not overrun |
| Rings.RingBuffer.Size | include/pulseport/ring_buffer.h:38-42 | the unread count modulo 2^64 |
| Rings.RingBuffer.PeekLast | include/pulseport/ring_buffer.h:48-59 | the output array starts with the last min(count, unread, capacity) items, oldest first, and is unchanged behind them; nothing is consumed |
| Rings.RingBuffer.Latest | include/pulseport/ring_buffer.h:61-65 | the item pushed last, unless the write position is 0 |
| Rings.RingBuffer.Recent | include/pulseport/ring_buffer.h:67-72 | the same items as a list of their own |
| RingFifo.FifoWithoutOverrun | include/pulseport/ring_buffer.h:21-35 | over any run that never pops an overrun ring, every pop answers as an unbounded queue, and the received items are a prefix of the pushed ones |
| RingFifo.FifoExactlyWithoutOverrun | include/pulseport/ring_buffer.h:20-35 | with distinguishable items the ring answers as a queue if and only if it is never popped while overrun |
| RingFifo.OverrunIsWrong | include/pulseport/ring_buffer.h:27-35 | an overrun ring never answers with the oldest unread item |
| Types.QualityRoundTrip | include/pulseport/types.h:38-53 | a quality survives being stored as text |
| Types.QualityOfText | include/pulseport/types.h:48-53 | exactly the three texts for known qualities are read as these, and any other text as Unknown |
| Registry.LiveCapacityIsPowerOfTwo | include/pulseport/metric_registry.h:13-14 | 2048 passes the ring's capacity test |
| Registry.MetricRegistry.RegisterMetric | src/core/metric_registry.cpp:6-17 | a new key starts without samples; a known key, its metadata and its samples stay as they are |
| Registry.MetricRegistry.PushSample | src/core/metric_registry.cpp:19-26 | the sample joins the history of its own key; unknown keys are ignored and other keys untouched |
| Registry.MetricRegistry.Latest | src/core/metric_registry.cpp:28-34 | the newest sample of the key, unless the key is unknown, has no sample, or that sample has timestamp 0 |
| Registry.MetricRegistry.AllMetrics | src/core/metric_registry.cpp:36-44 | every registered key's metadata exactly once, in some order |
| Registry.MetricRegistry.Snapshot | src/core/metric_registry.cpp:46-56 | the newest sample of every key that has one, exactly once, in some order |
| Registry.MetricRegistry.Recent | src/core/metric_registry.cpp:58-67 | the last samples of the key that are still stored, oldest first; an unknown key gives none |
| Registry.RecentIsSuffix | src/core/metric_registry.cpp:58-67 | below 2^64 pushes these are the last min(count, pushes, 2048), and the very last is the newest sample |
| RegistrySpec.RunKeepsEverySample | src/core/metric_registry.cpp:6-26 | after any run a key is known exactly if it was registered, has the metadata of its first registration and every sample pushed for it since |
| Pipeline.PowerPipeline.Update | src/metrics/power_pipeline.cpp:7-27 | the circular window keeps representing the last 900 updates and the counter keeps being the energy of the run |
| Pipeline.PowerPipeline.AddEnergy | src/metrics/power_pipeline.cpp:11-20 | the counter grows by the increment of the energy model, which `UpdateAdds` and `ConstantDrawIsExact` fix in watts and seconds, and by nothing outside a gap of one to ten seconds |
| Pipeline.PowerPipeline.NthNewest | src/metrics/power_pipeline.cpp:38 | the index arithmetic finds the i-th newest update |
| Pipeline.PowerPipeline.AvgWatts | src/metrics/power_pipeline.cpp:29-45 | the mean of the longest in-window suffix of the last 900 updates of the unbounded history, 0 if it is empty |
| Pipeline.PowerPipeline.ResetDaily | src/metrics/power_pipeline.cpp:47-49 | only the energy counter is reset |
| PowerSpec.AveragedSuffix | src/metrics/power_pipeline.cpp:37-42 | without any assumption on timestamps, the averaged samples are the newest 900 of the in-window suffix of the whole history |
| PowerSpec.AveragedIsWindow | src/metrics/power_pipeline.cpp:32-42 | for non-decreasing timestamps the average covers all in-window updates ever made if and only if there are at most 900, and otherwise the newest 900 of them |
| PowerSpec.AverageOverWholeHistory | src/metrics/power_pipeline.cpp:29-45 | for strictly increasing timestamps and a window of 0 to 899 seconds the result is the mean over the whole history |
| PowerSpec.EnergyConserved | src/metrics/power_pipeline.cpp:11-49 | wherever resets are placed, the readings before them plus the final reading are the energy of the same updates without resets |
| PowerSpec.EnergyBounded | src/metrics/power_pipeline.cpp:11-21 | non-decreasing times and watts in [0, P] give at most P times the elapsed time |
| PowerSpec.UpdateAdds | src/metrics/power_pipeline.cpp:11-21 | after any run an update adds a 3600th of watts times seconds if the last timestamp is positive and one to ten seconds back, and otherwise nothing |
| PowerSpec.ConstantDrawIsExact | src/metrics/power_pipeline.cpp:11-21 | for positive timestamps with all gaps from 1 to 10 seconds a constant draw gives exactly its power times the elapsed time over 3600 |
| AlertSpec.ExactFiring | src/metrics/alert_evaluator.cpp:21-42 | with settings that may change from check to check, a check alerts if and only if enough checks in a row up to it were violations with no alert in between and the cooldown now set has passed since the latest alert, or that alert had no positive clock reading |
| AlertSpec.AlertsNeedViolations | src/metrics/alert_evaluator.cpp:24-42 | alerts times any lower bound of the sustained settings never exceed the violating checks |
| AlertSpec.AlertsAreSpaced | src/metrics/alert_evaluator.cpp:33-42 | for arbitrary clock readings, successive alerts of a run are at least any lower bound of the cooldown settings apart unless the earlier reading was not positive |
| AlertSpec.AlertsSpan | src/metrics/alert_evaluator.cpp:33-42 | in a run whose clock readings are positive, even ones that go backwards, n alerts span at least n - 1 cooldowns |
| AlertSpec.NonPositiveClockSkipsCooldown | src/metrics/alert_evaluator.cpp:35 | a concrete run in which a clock reading of 0 lets the next check alert within the cooldown |
| AlertSpec.FirstAlert | src/metrics/alert_evaluator.cpp:21-42 | without an alert before, n violations in a row with a setting of n alert at the last one and not earlier |
| AlertSpec.SingleViolation | src/metrics/alert_evaluator.cpp:30 | a setting of 1 or less alerts at a single violation, a greater one does not |
| AlertSpec.CountRestarts | src/metrics/alert_evaluator.cpp:24-30 | after a check that is not violated, fewer checks than the setting asks for never alert, whatever came before |
| AlertSpec.CooldownBoundary | src/metrics/alert_evaluator.cpp:33-37 | after an alert at a positive time t the next violation, at t', alerts exactly if t' - t is at least the cooldown |
| EvaluatorSpec.MetricsAreIndependent | src/metrics/alert_evaluator.cpp:47-80 | over any run, whatever thresholds are set in between, the state and the alert events of a metric are those of its own checks alone |
| EvaluatorSpec.CpuCheck | src/metrics/alert_evaluator.cpp:51-57 | one more observation in any run makes a CPU check exactly if it is of `cpu.total_pct`: violated from cpu_high_pct upwards, sustained for cpu_sustained_min, with 60 times cooldown_minutes seconds of cooldown |
| EvaluatorSpec.MemoryCheck | src/metrics/alert_evaluator.cpp:58-64 | likewise for `mem.used_pct` with mem_high_pct and mem_sustained_min |
| EvaluatorSpec.BatteryCheck | src/metrics/alert_evaluator.cpp:65-71 | for `battery.level_pct` the check is violated from battery_low_pct downwards, and a single violation is enough |
| EvaluatorSpec.PowerCheck | src/metrics/alert_evaluator.cpp:72-78 | for `power.current_w` the check is violated from power_high_w upwards, sustained for cpu_sustained_min; a sample of unknown quality makes no check |
| EvaluatorSpec.NextEvent | src/metrics/alert_evaluator.cpp:50-78 | after any run an observation of a monitored metric adds one `warn` event of its category at its clock reading exactly if the last of the metric's checks alerts; other keys, and power of unknown quality, change nothing |
| EvaluatorSpec.ProcessConcat | src/metrics/alert_evaluator.cpp:47-80 | successive evaluations are one evaluation of the concatenated observations |
| Evaluator.AlertEvaluator.SetThresholds | src/metrics/alert_evaluator.cpp:10-12 | thresholds change, counters and alert times do not |
| Evaluator.AlertEvaluator.CheckThreshold | src/metrics/alert_evaluator.cpp:14-45 | state and events become those of one step of the alert machine for this key, and no other key's; `CpuCheck` to `PowerCheck` fix the direction of the comparison and `NextEvent` the event |
| Evaluator.AlertEvaluator.EvaluateSample | src/metrics/alert_evaluator.cpp:51-78 | one observation is processed under the thresholds now set; `CpuCheck` to `PowerCheck` say which threshold and setting each metric gets, and `NextEvent` what is reported |
| Evaluator.AlertEvaluator.Evaluate | src/metrics/alert_evaluator.cpp:47-80 | one call processes a snapshot of the registry, each sample with the clock reading taken then and the thresholds now set |
| SchedulerSpec.ElapsedCountsTicks | src/core/sampler.cpp:110-115 | up to 4294967000 ms the 32-bit counter never wraps and is a thousand times the ticks since the last run |
| SchedulerSpec.Period | src/core/sampler.cpp:113-115 | the interval in seconds, rounded up, and 1 for an interval of 0 |
| SchedulerSpec.RunsAtMultiplesExactly | src/core/sampler.cpp:110-115 | a collector runs at the multiples of its rounded-up period and at no other tick, for ever, if and only if its interval is at most 4294967000 ms |
| SchedulerSpec.RunsAtInOrder | src/core/sampler.cpp:112-115 | within a tick exactly the due collectors run, in registration order |
| SchedulerSpec.CollectorSchedule | src/core/sampler.cpp:110-122 | over n ticks a collector runs at p, 2p, ... up to n, so n / p times, whatever else is registered |
| SchedulerSpec.LogIsFailedRuns | src/core/sampler.cpp:112-128 | over whole runs the schedule does not depend on what throws, and the logged collector failures are exactly the runs that threw, in order |
| SchedulerSpec.OnlyFailure | src/core/sampler.cpp:116-120 | a run is logged, under the name of its collector, exactly if it throws |
| SchedulerSpec.FailuresOfConcat | src/core/sampler.cpp:112-122 | the failures of a list of runs are those of its runs one after the other |
| Sampling.Sampler.AddCollector | src/core/sampler.cpp:20-22 | the collector goes last, with a zero counter |
| Sampling.Sampler.SetPostTickCallback | include/pulseport/sampler.h:31 | only the callback is set |
| Sampling.Sampler.RunCollectors | src/core/sampler.cpp:112-122 | every counter advances, exactly the due collectors run, in registration order, and those that throw are logged |
| Sampling.Sampler.Tick | src/core/sampler.cpp:112-128 | one tick of the schedule, then the post-tick callback if one is set; what throws is logged and changes nothing else |
| Sampling.Sampler.Run | src/core/sampler.cpp:110-129 | n rounds of the loop are n ticks, with the log of n ticks and one callback at each |
| SectionSplitter.NoStraddle | src/storage/migration_runner.cpp:112-113 | an occurrence of a marker without borders that starts before the printed marker lies wholly before it |
| SectionSplitter.MarkersHaveNoBorder | src/storage/migration_runner.cpp:112-113 | neither marker has a proper prefix that is also its suffix |
| SectionSplitter.SplitUndoesPrint | src/storage/migration_runner.cpp:110-134 | splitting a printed file recovers both sections if and only if header and UP text contain no DOWN marker and the header hides no earlier UP line |
| SectionSplitter.UpOnly | src/storage/migration_runner.cpp:115-120 | without a DOWN marker everything after the line of the first UP marker is the UP section, and the DOWN section is empty |
| SectionSplitter.DownOnly | src/storage/migration_runner.cpp:121-134 | without an UP marker the text before the first DOWN marker is the UP section and the text after its line the DOWN section |
| SectionSplitter.NoMarkers | src/storage/migration_runner.cpp:124-127 | without markers the whole text is the UP section |
| SectionSplitter.UnendedMarkers | src/storage/migration_runner.cpp:115-134 | a first marker whose line does not end has an empty section |
| SectionSplitter.DownBeforeUpLineEnd | src/storage/migration_runner.cpp:115-120 | a DOWN marker before the end of the first UP line makes the length wrap, so the UP section runs to the end of the file |
| MigrationSpec.SortSorts | src/storage/migration_runner.cpp:139-142 | the list is sorted by version and a permutation of the files |
| MigrationSpec.SortedUnique | src/storage/migration_runner.cpp:139-142 | with distinct versions there is only one sorted list, so the directory order does not matter |
| MigrationNames.NameMatchesExactly | src/storage/migration_runner.cpp:88-97 | a name yields these digits if and only if it is digits, an underscore, a title of one line and the suffix |
| MigrationNames.VersionOfPrintedName | src/storage/migration_runner.cpp:95-97 | a file named by its number, with any number of leading zeros, has that version |
| MigrationNames.NumberExamples | src/storage/migration_runner.cpp:97 | `120`, `009` and `000` are the versions 120, 9 and 0 |
| MigrationSpec.PrintedFile | src/storage/migration_runner.cpp:88-136 | a readable regular file named by its number and a title, with a header, an UP and a DOWN section, gives this version, this name, the UP text and the DOWN text, in these fields, if and only if header and UP text contain no DOWN marker and the header hides no earlier UP line |
| MigrationSpec.EntryIsRead | src/storage/migration_runner.cpp:90-136 | an entry gives a file exactly if it is regular, has a matching name and can be read |
| MigrationSpec.ParseAllConcat | src/storage/migration_runner.cpp:90-137 | a directory listing gives what its entries give one after the other |
| MigrationSpec.DiscoveredFile | src/storage/migration_runner.cpp:90-145 | whatever else the directory holds and in whatever order, the sorted list holds what an entry gives by itself |
| MigrationSpec.RangeLimit | src/storage/migration_runner.cpp:97 | a number is out of range exactly above 2147483647 |
| MigrationSpec.TestFile | tests/unit/test_migration_runner.cpp:16-21 | the file of the unit tests gives version 1, the CREATE TABLE text and the DROP TABLE text |
| MigrationSpec.MigrateRecordsVersion | src/storage/migration_runner.cpp:56-66 | after a committed migration every row holds its version, whatever rows the script inserted; it is on record exactly if there is a row |
| MigrationSpec.MigrateRunsUpScript | src/storage/migration_runner.cpp:159-173 | a migration commits if and only if nothing fails and its UP script succeeds and leaves a version table; the data is what the UP script leaves and no version row is added or lost |
| MigrationSpec.EnsuredTable | src/storage/migration_runner.cpp:13-54 | a missing or empty table gets one row of version 0, any other stays; the first row is the current version, and 0 without a table |
| MigrationSpec.FreshDatabase | src/storage/migration_runner.cpp:147-155 | on a new database every file with a positive version is pending |
| MigrationSpec.ApplyUniform | src/storage/migration_runner.cpp:147-180 | whatever fails, all version rows agree in every reachable state, so LIMIT 1 is well defined |
| MigrationSpec.AppliesPrefix | src/storage/migration_runner.cpp:153-179 | for any faults the database is the state after committing a prefix of the pending migrations, complete exactly on success |
| MigrationSpec.CommitRecordsVersion | src/storage/migration_runner.cpp:160-173 | after committing a prefix all version rows hold the version of its last file, and there is a row if no script empties the table |
| MigrationSpec.PendingIsSuffix | src/storage/migration_runner.cpp:150-155 | in a sorted list the pending files are the suffix with greater versions |
| MigrationSpec.PendingAfter | src/storage/migration_runner.cpp:150-155 | with the k-th pending version on record, exactly the later files are pending if and only if the next one has another version |
| MigrationSpec.PendingAfterExactly | src/storage/migration_runner.cpp:150-155 | every committed prefix can be told by its version if and only if no two pending files have the same |
| MigrationSpec.RerunContinuesExactly | src/storage/migration_runner.cpp:147-180 | for any scripts, table faults and migration faults, the next run applies exactly the files not yet committed if and only if nothing was committed, or a version is on record and the next file has another one |
| MigrationSpec.SecondRunDoesNothing | src/storage/migration_runner.cpp:147-180 | after success, a second run returns 0 and changes nothing if and only if a version is on record |
| MigrationSpec.ResumeIsUninterrupted | src/storage/migration_runner.cpp:147-180 | if the committed migrations are on record, running again gives the database, the success and the total count of one uninterrupted run |
| MigrationSpec.OrdinaryRunsAreResumable | src/storage/migration_runner.cpp:147-180 | with distinct versions and scripts that never empty `schema_version`, every run leaves its record, whatever fails |
| MigrationSpec.OrdinaryMigrationsResume | src/storage/migration_runner.cpp:147-180 | such migrations can be interrupted anywhere and any number of times: the first run without a fault ends in the database, the success and the total count of one uninterrupted run |
| MigrationLimits.UnseededTableRepeats | src/storage/migration_runner.cpp:31-39 | a concrete run: a failed INSERT of the first row is not noticed and every run applies the migration again |
| MigrationLimits.ClearedTableRepeats | src/storage/migration_runner.cpp:56-66 | a concrete run: a script that empties the table is applied by every run |
| MigrationLimits.DuplicateVersionSkipped | src/storage/migration_runner.cpp:150-155 | a concrete run: of two files with one version, the second is lost after an interruption between them |
| Migrations.Discover | src/storage/migration_runner.cpp:79-145 | the readable files with matching names, sorted by number; `PrintedFile` and the section lemmas say what each one holds and `DiscoveredFile` that it is listed; none when the directory is missing; an exception exactly if a matching name carries a number above the largest int |
| Migrations.Connection.EnsureVersionTable | src/storage/migration_runner.cpp:13-40 | the table exists afterwards, with a row of version 0 if it had none, unless the INSERT failed; inside a transaction nothing of it is committed |
| Migrations.Connection.CurrentVersion | src/storage/migration_runner.cpp:42-54 | the first row's version, 0 without table or row |
| Migrations.Connection.SetVersion | src/storage/migration_runner.cpp:56-66 | all rows get the version; fails without a table |
| Migrations.Connection.CommitTransaction | src/storage/migration_runner.cpp:173 | the working state becomes the committed one; a failed COMMIT leaves the committed state as it was, and either rolls back or keeps the transaction open |
| Migrations.Connection.MigrateOne | src/storage/migration_runner.cpp:159-173 | script and version are committed together, or the committed database is as before; inside an open transaction nothing happens at all, and only a failed COMMIT leaves one open |
| Migrations.Connection.Apply | src/storage/migration_runner.cpp:147-180 | committed database and return value are those of the functional run, for any faults and any partial state a failing script leaves; on a connection with an open transaction nothing is committed, and the result is 0 or -1 according to what is pending in that transaction's state; a name out of range ends the run with an exception after the table check |
| RollupSpec.BucketIsFloor | src/metrics/aggregator.cpp:11-17 | bucket starts are aligned, and contain their timestamp if and only if it is non-negative or aligned |
| RollupSpec.FoldMeaning | src/metrics/aggregator.cpp:19-32 | minimum and maximum are attained and bound all values, sum and count are those of the list, and the quality is the worst that occurred |
| RollupSpec.WorstQuality | src/metrics/aggregator.cpp:28-30 | the bucket's quality is Unknown if some sample is, else Estimated if some is, else Derived if some is, else Measured |
| RollupSpec.RowMeaning | src/metrics/aggregator.cpp:34-44 | in the stored row the minimum and maximum columns bound the samples and are attained, the average is their sum over their number, the count is that number, and the quality is the text of the worst |
| RollupSpec.FoldConcat | src/metrics/aggregator.cpp:19-32 | the bucket over a concatenation is the merge of the two buckets |
| RollupSpec.StoreLoad | src/storage/reader.cpp:41-49 | an aggregate read back from its row is the aggregate that was written |
| MinuteRuns.RunIsTrace | src/metrics/aggregator.cpp:52-85 | flushed batches followed by pending samples are, in order, exactly the accumulated samples, and the table is the batches written over each other and over the rows stored before |
| MinuteRuns.CountsConserved | src/metrics/aggregator.cpp:52-85 | over arbitrary runs the sample counts of all rows written for a key plus its pending samples are its accumulated samples |
| MinuteRuns.GroupByExactlyFaithful | src/storage/writer.cpp:40-61 | under INSERT OR REPLACE the table is the group-by if and only if no row was written in two parts and every batch holds only its minute |
| MinuteRuns.FaithfulCalls | src/metrics/aggregator.cpp:52-85 | the batches of a run are of this kind exactly if its calls are uninterrupted |
| MinuteRuns.StoredTableIsGroupBy | src/metrics/aggregator.cpp:52-85 | for every run on top of any stored rows, the table after a final flush is these rows and the group-by of all samples on (minute, key) if no sample comes after its minute's stretch ended and minute 0 is flushed before it is left, and, unless old rows of these groups get in the way, only if |
| MinuteRuns.OrderlyRunsAreGroupBy | src/metrics/aggregator.cpp:52-85 | non-decreasing timestamps from 60 on and flushes only between minutes are enough |
| MinuteRuns.GroupBysCombine | src/storage/writer.cpp:40-61 | two group-bys written one after the other are the group-by of all samples if and only if they share no group |
| MinuteRuns.RestartKeepsGroupBy | src/metrics/aggregator.cpp:8-85 | after a restart between two uninterrupted runs the table is the group-by of both if and only if they share no minute of any key |
| MinuteRuns.FlushInsideMinuteLosesSamples | src/metrics/aggregator.cpp:65-85 | a flush between two samples of one minute and key always leaves a table that is not the group-by |
| HistorySpec.ScanSelects | src/storage/reader.cpp:22-27 | the query's result is ascending and contains a row if and only if it has the key and lies in the closed range |
| HistorySpec.ScanLength | src/storage/reader.cpp:22-27 | a table of whole minutes gives at most one row a minute |
| HistorySpec.WorstRowQuality | src/metrics/aggregator.cpp:106-120 | over rows, too, Unknown outranks Estimated, Estimated Derived and Derived Measured |
| StorageTables.LimitedIsPrefix | src/storage/reader.cpp:25 | a limit keeps the first rows, a negative one all of them; the aggregator's limit is 10000 |
| HistorySpec.RollupIsDirect | src/metrics/aggregator.cpp:95-121 | aggregating stored rows, read back through text and averages, gives minimum, maximum, average, count and worst quality of all raw samples behind them |
| HistorySpec.SharedEndCountedTwice | src/metrics/aggregator.cpp:87-96 | two windows that share an end both count the row there |
| EndToEnd.RunsAreBacked | src/metrics/aggregator.cpp:65-85 | every table a run can produce consists of rows over non-empty lists of its samples |
| EndToEnd.RollupOfAnyRun | src/metrics/aggregator.cpp:95-121 | two-level aggregation preserves meaning over arbitrary runs on top of older rows, even runs that overwrite them |
| EndToEnd.QueriesStayBelowLimit | src/storage/reader.cpp:25 | at no moment of a run over whole-minute rows does the rollup or daily query reach its limit of 10000 rows |
| EndToEnd.RollupOfGroupBy | src/metrics/aggregator.cpp:95-121 | over a group-by table the rollup is the aggregate of the raw samples of the window |
| EndToEnd.CompleteRunIsGroupBy | src/metrics/aggregator.cpp:52-85 | at any moment of an uninterrupted run, on top of earlier samples that share no group with it, the table is the group-by of all samples flushed so far |
| EndToEnd.QuarterHourOfRun | src/metrics/aggregator.cpp:87-121 | at any moment of such a run, with a minute pending or not, the row is the aggregate of the key's flushed samples from start up to start + 960 seconds, for non-negative timestamps in any order; these are all samples of that time if and only if none of them is still pending |
| EndToEnd.HeldBackExactly | src/metrics/aggregator.cpp:52-85 | the flushed samples of a window of minutes are all that have come if and only if the pending minute lies outside it or has none of the key |
| EndToEnd.FlushHoldsNothingBack | src/metrics/aggregator.cpp:65-85 | one more flush stores every sample, so that nothing is held back and the run stays uninterrupted |
| EndToEnd.HalfOpenExactlyWithoutEndRow | src/metrics/aggregator.cpp:89-96 | the row is the aggregate of the half-open window if and only if the key has no row at the window's end |
| DailyEnergy.DailyBounds | src/metrics/aggregator.cpp:150-168 | mean at most peak, energy at most peak over the active time, mean over the active time at most the energy, with equality exactly if every row with power has 60 samples; the active time is a minute a row, charge and discharge are 0, and the row is final |
| DailyEnergy.AverageBetweenExtremes | src/metrics/aggregator.cpp:34-44 | a stored average lies between the stored extremes |
| DailyEnergy.DayFromSamples | src/metrics/aggregator.cpp:147-171 | for all samples whatever, the day's mean over the active time, peak and quality are the sum, the maximum and the worst quality of the raw samples behind its rows; if no minute has a negative sample or more than sixty, the energy is an upper bound of their sum, equal to it exactly if every minute has sixty samples or no power |
| DailyEnergy.MidnightCountedTwice | src/metrics/aggregator.cpp:144-148 | two consecutive days both count the energy of the minute between them |
| StorageTables.Storage.Write1m | src/storage/writer.cpp:37-65 | the rows are upserted by (timestamp, key) in list order and the other tables stay |
| StorageTables.Storage.Write15m | src/storage/writer.cpp:67-95 | the same for the fifteen-minute table |
| StorageTables.Storage.WriteEnergyDaily | src/storage/writer.cpp:97-126 | the day's row is replaced and no other |
| StorageTables.Storage.QueryHistory | src/storage/reader.cpp:10-52 | the closed-range selection of the named table, cut at the limit; any other table name gives nothing |
| Aggregation.WorkingBucket.Add | src/metrics/aggregator.cpp:19-32 | the fields become the bucket with one more sample; `FoldMeaning` and `WorstQuality` say what a bucket holds |
| Aggregation.WorkingBucket.ToAggregate | src/metrics/aggregator.cpp:34-44 | the aggregate of the bucket's value, 0 as average of nothing |
| Aggregation.WorkingBucket.Reset | src/metrics/aggregator.cpp:46-50 | the bucket is the empty one again |
| Aggregation.Aggregator.constructor | src/metrics/aggregator.cpp:8-9 | no samples are pending and there is no current bucket |
| Aggregation.Aggregator.Accumulate | src/metrics/aggregator.cpp:52-63 | buckets, current minute and table take one step of the run model: flush when the minute changes, then add |
| Aggregation.Aggregator.Flush1m | src/metrics/aggregator.cpp:65-85 | whatever the map's order, one row for each key with pending samples is stored under the current minute and nothing is pending any more |
| Aggregation.Aggregator.RollupRows | src/metrics/aggregator.cpp:99-120 | the loop's minimum, maximum, weighted average, count and worst quality are those of the row list; `RollupIsDirect` and `WorstRowQuality` say what they mean |
| Aggregation.Aggregator.Flush15m | src/metrics/aggregator.cpp:87-128 | exactly the registered keys with rows in the closed window get a row at its start; all other rows stay |
| Aggregation.Aggregator.FinalizeDaily | src/metrics/aggregator.cpp:130-175 | the day's energy row is the one computed from the first 10000 rows of `power.current_w` from the day's start to 86400 seconds later; an invalid day writes nothing |
| AggregationLaws.QuarterRowsOfRun | src/metrics/aggregator.cpp:87-128 | at any moment of an uninterrupted run, on top of earlier samples, flush_15m stores for every registered key with flushed samples in the sixteen minutes the row over exactly these samples; nothing is missing if and only if none is still pending |
| AggregationLaws.DayOfRun | src/metrics/aggregator.cpp:130-175 | the row that finalize_daily stores at any moment of such a run, query limit included, in terms of the flushed power samples: their sum, maximum and worst quality for all samples whatever, and the energy with its exact equality case for minutes of at most sixty non-negative samples |

## Left out

- SHA-1 and frame lengths: `size_t` arithmetic on the length itself does not wrap; a buffer of 2^64 octets does not exist.
- The socket side: `send`, ping and close frames, client lists, reading frames, and the handshake request.
- HTTP routes, JSON, static files and the web front end: input and output plumbing.
- The Windows collectors, timers and service control: foreign calls without visible semantics.
- SQLite itself: tables are maps, a query is a selection, a script is an arbitrary step that may fail half-way; failing prepare, bind and step calls in the writer and reader are not modelled.
- Migration scripts that contain transaction statements of their own, and closing a connection, which rolls an open transaction back.
- MigrationSpec.RerunContinuesExactly: is about pending files of positive versions, which is all of them once the recorded version is not negative. When the record is missing, what running a script twice does to the data is up to the script.
- SectionSplitter.SplitUndoesPrint: for files shorter than 2^64 characters, the size of `size_t`.
- Migrations.Discover: `std::sort` is an insertion function, so the order of equal versions is that of this function; the dot of the name pattern excludes line feed and carriage return only.
- MigrationSpec.MigrateRecordsVersion: the row condition is stated for versions other than 0, which no run applies on a non-negative record.
- Rings.RingBuffer.Push: a ring of capacity 0 can be created and read, but has no slot to push to.
- Rings.RingBuffer.PeekLast: the caller provides an array of at least `count` elements other than the ring's own, as the source demands of its callers.
- Threads: each push, pop, flush or check is one atomic step; locks, memory orders and a `flush_1m` that runs without the mutex are not modelled.
- Registry.RecentIsSuffix: below 2^64 pushes per key; at an exact multiple of 2^64 the ring reads as empty.
- RingFifo.FifoWithoutOverrun: capacities below 2^64, the size of the positions.
- Rounding, NaN and infinities: `real` stands for `double`.
- Overflow of the `int` counters (violations, samples, energy seconds, migrations) and of timestamp arithmetic near the limits of 64 bits.
- Alert titles, log lines, event payloads and `updated_at_utc`: text formatting only; an alert event keeps time, severity and category.
- Sampling.Sampler.Run: starting, stopping and the timer are left out; a collector or callback is something that runs and may throw a standard exception.
- Aggregation.Aggregator.FinalizeDaily: parsing the day and `mktime` are an input, None when either fails.
- The snapshot tables `metric_current` and `metric_registry`, events queries, deletion and retention cleanup: plain inserts and filters.
- Configuration files and the wiring in `apps/pulseport-service/main.cpp`.
