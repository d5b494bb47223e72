# A verified model of network-monitor

network-monitor watches a home router: it takes device sightings, per-device traffic counters and firewall log lines,
keeps them in memory with expiry, stores them in SQLite and serves them to a dashboard. This project models its core in
Dafny and proves what every run of it keeps.

- **In-memory state** (`Telemetry`, `StoreModel`, `StateStore`, `RingBuffer`): `StateStore` is a class with the source's
  three maps and two bounded buffers; every method is proved to take exactly one step of `StoreModel`, and a ghost trace
  makes every valid store the result of a run. So every theorem about runs holds of every reachable store.
- **Runs** (`Identity`, `Lifecycle`, `Reports`, `StatusRules`, `SampleRates`, `Conservation`, `CleanupSchedule`, `RateHold`,
  `AttackWindow`): the three maps refine a registry whose records have identities that are never reused, over every sequence
  of updates and cleanups. From that follow: no dangling alias or orphan history, lossless re-keying, aliases that name the
  last holder of an address, every field of a record from the reports made about it, what its status and its rates say,
  offline events separated by updates, conservation of traffic counters, and how long a rate is held.
- **Queries and retention** (`TrafficRows`, `TrafficTotals`, `TrafficHistory`, `Retention`): one pass over interleaved rows
  against per-device definitions, the two accounts of the same rows compared exactly, and retention statements that commute.
- **Restart** (`Tags`, `Reload`, `Restart`, `LoadOrder`, `EventIds`): columns, the devices table over any number of saves, and what
  loading it makes of the live devices; ids of events before and after.
- **Text and bytes** (`SyslogFraming`, `SyslogReads`, `KeyValue`, `Json`, `WebSocket`, `Base64`, `Sha1`,
  `Sha1Example`): framing and its dependence on how a stream is cut, round trips through decoders written from the standards,
  and the hash of RFC 3174 with its own first example worked through.

Times are integer nanoseconds, 0 meaning unset; the clock is an argument. Iteration over an unordered map is a choice of
any remaining key. `uint64` sums wrap explicitly. Rates are reals.

Where the code does not do what its documentation or its use suggests, the model follows the code, a lemma shows an input,
and another gives the exact condition:

- README.md:161 of the source says a rate is held for a fixed window. A duplicate sample refreshes the stamp, so the window
  is measured from the last duplicate: `RateHold.HeldExactlyWhileChained` is the rule as coded, `RateHold.TrickleRun` a run
  that shows a rate any number of windows after it was computed, `RateHold.DocumentedWindowIff` exactly when the coded
  window is the documented one.
- A restart does not bring back exactly the live records. Rows are never deleted, so devices that were erased come back
  too, and a device that was given the address of an erased one comes back inside its record
  (`Restart.ErasedComesBack`, `Restart.StaleRowCaptures`); the old row of a re-keyed device merges back into it
  (`LoadOrder.RekeyedRowMerges`). Live records can share an address, share a mac, or have no key of
  their own (`Restart.SharedAddressReached`, `Restart.SharedKeyReached`, `Restart.KeylessReached`), and two rows with one
  address are loaded into one record in either order (`Restart.TwoBecomeOne`). Exact are `LoadOrder.LoadedKeysExact` for
  the records any rows leave, `LoadOrder.RestartKeysIff` for whose records come back, and `Restart.RestartLive` for a restart
  in which moreover no row merges into another.
- Numbering of events starts again after a restart while loaded events keep their ids, and the table replaces by id:
  `StateStore.RestartRepeatsId`; `StateStore.StateStore.HistoryIdsDistinctIff` is exact over the whole life of a store,
  `StateStore.LoadThenHandle` for a restart and the log lines after it.
- With `maxPoints` of zero, counter growth is not accounted for: `Conservation.NoPointsNoConservation`;
  `Conservation.ConservationIff` is exact.
- Attacks are counted from a bounded buffer. Out of time order it can forget one inside the window:
  `AttackWindow.OutOfOrderUndercounts`; `AttackWindow.BufferCountExact` is exact.
- A cleanup at an earlier time than the one before does not leave what it alone would: `CleanupSchedule.OrderMatters`;
  `CleanupSchedule.CleanupAbsorbsIff` is exact.
- A line longer than the syslog limit is delivered in part or not at all, depending on how it was cut:
  `SyslogFraming.OversizedDependsOnCut`; `SyslogFraming.DeliveryExact` says exactly when all is delivered,
  `SyslogReads.CutIndependentWithinIff` exactly when the cut into reads of bounded size does not matter.
- The totals and the history of the same rows disagree after a reset or when time does not advance:
  `TrafficHistory.ResetDisagrees`; `TrafficHistory.AccountsAgreeIff` is exact.
- Tags with commas, blanks at their ends or nothing in them do not survive their column: `Tags.CommaSplits`;
  `Tags.RoundTrip` is exact.

## Model

| member | source | states |
|---|---|---|
| `Identity.RunRefines` | src/state_store.cpp:41-159 | After every sequence of device updates, traffic updates and cleanups, the three maps hold exactly the live records of an identity registry: each under its one current key, with its history, and reachable by exactly the addresses it owns. |
| `Identity.LookupAgrees` | src/state_store.cpp:387-417 | Looking up mac and address in the maps finds the record the registry finds, under its current key; a newborn gets the made key; an address never leads to an `ip:` record named after another address. |
| `Identity.SeeDeviceRefines` | src/state_store.cpp:41-70 | A device update, re-keying or not, keeps the refinement and the bijection between names and records. |
| `Identity.SeeTrafficRefines` | src/state_store.cpp:72-159 | A traffic update keeps the refinement. |
| `Identity.CleanRefines` | src/state_store.cpp:313-358 | A cleanup keeps the refinement: erased records take their history and every alias with them. |
| `Identity.StepEvolves` | src/state_store.cpp:41-159 | A call changes a record by its own update or cleanup only; an update leaves every record but the one it concerns as it was, and does to that one what the model says. |
| `Lifecycle.RunClosed` | src/state_store.cpp:347-357 | In every run every alias and every history belongs to a live record. |
| `Lifecycle.ClosedIsNotInductive` | src/state_store.cpp:52-62 | That property alone is not kept by one update from an arbitrary state; a concrete store shows it. |
| `Lifecycle.RekeyLosesNothing` | src/state_store.cpp:52-62 | In any run, re-keying finds its target free, replaces one name by the other, moves the whole history and touches nothing else. |
| `Lifecycle.RekeyHappens` | src/state_store.cpp:52-62 | A sighting by address alone followed by one with a mac does re-key. |
| `Lifecycle.AliasNamesLastHolder` | src/state_store.cpp:66-68 | An address is in the alias map exactly when the record last updated to hold it is alive, and then leads to that record under its current key. |
| `Lifecycle.OwnerIsLastHolder` | src/state_store.cpp:155-157 | The registry's owner of an address is the record found by looking back through the run. |
| `Lifecycle.DeadStaysDead` | src/state_store.cpp:347-357 | An erased identity never comes back, whatever follows. |
| `Lifecycle.OfflineEventsSeparated` | src/state_store.cpp:324-339 | If cleanup times do not go back, two offline events of one record always have an update of it between them, across re-keying. |
| `Lifecycle.OfflineEventFollowsUpdate` | src/state_store.cpp:324-339 | Every offline event a cleanup emits concerns a record updated since its previous one, also when the same cleanup erases it. |
| `Reports.RecordShowsReports` | src/state_store.cpp:419-464 | Every live record of every run, from the calls that updated it and nothing else: each text is the last one reported that is not empty, `unknown` or `*`, MACs in lower case and a sample counting as source `traffic`; the last DHCP and traffic times and both counters are the last ones set; it was last seen at the latest of the reported times and first seen at the first of them; its tags are the reported ones, each where it first stood. |
| `Reports.RunShows` | src/state_store.cpp:134-154 | The same of every record of the registry. |
| `Reports.DeviceShows` | src/state_store.cpp:419-464 | One discovery report keeps all of that. |
| `Reports.SampleShows` | src/state_store.cpp:134-154 | One traffic sample keeps all of that. |
| `Reports.AddTagsIsFirsts` | src/state_store.cpp:460-464 | Adding tags to a list without repetitions gives the joined list without its repetitions, in order of first occurrence. |
| `Reports.RecordIsNamedByReports` | src/state_store.cpp:47-62 | In every run a record is keyed by the MAC of the report that created it, else by the first MAC that discovery reported of it, else by its first address. |
| `Reports.ReportConcerns` | src/state_store.cpp:387-417 | In every run a report concerns the record its MAC names, else the live record that last held its address, else the record its address names, else a new one; without MAC and address, nobody. |
| `StatusRules.StatusIsSettled` | src/state_store.cpp:360-378 | A cleanup, a sample and a discovery report that does not say Offline leave a record Unknown exactly if never seen, Offline exactly if silent for longer than the idle time, Online exactly if seen within both times, not given up by the kernel and vouched for by its neighbour state or its source, in any case of letters, and Idle exactly otherwise; a report that says Offline is believed. |
| `StatusRules.SilenceOnlyAges` | src/state_store.cpp:324-326 | While nobody reports a record, later cleanups only move it from Online over Idle to Offline. |
| `StatusRules.SilenceKeeps` | src/state_store.cpp:316-326 | Without reports a record keeps everything its status depends on. |
| `StatusRules.SpellsIff` | src/state_store.cpp:16-24 | Comparing in upper case is comparing letter by letter in either case. |
| `StatusRules.OfflineEventIff` | src/state_store.cpp:324-339 | A cleanup reports exactly the records that were not Offline and have been silent for longer than the idle time. |
| `SampleRates.SampleIsLogged` | src/state_store.cpp:95-132 | In every run a sample becomes a point, with the rates then shown, exactly if it is the record's first, or a counter fell since the last point, or a counter moved and time advanced; the deque is the newest part of all points. |
| `SampleRates.SampleSetsRates` | src/state_store.cpp:95-150 | In every run and in each direction: after a sample, the shown rate times the time since the last point is the bits counted since then; it is zero after a fallen counter, kept for unmoved counters while fresh and else zero, and unchanged for a late sample; with the stamp each case leaves. |
| `SampleRates.ReportSetsRates` | src/state_store.cpp:443-458 | A discovery report changes a rate or its stamp only to one it carries, and never the points. |
| `Conservation.TrafficConserved` | src/state_store.cpp:92-132 | For every key after every run: the deque is the newest part of all points ever stored, and stored rates times elapsed seconds sum to eight times the counter growth over the reset-free segments. |
| `Conservation.LinkedConserves` | src/state_store.cpp:105-115 | The same sum for any log whose neighbours are linked by the rate rule. |
| `Conservation.StepsAddUp` | src/state_store.cpp:98-115 | Steps that match the counters telescope to the growth per segment, resets starting a new one. |
| `Conservation.RateAccounts` | src/state_store.cpp:111-114 | A computed rate times its elapsed time is eight times the byte difference. |
| `Conservation.RunLogSound` | src/state_store.cpp:127-132 | In every run each record's deque is the newest part of its log, and its log is linked. |
| `Conservation.NoPointsNoConservation` | src/state_store.cpp:127-132 | With a point limit of zero the law fails in every run that starts with two growing samples of one device. |
| `Conservation.ConservationIff` | src/state_store.cpp:92-132 | The law holds of every record of every run exactly when at least one point is kept per record. |
| `CleanupSchedule.CleanupErasesExactlyTheOld` | src/state_store.cpp:341-357 | A record disappears exactly when it is older than both TTLs, and its history and aliases with it. |
| `CleanupSchedule.CleanupAbsorbs` | src/state_store.cpp:313-358 | Cleaning at one time and again later leaves the store that the later cleanup alone leaves. |
| `CleanupSchedule.CleanupAbsorbsIff` | src/state_store.cpp:313-358 | For any two times, in either order: the second cleanup leaves the whole store as if the first had not been, exactly when every record is expired at the second time, or is not at the first and has no rate that only the first withdraws. |
| `CleanupSchedule.ErasuresAddUp` | src/state_store.cpp:341-357 | What two cleanups erase together is what the later one erases alone. |
| `CleanupSchedule.ScheduleIndependent` | src/state_store.cpp:313-358 | Any schedule whose times do not go back is worth its last cleanup. |
| `CleanupSchedule.CleanupIdempotent` | src/state_store.cpp:313-345 | A repeated cleanup changes nothing and emits no event. |
| `CleanupSchedule.OrderMatters` | src/state_store.cpp:360-378 | If times go back, a record can be lost that the last cleanup alone would keep. |
| `RateHold.HeldExactlyWhileChained` | src/state_store.cpp:117-124 | While counters stand still a positive rate is kept unchanged if every duplicate or cleanup falls within the window of the stamp before it, and is zero otherwise. |
| `RateHold.RunHoldsExactly` | src/state_store.cpp:117-124 | In any stretch of any run that a record outlives and in which only duplicates and cleanups concern it, whatever happens to others, a positive rate is kept unchanged while these are chained, and is zero otherwise. |
| `RateHold.RunPlaysBeats` | src/state_store.cpp:72-159 | Such a stretch does to the record, across re-keying of others, exactly what its duplicates and cleanups do. |
| `RateHold.ZeroStaysZero` | src/state_store.cpp:117-124 | A zero rate stays zero while counters stand still. |
| `RateHold.DuplicateStoresNothing` | src/state_store.cpp:98-132 | A sample with unchanged counters leaves the deque alone. |
| `RateHold.WindowIsHonoured` | README.md:161 | Over any still stretch inside the documented window, with no duplicate dated before the rate, the record keeps both its rates. |
| `RateHold.DocumentedWindowIff` | README.md:161 | After any still stretch, a cleanup at any time t shows the rate exactly within the documented window if and only if the beats are chained and the last duplicate carries the stamp of the rate; not cut short, and not exceeded, each with its own exact condition. |
| `RateHold.ShownExactly` | src/state_store.cpp:317-322 | Whether a rate is shown after a cleanup at t depends on the chain of beats and the last duplicate alone. |
| `RateHold.TicksKeepTheWindow` | src/state_store.cpp:317-322 | With cleanups only, the coded and the documented window agree. |
| `RateHold.TrickleHoldsForever` | src/state_store.cpp:117-124 | Repetitions of the last stored point, one window apart, keep the rates of any record for any number of windows. |
| `RateHold.TrickleRun` | src/state_store.cpp:72-159 | A run of two growing samples and repetitions of the second, after which the store shows their rate any number of windows later. |
| `RateHold.RunPlays` | src/state_store.cpp:72-159 | A run of duplicates does to the record they belong to what the still stretch says. |
| `RateHold.PositiveRateIsStamped` | src/state_store.cpp:144-150 | In every run a record with a positive rate has its rate stamp set. |
| `RingBuffer.RingBuffer.Push` | include/netmon/ring_buffer.hpp:19-25 | The buffer holds the newest `capacity` of everything pushed. |
| `RingBuffer.RingBuffer.SetCapacity` | include/netmon/ring_buffer.hpp:14-17 | Shrinking keeps the newest items. |
| `RingBuffer.RingBuffer.Items` | include/netmon/ring_buffer.hpp:27-40 | The newest `limit` items in order of arrival; zero or too many asks for all. |
| `RingBuffer.RingBuffer.Clear` | include/netmon/ring_buffer.hpp:48 | Empties the buffer and keeps its capacity. |
| `RingBuffer.RingBuffer.Shrink` | include/netmon/ring_buffer.hpp:51-58 | Dropping from the front leaves the newest `capacity` items. |
| `AttackWindow.BufferCountSaturates` | src/state_store.cpp:295-299 | If attacks arrive in time order, the buffered count is the true count capped at the capacity. |
| `AttackWindow.BufferCountExact` | src/state_store.cpp:295-299 | In any order of arrival the buffered count is the true count capped at the capacity, exactly when every dropped attack is before the window or every kept one is in it. |
| `AttackWindow.OutOfOrderUndercounts` | src/state_store.cpp:295-299 | Out of order, an attack inside the window can be forgotten. |
| `AttackWindow.CountRecent` | src/state_store.cpp:295-299 | The counting loop counts the buffered attacks of the last five minutes, with both statements above about those ever pushed. |
| `StateStore.StateStore.UpdateDevice` | src/state_store.cpp:41-70 | The call extends the run by one device update, so that every record shows its reports with this one added, and the fields become what that step of the model gives. |
| `StateStore.StateStore.MoveRecord` | src/state_store.cpp:52-62 | The re-keying block moves node and deque to the desired key. |
| `StateStore.StateStore.MergeInto` | src/state_store.cpp:419-471 | The merge statements compute the merge that keeps a record showing its reports (`Reports.DeviceShows`). |
| `StateStore.MergeTags` | src/state_store.cpp:460-464 | The tag loop appends exactly the tags not yet present, in order. |
| `StateStore.StateStore.UpdateTraffic` | src/state_store.cpp:72-159 | The call extends the run by one traffic update, so that every record shows its reports with this one added, and its rates as `SampleRates` says. |
| `StateStore.StateStore.JudgeSample` | src/state_store.cpp:95-125 | The comparison with the last stored point gives the model's verdict: stored or not, reset or not, and the rates. |
| `StateStore.StateStore.Absorb` | src/state_store.cpp:95-154 | Rates, stored point and trimmed deque of one record are those whose meaning `SampleRates.LogFollows` and `Reports.SampleShows` give. |
| `StateStore.StateStore.Cleanup` | src/state_store.cpp:313-358 | The call extends the run by one cleanup, whatever the iteration order, logs exactly one event per record that goes offline and counts them. |
| `StateStore.StateStore.RefreshRecords` | src/state_store.cpp:316-345 | In any order of visits: every record is cleaned once, the expired are collected once each, and the events follow the order of the visits. |
| `StateStore.StateStore.Erase` | src/state_store.cpp:347-357 | One record goes with its deque and every alias that names it. |
| `StateStore.DropAliases` | src/state_store.cpp:350-356 | In whatever order the addresses are met, exactly those that lead to the key go. |
| `StateStore.StateStore.NextEventId` | src/state_store.cpp:380-385 | The id is `evt-` and the next number in decimal, differs from every id generated before, and is not yet used by an event; the store stays valid. |
| `EventIds.EventIdInjective` | src/state_store.cpp:380-385 | Two generated ids are equal exactly when their numbers are. |
| `EventIds.DecimalPlain` | src/state_store.cpp:380-385 | The number in an id is written in digits, without a leading zero. |
| `StateStore.OfflineIdsDistinct` | src/state_store.cpp:324-339 | The offline events of a cleanup have pairwise distinct ids, none of them generated before. |
| `StateStore.OfflineEventTells` | src/state_store.cpp:328-338 | The i-th offline event carries the time of the cleanup and the MAC, address and host name of the i-th record that went offline. |
| `StateStore.StateStore.HistoryIdsDistinctIff` | src/state_store.cpp:473-482 | Of all events ever pushed, by callers and by cleanups in any order, with ids taken from nextEventId, generated by the push or brought along: the ids are distinct exactly when those brought along are, and none of them was generated for another event. |
| `EventIds.IdsDistinctIff` | src/state_store.cpp:380-385 | The same for any log in which no generated number is used twice. |
| `EventIds.UsedDistinctIff` | src/app.cpp:29-39 | Loaded ids followed by those that log lines take, one each, whether or not they push an event: distinct exactly when the loaded ones are, and none of them is that of a line that pushes. |
| `StateStore.HandleLine` | src/app.cpp:202-224 | A log line takes an id, then may update the store, then may push its event under that id: the store stays valid, and number, run and log grow accordingly. |
| `StateStore.LoadThenHandle` | src/sqlite_store.cpp:595 | A fresh store that takes loaded events and then handles log lines: exactly when no id repeats. |
| `StateStore.RestartRepeatsId` | src/app.cpp:29-39 | A store that loads an event of an earlier life can give its id to the first line again. |
| `StateStore.StateStore.AddEvent` | src/state_store.cpp:473-482 | A missing id, generated here, and a missing time are filled in; an id that the caller brings, its own or taken from nextEventId, is kept; the event is pushed and the maps stay as they were. |
| `StateStore.StateStore.AddWANAttack` | src/state_store.cpp:207-215 | A missing time is filled in, the attack is pushed, the maps stay as they were. |
| `StateStore.StateStore.RecentAttackCount` | src/state_store.cpp:295-299 | The five-minute count of attacks pushed in time order, capped by the buffer. |
| `StateStore.StateStore.ValidIsClosed` | src/state_store.cpp:347-357 | Every valid store is free of dangling aliases and orphan histories. |
| `StateStore.StateStore.ValidShowsReports` | src/state_store.cpp:41-159 | Every record of every valid store shows what was reported to it over the store's whole life. |
| `TrafficTotals.Accumulate` | src/sqlite_store.cpp:792-821 | One pass over interleaved rows leaves, per device, the accumulator of that device's own rows. |
| `TrafficTotals.DeviceTrafficTotals` | src/sqlite_store.cpp:785-839 | One total per listed device, with its first row's names, the times of its first and last row, the number of its rows and its counted bytes modulo 2^64; received plus transmitted modulo 2^64 never increases along the list, nor does the last time where it is equal; and if the limit drops devices, each of them could only have come after every listed one. |
| `TrafficTotals.BusiestAreListed` | src/sqlite_store.cpp:827-834 | While nothing wraps, no device that is left out has counted more bytes than one that is listed. |
| `TrafficTotals.OutranksIff` | src/sqlite_store.cpp:827-831 | The comparator on totals is that order on the rows they come from. |
| `TrafficRows.SameDeviceIff` | src/sqlite_store.cpp:729-732 | Rows are of one device exactly if their MACs agree but for case, or both lack one and their addresses agree; exactly those without either are skipped. |
| `TrafficTotals.CountedSplit` | src/sqlite_store.cpp:813-814 | Totals add up when a window is split at a shared sample. |
| `TrafficTotals.CountedSnoc` | src/sqlite_store.cpp:813-814 | Last minus first plus what resets lost grows by exactly the code's increment. |
| `TrafficTotals.CountedNonnegative` | src/sqlite_store.cpp:813-814 | A total is never negative. |
| `TrafficHistory.FillBuckets` | src/sqlite_store.cpp:720-748 | A bucket exists exactly when a row contributes to it, and holds the rates of exactly the rows that contribute to it, the previous row taken per device. |
| `TrafficHistory.TrafficHistory` | src/sqlite_store.cpp:695-758 | Of the newest rows, the newest buckets, oldest first, each complete. |
| `TrafficHistory.SamplesAddUp` | src/sqlite_store.cpp:741-744 | The sample counts of the buckets sum to the contributing rows. |
| `TrafficHistory.StepRateAccounts` | src/sqlite_store.cpp:742-743 | A contributed rate times its seconds is eight times its bytes. |
| `TrafficHistory.BucketAccounts` | src/sqlite_store.cpp:735-744 | In each direction a bucket's rate is the sum of one rate per contributing row of its five seconds, and each of these times the seconds since the device's previous row is eight times the bytes since then. |
| `TrafficHistory.PartsExact` | src/sqlite_store.cpp:735-741 | The rows counted in a bucket are exactly the contributing ones stamped within it. |
| `TrafficHistory.HistoryWithinTotals` | src/sqlite_store.cpp:735-744 | On the same rows the history never accounts for more bytes of a device than the totals. |
| `TrafficHistory.AccountsAgreeIff` | src/sqlite_store.cpp:735-744 | Both accounts agree exactly when every step the totals count advances in time without a reset. |
| `TrafficHistory.ResetDisagrees` | src/sqlite_store.cpp:735-744 | Two samples around a reset: the totals count the new counter, the history nothing. |
| `Retention.PassSurvivors` | src/sqlite_store.cpp:874-898 | Age deletion and count trimming leave exactly the newest `limit` rows at or after the cutoff. |
| `Retention.AgeKeepsSuffix` | src/sqlite_store.cpp:874-884 | Age deletion leaves the suffix from the cutoff on. |
| `Retention.TrimKeepsNewest` | src/sqlite_store.cpp:886-898 | Deleting by id everything past the limit leaves the newest rows. |
| `Retention.AgeAndCountCommute` | src/sqlite_store.cpp:874-898 | The two statements may be run in either order. |
| `Retention.PassIdempotent` | src/sqlite_store.cpp:855-872 | A second pass removes nothing. |
| `Retention.OwnerTrimmed` | src/sqlite_store.cpp:900-921 | Deleting by row number per device is a single scan that looks at newer rows only. |
| `Retention.OwnerTrimKeepsNewest` | src/sqlite_store.cpp:900-921 | Per device exactly the newest `limit` rows stay. |
| `Retention.OwnerTrimIdempotent` | src/sqlite_store.cpp:900-921 | Trimming twice is trimming once. |
| `Retention.AgeAndOwnerTrimCommute` | src/sqlite_store.cpp:874-921 | Age deletion and per-device trimming may be run in either order. |
| `Retention.TrafficPassSurvivors` | src/sqlite_store.cpp:855-921 | Per device exactly the newest `limit` rows at or after the cutoff survive; a second pass removes nothing. |
| `Retention.PruneKeepsSuffix` | src/sqlite_store.cpp:930-939 | Pruning drops the oldest rows and leaves a suffix. |
| `Retention.Tables.ApplyRetention` | src/sqlite_store.cpp:855-872 | All three tables after a pass under the configured limits, each taken as at least one, and after exactly the size rounds that were called for. |
| `Retention.Tables.EnforceSizeLimit` | src/sqlite_store.cpp:941-960 | No round if the size fits, at most twelve, each only while the size is over the cap, and fewer than twelve only if it came to fit. |
| `SyslogFraming.DeliveryExact` | src/syslog_server.cpp:183-217 | For every stream and every cut into reads, exactly the stripped non-empty lines are delivered in order, if and only if every line with something to deliver fits the limit. |
| `SyslogFraming.ChunkingIndependent` | src/syslog_server.cpp:189-215 | The cut does not matter for streams that fit. |
| `SyslogFraming.CutIndependentIff` | src/syslog_server.cpp:189-215 | With reads of any length, all ways of cutting a stream deliver the same exactly when no segment over the limit has a tail, behind a dropped head and within the limit, that is not blank. |
| `SyslogReads.CutIndependentWithinIff` | src/syslog_server.cpp:190-211 | With reads of at most a given number of bytes, two or more: the same, for tails at the places where reads of that size can drop a head. |
| `SyslogReads.ReceiveWithin` | src/syslog_server.cpp:190-211 | Such reads drop heads in pieces of between one byte over the limit and a read over it, and of a stream safe against that deliver every segment that fits. |
| `SyslogFraming.OversizedDependsOnCut` | src/syslog_server.cpp:209-211 | After reads of any size that fill the buffer, the end of a line is delivered or not, depending on whether the next read carries one byte or all of it. |
| `SyslogFraming.HandleTcpClient` | src/syslog_server.cpp:183-217 | The receive loop delivers what the chunk-by-chunk definition says. |
| `SyslogFraming.TakeChunk` | src/syslog_server.cpp:202-211 | One read delivers its completed lines, and what stays buffered is within the limit. |
| `SyslogFraming.Drain` | src/syslog_server.cpp:203-208 | The inner loop delivers all complete lines and leaves what follows the last newline. |
| `SyslogFraming.BoundedLine` | src/utils.cpp:104-113 | A line is refused exactly when it is over the limit before stripping; otherwise its trailing line ends are stripped. |
| `SyslogFraming.BodyIsDelivered` | src/utils.cpp:104-113 | A body that does not end in a newline, carriage return or NUL, followed by any run of these, is delivered as that body if it all fits the limit. |
| `KeyValue.ParseKeyValueFields` | src/utils.cpp:193-244 | The position-based loop computes the recursive parser, with strict progress. |
| `KeyValue.ParseInvertsPrint` | src/utils.cpp:193-244 | Any line of words, bare and quoted fields, with any spacing, reads back to its fields, the last of equal keys winning. |
| `KeyValue.ParseCsvTail` | src/utils.cpp:218-221 | A csv field takes the trimmed rest of the line. |
| `KeyValue.ReadUnclosed` | src/utils.cpp:224-233 | An unclosed quote takes the rest of the line. |
| `Json.JsonEscape` | src/utils.cpp:150-187 | The escaping loop computes the per-byte escapes and writes no control byte. |
| `Json.HexDigitIs` | src/utils.cpp:176-180 | The digits of a control byte are written in lower case. |
| `Json.EscapeIsShortest` | src/utils.cpp:150-187 | A byte is written as itself if it can be, else with a two-character escape if there is one, else in hexadecimal. |
| `Json.DecodeQuoted` | src/utils.cpp:189-191 | A string decoder from section 7 of RFC 8259 reads back every quoted byte string and stands right behind it. |
| `Json.FieldsJson` | src/sqlite_store.cpp:104-124 | The printed object is the one over sorted keys and parses back to the map. |
| `Json.ParseInvertsPrint` | src/web_server.cpp:90-110 | An object parser from section 4 of RFC 8259 reads back every map, whatever the order of its members. |
| `Json.SortedUnique` | src/web_server.cpp:90-110 | A set of keys has one sorted listing, so the text depends on the map alone. |
| `WebSocket.BuildFrame` | src/web_server.cpp:876-892 | The frame builder writes a header, a length field of the right width and the message. |
| `WebSocket.DecodeBuilt` | src/web_server.cpp:876-892 | A decoder from section 5.2 of RFC 6455 reads the message back exactly when it is shorter than 2^63 bytes. |
| `WebSocket.StreamDecodes` | src/web_server.cpp:876-892 | A stream of frames decodes to its messages. |
| `Base64.Base64Encode` | src/web_server.cpp:303-318 | The encoding loop computes the group-wise encoding. |
| `Base64.DecodeEncode` | src/web_server.cpp:303-318 | A decoder from section 4 of RFC 4648 reads back every byte string. |
| `Sha1.PadMessage` | src/web_server.cpp:226-234 | The padding loop writes the padding of section 4 of RFC 3174. |
| `Sha1.PadLength` | src/web_server.cpp:226-234 | Padded length is a multiple of 64 and the least that fits. |
| `Sha1.PadInjective` | src/web_server.cpp:226-234 | Messages of admissible length are equal exactly when their paddings are. |
| `Sha1.ExpandBlock` | src/web_server.cpp:243-253 | The word loops compute the message schedule. |
| `Sha1.RunRounds` | src/web_server.cpp:255-283 | The 80-step loop computes the rounds that `Sha1Example.KnownAnswer` evaluates. |
| `Sha1.Sha1` | src/web_server.cpp:221-301 | The block loop computes the hash of RFC 3174 for every input; its definition gives the answer of the RFC (`Sha1Example.KnownAnswer`) and continues from block to block (`Sha1.HashResumes`). |
| `Sha1.HashResumes` | src/web_server.cpp:242-291 | Hashing can stop after any block and go on, front to back, from the state reached there. |
| `Sha1Example.KnownAnswer` | src/web_server.cpp:221-301 | The hash of `abc` is a9993e36 4706816a ba3e2571 7850c26c 9cd0d89d, through padding, schedule and all eighty rounds. |
| `Sha1.AcceptKey` | src/web_server.cpp:896-900 | The accept key is the encoded hash of key and GUID, the GUID spelled out, and decodes to that hash. |
| `Tags.RoundTrip` | src/sqlite_store.cpp:82-102 | The column reads back as it was exactly when every tag is non-empty, trimmed and free of commas. |
| `Tags.CommaSplits` | src/sqlite_store.cpp:82-102 | A tag with a comma comes back as two. |
| `Tags.TagsText` | src/sqlite_store.cpp:82-91 | The loop joins the tags with commas. |
| `Tags.SplitText` | src/utils.cpp:115-128 | The loop splits at every delimiter. |
| `Tags.ParseTags` | src/sqlite_store.cpp:93-102 | The loop keeps the trimmed non-empty pieces. |
| `Reload.ReloadRestores` | src/sqlite_store.cpp:498-529 | A table of any saves, no two rows at one address, loaded in any order into an empty store: every row becomes a record of its own, reachable by its address, and there are no others; every field to whole seconds, except that first-seen becomes last-seen and the status is recomputed. |
| `Restart.RestartExact` | src/sqlite_store.cpp:498-529 | A table of any saves, loaded in any order: every row becomes a record of its own exactly when no two rows share an address. |
| `Restart.RestartLive` | src/app.cpp:350 | Some saves, the last of them of the live devices, then a restart: the records are the live devices, one for one and one per row, exactly when every live device has a key, no two share a key or an address, and no earlier row is left under another key. |
| `LoadOrder.LoadedKeysExact` | src/sqlite_store.cpp:498-529 | Any rows with distinct keys, in any order: the records are exactly those of the rows that have no address, are the first at theirs with a mac, or share it with no row that has one; the aliases are exactly the addresses. |
| `LoadOrder.LoadedCountExact` | src/sqlite_store.cpp:498-529 | One record per row without an address and one per address. |
| `LoadOrder.RestartKeysIff` | src/app.cpp:350 | Some saves, the last of them of the live devices, then a restart in any order: the records are those of the live devices, one each under its own key, exactly when these have distinct keys and the rows that keep theirs are the live ones. |
| `LoadOrder.RekeyedRowMerges` | src/sqlite_store.cpp:498-529 | A row left under an address and the row of the same device under its mac, in either order, come back as one record under the mac. |
| `Restart.LiveRestored` | src/sqlite_store.cpp:498-529 | And then every live device is restored as of its row. |
| `Restart.FirstRestartExact` | src/sqlite_store.cpp:498-529 | After one save into an empty table, as many records as devices come back exactly when all have a key and no two share a key or an address. |
| `Restart.LoadedLoses` | src/state_store.cpp:387-406 | Of any loaded rows, two with one address never become two records. |
| `Restart.TwoBecomeOne` | src/state_store.cpp:387-406 | Any two devices with one address, loaded in either order, become one record. |
| `Restart.UpsertedSize` | src/sqlite_store.cpp:385-415 | A device without a key gets no row, devices with one key share one, and only these keep the table smaller than the list. |
| `Restart.SharedAddressReached` | src/state_store.cpp:41-70 | A device that moves to an address another record still carries leaves two records with one address. |
| `Restart.SharedKeyReached` | src/state_store.cpp:41-70 | A mac that takes over another record by its address and then moves on leaves two records with one mac, hence one row. |
| `Restart.KeylessReached` | src/state_store.cpp:41-70 | A device reported as `unknown` or `*` without an address becomes a record without a key of its own. |
| `Restart.StaleRowCaptures` | src/sqlite_store.cpp:864-869 | A run in which an address is reused after a cleanup erased its holder: the live device, alone and saved, comes back inside the record of the erased one. |
| `Restart.ErasedComesBack` | src/sqlite_store.cpp:864-869 | A run after which an erased device with an address of its own comes back as a record beside the live one. |
| `Reload.ColumnsRoundTrip` | src/sqlite_store.cpp:385-408 | The columns give back any device, to whole seconds, exactly when no text has a NUL and every tag is non-empty, trimmed and free of commas and NULs. |
| `Reload.BlankMerge` | src/state_store.cpp:419-471 | Merging a stored device into a blank record gives the restored one. |
| `Reload.UpsertDevices` | src/sqlite_store.cpp:351-420 | The loop upserts one row per device that has a key. |
| `Reload.UpsertedTwice` | src/sqlite_store.cpp:385-415 | Two saves leave the table of one save of both: nothing is ever deleted. |
| `Reload.UpsertedRows` | src/sqlite_store.cpp:385-415 | After any saves the table holds one row per key ever written, of the device last written under it. |
| `Reload.RecordsAreTidy` | src/state_store.cpp:26-30 | In every run the texts of a record are empty or informative, its mac is lower case and its tags are distinct. |
| `Reload.RecordSavableIff` | src/state_store.cpp:26-30 | So the texts of a record of any run survive a restart exactly when they survive their columns. |
| `Text.TrimText` | src/utils.cpp:13-23 | The two scanning loops compute the trimmed text. |
| `Text.TrimPadded` | src/utils.cpp:13-23 | Trimming removes any padding around a trimmed text. |
| `Text.LowerIdempotent` | src/utils.cpp:25-31 | Lower-casing twice is lower-casing once. |
| `Text.LowerIff` | src/utils.cpp:25-31 | Texts agree in lower case exactly when they agree letter by letter, in whatever case. |
| `Telemetry.UnixSecondsTowardEpoch` | src/sqlite_store.cpp:38-43 | A time is stored as the whole seconds toward the epoch. |

## Left out

- Sockets, threads, locks and HTTP routing: every call is one atomic step; `recv` appears as an arbitrary cut of the stream, its 1024-byte bound as a parameter where it matters, its errors not at all.
- SQLite itself: a table is its rows in (ts, id) order and a query returns rows as its text asks; the query text and joins are not parsed.
- `updateInterface`, interface freshness and the other summary counters, and the `devices()` listing with its sort: they would only add easy members.
- `last_log_ts_` and its touch calls: a maximum over the run that nothing else reads.
- Loading of events and attacks at start, and event fields read back from their column: the same column rules as for devices.
- Log parsing by regular expressions, configuration, Prometheus output and the OpenWrt scripts.
- Floating-point rounding: rates are reals.
- `std::sort` is modelled by insertion with any order of equal elements; its algorithm is not.
- In `Base64`, `WebSocket` and the byte helpers, shifts by whole digits are written as division and remainder; the base64 alphabet is given by its ranges.
- Retention.Tables.EnforceSizeLimit: does not state that the size cap is reached, because the source gives up after twelve rounds and the size is a measurement.
- Restart.RestartLive: what a record contains that several rows were merged into is stated only for two rows with different macs (`Restart.StaleRowCaptures`).
- SyslogReads.CutIndependentWithinIff: reads of one byte are left out; there is only one such cut.
- The event sequence number is unbounded; the source's wraps at 2^64.
- Retention.Tables.PruneRound: takes the three tables in one step, without the checkpoint and vacuum statements around it.
