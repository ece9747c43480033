# Verification of the muser console's data paths

A Dafny model of five parts of the muser console and its two exporters, with proofs of what each of them promises:

1. **The rolling history store.** One table keyed by (instance, series, ts): insert-or-replace writes, epoch-anchored
   range queries, and a maintenance pass that expires rows and then collapses old ones in place to one row a minute
   (gauge mean, counter last); the query API's parameters, down to the query text. `Bucketing`, `Store`, `Compaction`,
   `StoreRuns`, `LateWrites`, `ReadBack`, `Params`, `QueryText`.
2. **The exposition pipeline.** Driver strings are escaped and printed by an exporter in the Prometheus text exposition
   format 0.0.4 (section "Comments, help text, and type information"), re-scanned by two independent scanners on the
   console, and projected onto the series catalog, whose names are distinct. `Text`, `Labels`, `Exposition`, `Documents`,
   `Gx10`, `Mac`, `Catalog`, `CatalogNames`, `CatalogText`, `AgentCollector`, `GxToStore`, `MacToStore`,
   `Published`, `Groups`, `LooseText`.
3. **The sampler.** Latches that may only be stored on fresh evidence, over runs of ticks with missing scrapes, and
   honesty tags found by nearest prefix in a JSON tree. `HonestyTags`, `Sampler`, `TickSamples`.
4. **The mac exporter's frames and freshness.** Frame assembly, generation numbers published by a supervisor, a bounded
   cache, and once-per-change logging. `Frames`, `Freshness`.
5. **One-use credentials.** Stream tickets and pairing credentials minted, consumed, revoked, expired and evicted under a
   mutex with clock readings that may go backwards, compared in constant time. `Auth`, `Tickets`, `Pairings`,
   `PairingRuns`.

Code that changes state or walks an index is a class or a method with its loop, proved against a specification function;
the main results are lemmas about those functions, over every input or every run. Check everything with
`dafny verify dfyconfig.toml`.

## Where the code and its comments differ

The model follows the code; each of these is a theorem.

- Compaction is invisible to coarse queries for counters at every whole number of minutes, but for gauges only at
  exactly one minute: beyond that a mean of means shows (`Compaction.CoarseStepsExact`). Even at those steps it is
  invisible exactly in windows of whole minutes (`Compaction.CoarseWindowsExact`); the API accepts any window, and its
  default one is not of whole minutes.
- A second maintenance pass at the same clock is not always a no-op: a bucket straddling the expiry collapses to a
  timestamp just below it and is expired by the next pass (`Compaction.SecondPassMayExpire`, and exactly when:
  `Compaction.SecondPassIdentity`).
- A gauge sample written late into a minute already collapsed is averaged against an average
  (`LateWrites.LateWriteAveragedTwice`). The next pass cannot tell a late write from one on time exactly when it
  expires the write, or its whole bucket outlives the expiry, nothing of the bucket is newer, and it falls on the bucket
  start, or belongs to a counter, or is the bucket's first row, or is a gauge's with exactly one older row and replaces
  none of another value (`LateWrites.LateWriteInRun`, which also covers a pass on an earlier clock).
- The points-per-series cap does not bound answers at the native step, where stored rows are returned as they are
  (`Params.CapHoldsExactly`).
- Scrapes started a second apart can be handed one measurement, though the cache's maximum age is half a second: a
  scrape that waited half a second or more leaves a frame young enough for the next one
  (`Freshness.LoneScraperRepeats`). It cannot happen exactly when the earlier scrape took less than the interval less
  the maximum age (`Freshness.RepeatsExactly`).
- A reading served for the first time may be older than the cache's maximum age; only re-serving is bounded
  (`Freshness.FirstServeMayBeOld`, and exactly when: `Freshness.StaleServeExactly`).

## Model

| member | source | states |
|---|---|---|
| Bucketing.BucketPoints | crates/console-server/src/history/store.rs:378-396 | the nested index loop computes the bucketing the lemmas below are about |
| Bucketing.BucketsMeaning | crates/console-server/src/history/store.rs:374-396 | on ts-ordered points: strictly increasing multiples of the width, one per non-empty bucket and no other, each the summary of exactly its bucket's points |
| Bucketing.MeanBetween | crates/console-server/src/history/store.rs:388-390 | a gauge bucket's value lies within any bounds on its inputs |
| Bucketing.GaugeMassConserved | crates/console-server/src/history/store.rs:388-390 | the count-weighted sum of a bucketed gauge is the sum of the inputs |
| Bucketing.CountersCompose | crates/console-server/src/history/store.rs:374-396 | for counters, bucketing by a divisor first and then by the width is bucketing by the width |
| Bucketing.CounterPrefixCollapsed | crates/console-server/src/history/store.rs:374-396 | collapsing any prefix of a counter to a finer width is invisible at every multiple of it |
| Bucketing.GaugePrefixCollapsed | crates/console-server/src/history/store.rs:374-396 | collapsing whole buckets of a prefix is invisible at the same width |
| Store.HistoryStore.WriteBatch | crates/console-server/src/history/store.rs:309-331 | the last sample of a batch for a key wins; every other key is unchanged |
| Store.HistoryStore.ReadRange | crates/console-server/src/history/store.rs:333-372 | answers each requested series with its rows of the inclusive range, bucketed above the native step, and their distinct tags oldest first |
| Store.TagsMeaning | crates/console-server/src/history/store.rs:357-364 | a range's tags are exactly the readable tags its rows carry, each once |
| Store.TagsOldestFirst | crates/console-server/src/history/store.rs:357-364 | tags are listed by the first row that carries each |
| Store.SoleHonestyMeaning | crates/console-server/src/history/store.rs:83-92 | one tag speaks for a range exactly when it is the only readable tag in it |
| Store.HistoryStore.CollapseBucket | crates/console-server/src/history/store.rs:460-487 | deleting a bucket's rows and inserting its aggregate collapses that bucket and no other, and reports the rows deleted |
| Store.HistoryStore.CollapseAll | crates/console-server/src/history/store.rs:453-490 | in any order of candidates, the loop collapses every candidate bucket of the original table, and its counters are the buckets and rows that were not already settled |
| Store.HistoryStore.Maintain | crates/console-server/src/history/store.rs:398-491 | a pass is expiry followed by collapsing every bucket below the aligned cutoff, with the report it returns |
| Store.CollapsedMeaning | crates/console-server/src/history/store.rs:417-487 | after collapsing: rows at or above the cutoff untouched, below it one bucket-start row per non-empty bucket, its aggregate |
| Store.ExpiryExactly | crates/console-server/src/history/store.rs:398-416 | a row expires exactly when it is more than the retention old, however many days that is |
| Store.CutoffExactly | crates/console-server/src/history/store.rs:417-430 | a row is collapsed exactly when its minute ended at least a day ago |
| Compaction.CollapsedKeys | crates/console-server/src/history/store.rs:453-488 | the keys after a pass are the old ones less the rows of stale buckets plus one start per stale bucket |
| Compaction.ReportConservesRows | crates/console-server/src/history/store.rs:412-490 | rows before minus rows after equals expired plus collapsed minus rewritten |
| Compaction.PassTouchesOnlyOldBuckets | crates/console-server/src/history/store.rs:405-487 | rows at or above both cutoff and expiry are untouched, and no bucket without a surviving row gains one |
| Compaction.CoarsePointsSame | crates/console-server/src/history/store.rs:333-396 | on aligned windows, compaction changes no coarse answer wherever the cutoff falls |
| Compaction.CoarseTagsSubset | crates/console-server/src/history/store.rs:357-364 | a compacted range carries no tag the uncompacted range did not |
| Compaction.CoarseStepsExact | crates/console-server/src/history/store.rs:366-396 | the steps at which compaction is invisible for every table are exactly: whole minutes for counters, one minute for gauges |
| Compaction.CoarseWindowsExact | crates/console-server/src/history/store.rs:333-396 | at such a step, the windows in which compaction is invisible for every table and cutoff are exactly those over no stored instant or of whole minutes |
| Compaction.SecondPassOnlyExpires | crates/console-server/src/history/store.rs:405-490 | a second pass at the same clock rewrites nothing and can only expire bucket starts just below the expiry; a third is the identity |
| Compaction.SecondPassIdentity | crates/console-server/src/history/store.rs:405-458 | the second pass is the identity with an all-zero report exactly when no collapsed bucket straddles the expiry; never when expiry is aligned or retention at most a day |
| Compaction.SecondPassMayExpire | crates/console-server/src/history/store.rs:455-459 | a row and a clock for which the first pass keeps a bucket and the second drops it |
| StoreRuns.BatchIsRun | crates/console-server/src/history/store.rs:309-331 | a batch is the run of its samples' writes |
| StoreRuns.LogMeaning | crates/console-server/src/history/store.rs:309-331 | the uncompacted log holds exactly the last raw write of each key that every later pass retained |
| StoreRuns.PassCommutes | crates/console-server/src/history/store.rs:405-490 | one pass over a compacted table is compaction of what the log keeps at the higher cutoff |
| StoreRuns.RunIsCompactedLog | crates/console-server/src/history/store.rs:309-331 | over every on-time run of writes and passes the table is the compaction of the log at the highest cutoff used |
| StoreRuns.EveryRowAccounted | crates/console-server/src/history/store.rs:398-491 | every stored row is the last raw write of its key, or the mean or last of exactly its bucket's logged samples with the newest one's tags: no bucket is averaged twice |
| StoreRuns.CataloguedRowAccounted | crates/console-server/src/history/store.rs:460-464 | over every on-time run, below the cutoff a counter entry's row is its bucket's newest logged value and a gauge entry's the mean of the logged ones, by the entry's own kind |
| StoreRuns.CataloguedAnswer | crates/console-server/src/history/store.rs:339-368 | a query resamples a catalogued series by its own entry's kind |
| StoreRuns.CoarseQueriesForgetCompaction | crates/console-server/src/history/store.rs:333-396 | after any on-time run a coarse query answers as from the uncompacted log and claims no tag the log lacks |
| LateWrites.CollapseAgreesExactly | crates/console-server/src/history/store.rs:417-487 | for a key and whatever is written to it, collapsing leaves the table it would have left had nothing been collapsed before, exactly when the key is at or above the cutoff used or the collapse does not notice it |
| LateWrites.LateWriteHarmlessExactly | crates/console-server/src/history/store.rs:405-490 | the same for a whole pass, expiry and collapse, at any expiry and cutoff: also when the pass expires the write, and never when its bucket straddles the expiry |
| LateWrites.LateWriteInRun | crates/console-server/src/history/store.rs:398-491 | after any on-time run, one write to a key and any pass leave the compaction of the log, whatever is written, exactly under that condition |
| LateWrites.PutCommutesExactly | crates/console-server/src/history/store.rs:309-331 | before any pass, a write keeps the table a compaction of the log exactly when it is at or above the cutoff or on the start of a bucket with nothing newer |
| LateWrites.LateWriteAveragedTwice | crates/console-server/src/history/store.rs:417-420 | a concrete run with one late write whose stored mean is not the mean of its bucket's samples |
| Params.Parse | crates/console-server/src/history/api.rs:162-238 | the parser's loops and checks compute the specified result, error by error |
| Params.AcceptedIsSafe | crates/console-server/src/history/api.rs:212-230 | for every accepted query string the span and the step in milliseconds fit an i64 and the range is non-empty |
| Params.BucketedWithinCap | crates/console-server/src/history/api.rs:222-230 | a bucketed answer holds at most two points over the cap, and never more points than rows |
| Params.AcceptedAnswersWithinCap | crates/console-server/src/history/api.rs:162-238 | whatever query is accepted, every bucketed series of its answer is within two points of the cap |
| Params.CapHoldsExactly | crates/console-server/src/history/store.rs:366-368 | the cap bounds every table's answer exactly when the step is above native or the span is that short |
| QueryText.QueryAccepted | crates/console-server/src/history/api.rs:162-238 | a query printed with any keys in any order, repeated or absent, is accepted exactly when its range is non-empty, its step positive, nothing overflows and the cap holds, and then as the names and integers last given or their defaults |
| QueryText.QueryRefused | crates/console-server/src/history/api.rs:203-230 | which of the six range errors a printed query is refused with, each exactly when |
| QueryText.UnknownKeyRefused | crates/console-server/src/history/api.rs:168-177 | a key outside the vocabulary is refused by name wherever it stands in an otherwise good query |
| QueryText.MalformedIntegerRefused | crates/console-server/src/history/api.rs:240-244 | so is an integer key whose text is no i64 |
| QueryText.UnknownSeriesRefused | crates/console-server/src/history/api.rs:179-201 | a list of names is refused as unknown exactly when some name is not catalogued, and exactly those are quoted back |
| Text.IntegerRoundTrip | crates/console-server/src/history/api.rs:240-244 | every i64 printed in decimal parses back to itself |
| Text.ReadsWhatIsWritten | crates/console-server/src/history/api.rs:240-244 | a text is read as an i64 exactly when it is its decimal digits after at most one sign and the number fits |
| Text.SplitJoins | crates/console-server/src/history/api.rs:162-195 | splitting loses nothing and leaves no separator in a piece |
| Catalog.TagsRoundTrip | crates/console-server/src/history/catalog.rs:80-98 | a stored tag reads back as itself and every other text, mock included, is refused |
| CatalogNames.NamesDistinct | crates/console-server/src/history/catalog.rs:464-473 | no two catalogued series share a name |
| CatalogNames.EntryFound | crates/console-server/src/history/catalog.rs:450-454 | looking up an entry's name finds that entry, and the kind it is aggregated by is its own |
| CatalogNames.StrangerIsGauge | crates/console-server/src/history/store.rs:341 | a name of no entry is treated as a gauge |
| CatalogNames.CountersAreTotals | crates/console-server/src/history/catalog.rs:187-441 | the counters are exactly the series whose names end in _total, transfer sizes excepted |
| Labels.EscapeText | agents/gx10-exporter/src/expo.rs:171-182 | the escaping loop computes the escaped text |
| Labels.FindCloseBrace | crates/console-server/src/history/prom.rs:113-127 | the brace scanner stays in bounds, terminates, and stops at the first brace outside quotes |
| Labels.ParseLabelText | crates/console-server/src/history/prom.rs:129-201 | the label parser stays in bounds, terminates, and returns the pairs or the exit taken |
| Labels.CloseFindsPrinted | crates/console-server/src/history/prom.rs:113-127 | on a printed label set the brace found is the printed one, whatever the values hold |
| Labels.LabelsRoundTrip | crates/console-server/src/history/prom.rs:129-201 | printed label pairs with identifier keys and any values are read back pair for pair |
| Labels.ScannersAgree | crates/console-server/src/history/prom.rs:85-90 | on any text the brace scanner bounds, the label parser never reaches its unterminated-value or dangling-escape exit |
| LooseText.SpacedLabelsRead | crates/console-server/src/history/prom.rs:129-201 | pairs are read back whatever white space stands around keys, equals signs and values, with or without a comma after the last |
| LooseText.ForeignEscapeRefused | crates/console-server/src/history/prom.rs:166-180 | any escape but the three refuses the label set, wherever in a value it stands and whatever follows |
| LooseText.ForeignKeyRefused | crates/console-server/src/history/prom.rs:140-156 | so does a character that can stand neither in a key nor after one |
| Exposition.ReadLine | crates/console-server/src/history/prom.rs:78-111 | the line reader computes the specified sample or nothing |
| Exposition.LineRoundTrip | crates/console-server/src/history/prom.rs:78-111 | a printed line comes back as exactly the sample printed |
| LooseText.LooseLabelledLine | crates/console-server/src/history/prom.rs:78-111 | so is a whole line: a timestamp or anything else after the value changes nothing |
| LooseText.LoosePlainLine | crates/console-server/src/history/prom.rs:78-111 | the same for a line without labels |
| LooseText.MetricNameExactly | crates/console-server/src/history/prom.rs:203-212 | a metric name is letters, digits, underscores and colons of ASCII, no digit first |
| Documents.DocumentRoundTrip | crates/console-server/src/history/prom.rs:36-41 | a printed document parses to exactly its samples, in order: no label value adds, splits or drops a line |
| Gx10.DeviceLabels | agents/gx10-exporter/src/expo.rs:154-167 | a device's label text is the printed form of its index and answering driver strings |
| Gx10.Family | agents/gx10-exporter/src/expo.rs:131-150 | a family is appended under one header, or not at all when empty |
| Gx10.Render | agents/gx10-exporter/src/expo.rs:58-124 | the renderer produces the text of the specified document |
| Groups.RenderGrouped | agents/gx10-exporter/src/expo.rs:131-150 | every rendered document keeps each metric's samples together directly below its type line |
| Groups.RenderTypedOnce | agents/gx10-exporter/src/expo.rs:58-150 | no metric is typed twice in a rendered document |
| AgentCollector.CollectAgent | crates/console-server/src/history/sampler.rs:442-495 | the collector counts the devices and pushes exactly the specified samples |
| AgentCollector.AgentEntries | crates/console-server/src/history/catalog.rs:444-458 | the agent series selected by source are exactly the agent half of the catalog, in order |
| AgentCollector.ValueOfMeaning | crates/console-server/src/history/prom.rs:50-76 | a labelled lookup answers with a value of that label or not at all, never with a neighbour's |
| AgentCollector.LabelOfFirst | crates/console-server/src/history/prom.rs:21-28 | a key reads as the value of the first pair under it |
| AgentCollector.ValueOfFirst | crates/console-server/src/history/prom.rs:50-76 | a lookup answers with the first sample of that name and label, and with nothing exactly when there is none |
| AgentCollector.GpusSeenMeaning | crates/console-server/src/history/sampler.rs:445-470 | the devices seen are exactly the distinct gpu labels on device series |
| TickSamples.AgentSeries | crates/console-server/src/history/sampler.rs:442-495 | any document stores per agent entry the first sample of its metric and device, when finite, unless its first muser_agent_up sample is zero; nothing else |
| GxToStore.RenderRoundTrip | agents/gx10-exporter/src/expo.rs:58-182 | parsing a rendered scrape yields exactly the samples it published, whatever the driver strings; a down source yields only up 0 |
| GxToStore.ScrapeReachesStore | crates/console-server/src/history/sampler.rs:442-495 | collecting a rendered scrape appends exactly the expected batch, and nothing when the source is down |
| GxToStore.ExactlyThePublishedReadings | crates/console-server/src/history/sampler.rs:442-495 | with distinct indices that batch is exactly one agent-measured sample per present finite reading of a device below index eight, under its own series |
| GxToStore.ScrapeReadBack | crates/console-server/src/history/store.rs:309-372 | once a rendered scrape's batch is written, a query at that instant answers each published series with its device's value and the agent-measured tag alone, and every other series as before |
| GxToStore.GpusSeenCountsPublishing | crates/console-server/src/history/sampler.rs:445-470 | the devices counted are the devices with at least one published reading |
| Published.EveryDeviceSample | agents/gx10-exporter/src/expo.rs:126-167 | read back, every device sample carries a device's own figure under its metric and labels of exactly that device's index, uuid and name, each under its own key; and no figure is missing |
| Published.StoredByName | crates/console-server/src/history/sampler.rs:442-495 | each series stored from a scrape holds the very figure its name says, of the device its name says, for devices zero to seven |
| Mac.LabelsText | agents/mac-exporter/src/expo.rs:150-169 | the label loop prints the pairs, or nothing for none |
| Mac.PushField | agents/mac-exporter/src/expo.rs:117-148 | a present field appends its source comment and family, an absent one nothing |
| Mac.Render | agents/mac-exporter/src/expo.rs:37-97 | the renderer produces the text of the specified document |
| Groups.MacRenderGrouped | agents/mac-exporter/src/expo.rs:37-148 | the same grouping for every document the mac exporter renders |
| MacToStore.RenderRoundTrip | agents/mac-exporter/src/expo.rs:37-182 | parsing a rendered scrape yields exactly the samples it published, whatever the host name and line labels |
| MacToStore.SourceCommentOneLine | agents/mac-exporter/src/expo.rs:117-148 | an escaped source label cannot break out of its comment line |
| MacToStore.ScrapeReachesStore | crates/console-server/src/history/sampler.rs:442-495 | host power is stored once per present finite field when up, never when down, and counts no device |
| Published.EveryHostSample | agents/mac-exporter/src/expo.rs:117-148 | read back, every host sample is a served figure under its metric, its host label the host's name if known and its source label that figure's line |
| MacToStore.ScrapeReadBack | crates/console-server/src/history/store.rs:309-372 | once a rendered scrape's batch is written, a query at that instant answers each host series measured with its figure and the agent-measured tag alone, and every other series as before |
| ReadBack.SampleReadBack | crates/console-server/src/history/store.rs:309-372 | a sample just written reads back at its instant as its value and its honesty |
| HonestyTags.LookUpHonesty | crates/console-server/src/history/sampler.rs:571-598 | the two nested walks compute the specified tag |
| HonestyTags.HonestyForMeaning | crates/console-server/src/history/sampler.rs:559-598 | the tag of the longest prefix that resolves to a string decides, and only untagged extensions default to measured |
| HonestyTags.FieldOfSection | crates/console-server/src/history/sampler.rs:561-625 | a dotted path of two segments reads that field of that section, tagged by the field's own tag or the section's |
| HonestyTags.FieldMeaning | crates/console-server/src/history/sampler.rs:618-625 | a key finds the value beside it wherever the field stands |
| Sampler.EngineSampler.CollectMetrics | crates/console-server/src/history/sampler.rs:381-418 | one metrics document's samples and the counter carried forward |
| Sampler.EngineSampler.CollectSnapshot | crates/console-server/src/history/sampler.rs:497-543 | one snapshot's samples and the receipt carried forward |
| Sampler.EngineSampler.RunTick | crates/console-server/src/history/sampler.rs:87-203 | the engine half of a tick, whichever documents arrived |
| Sampler.CarriedCompletions | crates/console-server/src/history/sampler.rs:370-380 | the carried counter is that of the most recent tick that reported one, however many were missed |
| Sampler.CarriedReceipt | crates/console-server/src/history/sampler.rs:370-380 | the carried receipt is the most recently seen one; an empty transfer list does not clear it |
| Sampler.DecodeRateOnlyOnCompletion | crates/console-server/src/history/sampler.rs:381-418 | over any run, the decode rate is stored at a tick exactly when its counter strictly exceeds the last one reported and the rate is finite |
| TickSamples.DecodeRateByCounters | crates/console-server/src/history/sampler.rs:386-405 | with counters x last reported and y now the rate is stored if and only if y > x in the reals and the rate is finite; never on equal or not-a-number counters, a first report or none; infinities by their sign |
| Sampler.TransferLastOnlyOnNews | crates/console-server/src/history/sampler.rs:497-543 | over any run, last-transfer series are stored only when the receipt differs from the last one seen, and then whenever readable |
| Sampler.MetricsSamplesExactly | crates/console-server/src/history/sampler.rs:381-418 | the metrics plane stores exactly each catalogued series' own finite value, the decode rate only on a completion |
| TickSamples.MetricSeries | crates/console-server/src/history/sampler.rs:398-418 | a metrics series is stored exactly from the first sample of its metric carrying its quantile, when finite |
| TickSamples.QuantilesByName | crates/console-server/src/history/prom.rs:62-75 | each latency percentile series stores the sample of its own quantile |
| Sampler.SnapshotSamplesExactly | crates/console-server/src/history/sampler.rs:497-543 | the snapshot plane stores exactly each catalogued series' own value under the honesty of its path, last-transfer series only on news |
| TickSamples.SnapshotSeries | crates/console-server/src/history/sampler.rs:497-543 | at a tick a snapshot series is stored from its own entry or not at all |
| TickSamples.ReceiptIsLast | crates/console-server/src/history/sampler.rs:500-515 | the receipt is the last of the listed transfers |
| TickSamples.LastTransferFields | crates/console-server/src/history/sampler.rs:611-616 | each last-transfer series stores its field of the last listed transfer, exactly when that is news and tagged |
| TickSamples.LastTransferTimes | crates/console-server/src/history/sampler.rs:611-616 | the two nanosecond fields are stored times 0.000001 |
| TickSamples.ActiveTransfersStored | crates/console-server/src/history/sampler.rs:603-610 | transfers_active stores the number of listed transfers whose phase is not done |
| Sampler.DflashOnlyWhenConfigured | crates/console-server/src/history/sampler.rs:550-559 | the gate drops every dflash series without the runtime marker, and nothing else |
| TickSamples.DflashMarker | crates/console-server/src/history/sampler.rs:550-555 | the marker is present exactly when specdec.draft_len is a natural number |
| Sampler.SnapshotSamplesAreHonest | crates/console-server/src/history/sampler.rs:497-543 | no stored snapshot sample has a mock or missing nearest tag |
| TickSamples.UntaggedTick | crates/console-server/src/history/sampler.rs:571-598 | a snapshot that tags nothing stores the fallbacks of its _remote extension, as measured, and nothing else |
| Frames.FrameAssembler.Push | agents/mac-exporter/src/source.rs:308-327 | one line's effect on the frame in progress and what it completes or refuses |
| Frames.FramesConserveInput | agents/mac-exporter/src/source.rs:303-328 | completed frames plus the frame in progress are the input from the first header on; each has one header and appended lines never pass the limit |
| Frames.CurrentIsOpenLines | agents/mac-exporter/src/source.rs:308-327 | the frame in progress is the text of the lines since the last header |
| Frames.RefusedExactly | agents/mac-exporter/src/source.rs:316-322 | a stream is refused exactly when some non-header line would grow the open frame past 1048576 bytes of UTF-8 |
| Frames.BytesOfUtf8 | agents/mac-exporter/src/source.rs:316-318 | the lengths counted are those of the UTF-8 encoding, section 3 of RFC 3629 |
| Freshness.SamplerWorker.Publish | agents/mac-exporter/src/source.rs:214-220 | a publish takes the next generation and replaces the slot |
| Freshness.SamplerWorker.Sample | agents/mac-exporter/src/source.rs:175-203 | the wait loop returns the first frame newer than the last served, an error as it stands, or a timeout, and remembers what it served |
| Freshness.Exporter.TakeTurn | agents/mac-exporter/src/exporter.rs:128-183 | a scrape's turn under the sampling lock |
| Freshness.Exporter.ScrapeOnce | agents/mac-exporter/src/exporter.rs:114-184 | a scrape is its glance at the cache and, failing that, its turn |
| Freshness.AwaitAdvances | agents/mac-exporter/src/source.rs:175-203 | a sample only returns a generation above every one served before |
| Freshness.AwaitTimes | agents/mac-exporter/src/source.rs:175-203 | a wait ends within its budget; a frame it serves was waiting when it began or completes at the moment that ends it |
| Freshness.TurnWithinBudget | agents/mac-exporter/src/source.rs:131-203 | a turn ends within 900 ms of its start and whatever passes before its reply |
| Freshness.RunConsistent | agents/mac-exporter/src/exporter.rs:114-198 | the invariant of every run of publishes and interleaved scrapes |
| Freshness.RepliesInOrder | agents/mac-exporter/src/exporter.rs:114-198 | how any two replies of a run relate in time, generation and frame |
| Freshness.SampledGenerationsIncrease | agents/mac-exporter/src/source.rs:175-203 | generations freshly sampled strictly increase over any run |
| Freshness.RepeatedServeIsYoung | agents/mac-exporter/src/exporter.rs:114-198 | a frame served again is served within the maximum age of its completion |
| Freshness.QuickScrapeNotRepeated | agents/mac-exporter/src/exporter.rs:19-28 | however scrapes overlap, a scrape shares its frame with one started an interval later only if it took at least the interval less the maximum age |
| Freshness.LoneScraperRepeats | agents/mac-exporter/src/exporter.rs:19-28 | for every wait from half a second up to the budget, a run in which a lone scraper's next scrape is handed the same frame |
| Freshness.RepeatsExactly | agents/mac-exporter/src/exporter.rs:19-28 | some run serves one frame to a scrape of a given duration and to a scrape started an interval after it, if and only if that duration plus the maximum age reaches the interval |
| Freshness.BurstShares | agents/mac-exporter/src/exporter.rs:22-24 | a scrape that starts while another waits and takes its turn after it is served the same frame without a sample of its own |
| Freshness.RepliesSecondApartNeverRepeat | agents/mac-exporter/src/exporter.rs:114-198 | counted from reply to reply, scrapes a second apart never return the same frame |
| Freshness.FirstServeMayBeOld | agents/mac-exporter/src/exporter.rs:30-40 | a run in which a first-served frame is as old as one likes |
| Freshness.AwaitNews | agents/mac-exporter/src/source.rs:180-198 | a wait with nothing to take at once serves a frame exactly when the first wake-up that brings news ends in one |
| Freshness.StaleServeExactly | agents/mac-exporter/src/exporter.rs:114-184 | a turn, however long it waits, serves a reading past the maximum age exactly when nothing fresh is cached and a frame that old was already waiting, or the first news of the wait is a frame and answering alone took longer |
| Freshness.LoggedOncePerChange | agents/mac-exporter/src/exporter.rs:200-209 | over any run the log count is the number of changes in what was served, cached replies included |
| Auth.ConstantTimeEq | crates/console-server/src/auth.rs:12-20 | accepts exactly equal byte strings |
| Tickets.TicketTable.MintTicket | crates/console-server/src/state.rs:205-224 | a mint drops expired entries and adds its own |
| Tickets.TicketTable.ConsumeTicket | crates/console-server/src/state.rs:413-433 | a consumption spends a live ticket of that instance; refused, it changes nothing but expired entries |
| Tickets.TableMeaning | crates/console-server/src/state.rs:205-224 | after any run the table holds a token exactly when some mint of it was spared by every operation since |
| Tickets.GrantedExactly | crates/console-server/src/state.rs:413-433 | a consumption is granted exactly when an earlier mint for that instance, less than 30 s old, is unexpired by every clock read since and was neither re-minted nor spent |
| Tickets.SpentAtMostOnce | crates/console-server/src/state.rs:413-433 | between two granted consumptions of a token it was minted anew |
| Tickets.FreshTicketSpentOnce | crates/console-server/src/state.rs:413-433 | a token minted once is spent at most once, however the clocks run |
| Tickets.WrongInstanceExactly | crates/console-server/src/state.rs:409-433 | whatever the clocks read, after an attempt at the wrong instance the right holder is served exactly as if nobody had tried and its clock had read the later of the two |
| Pairings.TrimmedWithout | crates/console-server/src/state.rs:327-339 | evicting the issuer's earliest entry does not change which four are its latest |
| Pairings.PairingTable.MintPairing | crates/console-server/src/state.rs:299-349 | the eviction loop terminates and leaves all but the issuer's latest four live entries out, everyone else's in order, and the new one last |
| Pairings.PairingTable.ConsumePairing | crates/console-server/src/state.rs:353-362 | a consumption spends the first live match; refused, it changes nothing but expired entries |
| Pairings.PairingTable.RevokePairing | crates/console-server/src/state.rs:364-387 | a valid session revokes its own live pairing by identifier; without a session nothing is touched |
| PairingRuns.AtMostFivePending | crates/console-server/src/state.rs:327-339 | in every reachable state each session has at most five pending pairings |
| PairingRuns.CountTrimmed | crates/console-server/src/state.rs:327-339 | eviction keeps as many of the issuer's as fit beside a new one and all of everyone else's |
| PairingRuns.OperationIsOnePass | crates/console-server/src/state.rs:319-347 | expiry, eviction and removal come to one order-preserving pass that decides each entry on its own |
| PairingRuns.TableMeaning | crates/console-server/src/state.rs:319-347 | after any run the table holds a minted pairing exactly when every later operation spared it |
| PairingRuns.GrantedExactly | crates/console-server/src/state.rs:449-464 | a consumption is granted exactly when an earlier valid mint had that token and origin, is unexpired, and was neither spent, revoked nor evicted since |
| PairingRuns.SpentAtMostOnce | crates/console-server/src/state.rs:350-362 | one pairing is spent at most once over any run and any clock readings |
| PairingRuns.HonouredWithinCap | crates/console-server/src/state.rs:319-347 | a pairing not spent, revoked or expired is honoured unless its own session minted five more |
| PairingRuns.SixthMintEvicts | crates/console-server/src/state.rs:327-339 | after four more mints by a session, none spent, revoked or expired, its sixth mint leaves the first one out |
| PairingRuns.WrongOriginExactly | crates/console-server/src/state.rs:449-464 | whatever the clocks read, after an attempt from the wrong origin the right one is served exactly as if nobody had tried and its clock had read the later of the two |

## Left out

- SQLite, the writer thread and its command channel: commands are atomic steps on a map because one thread owns the connection; a failed transaction is not modelled.
- Floating-point rounding: sums and means are over reals; only the non-finite cases the code tests for are kept apart.
- Timestamps before the epoch: stored timestamps and pass clocks are non-negative because `now_ms` is; query bounds may be negative.
- Number text: printing and parsing of floats is a parameter; the round trips ask only that the text of each published value is white-space-free, has no opening brace and reads back as that value.
- UTF-8: text is a sequence of characters; the scanners of `prom.rs` walk bytes but only ever test for ASCII ones. Frame sizes are counted in UTF-8 bytes.
- Comment wording: HELP texts, the provenance line and the failure line are parameters required to be one line.
- Freshness.Exporter.TakeTurn: a turn takes effect when its wait ends, so the cache is read and written in one order; glances and publications may fall anywhere in a turn, before or after that moment. Reading and replacing the cached value are single steps, as under its mutex.
- Freshness.SamplerWorker.Sample: what is published during the wait is given as groups, one per wake-up, each timed by its last publication; what passes between that and the reply is the turn's slack. A stopped supervisor is not modelled.
- Sampler.CarriedReceipt: the receipt carried is the last transfer itself, fields in document order, where the code keeps its printed JSON; the two tell apart the same receipts except that a real has no negative zero.
- Tickets and pairings: randomness, base64 and SHA-256 are not modelled; credentials are byte strings, a pairing token is known by its hash, and the run theorems that need fresh draws say so.
- Sessions, cookies, origins and CSRF: whether a request has a valid session, and whose, is an input to the pairing operations.
- Process supervision (`ensure_started`, `run_once`), powermetrics parsing, NVML and host detection.
- HTTP routing, proxying, the stream bridge, TLS, configuration and logging text.
- Catalog units, agent reachability labels and overflow logging: display and log text that no modelled operation reads.
