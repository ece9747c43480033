/**
 One tick of the engine's sampler, series by series: which value of which document is stored under each
 name. Names are distinct, so a stored sample's series tells which catalog entry put it there.
 */
module TickSamples {
  import opened Prelude
  import opened Labels
  import opened Exposition
  import opened Bucketing
  import opened Catalog
  import opened CatalogNames
  import opened Store
  import opened HonestyTags
  import opened AgentCollector
  import opened Sampler

  // ---- a series has one entry -----------------------------------------------------------------

  lemma SameEntry(a: Series, b: Series)
    requires a in ENGINE_METRICS + ENGINE_SNAPSHOT && b in ENGINE_METRICS + ENGINE_SNAPSHOT && a.name == b.name
    ensures a == b
  {
    hide ENGINE_METRICS, ENGINE_SNAPSHOT, AgentCatalog, Lookup, KindOf;
    EntryFound(a);
    EntryFound(b);
  }

  lemma EntrySources(e: Series)
    ensures e in ENGINE_METRICS ==> e.source == Metrics
    ensures e in ENGINE_SNAPSHOT ==> e.source == Snapshot
  {
    MetricsAreMetrics();
    SnapshotsAreSnapshots();
  }

  /** The one way a snapshot series comes to be stored at a tick. */
  ghost predicate SnapshotStores(carry: Carry, tick: Tick, instance: string, ts: nat, e: Series, s: Sample) {
    && tick.snapshot.Some? && e.honestyPath.Some?
    && HonestyFor(tick.snapshot.value, e.honestyPath.value) == Some(s.honesty)
    && SnapshotValue(tick.snapshot.value, e.extraction) == Some(s.value)
    && s == Sample(instance, e.name, ts, s.value, Snapshot, s.honesty)
    && (e.extraction.TransferLast? ==> IsNews(carry.receipt, Receipt(tick.snapshot.value)))
    && ("dflash_" <= e.name ==> DflashConfigured(tick.snapshot))
  }

  lemma SnapshotSeries(carry: Carry, tick: Tick, instance: string, ts: nat, e: Series, s: Sample)
    requires e in ENGINE_SNAPSHOT && s.series == e.name
    ensures s in TickBatch(carry, tick, instance, ts) <==> SnapshotStores(carry, tick, instance, ts, e, s)
  {
    hide ENGINE_METRICS, ENGINE_SNAPSHOT, TickBatch, MetricsPart, SnapshotPart, HonestyFor, SnapshotValue, PromValue,
      Receipt, DflashConfigured, IsDflash, IsNews, Completions, Completed;
    DflashOnlyWhenConfigured(carry, tick, instance, ts, s);
    SnapshotSamplesExactly(carry, tick, instance, ts, s);
    MetricsSamplesExactly(carry, tick, instance, ts, s);
    EntrySources(e);
    if s in MetricsPart(carry, tick, instance, ts) {
      var m :| m in ENGINE_METRICS && m.name == s.series;
      EntrySources(m);
      SameEntry(m, e);
    } else if s in SnapshotPart(carry, tick, instance, ts) {
      var f :| f in ENGINE_SNAPSHOT && f.honestyPath.Some?
        && HonestyFor(tick.snapshot.value, f.honestyPath.value) == Some(s.honesty)
        && SnapshotValue(tick.snapshot.value, f.extraction) == Some(s.value)
        && s == Sample(instance, f.name, ts, s.value, Snapshot, s.honesty)
        && (f.extraction.TransferLast? ==> IsNews(carry.receipt, Receipt(tick.snapshot.value)));
      SameEntry(f, e);
    }
  }

  /** The one way a metrics series comes to be stored: the first sample of its metric and quantile, when finite. */
  ghost predicate MetricStores(carry: Carry, tick: Tick, instance: string, ts: nat, e: Series, s: Sample) {
    && tick.metrics.Some? && e.extraction.Prometheus?
    && FirstReads(tick.metrics.value, e.extraction.metric, QuantileOf(e.extraction), Finite(s.value))
    && s == Sample(instance, e.name, ts, s.value, Metrics, Measured)
    && (e.name == DECODE_RATE ==> Completed(carry.completions, Completions(tick.metrics.value)))
    && ("dflash_" <= e.name ==> DflashConfigured(tick.snapshot))
  }

  ghost function QuantileOf(extraction: Extraction): Option<LabelPair> {
    if extraction.Prometheus? && extraction.quantile.Some? then Some(LabelPair("quantile", extraction.quantile.value)) else None
  }

  ghost predicate FirstReads(samples: seq<Measurement>, metric: string, selector: Option<LabelPair>, value: F64) {
    exists k :: FirstWanted(samples, k, metric, selector) && samples[k].value == value
  }

  lemma PromReads(samples: seq<Measurement>, e: Series, value: F64)
    requires e.extraction.Prometheus?
    ensures PromValue(samples, e) == Some(value) <==> FirstReads(samples, e.extraction.metric, QuantileOf(e.extraction), value)
  {
    hide ValueOf, FirstReads;
    LookupReads(samples, e.extraction.metric, QuantileOf(e.extraction), value);
  }

  lemma MetricSeries(carry: Carry, tick: Tick, instance: string, ts: nat, e: Series, s: Sample)
    requires e in ENGINE_METRICS && s.series == e.name
    ensures s in TickBatch(carry, tick, instance, ts) <==> MetricStores(carry, tick, instance, ts, e, s)
  {
    hide ENGINE_METRICS, ENGINE_SNAPSHOT, TickBatch, MetricsPart, SnapshotPart, HonestyFor, SnapshotValue, PromValue,
      Receipt, DflashConfigured, IsDflash, IsNews, Completions, Completed, QuantileOf, FirstReads, DECODE_RATE;
    DflashOnlyWhenConfigured(carry, tick, instance, ts, s);
    SnapshotSamplesExactly(carry, tick, instance, ts, s);
    MetricsSamplesExactly(carry, tick, instance, ts, s);
    EntrySources(e);
    ArePrometheus(e);
    if tick.metrics.Some? {
      PromReads(tick.metrics.value, e, Finite(s.value));
    }
    if s in SnapshotPart(carry, tick, instance, ts) {
      var m :| m in ENGINE_SNAPSHOT && m.name == s.series;
      EntrySources(m);
      SameEntry(m, e);
    } else if s in MetricsPart(carry, tick, instance, ts) {
      var f :| f in ENGINE_METRICS && PromValue(tick.metrics.value, f) == Some(Finite(s.value))
        && s == Sample(instance, f.name, ts, s.value, Metrics, Measured)
        && (f.name == DECODE_RATE ==> Completed(carry.completions, Completions(tick.metrics.value)));
      SameEntry(f, e);
    }
  }

  lemma ArePrometheus(e: Series)
    requires e in ENGINE_METRICS
    ensures e.extraction.Prometheus?
  {
    MetricNamesApart();
    hide ENGINE_METRICS;
  }

  // ---- the agent plane, for any document ----------------------------------------------------------------

  ghost function DeviceOf(extraction: Extraction): Option<LabelPair> {
    if extraction.AgentMetric? && extraction.gpu.Some? then Some(LabelPair("gpu", extraction.gpu.value)) else None
  }

  /** The one way an agent series comes to be stored, whatever the exporter printed: not while it says it is down. */
  ghost predicate AgentStores(samples: seq<Measurement>, instance: string, ts: nat, e: Series, s: Sample) {
    && !FirstReads(samples, "muser_agent_up", None, Finite(0.0)) && e.extraction.AgentMetric?
    && FirstReads(samples, e.extraction.agentMetric, DeviceOf(e.extraction), Finite(s.value))
    && s == Sample(instance, e.name, ts, s.value, Agent, AgentMeasured)
  }

  lemma LookupReads(samples: seq<Measurement>, metric: string, selector: Option<LabelPair>, value: F64)
    ensures ValueOf(samples, metric, selector) == Some(value) <==> FirstReads(samples, metric, selector, value)
  {
    hide ValueOf, Wanted;
    ValueOfFirst(samples, metric, selector);
    if ValueOf(samples, metric, selector).Some? {
      var i :| FirstWanted(samples, i, metric, selector) && samples[i].value == ValueOf(samples, metric, selector).value;
      forall k | FirstWanted(samples, k, metric, selector)
        ensures k == i
      {
      }
    }
  }

  lemma {:induction false} CollectedFrom(samples: seq<Measurement>, entries: seq<Series>, instance: string, ts: nat, s: Sample)
    ensures s in Collected(samples, entries, instance, ts) <==>
      exists e :: e in entries && s in Stored(EntryValue(samples, e), instance, ts, e.name)
  {
    hide EntryValue, Stored;
    if entries != [] {
      assert entries == [entries[0]] + entries[1..];
      CollectedFrom(samples, entries[1..], instance, ts, s);
    }
  }

  lemma {:induction false} DevicesAreMetrics(devices: seq<string>)
    ensures forall e :: e in AgentDevices(devices) ==> e.extraction.AgentMetric?
  {
    if devices != [] {
      DevicesAreMetrics(devices[1..]);
    }
  }

  lemma AgentsAreMetrics()
    ensures forall e :: e in AgentCatalog() ==> e.extraction.AgentMetric?
  {
    DevicesAreMetrics(GPU_LABELS);
    hide AgentDevices, GPU_LABELS;
  }

  lemma EntryStored(samples: seq<Measurement>, e: Series, instance: string, ts: nat, s: Sample)
    requires e.extraction.AgentMetric?
    ensures s in Stored(EntryValue(samples, e), instance, ts, e.name) <==>
      && FirstReads(samples, e.extraction.agentMetric, DeviceOf(e.extraction), Finite(s.value))
      && s == Sample(instance, e.name, ts, s.value, Agent, AgentMeasured)
  {
    hide ValueOf, FirstReads;
    LookupReads(samples, e.extraction.agentMetric, DeviceOf(e.extraction), Finite(s.value));
  }

  /**
   What one scrape of any agent stores: per agent entry the first sample of its metric and device, when
   finite, unless the first `muser_agent_up` sample is zero; nothing outside the agent catalog.
   */
  lemma AgentSeries(samples: seq<Measurement>, instance: string, ts: nat, s: Sample)
    ensures s in AgentBatch(samples, instance, ts) <==>
      exists e :: e in AgentCatalog() && AgentStores(samples, instance, ts, e, s)
  {
    hide AgentCatalog, All, WithSource, Collected, EntryValue, Stored, ValueOf, FirstReads, DeviceOf;
    AgentEntries();
    AgentsAreMetrics();
    LookupReads(samples, "muser_agent_up", None, Finite(0.0));
    CollectedFrom(samples, AgentCatalog(), instance, ts, s);
    forall e | e in AgentCatalog()
      ensures s in Stored(EntryValue(samples, e), instance, ts, e.name) <==>
        && FirstReads(samples, e.extraction.agentMetric, DeviceOf(e.extraction), Finite(s.value))
        && s == Sample(instance, e.name, ts, s.value, Agent, AgentMeasured)
    {
      EntryStored(samples, e, instance, ts, s);
    }
  }

  // ---- the decode-rate latch, on the counters themselves -------------------------------------------

  lemma ReportedIs(ticks: seq<Tick>, i: nat)
    requires i < |ticks|
    ensures ReportedAt(ticks, i) ==
      if ticks[i].metrics.Some? then ValueOf(ticks[i].metrics.value, "muser_completion_tokens_total", None) else None
  {
  }

  ghost predicate StoresRate(ticks: seq<Tick>, i: nat, instance: string, ts: nat)
    requires i < |ticks|
  {
    exists s :: s in TickBatch(CarryAfter(ticks[..i]), ticks[i], instance, ts) && s.series == "request_decode_tok_s"
  }

  ghost predicate RateRead(tick: Tick) {
    && tick.metrics.Some?
    && var rate := ValueOf(tick.metrics.value, "muser_request_decode_tok_s", None);
       rate.Some? && rate.value.Finite?
  }

  /**
   Over any run, with a counter of `x` last reported and one of `y` reported now: the rate is stored if
   and only if `y` is the greater and the rate is finite. A counter that is not a number, one that has
   not moved, a first report and a tick without a report never store it.
   */
  lemma DecodeRateByCounters(ticks: seq<Tick>, i: nat, instance: string, ts: nat)
    requires i < |ticks|
    ensures forall j: nat, x, y :: LastReport(ticks, i, j) && ReportedAt(ticks, j) == Some(Finite(x)) && ReportedAt(ticks, i) == Some(Finite(y)) ==>
      (StoresRate(ticks, i, instance, ts) <==> y > x && RateRead(ticks[i]))
    ensures forall j: nat, sign :: LastReport(ticks, i, j) && ReportedAt(ticks, j) == Some(Infinite(sign)) && ReportedAt(ticks, i).Some? ==>
      (StoresRate(ticks, i, instance, ts) <==>
        sign && ReportedAt(ticks, i).value !in {NaN, Infinite(true)} && RateRead(ticks[i]))
    ensures forall j: nat, x, sign :: LastReport(ticks, i, j) && ReportedAt(ticks, j) == Some(Finite(x)) && ReportedAt(ticks, i) == Some(Infinite(sign)) ==>
      (StoresRate(ticks, i, instance, ts) <==> !sign && RateRead(ticks[i]))
    ensures forall j: nat :: LastReport(ticks, i, j) && ReportedAt(ticks, j) in {Some(NaN), ReportedAt(ticks, i)} ==>
      !StoresRate(ticks, i, instance, ts)
    ensures ReportedAt(ticks, i) in {None, Some(NaN)} || (forall j: nat :: !LastReport(ticks, i, j)) ==>
      !StoresRate(ticks, i, instance, ts)
  {
    hide TickBatch, CarryAfter, ReportedAt, ValueOf;
    DecodeRateOnlyOnCompletion(ticks, i, instance, ts);
    forall j: nat, k: nat | LastReport(ticks, i, j) && LastReport(ticks, i, k)
      ensures j == k
    {
    }
  }

  // ---- transfers -------------------------------------------------------------------------------------

  /** The number a JSON value stands for; nothing else stands for one. */
  ghost predicate Stands(value: Json, x: real) {
    || value == Number(Fraction(x))
    || exists i: int :: x == i as real && (value == Number(Negative(i)) || (i >= 0 && value == Number(Natural(i))))
  }

  lemma ReadsNumbers(value: Json, x: real)
    ensures AsF64(value) == Some(x) <==> Stands(value, x)
  {
    if value.Number? && value.number.Natural? {
      var i: int := value.number.n;
      assert i as real == value.number.n as real;
    }
  }

  /** The receipt is the last of the transfers the snapshot lists. */
  lemma ReceiptIsLast(snapshot: Json, receipt: Json)
    ensures Receipt(snapshot) == Some(receipt) <==>
      exists items :: Get(snapshot, "transfers") == Some(Array(items)) && items != [] && items[|items| - 1] == receipt
  {
    hide Get;
    var listed := Get(snapshot, "transfers");
    assert listed.Some? && listed.value.Array? ==> listed == Some(Array(listed.value.items));
  }

  ghost function Unfinished(items: seq<Json>): set<int> {
    set i | 0 <= i < |items| && Get(items[i], "phase") != Some(Text("done"))
  }

  lemma {:induction false} ActiveAppend(items: seq<Json>, last: Json)
    ensures Active(items + [last]) == Active(items) + Active([last])
  {
    hide Get;
    if items != [] {
      assert (items + [last])[1..] == items[1..] + [last];
      ActiveAppend(items[1..], last);
    } else {
      assert [] + [last] == [last];
    }
  }

  /** The transfers counted as active are those whose phase is anything but done. */
  lemma {:induction false} ActiveCounts(items: seq<Json>)
    ensures Active(items) == |Unfinished(items)|
  {
    hide Get;
    if items != [] {
      var n := |items| - 1;
      var front, last := items[..n], items[n];
      assert items == front + [last] && [last][1..] == [];
      ActiveCounts(front);
      ActiveAppend(front, last);
      assert Active([last]) == (if Get(last, "phase") == Some(Text("done")) then 0 else 1) + Active([last][1..]);
      assert Unfinished(items) == Unfinished(front) + if Get(last, "phase") == Some(Text("done")) then {} else {n};
    }
  }

  ghost function Times(x: real, scale: real): real {
    x * scale
  }

  /** A field of the last listed transfer holds the number `x`. */
  ghost predicate LastHolds(snapshot: Json, field: string, x: real) {
    exists items, value :: Get(snapshot, "transfers") == Some(Array(items)) && items != []
      && Get(items[|items| - 1], field) == Some(value) && Stands(value, x)
  }

  lemma LastField(snapshot: Json, field: string, x: real)
    ensures LastHolds(snapshot, field, x) <==>
      && Receipt(snapshot).Some? && Get(Receipt(snapshot).value, field).Some?
      && AsF64(Get(Receipt(snapshot).value, field).value) == Some(x)
  {
    hide Get, AsF64, Stands, Receipt;
    if Receipt(snapshot).Some? {
      ReceiptIsLast(snapshot, Receipt(snapshot).value);
      if Get(Receipt(snapshot).value, field).Some? {
        ReadsNumbers(Get(Receipt(snapshot).value, field).value, x);
      }
    }
    if LastHolds(snapshot, field, x) {
      var items, value :| Get(snapshot, "transfers") == Some(Array(items)) && items != []
        && Get(items[|items| - 1], field) == Some(value) && Stands(value, x);
      ReceiptIsLast(snapshot, items[|items| - 1]);
      ReadsNumbers(value, x);
    }
  }

  lemma LastRead(snapshot: Json, field: string, scale: real)
    ensures match SnapshotValue(snapshot, TransferLast(field, scale))
      case Some(v) => exists x :: LastHolds(snapshot, field, x) && v == Times(x, scale)
      case None => forall x :: !LastHolds(snapshot, field, x)
  {
    forall x
      ensures LastHolds(snapshot, field, x) <==>
        && Receipt(snapshot).Some? && Get(Receipt(snapshot).value, field).Some?
        && AsF64(Get(Receipt(snapshot).value, field).value) == Some(x)
    {
      LastField(snapshot, field, x);
    }
    hide Get, AsF64, Receipt, LastHolds;
    if SnapshotValue(snapshot, TransferLast(field, scale)).Some? {
      assert LastHolds(snapshot, field, AsF64(Get(Receipt(snapshot).value, field).value).value);
    }
  }

  lemma OneNumber(snapshot: Json, field: string, x: real, y: real)
    requires LastHolds(snapshot, field, x) && LastHolds(snapshot, field, y)
    ensures x == y
  {
    LastField(snapshot, field, x);
    LastField(snapshot, field, y);
  }

  /** Stored from the last transfer, on a receipt that is news: one of its fields, times a scale. */
  ghost predicate TransferStores(carry: Carry, tick: Tick, instance: string, ts: nat, s: Sample, field: string, scale: real) {
    && tick.snapshot.Some? && IsNews(carry.receipt, Receipt(tick.snapshot.value))
    && HonestyFor(tick.snapshot.value, "transfers") == Some(s.honesty)
    && s == Sample(instance, s.series, ts, s.value, Snapshot, s.honesty)
    && exists x :: LastHolds(tick.snapshot.value, field, x) && s.value == Times(x, scale)
  }

  lemma TransferSeries(carry: Carry, tick: Tick, instance: string, ts: nat, s: Sample, e: Series)
    requires e in RECEIPT_SERIES && s.series == e.name
    ensures e.extraction.TransferLast?
    ensures s in TickBatch(carry, tick, instance, ts) <==>
      TransferStores(carry, tick, instance, ts, s, e.extraction.field, e.extraction.scale)
  {
    InSnapshot(e);
    SnapshotNamesApart();
    hide RECEIPT_SERIES, ENGINE_SNAPSHOT, TickBatch, HonestyFor, SnapshotValue, Receipt, IsNews, IsReceiptSeries, IsDflash,
      DflashConfigured, LastHolds, Times;
    SnapshotSeries(carry, tick, instance, ts, e, s);
    if tick.snapshot.Some? {
      var snapshot, field, scale := tick.snapshot.value, e.extraction.field, e.extraction.scale;
      LastRead(snapshot, field, scale);
      forall x, y | LastHolds(snapshot, field, x) && LastHolds(snapshot, field, y)
        ensures x == y
      {
        OneNumber(snapshot, field, x, y);
      }
    }
  }

  lemma InSnapshot(e: Series)
    requires e in RECEIPT_SERIES
    ensures e in ENGINE_SNAPSHOT && e.extraction.TransferLast? && e.honestyPath == Some("transfers")
  {
    assert e.extraction.TransferLast? && e.honestyPath == Some("transfers");
    hide SECTION_SERIES, RECEIPT_SERIES, DISAGG_SERIES;
  }

  lemma ReceiptFields()
    ensures |RECEIPT_SERIES| == 5
    ensures RECEIPT_SERIES[0].name == "transfer_last_bytes_total" && RECEIPT_SERIES[0].extraction == TransferLast("bytes_total", 1.0)
    ensures RECEIPT_SERIES[1].name == "transfer_last_throughput_gbps" && RECEIPT_SERIES[1].extraction == TransferLast("throughput_gbps", 1.0)
    ensures RECEIPT_SERIES[2].name == "transfer_last_hidden_pct" && RECEIPT_SERIES[2].extraction == TransferLast("hidden_pct", 1.0)
  {
  }

  lemma ReceiptTimes()
    ensures |RECEIPT_SERIES| == 5
    ensures RECEIPT_SERIES[3].name == "transfer_last_control_ms" && RECEIPT_SERIES[3].extraction == TransferLast("_control_ns", 0.000001)
    ensures RECEIPT_SERIES[4].name == "transfer_last_accept_ms" && RECEIPT_SERIES[4].extraction == TransferLast("_accept_ns", 0.000001)
  {
  }

  /**
   What a last-transfer series stores: its field of the last listed transfer, when that transfer is news
   and under the tag `transfers` has.
   */
  lemma LastTransferFields(carry: Carry, tick: Tick, instance: string, ts: nat, s: Sample)
    ensures s.series == "transfer_last_bytes_total" ==>
      (s in TickBatch(carry, tick, instance, ts) <==> TransferStores(carry, tick, instance, ts, s, "bytes_total", 1.0))
    ensures s.series == "transfer_last_throughput_gbps" ==>
      (s in TickBatch(carry, tick, instance, ts) <==> TransferStores(carry, tick, instance, ts, s, "throughput_gbps", 1.0))
    ensures s.series == "transfer_last_hidden_pct" ==>
      (s in TickBatch(carry, tick, instance, ts) <==> TransferStores(carry, tick, instance, ts, s, "hidden_pct", 1.0))
  {
    var entries := RECEIPT_SERIES;
    ReceiptFields();
    hide RECEIPT_SERIES, TickBatch, TransferStores;
    if s.series == entries[0].name {
      TransferSeries(carry, tick, instance, ts, s, entries[0]);
    } else if s.series == entries[1].name {
      TransferSeries(carry, tick, instance, ts, s, entries[1]);
    } else if s.series == entries[2].name {
      TransferSeries(carry, tick, instance, ts, s, entries[2]);
    }
  }

  /** The two nanosecond fields are stored in milliseconds. */
  lemma LastTransferTimes(carry: Carry, tick: Tick, instance: string, ts: nat, s: Sample)
    ensures s.series == "transfer_last_control_ms" ==>
      (s in TickBatch(carry, tick, instance, ts) <==> TransferStores(carry, tick, instance, ts, s, "_control_ns", 0.000001))
    ensures s.series == "transfer_last_accept_ms" ==>
      (s in TickBatch(carry, tick, instance, ts) <==> TransferStores(carry, tick, instance, ts, s, "_accept_ns", 0.000001))
  {
    var entries := RECEIPT_SERIES;
    ReceiptTimes();
    hide RECEIPT_SERIES, TickBatch, TransferStores;
    if s.series == entries[3].name {
      TransferSeries(carry, tick, instance, ts, s, entries[3]);
    } else if s.series == entries[4].name {
      TransferSeries(carry, tick, instance, ts, s, entries[4]);
    }
  }

  // ---- a field of a section -------------------------------------------------------------------------

  /** The snapshot's `section` has a `field` that stands for `x`. */
  ghost predicate Holds(snapshot: Json, section: string, field: string, x: real) {
    exists inner, value :: Get(snapshot, section) == Some(inner) && Get(inner, field) == Some(value) && Stands(value, x)
  }

  lemma SectionRead(snapshot: Json, section: string, field: string, x: real)
    requires '.' !in section && '.' !in field
    ensures SnapshotValue(snapshot, SnapshotPath(section + "." + field)) == Some(x) <==> Holds(snapshot, section, field, x)
  {
    FieldOfSection(snapshot, section, field);
    hide JsonAt, Get, AsF64, Stands, HonestyFor;
    var value := JsonAt(snapshot, section + "." + field);
    if value.Some? {
      ReadsNumbers(value.value, x);
    }
  }

  /** The optional runtime counts as configured exactly when the snapshot's draft length is a natural number. */
  lemma DflashMarker(snapshot: Option<Json>)
    ensures DflashConfigured(snapshot) <==>
      exists value, section, n: nat ::
        snapshot == Some(value) && Get(value, "specdec") == Some(section) && Get(section, "draft_len") == Some(Number(Natural(n)))
  {
    hide JsonAt, Get, HonestyFor;
    if snapshot.Some? {
      FieldOfSection(snapshot.value, "specdec", "draft_len");
      assert "specdec" + "." + "draft_len" == "specdec.draft_len";
      var marker := JsonAt(snapshot.value, "specdec.draft_len");
      if DflashConfigured(snapshot) {
        assert marker.value == Number(Natural(marker.value.number.n));
      }
    }
  }

  // ---- a snapshot that says nothing about honesty -----------------------------------------------------

  ghost predicate SaysNothing(snapshot: Json) {
    var sidecar := Get(snapshot, "_honesty");
    sidecar.None? || forall segments :: TextAt(sidecar.value, segments) == None
  }

  lemma SilentHonesty(snapshot: Json, path: string)
    requires SaysNothing(snapshot)
    ensures HonestyFor(snapshot, path) == if path != "" && path[0] == '_' then Some(Measured) else None
  {
    hide Get, TextAt, HonestyFor;
    HonestyForMeaning(snapshot, path);
  }

  const REMOTE_FALLBACKS := Snap("remote_fallbacks_total", Counter, "_remote.fallbacks", "_remote")

  lemma ExtensionEntries(e: Series)
    requires e in ENGINE_SNAPSHOT && e.honestyPath.Some? && e.honestyPath.value != "" && e.honestyPath.value[0] == '_'
    ensures e == REMOTE_FALLBACKS
  {
    ReceiptPaths();
    SectionPaths();
    DisaggPaths();
    hide SECTION_SERIES, RECEIPT_SERIES, DISAGG_SERIES, REMOTE_FALLBACKS;
  }

  lemma SectionPaths()
    ensures REMOTE_FALLBACKS in SECTION_SERIES
    ensures forall e :: e in SECTION_SERIES && e.honestyPath.Some? && e.honestyPath.value != "" && e.honestyPath.value[0] == '_' ==> e == REMOTE_FALLBACKS
  {
    assert SECTION_SERIES[6] == REMOTE_FALLBACKS;
  }

  lemma ReceiptPaths()
    ensures forall e :: e in RECEIPT_SERIES && e.honestyPath.Some? && e.honestyPath.value != "" ==> e.honestyPath.value[0] == 't'
  {
  }

  lemma DisaggPaths()
    ensures forall e :: e in DISAGG_SERIES && e.honestyPath.Some? && e.honestyPath.value != "" ==> e.honestyPath.value[0] == 'e'
  {
  }

  /** With nothing tagged, one engine extension is stored, as measured, and nothing else of the snapshot. */
  lemma UntaggedTick(carry: Carry, snapshot: Json, instance: string, ts: nat, s: Sample)
    requires SaysNothing(snapshot)
    ensures s in TickBatch(carry, Tick(None, Some(snapshot)), instance, ts) <==>
      && s == Sample(instance, "remote_fallbacks_total", ts, s.value, Snapshot, Measured)
      && Holds(snapshot, "_remote", "fallbacks", s.value)
  {
    hide ENGINE_SNAPSHOT, ENGINE_METRICS, TickBatch, Receipt, SnapshotPart, SnapshotValue, HonestyFor, IsNews, SaysNothing, Holds, TextAt, DflashConfigured;
    var tick := Tick(None, Some(snapshot));
    SectionPaths();
    hide SECTION_SERIES;
    InSections(REMOTE_FALLBACKS);
    SilentHonesty(snapshot, "_remote");
    SectionRead(snapshot, "_remote", "fallbacks", s.value);
    assert "_remote" + "." + "fallbacks" == "_remote.fallbacks";
    NotDflash("remote_fallbacks_total");
    if s.series == "remote_fallbacks_total" {
      SnapshotSeries(carry, tick, instance, ts, REMOTE_FALLBACKS, s);
    } else if s in TickBatch(carry, tick, instance, ts) {
      DflashOnlyWhenConfigured(carry, tick, instance, ts, s);
      SnapshotSamplesExactly(carry, tick, instance, ts, s);
      var e :| e in ENGINE_SNAPSHOT && e.honestyPath.Some? && HonestyFor(snapshot, e.honestyPath.value) == Some(s.honesty) && e.name == s.series;
      SilentHonesty(snapshot, e.honestyPath.value);
      ExtensionEntries(e);
      assert false;
    }
  }

  lemma NotDflash(name: string)
    requires name != "" && name[0] != 'd'
    ensures !IsDflash(name)
  {
    assert DFLASH_PREFIX[0] == 'd';
  }

  lemma InSections(e: Series)
    ensures e in SECTION_SERIES ==> e in ENGINE_SNAPSHOT
  {
    hide SECTION_SERIES, RECEIPT_SERIES, DISAGG_SERIES;
  }

  /** `transfers_active` stores how many listed transfers are not done. */
  lemma ActiveTransfersStored(carry: Carry, tick: Tick, instance: string, ts: nat, s: Sample)
    requires s.series == "transfers_active"
    ensures s in TickBatch(carry, tick, instance, ts) <==>
      && tick.snapshot.Some?
      && HonestyFor(tick.snapshot.value, "transfers") == Some(s.honesty)
      && s == Sample(instance, "transfers_active", ts, s.value, Snapshot, s.honesty)
      && exists items :: Get(tick.snapshot.value, "transfers") == Some(Array(items)) && s.value == |Unfinished(items)| as real
  {
    ActiveEntry();
    hide ACTIVE_TRANSFERS, SnapshotStores, SECTION_SERIES, ENGINE_SNAPSHOT, TickBatch, HonestyFor, Get, Unfinished, DflashConfigured, Active, IsDflash;
    SnapshotSeries(carry, tick, instance, ts, ACTIVE_TRANSFERS, s);
    ActiveStores(carry, tick, instance, ts, s);
  }

  const ACTIVE_TRANSFERS := Series("transfers_active", Gauge, Snapshot, TransfersActive, Some("transfers"))

  lemma ActiveEntry()
    ensures ACTIVE_TRANSFERS in ENGINE_SNAPSHOT && ACTIVE_TRANSFERS.name == "transfers_active" && !IsDflash("transfers_active")
  {
    assert SECTION_SERIES[7] == ACTIVE_TRANSFERS;
    assert ACTIVE_TRANSFERS in SECTION_SERIES;
    hide ENGINE_SNAPSHOT, SECTION_SERIES;
    InSections(ACTIVE_TRANSFERS);
    NotDflash("transfers_active");
  }

  lemma ActiveStores(carry: Carry, tick: Tick, instance: string, ts: nat, s: Sample)
    requires s.series == ACTIVE_TRANSFERS.name && !IsDflash(ACTIVE_TRANSFERS.name)
    ensures SnapshotStores(carry, tick, instance, ts, ACTIVE_TRANSFERS, s) <==>
      && tick.snapshot.Some?
      && HonestyFor(tick.snapshot.value, "transfers") == Some(s.honesty)
      && s == Sample(instance, s.series, ts, s.value, Snapshot, s.honesty)
      && exists items :: Get(tick.snapshot.value, "transfers") == Some(Array(items)) && s.value == |Unfinished(items)| as real
  {
    hide HonestyFor, Get, Unfinished, DflashConfigured, Active;
    if tick.snapshot.Some? && Transfers(tick.snapshot.value).Some? {
      ActiveCounts(Transfers(tick.snapshot.value).value);
    }
  }

  // ---- latency quantiles ------------------------------------------------------------------------------

  /** Stored from the first sample of a summary that carries this quantile first under its label. */
  ghost predicate QuantileStores(tick: Tick, instance: string, ts: nat, s: Sample, metric: string, quantile: string) {
    && tick.metrics.Some?
    && FirstReads(tick.metrics.value, metric, Some(LabelPair("quantile", quantile)), Finite(s.value))
    && s == Sample(instance, s.series, ts, s.value, Metrics, Measured)
  }

  lemma QuantilesByName(carry: Carry, tick: Tick, instance: string, ts: nat, s: Sample)
    ensures s.series == "ttft_ms_p50" ==>
      (s in TickBatch(carry, tick, instance, ts) <==> QuantileStores(tick, instance, ts, s, "muser_ttft_milliseconds", "0.50"))
    ensures s.series == "ttft_ms_p95" ==>
      (s in TickBatch(carry, tick, instance, ts) <==> QuantileStores(tick, instance, ts, s, "muser_ttft_milliseconds", "0.95"))
    ensures s.series == "itl_ms_p50" ==>
      (s in TickBatch(carry, tick, instance, ts) <==> QuantileStores(tick, instance, ts, s, "muser_itl_milliseconds", "0.50"))
    ensures s.series == "itl_ms_p95" ==>
      (s in TickBatch(carry, tick, instance, ts) <==> QuantileStores(tick, instance, ts, s, "muser_itl_milliseconds", "0.95"))
  {
    LatencyEntries();
    var entries := LATENCY_SERIES;
    hide LATENCY_SERIES, TickBatch, QuantileStores;
    forall i | 0 <= i < 4 && s.series == entries[i].name
      ensures s in TickBatch(carry, tick, instance, ts) <==>
        QuantileStores(tick, instance, ts, s, entries[i].extraction.metric, entries[i].extraction.quantile.value)
    {
      assert entries[i] in entries;
      QuantileSeries(carry, tick, instance, ts, s, entries[i]);
    }
    if s.series == entries[0].name {
    } else if s.series == entries[1].name {
    } else if s.series == entries[2].name {
    }
  }

  lemma QuantileSeries(carry: Carry, tick: Tick, instance: string, ts: nat, s: Sample, e: Series)
    requires e in LATENCY_SERIES && s.series == e.name && e.extraction.Prometheus? && e.extraction.quantile.Some?
    ensures s in TickBatch(carry, tick, instance, ts) <==>
      QuantileStores(tick, instance, ts, s, e.extraction.metric, e.extraction.quantile.value)
  {
    LatencyEntry(e);
    hide LATENCY_SERIES, ENGINE_METRICS, TickBatch, FirstReads, DflashConfigured, Completed, Completions, IsDflash;
    MetricSeries(carry, tick, instance, ts, e, s);
    assert DECODE_RATE[0] == 'r';
  }

  lemma LatencyEntry(e: Series)
    requires e in LATENCY_SERIES && e.extraction.Prometheus? && e.extraction.quantile.Some?
    ensures e in ENGINE_METRICS && e.name != "" && e.name[0] != 'r' && !IsDflash(e.name)
  {
    assert e.name != "" && e.name[0] in {'t', 'i'};
    hide TRAFFIC_SERIES, LATENCY_SERIES;
    NotDflash(e.name);
  }

  lemma LatencyEntries()
    ensures |LATENCY_SERIES| == 5
    ensures LATENCY_SERIES[0].name == "ttft_ms_p50" && LATENCY_SERIES[0].extraction == Prometheus("muser_ttft_milliseconds", Some("0.50"))
    ensures LATENCY_SERIES[1].name == "ttft_ms_p95" && LATENCY_SERIES[1].extraction == Prometheus("muser_ttft_milliseconds", Some("0.95"))
    ensures LATENCY_SERIES[2].name == "itl_ms_p50" && LATENCY_SERIES[2].extraction == Prometheus("muser_itl_milliseconds", Some("0.50"))
    ensures LATENCY_SERIES[3].name == "itl_ms_p95" && LATENCY_SERIES[3].extraction == Prometheus("muser_itl_milliseconds", Some("0.95"))
  {
  }
}
