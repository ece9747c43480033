/**
 The engine half of a sampler tick: two documents become samples, and two of the engine's values are
 latches that only count as news on evidence carried from earlier ticks.
 */
module Sampler {
  import opened Prelude
  import opened Labels
  import opened Exposition
  import opened Bucketing
  import opened Catalog
  import opened Store
  import opened HonestyTags
  import opened AgentCollector

  const COMPLETION_TOKENS := "muser_completion_tokens_total"
  const DECODE_RATE := "request_decode_tok_s"
  const DFLASH_PREFIX := "dflash_"

  /** `a > b` on floats: false whenever either side is not a number. */
  predicate Greater(a: F64, b: F64) {
    match (a, b)
    case (NaN, _) => false
    case (_, NaN) => false
    case (Infinite(n), Infinite(m)) => !n && m
    case (Infinite(n), Finite(_)) => !n
    case (Finite(_), Infinite(m)) => m
    case (Finite(x), Finite(y)) => x > y
  }

  /**
   What earlier ticks saw. The receipt is the last transfer itself, its fields in document order; the
   source keeps its printed form, which tells the same receipts apart.
   */
  datatype Carry = Carry(completions: Option<F64>, receipt: Option<Json>)

  const NO_CARRY := Carry(None, None)

  /** A tick's two documents; `None` is a fetch or parse that failed. */
  datatype Tick = Tick(metrics: Option<seq<Measurement>>, snapshot: Option<Json>)

  // ---- the metrics plane ------------------------------------------------------------------

  function Completions(samples: seq<Measurement>): Option<F64> {
    ValueOf(samples, COMPLETION_TOKENS, None)
  }

  predicate Completed(previous: Option<F64>, current: Option<F64>) {
    previous.Some? && current.Some? && Greater(current.value, previous.value)
  }

  function PromValue(samples: seq<Measurement>, entry: Series): Option<F64> {
    match entry.extraction
    case Prometheus(metric, Some(quantile)) => ValueOf(samples, metric, Some(LabelPair("quantile", quantile)))
    case Prometheus(metric, None) => ValueOf(samples, metric, None)
    case _ => None
  }

  function MetricsEntry(samples: seq<Measurement>, entry: Series, completed: bool, instance: string, ts: nat): seq<Sample> {
    var value := PromValue(samples, entry);
    if (entry.name == DECODE_RATE && !completed) || value.None? || !value.value.Finite? then []
    else [Sample(instance, entry.name, ts, value.value.value, Metrics, Measured)]
  }

  function MetricsBatch(samples: seq<Measurement>, entries: seq<Series>, completed: bool, instance: string, ts: nat): seq<Sample> {
    if entries == [] then []
    else
      MetricsEntry(samples, entries[0], completed, instance, ts)
      + MetricsBatch(samples, entries[1..], completed, instance, ts)
  }

  // ---- the snapshot plane -------------------------------------------------------------------

  function Transfers(snapshot: Json): Option<seq<Json>> {
    match Get(snapshot, "transfers")
    case Some(value) => AsArray(value)
    case None => None
  }

  /** The last entry of `transfers`, when there is one. */
  function Receipt(snapshot: Json): Option<Json> {
    match Transfers(snapshot)
    case Some(items) => if items == [] then None else Some(items[|items| - 1])
    case None => None
  }

  function Active(transfers: seq<Json>): nat {
    if transfers == [] then 0
    else (if Get(transfers[0], "phase") == Some(Text("done")) then 0 else 1) + Active(transfers[1..])
  }

  function SnapshotValue(snapshot: Json, extraction: Extraction): Option<real> {
    match extraction
    case SnapshotPath(path) =>
      (match JsonAt(snapshot, path)
       case Some(value) => AsF64(value)
       case None => None)
    case TransfersActive =>
      (match Transfers(snapshot)
       case Some(items) => Some(Active(items) as real)
       case None => None)
    case TransferLast(field, scale) =>
      (match Receipt(snapshot)
       case None => None
       case Some(last) =>
         match Get(last, field)
         case None => None
         case Some(value) => if AsF64(value).Some? then Some(AsF64(value).value * scale) else None)
    case Prometheus(_, _) => None
    case AgentMetric(_, _) => None
  }

  function SnapshotEntry(snapshot: Json, entry: Series, isNews: bool, instance: string, ts: nat): seq<Sample> {
    if entry.honestyPath.None? || (entry.extraction.TransferLast? && !isNews) then []
    else
      var honesty := HonestyFor(snapshot, entry.honestyPath.value);
      var value := SnapshotValue(snapshot, entry.extraction);
      if honesty.None? || value.None? then []
      else [Sample(instance, entry.name, ts, value.value, Snapshot, honesty.value)]
  }

  function SnapshotBatch(snapshot: Json, entries: seq<Series>, isNews: bool, instance: string, ts: nat): seq<Sample> {
    if entries == [] then []
    else
      SnapshotEntry(snapshot, entries[0], isNews, instance, ts)
      + SnapshotBatch(snapshot, entries[1..], isNews, instance, ts)
  }

  // ---- gating the optional runtime -------------------------------------------------------------

  predicate DflashConfigured(snapshot: Option<Json>) {
    match snapshot
    case None => false
    case Some(value) =>
      var marker := JsonAt(value, "specdec.draft_len");
      marker.Some? && marker.value.Number? && marker.value.number.Natural?
  }

  predicate IsReceiptSeries(name: string) {
    TRANSFER_LAST_PREFIX <= name
  }

  predicate IsDflash(name: string) {
    DFLASH_PREFIX <= name
  }

  function DropDflash(batch: seq<Sample>): seq<Sample> {
    if batch == [] then []
    else (if IsDflash(batch[0].series) then [] else [batch[0]]) + DropDflash(batch[1..])
  }

  function Gated(snapshot: Option<Json>, batch: seq<Sample>): seq<Sample> {
    if DflashConfigured(snapshot) then batch else DropDflash(batch)
  }

  // ---- one tick ----------------------------------------------------------------------------------

  function NextCarry(carry: Carry, tick: Tick): Carry {
    Carry(
      if tick.metrics.Some? && Completions(tick.metrics.value).Some? then Completions(tick.metrics.value) else carry.completions,
      if tick.snapshot.Some? && Receipt(tick.snapshot.value).Some? then Receipt(tick.snapshot.value) else carry.receipt)
  }

  predicate IsNews(previous: Option<Json>, receipt: Option<Json>) {
    receipt.Some? && receipt != previous
  }

  function MetricsPart(carry: Carry, tick: Tick, instance: string, ts: nat): seq<Sample> {
    match tick.metrics
    case None => []
    case Some(samples) =>
      MetricsBatch(samples, WithSource(All(), Metrics), Completed(carry.completions, Completions(samples)), instance, ts)
  }

  function SnapshotPart(carry: Carry, tick: Tick, instance: string, ts: nat): seq<Sample> {
    match tick.snapshot
    case None => []
    case Some(snapshot) =>
      SnapshotBatch(snapshot, WithSource(All(), Snapshot), IsNews(carry.receipt, Receipt(snapshot)), instance, ts)
  }

  /** The engine samples of one tick. */
  function TickBatch(carry: Carry, tick: Tick, instance: string, ts: nat): seq<Sample> {
    Gated(tick.snapshot, MetricsPart(carry, tick, instance, ts) + SnapshotPart(carry, tick, instance, ts))
  }

  class EngineSampler {
    var completionTokens: Option<F64>
    var transferReceipt: Option<Json>

    function View(): Carry
      reads this
    {
      Carry(completionTokens, transferReceipt)
    }

    constructor ()
      ensures View() == NO_CARRY
    {
      completionTokens := None;
      transferReceipt := None;
    }

    /** `collect_metrics`; `batch` is the vector the source pushes onto. */
    method CollectMetrics(samples: seq<Measurement>, instance: string, ts: nat, batch: seq<Sample>) returns (out: seq<Sample>)
      modifies this
      ensures View() == NextCarry(old(View()), Tick(Some(samples), None))
      ensures out == batch + MetricsPart(old(View()), Tick(Some(samples), None), instance, ts)
    {
      hide ValueOf, All, WithSource, PromValue, Greater;
      var completions := Completions(samples);
      var completed := Completed(completionTokens, completions);
      if completions.Some? {
        completionTokens := completions;
      }
      out := batch;
      var entries := WithSource(All(), Metrics);
      assert entries[0..] == entries;
      ghost var whole := MetricsBatch(samples, entries, completed, instance, ts);
      var i := 0;
      while i < |entries|
        invariant 0 <= i <= |entries|
        invariant View() == NextCarry(old(View()), Tick(Some(samples), None))
        invariant out + MetricsBatch(samples, entries[i..], completed, instance, ts) == batch + whole
      {
        assert entries[i..][0] == entries[i] && entries[i..][1..] == entries[i + 1..];
        var value := PromValue(samples, entries[i]);
        Assoc(out, MetricsEntry(samples, entries[i], completed, instance, ts),
              MetricsBatch(samples, entries[i + 1..], completed, instance, ts));
        if entries[i].name == DECODE_RATE && !completed {
          assert out + [] == out;
        } else if value.None? || !value.value.Finite? {
          assert out + [] == out;
        } else {
          out := out + [Sample(instance, entries[i].name, ts, value.value.value, Metrics, Measured)];
        }
        i := i + 1;
      }
      assert entries[i..] == [] && out + [] == out;
    }

    /** `collect_snapshot`. */
    method CollectSnapshot(snapshot: Json, instance: string, ts: nat, batch: seq<Sample>) returns (out: seq<Sample>)
      modifies this
      ensures View() == NextCarry(old(View()), Tick(None, Some(snapshot)))
      ensures out == batch + SnapshotPart(old(View()), Tick(None, Some(snapshot)), instance, ts)
    {
      hide Receipt, All, WithSource, HonestyFor, SnapshotValue;
      var receipt := Receipt(snapshot);
      var isNews := IsNews(transferReceipt, receipt);
      if receipt.Some? {
        transferReceipt := receipt;
      }
      out := batch;
      var entries := WithSource(All(), Snapshot);
      assert entries[0..] == entries;
      ghost var whole := SnapshotBatch(snapshot, entries, isNews, instance, ts);
      var i := 0;
      while i < |entries|
        invariant 0 <= i <= |entries|
        invariant View() == NextCarry(old(View()), Tick(None, Some(snapshot)))
        invariant out + SnapshotBatch(snapshot, entries[i..], isNews, instance, ts) == batch + whole
      {
        assert entries[i..][0] == entries[i] && entries[i..][1..] == entries[i + 1..];
        var entry := entries[i];
        Assoc(out, SnapshotEntry(snapshot, entry, isNews, instance, ts),
              SnapshotBatch(snapshot, entries[i + 1..], isNews, instance, ts));
        if entry.honestyPath.None? || (entry.extraction.TransferLast? && !isNews) {
          assert out + [] == out;
        } else {
          var honesty := LookUpHonesty(snapshot, entry.honestyPath.value);
          var value := SnapshotValue(snapshot, entry.extraction);
          if honesty.None? || value.None? {
            assert out + [] == out;
          } else {
            out := out + [Sample(instance, entry.name, ts, value.value, Snapshot, honesty.value)];
          }
        }
        i := i + 1;
      }
      assert entries[i..] == [] && out + [] == out;
    }

    /** The engine half of one pass of `sample_loop`. */
    method RunTick(tick: Tick, instance: string, ts: nat) returns (batch: seq<Sample>)
      modifies this
      ensures View() == NextCarry(old(View()), tick)
      ensures batch == TickBatch(old(View()), tick, instance, ts)
    {
      hide MetricsBatch, SnapshotBatch, All, WithSource, Completions, Receipt, DflashConfigured;
      batch := [];
      if tick.metrics.Some? {
        batch := CollectMetrics(tick.metrics.value, instance, ts, batch);
      }
      assert batch == MetricsPart(old(View()), tick, instance, ts);
      ghost var first := batch;
      if tick.snapshot.Some? {
        batch := CollectSnapshot(tick.snapshot.value, instance, ts, batch);
      } else {
        assert first + [] == first;
      }
      if !DflashConfigured(tick.snapshot) {
        batch := Retain(batch);
      }
    }
  }

  /** `batch.retain(..)` of `gate_optional_features`. */
  method Retain(batch: seq<Sample>) returns (kept: seq<Sample>)
    ensures kept == DropDflash(batch)
  {
    kept := [];
    assert batch[0..] == batch;
    for i := 0 to |batch|
      invariant kept + DropDflash(batch[i..]) == DropDflash(batch)
    {
      assert batch[i..][1..] == batch[i + 1..];
      if !IsDflash(batch[i].series) {
        Assoc(kept, [batch[i]], DropDflash(batch[i + 1..]));
        kept := kept + [batch[i]];
      } else {
        assert [] + DropDflash(batch[i + 1..]) == DropDflash(batch[i + 1..]);
      }
    }
    assert batch[|batch|..] == [];
  }

  // ---- runs of ticks ------------------------------------------------------------------------------

  function CarryAfter(ticks: seq<Tick>): Carry {
    if ticks == [] then NO_CARRY else NextCarry(CarryAfter(ticks[..|ticks| - 1]), ticks[|ticks| - 1])
  }

  /** The completion counter a tick reported, if it reported one. */
  function ReportedAt(ticks: seq<Tick>, i: nat): Option<F64>
    requires i < |ticks|
  {
    if ticks[i].metrics.Some? then Completions(ticks[i].metrics.value) else None
  }

  function ReceiptAt(ticks: seq<Tick>, i: nat): Option<Json>
    requires i < |ticks|
  {
    if ticks[i].snapshot.Some? then Receipt(ticks[i].snapshot.value) else None
  }

  /** Tick `j` is the most recent tick before `i` that reported a counter. */
  ghost predicate LastReport(ticks: seq<Tick>, i: nat, j: nat)
    requires i <= |ticks|
  {
    && j < i && ReportedAt(ticks, j).Some?
    && forall k: nat :: j < k < i ==> ReportedAt(ticks, k).None?
  }

  ghost predicate LastReceipt(ticks: seq<Tick>, i: nat, j: nat)
    requires i <= |ticks|
  {
    && j < i && ReceiptAt(ticks, j).Some?
    && forall k: nat :: j < k < i ==> ReceiptAt(ticks, k).None?
  }

  lemma CarryStep(ticks: seq<Tick>, i: nat)
    requires i < |ticks|
    ensures var before, after := CarryAfter(ticks[..i]), CarryAfter(ticks[..i + 1]);
      && after.completions == (if ReportedAt(ticks, i).Some? then ReportedAt(ticks, i) else before.completions)
      && after.receipt == (if ReceiptAt(ticks, i).Some? then ReceiptAt(ticks, i) else before.receipt)
  {
    hide Completions, Receipt;
    assert ticks[..i + 1][..i] == ticks[..i];
  }

  lemma LastReportStep(ticks: seq<Tick>, i: nat, j: nat)
    requires i < |ticks|
    ensures LastReport(ticks, i + 1, j) <==> if ReportedAt(ticks, i).Some? then j == i else LastReport(ticks, i, j)
  {
    hide ReportedAt;
  }

  /** The carried counter is the one of the most recent reporting tick, however many were missed since. */
  lemma {:induction false} CarriedCompletions(ticks: seq<Tick>, i: nat)
    requires i <= |ticks|
    ensures var carried := CarryAfter(ticks[..i]).completions;
      if carried.None? then forall k: nat :: k < i ==> ReportedAt(ticks, k).None?
      else exists j: nat :: LastReport(ticks, i, j) && carried == ReportedAt(ticks, j)
  {
    if i > 0 {
      CarriedCompletions(ticks, i - 1);
      CarryStep(ticks, i - 1);
      hide CarryAfter, LastReport, ReportedAt;
      if ReportedAt(ticks, i - 1).Some? {
        LastReportStep(ticks, i - 1, i - 1);
      } else if CarryAfter(ticks[..i - 1]).completions.Some? {
        var j: nat :| LastReport(ticks, i - 1, j) && CarryAfter(ticks[..i - 1]).completions == ReportedAt(ticks, j);
        LastReportStep(ticks, i - 1, j);
      }
    }
  }

  lemma LastReceiptStep(ticks: seq<Tick>, i: nat, j: nat)
    requires i < |ticks|
    ensures LastReceipt(ticks, i + 1, j) <==> if ReceiptAt(ticks, i).Some? then j == i else LastReceipt(ticks, i, j)
  {
    hide ReceiptAt;
  }

  /** The carried receipt is the most recently seen one; a tick without one does not clear it. */
  lemma {:induction false} CarriedReceipt(ticks: seq<Tick>, i: nat)
    requires i <= |ticks|
    ensures var carried := CarryAfter(ticks[..i]).receipt;
      if carried.None? then forall k: nat :: k < i ==> ReceiptAt(ticks, k).None?
      else exists j: nat :: LastReceipt(ticks, i, j) && carried == ReceiptAt(ticks, j)
  {
    if i > 0 {
      CarriedReceipt(ticks, i - 1);
      CarryStep(ticks, i - 1);
      hide CarryAfter, LastReceipt, ReceiptAt;
      if ReceiptAt(ticks, i - 1).Some? {
        LastReceiptStep(ticks, i - 1, i - 1);
      } else if CarryAfter(ticks[..i - 1]).receipt.Some? {
        var j: nat :| LastReceipt(ticks, i - 1, j) && CarryAfter(ticks[..i - 1]).receipt == ReceiptAt(ticks, j);
        LastReceiptStep(ticks, i - 1, j);
      }
    }
  }

  /** Evidence of a completed request at tick `i`: its counter strictly exceeds the last one reported. */
  ghost predicate Advanced(ticks: seq<Tick>, i: nat)
    requires i < |ticks|
  {
    exists j: nat :: LastReport(ticks, i, j) && ReportedAt(ticks, i).Some?
      && Greater(ReportedAt(ticks, i).value, ReportedAt(ticks, j).value)
  }

  /** A receipt at tick `i` that differs from the last one seen; an empty transfer list is not one. */
  ghost predicate NewReceipt(ticks: seq<Tick>, i: nat)
    requires i < |ticks|
  {
    && ReceiptAt(ticks, i).Some?
    && forall j: nat :: LastReceipt(ticks, i, j) ==> ReceiptAt(ticks, j) != ReceiptAt(ticks, i)
  }

  lemma CompletedIsAdvanced(ticks: seq<Tick>, i: nat)
    requires i < |ticks|
    ensures Completed(CarryAfter(ticks[..i]).completions, ReportedAt(ticks, i)) <==> Advanced(ticks, i)
  {
    hide Completions, Greater, ReportedAt;
    CarriedCompletions(ticks, i);
    var carried := CarryAfter(ticks[..i]).completions;
    forall j: nat, k: nat | LastReport(ticks, i, j) && LastReport(ticks, i, k)
      ensures j == k
    {
    }
  }

  lemma NewsIsNewReceipt(ticks: seq<Tick>, i: nat)
    requires i < |ticks|
    ensures IsNews(CarryAfter(ticks[..i]).receipt, ReceiptAt(ticks, i)) <==> NewReceipt(ticks, i)
  {
    hide Receipt, ReceiptAt;
    CarriedReceipt(ticks, i);
    forall j: nat, k: nat | LastReceipt(ticks, i, j) && LastReceipt(ticks, i, k)
      ensures j == k
    {
    }
  }

  // ---- where a sample came from ----------------------------------------------------------------------

  lemma {:induction false} MetricsFrom(samples: seq<Measurement>, entries: seq<Series>, completed: bool, instance: string, ts: nat, s: Sample)
    ensures s in MetricsBatch(samples, entries, completed, instance, ts) <==>
      exists e :: e in entries && s in MetricsEntry(samples, e, completed, instance, ts)
  {
    hide MetricsEntry;
    if entries != [] {
      assert entries == [entries[0]] + entries[1..];
      MetricsFrom(samples, entries[1..], completed, instance, ts, s);
    }
  }

  lemma {:induction false} SnapshotFrom(snapshot: Json, entries: seq<Series>, isNews: bool, instance: string, ts: nat, s: Sample)
    ensures s in SnapshotBatch(snapshot, entries, isNews, instance, ts) <==>
      exists e :: e in entries && s in SnapshotEntry(snapshot, e, isNews, instance, ts)
  {
    hide SnapshotEntry;
    if entries != [] {
      assert entries == [entries[0]] + entries[1..];
      SnapshotFrom(snapshot, entries[1..], isNews, instance, ts, s);
    }
  }

  lemma {:induction false} DropDflashMeaning(batch: seq<Sample>, s: Sample)
    ensures s in DropDflash(batch) <==> s in batch && !IsDflash(s.series)
  {
    hide IsDflash;
    if batch != [] {
      assert batch == [batch[0]] + batch[1..];
      DropDflashMeaning(batch[1..], s);
    }
  }

  /** No `dflash_` series is stored without the runtime marker, and the gate drops nothing else. */
  lemma DflashOnlyWhenConfigured(carry: Carry, tick: Tick, instance: string, ts: nat, s: Sample)
    ensures s in TickBatch(carry, tick, instance, ts) <==>
      && (s in MetricsPart(carry, tick, instance, ts) || s in SnapshotPart(carry, tick, instance, ts))
      && ("dflash_" <= s.series ==> DflashConfigured(tick.snapshot))
  {
    hide MetricsPart, SnapshotPart, DflashConfigured;
    DropDflashMeaning(MetricsPart(carry, tick, instance, ts) + SnapshotPart(carry, tick, instance, ts), s);
  }

  lemma EngineMetricEntries()
    ensures WithSource(All(), Metrics) == ENGINE_METRICS
  {
    MetricsAreMetrics();
    SnapshotsAreSnapshots();
    CatalogIsAgents();
    hide *;
    MiddlePart([], ENGINE_METRICS, ENGINE_SNAPSHOT + AgentCatalog(), Metrics);
    AllParts();
    Assoc(ENGINE_METRICS, ENGINE_SNAPSHOT, AgentCatalog());
    assert [] + ENGINE_METRICS == ENGINE_METRICS;
  }

  lemma EngineSnapshotEntries()
    ensures WithSource(All(), Snapshot) == ENGINE_SNAPSHOT
  {
    MetricsAreMetrics();
    SnapshotsAreSnapshots();
    CatalogIsAgents();
    hide *;
    MiddlePart(ENGINE_METRICS, ENGINE_SNAPSHOT, AgentCatalog(), Snapshot);
    AllParts();
  }

  lemma MiddlePart(a: seq<Series>, b: seq<Series>, c: seq<Series>, source: Source)
    requires forall e :: e in a || e in c ==> e.source != source
    requires forall e :: e in b ==> e.source == source
    ensures WithSource(a + b + c, source) == b
  {
    hide WithSource;
    WithSourceAll(a, source);
    WithSourceAll(b, source);
    WithSourceAll(c, source);
    WithSourceAppend(a + b, c, source);
    WithSourceAppend(a, b, source);
    assert [] + b + [] == b;
  }

  lemma TrafficHeads()
    ensures forall e :: e in TRAFFIC_SERIES ==>
      && e.extraction.Prometheus? && |e.name| > 1
      && (e.name[0] != 't' || e.name[1] != 'r')
      && (e.name[0] == 'r' ==> e.extraction == Prometheus("muser_request_decode_tok_s", None))
  {
  }

  lemma LatencyHeads()
    ensures forall e :: e in LATENCY_SERIES ==>
      && e.extraction.Prometheus? && |e.name| > 1
      && (e.name[0] != 't' || e.name[1] != 'r') && e.name[0] != 'r'
  {
  }

  lemma MetricNamesApart()
    ensures forall e :: e in ENGINE_METRICS ==>
      && e.extraction.Prometheus?
      && !IsReceiptSeries(e.name)
      && (e.name == DECODE_RATE ==> e.extraction == Prometheus("muser_request_decode_tok_s", None))
    ensures Prom(DECODE_RATE, Gauge, "muser_request_decode_tok_s", None) in ENGINE_METRICS
    ensures !IsDflash(DECODE_RATE)
  {
    var entries := ENGINE_METRICS;
    assert entries[1] == Prom(DECODE_RATE, Gauge, "muser_request_decode_tok_s", None);
    assert entries[1] in entries;
    TrafficHeads();
    LatencyHeads();
    hide TRAFFIC_SERIES, LATENCY_SERIES;
    assert DECODE_RATE[0] == 'r' && DFLASH_PREFIX[0] == 'd';
    assert TRANSFER_LAST_PREFIX[0] == 't' && TRANSFER_LAST_PREFIX[1] == 'r';
  }

  lemma SectionHeads()
    ensures forall e :: e in SECTION_SERIES ==>
      && e.honestyPath.Some? && !e.extraction.TransferLast? && |e.name| > 8
      && (|e.name| == 20 ==> e.name[0] == 'd')
      && (e.name[0] == 't' ==> e.name[8] == 's')
  {
  }

  lemma DisaggHeads()
    ensures forall e :: e in DISAGG_SERIES ==>
      e.honestyPath.Some? && !e.extraction.TransferLast? && |e.name| > 8 && e.name[0] == 'd'
  {
  }

  lemma ReceiptHeads()
    ensures forall e :: e in RECEIPT_SERIES ==>
      e.honestyPath.Some? && e.extraction.TransferLast? && TRANSFER_LAST_PREFIX <= e.name
  {
  }

  lemma SnapshotNamesApart()
    ensures forall e :: e in ENGINE_SNAPSHOT ==>
      && e.honestyPath.Some? && e.name != DECODE_RATE
      && (IsReceiptSeries(e.name) <==> e.extraction.TransferLast?)
      && (e.extraction.TransferLast? ==> !IsDflash(e.name))
  {
    SectionHeads();
    DisaggHeads();
    ReceiptHeads();
    hide SECTION_SERIES, RECEIPT_SERIES, DISAGG_SERIES;
    assert DECODE_RATE[0] == 'r' && |DECODE_RATE| == 20 && DFLASH_PREFIX[0] == 'd';
    assert TRANSFER_LAST_PREFIX[0] == 't' && TRANSFER_LAST_PREFIX[8] == '_';
    forall e | e in ENGINE_SNAPSHOT
      ensures e.honestyPath.Some? && e.name != DECODE_RATE
      ensures IsReceiptSeries(e.name) <==> e.extraction.TransferLast?
      ensures e.extraction.TransferLast? ==> !IsDflash(e.name)
    {
      assert e in SECTION_SERIES || e in RECEIPT_SERIES || e in DISAGG_SERIES;
      assert IsReceiptSeries(e.name) ==> e.name[0] == 't' && e.name[8] == '_';
    }
  }

  /**
   Over any run of ticks, scrapes missing or not: the decode-rate latch is stored at a tick exactly
   when that tick's completion counter strictly exceeds the last one reported before it and the rate
   itself was published and finite.
   */
  lemma DecodeRateOnlyOnCompletion(ticks: seq<Tick>, i: nat, instance: string, ts: nat)
    requires i < |ticks|
    ensures var rate := if ticks[i].metrics.Some? then ValueOf(ticks[i].metrics.value, "muser_request_decode_tok_s", None) else None;
      (exists s :: s in TickBatch(CarryAfter(ticks[..i]), ticks[i], instance, ts) && s.series == DECODE_RATE) <==>
      Advanced(ticks, i) && rate.Some? && rate.value.Finite?
  {
    hide ENGINE_METRICS, ENGINE_SNAPSHOT, CarryAfter, Completions, Advanced, ValueOf, TickBatch, SnapshotPart, DflashConfigured, Completed, All, WithSource;
    var carry, tick := CarryAfter(ticks[..i]), ticks[i];
    CompletedIsAdvanced(ticks, i);
    DecodeRateStored(carry, tick, instance, ts);
    NoDecodeInSnapshot(carry, tick, instance, ts);
    MetricNamesApart();
    forall s: Sample | s.series == DECODE_RATE
      ensures s in TickBatch(carry, tick, instance, ts) <==> s in MetricsPart(carry, tick, instance, ts)
    {
      DflashOnlyWhenConfigured(carry, tick, instance, ts, s);
    }
    if tick.metrics.None? {
      NotAdvanced(ticks, i);
    }
  }

  lemma NotAdvanced(ticks: seq<Tick>, i: nat)
    requires i < |ticks| && ticks[i].metrics.None?
    ensures !Advanced(ticks, i)
  {
  }

  lemma NoDecodeInSnapshot(carry: Carry, tick: Tick, instance: string, ts: nat)
    ensures forall s :: s in SnapshotPart(carry, tick, instance, ts) ==> s.series != DECODE_RATE
  {
    hide ENGINE_METRICS, ENGINE_SNAPSHOT, Receipt, All, WithSource, SnapshotBatch, HonestyFor, SnapshotValue;
    EngineSnapshotEntries();
    SnapshotNamesApart();
    if tick.snapshot.Some? {
      var isNews := IsNews(carry.receipt, Receipt(tick.snapshot.value));
      forall s | s in SnapshotPart(carry, tick, instance, ts)
        ensures s.series != DECODE_RATE
      {
        SnapshotFrom(tick.snapshot.value, ENGINE_SNAPSHOT, isNews, instance, ts, s);
      }
    }
  }

  lemma DecodeRateStored(carry: Carry, tick: Tick, instance: string, ts: nat)
    ensures (exists s :: s in MetricsPart(carry, tick, instance, ts) && s.series == DECODE_RATE) <==>
      && tick.metrics.Some?
      && Completed(carry.completions, Completions(tick.metrics.value))
      && var rate := ValueOf(tick.metrics.value, "muser_request_decode_tok_s", None);
         rate.Some? && rate.value.Finite?
  {
    hide ENGINE_METRICS, ENGINE_SNAPSHOT, Completions, All, WithSource, MetricsBatch, ValueOf, Completed;
    EngineMetricEntries();
    MetricNamesApart();
    if tick.metrics.Some? {
      var samples := tick.metrics.value;
      var completed := Completed(carry.completions, Completions(samples));
      var entry := Prom(DECODE_RATE, Gauge, "muser_request_decode_tok_s", None);
      var rate := ValueOf(samples, "muser_request_decode_tok_s", None);
      forall s
        ensures s in MetricsPart(carry, tick, instance, ts) <==>
          exists e :: e in ENGINE_METRICS && s in MetricsEntry(samples, e, completed, instance, ts)
      {
        MetricsFrom(samples, ENGINE_METRICS, completed, instance, ts, s);
      }
      if completed && rate.Some? && rate.value.Finite? {
        var s := Sample(instance, DECODE_RATE, ts, rate.value.value, Metrics, Measured);
        assert s in MetricsEntry(samples, entry, completed, instance, ts);
      }
    }
  }

  /** The tag and the value of a series can both be read from this tick's snapshot. */
  ghost predicate Readable(snapshot: Json, e: Series) {
    && e.honestyPath.Some?
    && HonestyFor(snapshot, e.honestyPath.value).Some?
    && SnapshotValue(snapshot, e.extraction).Some?
  }

  /**
   Over any run of ticks: a `transfer_last_*` series is stored only at a tick whose receipt differs from
   the last one seen, and there it is stored whenever its tag and its value can be read.
   */
  lemma TransferLastOnlyOnNews(ticks: seq<Tick>, i: nat, instance: string, ts: nat)
    requires i < |ticks|
    ensures forall s :: s in TickBatch(CarryAfter(ticks[..i]), ticks[i], instance, ts) && IsReceiptSeries(s.series) ==>
      NewReceipt(ticks, i)
    ensures forall e ::
      NewReceipt(ticks, i) && e in ENGINE_SNAPSHOT && e.extraction.TransferLast? && Readable(ticks[i].snapshot.value, e) ==>
      exists s :: s in TickBatch(CarryAfter(ticks[..i]), ticks[i], instance, ts) && s.series == e.name
  {
    hide CarryAfter, Receipt, NewReceipt, TickBatch, All, WithSource, SnapshotBatch, HonestyFor, SnapshotValue,
      MetricsPart, DflashConfigured, IsNews, ENGINE_SNAPSHOT;
    var carry, tick := CarryAfter(ticks[..i]), ticks[i];
    NewsIsNewReceipt(ticks, i);
    EngineSnapshotEntries();
    SnapshotNamesApart();
    NoTransferInMetrics(carry, tick, instance, ts);
    NoNewsWithoutSnapshot(ticks, i);
    forall s | s in TickBatch(carry, tick, instance, ts) && IsReceiptSeries(s.series)
      ensures NewReceipt(ticks, i)
    {
      DflashOnlyWhenConfigured(carry, tick, instance, ts, s);
      SnapshotFrom(tick.snapshot.value, ENGINE_SNAPSHOT, IsNews(carry.receipt, Receipt(tick.snapshot.value)), instance, ts, s);
    }
    if NewReceipt(ticks, i) {
      var snapshot := tick.snapshot.value;
      forall e | e in ENGINE_SNAPSHOT && e.extraction.TransferLast? && Readable(snapshot, e)
        ensures exists s :: s in TickBatch(carry, tick, instance, ts) && s.series == e.name
      {
        var s := Sample(instance, e.name, ts, SnapshotValue(snapshot, e.extraction).value, Snapshot, HonestyFor(snapshot, e.honestyPath.value).value);
        SnapshotFrom(snapshot, ENGINE_SNAPSHOT, IsNews(carry.receipt, Receipt(snapshot)), instance, ts, s);
        assert s in SnapshotEntry(snapshot, e, IsNews(carry.receipt, Receipt(snapshot)), instance, ts);
        DflashOnlyWhenConfigured(carry, tick, instance, ts, s);
      }
    }
  }

  lemma NoNewsWithoutSnapshot(ticks: seq<Tick>, i: nat)
    requires i < |ticks|
    ensures NewReceipt(ticks, i) ==> ticks[i].snapshot.Some?
  {
    hide Receipt;
  }

  lemma NoTransferInMetrics(carry: Carry, tick: Tick, instance: string, ts: nat)
    ensures forall s :: s in MetricsPart(carry, tick, instance, ts) ==> !IsReceiptSeries(s.series)
  {
    hide ENGINE_METRICS, ENGINE_SNAPSHOT, Completions, All, WithSource, MetricsBatch, PromValue, Completed;
    EngineMetricEntries();
    MetricNamesApart();
    if tick.metrics.Some? {
      var samples := tick.metrics.value;
      forall s | s in MetricsPart(carry, tick, instance, ts)
        ensures !IsReceiptSeries(s.series)
      {
        MetricsFrom(samples, ENGINE_METRICS, Completed(carry.completions, Completions(samples)), instance, ts, s);
      }
    }
  }

  ghost predicate TagAllows(snapshot: Json, e: Series, honesty: Honesty) {
    && e.honestyPath.Some?
    && match TagOf(snapshot, e.honestyPath.value)
       case Some(tag) => tag == HonestyText(honesty) && tag != "mock"
       case None => e.honestyPath.value != "" && e.honestyPath.value[0] == '_' && honesty == Measured
  }

  /**
   Exactly what the metrics plane stores: each catalogued series' own finite value, tagged measured, and
   the decode rate only when a request completed.
   */
  lemma MetricsSamplesExactly(carry: Carry, tick: Tick, instance: string, ts: nat, s: Sample)
    ensures s in MetricsPart(carry, tick, instance, ts) <==>
      && tick.metrics.Some?
      && exists e :: e in ENGINE_METRICS && PromValue(tick.metrics.value, e) == Some(Finite(s.value))
           && s == Sample(instance, e.name, ts, s.value, Metrics, Measured)
           && (e.name == DECODE_RATE ==> Completed(carry.completions, Completions(tick.metrics.value)))
  {
    hide ENGINE_METRICS, Completions, All, WithSource, MetricsBatch, PromValue, Completed;
    EngineMetricEntries();
    if tick.metrics.Some? {
      MetricsFrom(tick.metrics.value, ENGINE_METRICS, Completed(carry.completions, Completions(tick.metrics.value)), instance, ts, s);
    }
  }

  /**
   Exactly what the snapshot plane stores: each catalogued series' own value under the honesty its path
   resolves to, and a last-transfer series only when the receipt is news.
   */
  lemma SnapshotSamplesExactly(carry: Carry, tick: Tick, instance: string, ts: nat, s: Sample)
    ensures s in SnapshotPart(carry, tick, instance, ts) <==>
      && tick.snapshot.Some?
      && exists e :: e in ENGINE_SNAPSHOT && e.honestyPath.Some?
           && HonestyFor(tick.snapshot.value, e.honestyPath.value) == Some(s.honesty)
           && SnapshotValue(tick.snapshot.value, e.extraction) == Some(s.value)
           && s == Sample(instance, e.name, ts, s.value, Snapshot, s.honesty)
           && (e.extraction.TransferLast? ==> IsNews(carry.receipt, Receipt(tick.snapshot.value)))
  {
    hide ENGINE_SNAPSHOT, Receipt, All, WithSource, SnapshotBatch, SnapshotValue, HonestyFor, IsNews;
    EngineSnapshotEntries();
    if tick.snapshot.Some? {
      SnapshotFrom(tick.snapshot.value, ENGINE_SNAPSHOT, IsNews(carry.receipt, Receipt(tick.snapshot.value)), instance, ts, s);
    }
  }

  /**
   No snapshot sample carries a tag its nearest sidecar entry does not state: each one's series has a
   path whose nearest tag is the sample's own, or is an untagged `_` extension stored as measured. A
   nearest `mock` therefore never reaches the store.
   */
  lemma SnapshotSamplesAreHonest(carry: Carry, tick: Tick, instance: string, ts: nat, s: Sample)
    ensures s in SnapshotPart(carry, tick, instance, ts) ==>
      && tick.snapshot.Some?
      && exists e :: e in ENGINE_SNAPSHOT && e.name == s.series && TagAllows(tick.snapshot.value, e, s.honesty)
  {
    hide ENGINE_SNAPSHOT, Receipt, SnapshotPart, SnapshotValue, TagOf, IsExtension, FromTag, IsNews;
    SnapshotSamplesExactly(carry, tick, instance, ts, s);
    if s in SnapshotPart(carry, tick, instance, ts) {
      var snapshot := tick.snapshot.value;
      var e :| e in ENGINE_SNAPSHOT && e.honestyPath.Some? && HonestyFor(snapshot, e.honestyPath.value) == Some(s.honesty)
        && s == Sample(instance, e.name, ts, s.value, Snapshot, s.honesty);
      var tag := TagOf(snapshot, e.honestyPath.value);
      FirstSegment(e.honestyPath.value);
      if tag.Some? {
        TagsRoundTrip(tag.value, s.honesty);
      }
    }
  }
}
