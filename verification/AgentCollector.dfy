/** Reading one agent exposition into samples: `collect_agent` of the history sampler. */
module AgentCollector {
  import opened Prelude
  import opened Labels
  import opened Exposition
  import opened Catalog
  import opened Store

  const GPU_PREFIX := "muser_gpu_"

  predicate IsGpuMetric(metric: string) {
    GPU_PREFIX <= metric
  }

  function WithSource(entries: seq<Series>, source: Source): seq<Series> {
    if entries == [] then []
    else (if entries[0].source == source then [entries[0]] else []) + WithSource(entries[1..], source)
  }

  function NoteGpu(gpus: seq<string>, m: Measurement): seq<string> {
    if IsGpuMetric(m.metric) then
      match LabelOf(m.labels, "gpu")
      case Some(index) => if index in gpus then gpus else gpus + [index]
      case None => gpus
    else gpus
  }

  /** Distinct `gpu` label values on device series, in the order first seen. */
  function GpusSeen(samples: seq<Measurement>): seq<string> {
    if samples == [] then [] else NoteGpu(GpusSeen(samples[..|samples| - 1]), samples[|samples| - 1])
  }

  function EntryValue(samples: seq<Measurement>, entry: Series): Option<F64> {
    match entry.extraction
    case AgentMetric(metric, Some(gpu)) => ValueOf(samples, metric, Some(LabelPair("gpu", gpu)))
    case AgentMetric(metric, None) => ValueOf(samples, metric, None)
    case _ => None
  }

  function AgentSample(instance: string, ts: nat, name: string, value: real): Sample {
    Sample(instance, name, ts, value, Agent, AgentMeasured)
  }

  function Stored(value: Option<F64>, instance: string, ts: nat, name: string): seq<Sample> {
    if value.Some? && value.value.Finite? then [AgentSample(instance, ts, name, value.value.value)] else []
  }

  function Collected(samples: seq<Measurement>, entries: seq<Series>, instance: string, ts: nat): seq<Sample> {
    if entries == [] then []
    else
      Stored(EntryValue(samples, entries[0]), instance, ts, entries[0].name)
      + Collected(samples, entries[1..], instance, ts)
  }

  /** What one scrape adds to the batch: nothing at all when the exporter disclaims its own source. */
  function AgentBatch(samples: seq<Measurement>, instance: string, ts: nat): seq<Sample> {
    if ValueOf(samples, AGENT_UP, None) == Some(Finite(0.0)) then []
    else Collected(samples, WithSource(All(), Agent), instance, ts)
  }

  /** `collect_agent`; `batch` is the vector the source pushes onto. */
  method CollectAgent(numbers: NumberText, text: string, instance: string, ts: nat, batch: seq<Sample>)
    returns (gpusSeen: nat, out: seq<Sample>)
    ensures gpusSeen == |GpusSeen(Parse(numbers, text))|
    ensures out == batch + AgentBatch(Parse(numbers, text), instance, ts)
  {
    hide Parse, All, ValueOf, LabelOf, EntryValue, WithSource;
    var samples := Parse(numbers, text);
    var gpus: seq<string> := [];
    for i := 0 to |samples|
      invariant gpus == GpusSeen(samples[..i])
    {
      assert samples[..i + 1][..i] == samples[..i];
      if IsGpuMetric(samples[i].metric) {
        match LabelOf(samples[i].labels, "gpu") {
          case Some(index) =>
            if index !in gpus {
              gpus := gpus + [index];
            }
          case None =>
        }
      }
    }
    assert samples[..|samples|] == samples;
    gpusSeen := |gpus|;
    out := batch;
    if ValueOf(samples, AGENT_UP, None) == Some(Finite(0.0)) {
      assert batch + [] == batch;
      return;
    }
    var entries := WithSource(All(), Agent);
    out := CollectEntries(samples, entries, instance, ts, batch);
  }

  method CollectEntries(samples: seq<Measurement>, entries: seq<Series>, instance: string, ts: nat, batch: seq<Sample>)
    returns (out: seq<Sample>)
    ensures out == batch + Collected(samples, entries, instance, ts)
  {
    hide EntryValue;
    out := batch;
    var i := 0;
    assert entries[0..] == entries;
    while i < |entries|
      invariant 0 <= i <= |entries|
      invariant out + Collected(samples, entries[i..], instance, ts) == batch + Collected(samples, entries, instance, ts)
    {
      assert entries[i..][0] == entries[i] && entries[i..][1..] == entries[i + 1..];
      var value := EntryValue(samples, entries[i]);
      Assoc(out, Stored(value, instance, ts, entries[i].name), Collected(samples, entries[i + 1..], instance, ts));
      if value.Some? && value.value.Finite? {
        out := out + [AgentSample(instance, ts, entries[i].name, value.value.value)];
      } else {
        assert out + [] == out;
      }
      i := i + 1;
    }
    assert entries[i..] == [];
    assert out + [] == out;
  }

  lemma AgentMetricNames()
    ensures IsMetricName(AGENT_UP)
    ensures IsMetricName(AGENT_DURATION)
  {
  }

  // ---- the agent half of the catalog -------------------------------------------------

  lemma {:induction false} WithSourceAppend(a: seq<Series>, b: seq<Series>, source: Source)
    ensures WithSource(a + b, source) == WithSource(a, source) + WithSource(b, source)
  {
    if a == [] {
      assert a + b == b;
    } else {
      assert (a + b)[1..] == a[1..] + b;
      WithSourceAppend(a[1..], b, source);
      Assoc(if a[0].source == source then [a[0]] else [], WithSource(a[1..], source), WithSource(b, source));
    }
  }

  lemma {:induction false} WithSourceAll(entries: seq<Series>, source: Source)
    ensures (forall e :: e in entries ==> e.source == source) ==> WithSource(entries, source) == entries
    ensures (forall e :: e in entries ==> e.source != source) ==> WithSource(entries, source) == []
  {
    if entries != [] {
      assert entries == [entries[0]] + entries[1..];
      WithSourceAll(entries[1..], source);
    }
  }

  lemma {:induction false} DevicesAreAgents(devices: seq<string>)
    ensures forall e :: e in AgentDevices(devices) ==> e.source == Agent
  {
    if devices != [] {
      DevicesAreAgents(devices[1..]);
    }
  }

  lemma MetricsAreMetrics()
    ensures forall e :: e in ENGINE_METRICS ==> e.source == Metrics
  {
  }

  lemma SnapshotsAreSnapshots()
    ensures forall e :: e in ENGINE_SNAPSHOT ==> e.source == Snapshot
  {
  }

  lemma CatalogIsAgents()
    ensures forall e :: e in AgentCatalog() ==> e.source == Agent
  {
    hide AgentDevices;
    DevicesAreAgents(GPU_LABELS);
  }

  /** The sampler's agent series are exactly the agent catalog, in its declared order. */
  lemma AgentEntries()
    ensures WithSource(All(), Agent) == AgentCatalog()
  {
    MetricsAreMetrics();
    SnapshotsAreSnapshots();
    CatalogIsAgents();
    hide *;
    Parts(ENGINE_METRICS, ENGINE_SNAPSHOT, AgentCatalog());
    AllParts();
  }

  lemma AllParts()
    ensures All() == ENGINE_METRICS + ENGINE_SNAPSHOT + AgentCatalog()
  {
  }

  lemma Parts(a: seq<Series>, b: seq<Series>, c: seq<Series>)
    requires forall e :: e in a || e in b ==> e.source != Agent
    requires forall e :: e in c ==> e.source == Agent
    ensures WithSource(a + b + c, Agent) == c
  {
    hide WithSource;
    WithSourceAll(a, Agent);
    WithSourceAll(b, Agent);
    WithSourceAll(c, Agent);
    WithSourceAppend(a + b, c, Agent);
    WithSourceAppend(a, b, Agent);
  }

  lemma {:induction false} CollectedAppend(samples: seq<Measurement>, a: seq<Series>, b: seq<Series>, instance: string, ts: nat)
    ensures Collected(samples, a + b, instance, ts) == Collected(samples, a, instance, ts) + Collected(samples, b, instance, ts)
  {
    hide EntryValue, Stored;
    if a == [] {
      assert a + b == b;
    } else {
      assert (a + b)[1..] == a[1..] + b;
      CollectedAppend(samples, a[1..], b, instance, ts);
      Assoc(Stored(EntryValue(samples, a[0]), instance, ts, a[0].name),
            Collected(samples, a[1..], instance, ts), Collected(samples, b, instance, ts));
    }
  }

  lemma CollectedNothing(samples: seq<Measurement>, instance: string, ts: nat)
    ensures Collected(samples, [], instance, ts) == []
  {
  }

  // ---- looking values up ---------------------------------------------------------------

  lemma {:induction false} ValueOfAppend(a: seq<Measurement>, b: seq<Measurement>, metric: string, selector: Option<LabelPair>)
    ensures ValueOf(a + b, metric, selector) ==
      if ValueOf(a, metric, selector).Some? then ValueOf(a, metric, selector) else ValueOf(b, metric, selector)
  {
    hide LabelOf;
    if a == [] {
      assert a + b == b;
    } else {
      assert (a + b)[1..] == a[1..] + b;
      ValueOfAppend(a[1..], b, metric, selector);
    }
  }

  lemma {:induction false} ValueOfOther(samples: seq<Measurement>, metric: string, selector: Option<LabelPair>)
    requires forall m :: m in samples ==> m.metric != metric
    ensures ValueOf(samples, metric, selector) == None
  {
    if samples != [] {
      assert samples[0] in samples;
      ValueOfOther(samples[1..], metric, selector);
    }
  }

  /** The sample a lookup wants: of this metric and, when a label is asked for, with that value first under its key. */
  ghost predicate Wanted(m: Measurement, metric: string, selector: Option<LabelPair>) {
    m.metric == metric && (selector.Some? ==> FirstUnder(m.labels, selector.value.key, selector.value.value))
  }

  ghost predicate FirstUnder(labels: seq<LabelPair>, key: string, value: string) {
    exists i :: 0 <= i < |labels| && labels[i] == LabelPair(key, value) && forall j :: 0 <= j < i ==> labels[j].key != key
  }

  lemma {:induction false} LabelOfFirst(labels: seq<LabelPair>, key: string, value: string)
    ensures LabelOf(labels, key) == Some(value) <==> FirstUnder(labels, key, value)
  {
    if labels != [] {
      var rest := labels[1..];
      LabelOfFirst(rest, key, value);
      if labels[0].key == key {
        if LabelOf(labels, key) == Some(value) {
          assert labels[0] == LabelPair(key, value);
        }
      } else {
        if FirstUnder(rest, key, value) {
          var i :| 0 <= i < |rest| && rest[i] == LabelPair(key, value) && forall j :: 0 <= j < i ==> rest[j].key != key;
          assert labels[i + 1] == rest[i];
        }
        if i :| 0 <= i < |labels| && labels[i] == LabelPair(key, value) && forall j :: 0 <= j < i ==> labels[j].key != key {
          assert rest[i - 1] == labels[i] && forall j :: 0 <= j < i - 1 ==> rest[j] == labels[j + 1];
        }
      }
    }
  }

  ghost predicate FirstWanted(samples: seq<Measurement>, i: int, metric: string, selector: Option<LabelPair>) {
    0 <= i < |samples| && Wanted(samples[i], metric, selector) && forall j :: 0 <= j < i ==> !Wanted(samples[j], metric, selector)
  }

  /** A lookup answers with the first sample wanted, and with nothing exactly when there is none. */
  lemma {:induction false} ValueOfFirst(samples: seq<Measurement>, metric: string, selector: Option<LabelPair>)
    ensures match ValueOf(samples, metric, selector)
      case Some(value) => exists i :: FirstWanted(samples, i, metric, selector) && samples[i].value == value
      case None => forall m :: m in samples ==> !Wanted(m, metric, selector)
  {
    if samples != [] {
      var rest := samples[1..];
      assert samples == [samples[0]] + rest;
      ValueOfFirst(rest, metric, selector);
      if selector.Some? {
        LabelOfFirst(samples[0].labels, selector.value.key, selector.value.value);
      }
      hide Wanted;
      assert ValueOf(samples, metric, selector).Some? && Wanted(samples[0], metric, selector) ==> FirstWanted(samples, 0, metric, selector);
      if !Wanted(samples[0], metric, selector) && ValueOf(rest, metric, selector).Some? {
        var i :| FirstWanted(rest, i, metric, selector) && rest[i].value == ValueOf(rest, metric, selector).value;
        assert samples[i + 1] == rest[i] && forall j :: 0 < j <= i ==> samples[j] == rest[j - 1];
        assert FirstWanted(samples, i + 1, metric, selector);
      }
    }
  }

  /** A labelled lookup never answers with a neighbour's value. */
  lemma {:induction false} ValueOfMeaning(samples: seq<Measurement>, metric: string, key: string, wanted: string)
    ensures var found := ValueOf(samples, metric, Some(LabelPair(key, wanted)));
      if found.Some? then
        exists m :: m in samples && m.metric == metric && LabelOf(m.labels, key) == Some(wanted) && m.value == found.value
      else
        forall m :: m in samples && m.metric == metric ==> LabelOf(m.labels, key) != Some(wanted)
  {
    hide LabelOf;
    if samples != [] {
      ValueOfMeaning(samples[1..], metric, key, wanted);
    }
  }

  ghost predicate NamesGpu(samples: seq<Measurement>, gpu: string) {
    exists m :: m in samples && "muser_gpu_" <= m.metric && LabelOf(m.labels, "gpu") == Some(gpu)
  }

  /** The devices counted are exactly the distinct `gpu` labels on device series. */
  lemma {:induction false} GpusSeenMeaning(samples: seq<Measurement>)
    ensures forall gpu :: gpu in GpusSeen(samples) <==> NamesGpu(samples, gpu)
    ensures forall i, j :: 0 <= i < j < |GpusSeen(samples)| ==> GpusSeen(samples)[i] != GpusSeen(samples)[j]
  {
    hide LabelOf;
    if samples != [] {
      var front, last := samples[..|samples| - 1], samples[|samples| - 1];
      assert samples == front + [last];
      GpusSeenMeaning(front);
      forall gpu
        ensures gpu in GpusSeen(samples) <==> NamesGpu(samples, gpu)
      {
        assert NamesGpu(samples, gpu) <==>
          NamesGpu(front, gpu) || (IsGpuMetric(last.metric) && LabelOf(last.labels, "gpu") == Some(gpu));
      }
    }
  }
}
