/**
 What a reader finds in the two exporters' documents: every sample's labels key by key, and its figure.
 Stated on the fields of the devices and of the scrape themselves, with the metric, series and label names
 written out, so that no name can carry a neighbour's figure or another key's text.
 */
module Published {
  import opened Prelude
  import opened Text
  import opened Labels
  import opened Exposition
  import opened Documents
  import opened Catalog
  import opened Store
  import opened AgentCollector
  import opened Gx10
  import opened GxToStore
  import Mac
  import MacToStore

  // ---- the gx10 exporter ---------------------------------------------------------------------

  /** The labels name this device: its index, each driver string that answered under its own key, no other key. */
  ghost predicate Identifies(labels: seq<LabelPair>, d: Device) {
    && LabelOf(labels, "gpu") == Some(Decimal(d.index))
    && LabelOf(labels, "uuid") == d.uuid
    && LabelOf(labels, "name") == d.name
    && forall p :: p in labels ==> p.key in {"gpu", "uuid", "name"} && LabelOf(labels, p.key) == Some(p.value)
  }

  lemma LabelOfCons(first: LabelPair, rest: seq<LabelPair>, key: string)
    ensures LabelOf([first] + rest, key) == if first.key == key then Some(first.value) else LabelOf(rest, key)
  {
    assert ([first] + rest)[1..] == rest;
  }

  /** At most one pair of a given key. */
  function Pairs(key: string, value: Option<string>): seq<LabelPair> {
    if value.Some? then [LabelPair(key, value.value)] else []
  }

  lemma PairsPrepend(key: string, value: Option<string>, rest: seq<LabelPair>)
    ensures LabelOf(Pairs(key, value) + rest, key) == if value.Some? then value else LabelOf(rest, key)
    ensures forall other :: other != key ==> LabelOf(Pairs(key, value) + rest, other) == LabelOf(rest, other)
    ensures LabelOf(Pairs(key, value), key) == value
  {
    assert [] + rest == rest && Pairs(key, value) + [] == Pairs(key, value);
    if value.Some? {
      var first := LabelPair(key, value.value);
      forall k
        ensures LabelOf([first] + rest, k) == if first.key == k then Some(first.value) else LabelOf(rest, k)
      {
        LabelOfCons(first, rest, k);
      }
    }
  }

  lemma DeviceIdentified(d: Device)
    ensures Identifies(DevicePairs(d), d)
  {
    assert "gpu"[0] == 'g' && "uuid"[0] == 'u' && "name"[0] == 'n';
    var index, uuid, name := Pairs("gpu", Some(Decimal(d.index))), Pairs("uuid", d.uuid), Pairs("name", d.name);
    assert DevicePairs(d) == index + (uuid + name);
    hide Decimal, LabelOf;
    PairsPrepend("gpu", Some(Decimal(d.index)), uuid + name);
    PairsPrepend("uuid", d.uuid, name);
    PairsPrepend("name", d.name, []);
    NoLabels();
    assert name + [] == name;
  }

  lemma NoLabels()
    ensures forall key :: LabelOf([], key) == None
  {
  }

  /** The figure a device publishes under a metric's name: a probe's finite answer, or its byte count. */
  ghost predicate Shows(d: Device, metric: string, value: F64) {
    || (metric == "muser_gpu_utilization_ratio" && value.Finite? && d.utilization == Some(value))
    || (metric == "muser_gpu_power_watts" && value.Finite? && d.power == Some(value))
    || (metric == "muser_gpu_temperature_celsius" && value.Finite? && d.temperature == Some(value))
    || (metric == "muser_gpu_memory_used_bytes" && exists n: nat :: d.memoryUsed == Some(n) && value == Finite(n as real))
    || (metric == "muser_gpu_memory_total_bytes" && exists n: nat :: d.memoryTotal == Some(n) && value == Finite(n as real))
  }

  lemma FieldMetrics()
    ensures MetricOf(Utilization) == "muser_gpu_utilization_ratio" && MetricOf(Power) == "muser_gpu_power_watts"
    ensures MetricOf(Temperature) == "muser_gpu_temperature_celsius"
    ensures MetricOf(MemoryUsed) == "muser_gpu_memory_used_bytes" && MetricOf(MemoryTotal) == "muser_gpu_memory_total_bytes"
  {
  }

  lemma ShownFields(d: Device, metric: string, value: F64)
    ensures Shows(d, metric, value) <==> exists f :: MetricOf(f) == metric && ReadingOf(d, f) == Some(value)
  {
    MetricsDistinct();
    FieldMetrics();
    hide MetricOf;
    if Shows(d, metric, value) {
      var f :=
        if metric == MetricOf(Utilization) then Utilization
        else if metric == MetricOf(Power) then Power
        else if metric == MetricOf(Temperature) then Temperature
        else if metric == MetricOf(MemoryUsed) then MemoryUsed
        else MemoryTotal;
      assert MetricOf(f) == metric && ReadingOf(d, f) == Some(value);
    }
    forall f | MetricOf(f) == metric && ReadingOf(d, f) == Some(value)
      ensures Shows(d, metric, value)
    {
      match f {
        case Utilization =>
        case Power =>
        case Temperature =>
        case MemoryUsed =>
        case MemoryTotal =>
      }
    }
  }

  /** A sample of a device: one of its figures, under labels that name it. */
  ghost predicate SampleOf(d: Device, m: Measurement) {
    Shows(d, m.metric, m.value) && m.labels == DevicePairs(d)
  }

  lemma ScrapedDevice(devices: seq<Device>, elapsed: F64, m: Measurement)
    requires IsGpuMetric(m.metric)
    ensures m in ScrapeSamples(devices, elapsed) <==> exists d :: d in devices && SampleOf(d, m)
  {
    hide ReadingOf, MetricOf, DevicePairs, FieldSamples, FamilySamples, Shows, AGENT_UP, AGENT_DURATION, IsGpuMetric;
    MetricsDistinct();
    FamilySamplesFrom(devices, FIELDS, m);
    AllFields();
    forall d
      ensures Shows(d, m.metric, m.value) <==> exists f :: MetricOf(f) == m.metric && ReadingOf(d, f) == Some(m.value)
    {
      ShownFields(d, m.metric, m.value);
    }
    forall f
      ensures m in FieldSamples(devices, f) <==>
        exists d :: d in devices && ReadingOf(d, f).Some? && m == Measurement(MetricOf(f), DevicePairs(d), ReadingOf(d, f).value)
    {
      FieldSamplesFrom(devices, f, m);
    }
    if m in ScrapeSamples(devices, elapsed) {
      var f :| m in FieldSamples(devices, f);
      var d :| d in devices && ReadingOf(d, f).Some? && m == Measurement(MetricOf(f), DevicePairs(d), ReadingOf(d, f).value);
      assert SampleOf(d, m);
    }
    if d :| d in devices && SampleOf(d, m) {
      var f :| MetricOf(f) == m.metric && ReadingOf(d, f) == Some(m.value);
      assert m in FieldSamples(devices, f);
    }
  }

  /**
   Read back from a rendered scrape, whatever the driver strings: every device sample carries a device's
   own figure under labels naming that device, and every figure of every device is there.
   */
  lemma EveryDeviceSample(numbers: NumberText, help: string -> string, devices: seq<Device>, elapsed: F64)
    requires Publishable(numbers, devices, elapsed) && OneLineHelp(help)
    ensures var read := Parse(numbers, DocText(RenderDoc(numbers, help, Some(devices), elapsed)));
      && (forall m :: m in read && IsGpuMetric(m.metric) ==>
            exists d :: d in devices && Shows(d, m.metric, m.value) && Identifies(m.labels, d))
      && (forall d, metric, value :: d in devices && Shows(d, metric, value) ==>
            exists m :: m in read && m.metric == metric && m.value == value && Identifies(m.labels, d))
  {
    hide Parse, DocText, RenderDoc, Publishable, Shows, Identifies, DevicePairs, IsGpuMetric, ScrapeSamples;
    RenderRoundTrip(numbers, help, devices, elapsed);
    forall m | m in ScrapeSamples(devices, elapsed) && IsGpuMetric(m.metric)
      ensures exists d :: d in devices && Shows(d, m.metric, m.value) && Identifies(m.labels, d)
    {
      ScrapedDevice(devices, elapsed, m);
      var d :| d in devices && SampleOf(d, m);
      DeviceIdentified(d);
    }
    forall d, metric, value | d in devices && Shows(d, metric, value)
      ensures exists m :: m in ScrapeSamples(devices, elapsed) && m.metric == metric && m.value == value && Identifies(m.labels, d)
    {
      var m := Measurement(metric, DevicePairs(d), value);
      ShownAreDevice(d, metric, value);
      assert SampleOf(d, m);
      ScrapedDevice(devices, elapsed, m);
      DeviceIdentified(d);
    }
  }

  lemma ShownAreDevice(d: Device, metric: string, value: F64)
    ensures Shows(d, metric, value) ==> IsGpuMetric(metric)
  {
    hide MetricOf, ReadingOf, IsGpuMetric, Shows;
    MetricsDistinct();
    ShownFields(d, metric, value);
  }

  // ---- the gx10 exporter's series -----------------------------------------------------------------

  /** The figure stored under each of a device's five series. */
  ghost predicate StoredAs(d: Device, series: string, value: real) {
    var name := "gpu" + Decimal(d.index);
    || (series == name + "_utilization_ratio" && d.utilization == Some(Finite(value)))
    || (series == name + "_power_watts" && d.power == Some(Finite(value)))
    || (series == name + "_temperature_celsius" && d.temperature == Some(Finite(value)))
    || (series == name + "_memory_used_bytes" && exists n: nat :: d.memoryUsed == Some(n) && value == n as real)
    || (series == name + "_memory_total_bytes" && exists n: nat :: d.memoryTotal == Some(n) && value == n as real)
  }

  lemma StoredFields(d: Device, series: string, value: real)
    ensures StoredAs(d, series, value) <==> exists f :: SeriesName(d.index, f) == series && ReadingOf(d, f) == Some(Finite(value))
  {
    hide Decimal;
    var name := "gpu" + Decimal(d.index);
    assert SeriesName(d.index, Utilization) == name + "_utilization_ratio";
    assert SeriesName(d.index, Power) == name + "_power_watts";
    assert SeriesName(d.index, Temperature) == name + "_temperature_celsius";
    assert SeriesName(d.index, MemoryUsed) == name + "_memory_used_bytes";
    assert SeriesName(d.index, MemoryTotal) == name + "_memory_total_bytes";
    hide SeriesName;
    forall f | SeriesName(d.index, f) == series && ReadingOf(d, f) == Some(Finite(value))
      ensures StoredAs(d, series, value)
    {
      match f {
        case Utilization =>
        case Power =>
        case Temperature =>
        case MemoryUsed =>
        case MemoryTotal =>
      }
    }
  }

  /** A scrape's batch, series by series: each holds the very figure its name says, for devices zero to seven. */
  lemma StoredByName(numbers: NumberText, help: string -> string, devices: seq<Device>, elapsed: F64, instance: string, ts: nat, s: Sample)
    requires Publishable(numbers, devices, elapsed) && OneLineHelp(help) && DistinctIndices(devices)
    ensures s in AgentBatch(Parse(numbers, DocText(RenderDoc(numbers, help, Some(devices), elapsed))), instance, ts) <==>
      && s == Sample(instance, s.series, ts, s.value, Agent, AgentMeasured)
      && exists d :: d in devices && d.index <= 7 && StoredAs(d, s.series, s.value)
  {
    hide Parse, DocText, RenderDoc, Publishable, OneLineHelp, DistinctIndices, ExpectedBatch, AgentBatch, StoredAs, ReadingOf, SeriesName;
    ScrapeReachesStore(numbers, help, devices, elapsed, instance, ts);
    ExactlyThePublishedReadings(devices, instance, ts);
    forall d
      ensures StoredAs(d, s.series, s.value) <==> exists f :: SeriesName(d.index, f) == s.series && ReadingOf(d, f) == Some(Finite(s.value))
    {
      StoredFields(d, s.series, s.value);
    }
    if d :| d in devices && d.index <= 7 && StoredAs(d, s.series, s.value) && s == Sample(instance, s.series, ts, s.value, Agent, AgentMeasured) {
      var f :| SeriesName(d.index, f) == s.series && ReadingOf(d, f) == Some(Finite(s.value));
      assert IsReading(devices, d, f, instance, ts, s);
    }
  }

  // ---- the mac exporter -----------------------------------------------------------------------

  /** The host's own name when it is known and nothing otherwise, the source line, and no other key. */
  ghost predicate NamesSource(labels: seq<LabelPair>, host: Option<string>, source: string) {
    && LabelOf(labels, "host") == host
    && LabelOf(labels, "source") == Some(source)
    && forall p :: p in labels ==> p.key in {"host", "source"} && LabelOf(labels, p.key) == Some(p.value)
  }

  lemma SourceNamed(host: Option<string>, field: Mac.PowerField)
    ensures NamesSource(Mac.FieldPairs(host, field), host, field.sourceLabel)
  {
    assert "host"[0] == 'h' && "source"[0] == 's';
    var name, source := Pairs("host", host), Pairs("source", Some(field.sourceLabel));
    assert Mac.FieldPairs(host, field) == name + source;
    hide LabelOf;
    PairsPrepend("host", host, source);
    PairsPrepend("source", Some(field.sourceLabel), []);
    NoLabels();
    assert source + [] == source;
  }

  /** The power figure a mac scrape serves under a metric's name. */
  ghost predicate Draws(scrape: Mac.Scrape, metric: string, field: Mac.PowerField) {
    && scrape.served.Some?
    && (|| (metric == "muser_host_package_power_watts" && scrape.served.value.package == Some(field))
        || (metric == "muser_host_cpu_power_watts" && scrape.served.value.cpu == Some(field))
        || (metric == "muser_host_gpu_power_watts" && scrape.served.value.gpu == Some(field)))
  }

  lemma HostMetrics()
    ensures HOST_PACKAGE == "muser_host_package_power_watts"
    ensures HOST_CPU == "muser_host_cpu_power_watts" && HOST_GPU == "muser_host_gpu_power_watts"
  {
  }

  lemma ScrapedHost(scrape: Mac.Scrape, host: Option<string>, m: Measurement)
    requires m.metric in {HOST_PACKAGE, HOST_CPU, HOST_GPU}
    ensures m in MacToStore.ScrapeSamples(scrape, host) <==>
      exists field :: Draws(scrape, m.metric, field) && m == Measurement(m.metric, Mac.FieldPairs(host, field), field.watts)
  {
    MacToStore.NamesDistinct();
    HostMetrics();
    hide HOST_PACKAGE, HOST_CPU, HOST_GPU, AGENT_UP, AGENT_DURATION, Mac.SAMPLE_AGE, Mac.FieldPairs, MacToStore.FieldSamples;
    if scrape.served.Some? {
      var served := scrape.served.value;
      HostSample(host, HOST_PACKAGE, served.package, m);
      HostSample(host, HOST_CPU, served.cpu, m);
      HostSample(host, HOST_GPU, served.gpu, m);
      hide MacToStore.ScrapeSamples;
      ServedSamples(scrape, host, m);
    }
  }

  lemma ServedSamples(scrape: Mac.Scrape, host: Option<string>, m: Measurement)
    requires scrape.served.Some? && m.metric !in {AGENT_UP, AGENT_DURATION, Mac.SAMPLE_AGE}
    ensures m in MacToStore.ScrapeSamples(scrape, host) <==>
      || m in MacToStore.FieldSamples(host, HOST_PACKAGE, scrape.served.value.package)
      || m in MacToStore.FieldSamples(host, HOST_CPU, scrape.served.value.cpu)
      || m in MacToStore.FieldSamples(host, HOST_GPU, scrape.served.value.gpu)
  {
    hide HOST_PACKAGE, HOST_CPU, HOST_GPU, AGENT_UP, AGENT_DURATION, Mac.SAMPLE_AGE, MacToStore.FieldSamples;
  }

  lemma HostSample(host: Option<string>, metric: string, field: Option<Mac.PowerField>, m: Measurement)
    ensures m in MacToStore.FieldSamples(host, metric, field) <==>
      field.Some? && m == Measurement(metric, Mac.FieldPairs(host, field.value), field.value.watts)
  {
  }

  /** Every host sample read back from a mac scrape is a figure it served, its labels naming the figure's own source. */
  lemma EveryHostSample(numbers: NumberText, comments: Mac.Comments, scrape: Mac.Scrape, host: Option<string>)
    requires Mac.OneLineComments(comments) && MacToStore.Publishable(numbers, scrape)
    ensures var read := Parse(numbers, DocText(Mac.RenderDoc(numbers, comments, scrape, host)));
      && (forall m :: m in read && m.metric in {HOST_PACKAGE, HOST_CPU, HOST_GPU} ==>
            exists field :: Draws(scrape, m.metric, field) && m.value == field.watts && NamesSource(m.labels, host, field.sourceLabel))
      && (forall metric, field :: Draws(scrape, metric, field) ==>
            exists m :: m in read && m.metric == metric && m.value == field.watts && NamesSource(m.labels, host, field.sourceLabel))
  {
    hide Parse, DocText, Mac.RenderDoc, MacToStore.Publishable, Mac.OneLineComments, NamesSource, Mac.FieldPairs,
      MacToStore.ScrapeSamples, HOST_PACKAGE, HOST_CPU, HOST_GPU;
    HostMetrics();
    MacToStore.RenderRoundTrip(numbers, comments, scrape, host);
    forall m | m in MacToStore.ScrapeSamples(scrape, host) && m.metric in {HOST_PACKAGE, HOST_CPU, HOST_GPU}
      ensures exists field :: Draws(scrape, m.metric, field) && m.value == field.watts && NamesSource(m.labels, host, field.sourceLabel)
    {
      ScrapedHost(scrape, host, m);
      var field :| Draws(scrape, m.metric, field) && m == Measurement(m.metric, Mac.FieldPairs(host, field), field.watts);
      SourceNamed(host, field);
    }
    forall metric, field | Draws(scrape, metric, field)
      ensures exists m :: m in MacToStore.ScrapeSamples(scrape, host) && m.metric == metric && m.value == field.watts && NamesSource(m.labels, host, field.sourceLabel)
    {
      var m := Measurement(metric, Mac.FieldPairs(host, field), field.watts);
      ScrapedHost(scrape, host, m);
      SourceNamed(host, field);
    }
  }
}
