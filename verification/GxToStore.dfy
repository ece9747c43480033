/** End to end: what the gx10 exporter renders for a scrape, and what the console stores from it. */
module GxToStore {
  import opened Prelude
  import opened Text
  import opened Labels
  import opened Exposition
  import opened Documents
  import opened Bucketing
  import opened Catalog
  import opened Store
  import opened Gx10
  import opened AgentCollector
  import opened ReadBack

  /** The number text of every value this scrape publishes reads back as that value. */
  ghost predicate Publishable(numbers: NumberText, devices: seq<Device>, elapsed: F64) {
    && Denotes(numbers, "0", Finite(0.0))
    && Denotes(numbers, "1", Finite(1.0))
    && Denotes(numbers, numbers.float(elapsed), elapsed)
    && forall d, f :: d in devices && ReadingOf(d, f).Some? ==>
         Denotes(numbers, ReadingText(numbers, d, f).value, ReadingOf(d, f).value)
  }

  ghost predicate OneLineHelp(help: string -> string) {
    forall metric :: '\n' !in help(metric)
  }

  /** The samples of one family: one per device that published the field, in device order. */
  function FieldSamples(devices: seq<Device>, field: Field): seq<Measurement> {
    if devices == [] then []
    else
      (match ReadingOf(devices[0], field)
       case Some(value) => [Measurement(MetricOf(field), DevicePairs(devices[0]), value)]
       case None => [])
      + FieldSamples(devices[1..], field)
  }

  function FamilySamples(devices: seq<Device>, fields: seq<Field>): seq<Measurement> {
    if fields == [] then [] else FieldSamples(devices, fields[0]) + FamilySamples(devices, fields[1..])
  }

  function AgentLineSample(metric: string, value: F64): Measurement {
    Measurement(metric, [LabelPair("agent", AGENT)], value)
  }

  /** Every sample an answered scrape publishes, in document order. */
  function ScrapeSamples(devices: seq<Device>, elapsed: F64): seq<Measurement> {
    [AgentLineSample(AGENT_UP, Finite(1.0)), AgentLineSample(AGENT_DURATION, elapsed)] + FamilySamples(devices, FIELDS)
  }

  // ---- the document parses to its samples ---------------------------------------------------

  lemma GpuNames()
    ensures IsMetricName(GPU_UTILIZATION)
    ensures IsMetricName(GPU_POWER)
  {
  }

  lemma TemperatureName()
    ensures IsMetricName(GPU_TEMPERATURE)
  {
  }

  lemma MemoryNames()
    ensures IsMetricName(GPU_MEMORY_USED)
    ensures IsMetricName(GPU_MEMORY_TOTAL)
  {
  }

  lemma MetricNames()
    ensures forall f: Field :: IsMetricName(MetricOf(f)) && '\n' !in MetricOf(f)
    ensures IsMetricName(AGENT_UP) && '\n' !in AGENT_UP
    ensures IsMetricName(AGENT_DURATION) && '\n' !in AGENT_DURATION
  {
    GpuNames();
    TemperatureName();
    MemoryNames();
    AgentMetricNames();
    hide IsMetricName;
    forall f: Field
      ensures IsMetricName(MetricOf(f)) && '\n' !in MetricOf(f)
    {
      MetricNamePlain(MetricOf(f));
    }
    MetricNamePlain(AGENT_UP);
    MetricNamePlain(AGENT_DURATION);
  }

  lemma DevicePrintable(device: Device)
    ensures Printable(DevicePairs(device))
  {
    assert IsKey("gpu") && IsKey("uuid") && IsKey("name");
    hide IsKey;
  }

  lemma FamilyPrintable(numbers: NumberText, name: string, help: string, lines: seq<DocLine>)
    requires PrintableDoc(numbers, lines) && '\n' !in name && '\n' !in help
    ensures PrintableDoc(numbers, FamilyDoc(name, help, lines))
    ensures Measurements(FamilyDoc(name, help, lines)) == Measurements(lines)
  {
    hide PrintableDoc, Measurements;
    if lines != [] {
      var first, second := Comment("# HELP " + name + " " + help), Comment("# TYPE " + name + " gauge");
      HeadersOneLine(name, help);
      CommentPrintable(numbers, first.text);
      CommentPrintable(numbers, second.text);
      PrintableAppend(numbers, [first], [second]);
      PrintableAppend(numbers, [first] + [second], lines);
      MeasurementsAppend([first], [second]);
      MeasurementsAppend([first] + [second], lines);
      assert FamilyDoc(name, help, lines) == [first] + [second] + lines;
      assert [] + [] + Measurements(lines) == Measurements(lines);
    }
  }

  /** One device's line, when it has one. */
  lemma FieldLinePrintable(numbers: NumberText, d: Device, field: Field)
    requires ReadingOf(d, field).Some?
    requires Denotes(numbers, ReadingText(numbers, d, field).value, ReadingOf(d, field).value)
    ensures var doc := [FieldLine(d, field, ReadingText(numbers, d, field).value)];
      && PrintableDoc(numbers, doc)
      && Measurements(doc) == [Measurement(MetricOf(field), DevicePairs(d), ReadingOf(d, field).value)]
  {
    ReadingsAgree(numbers, d, field);
    hide Denotes, ReadingText, ReadingOf;
    MetricNames();
    DevicePrintable(d);
    hide IsMetricName, Printable, MetricOf, DevicePairs;
    var doc := [FieldLine(d, field, ReadingText(numbers, d, field).value)];
    assert doc[1..] == [];
  }

  lemma {:induction false} FieldPrintable(numbers: NumberText, devices: seq<Device>, elapsed: F64, field: Field)
    requires Publishable(numbers, devices, elapsed)
    ensures PrintableDoc(numbers, FieldLines(numbers, devices, field))
    ensures Measurements(FieldLines(numbers, devices, field)) == FieldSamples(devices, field)
  {
    if devices == [] {
      assert PrintableDoc(numbers, []);
    } else {
      var d, tail := devices[0], devices[1..];
      assert d in devices && forall e :: e in tail ==> e in devices;
      ReadingsAgree(numbers, d, field);
      FieldPrintable(numbers, tail, elapsed, field);
      var rest := FieldLines(numbers, tail, field);
      if ReadingOf(d, field).Some? {
        FieldLinePrintable(numbers, d, field);
        hide Publishable, ReadingText, Denotes, ReadingOf, PrintableDoc, Measurements, FieldLine;
        var line := [FieldLine(d, field, ReadingText(numbers, d, field).value)];
        PrintableAppend(numbers, line, rest);
        MeasurementsAppend(line, rest);
      } else {
        hide Publishable, ReadingText, ReadingOf, PrintableDoc, Measurements;
        assert FieldLines(numbers, devices, field) == rest;
        assert FieldSamples(devices, field) == FieldSamples(tail, field);
      }
    }
  }

  lemma ReadingsAgree(numbers: NumberText, device: Device, field: Field)
    ensures ReadingText(numbers, device, field).Some? <==> ReadingOf(device, field).Some?
  {
  }

  lemma {:induction false} FamiliesPrintable(numbers: NumberText, help: string -> string, devices: seq<Device>, elapsed: F64, fields: seq<Field>)
    requires Publishable(numbers, devices, elapsed) && OneLineHelp(help)
    ensures PrintableDoc(numbers, FamiliesDoc(numbers, help, devices, fields))
    ensures Measurements(FamiliesDoc(numbers, help, devices, fields)) == FamilySamples(devices, fields)
  {
    if fields != [] {
      hide Publishable, PrintableDoc, FamilyDoc, FieldLines, FieldSamples, MetricOf;
      MetricNames();
      var name := MetricOf(fields[0]);
      var lines := FieldLines(numbers, devices, fields[0]);
      FieldPrintable(numbers, devices, elapsed, fields[0]);
      FamilyPrintable(numbers, name, help(name), lines);
      FamiliesPrintable(numbers, help, devices, elapsed, fields[1..]);
      var family, rest := FamilyDoc(name, help(name), lines), FamiliesDoc(numbers, help, devices, fields[1..]);
      PrintableAppend(numbers, family, rest);
      MeasurementsAppend(family, rest);
    }
  }

  lemma AgentLinePrintable(numbers: NumberText, metric: string, value: F64, token: string)
    requires IsMetricName(metric) && Denotes(numbers, token, value)
    ensures var doc := [Printed(AgentLineSample(metric, value), token)];
      PrintableDoc(numbers, doc) && Measurements(doc) == [AgentLineSample(metric, value)]
  {
    hide IsMetricName, Denotes;
    assert IsKey("agent");
    var doc := [Printed(AgentLineSample(metric, value), token)];
    assert doc[1..] == [];
  }

  lemma AgentFamilyPrints(numbers: NumberText, help: string, metric: string, value: F64, token: string)
    requires IsMetricName(metric) && '\n' !in metric && '\n' !in help && Denotes(numbers, token, value)
    ensures var doc := FamilyDoc(metric, help, [Printed(AgentLineSample(metric, value), token)]);
      PrintableDoc(numbers, doc) && Measurements(doc) == [AgentLineSample(metric, value)]
  {
    AgentLinePrintable(numbers, metric, value, token);
    hide IsMetricName, Denotes, PrintableDoc, Measurements, FamilyDoc;
    FamilyPrintable(numbers, metric, help, [Printed(AgentLineSample(metric, value), token)]);
  }

  lemma DownRoundTrip(numbers: NumberText, help: string -> string, elapsed: F64)
    requires Denotes(numbers, "0", Finite(0.0)) && OneLineHelp(help)
    ensures Parse(numbers, DocText(RenderDoc(numbers, help, None, elapsed))) == [AgentLineSample(AGENT_UP, Finite(0.0))]
  {
    MetricNames();
    hide IsMetricName, Denotes, PrintableDoc, Measurements, FamilyDoc, Parse, DocText;
    AgentFamilyPrints(numbers, help(AGENT_UP), AGENT_UP, Finite(0.0), "0");
    DocumentRoundTrip(numbers, FamilyDoc(AGENT_UP, help(AGENT_UP), [UpLine(false)]));
  }

  /**
   The document round trip: whatever the driver strings, parsing the rendered scrape yields exactly
   the samples it published, in order. No label value can add, split or drop a line.
   */
  lemma RenderRoundTrip(numbers: NumberText, help: string -> string, devices: seq<Device>, elapsed: F64)
    requires Publishable(numbers, devices, elapsed) && OneLineHelp(help)
    ensures Parse(numbers, DocText(RenderDoc(numbers, help, Some(devices), elapsed))) == ScrapeSamples(devices, elapsed)
    ensures Parse(numbers, DocText(RenderDoc(numbers, help, None, elapsed))) == [AgentLineSample(AGENT_UP, Finite(0.0))]
  {
    DownRoundTrip(numbers, help, elapsed);
    MetricNames();
    FamiliesPrintable(numbers, help, devices, elapsed, FIELDS);
    hide IsMetricName, PrintableDoc, Measurements, FamilyDoc, FamiliesDoc, Parse, DocText, FamilySamples, Denotes;
    AgentFamilyPrints(numbers, help(AGENT_UP), AGENT_UP, Finite(1.0), "1");
    AgentFamilyPrints(numbers, help(AGENT_DURATION), AGENT_DURATION, elapsed, numbers.float(elapsed));
    var up := FamilyDoc(AGENT_UP, help(AGENT_UP), [UpLine(true)]);
    var duration := FamilyDoc(AGENT_DURATION, help(AGENT_DURATION), [DurationLine(numbers, elapsed)]);
    var rest := FamiliesDoc(numbers, help, devices, FIELDS);
    BothPrint(numbers, duration, rest);
    BothPrint(numbers, up, duration + rest);
    DocumentRoundTrip(numbers, up + (duration + rest));
    var a, b := AgentLineSample(AGENT_UP, Finite(1.0)), AgentLineSample(AGENT_DURATION, elapsed);
    Assoc([a], [b], FamilySamples(devices, FIELDS));
  }

  // ---- looking up one device's reading ----------------------------------------------------------

  /** The reading of the first device printed with this index that published this field. */
  function DeviceReading(devices: seq<Device>, field: Field, gpu: string): Option<F64> {
    if devices == [] then None
    else if Decimal(devices[0].index) == gpu && ReadingOf(devices[0], field).Some? then ReadingOf(devices[0], field)
    else DeviceReading(devices[1..], field, gpu)
  }

  lemma GpuLabelOf(device: Device)
    ensures LabelOf(DevicePairs(device), "gpu") == Some(Decimal(device.index))
  {
    assert DevicePairs(device)[0] == LabelPair("gpu", Decimal(device.index));
  }

  lemma {:induction false} FieldValue(devices: seq<Device>, field: Field, gpu: string)
    ensures ValueOf(FieldSamples(devices, field), MetricOf(field), Some(LabelPair("gpu", gpu))) ==
      DeviceReading(devices, field, gpu)
  {
    if devices != [] {
      FieldValue(devices[1..], field, gpu);
      GpuLabelOf(devices[0]);
      hide MetricOf, ReadingOf, LabelOf, DevicePairs, Decimal;
      if ReadingOf(devices[0], field).Some? {
        var m := Measurement(MetricOf(field), DevicePairs(devices[0]), ReadingOf(devices[0], field).value);
        assert ([m] + FieldSamples(devices[1..], field))[1..] == FieldSamples(devices[1..], field);
      } else {
        assert [] + FieldSamples(devices[1..], field) == FieldSamples(devices[1..], field);
      }
    }
  }

  lemma {:induction false} FieldSamplesMetric(devices: seq<Device>, field: Field)
    ensures forall m :: m in FieldSamples(devices, field) ==> m.metric == MetricOf(field)
  {
    hide MetricOf, ReadingOf, DevicePairs;
    if devices != [] {
      FieldSamplesMetric(devices[1..], field);
    }
  }

  lemma {:induction false} FamilySamplesMetric(devices: seq<Device>, fields: seq<Field>)
    ensures forall m :: m in FamilySamples(devices, fields) ==> exists f :: f in fields && m.metric == MetricOf(f)
  {
    hide MetricOf, FieldSamples;
    if fields != [] {
      FieldSamplesMetric(devices, fields[0]);
      FamilySamplesMetric(devices, fields[1..]);
    }
  }

  /** The seven gx10 metrics and the three host metrics are told apart by name. */
  lemma MetricsDistinct()
    ensures forall f: Field, g: Field :: MetricOf(f) == MetricOf(g) ==> f == g
    ensures forall f: Field :: MetricOf(f) !in {AGENT_UP, AGENT_DURATION, HOST_PACKAGE, HOST_CPU, HOST_GPU}
    ensures AGENT_UP != AGENT_DURATION && {HOST_PACKAGE, HOST_CPU, HOST_GPU} !! {AGENT_UP, AGENT_DURATION}
    ensures forall f: Field :: IsGpuMetric(MetricOf(f))
    ensures !IsGpuMetric(AGENT_UP) && !IsGpuMetric(AGENT_DURATION)
  {
    assert |GPU_UTILIZATION| == 27 && |GPU_POWER| == 21 && |GPU_TEMPERATURE| == 29 && |GPU_MEMORY_USED| == 27 && |GPU_MEMORY_TOTAL| == 28;
    assert GPU_UTILIZATION[10] == 'u' && GPU_MEMORY_USED[10] == 'm';
    assert |AGENT_UP| == 14 && |AGENT_DURATION| == 35 && |HOST_PACKAGE| == 30 && |HOST_CPU| == 26 && |HOST_GPU| == 26;
    assert AGENT_UP[6] == 'a' && AGENT_DURATION[6] == 'a' && GPU_PREFIX[6] == 'g';
  }

  lemma {:induction false} FamilyValue(devices: seq<Device>, fields: seq<Field>, field: Field, gpu: string)
    ensures ValueOf(FamilySamples(devices, fields), MetricOf(field), Some(LabelPair("gpu", gpu))) ==
      if field in fields then DeviceReading(devices, field, gpu) else None
  {
    hide MetricOf, FieldSamples, ValueOf, DeviceReading;
    var selector := Some(LabelPair("gpu", gpu));
    if fields == [] {
      ValueOfOther([], MetricOf(field), selector);
    } else {
      ValueOfAppend(FieldSamples(devices, fields[0]), FamilySamples(devices, fields[1..]), MetricOf(field), selector);
      FamilyValue(devices, fields[1..], field, gpu);
      if fields[0] == field {
        FieldValue(devices, field, gpu);
      } else {
        MetricsDistinct();
        FieldSamplesMetric(devices, fields[0]);
        ValueOfOther(FieldSamples(devices, fields[0]), MetricOf(field), selector);
      }
    }
  }

  /** In a parsed scrape every device lookup finds that device's reading, and no host series is found. */
  lemma ScrapeValues(devices: seq<Device>, elapsed: F64, field: Field, gpu: string)
    ensures ValueOf(ScrapeSamples(devices, elapsed), MetricOf(field), Some(LabelPair("gpu", gpu))) ==
      DeviceReading(devices, field, gpu)
    ensures forall host :: host in {HOST_PACKAGE, HOST_CPU, HOST_GPU} ==>
      ValueOf(ScrapeSamples(devices, elapsed), host, None) == None
    ensures ValueOf(ScrapeSamples(devices, elapsed), AGENT_UP, None) == Some(Finite(1.0))
  {
    MetricsDistinct();
    hide MetricOf, FamilySamples, ValueOf, DeviceReading;
    var head := [AgentLineSample(AGENT_UP, Finite(1.0)), AgentLineSample(AGENT_DURATION, elapsed)];
    var rest := FamilySamples(devices, FIELDS);
    var selector := Some(LabelPair("gpu", gpu));
    ValueOfAppend(head, rest, MetricOf(field), selector);
    ValueOfOther(head, MetricOf(field), selector);
    FamilyValue(devices, FIELDS, field, gpu);
    assert field in FIELDS;
    FamilySamplesMetric(devices, FIELDS);
    forall host | host in {HOST_PACKAGE, HOST_CPU, HOST_GPU}
      ensures ValueOf(ScrapeSamples(devices, elapsed), host, None) == None
    {
      assert ScrapeSamples(devices, elapsed) == head + rest;
      ValueOfOther(ScrapeSamples(devices, elapsed), host, None);
    }
    FirstUp(rest, elapsed);
  }

  lemma FirstUp(rest: seq<Measurement>, elapsed: F64)
    ensures ValueOf([AgentLineSample(AGENT_UP, Finite(1.0)), AgentLineSample(AGENT_DURATION, elapsed)] + rest, AGENT_UP, None) == Some(Finite(1.0))
  {
  }

  // ---- what is stored ---------------------------------------------------------------------------------

  function SuffixOf(field: Field): string {
    match field
    case Utilization => "_utilization_ratio"
    case Power => "_power_watts"
    case Temperature => "_temperature_celsius"
    case MemoryUsed => "_memory_used_bytes"
    case MemoryTotal => "_memory_total_bytes"
  }

  function DeviceBatch(devices: seq<Device>, fields: seq<Field>, gpu: string, instance: string, ts: nat): seq<Sample> {
    if fields == [] then []
    else
      Stored(DeviceReading(devices, fields[0], gpu), instance, ts, "gpu" + gpu + SuffixOf(fields[0]))
      + DeviceBatch(devices, fields[1..], gpu, instance, ts)
  }

  /** One sample per catalogued device and published field, device by device. */
  function ExpectedBatch(devices: seq<Device>, gpus: seq<string>, instance: string, ts: nat): seq<Sample> {
    if gpus == [] then []
    else DeviceBatch(devices, FIELDS, gpus[0], instance, ts) + ExpectedBatch(devices, gpus[1..], instance, ts)
  }

  function DeviceEntry(gpu: string, field: Field): Series {
    AgentGpu(gpu, SuffixOf(field), MetricOf(field))
  }

  function DeviceEntries(gpu: string, fields: seq<Field>): seq<Series> {
    if fields == [] then [] else [DeviceEntry(gpu, fields[0])] + DeviceEntries(gpu, fields[1..])
  }

  lemma DeviceEntriesAre(gpu: string)
    ensures AgentDevice(gpu) == DeviceEntries(gpu, FIELDS)
  {
    hide MetricOf, SuffixOf;
    var f := FIELDS;
    assert f[1..] == [Power, Temperature, MemoryUsed, MemoryTotal];
    assert f[1..][1..] == [Temperature, MemoryUsed, MemoryTotal];
    assert [Temperature, MemoryUsed, MemoryTotal][1..] == [MemoryUsed, MemoryTotal];
    assert [MemoryUsed, MemoryTotal][1..] == [MemoryTotal];
    assert [MemoryTotal][1..] == [];
    assert DeviceEntries(gpu, [MemoryTotal]) == [DeviceEntry(gpu, MemoryTotal)] + DeviceEntries(gpu, []);
    assert DeviceEntries(gpu, [MemoryUsed, MemoryTotal]) == [DeviceEntry(gpu, MemoryUsed), DeviceEntry(gpu, MemoryTotal)];
    assert DeviceEntries(gpu, [Temperature, MemoryUsed, MemoryTotal]) ==
      [DeviceEntry(gpu, Temperature), DeviceEntry(gpu, MemoryUsed), DeviceEntry(gpu, MemoryTotal)];
    assert DeviceEntries(gpu, f[1..]) ==
      [DeviceEntry(gpu, Power), DeviceEntry(gpu, Temperature), DeviceEntry(gpu, MemoryUsed), DeviceEntry(gpu, MemoryTotal)];
    EntryShapes(gpu);
  }

  lemma EntryShapes(gpu: string)
    ensures DeviceEntry(gpu, Utilization) == AgentGpu(gpu, "_utilization_ratio", GPU_UTILIZATION)
    ensures DeviceEntry(gpu, Power) == AgentGpu(gpu, "_power_watts", GPU_POWER)
    ensures DeviceEntry(gpu, Temperature) == AgentGpu(gpu, "_temperature_celsius", GPU_TEMPERATURE)
    ensures DeviceEntry(gpu, MemoryUsed) == AgentGpu(gpu, "_memory_used_bytes", GPU_MEMORY_USED)
    ensures DeviceEntry(gpu, MemoryTotal) == AgentGpu(gpu, "_memory_total_bytes", GPU_MEMORY_TOTAL)
  {
  }

  lemma {:induction false} CollectedDevice(devices: seq<Device>, elapsed: F64, fields: seq<Field>, gpu: string, instance: string, ts: nat)
    ensures Collected(ScrapeSamples(devices, elapsed), DeviceEntries(gpu, fields), instance, ts) ==
      DeviceBatch(devices, fields, gpu, instance, ts)
  {
    hide ScrapeSamples, ValueOf, DeviceReading, MetricOf, SuffixOf, Stored;
    if fields != [] {
      ScrapeValues(devices, elapsed, fields[0], gpu);
      CollectedDevice(devices, elapsed, fields[1..], gpu, instance, ts);
      var entries := DeviceEntries(gpu, fields);
      assert entries[0] == DeviceEntry(gpu, fields[0]) && entries[1..] == DeviceEntries(gpu, fields[1..]);
    }
  }

  lemma {:induction false} CollectedDevices(devices: seq<Device>, elapsed: F64, gpus: seq<string>, instance: string, ts: nat)
    ensures Collected(ScrapeSamples(devices, elapsed), AgentDevices(gpus), instance, ts) ==
      ExpectedBatch(devices, gpus, instance, ts)
  {
    hide ScrapeSamples, Collected, AgentDevice, DeviceEntries, DeviceBatch;
    if gpus == [] {
      CollectedNothing(ScrapeSamples(devices, elapsed), instance, ts);
    } else {
      DeviceEntriesAre(gpus[0]);
      CollectedDevice(devices, elapsed, FIELDS, gpus[0], instance, ts);
      CollectedDevices(devices, elapsed, gpus[1..], instance, ts);
      CollectedAppend(ScrapeSamples(devices, elapsed), AgentDevice(gpus[0]), AgentDevices(gpus[1..]), instance, ts);
    }
  }

  lemma CollectedHosts(devices: seq<Device>, elapsed: F64, instance: string, ts: nat)
    ensures Collected(ScrapeSamples(devices, elapsed), AgentHosts(), instance, ts) == []
  {
    hide ScrapeSamples, ValueOf;
    ScrapeValues(devices, elapsed, Power, "0");
    var hosts := AgentHosts();
    assert hosts[1..][1..][1..] == [];
    assert hosts[1..] == [hosts[1], hosts[2]] && hosts[1..][1..] == [hosts[2]];
    var samples := ScrapeSamples(devices, elapsed);
    assert Collected(samples, [hosts[2]], instance, ts) == [];
    assert Collected(samples, hosts[1..], instance, ts) == [];
  }

  /**
   Exporter to store: for every answered scrape, whatever the driver strings, the batch grows by
   exactly the expected samples; for a source that is down it does not grow at all.
   */
  lemma ScrapeReachesStore(numbers: NumberText, help: string -> string, devices: seq<Device>, elapsed: F64, instance: string, ts: nat)
    requires Publishable(numbers, devices, elapsed) && OneLineHelp(help)
    ensures AgentBatch(Parse(numbers, DocText(RenderDoc(numbers, help, Some(devices), elapsed))), instance, ts) ==
      ExpectedBatch(devices, GPU_LABELS, instance, ts)
    ensures var down := Parse(numbers, DocText(RenderDoc(numbers, help, None, elapsed)));
      AgentBatch(down, instance, ts) == [] && GpusSeen(down) == []
  {
    hide Parse, DocText, RenderDoc, Publishable, OneLineHelp, ScrapeSamples, AgentDevices, All, Collected, WithSource;
    RenderRoundTrip(numbers, help, devices, elapsed);
    AgentEntries();
    ScrapeValues(devices, elapsed, Power, "0");
    CollectedAppend(ScrapeSamples(devices, elapsed), AgentDevices(GPU_LABELS), AgentHosts(), instance, ts);
    CollectedDevices(devices, elapsed, GPU_LABELS, instance, ts);
    CollectedHosts(devices, elapsed, instance, ts);
    DownSample();
  }

  lemma DownSample()
    ensures ValueOf([AgentLineSample(AGENT_UP, Finite(0.0))], AGENT_UP, None) == Some(Finite(0.0))
    ensures GpusSeen([AgentLineSample(AGENT_UP, Finite(0.0))]) == []
  {
    hide LabelOf;
    MetricsDistinct();
    var samples := [AgentLineSample(AGENT_UP, Finite(0.0))];
    assert samples[..0] == [];
    assert GpusSeen(samples[..0]) == [];
  }

  // ---- the expected batch, said by device -------------------------------------------------------------

  ghost predicate DistinctIndices(devices: seq<Device>) {
    forall i, j :: 0 <= i < j < |devices| ==> devices[i].index != devices[j].index
  }

  function SeriesName(index: nat, field: Field): string {
    "gpu" + Decimal(index) + SuffixOf(field)
  }

  lemma {:induction false} DeviceReadingMeaning(devices: seq<Device>, field: Field, gpu: string, value: F64)
    requires DistinctIndices(devices)
    ensures DeviceReading(devices, field, gpu) == Some(value) <==>
      exists d :: d in devices && Decimal(d.index) == gpu && ReadingOf(d, field) == Some(value)
  {
    hide ReadingOf, Decimal;
    if devices != [] {
      var first, tail := devices[0], devices[1..];
      assert devices == [first] + tail;
      DeviceReadingMeaning(tail, field, gpu, value);
      forall d | d in tail && Decimal(d.index) == Decimal(first.index)
        ensures false
      {
        DecimalInjective(d.index, first.index);
      }
    }
  }

  lemma GpuLabels(gpu: string)
    ensures gpu in GPU_LABELS <==> exists n: nat :: n < MAX_AGENT_GPUS && gpu == Decimal(n)
    ensures forall i, j :: 0 <= i < j < |GPU_LABELS| ==> GPU_LABELS[i] != GPU_LABELS[j]
    ensures forall g :: g in GPU_LABELS ==> |g| == 1
  {
    forall n: nat | n < MAX_AGENT_GPUS
      ensures GPU_LABELS[n] == Decimal(n)
    {
      assert Decimal(n) == [DigitChar(n)];
      if n < 4 {
        assert n in {0, 1, 2, 3};
      } else {
        assert n in {4, 5, 6, 7};
      }
    }
    assert |GPU_LABELS| == MAX_AGENT_GPUS;
    hide Decimal;
    if gpu in GPU_LABELS {
      var n: nat :| n < |GPU_LABELS| && GPU_LABELS[n] == gpu;
      assert gpu == Decimal(n);
    }
    forall i, j | 0 <= i < j < |GPU_LABELS|
      ensures GPU_LABELS[i] != GPU_LABELS[j]
    {
      DecimalInjective(i, j);
    }
  }

  ghost predicate FromDevice(devices: seq<Device>, gpu: string, field: Field, instance: string, ts: nat, s: Sample) {
    s in Stored(DeviceReading(devices, field, gpu), instance, ts, "gpu" + gpu + SuffixOf(field))
  }

  lemma {:induction false} DeviceBatchMeaning(devices: seq<Device>, fields: seq<Field>, gpu: string, instance: string, ts: nat, s: Sample)
    ensures s in DeviceBatch(devices, fields, gpu, instance, ts) <==>
      exists f :: f in fields && FromDevice(devices, gpu, f, instance, ts, s)
  {
    hide DeviceReading, SuffixOf, Stored;
    if fields != [] {
      assert fields == [fields[0]] + fields[1..];
      DeviceBatchMeaning(devices, fields[1..], gpu, instance, ts, s);
      assert (exists f :: f in fields && FromDevice(devices, gpu, f, instance, ts, s)) <==>
        FromDevice(devices, gpu, fields[0], instance, ts, s)
        || exists f :: f in fields[1..] && FromDevice(devices, gpu, f, instance, ts, s);
    }
  }

  lemma {:induction false} ExpectedBatchMeaning(devices: seq<Device>, gpus: seq<string>, instance: string, ts: nat, s: Sample)
    ensures s in ExpectedBatch(devices, gpus, instance, ts) <==>
      exists gpu, f :: gpu in gpus && FromDevice(devices, gpu, f, instance, ts, s)
  {
    hide DeviceBatch, FromDevice;
    if gpus != [] {
      assert gpus == [gpus[0]] + gpus[1..];
      ExpectedBatchMeaning(devices, gpus[1..], instance, ts, s);
      DeviceBatchMeaning(devices, FIELDS, gpus[0], instance, ts, s);
      AllFields();
    }
  }

  lemma AllFields()
    ensures forall f: Field :: f in FIELDS
  {
    var fields := FIELDS;
    assert fields[0] == Utilization && fields[1] == Power && fields[2] == Temperature;
    assert fields[3] == MemoryUsed && fields[4] == MemoryTotal;
    forall f: Field
      ensures f in FIELDS
    {
      match f {
        case Utilization =>
        case Power =>
        case Temperature =>
        case MemoryUsed =>
        case MemoryTotal =>
      }
    }
  }

  /** A device's published reading, as the sample it must become. */
  ghost predicate IsReading(devices: seq<Device>, d: Device, f: Field, instance: string, ts: nat, s: Sample) {
    && d in devices && d.index < MAX_AGENT_GPUS
    && ReadingOf(d, f) == Some(Finite(s.value))
    && s == AgentSample(instance, ts, SeriesName(d.index, f), s.value)
  }

  lemma FromDeviceIsReading(devices: seq<Device>, gpu: string, f: Field, instance: string, ts: nat, s: Sample)
    requires DistinctIndices(devices) && gpu in GPU_LABELS && FromDevice(devices, gpu, f, instance, ts, s)
    ensures exists d :: IsReading(devices, d, f, instance, ts, s)
  {
    hide ReadingOf, SuffixOf, Decimal, DeviceReading;
    DeviceReadingMeaning(devices, f, gpu, Finite(s.value));
    var d :| d in devices && Decimal(d.index) == gpu && ReadingOf(d, f) == Some(Finite(s.value));
    GpuLabels(gpu);
    var n: nat :| n < MAX_AGENT_GPUS && gpu == Decimal(n);
    DecimalInjective(n, d.index);
    assert IsReading(devices, d, f, instance, ts, s);
  }

  lemma ReadingIsFromDevice(devices: seq<Device>, d: Device, f: Field, instance: string, ts: nat, s: Sample)
    requires DistinctIndices(devices) && IsReading(devices, d, f, instance, ts, s)
    ensures Decimal(d.index) in GPU_LABELS && FromDevice(devices, Decimal(d.index), f, instance, ts, s)
  {
    hide ReadingOf, SuffixOf, Decimal, DeviceReading;
    DeviceReadingMeaning(devices, f, Decimal(d.index), Finite(s.value));
    GpuLabels(Decimal(d.index));
  }

  /**
   What reaches the store is exactly one agent-measured sample per present finite reading of a device
   with index below eight, carrying that device's value under that device's series, and nothing else.
   */
  lemma ExactlyThePublishedReadings(devices: seq<Device>, instance: string, ts: nat)
    requires DistinctIndices(devices)
    ensures var batch := ExpectedBatch(devices, GPU_LABELS, instance, ts);
      && (forall s :: s in batch <==> exists d, f :: IsReading(devices, d, f, instance, ts, s))
      && DistinctSeries(batch)
  {
    hide FromDevice, IsReading, DistinctIndices, ExpectedBatch;
    forall s
      ensures s in ExpectedBatch(devices, GPU_LABELS, instance, ts) <==> exists d, f :: IsReading(devices, d, f, instance, ts, s)
    {
      ExpectedBatchMeaning(devices, GPU_LABELS, instance, ts, s);
      if gpu, f :| gpu in GPU_LABELS && FromDevice(devices, gpu, f, instance, ts, s) {
        FromDeviceIsReading(devices, gpu, f, instance, ts, s);
      }
      if d, f :| IsReading(devices, d, f, instance, ts, s) {
        ReadingIsFromDevice(devices, d, f, instance, ts, s);
      }
    }
    GpuLabels("0");
    ExpectedDistinct(devices, GPU_LABELS, instance, ts);
  }

  lemma NamesApart(gpu: string, f: Field, other: string, g: Field)
    requires |gpu| == 1 && |other| == 1
    requires "gpu" + gpu + SuffixOf(f) == "gpu" + other + SuffixOf(g)
    ensures gpu == other && f == g
  {
    var x, y := "gpu" + gpu + SuffixOf(f), "gpu" + other + SuffixOf(g);
    assert x[3] == gpu[0] && y[3] == other[0];
    assert x[4..] == SuffixOf(f) && y[4..] == SuffixOf(g);
    SuffixesApart(f, g);
  }

  lemma SuffixesApart(f: Field, g: Field)
    ensures SuffixOf(f) == SuffixOf(g) ==> f == g
  {
    assert |SuffixOf(Utilization)| == 18 && |SuffixOf(Power)| == 12 && |SuffixOf(Temperature)| == 20;
    assert |SuffixOf(MemoryUsed)| == 18 && |SuffixOf(MemoryTotal)| == 19;
    assert SuffixOf(Utilization)[1] == 'u' && SuffixOf(MemoryUsed)[1] == 'm';
  }

  lemma StoredNames(devices: seq<Device>, gpu: string, f: Field, instance: string, ts: nat, s: Sample)
    requires FromDevice(devices, gpu, f, instance, ts, s)
    ensures s.series == "gpu" + gpu + SuffixOf(f)
  {
  }

  lemma {:induction false} DeviceDistinct(devices: seq<Device>, fields: seq<Field>, gpu: string, instance: string, ts: nat)
    requires |gpu| == 1 && forall i, j :: 0 <= i < j < |fields| ==> fields[i] != fields[j]
    ensures DistinctSeries(DeviceBatch(devices, fields, gpu, instance, ts))
  {
    hide ReadingOf, Decimal, DeviceReading, SuffixOf;
    if fields != [] {
      var a := Stored(DeviceReading(devices, fields[0], gpu), instance, ts, "gpu" + gpu + SuffixOf(fields[0]));
      var b := DeviceBatch(devices, fields[1..], gpu, instance, ts);
      assert DistinctSeries(a);
      DeviceDistinct(devices, fields[1..], gpu, instance, ts);
      hide DeviceBatch;
      forall s, r | s in a && r in b
        ensures s.series != r.series
      {
        DeviceBatchMeaning(devices, fields[1..], gpu, instance, ts, r);
        var f :| f in fields[1..] && FromDevice(devices, gpu, f, instance, ts, r);
        StoredNames(devices, gpu, f, instance, ts, r);
        if s.series == r.series {
          NamesApart(gpu, fields[0], gpu, f);
        }
      }
      DistinctAppend(a, b);
    }
  }

  lemma DevicesApart(devices: seq<Device>, gpu: string, others: seq<string>, instance: string, ts: nat, s: Sample, r: Sample)
    requires gpu !in others && |gpu| == 1 && forall g :: g in others ==> |g| == 1
    requires s in DeviceBatch(devices, FIELDS, gpu, instance, ts) && r in ExpectedBatch(devices, others, instance, ts)
    ensures s.series != r.series
  {
    hide SuffixOf, DeviceBatch, ExpectedBatch, FromDevice;
    DeviceBatchMeaning(devices, FIELDS, gpu, instance, ts, s);
    ExpectedBatchMeaning(devices, others, instance, ts, r);
    var f :| f in FIELDS && FromDevice(devices, gpu, f, instance, ts, s);
    var other, g :| other in others && FromDevice(devices, other, g, instance, ts, r);
    StoredNames(devices, gpu, f, instance, ts, s);
    StoredNames(devices, other, g, instance, ts, r);
    if s.series == r.series {
      NamesApart(gpu, f, other, g);
    }
  }

  lemma {:induction false} ExpectedDistinct(devices: seq<Device>, gpus: seq<string>, instance: string, ts: nat)
    requires forall i, j :: 0 <= i < j < |gpus| ==> gpus[i] != gpus[j]
    requires forall g :: g in gpus ==> |g| == 1
    ensures DistinctSeries(ExpectedBatch(devices, gpus, instance, ts))
  {
    if gpus == [] {
      assert DistinctSeries([]);
    } else {
      hide DeviceBatch, DistinctSeries;
      var gpu, others := gpus[0], gpus[1..];
      assert gpu in gpus && forall g :: g in others ==> g in gpus;
      DeviceDistinct(devices, FIELDS, gpu, instance, ts);
      ExpectedDistinct(devices, others, instance, ts);
      var a, b := DeviceBatch(devices, FIELDS, gpu, instance, ts), ExpectedBatch(devices, others, instance, ts);
      assert ExpectedBatch(devices, gpus, instance, ts) == a + b;
      hide ExpectedBatch;
      forall s, r | s in a && r in b
        ensures s.series != r.series
      {
        DevicesApart(devices, gpu, others, instance, ts, s, r);
      }
      DistinctAppend(a, b);
    }
  }

  // ---- out of the store again ------------------------------------------------------------------------

  /**
   Driver to dashboard: once the batch of a rendered scrape is written, a query at that instant answers
   each published series with that device's own value, tagged agent-measured; every other series answers
   every query as it did before the scrape.
   */
  lemma ScrapeReadBack(
    numbers: NumberText, help: string -> string, devices: seq<Device>, elapsed: F64, instance: string, ts: nat, t: Table)
    requires Publishable(numbers, devices, elapsed) && OneLineHelp(help) && DistinctIndices(devices)
    ensures var after := Written(t, AgentBatch(Parse(numbers, DocText(RenderDoc(numbers, help, Some(devices), elapsed))), instance, ts));
      && (forall d, f, s :: IsReading(devices, d, f, instance, ts, s) ==>
            SeriesAnswer(after, instance, SeriesName(d.index, f), ts, ts, NATIVE_STEP_S) ==
            SeriesData([Point(ts, s.value)], [AgentMeasured]))
      && (forall series, fromMs, toMs, stepS ::
            (forall d, f, s :: IsReading(devices, d, f, instance, ts, s) ==> SeriesName(d.index, f) != series) ==>
            SeriesAnswer(after, instance, series, fromMs, toMs, stepS) == SeriesAnswer(t, instance, series, fromMs, toMs, stepS))
  {
    ScrapeReachesStore(numbers, help, devices, elapsed, instance, ts);
    hide Parse, DocText, RenderDoc, Publishable, OneLineHelp, ExpectedBatch, SeriesAnswer, DistinctIndices, ReadingOf, Decimal, SuffixOf, AgentBatch;
    var batch := ExpectedBatch(devices, GPU_LABELS, instance, ts);
    BatchReadBack(devices, instance, ts, t);
  }

  lemma BatchReadBack(devices: seq<Device>, instance: string, ts: nat, t: Table)
    requires DistinctIndices(devices)
    ensures var after := Written(t, ExpectedBatch(devices, GPU_LABELS, instance, ts));
      && (forall d, f, s :: IsReading(devices, d, f, instance, ts, s) ==>
            SeriesAnswer(after, instance, SeriesName(d.index, f), ts, ts, NATIVE_STEP_S) ==
            SeriesData([Point(ts, s.value)], [AgentMeasured]))
      && (forall series, fromMs, toMs, stepS ::
            (forall d, f, s :: IsReading(devices, d, f, instance, ts, s) ==> SeriesName(d.index, f) != series) ==>
            SeriesAnswer(after, instance, series, fromMs, toMs, stepS) == SeriesAnswer(t, instance, series, fromMs, toMs, stepS))
  {
    hide ExpectedBatch, SeriesAnswer, DistinctIndices, ReadingOf, Decimal, SuffixOf, Written;
    var batch := ExpectedBatch(devices, GPU_LABELS, instance, ts);
    ExactlyThePublishedReadings(devices, instance, ts);
    assert forall s :: s in batch <==> exists d, f :: IsReading(devices, d, f, instance, ts, s);
    assert OneTick(batch, instance, ts) && DistinctSeries(batch);
    forall d, f, s | IsReading(devices, d, f, instance, ts, s)
      ensures SeriesAnswer(Written(t, batch), instance, SeriesName(d.index, f), ts, ts, NATIVE_STEP_S) ==
        SeriesData([Point(ts, s.value)], [AgentMeasured])
    {
      assert s in batch;
      SampleReadBack(t, batch, instance, ts, s);
    }
    forall series, fromMs, toMs, stepS |
      forall d, f, s :: IsReading(devices, d, f, instance, ts, s) ==> SeriesName(d.index, f) != series
      ensures SeriesAnswer(Written(t, batch), instance, series, fromMs, toMs, stepS) ==
        SeriesAnswer(t, instance, series, fromMs, toMs, stepS)
    {
      OthersReadAsBefore(t, batch, instance, series, fromMs, toMs, stepS);
    }
  }

  // ---- counting devices -------------------------------------------------------------------------------

  predicate Publishes(device: Device) {
    exists f: Field :: ReadingOf(device, f).Some?
  }

  function PublishingIndices(devices: seq<Device>): set<nat> {
    set d | d in devices && Publishes(d) :: d.index
  }

  lemma {:induction false} FieldSamplesFrom(devices: seq<Device>, field: Field, m: Measurement)
    ensures m in FieldSamples(devices, field) <==>
      exists d :: d in devices && ReadingOf(d, field).Some?
        && m == Measurement(MetricOf(field), DevicePairs(d), ReadingOf(d, field).value)
  {
    hide ReadingOf, MetricOf, DevicePairs;
    if devices != [] {
      assert devices == [devices[0]] + devices[1..];
      FieldSamplesFrom(devices[1..], field, m);
    }
  }

  lemma {:induction false} FamilySamplesFrom(devices: seq<Device>, fields: seq<Field>, m: Measurement)
    ensures m in FamilySamples(devices, fields) <==> exists f :: f in fields && m in FieldSamples(devices, f)
  {
    hide FieldSamples;
    if fields != [] {
      assert fields == [fields[0]] + fields[1..];
      FamilySamplesFrom(devices, fields[1..], m);
      assert (exists f :: f in fields && m in FieldSamples(devices, f)) <==>
        m in FieldSamples(devices, fields[0]) || exists f :: f in fields[1..] && m in FieldSamples(devices, f);
    }
  }

  lemma ScrapeNamesGpu(devices: seq<Device>, elapsed: F64, gpu: string)
    ensures NamesGpu(ScrapeSamples(devices, elapsed), gpu) <==>
      exists n :: n in PublishingIndices(devices) && Decimal(n) == gpu
  {
    hide ReadingOf, MetricOf, DevicePairs, Decimal, FieldSamples, FamilySamples, LabelOf;
    MetricsDistinct();
    var samples := ScrapeSamples(devices, elapsed);
    if NamesGpu(samples, gpu) {
      var m :| m in samples && IsGpuMetric(m.metric) && LabelOf(m.labels, "gpu") == Some(gpu);
      FamilySamplesFrom(devices, FIELDS, m);
      var f :| f in FIELDS && m in FieldSamples(devices, f);
      FieldSamplesFrom(devices, f, m);
      var d :| d in devices && ReadingOf(d, f).Some? && m == Measurement(MetricOf(f), DevicePairs(d), ReadingOf(d, f).value);
      GpuLabelOf(d);
      assert d.index in PublishingIndices(devices);
    }
    if n :| n in PublishingIndices(devices) && Decimal(n) == gpu {
      var d :| d in devices && Publishes(d) && d.index == n;
      var f: Field :| ReadingOf(d, f).Some?;
      var m := Measurement(MetricOf(f), DevicePairs(d), ReadingOf(d, f).value);
      FieldSamplesFrom(devices, f, m);
      AllFields();
      FamilySamplesFrom(devices, FIELDS, m);
      GpuLabelOf(d);
      assert m in samples;
    }
  }

  function Elements(items: seq<string>): set<string> {
    set s | s in items
  }

  function Decimals(indices: set<nat>): set<string> {
    set n | n in indices :: Decimal(n)
  }

  lemma {:induction false} CountDistinct(items: seq<string>)
    requires forall i, j :: 0 <= i < j < |items| ==> items[i] != items[j]
    ensures |Elements(items)| == |items|
  {
    if items != [] {
      var tail := items[1..];
      CountDistinct(tail);
      assert items == [items[0]] + tail;
      assert Elements(items) == {items[0]} + Elements(tail);
      assert items[0] !in Elements(tail);
    }
  }

  lemma DecimalsStep(indices: set<nat>, n: nat)
    requires n in indices
    ensures Decimals(indices) == {Decimal(n)} + Decimals(indices - {n})
    ensures Decimal(n) !in Decimals(indices - {n})
  {
    hide Decimal;
    forall m | m in indices - {n}
      ensures Decimal(m) != Decimal(n)
    {
      DecimalInjective(m, n);
    }
    assert indices == {n} + (indices - {n});
  }

  lemma {:induction false} CountDecimals(indices: set<nat>)
    ensures |Decimals(indices)| == |indices|
    decreases |indices|
  {
    if indices == {} {
      assert Decimals(indices) == {};
    } else {
      hide Decimals, Decimal;
      var n :| n in indices;
      CountDecimals(indices - {n});
      DecimalsStep(indices, n);
      assert |indices| == |indices - {n}| + 1;
    }
  }

  /** `gpus_seen` counts the devices with at least one published reading, past the catalog's eight too. */
  lemma GpusSeenCountsPublishing(numbers: NumberText, help: string -> string, devices: seq<Device>, elapsed: F64)
    requires Publishable(numbers, devices, elapsed) && OneLineHelp(help)
    ensures |GpusSeen(Parse(numbers, DocText(RenderDoc(numbers, help, Some(devices), elapsed))))| == |PublishingIndices(devices)|
  {
    hide Parse, DocText, RenderDoc, Publishable, OneLineHelp, ScrapeSamples, GpusSeen, PublishingIndices, Decimal, NamesGpu;
    RenderRoundTrip(numbers, help, devices, elapsed);
    var samples := ScrapeSamples(devices, elapsed);
    GpusSeenMeaning(samples);
    var seen, indices := GpusSeen(samples), PublishingIndices(devices);
    CountDistinct(seen);
    CountDecimals(indices);
    forall gpu
      ensures gpu in Elements(seen) <==> gpu in Decimals(indices)
    {
      ScrapeNamesGpu(devices, elapsed, gpu);
    }
    assert Elements(seen) == Decimals(indices);
  }
}
