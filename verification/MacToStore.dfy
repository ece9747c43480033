/** End to end for the mac exporter: what its document parses to, and what the console stores from it. */
module MacToStore {
  import opened Prelude
  import opened Text
  import opened Labels
  import opened Exposition
  import opened Documents
  import opened Bucketing
  import opened Catalog
  import opened Store
  import opened AgentCollector
  import opened ReadBack
  import opened Mac

  /** The number text of every value this scrape publishes reads back as that value. */
  ghost predicate Publishable(numbers: NumberText, scrape: Scrape) {
    && Denotes(numbers, "0", Finite(0.0))
    && Denotes(numbers, "1", Finite(1.0))
    && (scrape.served.Some? ==>
          && Denotes(numbers, numbers.float(scrape.duration), scrape.duration)
          && Denotes(numbers, numbers.float(scrape.served.value.age), scrape.served.value.age)
          && FieldDenoted(numbers, scrape.served.value.package)
          && FieldDenoted(numbers, scrape.served.value.cpu)
          && FieldDenoted(numbers, scrape.served.value.gpu))
  }

  ghost predicate FieldDenoted(numbers: NumberText, field: Option<PowerField>) {
    field.Some? ==> Denotes(numbers, numbers.float(field.value.watts), field.value.watts)
  }

  function FieldSamples(host: Option<string>, metric: string, field: Option<PowerField>): seq<Measurement> {
    match field
    case None => []
    case Some(f) => [Measurement(metric, FieldPairs(host, f), f.watts)]
  }

  function AgentSampleOf(metric: string, value: F64): Measurement {
    Measurement(metric, [LabelPair("agent", AGENT)], value)
  }

  /** Every sample the scrape publishes, in document order. */
  function ScrapeSamples(scrape: Scrape, host: Option<string>): seq<Measurement> {
    [AgentSampleOf(AGENT_UP, Finite(if scrape.up then 1.0 else 0.0))]
    + match scrape.served
      case None => []
      case Some(served) =>
        [AgentSampleOf(AGENT_DURATION, scrape.duration)]
        + ([AgentSampleOf(SAMPLE_AGE, served.age)]
        + (FieldSamples(host, HOST_PACKAGE, served.package)
        + (FieldSamples(host, HOST_CPU, served.cpu)
        + FieldSamples(host, HOST_GPU, served.gpu))))
  }

  lemma LongNames()
    ensures IsMetricName(SAMPLE_AGE)
    ensures IsMetricName(HOST_PACKAGE)
  {
  }

  lemma ShortNames()
    ensures IsMetricName(HOST_CPU)
    ensures IsMetricName(HOST_GPU)
  {
  }

  lemma MetricNames()
    ensures forall metric :: metric in {AGENT_UP, AGENT_DURATION, SAMPLE_AGE, HOST_PACKAGE, HOST_CPU, HOST_GPU} ==> IsMetricName(metric)
  {
    AgentMetricNames();
    LongNames();
    ShortNames();
    hide IsMetricName;
  }

  lemma FamilyPrints(numbers: NumberText, comments: Comments, line: DocLine)
    requires OneLineComments(comments)
    requires line.Printed? && PrintableLine(numbers, line.sample, line.token)
    ensures PrintableDoc(numbers, Family(comments, line))
    ensures Measurements(Family(comments, line)) == [line.sample]
  {
    hide PrintableDoc, Measurements, IsMetricName, Trim, IsSpace, Printable, Denotes;
    var metric := line.sample.metric;
    MetricNamePlain(metric);
    HeadersOneLine(metric, comments.help(metric));
    var help, kind := Comment("# HELP " + metric + " " + comments.help(metric)), Comment("# TYPE " + metric + " gauge");
    CommentPrintable(numbers, help.text);
    CommentPrintable(numbers, kind.text);
    SamplePrintable(numbers, line);
    PrintableAppend(numbers, [help], [kind]);
    PrintableAppend(numbers, [help] + [kind], [line]);
    MeasurementsAppend([help], [kind]);
    MeasurementsAppend([help] + [kind], [line]);
    assert Family(comments, line) == [help] + [kind] + [line];
    assert [] + [] + [line.sample] == [line.sample];
  }

  lemma AgentFamily(numbers: NumberText, comments: Comments, metric: string, value: F64, token: string)
    requires OneLineComments(comments) && IsMetricName(metric) && Denotes(numbers, token, value)
    ensures AgentLine(metric, value, token).Printed?
    ensures PrintableDoc(numbers, Family(comments, AgentLine(metric, value, token)))
    ensures Measurements(Family(comments, AgentLine(metric, value, token))) == [AgentSampleOf(metric, value)]
  {
    hide IsMetricName, Denotes, Family;
    assert IsKey("agent");
    FamilyPrints(numbers, comments, AgentLine(metric, value, token));
  }

  /** The escaped source label cannot break out of its comment line. */
  lemma SourceCommentOneLine(metric: string, field: PowerField)
    requires '\n' !in metric
    ensures var text := SourceComment(metric, field); text != "" && text[0] == '#' && '\n' !in text
  {
    hide Escape;
    EscapeOneLine(field.sourceLabel);
  }

  lemma FieldPairsPrintable(host: Option<string>, field: PowerField)
    ensures Printable(FieldPairs(host, field))
  {
    assert IsKey("host") && IsKey("source");
    hide IsKey;
  }

  lemma FieldPrints(numbers: NumberText, comments: Comments, host: Option<string>, metric: string, field: Option<PowerField>)
    requires OneLineComments(comments) && IsMetricName(metric) && FieldDenoted(numbers, field)
    ensures PrintableDoc(numbers, FieldDoc(numbers, comments, host, metric, field))
    ensures Measurements(FieldDoc(numbers, comments, host, metric, field)) == FieldSamples(host, metric, field)
  {
    match field {
      case None =>
      case Some(f) =>
        MetricNamePlain(metric);
        SourceCommentOneLine(metric, f);
        FieldPairsPrintable(host, f);
        hide PrintableDoc, Measurements, IsMetricName, Denotes, Family, SourceComment, FieldPairs, Printable;
        var line := Printed(Measurement(metric, FieldPairs(host, f), f.watts), numbers.float(f.watts));
        var comment := Comment(SourceComment(metric, f));
        CommentPrintable(numbers, comment.text);
        FamilyPrints(numbers, comments, line);
        PrintableAppend(numbers, [comment], Family(comments, line));
        MeasurementsAppend([comment], Family(comments, line));
        assert [] + [line.sample] == [line.sample];
    }
  }

  function ServedDoc(numbers: NumberText, comments: Comments, scrape: Scrape, served: Served, host: Option<string>): seq<DocLine> {
    Family(comments, AgentLine(AGENT_DURATION, scrape.duration, numbers.float(scrape.duration)))
    + (Family(comments, AgentLine(SAMPLE_AGE, served.age, numbers.float(served.age)))
    + ([Comment(comments.provenance)]
    + (FieldDoc(numbers, comments, host, HOST_PACKAGE, served.package)
    + (FieldDoc(numbers, comments, host, HOST_CPU, served.cpu)
    + FieldDoc(numbers, comments, host, HOST_GPU, served.gpu)))))
  }

  lemma ServedPrints(numbers: NumberText, comments: Comments, scrape: Scrape, served: Served, host: Option<string>)
    requires OneLineComments(comments) && Publishable(numbers, scrape) && scrape.served == Some(served)
    ensures PrintableDoc(numbers, ServedDoc(numbers, comments, scrape, served, host))
    ensures Measurements(ServedDoc(numbers, comments, scrape, served, host)) ==
      [AgentSampleOf(AGENT_DURATION, scrape.duration)]
      + ([AgentSampleOf(SAMPLE_AGE, served.age)]
      + (FieldSamples(host, HOST_PACKAGE, served.package)
      + (FieldSamples(host, HOST_CPU, served.cpu)
      + FieldSamples(host, HOST_GPU, served.gpu))))
  {
    MetricNames();
    hide PrintableDoc, Measurements, IsMetricName, Denotes, Family, FieldDoc, FieldSamples, AgentSampleOf, FieldDenoted;
    AgentFamily(numbers, comments, AGENT_DURATION, scrape.duration, numbers.float(scrape.duration));
    AgentFamily(numbers, comments, SAMPLE_AGE, served.age, numbers.float(served.age));
    hide AgentLine;
    CommentPrintable(numbers, comments.provenance);
    FieldPrints(numbers, comments, host, HOST_PACKAGE, served.package);
    FieldPrints(numbers, comments, host, HOST_CPU, served.cpu);
    FieldPrints(numbers, comments, host, HOST_GPU, served.gpu);
    var c := [Comment(comments.provenance)];
    var d, e, f := FieldDoc(numbers, comments, host, HOST_PACKAGE, served.package),
                   FieldDoc(numbers, comments, host, HOST_CPU, served.cpu),
                   FieldDoc(numbers, comments, host, HOST_GPU, served.gpu);
    BothPrint(numbers, e, f);
    BothPrint(numbers, d, e + f);
    BothPrint(numbers, c, d + (e + f));
    assert [] + Measurements(d + (e + f)) == Measurements(d + (e + f));
    var b := Family(comments, AgentLine(SAMPLE_AGE, served.age, numbers.float(served.age)));
    BothPrint(numbers, b, c + (d + (e + f)));
    BothPrint(numbers, Family(comments, AgentLine(AGENT_DURATION, scrape.duration, numbers.float(scrape.duration))), b + (c + (d + (e + f))));
  }

  /**
   The mac document round trip: whatever the host name and the powermetrics line labels, parsing the
   rendered scrape yields exactly the samples it published, in order.
   */
  lemma RenderRoundTrip(numbers: NumberText, comments: Comments, scrape: Scrape, host: Option<string>)
    requires OneLineComments(comments) && Publishable(numbers, scrape)
    ensures Parse(numbers, DocText(RenderDoc(numbers, comments, scrape, host))) == ScrapeSamples(scrape, host)
  {
    MetricNames();
    hide PrintableDoc, Measurements, IsMetricName, Denotes, Family, FieldDoc, FieldSamples, FieldDenoted, Parse, DocText;
    var value, token := Finite(if scrape.up then 1.0 else 0.0), if scrape.up then "1" else "0";
    AgentFamily(numbers, comments, AGENT_UP, value, token);
    var up := Family(comments, AgentLine(AGENT_UP, value, token));
    DocumentRoundTrip(numbers, RenderDoc(numbers, comments, scrape, host)) by {
      match scrape.served {
        case None =>
          var rest := if scrape.failed then [Comment(comments.failure)] else [];
          CommentPrintable(numbers, comments.failure);
          EmptyPrints(numbers);
          BothPrint(numbers, up, rest);
        case Some(served) =>
          ServedPrints(numbers, comments, scrape, served, host);
          BothPrint(numbers, up, ServedDoc(numbers, comments, scrape, served, host));
      }
    }
    match scrape.served {
      case None =>
        var rest := if scrape.failed then [Comment(comments.failure)] else [];
        CommentPrintable(numbers, comments.failure);
        EmptyPrints(numbers);
        BothPrint(numbers, up, rest);
      case Some(served) =>
        ServedPrints(numbers, comments, scrape, served, host);
        BothPrint(numbers, up, ServedDoc(numbers, comments, scrape, served, host));
    }
  }

  lemma EmptyPrints(numbers: NumberText)
    ensures PrintableDoc(numbers, []) && Measurements([]) == []
  {
  }

  // ---- what is stored -------------------------------------------------------------------

  function Watts(field: Option<PowerField>): Option<F64> {
    match field
    case None => None
    case Some(f) => Some(f.watts)
  }

  function HostBatch(scrape: Scrape, instance: string, ts: nat): seq<Sample> {
    match scrape.served
    case None => []
    case Some(served) =>
      Stored(Watts(served.package), instance, ts, "host_package_power_watts")
      + Stored(Watts(served.cpu), instance, ts, "host_cpu_power_watts")
      + Stored(Watts(served.gpu), instance, ts, "host_gpu_power_watts")
  }

  lemma NamesDistinct()
    ensures AGENT_UP != AGENT_DURATION && AGENT_UP != SAMPLE_AGE
    ensures {AGENT_UP, AGENT_DURATION, SAMPLE_AGE} !! {HOST_PACKAGE, HOST_CPU, HOST_GPU}
    ensures HOST_PACKAGE != HOST_CPU && HOST_PACKAGE != HOST_GPU && HOST_CPU != HOST_GPU
    ensures forall m :: m in {AGENT_UP, AGENT_DURATION, SAMPLE_AGE, HOST_PACKAGE, HOST_CPU, HOST_GPU} ==> !IsGpuMetric(m)
  {
    assert |AGENT_UP| == 14 && |AGENT_DURATION| == 35 && |SAMPLE_AGE| == 30 && |HOST_PACKAGE| == 30 && |HOST_CPU| == 26 && |HOST_GPU| == 26;
    assert SAMPLE_AGE[6] == 'a' && HOST_PACKAGE[6] == 'h';
    assert HOST_CPU[11] == 'c' && HOST_GPU[11] == 'g';
    assert AGENT_UP[6] == 'a' && AGENT_DURATION[6] == 'a' && SAMPLE_AGE[6] == 'a' && GPU_PREFIX[6] == 'g';
    assert HOST_PACKAGE[6] == 'h' && HOST_CPU[6] == 'h' && HOST_GPU[6] == 'h';
  }

  lemma ScrapeMetrics(scrape: Scrape, host: Option<string>)
    ensures forall m :: m in ScrapeSamples(scrape, host) ==>
      m.metric in {AGENT_UP, AGENT_DURATION, SAMPLE_AGE, HOST_PACKAGE, HOST_CPU, HOST_GPU}
  {
  }

  lemma {:induction false} NoDeviceSeries(samples: seq<Measurement>, gpus: seq<string>, instance: string, ts: nat)
    requires forall m :: m in samples ==> !IsGpuMetric(m.metric)
    ensures Collected(samples, AgentDevices(gpus), instance, ts) == []
  {
    if gpus == [] {
      CollectedNothing(samples, instance, ts);
    } else {
      NoDeviceSeries(samples, gpus[1..], instance, ts);
      hide Collected, AgentDevice;
      NoDevice(samples, gpus[0], instance, ts);
      CollectedAppend(samples, AgentDevice(gpus[0]), AgentDevices(gpus[1..]), instance, ts);
    }
  }

  lemma NoEntry(samples: seq<Measurement>, entry: Series, instance: string, ts: nat)
    requires forall m :: m in samples ==> !IsGpuMetric(m.metric)
    requires entry.extraction.AgentMetric? && IsGpuMetric(entry.extraction.agentMetric)
    ensures Stored(EntryValue(samples, entry), instance, ts, entry.name) == []
  {
    match entry.extraction {
      case AgentMetric(metric, gpu) =>
        match gpu {
          case Some(name) => ValueOfOther(samples, metric, Some(LabelPair("gpu", name)));
          case None => ValueOfOther(samples, metric, None);
        }
    }
  }

  lemma {:induction false} NoEntries(samples: seq<Measurement>, entries: seq<Series>, instance: string, ts: nat)
    requires forall m :: m in samples ==> !IsGpuMetric(m.metric)
    requires forall e :: e in entries ==> e.extraction.AgentMetric? && IsGpuMetric(e.extraction.agentMetric)
    ensures Collected(samples, entries, instance, ts) == []
  {
    if entries != [] {
      assert entries[0] in entries;
      NoEntry(samples, entries[0], instance, ts);
      NoEntries(samples, entries[1..], instance, ts);
    }
  }

  lemma NoDevice(samples: seq<Measurement>, gpu: string, instance: string, ts: nat)
    requires forall m :: m in samples ==> !IsGpuMetric(m.metric)
    ensures Collected(samples, AgentDevice(gpu), instance, ts) == []
  {
    DeviceMetrics();
    NoEntries(samples, AgentDevice(gpu), instance, ts);
  }

  lemma DeviceMetrics()
    ensures IsGpuMetric(GPU_UTILIZATION) && IsGpuMetric(GPU_POWER) && IsGpuMetric(GPU_TEMPERATURE)
    ensures IsGpuMetric(GPU_MEMORY_USED) && IsGpuMetric(GPU_MEMORY_TOTAL)
  {
  }

  lemma FieldValue(host: Option<string>, metric: string, field: Option<PowerField>, wanted: string)
    ensures ValueOf(FieldSamples(host, metric, field), wanted, None) == if metric == wanted then Watts(field) else None
  {
  }

  /** Each host metric reads back its own field, when served. */
  lemma HostValues(scrape: Scrape, host: Option<string>)
    ensures ValueOf(ScrapeSamples(scrape, host), AGENT_UP, None) == Some(Finite(if scrape.up then 1.0 else 0.0))
    ensures ValueOf(ScrapeSamples(scrape, host), HOST_PACKAGE, None) ==
      if scrape.served.Some? then Watts(scrape.served.value.package) else None
    ensures ValueOf(ScrapeSamples(scrape, host), HOST_CPU, None) ==
      if scrape.served.Some? then Watts(scrape.served.value.cpu) else None
    ensures ValueOf(ScrapeSamples(scrape, host), HOST_GPU, None) ==
      if scrape.served.Some? then Watts(scrape.served.value.gpu) else None
  {
    NamesDistinct();
    var samples := ScrapeSamples(scrape, host);
    assert samples[0].metric == AGENT_UP;
    forall metric | metric in {HOST_PACKAGE, HOST_CPU, HOST_GPU}
      ensures ValueOf(samples, metric, None) ==
        if scrape.served.None? then None
        else if metric == HOST_PACKAGE then Watts(scrape.served.value.package)
        else if metric == HOST_CPU then Watts(scrape.served.value.cpu)
        else Watts(scrape.served.value.gpu)
    {
      HostValue(scrape, host, metric);
    }
  }

  lemma HostValue(scrape: Scrape, host: Option<string>, metric: string)
    requires metric in {HOST_PACKAGE, HOST_CPU, HOST_GPU}
    ensures ValueOf(ScrapeSamples(scrape, host), metric, None) ==
      if scrape.served.None? then None
      else if metric == HOST_PACKAGE then Watts(scrape.served.value.package)
      else if metric == HOST_CPU then Watts(scrape.served.value.cpu)
      else Watts(scrape.served.value.gpu)
  {
    NamesDistinct();
    var up := [AgentSampleOf(AGENT_UP, Finite(if scrape.up then 1.0 else 0.0))];
    hide ValueOf, FieldSamples;
    match scrape.served {
      case None =>
        assert up + [] == up;
        ValueOfOther(up, metric, None);
      case Some(served) =>
        var a, b := [AgentSampleOf(AGENT_DURATION, scrape.duration)], [AgentSampleOf(SAMPLE_AGE, served.age)];
        var d, e, f := FieldSamples(host, HOST_PACKAGE, served.package), FieldSamples(host, HOST_CPU, served.cpu),
                       FieldSamples(host, HOST_GPU, served.gpu);
        ValueOfOther(up, metric, None);
        ValueOfOther(a, metric, None);
        ValueOfOther(b, metric, None);
        ValueOfAppend(up, a + (b + (d + (e + f))), metric, None);
        ValueOfAppend(a, b + (d + (e + f)), metric, None);
        ValueOfAppend(b, d + (e + f), metric, None);
        ValueOfAppend(d, e + f, metric, None);
        ValueOfAppend(e, f, metric, None);
        FieldValue(host, HOST_PACKAGE, served.package, metric);
        FieldValue(host, HOST_CPU, served.cpu, metric);
        FieldValue(host, HOST_GPU, served.gpu, metric);
    }
  }

  lemma CollectedHosts(scrape: Scrape, host: Option<string>, instance: string, ts: nat)
    ensures Collected(ScrapeSamples(scrape, host), AgentHosts(), instance, ts) == HostBatch(scrape, instance, ts)
  {
    HostValues(scrape, host);
    hide ScrapeSamples, ValueOf, Stored;
    var samples, hosts := ScrapeSamples(scrape, host), AgentHosts();
    assert hosts[1..] == [hosts[1], hosts[2]] && hosts[1..][1..] == [hosts[2]] && [hosts[2]][1..] == [];
    NothingStored(instance, ts);
    var p := Stored(EntryValue(samples, hosts[0]), instance, ts, hosts[0].name);
    var q := Stored(EntryValue(samples, hosts[1]), instance, ts, hosts[1].name);
    var r := Stored(EntryValue(samples, hosts[2]), instance, ts, hosts[2].name);
    assert Collected(samples, [hosts[2]], instance, ts) == r + [];
    assert Collected(samples, hosts[1..], instance, ts) == q + (r + []);
    assert Collected(samples, hosts, instance, ts) == p + (q + (r + []));
    assert p + (q + (r + [])) == p + q + r;
  }

  lemma NothingStored(instance: string, ts: nat)
    ensures forall name :: Stored(None, instance, ts, name) == []
  {
  }

  /**
   Host power reaches the store only where the scrape served it: one agent-measured sample per
   present finite field when up, nothing when down, and no device is ever counted.
   */
  lemma ScrapeReachesStore(numbers: NumberText, comments: Comments, scrape: Scrape, host: Option<string>, instance: string, ts: nat)
    requires OneLineComments(comments) && Publishable(numbers, scrape)
    ensures var samples := Parse(numbers, DocText(RenderDoc(numbers, comments, scrape, host)));
      && AgentBatch(samples, instance, ts) == (if scrape.up then HostBatch(scrape, instance, ts) else [])
      && GpusSeen(samples) == []
  {
    hide Parse, DocText, RenderDoc, Publishable, OneLineComments, ScrapeSamples, AgentDevices, All, Collected, WithSource, HostBatch;
    RenderRoundTrip(numbers, comments, scrape, host);
    var samples := ScrapeSamples(scrape, host);
    AgentEntries();
    HostValues(scrape, host);
    ScrapeMetrics(scrape, host);
    NamesDistinct();
    NoDeviceSeries(samples, GPU_LABELS, instance, ts);
    CollectedAppend(samples, AgentDevices(GPU_LABELS), AgentHosts(), instance, ts);
    CollectedHosts(scrape, host, instance, ts);
    assert [] + HostBatch(scrape, instance, ts) == HostBatch(scrape, instance, ts);
    GpusSeenMeaning(samples);
    if GpusSeen(samples) != [] {
      assert GpusSeen(samples)[0] in GpusSeen(samples);
    }
  }

  // ---- out of the store again ------------------------------------------------------------

  /** One of the three host series, and the figure a scrape served for it. */
  function HostReading(scrape: Scrape, series: string): Option<F64> {
    if !scrape.up || scrape.served.None? then None
    else if series == "host_package_power_watts" then Watts(scrape.served.value.package)
    else if series == "host_cpu_power_watts" then Watts(scrape.served.value.cpu)
    else if series == "host_gpu_power_watts" then Watts(scrape.served.value.gpu)
    else None
  }

  lemma HostSeriesApart()
    ensures "host_package_power_watts" != "host_cpu_power_watts"
    ensures "host_package_power_watts" != "host_gpu_power_watts"
    ensures "host_cpu_power_watts" != "host_gpu_power_watts"
  {
    assert "host_package_power_watts"[5] == 'p' && "host_cpu_power_watts"[5] == 'c' && "host_gpu_power_watts"[5] == 'g';
  }

  lemma StoredMeaning(value: Option<F64>, instance: string, ts: nat, name: string)
    ensures DistinctSeries(Stored(value, instance, ts, name))
    ensures forall s :: s in Stored(value, instance, ts, name) <==>
      value == Some(Finite(s.value)) && s == AgentSample(instance, ts, name, s.value)
  {
  }

  lemma HostBatchMeaning(scrape: Scrape, instance: string, ts: nat)
    requires scrape.up
    ensures var batch := HostBatch(scrape, instance, ts);
      && DistinctSeries(batch) && OneTick(batch, instance, ts)
      && (forall s :: s in batch <==> HostReading(scrape, s.series) == Some(Finite(s.value)) && s == AgentSample(instance, ts, s.series, s.value))
  {
    HostSeriesApart();
    hide Stored;
    if scrape.served.Some? {
      var served := scrape.served.value;
      var p := Stored(Watts(served.package), instance, ts, "host_package_power_watts");
      var q := Stored(Watts(served.cpu), instance, ts, "host_cpu_power_watts");
      var r := Stored(Watts(served.gpu), instance, ts, "host_gpu_power_watts");
      StoredMeaning(Watts(served.package), instance, ts, "host_package_power_watts");
      StoredMeaning(Watts(served.cpu), instance, ts, "host_cpu_power_watts");
      StoredMeaning(Watts(served.gpu), instance, ts, "host_gpu_power_watts");
      DistinctAppend(p, q);
      DistinctAppend(p + q, r);
      hide DistinctSeries;
      assert HostBatch(scrape, instance, ts) == p + q + r;
    }
  }

  /**
   Once the batch of a rendered scrape is written, a query at that instant answers each host series the
   scrape measured with that figure, tagged agent-measured, and every other series as before.
   */
  lemma ScrapeReadBack(numbers: NumberText, comments: Comments, scrape: Scrape, host: Option<string>, instance: string, ts: nat, t: Table, series: string)
    requires OneLineComments(comments) && Publishable(numbers, scrape)
    ensures var after := Written(t, AgentBatch(Parse(numbers, DocText(RenderDoc(numbers, comments, scrape, host))), instance, ts));
      match HostReading(scrape, series)
      case Some(Finite(watts)) =>
        SeriesAnswer(after, instance, series, ts, ts, NATIVE_STEP_S) == SeriesData([Point(ts, watts)], [AgentMeasured])
      case _ =>
        forall fromMs, toMs, stepS ::
          SeriesAnswer(after, instance, series, fromMs, toMs, stepS) == SeriesAnswer(t, instance, series, fromMs, toMs, stepS)
  {
    hide Parse, DocText, RenderDoc, Publishable, OneLineComments, HostBatch, SeriesAnswer, Written, HostReading, AgentBatch;
    ScrapeReachesStore(numbers, comments, scrape, host, instance, ts);
    var batch := if scrape.up then HostBatch(scrape, instance, ts) else [];
    if scrape.up {
      HostBatchMeaning(scrape, instance, ts);
    } else {
      DownReadsNothing(scrape, series);
    }
    match HostReading(scrape, series) {
      case Some(Finite(watts)) =>
        var s := AgentSample(instance, ts, series, watts);
        SampleReadBack(t, batch, instance, ts, s);
      case _ =>
        forall fromMs, toMs, stepS
          ensures SeriesAnswer(Written(t, batch), instance, series, fromMs, toMs, stepS) ==
            SeriesAnswer(t, instance, series, fromMs, toMs, stepS)
        {
          OthersReadAsBefore(t, batch, instance, series, fromMs, toMs, stepS);
        }
    }
  }

  lemma DownReadsNothing(scrape: Scrape, series: string)
    requires !scrape.up
    ensures HostReading(scrape, series) == None
  {
  }
}
