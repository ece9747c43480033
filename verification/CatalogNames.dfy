/**
 What the catalog's names are good for: no two entries share one, so looking a name up finds its own
 entry, and with it the kind the store and the query API aggregate by. The engine's names are told apart
 by their marks, a length and three characters each; a device's by the label they were made from and then
 by their suffixes; and the two halves of the catalog by their first letters.
 */
module CatalogNames {
  import opened Prelude
  import opened Bucketing
  import opened Catalog

  ghost predicate DistinctNames(entries: seq<Series>) {
    forall i, j :: 0 <= i < j < |entries| ==> entries[i].name != entries[j].name
  }

  /** Enough of a name to tell the engine's series apart. */
  datatype Mark = Mark(length: nat, first: char, second: char, last: char)

  function MarkOf(name: string): Mark {
    if |name| < 2 then Mark(|name|, ' ', ' ', ' ') else Mark(|name|, name[0], name[1], name[|name| - 1])
  }

  function Marks(entries: seq<Series>): (marks: seq<Mark>)
    ensures |marks| == |entries|
    ensures forall i :: 0 <= i < |entries| ==> marks[i] == MarkOf(entries[i].name)
  {
    seq(|entries|, i requires 0 <= i < |entries| => MarkOf(entries[i].name))
  }

  ghost predicate Distinct(marks: seq<Mark>) {
    forall i, j :: 0 <= i < j < |marks| ==> marks[i] != marks[j]
  }

  lemma MarksTell(entries: seq<Series>)
    requires Distinct(Marks(entries))
    ensures DistinctNames(entries)
  {
    var marks := Marks(entries);
    hide Marks, MarkOf;
    forall i, j | 0 <= i < j < |entries|
      ensures entries[i].name != entries[j].name
    {
      assert marks[i] != marks[j];
    }
  }

  const TRAFFIC_MARKS := [Mark(12, 'd', 'e', 's'), Mark(20, 'r', 'e', 's'), Mark(11, 'q', 'u', 'h'), Mark(25, 'o', 'v', 'l'), Mark(23, 'c', 'o', 'l')]
  const LATENCY_MARKS := [Mark(11, 't', 't', '0'), Mark(11, 't', 't', '5'), Mark(10, 'i', 't', '0'), Mark(10, 'i', 't', '5'), Mark(18, 'd', 'f', 'e')]
  const SECTION_MARKS := [Mark(14, 'r', 'e', 's'), Mark(17, 'w', 'i', 's'), Mark(20, 'd', 'f', 'l'), Mark(21, 'd', 'f', 'l'),
    Mark(31, 'd', 'f', 'l'), Mark(33, 'd', 'f', 'l'), Mark(22, 'r', 'e', 'l'), Mark(16, 't', 'r', 'e')]
  const RECEIPT_MARKS := [Mark(25, 't', 'r', 'l'), Mark(29, 't', 'r', 's'), Mark(24, 't', 'r', 't'), Mark(24, 't', 'r', 's'), Mark(23, 't', 'r', 's')]
  const DISAGG_MARKS := [Mark(21, 'd', 'i', 'l'), Mark(28, 'd', 'i', 'l')]
  const ENGINE_MARKS := TRAFFIC_MARKS + LATENCY_MARKS + SECTION_MARKS + RECEIPT_MARKS + DISAGG_MARKS

  lemma TrafficMarks()
    ensures Marks(TRAFFIC_SERIES) == TRAFFIC_MARKS
  {
  }

  lemma LatencyMarks()
    ensures Marks(LATENCY_SERIES) == LATENCY_MARKS
  {
  }

  lemma SectionMarks()
    ensures Marks(SECTION_SERIES) == SECTION_MARKS
  {
  }

  lemma ReceiptMarks()
    ensures Marks(RECEIPT_SERIES) == RECEIPT_MARKS
  {
  }

  lemma DisaggMarks()
    ensures Marks(DISAGG_SERIES) == DISAGG_MARKS
  {
  }

  lemma MarksAppend(a: seq<Series>, b: seq<Series>)
    ensures Marks(a + b) == Marks(a) + Marks(b)
  {
    hide MarkOf;
  }

  function Engine(): seq<Series> {
    ENGINE_METRICS + ENGINE_SNAPSHOT
  }

  lemma EngineMarks()
    ensures Marks(Engine()) == ENGINE_MARKS
  {
    TrafficMarks();
    LatencyMarks();
    SectionMarks();
    ReceiptMarks();
    DisaggMarks();
    hide Marks, TRAFFIC_SERIES, LATENCY_SERIES, SECTION_SERIES, RECEIPT_SERIES, DISAGG_SERIES;
    hide TRAFFIC_MARKS, LATENCY_MARKS, SECTION_MARKS, RECEIPT_MARKS, DISAGG_MARKS;
    MarksAppend(TRAFFIC_SERIES, LATENCY_SERIES);
    MarksAppend(SECTION_SERIES, RECEIPT_SERIES);
    MarksAppend(SECTION_SERIES + RECEIPT_SERIES, DISAGG_SERIES);
    MarksAppend(ENGINE_METRICS, ENGINE_SNAPSHOT);
    var a, b, c, d := TRAFFIC_MARKS + LATENCY_MARKS, SECTION_MARKS, RECEIPT_MARKS, DISAGG_MARKS;
    Assoc(a, b + c, d);
    Assoc(a, b, c);
  }

  lemma DistinctAppend(a: seq<Mark>, b: seq<Mark>)
    requires Distinct(a) && Distinct(b) && forall x, y :: x in a && y in b ==> x != y
    ensures Distinct(a + b)
  {
    var c := a + b;
    forall i, j | 0 <= i < j < |c|
      ensures c[i] != c[j]
    {
      if i < |a| <= j {
        assert c[i] in a && c[j] in b;
      }
    }
  }

  ghost predicate EngineMark(mark: Mark) {
    mark.length >= 2 && mark.first != 'g' && mark.first != 'h'
  }

  // The groups are told apart by the second letter of a name or, where two groups share one, by the length.

  predicate TrafficMark(mark: Mark) {
    mark.second in {'e', 'u', 'v', 'o'} && (mark.second == 'e' ==> mark.length in {12, 20})
  }

  predicate LatencyMark(mark: Mark) {
    mark.second == 't' || (mark.second == 'f' && mark.length == 18)
  }

  predicate SectionMark(mark: Mark) {
    match mark.second
    case 'e' => mark.length in {14, 22}
    case 'f' => mark.length > 18
    case 'r' => mark.length == 16
    case 'i' => mark.first == 'w'
    case _ => false
  }

  predicate ReceiptMark(mark: Mark) {
    mark.second == 'r' && mark.length > 16
  }

  predicate DisaggMark(mark: Mark) {
    mark.second == 'i' && mark.first == 'd'
  }

  lemma TrafficGroup()
    ensures Distinct(TRAFFIC_MARKS) && forall mark :: mark in TRAFFIC_MARKS ==> EngineMark(mark) && TrafficMark(mark)
  {
  }

  lemma LatencyGroup()
    ensures Distinct(LATENCY_MARKS) && forall mark :: mark in LATENCY_MARKS ==> EngineMark(mark) && LatencyMark(mark)
  {
  }

  lemma SectionGroup()
    ensures Distinct(SECTION_MARKS) && forall mark :: mark in SECTION_MARKS ==> EngineMark(mark) && SectionMark(mark)
  {
  }

  lemma ReceiptGroup()
    ensures Distinct(RECEIPT_MARKS) && forall mark :: mark in RECEIPT_MARKS ==> EngineMark(mark) && ReceiptMark(mark)
  {
  }

  lemma DisaggGroup()
    ensures Distinct(DISAGG_MARKS) && forall mark :: mark in DISAGG_MARKS ==> EngineMark(mark) && DisaggMark(mark)
  {
  }

  lemma EngineMarksDistinct()
    ensures Distinct(ENGINE_MARKS)
    ensures forall mark :: mark in ENGINE_MARKS ==> EngineMark(mark)
  {
    TrafficGroup();
    LatencyGroup();
    SectionGroup();
    ReceiptGroup();
    DisaggGroup();
    hide TRAFFIC_MARKS, LATENCY_MARKS, SECTION_MARKS, RECEIPT_MARKS, DISAGG_MARKS, Distinct, EngineMark;
    DistinctAppend(TRAFFIC_MARKS, LATENCY_MARKS);
    DistinctAppend(TRAFFIC_MARKS + LATENCY_MARKS, SECTION_MARKS);
    DistinctAppend(TRAFFIC_MARKS + LATENCY_MARKS + SECTION_MARKS, RECEIPT_MARKS);
    DistinctAppend(TRAFFIC_MARKS + LATENCY_MARKS + SECTION_MARKS + RECEIPT_MARKS, DISAGG_MARKS);
  }

  lemma EngineNames()
    ensures DistinctNames(Engine())
    ensures forall e :: e in Engine() ==> |e.name| >= 2 && e.name[0] != 'g' && e.name[0] != 'h'
  {
    EngineMarks();
    EngineMarksDistinct();
    hide Engine, ENGINE_MARKS, Distinct;
    MarksTell(Engine());
    var marks := Marks(Engine());
    forall e | e in Engine()
      ensures |e.name| >= 2 && e.name[0] != 'g' && e.name[0] != 'h'
    {
      var i :| 0 <= i < |Engine()| && Engine()[i] == e;
      assert marks[i] in marks;
    }
  }

  // ---- the agent half -------------------------------------------------------------------------

  const DEVICE_SUFFIXES := ["_utilization_ratio", "_power_watts", "_temperature_celsius", "_memory_used_bytes", "_memory_total_bytes"]

  lemma SuffixesApart()
    ensures forall i, j :: 0 <= i < j < 5 ==> DEVICE_SUFFIXES[i] != DEVICE_SUFFIXES[j]
  {
    assert |DEVICE_SUFFIXES[0]| == 18 && |DEVICE_SUFFIXES[1]| == 12 && |DEVICE_SUFFIXES[2]| == 20 && |DEVICE_SUFFIXES[3]| == 18 && |DEVICE_SUFFIXES[4]| == 19;
    assert DEVICE_SUFFIXES[0][1] == 'u' && DEVICE_SUFFIXES[3][1] == 'm';
  }

  /** A device's name, with the label it was made from. */
  ghost predicate OfDevice(e: Series, device: string) {
    |device| == 1 && |e.name| > 4 && e.name[0] == 'g' && e.name[3] == device[0]
  }

  lemma DeviceNames(device: string)
    requires |device| == 1
    ensures DistinctNames(AgentDevice(device))
    ensures forall e :: e in AgentDevice(device) ==> OfDevice(e, device)
  {
    SuffixesApart();
    var entries := AgentDevice(device);
    assert forall i :: 0 <= i < 5 ==> entries[i].name == "gpu" + device + DEVICE_SUFFIXES[i];
    hide DEVICE_SUFFIXES, AgentDevice;
    forall i | 0 <= i < 5
      ensures entries[i].name[4..] == DEVICE_SUFFIXES[i] && entries[i].name[3] == device[0]
    {
      assert "gpu" + device + DEVICE_SUFFIXES[i] == ("gpu" + device) + DEVICE_SUFFIXES[i];
    }
  }

  lemma OtherDevice(x: Series, y: Series, a: string, b: string)
    requires OfDevice(x, a) && OfDevice(y, b) && a != b
    ensures x.name != y.name
  {
    assert a == [a[0]] && b == [b[0]];
  }

  ghost predicate OfDevices(entries: seq<Series>, devices: seq<string>) {
    forall e :: e in entries ==> exists d :: d in devices && OfDevice(e, d)
  }

  lemma DevicesStep(device: string, rest: seq<string>, a: seq<Series>, b: seq<Series>)
    requires device !in rest && DistinctNames(a) && DistinctNames(b)
    requires (forall e :: e in a ==> OfDevice(e, device)) && OfDevices(b, rest)
    ensures DistinctNames(a + b) && OfDevices(a + b, [device] + rest)
  {
    hide OfDevice, DistinctNames;
    forall x, y | x in a && y in b
      ensures x.name != y.name
    {
      var d :| d in rest && OfDevice(y, d);
      OtherDevice(x, y, device, d);
    }
    NamesAppend(a, b);
    assert device in [device] + rest;
    forall e | e in a + b
      ensures exists d :: d in [device] + rest && OfDevice(e, d)
    {
      if e in b {
        var d :| d in rest && OfDevice(e, d);
        assert d in [device] + rest;
      }
    }
  }

  ghost predicate DistinctLabels(devices: seq<string>) {
    && (forall i :: 0 <= i < |devices| ==> |devices[i]| == 1)
    && (forall i, j :: 0 <= i < j < |devices| ==> devices[i] != devices[j])
  }

  lemma LabelsTail(devices: seq<string>, device: string, rest: seq<string>)
    requires DistinctLabels(devices) && devices == [device] + rest
    ensures |device| == 1 && device !in rest && DistinctLabels(rest)
  {
    assert devices[0] == device && forall i :: 0 <= i < |rest| ==> devices[i + 1] == rest[i];
  }

  lemma {:induction false} DevicesNames(devices: seq<string>)
    requires DistinctLabels(devices)
    ensures DistinctNames(AgentDevices(devices)) && OfDevices(AgentDevices(devices), devices)
  {
    if devices != [] {
      hide AgentDevice, DistinctNames, OfDevices, DistinctLabels, OfDevice;
      var device, rest := devices[0], devices[1..];
      assert devices == [device] + rest;
      LabelsTail(devices, device, rest);
      DevicesNames(rest);
      DeviceNames(device);
      DevicesStep(device, rest, AgentDevice(device), AgentDevices(rest));
    }
  }

  lemma NamesAppend(a: seq<Series>, b: seq<Series>)
    requires DistinctNames(a) && DistinctNames(b) && forall x, y :: x in a && y in b ==> x.name != y.name
    ensures DistinctNames(a + b)
  {
    var c := a + b;
    forall i, j | 0 <= i < j < |c|
      ensures c[i].name != c[j].name
    {
      if i < |a| <= j {
        assert c[i] in a && c[j] in b;
      }
    }
  }

  lemma HostNames()
    ensures DistinctNames(AgentHosts())
    ensures forall e :: e in AgentHosts() ==> |e.name| > 4 && e.name[0] == 'h'
  {
    assert "host_package_power_watts"[5] == 'p' && "host_cpu_power_watts"[5] == 'c' && "host_gpu_power_watts"[5] == 'g';
  }

  lemma GpuLabelsApart()
    ensures DistinctLabels(GPU_LABELS)
  {
    forall i | 0 <= i < |GPU_LABELS|
      ensures GPU_LABELS[i][0] as int == '0' as int + i
    {
    }
  }

  lemma AgentNames()
    ensures DistinctNames(AgentCatalog())
    ensures forall e :: e in AgentCatalog() ==> |e.name| > 4 && e.name[0] in {'g', 'h'}
  {
    GpuLabelsApart();
    DevicesNames(GPU_LABELS);
    HostNames();
    hide AgentDevices, AgentHosts, DistinctNames, GPU_LABELS;
    NamesAppend(AgentDevices(GPU_LABELS), AgentHosts());
  }

  /** No two catalogued series share a name. */
  lemma NamesDistinct()
    ensures DistinctNames(All())
  {
    EngineNames();
    AgentNames();
    AllParts();
    hide *;
    NamesAppend(Engine(), AgentCatalog());
  }

  lemma AllParts()
    ensures All() == Engine() + AgentCatalog()
  {
    hide ENGINE_METRICS, ENGINE_SNAPSHOT, AgentCatalog;
  }

  // ---- looking names up ---------------------------------------------------------------------

  /** The first entry of a name, if there is one. */
  lemma {:induction false} FindMeaning(entries: seq<Series>, name: string)
    ensures match Find(entries, name)
      case Some(e) => e in entries && e.name == name
      case None => forall e :: e in entries ==> e.name != name
  {
    if entries != [] {
      FindMeaning(entries[1..], name);
      assert entries == [entries[0]] + entries[1..];
    }
  }

  /** A catalogued name finds its own entry, and the kind it is aggregated by is that entry's. */
  lemma EntryFound(e: Series)
    requires e in All()
    ensures Lookup(e.name) == Some(e) && KindOf(e.name) == e.kind
  {
    NamesDistinct();
    hide All;
    FindMeaning(All(), e.name);
    var found := Lookup(e.name).value;
    var i :| 0 <= i < |All()| && All()[i] == e;
    var j :| 0 <= j < |All()| && All()[j] == found;
    assert i == j;
  }

  /** A name of no entry is found nowhere, and treated as a gauge. */
  lemma StrangerIsGauge(name: string)
    requires forall e :: e in All() ==> e.name != name
    ensures Lookup(name) == None && KindOf(name) == Gauge
  {
    hide All;
    FindMeaning(All(), name);
  }

  // ---- which series are counters --------------------------------------------------------------

  /** A running total by its name; `transfer_last_bytes_total` is the size of one transfer. */
  predicate NamesTotal(name: string) {
    EndsTotal(name) && !(TRANSFER_LAST_PREFIX <= name)
  }

  lemma LastOfTotal(name: string)
    requires NamesTotal(name)
    ensures name[|name| - 1] == 'l'
  {
    assert name[|name| - 6..][5] == 'l';
  }

  predicate EndsTotal(name: string) {
    |name| >= 6 && name[|name| - 6..] == "_total"
  }

  ghost predicate KindsByName(entries: seq<Series>) {
    forall e :: e in entries ==> (e.kind.Counter? <==> NamesTotal(e.name))
  }

  lemma TrafficKinds()
    ensures KindsByName(TRAFFIC_SERIES)
  {
    var t := TRAFFIC_SERIES;
    assert t[3].name[0] == 'o' && t[4].name[0] == 'c' && TRANSFER_LAST_PREFIX[0] == 't';
    assert EndsTotal(t[3].name);
    assert EndsTotal(t[4].name);
    assert t[0].name[|t[0].name| - 1] == 's';
    assert t[1].name[|t[1].name| - 1] == 's';
    assert t[2].name[|t[2].name| - 1] == 'h';
    forall e | e in t
      ensures e.kind.Counter? <==> NamesTotal(e.name)
    {
      if NamesTotal(e.name) {
        LastOfTotal(e.name);
      }
    }
  }

  lemma LatencyKinds()
    ensures KindsByName(LATENCY_SERIES)
  {
    var t := LATENCY_SERIES;
    assert t[0].name[|t[0].name| - 1] == '0';
    assert t[1].name[|t[1].name| - 1] == '5';
    assert t[2].name[|t[2].name| - 1] == '0';
    assert t[3].name[|t[3].name| - 1] == '5';
    assert t[4].name[|t[4].name| - 1] == 'e';
    forall e | e in t
      ensures e.kind.Counter? <==> NamesTotal(e.name)
    {
      if NamesTotal(e.name) {
        LastOfTotal(e.name);
      }
    }
  }

  /** The section totals, by their place in the group. */
  lemma SectionTotals(i: nat)
    requires 2 <= i <= 6
    ensures EndsTotal(SECTION_SERIES[i].name) && SECTION_SERIES[i].name[0] in {'d', 'r'} && SECTION_SERIES[i].kind == Counter
  {
    if i <= 3 {
      assert i == 2 || i == 3;
    } else if i <= 5 {
      assert i == 4 || i == 5;
    }
  }

  lemma SectionGauges()
    ensures forall i :: i in {0, 1, 7} ==> SECTION_SERIES[i].kind == Gauge && SECTION_SERIES[i].name != "" && SECTION_SERIES[i].name[|SECTION_SERIES[i].name| - 1] in {'s', 'e'}
  {
    var t := SECTION_SERIES;
    assert t[0].name[|t[0].name| - 1] == 's' && t[1].name[|t[1].name| - 1] == 's' && t[7].name[|t[7].name| - 1] == 'e';
  }

  lemma SectionKinds()
    ensures KindsByName(SECTION_SERIES)
  {
    assert |SECTION_SERIES| == 8;
    SectionGauges();
    hide SECTION_SERIES, EndsTotal;
    assert TRANSFER_LAST_PREFIX[0] == 't';
    forall e | e in SECTION_SERIES
      ensures e.kind.Counter? <==> NamesTotal(e.name)
    {
      var i :| 0 <= i < 8 && SECTION_SERIES[i] == e;
      if 2 <= i <= 6 {
        SectionTotals(i);
      } else {
        assert i in {0, 1, 7};
        if NamesTotal(e.name) {
          LastOfTotal(e.name);
        }
      }
    }
  }

  lemma ReceiptKinds()
    ensures KindsByName(RECEIPT_SERIES)
  {
  }

  lemma DisaggKinds()
    ensures KindsByName(DISAGG_SERIES)
  {
    var t := DISAGG_SERIES;
    assert t[0].name[0] == 'd' && t[1].name[0] == 'd' && TRANSFER_LAST_PREFIX[0] == 't';
    assert EndsTotal(t[0].name);
    assert EndsTotal(t[1].name);
    forall e | e in t
      ensures e.kind.Counter? <==> NamesTotal(e.name)
    {
      if NamesTotal(e.name) {
        LastOfTotal(e.name);
      }
    }
  }

  lemma DeviceKinds(device: string)
    requires |device| == 1
    ensures KindsByName(AgentDevice(device))
  {
    var t := AgentDevice(device);
    SuffixEnds();
    assert forall i :: 0 <= i < 5 ==> t[i].name == "gpu" + device + DEVICE_SUFFIXES[i] && t[i].kind == Gauge;
    hide DEVICE_SUFFIXES, AgentDevice;
    forall e | e in t
      ensures !NamesTotal(e.name)
    {
      var i :| 0 <= i < 5 && t[i] == e;
      assert e.name[|e.name| - 1] == DEVICE_SUFFIXES[i][|DEVICE_SUFFIXES[i]| - 1];
      if NamesTotal(e.name) {
        LastOfTotal(e.name);
      }
    }
  }

  lemma SuffixEnds()
    ensures forall i :: 0 <= i < 5 ==> |DEVICE_SUFFIXES[i]| > 0 && DEVICE_SUFFIXES[i][|DEVICE_SUFFIXES[i]| - 1] in {'o', 's'}
  {
    var t := DEVICE_SUFFIXES;
    assert t[0][|t[0]| - 1] == 'o' && t[1][|t[1]| - 1] == 's' && t[2][|t[2]| - 1] == 's' && t[3][|t[3]| - 1] == 's' && t[4][|t[4]| - 1] == 's';
  }

  lemma {:induction false} DevicesKinds(devices: seq<string>)
    requires forall i :: 0 <= i < |devices| ==> |devices[i]| == 1
    ensures KindsByName(AgentDevices(devices))
  {
    if devices != [] {
      assert devices == [devices[0]] + devices[1..];
      DeviceKinds(devices[0]);
      DevicesKinds(devices[1..]);
      hide AgentDevice, NamesTotal;
    }
  }

  lemma HostKinds()
    ensures KindsByName(AgentHosts())
  {
    var t := AgentHosts();
    assert t[0].name[|t[0].name| - 1] == 's' && t[1].name[|t[1].name| - 1] == 's' && t[2].name[|t[2].name| - 1] == 's';
    forall e | e in t
      ensures !NamesTotal(e.name)
    {
      if NamesTotal(e.name) {
        LastOfTotal(e.name);
      }
    }
  }

  lemma KindsAppend(a: seq<Series>, b: seq<Series>)
    requires KindsByName(a) && KindsByName(b)
    ensures KindsByName(a + b)
  {
    hide NamesTotal;
  }

  /** Counters are exactly the running totals, recognisable by name. */
  lemma CountersAreTotals()
    ensures KindsByName(All())
  {
    TrafficKinds();
    LatencyKinds();
    SectionKinds();
    ReceiptKinds();
    DisaggKinds();
    GpuLabelsApart();
    DevicesKinds(GPU_LABELS);
    HostKinds();
    AllParts();
    hide All, KindsByName, TRAFFIC_SERIES, LATENCY_SERIES, SECTION_SERIES, RECEIPT_SERIES, DISAGG_SERIES, AgentDevices, AgentHosts, GPU_LABELS;
    KindsAppend(TRAFFIC_SERIES, LATENCY_SERIES);
    KindsAppend(SECTION_SERIES, RECEIPT_SERIES);
    KindsAppend(SECTION_SERIES + RECEIPT_SERIES, DISAGG_SERIES);
    KindsAppend(AgentDevices(GPU_LABELS), AgentHosts());
    KindsAppend(ENGINE_METRICS, ENGINE_SNAPSHOT);
    KindsAppend(Engine(), AgentCatalog());
  }
}
