/**
 Catalogued names as query text: none holds a character a query separates by, so a list of them joined by
 commas splits back into the same names and an ampersand ends it. A name is put together from words short
 enough to be looked through character by character, and a word, or two of them joined, that holds neither
 separator is plain; the agent's names are made from the device labels, digits all of them.
 */
module CatalogText {
  import opened Catalog
  import opened CatalogNames

  /** Neither of the characters a query separates by. */
  ghost predicate Plain(name: string) {
    name != "" && ',' !in name && '&' !in name
  }

  ghost predicate AllPlain(entries: seq<Series>) {
    forall e :: e in entries ==> Plain(e.name)
  }

  lemma PlainJoin(a: string, b: string)
    requires Plain(a) && Plain(b)
    ensures Plain(a + b)
  {
  }

  lemma Words1()
    ensures Plain("decode_")
    ensures Plain("tok_s")
    ensures Plain("request_")
  {
  }

  lemma Words2()
    ensures Plain("decode_tok_s")
    ensures Plain("queue_")
    ensures Plain("depth")
  {
  }

  lemma Words3()
    ensures Plain("overload_")
    ensures Plain("rejections_total")
  {
  }

  lemma Words4()
    ensures Plain("completion_")
    ensures Plain("tokens_total")
  {
  }

  lemma Words5()
    ensures Plain("requests_")
    ensures Plain("per_s")
    ensures Plain("wire_")
  {
  }

  lemma Words6()
    ensures Plain("ingress_gbps")
    ensures Plain("dflash_")
  {
  }

  lemma Words7()
    ensures Plain("drafted_total")
  {
  }

  lemma Words8()
    ensures Plain("accepted_total")
  {
  }

  lemma Words9()
    ensures Plain("dflash_ane_route_")
  {
  }

  lemma Words10()
    ensures Plain("failures_total")
  {
  }

  lemma Words11()
    ensures Plain("dflash_metal_route_")
    ensures Plain("remote_")
  {
  }

  lemma Words12()
    ensures Plain("fallbacks_total")
    ensures Plain("transfers_")
  {
  }

  lemma Words13()
    ensures Plain("active")
    ensures Plain("disagg_")
  {
  }

  lemma Words14()
    ensures Plain("prefills_total")
  {
  }

  lemma Words15()
    ensures Plain("disagg_bytes_")
  {
  }

  lemma Words16()
    ensures Plain("installed_total")
  {
  }

  lemma TrafficWords1()
    ensures TRAFFIC_SERIES[0].name == "decode_" + "tok_s"
    ensures TRAFFIC_SERIES[1].name == "request_" + "decode_tok_s"
    ensures TRAFFIC_SERIES[2].name == "queue_" + "depth"
  {
  }

  lemma TrafficWords2()
    ensures TRAFFIC_SERIES[3].name == "overload_" + "rejections_total"
    ensures TRAFFIC_SERIES[4].name == "completion_" + "tokens_total"
  {
  }

  lemma TrafficPlain()
    ensures AllPlain(TRAFFIC_SERIES)
  {
    assert |TRAFFIC_SERIES| == 5;
    hide TRAFFIC_SERIES, Plain;
    TrafficWords1();
    TrafficWords2();
    Words1();
    Words2();
    Words3();
    Words4();
    PlainJoin("decode_", "tok_s");
    PlainJoin("request_", "decode_tok_s");
    PlainJoin("queue_", "depth");
    PlainJoin("overload_", "rejections_total");
    PlainJoin("completion_", "tokens_total");
    forall e | e in TRAFFIC_SERIES
      ensures Plain(e.name)
    {
      var i :| 0 <= i < 5 && TRAFFIC_SERIES[i] == e;
    }
  }

  lemma LatencyPlain1()
    ensures forall i :: 0 <= i < 3 ==> Plain(LATENCY_SERIES[i].name)
  {
  }

  lemma LatencyPlain2()
    ensures forall i :: 3 <= i < 5 ==> Plain(LATENCY_SERIES[i].name)
  {
  }

  lemma LatencyPlain()
    ensures AllPlain(LATENCY_SERIES)
  {
    assert |LATENCY_SERIES| == 5;
    LatencyPlain1();
    LatencyPlain2();
    hide LATENCY_SERIES, Plain;
    forall e | e in LATENCY_SERIES
      ensures Plain(e.name)
    {
      var i :| 0 <= i < 5 && LATENCY_SERIES[i] == e;
    }
  }

  lemma SectionWords1()
    ensures SECTION_SERIES[0].name == "requests_" + "per_s"
    ensures SECTION_SERIES[1].name == "wire_" + "ingress_gbps"
    ensures SECTION_SERIES[2].name == "dflash_" + "drafted_total"
  {
  }

  lemma SectionWords2()
    ensures SECTION_SERIES[3].name == "dflash_" + "accepted_total"
  {
  }

  lemma SectionWords3()
    ensures SECTION_SERIES[4].name == "dflash_ane_route_" + "failures_total"
  {
  }

  lemma SectionWords4()
    ensures SECTION_SERIES[5].name == "dflash_metal_route_" + "failures_total"
  {
  }

  lemma SectionWords5()
    ensures SECTION_SERIES[6].name == "remote_" + "fallbacks_total"
    ensures SECTION_SERIES[7].name == "transfers_" + "active"
  {
  }

  lemma SectionPlain()
    ensures AllPlain(SECTION_SERIES)
  {
    assert |SECTION_SERIES| == 8;
    hide SECTION_SERIES, Plain;
    SectionWords1();
    SectionWords2();
    SectionWords3();
    SectionWords4();
    SectionWords5();
    Words5();
    Words6();
    Words7();
    Words8();
    Words9();
    Words10();
    Words11();
    Words12();
    Words13();
    PlainJoin("requests_", "per_s");
    PlainJoin("wire_", "ingress_gbps");
    PlainJoin("dflash_", "drafted_total");
    PlainJoin("dflash_", "accepted_total");
    PlainJoin("dflash_ane_route_", "failures_total");
    PlainJoin("dflash_metal_route_", "failures_total");
    PlainJoin("remote_", "fallbacks_total");
    PlainJoin("transfers_", "active");
    forall e | e in SECTION_SERIES
      ensures Plain(e.name)
    {
      var i :| 0 <= i < 8 && SECTION_SERIES[i] == e;
    }
  }

  lemma TransferPlain()
    ensures ',' !in TRANSFER_LAST_PREFIX && '&' !in TRANSFER_LAST_PREFIX
  {
  }

  lemma TransferSuffixesPlain()
    ensures forall i :: 0 <= i < 5 ==> ',' !in RECEIPT_SUFFIXES[i] && '&' !in RECEIPT_SUFFIXES[i]
  {
  }

  const RECEIPT_SUFFIXES := ["bytes_total", "throughput_gbps", "hidden_pct", "control_ms", "accept_ms"]

  lemma ReceiptPlain()
    ensures AllPlain(RECEIPT_SERIES)
  {
    TransferPlain();
    TransferSuffixesPlain();
    assert |RECEIPT_SERIES| == 5 && forall i :: 0 <= i < 5 ==> RECEIPT_SERIES[i].name == TRANSFER_LAST_PREFIX + RECEIPT_SUFFIXES[i];
    assert TRANSFER_LAST_PREFIX != "";
    hide RECEIPT_SERIES, TRANSFER_LAST_PREFIX, RECEIPT_SUFFIXES;
    forall e | e in RECEIPT_SERIES
      ensures Plain(e.name)
    {
      var i :| 0 <= i < 5 && RECEIPT_SERIES[i] == e;
    }
  }

  lemma DisaggWords1()
    ensures DISAGG_SERIES[0].name == "disagg_" + "prefills_total"
  {
  }

  lemma DisaggWords2()
    ensures DISAGG_SERIES[1].name == "disagg_bytes_" + "installed_total"
  {
  }

  lemma DisaggPlain()
    ensures AllPlain(DISAGG_SERIES)
  {
    assert |DISAGG_SERIES| == 2;
    hide DISAGG_SERIES, Plain;
    DisaggWords1();
    DisaggWords2();
    Words13();
    Words14();
    Words15();
    Words16();
    PlainJoin("disagg_", "prefills_total");
    PlainJoin("disagg_bytes_", "installed_total");
    forall e | e in DISAGG_SERIES
      ensures Plain(e.name)
    {
      var i :| 0 <= i < 2 && DISAGG_SERIES[i] == e;
    }
  }

  lemma SuffixesPlain()
    ensures forall i :: 0 <= i < 5 ==> ',' !in DEVICE_SUFFIXES[i] && '&' !in DEVICE_SUFFIXES[i]
  {
  }

  lemma DevicePlain(device: string)
    requires ',' !in device && '&' !in device
    ensures AllPlain(AgentDevice(device))
  {
    SuffixesPlain();
    var entries := AgentDevice(device);
    assert forall i :: 0 <= i < 5 ==> entries[i].name == "gpu" + device + DEVICE_SUFFIXES[i];
  }

  lemma {:induction false} DevicesPlain(devices: seq<string>)
    requires forall d :: d in devices ==> ',' !in d && '&' !in d
    ensures AllPlain(AgentDevices(devices))
  {
    if devices != [] {
      assert devices == [devices[0]] + devices[1..];
      DevicePlain(devices[0]);
      DevicesPlain(devices[1..]);
      hide AgentDevice, Plain;
    }
  }

  lemma HostPlain()
    ensures AllPlain(AgentHosts())
  {
  }

  lemma PlainAppend(a: seq<Series>, b: seq<Series>)
    requires AllPlain(a) && AllPlain(b)
    ensures AllPlain(a + b)
  {
    hide Plain;
  }

  lemma EnginePlain()
    ensures AllPlain(Engine())
  {
    TrafficPlain();
    LatencyPlain();
    SectionPlain();
    ReceiptPlain();
    DisaggPlain();
    hide Plain, AllPlain, TRAFFIC_SERIES, LATENCY_SERIES, SECTION_SERIES, RECEIPT_SERIES, DISAGG_SERIES;
    PlainAppend(TRAFFIC_SERIES, LATENCY_SERIES);
    PlainAppend(SECTION_SERIES, RECEIPT_SERIES);
    PlainAppend(SECTION_SERIES + RECEIPT_SERIES, DISAGG_SERIES);
    PlainAppend(ENGINE_METRICS, ENGINE_SNAPSHOT);
  }

  lemma LabelsPlain()
    ensures forall d :: d in GPU_LABELS ==> ',' !in d && '&' !in d
  {
  }

  lemma NamePlain(e: Series)
    requires e in All()
    ensures Plain(e.name)
  {
    EnginePlain();
    LabelsPlain();
    DevicesPlain(GPU_LABELS);
    HostPlain();
    AllParts();
    hide All, Plain, AllPlain, Engine, AgentDevices, AgentHosts, GPU_LABELS;
    PlainAppend(AgentDevices(GPU_LABELS), AgentHosts());
    PlainAppend(Engine(), AgentCatalog());
    PlainEntry(All(), e);
  }

  lemma PlainEntry(entries: seq<Series>, e: Series)
    requires AllPlain(entries) && e in entries
    ensures Plain(e.name)
  {
  }
}
