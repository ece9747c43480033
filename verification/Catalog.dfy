/**
 The table the sampler, the query API and the store project through: what may be stored, under which
 name and kind, and which field of which document it is read from.
 */
module Catalog {
  import opened Prelude
  import opened Bucketing

  datatype Source = Metrics | Snapshot | Agent

  /** There is no constructor for `mock`, so a row tagged with it cannot even be written down. */
  datatype Honesty = Measured | Target | AgentMeasured

  datatype Extraction =
    | Prometheus(metric: string, quantile: Option<string>)
    | SnapshotPath(path: string)
    | TransfersActive
    | TransferLast(field: string, scale: real)
    | AgentMetric(agentMetric: string, gpu: Option<string>)

  datatype Series = Series(
    name: string,
    kind: Kind,
    source: Source,
    extraction: Extraction,
    honestyPath: Option<string>)

  function SourceText(source: Source): string {
    match source
    case Metrics => "metrics"
    case Snapshot => "snapshot"
    case Agent => "agent"
  }

  function HonestyText(honesty: Honesty): string {
    match honesty
    case Measured => "measured"
    case Target => "target"
    case AgentMeasured => "agent-measured"
  }

  function FromTag(tag: string): Option<Honesty> {
    match tag
    case "measured" => Some(Measured)
    case "target" => Some(Target)
    case "agent-measured" => Some(AgentMeasured)
    case _ => None
  }

  /** The stored vocabulary reads back as itself, and every other text — `mock` included — is refused. */
  lemma TagsRoundTrip(tag: string, honesty: Honesty)
    ensures FromTag(tag) == Some(honesty) <==> tag == HonestyText(honesty)
    ensures FromTag("mock") == None
  {
  }

  function Prom(name: string, kind: Kind, metric: string, quantile: Option<string>): Series {
    Series(name, kind, Metrics, Prometheus(metric, quantile), None)
  }

  function Snap(name: string, kind: Kind, path: string, honestyPath: string): Series {
    Series(name, kind, Snapshot, SnapshotPath(path), Some(honestyPath))
  }

  const TRANSFER_LAST_PREFIX := "transfer_last_"

  function LastTransfer(suffix: string, field: string, scale: real): Series {
    Series(TRANSFER_LAST_PREFIX + suffix, Gauge, Snapshot, TransferLast(field, scale), Some("transfers"))
  }

  const TRAFFIC_SERIES: seq<Series> := [
    Prom("decode_tok_s", Gauge, "completion_traffic_tok_s_10s", None),
    Prom("request_decode_tok_s", Gauge, "muser_request_decode_tok_s", None),
    Prom("queue_depth", Gauge, "muser_queue_depth", None),
    Prom("overload_rejections_total", Counter, "muser_overload_rejections_total", None),
    Prom("completion_tokens_total", Counter, "muser_completion_tokens_total", None)
  ]

  const LATENCY_SERIES: seq<Series> := [
    Prom("ttft_ms_p50", Gauge, "muser_ttft_milliseconds", Some("0.50")),
    Prom("ttft_ms_p95", Gauge, "muser_ttft_milliseconds", Some("0.95")),
    Prom("itl_ms_p50", Gauge, "muser_itl_milliseconds", Some("0.50")),
    Prom("itl_ms_p95", Gauge, "muser_itl_milliseconds", Some("0.95")),
    Prom("dflash_accept_rate", Gauge, "muser_dflash_acceptance_ratio", None)
  ]

  const ENGINE_METRICS: seq<Series> := TRAFFIC_SERIES + LATENCY_SERIES

  const SECTION_SERIES: seq<Series> := [
    Snap("requests_per_s", Gauge, "wire.requests_per_s", "wire.requests_per_s"),
    Snap("wire_ingress_gbps", Gauge, "wire.ingress_gbps", "wire.ingress_gbps"),
    Snap("dflash_drafted_total", Counter, "specdec.cumulative_drafted", "specdec"),
    Snap("dflash_accepted_total", Counter, "specdec.cumulative_accepted", "specdec"),
    Snap("dflash_ane_route_failures_total", Counter, "specdec.ane_route_failures", "specdec"),
    Snap("dflash_metal_route_failures_total", Counter, "specdec.metal_route_failures", "specdec"),
    Snap("remote_fallbacks_total", Counter, "_remote.fallbacks", "_remote"),
    Series("transfers_active", Gauge, Snapshot, TransfersActive, Some("transfers"))
  ]

  const RECEIPT_SERIES: seq<Series> := [
    LastTransfer("bytes_total", "bytes_total", 1.0),
    LastTransfer("throughput_gbps", "throughput_gbps", 1.0),
    LastTransfer("hidden_pct", "hidden_pct", 1.0),
    LastTransfer("control_ms", "_control_ns", 0.000001),
    LastTransfer("accept_ms", "_accept_ns", 0.000001)
  ]

  const DISAGG_SERIES: seq<Series> := [
    Snap("disagg_prefills_total", Counter, "economics.disagg_prefills", "economics.counters"),
    Snap("disagg_bytes_installed_total", Counter, "economics.disagg_bytes_installed", "economics.counters")
  ]

  const ENGINE_SNAPSHOT: seq<Series> := SECTION_SERIES + RECEIPT_SERIES + DISAGG_SERIES

  const MAX_AGENT_GPUS := 8

  const GPU_LABELS: seq<string> := ["0", "1", "2", "3", "4", "5", "6", "7"]

  /** The exporters' metrics: about the agent itself, and the five read from each device. */
  const AGENT_UP := "muser_agent_up"
  const AGENT_DURATION := "muser_agent_scrape_duration_seconds"
  const GPU_UTILIZATION := "muser_gpu_utilization_ratio"
  const GPU_POWER := "muser_gpu_power_watts"
  const GPU_TEMPERATURE := "muser_gpu_temperature_celsius"
  const GPU_MEMORY_USED := "muser_gpu_memory_used_bytes"
  const GPU_MEMORY_TOTAL := "muser_gpu_memory_total_bytes"

  function AgentGpu(device: string, suffix: string, metric: string): Series {
    Series("gpu" + device + suffix, Gauge, Agent, AgentMetric(metric, Some(device)), None)
  }

  function AgentHost(name: string, metric: string): Series {
    Series(name, Gauge, Agent, AgentMetric(metric, None), None)
  }

  function AgentDevice(device: string): seq<Series> {
    [
      AgentGpu(device, "_utilization_ratio", GPU_UTILIZATION),
      AgentGpu(device, "_power_watts", GPU_POWER),
      AgentGpu(device, "_temperature_celsius", GPU_TEMPERATURE),
      AgentGpu(device, "_memory_used_bytes", GPU_MEMORY_USED),
      AgentGpu(device, "_memory_total_bytes", GPU_MEMORY_TOTAL)
    ]
  }

  function AgentDevices(labels: seq<string>): seq<Series> {
    if labels == [] then [] else AgentDevice(labels[0]) + AgentDevices(labels[1..])
  }

  const HOST_PACKAGE := "muser_host_package_power_watts"
  const HOST_CPU := "muser_host_cpu_power_watts"
  const HOST_GPU := "muser_host_gpu_power_watts"

  function AgentHosts(): seq<Series> {
    [
      AgentHost("host_package_power_watts", HOST_PACKAGE),
      AgentHost("host_cpu_power_watts", HOST_CPU),
      AgentHost("host_gpu_power_watts", HOST_GPU)
    ]
  }

  function AgentCatalog(): seq<Series> {
    AgentDevices(GPU_LABELS) + AgentHosts()
  }

  function All(): seq<Series> {
    ENGINE_METRICS + ENGINE_SNAPSHOT + AgentCatalog()
  }

  function Find(entries: seq<Series>, name: string): Option<Series> {
    if entries == [] then None
    else if entries[0].name == name then Some(entries[0])
    else Find(entries[1..], name)
  }

  function Lookup(name: string): Option<Series> {
    Find(All(), name)
  }

  /** `map_or(Kind::Gauge, ..)`: a series the catalog does not name is treated as a gauge. */
  function KindOf(name: string): Kind {
    match Lookup(name)
    case Some(series) => series.kind
    case None => Gauge
  }
}
