/** The service-communication model's deterministic parts: the recursive
    merge of a user configuration into the defaults, the time-of-day load
    profile, the service-mesh overhead, the event-service prices and the
    data-transfer billing with its per-type counters. Numbers are exact
    reals; the clock hour comes in as a parameter. */
module ServiceModel {
  import opened Wrappers

  // ---------------------------------------------------------------------------
  // Nested configuration dictionaries

  /** A configuration value: a scalar, or a dictionary of further values. */
  datatype Value = Num(n: real) | Flag(b: bool) | Text(s: string) | Dict(entries: map<string, Value>)

  /** `_update_nested_dict(original, updates)` (lines 110-116): where both
      sides hold a dictionary under a key the two are merged recursively,
      and every other key of `updates` overwrites (or adds) the original's
      entry. Keys are visited once each, so their order does not matter. */
  function Merge(original: map<string, Value>, updates: map<string, Value>): (r: map<string, Value>)
    decreases Dict(updates)
    ensures r.Keys == original.Keys + updates.Keys
    ensures forall k :: k in original && k !in updates ==> r[k] == original[k]
  {
    map k | k in original.Keys + updates.Keys ::
      if k !in updates then original[k]
      else if k in original && original[k].Dict? && updates[k].Dict? then
        Dict(Merge(original[k].entries, updates[k].entries))
      else updates[k]
  }

  /** What a merge leaves under a key the updates name: a scalar update
      (or an update meeting a scalar or a missing key) replaces the entry
      outright, and two dictionaries are merged key by key. */
  lemma MergeAt(original: map<string, Value>, updates: map<string, Value>, k: string)
    requires k in updates
    ensures k in original && original[k].Dict? && updates[k].Dict? ==>
              Merge(original, updates)[k] == Dict(Merge(original[k].entries, updates[k].entries))
    ensures !(k in original && original[k].Dict? && updates[k].Dict?) ==>
              Merge(original, updates)[k] == updates[k]
  {
  }

  /** Merging nothing leaves the configuration as it is. */
  lemma MergeNothing(original: map<string, Value>)
    ensures Merge(original, map[]) == original
  {
  }

  /** Applying the same user configuration twice gives what applying it
      once gives. */
  lemma {:induction false} MergeIdempotent(original: map<string, Value>, updates: map<string, Value>)
    decreases Dict(updates)
    ensures Merge(Merge(original, updates), updates) == Merge(original, updates)
  {
    var once := Merge(original, updates);
    forall k | k in updates && k in once && once[k].Dict? && updates[k].Dict?
      ensures Merge(once, updates)[k] == once[k]
    {
      MergeAt(original, updates, k);
      MergeAt(once, updates, k);
      if k in original && original[k].Dict? {
        MergeIdempotent(original[k].entries, updates[k].entries);
      } else {
        MergeSelf(updates[k].entries);
      }
    }
  }

  /** A configuration merged into itself stays as it is. */
  lemma {:induction false} MergeSelf(config: map<string, Value>)
    decreases Dict(config)
    ensures Merge(config, config) == config
  {
    forall k | k in config && config[k].Dict?
      ensures Merge(config, config)[k] == config[k]
    {
      MergeAt(config, config, k);
      MergeSelf(config[k].entries);
    }
  }

  /** The value found by following a path of keys, if any. */
  function Lookup(config: map<string, Value>, path: seq<string>): (r: Option<Value>)
    decreases |path|
    ensures path == [] ==> r == Some(Dict(config))
  {
    if path == [] then Some(Dict(config))
    else if path[0] !in config then None
    else if |path| == 1 then Some(config[path[0]])
    else if config[path[0]].Dict? then Lookup(config[path[0]].entries, path[1..])
    else None
  }

  /** Every scalar the user configuration sets is what the merged
      configuration holds at the same path. */
  lemma {:induction false} MergeKeepsUpdatedScalars(original: map<string, Value>, updates: map<string, Value>, path: seq<string>)
    requires Lookup(updates, path).Some? && !Lookup(updates, path).value.Dict?
    decreases |path|
    ensures Lookup(Merge(original, updates), path) == Lookup(updates, path)
  {
    var k := path[0];
    MergeAt(original, updates, k);
    if |path| > 1 {
      if k in original && original[k].Dict? {
        MergeKeepsUpdatedScalars(original[k].entries, updates[k].entries, path[1..]);
      }
    }
  }

  // ---------------------------------------------------------------------------
  // Time-of-day load profile

  /** `_calculate_time_based_load_factor` (lines 517-545) for an hour of the
      day: a night plateau, a morning ramp, two peaks around a midday dip,
      an evening ramp and a late plateau. */
  function LoadFactor(hour: real): (f: real)
    ensures 0.7 <= f <= 1.3
  {
    if 0.0 <= hour < 6.0 then 0.7
    else if 6.0 <= hour < 9.0 then 0.9 + (hour - 6.0) * 0.1
    else if 9.0 <= hour < 12.0 then 1.3
    else if 12.0 <= hour < 14.0 then 1.1
    else if 14.0 <= hour < 17.0 then 1.3
    else if 17.0 <= hour < 20.0 then 1.2 - (hour - 17.0) * 0.1
    else 0.8
  }

  /** A missing time of day means the local clock's hour (lines 527-529). */
  function LoadFactorAt(timeOfDay: Option<real>, clockHour: nat): (f: real)
    ensures timeOfDay.None? ==> f == LoadFactor(clockHour as real)
    ensures timeOfDay.Some? ==> f == LoadFactor(timeOfDay.value)
  {
    LoadFactor(if timeOfDay.Some? then timeOfDay.value else clockHour as real)
  }

  /** The load is at its peak exactly in the 9-12 and 14-17 windows. */
  lemma PeakHours(hour: real)
    ensures LoadFactor(hour) == 1.3 <==> (9.0 <= hour < 12.0 || 14.0 <= hour < 17.0)
  {
  }

  /** The load is at its lowest exactly in the 0-6 night window; an hour
      outside 0-24 counts as late evening. */
  lemma NightHours(hour: real)
    ensures LoadFactor(hour) == 0.7 <==> 0.0 <= hour < 6.0
    ensures (hour < 0.0 || hour >= 20.0) ==> LoadFactor(hour) == 0.8
  {
  }

  /** The morning ramp rises and the evening ramp falls. */
  lemma RampsAreMonotone(h1: real, h2: real)
    requires h1 <= h2
    ensures 6.0 <= h1 && h2 < 9.0 ==> LoadFactor(h1) <= LoadFactor(h2)
    ensures 17.0 <= h1 && h2 < 20.0 ==> LoadFactor(h1) >= LoadFactor(h2)
  {
  }

  // ---------------------------------------------------------------------------
  // Service mesh

  /** The "service_mesh" configuration (lines 86-91). */
  datatype MeshConfig = MeshConfig(sidecarLatency: real, routingLatency: real, authLatency: real, enabled: bool)

  const DefaultMesh := MeshConfig(2.0, 1.0, 5.0, false)

  /** The optional mesh features of one call. */
  datatype MeshFeatures = MeshFeatures(mtls: bool, tracing: bool, circuitBreaker: bool)

  /** `calculate_service_mesh_overhead` (lines 334-370) in milliseconds. */
  function MeshOverhead(mesh: MeshConfig, features: MeshFeatures): (ms: real)
    ensures !mesh.enabled ==> ms == 0.0
  {
    if !mesh.enabled then 0.0
    else
      mesh.sidecarLatency + mesh.routingLatency
      + (if features.mtls then mesh.authLatency else 0.0)
      + (if features.tracing then 1.0 else 0.0)
      + (if features.circuitBreaker then 0.5 else 0.0)
  }

  /** With non-negative latencies, switching on a feature never lowers the
      overhead. */
  lemma MeshOverheadMonotone(mesh: MeshConfig, f: MeshFeatures, g: MeshFeatures)
    requires mesh.authLatency >= 0.0
    requires (f.mtls ==> g.mtls) && (f.tracing ==> g.tracing) && (f.circuitBreaker ==> g.circuitBreaker)
    ensures MeshOverhead(mesh, f) <= MeshOverhead(mesh, g)
  {
  }

  /** With the default latencies switched on, an overhead lies between 3 ms
      (no feature) and 9.5 ms (all three). */
  lemma DefaultMeshBounds(features: MeshFeatures)
    ensures MeshOverhead(DefaultMesh, features) == 0.0
    ensures 3.0 <= MeshOverhead(DefaultMesh.(enabled := true), features) <= 9.5
  {
  }

  // ---------------------------------------------------------------------------
  // Event services

  /** The "event_services" prices (lines 44-66). */
  datatype EventPrices = EventPrices(snsPerMillion: real, sqsPerMillion: real, eventBridgePerMillion: real,
                                     kinesisShardHour: real, kinesisPerMillionPut: real)

  const DefaultEventPrices := EventPrices(0.50, 0.40, 1.00, 0.015, 0.014)

  predicate KnownService(service: string)
  {
    service == "sns" || service == "sqs" || service == "eventbridge" || service == "kinesis"
  }

  /** No price of the table is negative. */
  predicate NonNegativePrices(prices: EventPrices)
  {
    prices.snsPerMillion >= 0.0 && prices.sqsPerMillion >= 0.0 && prices.eventBridgePerMillion >= 0.0 &&
    prices.kinesisShardHour >= 0.0 && prices.kinesisPerMillionPut >= 0.0
  }

  /** The per-million price of a service other than kinesis; an unknown
      service is priced as sqs (lines 262-264). */
  function PerMillion(prices: EventPrices, service: string): real
  {
    if service == "sns" then prices.snsPerMillion
    else if service == "eventbridge" then prices.eventBridgePerMillion
    else prices.sqsPerMillion
  }

  /** `calculate_event_service_cost` (lines 251-276): kinesis pays at least
      one shard-hour plus its put units; the others pay per million
      operations. */
  function EventServiceCost(prices: EventPrices, service: string, operations: int): (cost: real)
    ensures NonNegativePrices(prices) && operations >= 0 ==> cost >= 0.0
    ensures NonNegativePrices(prices) && operations >= 0 && service == "kinesis" ==> cost >= prices.kinesisShardHour
  {
    if service == "kinesis" then
      var shardHours := if 1.0 >= operations as real / 1000.0 then 1.0 else operations as real / 1000.0;
      shardHours * prices.kinesisShardHour + operations as real * prices.kinesisPerMillionPut / 1000000.0
    else
      (operations as real / 1000000.0) * PerMillion(prices, service)
  }

  /** Any service the table does not know is billed exactly as sqs. */
  lemma UnknownServiceBilledAsSqs(prices: EventPrices, service: string, operations: int)
    requires !KnownService(service)
    ensures EventServiceCost(prices, service, operations) == EventServiceCost(prices, "sqs", operations)
  {
  }

  /** Outside kinesis the price is linear in the number of operations:
      billing two batches separately costs what billing them together does. */
  lemma PerMillionIsAdditive(prices: EventPrices, service: string, a: int, b: int)
    requires service != "kinesis"
    ensures EventServiceCost(prices, service, a + b)
            == EventServiceCost(prices, service, a) + EventServiceCost(prices, service, b)
    ensures EventServiceCost(prices, service, 0) == 0.0
  {
  }

  /** Kinesis always pays at least one shard-hour, so even no operations
      cost the shard-hour price, and up to 1000 operations add only their
      put units to it. */
  lemma KinesisMinimumShard(prices: EventPrices, operations: int)
    requires 0 <= operations <= 1000
    ensures EventServiceCost(prices, "kinesis", operations)
            == prices.kinesisShardHour + operations as real * prices.kinesisPerMillionPut / 1000000.0
  {
  }

  /** With the default prices, a million sns messages cost 0.50 and a
      million sqs requests 0.40. */
  lemma DefaultEventExamples()
    ensures EventServiceCost(DefaultEventPrices, "sns", 1000000) == 0.50
    ensures EventServiceCost(DefaultEventPrices, "sqs", 1000000) == 0.40
    ensures EventServiceCost(DefaultEventPrices, "kinesis", 0) == 0.015
  {
  }

  // ---------------------------------------------------------------------------
  // Data transfer

  /** The "data_transfer" section (lines 94-98): its keys are the price
      names, "<type>_cost_per_gb". */
  const DefaultDataTransfer: map<string, real> :=
    map["intra_region_cost_per_gb" := 0.01, "inter_region_cost_per_gb" := 0.02, "internet_cost_per_gb" := 0.09]

  /** The per-type counters the constructor starts with (line 108). */
  const ZeroTransferred: map<string, real> := map["intra_region" := 0.0, "inter_region" := 0.0, "internet" := 0.0]

  /** The cost returned and the counters left by one data-transfer billing. */
  datatype TransferOutcome = TransferOutcome(cost: Result<real, string>, transferred: map<string, real>)

  /** The price of `gb` gigabytes at `perGb` per gigabyte. */
  function Charge(gb: real, perGb: real): real
  {
    gb * perGb
  }

  function Get(m: map<string, real>, k: string): real
  {
    if k in m then m[k] else 0.0
  }

  /** The type whose price and counter `calculate_data_transfer_cost`
      uses, as written (lines 385-387): the given type when it is itself a
      key of the section, "intra_region" otherwise. */
  function ResolvedAsWritten(section: map<string, real>, transferType: string): string
  {
    if transferType in section then transferType else "intra_region"
  }

  /** Bills `gb` under an already resolved type (lines 389-394): the price
      is read under "<type>_cost_per_gb", a missing price raising KeyError
      before any counter is touched, and the amount is added to the type's
      counter. */
  function Bill(section: map<string, real>, transferred: map<string, real>, gb: real, t: string): (o: TransferOutcome)
    ensures o.cost.Err? <==> t + "_cost_per_gb" !in section
    ensures o.cost.Err? ==> o.transferred == transferred
    ensures o.cost.Ok? ==> o.transferred.Keys == transferred.Keys + {t} &&
                           o.transferred[t] == Get(transferred, t) + gb &&
                           forall k :: k in transferred && k != t ==> o.transferred[k] == transferred[k]
  {
    var key := t + "_cost_per_gb";
    if key !in section then TransferOutcome(Err("KeyError: " + key), transferred)
    else TransferOutcome(Ok(Charge(gb, section[key])), transferred[t := Get(transferred, t) + gb])
  }

  /** `calculate_data_transfer_cost` as written (lines 372-394). */
  function TransferAsWritten(section: map<string, real>, transferred: map<string, real>,
                             gb: real, transferType: string): TransferOutcome
  {
    Bill(section, transferred, gb, ResolvedAsWritten(section, transferType))
  }

  /** The section's keys are the price names, so no type name such as
      "internet" is one of them: with the default prices every transfer,
      whatever its type, is billed at the intra-region rate of 0.01 per GB
      and counted as intra-region traffic. */
  lemma EveryTypeBilledAsIntraRegion(transferred: map<string, real>, gb: real, transferType: string)
    requires transferType in {"intra_region", "inter_region", "internet"}
    ensures var o := TransferAsWritten(DefaultDataTransfer, transferred, gb, transferType);
            o.cost.Ok? && o.cost.value == gb * 0.01 &&
            o.transferred == transferred["intra_region" := Get(transferred, "intra_region") + gb]
  {
    assert transferType !in DefaultDataTransfer;
    assert "intra_region" + "_cost_per_gb" == "intra_region_cost_per_gb";
  }

  /** The billing the documentation describes (lines 376-379): a type is
      known when its price exists, and an unknown type falls back to
      "intra_region". */
  function ResolvedIntended(section: map<string, real>, transferType: string): (t: string)
    ensures t == transferType || t == "intra_region"
  {
    if transferType + "_cost_per_gb" in section then transferType else "intra_region"
  }

  function TransferIntended(section: map<string, real>, transferred: map<string, real>,
                            gb: real, transferType: string): TransferOutcome
  {
    Bill(section, transferred, gb, ResolvedIntended(section, transferType))
  }

  /** A type with a price is billed at that price and counted under its own
      name; the other counters stay. */
  lemma IntendedBillsOwnRate(section: map<string, real>, transferred: map<string, real>,
                             gb: real, transferType: string)
    requires transferType + "_cost_per_gb" in section
    ensures var o := TransferIntended(section, transferred, gb, transferType);
            o.cost.Ok? && o.cost.value == gb * section[transferType + "_cost_per_gb"] &&
            o.transferred[transferType] == Get(transferred, transferType) + gb &&
            forall k :: k in transferred && k != transferType ==> o.transferred[k] == transferred[k]
  {
    assert ResolvedIntended(section, transferType) == transferType;
  }

  /** Whenever the section holds the intra-region price, the intended
      billing never fails: a type without a price is billed and counted as
      intra-region. */
  lemma IntendedUnknownTypeIsIntraRegion(section: map<string, real>, transferred: map<string, real>,
                                         gb: real, transferType: string)
    requires "intra_region_cost_per_gb" in section
    requires transferType + "_cost_per_gb" !in section
    ensures var o := TransferIntended(section, transferred, gb, transferType);
            o.cost.Ok? && o.cost.value == gb * section["intra_region_cost_per_gb"] &&
            o.transferred == transferred["intra_region" := Get(transferred, "intra_region") + gb]
  {
    assert "intra_region" + "_cost_per_gb" == "intra_region_cost_per_gb";
  }

  /** With the default prices, internet traffic costs 0.09 per GB and is
      counted as internet traffic. */
  lemma IntendedInternetRate(transferred: map<string, real>, gb: real)
    ensures var o := TransferIntended(DefaultDataTransfer, transferred, gb, "internet");
            o.cost.Ok? && o.cost.value == gb * 0.09 &&
            o.transferred == transferred["internet" := Get(transferred, "internet") + gb]
  {
    assert "internet" + "_cost_per_gb" == "internet_cost_per_gb";
  }

  // ---------------------------------------------------------------------------
  // The model object

  /** The configuration sections the model reads once the user
      configuration has been merged in. */
  datatype ServiceConfig = ServiceConfig(mesh: MeshConfig, events: EventPrices, dataTransfer: map<string, real>)

  const DefaultConfig := ServiceConfig(DefaultMesh, DefaultEventPrices, DefaultDataTransfer)

  /** `ServiceCommunicationModel` (lines 11-108): its configuration and its
      billing counters. */
  class ServiceCommunicationModel {
    const config: ServiceConfig
    var apiRequestsCount: int
    var eventMessagesCount: map<string, int>
    var dataTransferredGb: map<string, real>

    constructor(config: ServiceConfig)
      ensures this.config == config
      ensures apiRequestsCount == 0
      ensures eventMessagesCount == map["sns" := 0, "sqs" := 0, "eventbridge" := 0, "kinesis" := 0]
      ensures dataTransferredGb == ZeroTransferred
    {
      this.config := config;
      apiRequestsCount := 0;
      eventMessagesCount := map["sns" := 0, "sqs" := 0, "eventbridge" := 0, "kinesis" := 0];
      dataTransferredGb := ZeroTransferred;
    }

    /** `calculate_service_mesh_overhead` on this model's configuration. */
    function ServiceMeshOverhead(features: MeshFeatures): (ms: real)
      ensures !config.mesh.enabled ==> ms == 0.0
      ensures config.mesh.enabled && config.mesh.authLatency >= 0.0 ==>
                config.mesh.sidecarLatency + config.mesh.routingLatency <= ms
    {
      MeshOverhead(config.mesh, features)
    }

    /** `calculate_data_transfer_cost` (lines 372-394): bills the transfer
        and updates the per-type counter; the other counters stay. */
    method CalculateDataTransferCost(gb: real, transferType: string) returns (cost: Result<real, string>)
      modifies this
      ensures var o := TransferAsWritten(config.dataTransfer, old(dataTransferredGb), gb, transferType);
              cost == o.cost && dataTransferredGb == o.transferred
      ensures apiRequestsCount == old(apiRequestsCount) && eventMessagesCount == old(eventMessagesCount)
    {
      var t := transferType;
      if t !in config.dataTransfer {
        t := "intra_region";
      }
      var key := t + "_cost_per_gb";
      if key !in config.dataTransfer {
        return Err("KeyError: " + key);
      }
      var costPerGb := config.dataTransfer[key];
      dataTransferredGb := dataTransferredGb[t := Get(dataTransferredGb, t) + gb];
      cost := Ok(Charge(gb, costPerGb));
      assert t == ResolvedAsWritten(config.dataTransfer, transferType);
    }
  }

  /** On a freshly built default model every transfer lands in the
      intra-region counter. */
  method DefaultModelCountsIntraRegion(gb: real) returns (cost: Result<real, string>, intra: real, internet: real)
    ensures cost == Ok(gb * 0.01) && intra == gb && internet == 0.0
  {
    var model := new ServiceCommunicationModel(DefaultConfig);
    cost := model.CalculateDataTransferCost(gb, "internet");
    EveryTypeBilledAsIntraRegion(ZeroTransferred, gb, "internet");
    intra := model.dataTransferredGb["intra_region"];
    internet := model.dataTransferredGb["internet"];
  }
}
