/** The cost model used to rank fusion setups: the price of one execution
    (a minimum billed duration, a billing resolution, a double-billing
    factor for synchronous calls), the cost breakdown of a whole fusion
    setup, the free-tier counters and the monthly estimate. Prices and
    durations are exact reals instead of floats; logging is left out. */
module ImprovedCostModel {
  import opened Wrappers
  import FunctionFusionOptimizer
  import opened Stats

  /** A provider's price profile; a missing `free_tier` entry reads as 0. */
  datatype Profile = Profile(
    requestCost: real, gbSecondCost: real,
    freeRequests: real, freeCompute: real,
    minBillingDuration: real, billingResolution: real,
    doubleBillingFactor: real)

  const AwsLambda := Profile(0.0000002, 0.0000166667, 1000000.0, 400000.0, 1.0, 1.0, 1.0)
  const AzureFunctions := Profile(0.0000002, 0.000016, 1000000.0, 400000.0, 100.0, 1.0, 1.0)
  const GoogleCloudFunctions := Profile(0.0000004, 0.0000025, 2000000.0, 400000.0, 100.0, 100.0, 1.0)

  /** Prices that make sense: nothing negative, a positive resolution and a
      factor that never discounts a synchronous call. */
  predicate Priced(p: Profile)
  {
    p.requestCost >= 0.0 && p.gbSecondCost >= 0.0 && p.minBillingDuration >= 0.0 &&
    p.billingResolution > 0.0 && p.doubleBillingFactor >= 1.0 &&
    p.freeRequests >= 0.0 && p.freeCompute >= 0.0
  }

  /** The profile a model starts from: a custom one when given, else the
      provider's; an unknown provider is an error. */
  function ProfileFor(provider: string, custom: Option<Profile>): (r: Result<Profile, string>)
    ensures custom.Some? ==> r == Ok(custom.value)
    ensures r.Err? <==>
              custom.None? && provider != "aws_lambda" && provider != "azure_functions" &&
              provider != "google_cloud_functions"
    ensures custom.None? && r.Ok? ==> Priced(r.value) && r.value.doubleBillingFactor == 1.0
  {
    if custom.Some? then Ok(custom.value)
    else if provider == "aws_lambda" then Ok(AwsLambda)
    else if provider == "azure_functions" then Ok(AzureFunctions)
    else if provider == "google_cloud_functions" then Ok(GoogleCloudFunctions)
    else Err("Unbekannter Provider: " + provider)
  }

  function Max(a: real, b: real): real
  {
    if a >= b then a else b
  }

  function Min(a: real, b: real): real
  {
    if a <= b then a else b
  }

  /** `math.ceil(y)`. */
  function Ceil(y: real): (k: int)
    ensures k as real - 1.0 < y <= k as real
  {
    -((-y).Floor)
  }

  /** `y * r` grows with `y` for a non-negative `r`. */
  lemma MulLe(a: real, b: real, r: real)
    requires a <= b && r >= 0.0
    ensures a * r <= b * r && r * a <= r * b
  {
  }

  /** `y * r` grows strictly with `y` for a positive `r`. */
  lemma MulLt(a: real, b: real, r: real)
    requires a < b && r > 0.0
    ensures a * r < b * r
  {
  }

  /** `ceil(b / res) * res` covers `b` by less than one step. */
  lemma CeilStep(b: real, res: real)
    requires res > 0.0
    ensures b <= Ceil(b / res) as real * res < b + res
  {
    var k := Ceil(b / res) as real;
    var q := b / res;
    assert q * res == b;
    MulLe(q, k, res);
    MulLt(k - 1.0, q, res);
    Distribute(k, -1.0, res);
  }

  /** The billed duration: at least the minimum, rounded up to a multiple
      of the resolution. */
  function BilledDuration(p: Profile, durationMs: real): (r: real)
    requires p.billingResolution != 0.0
    ensures p.billingResolution > 0.0 ==>
              r >= durationMs && r >= p.minBillingDuration &&
              r < Max(durationMs, p.minBillingDuration) + p.billingResolution
  {
    var b := Max(durationMs, p.minBillingDuration);
    var res := p.billingResolution;
    if res > 0.0 then
      CeilStep(b, res);
      Ceil(b / res) as real * res
    else
      Ceil(b / res) as real * res
  }

  /** The billed duration is the least multiple of the resolution that
      covers the run and the minimum. */
  lemma BilledDurationIsLeast(p: Profile, durationMs: real, k: int)
    requires p.billingResolution > 0.0
    requires k as real * p.billingResolution >= Max(durationMs, p.minBillingDuration)
    ensures BilledDuration(p, durationMs) <= k as real * p.billingResolution
  {
    var b := Max(durationMs, p.minBillingDuration);
    var res := p.billingResolution;
    assert b / res <= k as real by {
      assert b / res * res == b;
      if b / res > k as real {
        MulLe(k as real, b / res, res);
        assert false;
      }
    }
    var c := Ceil(b / res);
    assert c <= k;
    MulLe(c as real, k as real, res);
  }

  /** Billing a billed duration again changes nothing: it already is a
      multiple of the resolution. */
  lemma BilledDurationIdempotent(p: Profile, durationMs: real)
    requires p.billingResolution > 0.0
    ensures BilledDuration(p, BilledDuration(p, durationMs)) == BilledDuration(p, durationMs)
  {
    var res := p.billingResolution;
    var k := Ceil(Max(durationMs, p.minBillingDuration) / res);
    var b := BilledDuration(p, durationMs);
    assert b == k as real * res;
    assert Max(b, p.minBillingDuration) == b;
    assert b / res == k as real;
    assert Ceil(k as real) == k;
  }

  /** A longer run is never billed for less. */
  lemma BilledDurationMonotone(p: Profile, d1: real, d2: real)
    requires p.billingResolution > 0.0 && d1 <= d2
    ensures BilledDuration(p, d1) <= BilledDuration(p, d2)
  {
    var k := Ceil(Max(d2, p.minBillingDuration) / p.billingResolution);
    assert BilledDuration(p, d2) == k as real * p.billingResolution;
    BilledDurationIsLeast(p, d1, k);
  }

  /** Memory in GB times the billed seconds. */
  function GbSeconds(memoryMb: int, billedMs: real): real
  {
    (memoryMb as real / 1024.0) * (billedMs / 1000.0)
  }

  /** The compute part of one billed execution, the factor applied to a
      synchronous call. */
  function ComputeCost(p: Profile, memoryMb: int, durationMs: real, isSync: bool): real
    requires p.billingResolution != 0.0
  {
    GbSecondPrice(p, GbSeconds(memoryMb, BilledDuration(p, durationMs)), isSync)
  }

  /** GB-seconds at the profile's price, times the factor for a synchronous
      call. */
  function GbSecondPrice(p: Profile, gb: real, isSync: bool): real
  {
    var compute := gb * p.gbSecondCost;
    if isSync then compute * p.doubleBillingFactor else compute
  }

  /** `calculate_execution_cost` as a value: nothing for a run that is not
      billable, else the request price plus the compute part. */
  function ExecutionCost(p: Profile, memoryMb: int, durationMs: real, billable: bool, isSync: bool): (r: real)
    requires !billable || p.billingResolution != 0.0
    ensures !billable ==> r == 0.0
    ensures billable ==> r - p.requestCost == ComputeCost(p, memoryMb, durationMs, isSync)
  {
    if !billable then 0.0
    else p.requestCost + ComputeCost(p, memoryMb, durationMs, isSync)
  }

  /** The compute part of a billed run is never negative. */
  lemma ComputeCostNonNegative(p: Profile, memoryMb: int, durationMs: real, isSync: bool)
    requires Priced(p) && memoryMb >= 0
    ensures ComputeCost(p, memoryMb, durationMs, isSync) >= 0.0
  {
    var billed := BilledDuration(p, durationMs);
    assert billed >= 0.0;
    var g := GbSeconds(memoryMb, billed);
    MulLe(0.0, memoryMb as real / 1024.0, billed / 1000.0);
    MulLe(0.0, g, p.gbSecondCost);
    MulLe(0.0, g * p.gbSecondCost, p.doubleBillingFactor);
  }

  /** A billed run costs at least the request price. */
  lemma ExecutionCostAtLeastRequest(p: Profile, memoryMb: int, durationMs: real, isSync: bool)
    requires Priced(p) && memoryMb >= 0
    ensures ExecutionCost(p, memoryMb, durationMs, true, isSync) >= p.requestCost
  {
    ComputeCostNonNegative(p, memoryMb, durationMs, isSync);
  }

  /** A synchronous call costs at least as much as the same asynchronous
      one, and exactly as much under a factor of 1. */
  lemma SyncCostsAtLeastAsync(p: Profile, memoryMb: int, durationMs: real)
    requires Priced(p) && memoryMb >= 0
    ensures ExecutionCost(p, memoryMb, durationMs, true, true) >= ExecutionCost(p, memoryMb, durationMs, true, false)
    ensures p.doubleBillingFactor == 1.0 ==>
              ExecutionCost(p, memoryMb, durationMs, true, true) == ExecutionCost(p, memoryMb, durationMs, true, false)
  {
    ComputeCostNonNegative(p, memoryMb, durationMs, false);
    var c := ComputeCost(p, memoryMb, durationMs, false);
    MulLe(1.0, p.doubleBillingFactor, c);
  }

  /** A longer run never costs less. */
  lemma ExecutionCostMonotone(p: Profile, memoryMb: int, d1: real, d2: real, isSync: bool)
    requires Priced(p) && memoryMb >= 0 && d1 <= d2
    ensures ExecutionCost(p, memoryMb, d1, true, isSync) <= ExecutionCost(p, memoryMb, d2, true, isSync)
  {
    ComputeCostMonotone(p, memoryMb, d1, d2, isSync);
  }

  lemma ComputeCostMonotone(p: Profile, memoryMb: int, d1: real, d2: real, isSync: bool)
    requires Priced(p) && memoryMb >= 0 && d1 <= d2
    ensures ComputeCost(p, memoryMb, d1, isSync) <= ComputeCost(p, memoryMb, d2, isSync)
  {
    var b1 := BilledDuration(p, d1);
    var b2 := BilledDuration(p, d2);
    BilledDurationMonotone(p, d1, d2);
    GbSecondsMonotone(memoryMb, b1, b2);
    GbSecondPriceMonotone(p, GbSeconds(memoryMb, b1), GbSeconds(memoryMb, b2), isSync);
  }

  lemma GbSecondPriceMonotone(p: Profile, g1: real, g2: real, isSync: bool)
    requires Priced(p) && g1 <= g2
    ensures GbSecondPrice(p, g1, isSync) <= GbSecondPrice(p, g2, isSync)
  {
    PriceMonotone(g1, g2, p.gbSecondCost, p.doubleBillingFactor);
  }

  lemma GbSecondsMonotone(memoryMb: int, b1: real, b2: real)
    requires memoryMb >= 0 && b1 <= b2
    ensures GbSeconds(memoryMb, b1) <= GbSeconds(memoryMb, b2)
  {
    MulLe(b1 / 1000.0, b2 / 1000.0, memoryMb as real / 1024.0);
  }

  lemma PriceMonotone(g1: real, g2: real, price: real, factor: real)
    requires g1 <= g2 && price >= 0.0 && factor >= 0.0
    ensures g1 * price <= g2 * price && g1 * price * factor <= g2 * price * factor
  {
    MulLe(g1, g2, price);
    MulLe(g1 * price, g2 * price, factor);
  }

  /** A run shorter than the minimum costs what the minimum costs. */
  lemma ShortRunsCostTheMinimum(p: Profile, memoryMb: int, durationMs: real, isSync: bool)
    requires p.billingResolution != 0.0 && durationMs <= p.minBillingDuration
    ensures ExecutionCost(p, memoryMb, durationMs, true, isSync) ==
            ExecutionCost(p, memoryMb, p.minBillingDuration, true, isSync)
  {
  }

  /** Google's 100 ms steps: a 101 ms run is billed as 200 ms. */
  lemma GoogleBillsWholeSteps()
    ensures BilledDuration(GoogleCloudFunctions, 101.0) == 200.0
    ensures BilledDuration(GoogleCloudFunctions, 20.0) == 100.0
  {
    assert Ceil(101.0 / 100.0) == 2;
    assert Ceil(100.0 / 100.0) == 1;
  }

  // The breakdown of a fusion setup

  /** One entry of the execution data; `None` for an absent `function` or
      `caller`. */
  datatype Execution = Execution(name: Option<string>, durationMs: real, caller: Option<string>, isSync: bool)

  /** What `groups_dict` keeps per function. */
  datatype GroupInfo = GroupInfo(group: seq<string>, groupKey: string, memoryMb: int)

  /** A group's key and its configured memory, 128 MB when none is set. */
  function InfoOf(group: seq<string>, memory: map<string, int>): GroupInfo
  {
    var key := FunctionFusionOptimizer.GroupKey(group);
    GroupInfo(group, key, if key in memory then memory[key] else 128)
  }

  /** `groups_dict`: every member of every group, a later group overriding
      an earlier one. */
  function GroupsDict(groups: seq<seq<string>>, memory: map<string, int>): map<string, GroupInfo>
  {
    if groups == [] then map[]
    else
      var last := groups[|groups| - 1];
      GroupsDict(groups[..|groups| - 1], memory) + map f | f in last :: InfoOf(last, memory)
  }

  /** A function is looked up in the last group that names it. */
  lemma {:induction false} GroupsDictLast(groups: seq<seq<string>>, memory: map<string, int>, i: int, f: string)
    requires 0 <= i < |groups| && f in groups[i]
    requires forall j :: i < j < |groups| ==> f !in groups[j]
    ensures f in GroupsDict(groups, memory) && GroupsDict(groups, memory)[f] == InfoOf(groups[i], memory)
  {
    if i < |groups| - 1 {
      var prefix := groups[..|groups| - 1];
      assert prefix[i] == groups[i];
      GroupsDictLast(prefix, memory, i, f);
    }
  }

  /** A function no group names is not in the dictionary. */
  lemma {:induction false} GroupsDictMissing(groups: seq<seq<string>>, memory: map<string, int>, f: string)
    requires forall j :: 0 <= j < |groups| ==> f !in groups[j]
    ensures f !in GroupsDict(groups, memory)
  {
    if groups != [] {
      var prefix := groups[..|groups| - 1];
      assert forall j :: 0 <= j < |prefix| ==> prefix[j] == groups[j];
      GroupsDictMissing(prefix, memory, f);
    }
  }

  /** Lines 188-190: the run belongs to a group. */
  predicate Counted(dict: map<string, GroupInfo>, e: Execution)
  {
    e.name.Some? && e.name.value in dict
  }

  /** The caller's group key, "" for no caller or an ungrouped one. */
  function CallerGroup(dict: map<string, GroupInfo>, caller: Option<string>): string
  {
    if caller.Some? && caller.value in dict then dict[caller.value].groupKey else ""
  }

  /** Lines 201-206: a grouped run is billed unless a (non-empty) caller
      sits in its own group. */
  predicate Charged(dict: map<string, GroupInfo>, e: Execution)
  {
    Counted(dict, e) &&
    !(e.caller.Some? && e.caller.value != "" && CallerGroup(dict, e.caller) == dict[e.name.value].groupKey)
  }

  /** The prices can be computed for every billed run. */
  predicate Divides(p: Profile, dict: map<string, GroupInfo>, execs: seq<Execution>)
  {
    p.billingResolution != 0.0 || forall i :: 0 <= i < |execs| ==> !Charged(dict, execs[i])
  }

  /** `cost_breakdown` before the free tier. */
  datatype Tally = Tally(requestCost: real, computeCost: real, totalCost: real, fusionGroups: map<string, real>)

  /** The cost of one grouped run. */
  function RunCost(p: Profile, dict: map<string, GroupInfo>, e: Execution): real
    requires Counted(dict, e)
    requires Charged(dict, e) ==> p.billingResolution != 0.0
  {
    ExecutionCost(p, dict[e.name.value].memoryMb, e.durationMs, Charged(dict, e), e.isSync)
  }

  /** What `calculate_execution_cost` returns for each run, 0 for a
      skipped one. */
  function RunCosts(p: Profile, dict: map<string, GroupInfo>, execs: seq<Execution>): (r: seq<real>)
    requires Divides(p, dict, execs)
    ensures |r| == |execs|
  {
    seq(|execs|, i requires 0 <= i < |execs| =>
      if Counted(dict, execs[i]) then RunCost(p, dict, execs[i]) else 0.0)
  }

  /** The GB-seconds each billed run adds to the free-tier counter. */
  function RunGbSeconds(p: Profile, dict: map<string, GroupInfo>, execs: seq<Execution>): (r: seq<real>)
    requires Divides(p, dict, execs)
    ensures |r| == |execs|
  {
    seq(|execs|, i requires 0 <= i < |execs| =>
      if Charged(dict, execs[i])
      then GbSeconds(dict[execs[i].name.value].memoryMb, BilledDuration(p, execs[i].durationMs))
      else 0.0)
  }

  /** Lines 217-230: one grouped run of the given cost added to the
      totals. */
  function AddRun(price: real, dict: map<string, GroupInfo>, t: Tally, e: Execution, cost: real): Tally
    requires Counted(dict, e)
  {
    if Charged(dict, e) then
      var key := dict[e.name.value].groupKey;
      var before := if key in t.fusionGroups then t.fusionGroups[key] else 0.0;
      Tally(t.requestCost + price, t.computeCost + (cost - price),
            t.totalCost + cost, t.fusionGroups[key := before + cost])
    else
      t.(totalCost := t.totalCost + cost)
  }

  /** Lines 182-230: the running totals after the given runs, each at its
      cost. */
  function TallyOf(price: real, dict: map<string, GroupInfo>, execs: seq<Execution>, costs: seq<real>): Tally
    requires |costs| == |execs|
  {
    if execs == [] then Tally(0.0, 0.0, 0.0, map[])
    else
      var n := |execs| - 1;
      var t := TallyOf(price, dict, execs[..n], costs[..n]);
      if !Counted(dict, execs[n]) then t else AddRun(price, dict, t, execs[n], costs[n])
  }

  /** `cost_breakdown` before the free tier. */
  function Totals(p: Profile, dict: map<string, GroupInfo>, execs: seq<Execution>): Tally
    requires Divides(p, dict, execs)
  {
    TallyOf(p.requestCost, dict, execs, RunCosts(p, dict, execs))
  }

  /** How many of the runs are billed. */
  function BilledCount(dict: map<string, GroupInfo>, execs: seq<Execution>): nat
  {
    if execs == [] then 0
    else BilledCount(dict, execs[..|execs| - 1]) + if Charged(dict, execs[|execs| - 1]) then 1 else 0
  }

  /** The totals, the count and a sum after one more run of the list. */
  lemma PrefixStep(price: real, dict: map<string, GroupInfo>, execs: seq<Execution>, costs: seq<real>,
                   values: seq<real>, k: nat)
    requires k < |execs| == |costs| == |values|
    ensures TallyOf(price, dict, execs[..k + 1], costs[..k + 1]) ==
            if Counted(dict, execs[k]) then AddRun(price, dict, TallyOf(price, dict, execs[..k], costs[..k]), execs[k], costs[k])
            else TallyOf(price, dict, execs[..k], costs[..k])
    ensures BilledCount(dict, execs[..k + 1]) == BilledCount(dict, execs[..k]) + if Charged(dict, execs[k]) then 1 else 0
    ensures Sum(values[..k + 1]) == Sum(values[..k]) + values[k]
  {
    assert execs[..k + 1][..k] == execs[..k];
    assert costs[..k + 1][..k] == costs[..k];
    assert values[..k + 1][..k] == values[..k];
  }

  /** A run that is not billed costs nothing. */
  ghost predicate LocalFree(dict: map<string, GroupInfo>, execs: seq<Execution>, costs: seq<real>)
    requires |costs| == |execs|
  {
    forall i :: 0 <= i < |execs| && !Charged(dict, execs[i]) ==> costs[i] == 0.0
  }

  /** `calculate_execution_cost` charges nothing for a run that is not
      billed. */
  lemma RunCostsLocalFree(p: Profile, dict: map<string, GroupInfo>, execs: seq<Execution>)
    requires Divides(p, dict, execs)
    ensures LocalFree(dict, execs, RunCosts(p, dict, execs))
  {
  }

  /** With prices that make sense, each billed run costs at least the
      request price. */
  lemma RunCostsBilled(p: Profile, dict: map<string, GroupInfo>, execs: seq<Execution>)
    requires Priced(p)
    requires forall f :: f in dict ==> dict[f].memoryMb >= 0
    ensures forall i :: 0 <= i < |execs| && Charged(dict, execs[i]) ==> RunCosts(p, dict, execs)[i] >= p.requestCost
  {
    forall i | 0 <= i < |execs| && Charged(dict, execs[i])
      ensures RunCosts(p, dict, execs)[i] >= p.requestCost
    {
      var e := execs[i];
      ExecutionCostAtLeastRequest(p, dict[e.name.value].memoryMb, e.durationMs, e.isSync);
    }
  }

  /** The total is the request part plus the compute part. */
  lemma {:induction false} TallyBalanced(price: real, dict: map<string, GroupInfo>, execs: seq<Execution>, costs: seq<real>)
    requires |costs| == |execs| && LocalFree(dict, execs, costs)
    ensures TallyOf(price, dict, execs, costs).totalCost ==
            TallyOf(price, dict, execs, costs).requestCost + TallyOf(price, dict, execs, costs).computeCost
  {
    if execs != [] {
      var n := |execs| - 1;
      assert LocalFree(dict, execs[..n], costs[..n]);
      TallyBalanced(price, dict, execs[..n], costs[..n]);
    }
  }

  /** `n` request prices added up. */
  function Repeat(price: real, n: nat): real
  {
    if n == 0 then 0.0 else Repeat(price, n - 1) + price
  }

  lemma {:induction false} RepeatNonNegative(price: real, n: nat)
    requires price >= 0.0
    ensures Repeat(price, n) >= 0.0
  {
    if n > 0 { RepeatNonNegative(price, n - 1); }
  }

  /** Adding up `n` prices is multiplying by `n`. */
  lemma {:induction false} RepeatIsProduct(price: real, n: nat)
    ensures Repeat(price, n) == n as real * price
  {
    if n > 0 {
      RepeatIsProduct(price, n - 1);
      CountStep(n as real, (n - 1) as real, price);
    }
  }

  /** The request part, run by run. */
  lemma {:induction false} TallyRequestsAdd(price: real, dict: map<string, GroupInfo>, execs: seq<Execution>, costs: seq<real>)
    requires |costs| == |execs|
    ensures TallyOf(price, dict, execs, costs).requestCost == Repeat(price, BilledCount(dict, execs))
  {
    if execs != [] {
      var n := |execs| - 1;
      TallyRequestsAdd(price, dict, execs[..n], costs[..n]);
    }
  }

  /** The request part is one request price per billed run. */
  lemma {:induction false} TallyRequests(price: real, dict: map<string, GroupInfo>, execs: seq<Execution>, costs: seq<real>)
    requires |costs| == |execs|
    ensures TallyOf(price, dict, execs, costs).requestCost == BilledCount(dict, execs) as real * price
  {
    TallyRequestsAdd(price, dict, execs, costs);
    RepeatIsProduct(price, BilledCount(dict, execs));
  }

  /** The compute part never goes negative when each billed run costs at
      least the request price. */
  lemma {:induction false} TallyComputeNonNegative(price: real, dict: map<string, GroupInfo>, execs: seq<Execution>, costs: seq<real>)
    requires |costs| == |execs|
    requires forall i :: 0 <= i < |execs| && Charged(dict, execs[i]) ==> costs[i] >= price
    ensures TallyOf(price, dict, execs, costs).computeCost >= 0.0
  {
    if execs != [] {
      var n := |execs| - 1;
      assert forall i :: 0 <= i < n ==> execs[..n][i] == execs[i] && costs[..n][i] == costs[i];
      TallyComputeNonNegative(price, dict, execs[..n], costs[..n]);
    }
  }

  /** The breakdown of a setup: its total is the request part plus the
      compute part, and the request part is the request price added once per
      billed run (`RepeatIsProduct`: that many times the price). */
  lemma TotalsBalanced(p: Profile, dict: map<string, GroupInfo>, execs: seq<Execution>)
    requires Divides(p, dict, execs)
    ensures Totals(p, dict, execs).totalCost == Totals(p, dict, execs).requestCost + Totals(p, dict, execs).computeCost
    ensures Totals(p, dict, execs).requestCost == Repeat(p.requestCost, BilledCount(dict, execs))
  {
    RunCostsLocalFree(p, dict, execs);
    TallyBalanced(p.requestCost, dict, execs, RunCosts(p, dict, execs));
    TallyRequestsAdd(p.requestCost, dict, execs, RunCosts(p, dict, execs));
  }

  /** A run of an ungrouped function, or a call from inside its own group,
      adds nothing to the breakdown. */
  lemma SkippedRunsCostNothing(p: Profile, groups: seq<seq<string>>, memory: map<string, int>,
                               execs: seq<Execution>, e: Execution, i: int)
    requires Divides(p, GroupsDict(groups, memory), execs + [e])
    requires e.name.Some? && 0 <= i < |groups|
    requires forall j :: i < j < |groups| ==> e.name.value !in groups[j]
    requires e.name.value !in groups[i] ||
             (e.caller.Some? && e.caller.value != "" && e.caller.value in groups[i] &&
              forall j :: i < j < |groups| ==> e.caller.value !in groups[j])
    requires e.name.value !in groups[i] ==> forall j :: 0 <= j < |groups| ==> e.name.value !in groups[j]
    ensures !Charged(GroupsDict(groups, memory), e)
    ensures Divides(p, GroupsDict(groups, memory), execs)
    ensures Totals(p, GroupsDict(groups, memory), execs + [e]) == Totals(p, GroupsDict(groups, memory), execs)
  {
    var dict := GroupsDict(groups, memory);
    if e.name.value in groups[i] {
      GroupsDictLast(groups, memory, i, e.name.value);
      GroupsDictLast(groups, memory, i, e.caller.value);
    } else {
      GroupsDictMissing(groups, memory, e.name.value);
    }
    var all := execs + [e];
    assert Divides(p, dict, execs) by {
      assert forall j :: 0 <= j < |execs| ==> all[j] == execs[j];
    }
    var costs := RunCosts(p, dict, all);
    assert all[..|execs|] == execs;
    assert costs[..|execs|] == RunCosts(p, dict, execs);
  }

  /** The free-tier share used so far, capped at 1; 1 when there is no
      allowance. */
  function UsedShare(used: real, allowance: real): (s: real)
    ensures s <= 1.0
    ensures used >= 0.0 ==> s >= 0.0
  {
    if allowance > 0.0 then Min(1.0, used / allowance) else 1.0
  }

  /** A share of a non-negative amount lies between 0 and the amount. */
  lemma ScaledWithin(x: real, m: real)
    requires x >= 0.0 && 0.0 <= m <= 1.0
    ensures 0.0 <= x * m <= x
  {
    MulLe(m, 1.0, x);
    MulLe(0.0, m, x);
  }

  /** The free-tier part of a breakdown. */
  datatype FreeTier = FreeTier(savings: real, totalAfterFreeTier: real)

  /** Lines 233-248: each part discounted by the share of the allowance not
      yet used. */
  function FreeTierOf(p: Profile, t: Tally, requests: int, computeGbSeconds: real): (r: FreeTier)
    ensures t.requestCost >= 0.0 && t.computeCost >= 0.0 && requests >= 0 && computeGbSeconds >= 0.0 ==>
              0.0 <= r.savings <= t.requestCost + t.computeCost
    ensures r.savings + r.totalAfterFreeTier == t.totalCost
  {
    var adjustedRequest := Discounted(t.requestCost, UsedShare(requests as real, p.freeRequests));
    var adjustedCompute := Discounted(t.computeCost, UsedShare(computeGbSeconds, p.freeCompute));
    var savings := adjustedRequest + adjustedCompute;
    FreeTier(savings, t.totalCost - savings)
  }

  /** `cost * max(0, 1 - share)`: what is left of a part once the used share
      of the allowance is taken off. */
  function Discounted(cost: real, share: real): (r: real)
    requires share <= 1.0
    ensures cost >= 0.0 && share >= 0.0 ==> 0.0 <= r <= cost
  {
    var m := Max(0.0, 1.0 - share);
    if cost >= 0.0 && share >= 0.0 then
      ScaledWithin(cost, m);
      cost * m
    else
      cost * m
  }

  /** Once the allowance is used up the free tier saves nothing. */
  lemma FreeTierExhausted(p: Profile, t: Tally, requests: int, computeGbSeconds: real)
    requires requests as real >= p.freeRequests && computeGbSeconds >= p.freeCompute
    ensures FreeTierOf(p, t, requests, computeGbSeconds).savings == 0.0
  {
    if p.freeRequests > 0.0 {
      assert requests as real / p.freeRequests >= 1.0;
    }
    if p.freeCompute > 0.0 {
      assert computeGbSeconds / p.freeCompute >= 1.0;
    }
  }

  /** With prices that make sense the cost after the free tier is never
      negative. */
  lemma FreeTierNeverNegative(p: Profile, dict: map<string, GroupInfo>, execs: seq<Execution>,
                              requests: int, computeGbSeconds: real)
    requires Priced(p) && requests >= 0 && computeGbSeconds >= 0.0
    requires forall f :: f in dict ==> dict[f].memoryMb >= 0
    ensures FreeTierOf(p, Totals(p, dict, execs), requests, computeGbSeconds).totalAfterFreeTier >= 0.0
  {
    TotalsBalanced(p, dict, execs);
    RepeatNonNegative(p.requestCost, BilledCount(dict, execs));
    RunCostsBilled(p, dict, execs);
    TallyComputeNonNegative(p.requestCost, dict, execs, RunCosts(p, dict, execs));
  }

  /** The result of `calculate_fusion_cost`: the free-tier part only when
      the free tier applies. */
  datatype Breakdown = Breakdown(tally: Tally, freeTier: Option<FreeTier>)

  /** The result of `estimate_monthly_cost`. */
  datatype MonthlyEstimate = MonthlyEstimate(
    invocations: int, costPerInvocation: real, beforeFreeTier: real,
    freeTierSavings: real, afterFreeTier: real)

  /** Lines 320-358: the per-invocation cost times the invocations, less
      the requests and GB-seconds the monthly allowance covers, never below
      zero. */
  function Monthly(p: Profile, applyFreeTier: bool, t: Tally, invocations: int): (r: MonthlyEstimate)
    requires applyFreeTier ==> p.gbSecondCost != 0.0
    ensures r.afterFreeTier >= 0.0
    ensures r.afterFreeTier >= r.beforeFreeTier - r.freeTierSavings
    ensures r.beforeFreeTier - r.freeTierSavings >= 0.0 ==> r.afterFreeTier == r.beforeFreeTier - r.freeTierSavings
    ensures !applyFreeTier ==> r.freeTierSavings == 0.0
  {
    var monthly := t.totalCost * invocations as real;
    if applyFreeTier then
      var gbSecondsPerInvocation := t.computeCost / p.gbSecondCost;
      var monthlyGbSeconds := gbSecondsPerInvocation * invocations as real;
      var coveredRequests := Min(invocations as real, p.freeRequests);
      var coveredGbSeconds := Min(monthlyGbSeconds, p.freeCompute);
      var savings := coveredRequests * p.requestCost + coveredGbSeconds * p.gbSecondCost;
      MonthlyEstimate(invocations, t.totalCost, monthly, savings, Max(0.0, monthly - savings))
    else
      MonthlyEstimate(invocations, t.totalCost, monthly, 0.0, Max(0.0, monthly))
  }

  /** When every invocation bills at least one request, the allowance saves
      no more than the month costs. */
  lemma MonthlySavingsWithinCost(p: Profile, t: Tally, invocations: int)
    requires Priced(p) && p.gbSecondCost > 0.0 && invocations >= 0
    requires t.totalCost == t.requestCost + t.computeCost
    requires t.requestCost >= p.requestCost && t.computeCost >= 0.0
    ensures 0.0 <= Monthly(p, true, t, invocations).freeTierSavings <= Monthly(p, true, t, invocations).beforeFreeTier
  {
    MonthlyFreeTier(p, t, invocations);
    SavingsWithin(p, t, invocations as real);
  }

  /** The two allowances together save no more than `n` invocations cost. */
  lemma SavingsWithin(p: Profile, t: Tally, n: real)
    requires Priced(p) && p.gbSecondCost > 0.0 && n >= 0.0
    requires t.totalCost == t.requestCost + t.computeCost
    requires t.requestCost >= p.requestCost && t.computeCost >= 0.0
    ensures 0.0 <= Min(n, p.freeRequests) * p.requestCost +
                   Min(t.computeCost / p.gbSecondCost * n, p.freeCompute) * p.gbSecondCost
                <= t.totalCost * n
  {
    var coveredRequests := Min(n, p.freeRequests);
    var coveredGb := Min(t.computeCost / p.gbSecondCost * n, p.freeCompute);
    RequestSavingsBound(coveredRequests, n, p.requestCost, t.requestCost);
    ComputeSavingsBound(coveredGb, t.computeCost, p.gbSecondCost, n);
    TotalWithin(coveredRequests * p.requestCost, coveredGb * p.gbSecondCost,
                t.requestCost, t.computeCost, t.totalCost, n);
  }

  /** The savings and the cost before the allowance of a month with the
      allowance applied. */
  lemma MonthlyFreeTier(p: Profile, t: Tally, invocations: int)
    requires p.gbSecondCost != 0.0
    ensures Monthly(p, true, t, invocations).beforeFreeTier == t.totalCost * invocations as real
    ensures Monthly(p, true, t, invocations).freeTierSavings ==
              Min(invocations as real, p.freeRequests) * p.requestCost +
              Min(t.computeCost / p.gbSecondCost * invocations as real, p.freeCompute) * p.gbSecondCost
  {
  }

  /** Savings within the two parts of the cost are within the whole. */
  lemma TotalWithin(x: real, y: real, a: real, b: real, total: real, n: real)
    requires 0.0 <= x <= a * n && 0.0 <= y <= b * n && total == a + b
    ensures 0.0 <= x + y <= total * n
  {
    Distribute(a, b, n);
  }

  /** At most one request price per invocation is saved. */
  lemma RequestSavingsBound(covered: real, n: real, price: real, perInvocation: real)
    requires 0.0 <= covered <= n && 0.0 <= price <= perInvocation
    ensures 0.0 <= covered * price <= perInvocation * n
  {
    MulLe(covered, n, price);
    MulLe(price, perInvocation, n);
    MulLe(0.0, covered, price);
  }

  /** No more GB-seconds are saved than the month uses. */
  lemma ComputeSavingsBound(covered: real, compute: real, gbPrice: real, n: real)
    requires compute >= 0.0 && gbPrice > 0.0 && n >= 0.0
    requires covered <= compute / gbPrice * n
    requires covered >= 0.0 || covered == compute / gbPrice * n
    ensures 0.0 <= covered * gbPrice <= compute * n
  {
    DivNonNegative(compute, gbPrice);
    MulLe(0.0, compute / gbPrice, n);
    MulLe(covered, compute / gbPrice * n, gbPrice);
    MulLe(0.0, covered, gbPrice);
    DivMulCancel(compute, gbPrice, n);
  }

  lemma CountStep(x: real, n: real, price: real)
    requires x == n + 1.0
    ensures x * price == n * price + price
  {
  }

  lemma DivNonNegative(a: real, b: real)
    requires a >= 0.0 && b > 0.0
    ensures a / b >= 0.0
  {
  }

  lemma DivMulCancel(c: real, g: real, n: real)
    requires g != 0.0
    ensures c / g * n * g == c * n
  {
  }

  lemma Distribute(a: real, b: real, n: real)
    ensures (a + b) * n == a * n + b * n
  {
  }

  class CostModel {
    var profile: Profile
    var providerName: string
    var applyFreeTier: bool
    /** Requests and GB-seconds counted toward the free tier. */
    var totalRequests: int
    var totalComputeGbSeconds: real

    /** Lines 62-72, once the profile is chosen (`ProfileFor`). */
    constructor(provider: string, profile: Profile, applyFreeTier: bool)
      ensures this.profile == profile && providerName == provider && this.applyFreeTier == applyFreeTier
      ensures totalRequests == 0 && totalComputeGbSeconds == 0.0
    {
      this.profile := profile;
      providerName := provider;
      this.applyFreeTier := applyFreeTier;
      totalRequests := 0;
      totalComputeGbSeconds := 0.0;
    }

    /** Lines 78-131: the price of one run; a billed run moves the free-tier
        counters when the free tier applies, and nothing else changes. */
    method CalculateExecutionCost(memoryMb: int, durationMs: real, billable: bool, isSync: bool)
      returns (cost: real)
      requires !billable || profile.billingResolution != 0.0
      modifies this
      ensures profile == old(profile) && providerName == old(providerName) && applyFreeTier == old(applyFreeTier)
      ensures cost == ExecutionCost(profile, memoryMb, durationMs, billable, isSync)
      ensures totalRequests == old(totalRequests) + if applyFreeTier && billable then 1 else 0
      ensures totalComputeGbSeconds == old(totalComputeGbSeconds) +
                if applyFreeTier && billable then GbSeconds(memoryMb, BilledDuration(profile, durationMs)) else 0.0
    {
      if !billable {
        return 0.0;
      }
      var requestCost := profile.requestCost;
      var billedDuration := Max(durationMs, profile.minBillingDuration);
      billedDuration := Ceil(billedDuration / profile.billingResolution) as real * profile.billingResolution;
      var gbFactor := memoryMb as real / 1024.0;
      var durationSeconds := billedDuration / 1000.0;
      var gbSeconds := gbFactor * durationSeconds;
      var computeCost := gbSeconds * profile.gbSecondCost;
      if isSync {
        computeCost := computeCost * profile.doubleBillingFactor;
      }
      assert billedDuration == BilledDuration(profile, durationMs);
      assert gbSeconds == GbSeconds(memoryMb, billedDuration);
      assert computeCost == ComputeCost(profile, memoryMb, durationMs, isSync);
      cost := requestCost + computeCost;
      if applyFreeTier {
        totalRequests := totalRequests + 1;
        totalComputeGbSeconds := totalComputeGbSeconds + gbSeconds;
      }
    }

    /** Lines 168-230 and 232-250: the breakdown of a setup over the runs,
        with the free-tier part computed from the counters after them. */
    method CalculateFusionCost(groups: seq<seq<string>>, memory: map<string, int>, execs: seq<Execution>)
      returns (b: Breakdown)
      requires Divides(profile, GroupsDict(groups, memory), execs)
      modifies this
      ensures profile == old(profile) && providerName == old(providerName) && applyFreeTier == old(applyFreeTier)
      ensures totalRequests == old(totalRequests) +
                if applyFreeTier then BilledCount(GroupsDict(groups, memory), execs) else 0
      ensures totalComputeGbSeconds == old(totalComputeGbSeconds) +
                if applyFreeTier then Sum(RunGbSeconds(profile, GroupsDict(groups, memory), execs)) else 0.0
      ensures b.tally == Totals(profile, GroupsDict(groups, memory), execs)
      ensures b.freeTier ==
                if applyFreeTier then Some(FreeTierOf(profile, b.tally, totalRequests, totalComputeGbSeconds))
                else None
    {
      var dict := BuildGroupsDict(groups, memory);
      ghost var costs := RunCosts(profile, dict, execs);
      ghost var gbs := RunGbSeconds(profile, dict, execs);
      var t := Tally(0.0, 0.0, 0.0, map[]);
      ghost var requests0, compute0 := totalRequests, totalComputeGbSeconds;
      var k := 0;
      while k < |execs|
        invariant 0 <= k <= |execs|
        invariant profile == old(profile) && providerName == old(providerName) && applyFreeTier == old(applyFreeTier)
        invariant t == TallyOf(profile.requestCost, dict, execs[..k], costs[..k])
        invariant totalRequests == requests0 + if applyFreeTier then BilledCount(dict, execs[..k]) else 0
        invariant totalComputeGbSeconds == compute0 + if applyFreeTier then Sum(gbs[..k]) else 0.0
      {
        var e := execs[k];
        PrefixStep(profile.requestCost, dict, execs, costs, gbs, k);
        if e.name.Some? && e.name.value in dict {
          t := AddExecution(dict, t, e);
        }
        k := k + 1;
      }
      assert execs[..k] == execs && costs[..k] == costs && gbs[..k] == gbs;
      b := Breakdown(t, None);
      if applyFreeTier {
        b := Breakdown(t, Some(FreeTierOf(profile, t, totalRequests, totalComputeGbSeconds)));
      }
    }

    /** Lines 193-230: one grouped run priced and added to the totals. */
    method AddExecution(dict: map<string, GroupInfo>, t: Tally, e: Execution) returns (next: Tally)
      requires Counted(dict, e) && (Charged(dict, e) ==> profile.billingResolution != 0.0)
      modifies this
      ensures profile == old(profile) && providerName == old(providerName) && applyFreeTier == old(applyFreeTier)
      ensures next == AddRun(profile.requestCost, dict, t, e, RunCost(profile, dict, e))
      ensures totalRequests == old(totalRequests) + if applyFreeTier && Charged(dict, e) then 1 else 0
      ensures totalComputeGbSeconds == old(totalComputeGbSeconds) +
                if applyFreeTier && Charged(dict, e)
                then GbSeconds(dict[e.name.value].memoryMb, BilledDuration(profile, e.durationMs))
                else 0.0
    {
      var info := dict[e.name.value];
      var billable := true;
      if e.caller.Some? && e.caller.value != "" {
        var callerGroup := if e.caller.value in dict then dict[e.caller.value].groupKey else "";
        if callerGroup == info.groupKey {
          billable := false;
        }
      }
      var cost := CalculateExecutionCost(info.memoryMb, e.durationMs, billable, e.isSync);
      next := t.(totalCost := t.totalCost + cost);
      if billable {
        var key := info.groupKey;
        var before := if key in next.fusionGroups then next.fusionGroups[key] else 0.0;
        next := next.(requestCost := next.requestCost + profile.requestCost,
                      computeCost := next.computeCost + (cost - profile.requestCost),
                      fusionGroups := next.fusionGroups[key := before + cost]);
      }
    }

    /** Lines 305-358: the monthly estimate from one invocation's breakdown. */
    method EstimateMonthlyCost(groups: seq<seq<string>>, memory: map<string, int>, execs: seq<Execution>,
                               invocations: int)
      returns (m: MonthlyEstimate)
      requires Divides(profile, GroupsDict(groups, memory), execs)
      requires applyFreeTier ==> profile.gbSecondCost != 0.0
      modifies this
      ensures profile == old(profile) && providerName == old(providerName) && applyFreeTier == old(applyFreeTier)
      ensures totalRequests == old(totalRequests) +
                if applyFreeTier then BilledCount(GroupsDict(groups, memory), execs) else 0
      ensures totalComputeGbSeconds == old(totalComputeGbSeconds) +
                if applyFreeTier then Sum(RunGbSeconds(profile, GroupsDict(groups, memory), execs)) else 0.0
      ensures m == Monthly(profile, applyFreeTier, Totals(profile, GroupsDict(groups, memory), execs), invocations)
      ensures m.afterFreeTier >= 0.0
    {
      var b := CalculateFusionCost(groups, memory, execs);
      m := Monthly(profile, applyFreeTier, b.tally, invocations);
    }

    /** Lines 360-367. */
    method ResetFreeTierTracking()
      modifies this
      ensures totalRequests == 0 && totalComputeGbSeconds == 0.0
      ensures profile == old(profile) && providerName == old(providerName) && applyFreeTier == old(applyFreeTier)
    {
      totalRequests := 0;
      totalComputeGbSeconds := 0.0;
    }

    /** Lines 379-388: the factor is stored, but never below 1. */
    method SetDoubleBillingFactor(factor: real)
      modifies this
      ensures profile.doubleBillingFactor == Max(1.0, factor)
      ensures profile.doubleBillingFactor >= 1.0
      ensures profile == old(profile).(doubleBillingFactor := profile.doubleBillingFactor)
      ensures providerName == old(providerName) && applyFreeTier == old(applyFreeTier)
      ensures totalRequests == old(totalRequests) && totalComputeGbSeconds == old(totalComputeGbSeconds)
    {
      profile := profile.(doubleBillingFactor := Max(1.0, factor));
    }
  }

  /** Lines 168-179: `groups_dict`, group by group and member by member. */
  method BuildGroupsDict(groups: seq<seq<string>>, memory: map<string, int>) returns (dict: map<string, GroupInfo>)
    ensures dict == GroupsDict(groups, memory)
  {
    dict := map[];
    var i := 0;
    while i < |groups|
      invariant 0 <= i <= |groups|
      invariant dict == GroupsDict(groups[..i], memory)
    {
      var group := groups[i];
      dict := AddMembers(dict, group, InfoOf(group, memory));
      assert groups[..i + 1][..i] == groups[..i];
      i := i + 1;
    }
    assert groups[..i] == groups;
  }

  /** Lines 174-179: every member of one group gets the group's entry. */
  method AddMembers(start: map<string, GroupInfo>, group: seq<string>, info: GroupInfo)
    returns (dict: map<string, GroupInfo>)
    ensures dict == start + map f | f in group :: info
  {
    dict := start;
    var j := 0;
    while j < |group|
      invariant 0 <= j <= |group|
      invariant forall f :: f in dict <==> f in start || f in group[..j]
      invariant forall f :: f in dict ==> dict[f] == if f in group[..j] then info else start[f]
    {
      assert group[..j + 1] == group[..j] + [group[j]];
      dict := dict[group[j] := info];
      j := j + 1;
    }
    assert group[..j] == group;
  }

  /** A model for a provider, or the error for an unknown one. */
  method NewCostModel(provider: string, custom: Option<Profile>, applyFreeTier: bool)
    returns (r: Result<CostModel, string>)
    ensures r.Err? <==> ProfileFor(provider, custom).Err?
    ensures r.Ok? ==> fresh(r.value) && r.value.profile == ProfileFor(provider, custom).value &&
                      r.value.applyFreeTier == applyFreeTier &&
                      r.value.totalRequests == 0 && r.value.totalComputeGbSeconds == 0.0
  {
    var chosen := ProfileFor(provider, custom);
    if chosen.Err? {
      return Err(chosen.error);
    }
    var model := new CostModel(provider, chosen.value, applyFreeTier);
    r := Ok(model);
  }
}
