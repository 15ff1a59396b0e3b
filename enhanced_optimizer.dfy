/** The enhanced fusion optimiser object: its optimisation weights, the
    test results it analyses, the memory configuration it picks for each
    fusion group when no cost model is attached, and its setup strings. */
module EnhancedOptimizer {
  import opened Strs
  import opened FunctionFusionOptimizer
  import opened FunctionFusionSearch
  import opened EnhancedPath

  /** The measured invocations of one setup, each reduced to its call list. */
  type SetupRuns = (string, seq<seq<CallRecord>>)

  /** Lines 32 and 374-378: the memory sizes tried, in MB. */
  const MemoryConfigurations: seq<int> := [128, 256, 512, 1024, 1536, 2048, 3008, 4096, 6144]

  /** The pair of weights scaled to sum to one. */
  function Normalise(latency: real, cost: real): (r: (real, real))
    requires latency + cost != 0.0
    ensures r.0 + r.1 == 1.0
    ensures r.0 * cost == r.1 * latency
  {
    var total := latency + cost;
    (latency / total, cost / total)
  }

  /** Lines 345-349: the score of a memory size without a cost model. */
  function MemoryEfficiency(m: int): (r: real)
    ensures r <= 1.0
    ensures r == 1.0 <==> m == 1024
  {
    1.0 - Abs((m - 1024) as real / 6144.0)
  }

  function Abs(x: real): (r: real)
    ensures r >= 0.0 && (r == x || r == -x)
  {
    if x < 0.0 then -x else x
  }

  /** The score falls the further the size is from 1024 MB. */
  lemma EfficiencyDecreasesWithDistance(m: int, n: int)
    requires Abs((m - 1024) as real) < Abs((n - 1024) as real)
    ensures MemoryEfficiency(n) < MemoryEfficiency(m)
  {
    var a, b := (m - 1024) as real, (n - 1024) as real;
    assert Abs(a / 6144.0) == Abs(a) / 6144.0;
    assert Abs(b / 6144.0) == Abs(b) / 6144.0;
  }

  /** Lines 319-328: the size with the highest score, the first one on ties,
      and 128 MB when there is none to try. */
  method BestMemory(configs: seq<int>) returns (best: int)
    ensures configs == [] ==> best == 128
    ensures configs != [] ==>
              exists i :: 0 <= i < |configs| && configs[i] == best &&
                (forall j :: 0 <= j < i ==> MemoryEfficiency(configs[j]) < MemoryEfficiency(best))
    ensures forall m :: m in configs ==> MemoryEfficiency(m) <= MemoryEfficiency(best)
  {
    best := 128;
    var bestScore: real := 0.0;
    var found := false;
    ghost var at := 0;
    for n := 0 to |configs|
      invariant found <==> n > 0
      invariant found ==> 0 <= at < n && configs[at] == best && bestScore == MemoryEfficiency(best)
      invariant found ==> forall j :: 0 <= j < at ==> MemoryEfficiency(configs[j]) < bestScore
      invariant forall j :: 0 <= j < n ==> MemoryEfficiency(configs[j]) <= bestScore
      invariant !found ==> best == 128
    {
      var score := MemoryEfficiency(configs[n]);
      if !found || score > bestScore {
        best, bestScore, found := configs[n], score, true;
        at := n;
      }
    }
    assert forall m :: m in configs ==> exists j :: 0 <= j < |configs| && configs[j] == m;
  }

  /** Among the configured sizes the best one is 1024 MB. */
  method BestConfiguredMemory(configs: seq<int>) returns (best: int)
    requires configs == MemoryConfigurations
    ensures best == 1024
  {
    best := BestMemory(configs);
    assert 1024 in configs;
  }

  /** Line 311: a group without its empty names. */
  function ValidGroup(group: seq<string>): (r: seq<string>)
    ensures forall x :: x in r <==> x in group && x != ""
  {
    Without(group, "")
  }

  /** The key `infrastructure_optimize` writes for one group: its sorted
      non-empty names, or none when it has no such name. */
  function GroupEntry(group: seq<string>): (r: set<string>)
    ensures |r| <= 1
    ensures r == {} <==> forall x :: x in group ==> x == ""
  {
    var valid := ValidGroup(group);
    if valid != [] then
      assert valid[0] in valid;
      {GroupKey(valid)}
    else {}
  }

  /** The union of the entries of the groups, in order. */
  ghost function UnionOfEntries<T>(groups: seq<T>, entry: T -> set<string>): set<string>
  {
    if groups == [] then {}
    else UnionOfEntries(groups[..|groups| - 1], entry) + entry(groups[|groups| - 1])
  }

  /** The keys `infrastructure_optimize` writes for these groups. */
  ghost function ConfiguredKeys(pathGroups: seq<seq<string>>): set<string>
  {
    UnionOfEntries(pathGroups, GroupEntry)
  }

  /** A key is in the union exactly when some group has it as its entry. */
  lemma {:induction false} UnionOfEntriesMembers<T>(groups: seq<T>, entry: T -> set<string>, key: string)
    ensures key in UnionOfEntries(groups, entry) <==>
            exists i :: 0 <= i < |groups| && key in entry(groups[i])
  {
    if groups != [] {
      var init := groups[..|groups| - 1];
      var last := |groups| - 1;
      UnionOfEntriesMembers(init, entry, key);
      if key in UnionOfEntries(init, entry) {
        var i :| 0 <= i < |init| && key in entry(init[i]);
        assert groups[i] == init[i];
      } else if key in entry(groups[last]) {
        assert 0 <= last < |groups|;
      }
      if exists i :: 0 <= i < |groups| && key in entry(groups[i]) {
        var i :| 0 <= i < |groups| && key in entry(groups[i]);
        if i < last {
          assert init[i] == groups[i];
        }
      }
    }
  }

  /** A key is written exactly when some group has it as its entry. */
  lemma ConfiguredKeysMembers(pathGroups: seq<seq<string>>, key: string)
    ensures key in ConfiguredKeys(pathGroups) <==>
            exists i :: 0 <= i < |pathGroups| && key in GroupEntry(pathGroups[i])
  {
    UnionOfEntriesMembers(pathGroups, GroupEntry, key);
  }

  lemma UnionOfEntriesStep<T>(groups: seq<T>, n: nat, entry: T -> set<string>)
    requires n < |groups|
    ensures UnionOfEntries(groups[..n + 1], entry) == UnionOfEntries(groups[..n], entry) + entry(groups[n])
  {
    var s := groups[..n + 1];
    assert s[..|s| - 1] == groups[..n];
  }

  /** Adding one group's entry to the keys of the groups before it. */
  lemma ConfiguredKeysStep(before: set<string>, after: set<string>, groups: seq<seq<string>>, n: nat)
    requires n < |groups|
    requires before == ConfiguredKeys(groups[..n]) && after == before + GroupEntry(groups[n])
    ensures after == ConfiguredKeys(groups[..n + 1])
  {
    UnionOfEntriesStep(groups, n, GroupEntry);
  }

  /** Lines 303-334 for one group: its entry, if any, set to the best
      configured size. */
  method ConfigureGroup(r: map<string, int>, group: seq<string>, configs: seq<int>) returns (r': map<string, int>)
    requires configs == MemoryConfigurations
    requires forall k :: k in r ==> r[k] == 1024
    ensures r'.Keys == r.Keys + GroupEntry(group)
    ensures forall k :: k in r' ==> r'[k] == 1024
  {
    r' := r;
    var valid := ValidGroup(group);
    if valid != [] {
      var best := BestConfiguredMemory(configs);
      r' := r[GroupKey(valid) := best];
    }
  }

  /** Lines 303-334 for every group: the entry of each group set to the
      best configured size. */
  method ConfigureGroups(pathGroups: seq<seq<string>>, configs: seq<int>) returns (r: map<string, int>)
    requires configs == MemoryConfigurations
    ensures r.Keys == ConfiguredKeys(pathGroups)
    ensures forall k :: k in r ==> r[k] == 1024
  {
    r := map[];
    for n := 0 to |pathGroups|
      invariant r.Keys == ConfiguredKeys(pathGroups[..n])
      invariant forall k :: k in r ==> r[k] == 1024
    {
      ghost var before := r.Keys;
      r := ConfigureGroup(r, pathGroups[n], configs);
      ConfiguredKeysStep(before, r.Keys, pathGroups, n);
    }
    assert pathGroups[..|pathGroups|] == pathGroups;
  }

  /** Lines 450-458: each group sorted and joined with '.', the groups kept in
      their order and joined with ','. */
  function GetSetupString(groups: Setup): string
  {
    Join(MapSeq(GroupKey, groups), ',')
  }

  /** No group key of an encodable setup holds a ','. */
  lemma KeysHaveNoComma(groups: Setup)
    requires Encodable(groups)
    ensures forall p :: p in MapSeq(GroupKey, groups) ==> ',' !in p
  {
    var keys := MapSeq(GroupKey, groups);
    forall p | p in keys ensures ',' !in p {
      var i :| 0 <= i < |keys| && keys[i] == p;
      assert groups[i] in groups;
      var sg := SortStrings(groups[i]);
      forall x | x in sg ensures ',' !in x { assert x in multiset(sg); }
      JoinNotContains(sg, '.', ',');
    }
  }

  /** Splitting a setup string back (`get_configuration_as_list`, which is
      `list_from_setup`) gives each group sorted, in the original group
      order. */
  lemma SetupStringRoundTrip(groups: Setup)
    requires Encodable(groups)
    ensures ListFromSetup(GetSetupString(groups)) == MapSeq(SortGroup, groups)
  {
    var keys := MapSeq(GroupKey, groups);
    KeysHaveNoComma(groups);
    SplitJoin(keys, ',');
    KeysSplitBack(groups);
  }

  /** The setup string ignores the order inside each group. */
  lemma SetupStringMemberOrder(a: Setup, b: Setup)
    requires |a| == |b|
    requires forall i :: 0 <= i < |a| ==> multiset(a[i]) == multiset(b[i])
    ensures GetSetupString(a) == GetSetupString(b)
  {
    forall i | 0 <= i < |a| ensures GroupKey(a[i]) == GroupKey(b[i]) {
      SortStringsCanonical(a[i], b[i]);
    }
    assert MapSeq(GroupKey, a) == MapSeq(GroupKey, b);
  }

  /** Unlike `setup_from_list`, the setup string keeps the group order. */
  lemma SetupStringKeepsGroupOrder()
    ensures GetSetupString([["B"], ["A"]]) == "B,A"
  {
    assert SortStrings(["B"]) == ["B"];
    assert SortStrings(["A"]) == ["A"];
    assert MapSeq(GroupKey, [["B"], ["A"]]) == ["B", "A"];
  }

  /** All recorded calls, setup by setup and invocation by invocation. */
  function AllCalls(results: seq<SetupRuns>): (r: seq<CallRecord>)
    ensures forall k, i, c :: 0 <= k < |results| && 0 <= i < |results[k].1| && c in results[k].1[i] ==> c in r
  {
    if results == [] then [] else Flatten(results[0].1) + AllCalls(results[1..])
  }

  function Flatten(invocations: seq<seq<CallRecord>>): (r: seq<CallRecord>)
    ensures forall i, c :: 0 <= i < |invocations| && c in invocations[i] ==> c in r
  {
    if invocations == [] then [] else invocations[0] + Flatten(invocations[1..])
  }

  class EnhancedFusionOptimizer {
    /** `test_results`: the setups in dict order with their invocations. */
    var testResults: seq<SetupRuns>
    var latencyWeight: real
    var costWeight: real
    /** Whether a Lambda runtime was passed in. */
    const hasRuntime: bool
    const memoryConfigurations: seq<int>

    /** Lines 15-37, without a cost model. */
    constructor(hasRuntime: bool)
      ensures this.hasRuntime == hasRuntime
      ensures testResults == []
      ensures latencyWeight == 0.7 && costWeight == 0.3
      ensures memoryConfigurations == MemoryConfigurations
    {
      this.hasRuntime := hasRuntime;
      testResults := [];
      latencyWeight, costWeight := 0.7, 0.3;
      memoryConfigurations := MemoryConfigurations;
    }

    /** Lines 39-45. */
    method SetTestResults(results: seq<SetupRuns>)
      modifies this
      ensures testResults == results
      ensures latencyWeight == old(latencyWeight) && costWeight == old(costWeight)
    {
      testResults := results;
    }

    /** Lines 52-64: the weights are scaled to sum to one; a zero total
        raises ZeroDivisionError (`ok` false) before anything is stored. */
    method SetOptimizationWeights(latency: real, cost: real) returns (ok: bool)
      modifies this
      ensures ok <==> latency + cost != 0.0
      ensures ok ==> (latencyWeight, costWeight) == Normalise(latency, cost)
      ensures ok ==> latencyWeight + costWeight == 1.0
      ensures !ok ==> latencyWeight == old(latencyWeight) && costWeight == old(costWeight)
      ensures testResults == old(testResults)
    {
      var total := latency + cost;
      if total == 0.0 {
        return false;
      }
      latencyWeight, costWeight := latency / total, cost / total;
      ok := true;
    }

    /** Lines 190-219 over the stored test results. */
    method AnalyzeCallPatterns() returns (patterns: Patterns)
      ensures Tabulates(patterns, AllCalls(testResults))
    {
      patterns := EnhancedPath.AnalyzeCallPatterns(AllCalls(testResults));
    }

    /** Lines 294-334 without a cost model: nothing without test results or
        a runtime; otherwise one entry per group that has a non-empty name,
        keyed by its sorted names, and every entry 1024 MB. */
    method InfrastructureOptimize(pathGroups: seq<seq<string>>) returns (r: map<string, int>)
      requires memoryConfigurations == MemoryConfigurations
      ensures testResults == [] || !hasRuntime ==> r == map[]
      ensures testResults != [] && hasRuntime ==> r.Keys == ConfiguredKeys(pathGroups)
      ensures forall k :: k in r ==> r[k] == 1024
    {
      r := map[];
      if testResults == [] || !hasRuntime {
        return;
      }
      r := ConfigureGroups(pathGroups, memoryConfigurations);
    }
  }

}
