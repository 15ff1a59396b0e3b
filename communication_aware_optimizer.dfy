/** The communication-aware optimiser: the weights of its four score
    components, the strategy table that picks a communication type for a
    call between groups, the relations it reads off the call patterns
    between fusion groups, and the serialisation, compression and
    authentication it picks for each relation. */
module CommunicationAwareOptimizer {
  import opened Wrappers
  import opened Strs
  import FunctionFusionOptimizer
  import opened EnhancedPath

  // ---------------------------------------------------------------------------
  // Weights

  /** `comm_optimization_weights` */
  datatype Weights = Weights(latency: real, cost: real, commLatency: real, commCost: real)

  /** Lines 39-44. */
  const DefaultWeights := Weights(0.4, 0.3, 0.2, 0.1)

  function Total(w: Weights): real
  {
    w.latency + w.cost + w.commLatency + w.commCost
  }

  /** Lines 67-74: every weight divided by the total. The result sums to
      one and keeps the ratios between the weights. */
  function Normalised(w: Weights): (r: Weights)
    requires Total(w) > 0.0
    ensures Total(r) == 1.0
    ensures r.cost * w.latency == r.latency * w.cost
    ensures r.commLatency * w.latency == r.latency * w.commLatency
    ensures r.commCost * w.latency == r.latency * w.commCost
  {
    var t := Total(w);
    QuotientsSum(w.latency, w.cost, w.commLatency, w.commCost, t);
    Weights(w.latency / t, w.cost / t, w.commLatency / t, w.commCost / t)
  }

  lemma QuotientsSum(a: real, b: real, c: real, d: real, t: real)
    requires t == a + b + c + d && t != 0.0
    ensures a / t + b / t + c / t + d / t == 1.0
  {
  }

  /** Normalising weights that already sum to one changes nothing, so
      setting the weights twice to the same values is the same as once. */
  lemma {:induction false} NormalisedIdempotent(w: Weights)
    requires Total(w) > 0.0
    ensures Normalised(Normalised(w)) == Normalised(w)
  {
    var r := Normalised(w);
    assert Total(r) == 1.0;
  }

  /** The defaults already sum to one. */
  lemma DefaultWeightsNormalised()
    ensures Total(DefaultWeights) == 1.0 && Normalised(DefaultWeights) == DefaultWeights
  {
  }

  /** Non-negative weights stay non-negative and at most one. */
  lemma NormalisedWithinUnit(w: Weights)
    requires w.latency >= 0.0 && w.cost >= 0.0 && w.commLatency >= 0.0 && w.commCost >= 0.0
    requires Total(w) > 0.0
    ensures var r := Normalised(w);
            0.0 <= r.latency <= 1.0 && 0.0 <= r.cost <= 1.0 &&
            0.0 <= r.commLatency <= 1.0 && 0.0 <= r.commCost <= 1.0
  {
    var t := Total(w);
    var r := Normalised(w);
    Fraction(w.latency, t);
    Fraction(w.cost, t);
    Fraction(w.commLatency, t);
    Fraction(w.commCost, t);
  }

  lemma Fraction(x: real, t: real)
    requires 0.0 <= x <= t && t > 0.0
    ensures 0.0 <= x / t <= 1.0
  {
  }

  // ---------------------------------------------------------------------------
  // Strategies

  /** Lines 47-52. */
  const DefaultStrategies: map<string, string> :=
    map["sync_local" := "direct", "sync_remote" := "http", "async_local" := "event", "async_remote" := "api_gateway"]

  /** The four entries the communication type is looked up in. */
  predicate HasStrategies(strategies: map<string, string>)
  {
    "sync_local" in strategies && "sync_remote" in strategies &&
    "async_local" in strategies && "async_remote" in strategies
  }

  /** The strategy-table entry for a call: local or remote by the call
      type, sync or async by the flag. */
  function StrategyName(callType: string, isSync: bool): (name: string)
    ensures name in {"sync_local", "sync_remote", "async_local", "async_remote"}
    ensures (name == "sync_local" || name == "async_local") <==> callType == "local"
    ensures (name == "sync_local" || name == "sync_remote") <==> isSync
  {
    if callType == "local" then (if isSync then "sync_local" else "async_local")
    else (if isSync then "sync_remote" else "async_remote")
  }

  /** Lines 377-391: any call type other than "local" counts as remote. */
  function CommunicationType(strategies: map<string, string>, callType: string, isSync: bool): (r: string)
    requires HasStrategies(strategies)
    ensures r == strategies[StrategyName(callType, isSync)]
  {
    if callType == "local" then
      if isSync then strategies["sync_local"] else strategies["async_local"]
    else
      if isSync then strategies["sync_remote"] else strategies["async_remote"]
  }

  /** With the default table: direct or event inside, http or the API
      gateway outside. */
  lemma DefaultCommunicationTypes(callType: string, isSync: bool)
    ensures var r := CommunicationType(DefaultStrategies, callType, isSync);
            (callType == "local" ==> r == (if isSync then "direct" else "event")) &&
            (callType != "local" ==> r == (if isSync then "http" else "api_gateway"))
  {
  }

  // ---------------------------------------------------------------------------
  // Relations between groups

  /** One entry of the relations dict. */
  datatype Relation = Relation(callCount: int, syncCalls: int, asyncCalls: int, callType: string, isSync: bool)

  type Relations = map<(string, string), Relation>

  /** Lines 473-475: a missing relation or count reads as 0. */
  predicate IsHighVolume(relation: Option<Relation>)
  {
    relation.Some? && relation.value.callCount > 10
  }

  /** Lines 393-416: protobuf only for high-volume http, json otherwise. */
  function Serialisation(commType: string, relation: Option<Relation>): (r: string)
    ensures r == "protobuf" <==> commType == "http" && IsHighVolume(relation)
    ensures r == "protobuf" || r == "json"
  {
    if commType == "direct" then "json"
    else if commType == "http" then (if IsHighVolume(relation) then "protobuf" else "json")
    else if commType == "api_gateway" then "json"
    else if commType == "event" then "json"
    else "json"
  }

  /** Lines 418-441: nothing for direct calls, brotli for high volume, gzip
      for http and the API gateway, nothing otherwise. */
  function Compression(commType: string, relation: Option<Relation>): (r: string)
    ensures r == "brotli" <==> commType != "direct" && IsHighVolume(relation)
    ensures r == "gzip" <==> commType in {"http", "api_gateway"} && !IsHighVolume(relation)
    ensures r == "none" <==> commType == "direct" || (commType !in {"http", "api_gateway"} && !IsHighVolume(relation))
  {
    if commType == "direct" then "none"
    else if IsHighVolume(relation) then "brotli"
    else if commType in ["http", "api_gateway"] then "gzip"
    else "none"
  }

  /** Lines 443-471: an API key for http, IAM for the API gateway and
      events, nothing otherwise; the relation plays no part. */
  function AuthType(commType: string, relation: Option<Relation>): (r: string)
    ensures r == "api_key" <==> commType == "http"
    ensures r == "iam" <==> commType == "api_gateway" || commType == "event"
  {
    if commType == "direct" then "none"
    else if commType == "http" then "api_key"
    else if commType == "api_gateway" then "iam"
    else if commType == "event" then "iam"
    else "none"
  }

  /** The settings for two groups that never call each other: the missing
      relation has call type "none" and is not sync, so with the default
      table it goes through the API gateway, as json with gzip and IAM. */
  lemma UncalledGroupSettings()
    ensures var t := CommunicationType(DefaultStrategies, "none", false);
            t == "api_gateway" && Serialisation(t, None) == "json" &&
            Compression(t, None) == "gzip" && AuthType(t, None) == "iam"
  {
  }

  /** Lines 373-375: the key of a group does not depend on the order of its
      names. */
  lemma GroupKeyIgnoresOrder(a: seq<string>, b: seq<string>)
    requires multiset(a) == multiset(b)
    ensures FunctionFusionOptimizer.GroupKey(a) == FunctionFusionOptimizer.GroupKey(b)
  {
    SortStringsCanonical(a, b);
  }

  /** Lines 327-330: function name -> key of its group; a later group wins
      for a name that is in two. */
  function OwnerOf(groups: seq<seq<string>>): (owner: map<string, string>)
    ensures forall f :: f in owner <==> exists i :: 0 <= i < |groups| && f in groups[i]
  {
    if groups == [] then map[]
    else
      var last := groups[|groups| - 1];
      var before := OwnerOf(groups[..|groups| - 1]);
      assert forall i :: 0 <= i < |groups| - 1 ==> groups[..|groups| - 1][i] == groups[i];
      before + map f | f in last :: FunctionFusionOptimizer.GroupKey(last)
  }

  /** A name that no later group holds belongs to the key of its group. */
  lemma {:induction false} OwnerOfLast(groups: seq<seq<string>>, i: nat, f: string)
    requires i < |groups| && f in groups[i]
    requires forall j :: i < j < |groups| ==> f !in groups[j]
    ensures f in OwnerOf(groups) && OwnerOf(groups)[f] == FunctionFusionOptimizer.GroupKey(groups[i])
  {
    var n := |groups|;
    if i < n - 1 {
      var prefix := groups[..n - 1];
      assert prefix[i] == groups[i];
      OwnerOfLast(prefix, i, f);
      assert f !in groups[n - 1];
    }
  }

  /** The entry a relation starts from (lines 355-360). */
  const NewRelation := Relation(0, 0, 0, "remote", false)

  /** Lines 362-368: one more call between two groups. */
  function Record(relations: Relations, key: (string, string), isSync: bool): (r: Relations)
    ensures r.Keys == relations.Keys + {key}
  {
    var before := if key in relations then relations[key] else NewRelation;
    var sync := before.syncCalls + (if isSync then 1 else 0);
    var async := before.asyncCalls + (if isSync then 0 else 1);
    relations[key := Relation(before.callCount + 1, sync, async, before.callType, sync > async)]
  }

  /** What every relation satisfies: at least one call, each call sync or
      async, the sync flag saying which kind is in the majority, and the
      call type remote. */
  predicate Consistent(r: Relation)
  {
    r.callCount >= 1 && r.callCount == r.syncCalls + r.asyncCalls &&
    r.syncCalls >= 0 && r.asyncCalls >= 0 &&
    r.isSync == (r.syncCalls > r.asyncCalls) && r.callType == "remote"
  }

  predicate WellCounted(relations: Relations)
  {
    forall k :: k in relations ==> k.0 != k.1 && Consistent(relations[k])
  }

  /** Recording a call between two different groups keeps every relation
      consistent, and adds one call of the right kind. */
  lemma RecordKeepsCounts(relations: Relations, key: (string, string), isSync: bool)
    requires WellCounted(relations) && key.0 != key.1
    ensures var r := Record(relations, key, isSync);
            WellCounted(r) &&
            r[key].callCount == (if key in relations then relations[key].callCount else 0) + 1 &&
            r[key].syncCalls == (if key in relations then relations[key].syncCalls else 0) + (if isSync then 1 else 0)
  {
  }

  /** The group pairs the calls of the given callers cross. */
  ghost function CrossPairs(owner: map<string, string>, patterns: Patterns, callers: set<string>): set<(string, string)>
  {
    set a, b | a in callers && a in patterns && b in patterns[a] && a in owner && b in owner && owner[a] != owner[b]
             :: (owner[a], owner[b])
  }

  /** The group pairs the calls of one caller to the given callees cross. */
  ghost function CrossFrom(owner: map<string, string>, patterns: Patterns, a: string, callees: set<string>): set<(string, string)>
    requires a in patterns
  {
    set b | b in callees && b in patterns[a] && a in owner && b in owner && owner[a] != owner[b] :: (owner[a], owner[b])
  }

  lemma CrossFromStep(owner: map<string, string>, patterns: Patterns, a: string, done: set<string>, b: string)
    requires a in patterns && a in owner && b in patterns[a]
    ensures CrossFrom(owner, patterns, a, done + {b}) ==
            CrossFrom(owner, patterns, a, done) +
            (if b in owner && owner[a] != owner[b] then {(owner[a], owner[b])} else {})
  {
  }

  lemma CrossPairsStep(owner: map<string, string>, patterns: Patterns, callers: set<string>, a: string)
    requires a in patterns
    ensures CrossPairs(owner, patterns, callers + {a}) ==
            CrossPairs(owner, patterns, callers) + CrossFrom(owner, patterns, a, patterns[a].Keys)
  {
  }

  /** The number of calls recorded for `key` (only the synchronous ones
      when `sync` holds); zero for a pair without a relation. */
  function CountOf(relations: Relations, key: (string, string), sync: bool): nat
  {
    if key !in relations then 0
    else if sync then (if relations[key].syncCalls < 0 then 0 else relations[key].syncCalls)
    else (if relations[key].callCount < 0 then 0 else relations[key].callCount)
  }

  /** The calls (caller, callee) of the given callers from group `key.0`
      into group `key.1`; only the synchronous ones when `sync` holds. */
  ghost function Calls(owner: map<string, string>, patterns: Patterns, callers: set<string>,
                       key: (string, string), sync: bool): set<(string, string)>
  {
    set a, b | a in callers && a in patterns && b in patterns[a] && a in owner && b in owner &&
               owner[a] == key.0 && owner[b] == key.1 && (!sync || patterns[a][b]) :: (a, b)
  }

  /** The same for one caller and the given callees. */
  ghost function CallsFrom(owner: map<string, string>, patterns: Patterns, a: string, callees: set<string>,
                           key: (string, string), sync: bool): set<(string, string)>
    requires a in patterns
  {
    set b | b in callees && b in patterns[a] && a in owner && b in owner &&
            owner[a] == key.0 && owner[b] == key.1 && (!sync || patterns[a][b]) :: (a, b)
  }

  /** Every relation counts the calls so far: those of `callers`, and those
      of `caller` to the callees in `done`. */
  ghost predicate CountsCalls(relations: Relations, owner: map<string, string>, patterns: Patterns,
                              callers: set<string>, caller: string, done: set<string>)
    requires caller in patterns
  {
    forall key: (string, string), sync: bool :: key.0 != key.1 ==>
      CountOf(relations, key, sync) ==
        |Calls(owner, patterns, callers, key, sync)| + |CallsFrom(owner, patterns, caller, done, key, sync)|
  }

  lemma CallsFromStep(owner: map<string, string>, patterns: Patterns, a: string, done: set<string>, b: string,
                      key: (string, string), sync: bool)
    requires a in patterns && b in patterns[a] && b !in done
    ensures |CallsFrom(owner, patterns, a, done + {b}, key, sync)| ==
            |CallsFrom(owner, patterns, a, done, key, sync)| +
            (if a in owner && b in owner && owner[a] == key.0 && owner[b] == key.1 && (!sync || patterns[a][b]) then 1 else 0)
  {
    var before := CallsFrom(owner, patterns, a, done, key, sync);
    if a in owner && b in owner && owner[a] == key.0 && owner[b] == key.1 && (!sync || patterns[a][b]) {
      assert CallsFrom(owner, patterns, a, done + {b}, key, sync) == before + {(a, b)};
      assert (a, b) !in before;
    } else {
      assert CallsFrom(owner, patterns, a, done + {b}, key, sync) == before;
    }
  }

  lemma CallsStep(owner: map<string, string>, patterns: Patterns, callers: set<string>, a: string,
                  key: (string, string), sync: bool)
    requires a in patterns && a !in callers
    ensures |Calls(owner, patterns, callers + {a}, key, sync)| ==
            |Calls(owner, patterns, callers, key, sync)| + |CallsFrom(owner, patterns, a, patterns[a].Keys, key, sync)|
  {
    var old_ := Calls(owner, patterns, callers, key, sync);
    var new_ := CallsFrom(owner, patterns, a, patterns[a].Keys, key, sync);
    assert Calls(owner, patterns, callers + {a}, key, sync) == old_ + new_;
    assert old_ !! new_ by {
      forall p | p in new_ ensures p !in old_ { assert p.0 == a; }
    }
  }

  /** Lines 327-330 as a loop: every name of every group, a later group
      overwriting an earlier one. */
  method FunctionToGroup(pathGroups: seq<seq<string>>) returns (owner: map<string, string>)
    ensures owner == OwnerOf(pathGroups)
  {
    owner := map[];
    for n := 0 to |pathGroups|
      invariant owner == OwnerOf(pathGroups[..n])
    {
      assert pathGroups[..n + 1][..n] == pathGroups[..n];
      var group := pathGroups[n];
      var key := FunctionFusionOptimizer.GroupKey(group);
      owner := AssignAll(owner, group, key);
    }
    assert pathGroups[..|pathGroups|] == pathGroups;
  }

  /** Lines 329-330: every name of the group mapped to its key. */
  method AssignAll(start: map<string, string>, group: seq<string>, key: string) returns (owner: map<string, string>)
    ensures owner == start + map f | f in group :: key
  {
    owner := start;
    for k := 0 to |group|
      invariant owner.Keys == start.Keys + set f | f in group[..k]
      invariant forall f :: f in owner ==> owner[f] == if f in group[..k] then key else start[f]
    {
      assert group[..k + 1] == group[..k] + [group[k]];
      owner := owner[group[k] := key];
    }
    assert group[..|group|] == group;
  }

  /** Lines 352-368 for one call. */
  method RecordCall(relations: Relations, key: (string, string), isSync: bool) returns (r: Relations)
    requires WellCounted(relations) && key.0 != key.1
    ensures WellCounted(r) && r.Keys == relations.Keys + {key}
    ensures forall k, sync :: CountOf(r, k, sync) == CountOf(relations, k, sync) + (if k == key && (!sync || isSync) then 1 else 0)
  {
    RecordKeepsCounts(relations, key, isSync);
    r := Record(relations, key, isSync);
  }

  /** Lines 338-368 for one caller: its calls into other groups. */
  method AddCallerRelations(relations: Relations, ghost callers: set<string>, owner: map<string, string>, patterns: Patterns,
                            caller: string)
    returns (next: Relations)
    requires caller in patterns && WellCounted(relations)
    requires CountsCalls(relations, owner, patterns, callers, caller, {})
    ensures WellCounted(next)
    ensures next.Keys == relations.Keys + CrossFrom(owner, patterns, caller, patterns[caller].Keys)
    ensures CountsCalls(next, owner, patterns, callers, caller, patterns[caller].Keys)
  {
    next := relations;
    if caller !in owner {
      assert CrossFrom(owner, patterns, caller, patterns[caller].Keys) == {};
      UngroupedCallerCallsNothing(relations, callers, owner, patterns, caller);
      return;
    }
    var rest := patterns[caller].Keys;
    assert patterns[caller].Keys - rest == {};
    while rest != {}
      decreases |rest|
      invariant rest <= patterns[caller].Keys && WellCounted(next)
      invariant next.Keys == relations.Keys + CrossFrom(owner, patterns, caller, patterns[caller].Keys - rest)
      invariant CountsCalls(next, owner, patterns, callers, caller, patterns[caller].Keys - rest)
    {
      var callee :| callee in rest;
      next := AddCall(next, relations.Keys, callers, owner, patterns, caller, patterns[caller].Keys - rest, callee);
      assert patterns[caller].Keys - (rest - {callee}) == (patterns[caller].Keys - rest) + {callee};
      rest := rest - {callee};
    }
    assert patterns[caller].Keys - rest == patterns[caller].Keys;
  }

  /** A caller outside every group records no call. */
  lemma UngroupedCallerCallsNothing(relations: Relations, callers: set<string>, owner: map<string, string>,
                                    patterns: Patterns, caller: string)
    requires caller in patterns && caller !in owner
    requires CountsCalls(relations, owner, patterns, callers, caller, {})
    ensures CountsCalls(relations, owner, patterns, callers, caller, patterns[caller].Keys)
  {
    forall key: (string, string), sync: bool
      ensures CallsFrom(owner, patterns, caller, patterns[caller].Keys, key, sync) == {}
      ensures CallsFrom(owner, patterns, caller, {}, key, sync) == {}
    {
    }
  }

  /** Lines 345-368 for one callee of a caller in a group. */
  method AddCall(current: Relations, ghost base: set<(string, string)>, ghost callers: set<string>,
                 owner: map<string, string>, patterns: Patterns,
                 caller: string, ghost done: set<string>, callee: string) returns (next: Relations)
    requires caller in patterns && caller in owner && callee in patterns[caller] && callee !in done
    requires WellCounted(current) && current.Keys == base + CrossFrom(owner, patterns, caller, done)
    requires CountsCalls(current, owner, patterns, callers, caller, done)
    ensures WellCounted(next) && next.Keys == base + CrossFrom(owner, patterns, caller, done + {callee})
    ensures CountsCalls(next, owner, patterns, callers, caller, done + {callee})
  {
    CrossFromStep(owner, patterns, caller, done, callee);
    next := current;
    if callee in owner {
      var callerGroup := owner[caller];
      var calleeGroup := owner[callee];
      if callerGroup != calleeGroup {
        next := RecordCall(current, (callerGroup, calleeGroup), patterns[caller][callee]);
      }
    }
    forall key: (string, string), sync: bool | key.0 != key.1
      ensures CountOf(next, key, sync) ==
              |Calls(owner, patterns, callers, key, sync)| + |CallsFrom(owner, patterns, caller, done + {callee}, key, sync)|
    {
      CallsFromStep(owner, patterns, caller, done, callee, key, sync);
    }
  }

  /** Lines 314-371: one relation per ordered pair of different groups
      that some call crosses, and no other. The call patterns are the table
      the enhanced optimiser reads off its test results. */
  method AnalyzeGroupRelations(pathGroups: seq<seq<string>>, patterns: Patterns) returns (relations: Relations)
    ensures relations.Keys == CrossPairs(OwnerOf(pathGroups), patterns, patterns.Keys)
    ensures WellCounted(relations)
    ensures forall key :: key in relations ==>
              relations[key].callCount == |Calls(OwnerOf(pathGroups), patterns, patterns.Keys, key, false)| &&
              relations[key].syncCalls == |Calls(OwnerOf(pathGroups), patterns, patterns.Keys, key, true)|
  {
    var owner := FunctionToGroup(pathGroups);
    relations := map[];
    var rest := patterns.Keys;
    while rest != {}
      decreases |rest|
      invariant rest <= patterns.Keys && WellCounted(relations)
      invariant relations.Keys == CrossPairs(owner, patterns, patterns.Keys - rest)
      invariant CountsAll(relations, owner, patterns, patterns.Keys - rest)
    {
      var caller :| caller in rest;
      ghost var callers := patterns.Keys - rest;
      CrossPairsStep(owner, patterns, callers, caller);
      StartCaller(relations, owner, patterns, callers, caller);
      relations := AddCallerRelations(relations, callers, owner, patterns, caller);
      JoinCaller(relations, owner, patterns, callers, caller);
      assert patterns.Keys - (rest - {caller}) == callers + {caller};
      rest := rest - {caller};
    }
    assert rest == {} && patterns.Keys - rest == patterns.Keys;
    CountsAreCalls(relations, owner, patterns);
  }

  /** Every relation counts the calls of `callers` between its groups. */
  ghost predicate CountsAll(relations: Relations, owner: map<string, string>, patterns: Patterns, callers: set<string>)
  {
    forall key: (string, string), sync: bool :: key.0 != key.1 ==>
      CountOf(relations, key, sync) == |Calls(owner, patterns, callers, key, sync)|
  }

  lemma CountsAreCalls(relations: Relations, owner: map<string, string>, patterns: Patterns)
    requires WellCounted(relations) && CountsAll(relations, owner, patterns, patterns.Keys)
    ensures forall key :: key in relations ==>
              relations[key].callCount == |Calls(owner, patterns, patterns.Keys, key, false)| &&
              relations[key].syncCalls == |Calls(owner, patterns, patterns.Keys, key, true)|
  {
    forall key | key in relations
      ensures relations[key].callCount == |Calls(owner, patterns, patterns.Keys, key, false)|
      ensures relations[key].syncCalls == |Calls(owner, patterns, patterns.Keys, key, true)|
    {
      assert CountOf(relations, key, false) == relations[key].callCount;
      assert CountOf(relations, key, true) == relations[key].syncCalls;
    }
  }

  lemma StartCaller(relations: Relations, owner: map<string, string>, patterns: Patterns,
                    callers: set<string>, caller: string)
    requires caller in patterns
    requires CountsAll(relations, owner, patterns, callers)
    ensures CountsCalls(relations, owner, patterns, callers, caller, {})
  {
    forall key: (string, string), sync: bool ensures CallsFrom(owner, patterns, caller, {}, key, sync) == {} {
    }
  }

  lemma JoinCaller(relations: Relations, owner: map<string, string>, patterns: Patterns,
                   callers: set<string>, caller: string)
    requires caller in patterns && caller !in callers
    requires CountsCalls(relations, owner, patterns, callers, caller, patterns[caller].Keys)
    ensures CountsAll(relations, owner, patterns, callers + {caller})
  {
    forall key: (string, string), sync: bool | key.0 != key.1
      ensures CountOf(relations, key, sync) == |Calls(owner, patterns, callers + {caller}, key, sync)|
    {
      CallsStep(owner, patterns, callers, caller, key, sync);
    }
  }

  /** A relation exists exactly for the group pairs a recorded call
      crosses: from the group of a caller to the different group of one of
      its callees. */
  lemma RelationsAreCrossGroupCalls(pathGroups: seq<seq<string>>, patterns: Patterns, relations: Relations, g: string, h: string)
    requires relations.Keys == CrossPairs(OwnerOf(pathGroups), patterns, patterns.Keys)
    ensures (g, h) in relations <==>
            g != h && exists a, b :: a in patterns && b in patterns[a] &&
                                     a in OwnerOf(pathGroups) && b in OwnerOf(pathGroups) &&
                                     OwnerOf(pathGroups)[a] == g && OwnerOf(pathGroups)[b] == h
  {
  }

  // ---------------------------------------------------------------------------
  // The optimiser object

  class CommunicationOptimizer {
    var weights: Weights
    var strategies: map<string, string>

    /** Lines 23-55. */
    constructor()
      ensures weights == DefaultWeights && strategies == DefaultStrategies
    {
      weights := DefaultWeights;
      strategies := DefaultStrategies;
    }

    /** Lines 57-77: a positive total is divided out; otherwise the weights
        stay as they were. */
    method SetCommunicationWeights(latency: real, cost: real, commLatency: real, commCost: real)
      modifies this
      ensures var w := Weights(latency, cost, commLatency, commCost);
              weights == if Total(w) > 0.0 then Normalised(w) else old(weights)
      ensures strategies == old(strategies)
    {
      var total := latency + cost + commLatency + commCost;
      if total > 0.0 {
        weights := Weights(latency / total, cost / total, commLatency / total, commCost / total);
      }
    }

    /** Lines 79-87: `dict.update`, so no entry is ever lost. */
    method SetCommunicationStrategies(update: map<string, string>)
      modifies this
      ensures strategies == old(strategies) + update
      ensures weights == old(weights)
      ensures HasStrategies(old(strategies)) ==> HasStrategies(strategies)
    {
      strategies := strategies + update;
    }

  }
}
