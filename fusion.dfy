/** The fusion engine's configuration objects and execution traces: the
    strategy and rule records read from configuration data with their
    defaults, the rule lookup with its local/local fallback, the trace nodes
    that move from pending through running to completed or failed, the trace
    that collects them, and the engine's registry and task-result report.
    Clocks and uuids come in as parameters. */
module Fusion {
  import opened Wrappers
  import Strs

  // ---------------------------------------------------------------------------
  // Strategies and rules

  /** A strategy entry of configuration data; a missing key is `None`. */
  datatype StrategyData = StrategyData(strategy: Option<string>, url: Option<string>, retry: Option<int>)

  /** A rule entry: the optional "sync" and "async" strategy entries. */
  datatype RuleData = RuleData(sync: Option<StrategyData>, async: Option<StrategyData>)

  /** Configuration data: "memory_size", "timeout" and "rules", each
      optional. */
  datatype ConfigData = ConfigData(memorySize: Option<int>, timeout: Option<int>,
                                   rules: Option<map<string, map<string, RuleData>>>)

  datatype FusionStrategy = FusionStrategy(strategy: string, url: Option<string>, retryCount: int)

  datatype FunctionRule = FunctionRule(sync: FusionStrategy, async: FusionStrategy)

  datatype FusionConfiguration = FusionConfiguration(name: string, rules: map<string, map<string, FunctionRule>>,
                                                     memorySize: int, timeout: int)

  function GetOr<T>(o: Option<T>, default: T): T
  {
    if o.Some? then o.value else default
  }

  /** Lines 12-15: strategy "local", no url and no retry unless given. */
  function StrategyOf(d: StrategyData): (r: FusionStrategy)
    ensures d.strategy.None? ==> r.strategy == "local"
    ensures d.url.None? ==> r.url.None?
    ensures d.retry.None? ==> r.retryCount == 0
  {
    FusionStrategy(GetOr(d.strategy, "local"), d.url, GetOr(d.retry, 0))
  }

  /** Lines 17-23. */
  function StrategyToData(s: FusionStrategy): StrategyData
  {
    StrategyData(Some(s.strategy), s.url, Some(s.retryCount))
  }

  /** Reading back what `to_dict` wrote gives the same strategy. */
  lemma StrategyRoundTrip(s: FusionStrategy)
    ensures StrategyOf(StrategyToData(s)) == s
  {
  }

  /** The entry used for a missing "sync" or "async" (lines 28-29). */
  const LocalData := StrategyData(Some("local"), None, None)

  /** The strategy `FusionStrategy({"strategy": "local"})` builds. */
  const LocalStrategy := FusionStrategy("local", None, 0)

  /** Lines 26-29. */
  function RuleOf(d: RuleData): (r: FunctionRule)
    ensures d.sync.None? ==> r.sync == LocalStrategy
    ensures d.async.None? ==> r.async == LocalStrategy
  {
    FunctionRule(StrategyOf(GetOr(d.sync, LocalData)), StrategyOf(GetOr(d.async, LocalData)))
  }

  /** Lines 31-36. */
  function RuleToData(r: FunctionRule): RuleData
  {
    RuleData(Some(StrategyToData(r.sync)), Some(StrategyToData(r.async)))
  }

  lemma RuleRoundTrip(r: FunctionRule)
    ensures RuleOf(RuleToData(r)) == r
  {
    StrategyRoundTrip(r.sync);
    StrategyRoundTrip(r.async);
  }

  /** The rule returned for a pair without one (lines 57-59). */
  const DefaultRule := FunctionRule(LocalStrategy, LocalStrategy)

  /** Lines 40-53: 128 MB and 3 s unless given, and one rule per entry of
      the data's rules. */
  function ConfigurationOf(name: string, data: Option<ConfigData>): (c: FusionConfiguration)
    ensures c.name == name
    ensures data.None? ==> c.rules == map[] && c.memorySize == 128 && c.timeout == 3
    ensures data.Some? ==> c.rules.Keys == GetOr(data.value.rules, map[]).Keys
  {
    if data.None? then FusionConfiguration(name, map[], 128, 3)
    else
      var d := data.value;
      var rules := GetOr(d.rules, map[]);
      FusionConfiguration(name, map s | s in rules :: map t | t in rules[s] :: RuleOf(rules[s][t]),
                          GetOr(d.memorySize, 128), GetOr(d.timeout, 3))
  }

  /** Lines 55-61: the stored rule of the pair, or local/local. */
  function GetRule(c: FusionConfiguration, source: string, target: string): (r: FunctionRule)
    ensures source in c.rules && target in c.rules[source] ==> r == c.rules[source][target]
    ensures !(source in c.rules && target in c.rules[source]) ==> r == DefaultRule
  {
    if source !in c.rules || target !in c.rules[source] then DefaultRule
    else c.rules[source][target]
  }

  /** The rule looked up in a configuration built from data is the data's
      rule read with its defaults, and any pair the data does not mention
      gets the local/local rule. */
  lemma GetRuleFromData(name: string, data: ConfigData, source: string, target: string)
    ensures var rules := GetOr(data.rules, map[]);
            var r := GetRule(ConfigurationOf(name, Some(data)), source, target);
            (source in rules && target in rules[source] ==> r == RuleOf(rules[source][target])) &&
            (!(source in rules && target in rules[source]) ==> r == DefaultRule)
  {
  }

  /** Without configuration data every pair runs locally in both modes. */
  lemma UnconfiguredRunsLocally(name: string, source: string, target: string)
    ensures GetRule(ConfigurationOf(name, None), source, target).sync.strategy == "local"
    ensures GetRule(ConfigurationOf(name, None), source, target).async.strategy == "local"
  {
  }

  // ---------------------------------------------------------------------------
  // Trace nodes

  datatype NodeStatus = Pending | Running | Completed | Failed

  /** What the task report reads of a node. */
  datatype NodeView = NodeView(functionId: string, status: NodeStatus, endTime: Option<real>,
                               result: Option<string>, error: Option<string>)

  /** Lines 63-115: one function's step in a trace. */
  class TraceNode {
    const functionId: string
    const traceId: string
    const parentId: Option<string>
    var startTime: Option<real>
    var endTime: Option<real>
    var duration: Option<real>
    var status: NodeStatus
    var result: Option<string>
    var error: Option<string>
    var strategy: string
    var mode: string

    /** A pending node has not started, a running one has, and a finished
        one has a duration equal to its end time minus its start time. */
    ghost predicate Valid()
      reads this
    {
      (status == Pending ==> startTime.None?) &&
      (status == Running ==> startTime.Some?) &&
      (status == Completed || status == Failed ==>
         startTime.Some? && endTime.Some? && duration == Some(endTime.value - startTime.value))
    }

    function View(): NodeView
      reads this
    {
      NodeView(functionId, status, endTime, result, error)
    }

    /** Lines 65-76. */
    constructor(functionId: string, traceId: string, parentId: Option<string>)
      ensures Valid()
      ensures this.functionId == functionId && this.traceId == traceId && this.parentId == parentId
      ensures status == Pending && startTime.None? && endTime.None? && duration.None?
      ensures result.None? && error.None? && strategy == "local" && mode == "sync"
    {
      this.functionId := functionId;
      this.traceId := traceId;
      this.parentId := parentId;
      startTime, endTime, duration := None, None, None;
      status := Pending;
      result, error := None, None;
      strategy, mode := "local", "sync";
    }

    /** Lines 78-84: running from `now`, whatever the node was before. */
    method Start(now: real, strategy: string, mode: string)
      requires Valid()
      modifies this
      ensures Valid()
      ensures status == Running && startTime == Some(now)
      ensures this.strategy == strategy && this.mode == mode
      ensures endTime == old(endTime) && duration == old(duration)
      ensures result == old(result) && error == old(error)
    {
      startTime := Some(now);
      status := Running;
      this.strategy := strategy;
      this.mode := mode;
    }

    /** Lines 86-92: completed at `now` with the given result. A node that
        never started raises on `end_time - start_time` after the end time is
        written (`ok` false, status unchanged). */
    method Complete(now: real, value: Option<string>) returns (ok: bool)
      requires Valid()
      modifies this
      ensures Valid()
      ensures ok <==> old(startTime).Some?
      ensures endTime == Some(now) && startTime == old(startTime)
      ensures ok ==> status == Completed && duration == Some(now - startTime.value) && result == value
      ensures !ok ==> status == old(status) && duration == old(duration) && result == old(result)
      ensures error == old(error)
    {
      endTime := Some(now);
      if startTime.None? {
        return false;
      }
      duration := Some(now - startTime.value);
      status := Completed;
      result := value;
      ok := true;
    }

    /** Lines 94-100: failed at `now` with the error's text; the same
        TypeError as `Complete` for a node that never started. */
    method Fail(now: real, message: string) returns (ok: bool)
      requires Valid()
      modifies this
      ensures Valid()
      ensures ok <==> old(startTime).Some?
      ensures endTime == Some(now) && startTime == old(startTime)
      ensures ok ==> status == Failed && duration == Some(now - startTime.value) && error == Some(message)
      ensures !ok ==> status == old(status) && duration == old(duration) && error == old(error)
      ensures result == old(result)
    {
      endTime := Some(now);
      if startTime.None? {
        return false;
      }
      duration := Some(now - startTime.value);
      status := Failed;
      error := Some(message);
      ok := true;
    }
  }

  // ---------------------------------------------------------------------------
  // Traces

  /** Lines 117-151: the nodes of one fusion run, in insertion order. */
  class ExecutionTrace {
    const fusionId: string
    var traceId: string
    const startTime: real
    var endTime: Option<real>
    var duration: Option<real>
    /** function id -> node */
    var nodes: map<string, TraceNode>
    /** the function ids in dict order: first insertion first */
    var order: seq<string>
    var status: string

    ghost predicate Valid()
      reads this, set id | id in nodes :: nodes[id]
    {
      (forall id :: id in nodes <==> id in order) && Strs.NoRepeats(order) &&
      (forall id :: id in nodes ==> nodes[id].functionId == id && nodes[id].Valid())
    }

    /** The nodes' views in dict order. */
    ghost function Views(): (vs: seq<NodeView>)
      requires forall id :: id in order ==> id in nodes
      reads this, set id | id in nodes :: nodes[id]
      ensures |vs| == |order|
    {
      seq(|order|, i requires 0 <= i < |order| && order[i] in nodes reads this, set id | id in nodes :: nodes[id] => nodes[order[i]].View())
    }

    /** Lines 119-126. */
    constructor(fusionId: string, traceId: string, now: real)
      ensures Valid()
      ensures this.fusionId == fusionId && this.traceId == traceId && startTime == now
      ensures endTime.None? && duration.None? && nodes == map[] && order == [] && status == "running"
    {
      this.fusionId := fusionId;
      this.traceId := traceId;
      startTime := now;
      endTime, duration := None, None;
      nodes := map[];
      order := [];
      status := "running";
    }

    /** Lines 128-132: a new pending node under the function's id; a second
        node for the same function replaces the first but keeps its place. */
    method AddNode(functionId: string, parentId: Option<string>) returns (node: TraceNode)
      requires Valid()
      modifies this
      ensures Valid() && fresh(node)
      ensures nodes == old(nodes)[functionId := node]
      ensures order == if functionId in old(nodes) then old(order) else old(order) + [functionId]
      ensures node.functionId == functionId && node.traceId == traceId && node.parentId == parentId
      ensures node.status == Pending
      ensures traceId == old(traceId) && status == old(status) && endTime == old(endTime) && duration == old(duration)
    {
      node := new TraceNode(functionId, traceId, parentId);
      if functionId !in nodes {
        forall p, q | 0 <= p < q < |order + [functionId]| ensures (order + [functionId])[p] != (order + [functionId])[q] {
          if q == |order| {
            assert order[p] in order;
          }
        }
        order := order + [functionId];
      }
      nodes := nodes[functionId := node];
    }

    /** Lines 134-139. */
    method Complete(now: real, finalStatus: string)
      modifies this
      ensures endTime == Some(now) && duration == Some(now - startTime) && status == finalStatus
      ensures nodes == old(nodes) && order == old(order) && traceId == old(traceId)
    {
      endTime := Some(now);
      duration := Some(now - startTime);
      status := finalStatus;
    }
  }

  /** The end time of a completed node (always set on a valid one). */
  function EndOf(v: NodeView): real
  {
    GetOr(v.endTime, 0.0)
  }

  /** Lines 383-386: the position of the completed node the report takes
      its result from. A later completed node replaces the current pick when
      it ended strictly later, or when the pick's id is empty (Python's
      `not last_function`). */
  function LastCompleted(views: seq<NodeView>): (r: Option<nat>)
    ensures r.Some? ==> r.value < |views| && views[r.value].status == Completed
    ensures r.None? <==> forall j :: 0 <= j < |views| ==> views[j].status != Completed
  {
    if views == [] then None
    else
      var n := |views| - 1;
      var prev := LastCompleted(views[..n]);
      var v := views[n];
      if v.status == Completed && (prev.None? || views[prev.value].functionId == "" || EndOf(v) > EndOf(views[prev.value]))
      then Some(n)
      else
        assert forall j :: 0 <= j < n ==> views[..n][j] == views[j];
        prev
  }

  /** With non-empty function ids the pick is the first of the completed
      nodes that ended last. */
  lemma {:induction false} LastCompletedIsLatest(views: seq<NodeView>)
    requires forall j :: 0 <= j < |views| ==> views[j].functionId != ""
    ensures var r := LastCompleted(views);
            r.Some? ==>
              (forall j :: 0 <= j < |views| && views[j].status == Completed ==> EndOf(views[j]) <= EndOf(views[r.value])) &&
              (forall j :: 0 <= j < r.value && views[j].status == Completed ==> EndOf(views[j]) < EndOf(views[r.value]))
  {
    if views != [] {
      var n := |views| - 1;
      var init := views[..n];
      assert forall j :: 0 <= j < n ==> init[j] == views[j];
      LastCompletedIsLatest(init);
    }
  }

  /** Lines 388-391: the picked node's result, when its id is non-empty. */
  function ResultOf(views: seq<NodeView>): Option<string>
  {
    var last := LastCompleted(views);
    if last.Some? && views[last.value].functionId != "" then views[last.value].result else None
  }

  /** Line 399: the first non-empty error of a node, in dict order. */
  function FirstError(views: seq<NodeView>): (r: Option<string>)
    ensures r.Some? ==> r.value != "" && exists j :: 0 <= j < |views| && views[j].error == r
    ensures r.None? <==> forall j :: 0 <= j < |views| ==> views[j].error.None? || views[j].error == Some("")
  {
    if views == [] then None
    else if views[0].error.Some? && views[0].error.value != "" then views[0].error
    else
      var r := FirstError(views[1..]);
      assert forall j :: 1 <= j < |views| ==> views[1..][j - 1] == views[j];
      r
  }

  /** The three answers of `get_task_result`. */
  datatype TaskResult =
    | Unknown(message: string)
    | StillRunning(fusion: string, traceId: string, startTime: real, elapsedTime: real)
    | Finished(status: string, fusion: string, result: Option<string>, traceId: string,
               executionTime: Option<real>, error: Option<string>)

  // ---------------------------------------------------------------------------
  // The engine

  class FusionEngine {
    /** fusion name -> function chain */
    var fusions: map<string, seq<string>>
    var configurations: map<string, FusionConfiguration>
    /** trace id -> trace */
    var traces: map<string, ExecutionTrace>

    /** Lines 154-167 (the engine options are not modelled). */
    constructor()
      ensures fusions == map[] && configurations == map[] && traces == map[]
    {
      fusions := map[];
      configurations := map[];
      traces := map[];
    }

    /** Lines 169-186: the chain and a configuration are stored under the
        name, replacing any earlier ones; empty data counts as none. */
    method RegisterFusion(name: string, chain: seq<string>, config: Option<ConfigData>) returns (r: string)
      modifies this
      ensures r == name
      ensures fusions == old(fusions)[name := chain]
      ensures configurations == old(configurations)[name := ConfigurationOf(name, config)]
      ensures traces == old(traces)
    {
      fusions := fusions[name := chain];
      configurations := configurations[name := ConfigurationOf(name, config)];
      r := name;
    }

    /** Lines 358-400: an unknown id, a run still going with its elapsed
        time, or the finished run's status, the result of its latest
        completed node and its first error. */
    method GetTaskResult(taskId: string, now: real) returns (r: TaskResult)
      requires taskId in traces ==> traces[taskId].Valid()
      ensures taskId !in traces ==> r == Unknown("Task mit ID " + taskId + " nicht gefunden")
      ensures taskId in traces && traces[taskId].status == "running" ==>
                var t := traces[taskId];
                r == StillRunning(t.fusionId, t.traceId, t.startTime, now - t.startTime)
      ensures taskId in traces && traces[taskId].status != "running" ==>
                var t := traces[taskId];
                r == Finished(t.status, t.fusionId, ResultOf(t.Views()), t.traceId, t.duration, FirstError(t.Views()))
    {
      if taskId !in traces {
        return Unknown("Task mit ID " + taskId + " nicht gefunden");
      }
      var t := traces[taskId];
      if t.status == "running" {
        return StillRunning(t.fusionId, t.traceId, t.startTime, now - t.startTime);
      }
      var result := LatestResult(t);
      var error := FirstNodeError(t);
      r := Finished(t.status, t.fusionId, result, t.traceId, t.duration, error);
    }
  }

  /** Lines 383-391: the result of the latest completed node, if it has a
      function id. */
  method LatestResult(t: ExecutionTrace) returns (result: Option<string>)
    requires t.Valid()
    ensures result == ResultOf(t.Views())
  {
    var last := LatestCompleted(t);
    result := None;
    if last.Some? {
      var node := t.nodes[t.order[last.value]];
      assert node.View() == t.Views()[last.value];
      if node.functionId != "" {
        result := node.result;
      }
    }
  }

  /** The pick after one more node. */
  lemma LastCompletedStep(views: seq<NodeView>, k: nat)
    requires k < |views|
    ensures var prev := LastCompleted(views[..k]);
            LastCompleted(views[..k + 1]) ==
              if views[k].status == Completed &&
                 (prev.None? || views[prev.value].functionId == "" || EndOf(views[k]) > EndOf(views[prev.value]))
              then Some(k) else prev
  {
    assert views[..k + 1][..k] == views[..k];
    var prev := LastCompleted(views[..k]);
    assert prev.Some? ==> views[..k][prev.value] == views[prev.value];
  }

  /** Lines 383-386 as the loop over the nodes. */
  method LatestCompleted(t: ExecutionTrace) returns (last: Option<nat>)
    requires t.Valid()
    ensures last == LastCompleted(t.Views())
    ensures last.Some? ==> last.value < |t.order|
  {
    ghost var views := t.Views();
    last := None;
    for k := 0 to |t.order|
      invariant last == LastCompleted(views[..k])
      invariant last.Some? ==> last.value < k
    {
      LastCompletedStep(views, k);
      var node := t.nodes[t.order[k]];
      assert node.View() == views[k];
      assert last.Some? ==> t.nodes[t.order[last.value]].View() == views[last.value];
      if node.status == Completed {
        if last.None? || t.nodes[t.order[last.value]].functionId == "" ||
           EndOf(node.View()) > EndOf(t.nodes[t.order[last.value]].View()) {
          last := Some(k);
        }
      }
    }
    assert views[..|t.order|] == views;
  }

  /** Line 399 as the generator it is. */
  method FirstNodeError(t: ExecutionTrace) returns (error: Option<string>)
    requires t.Valid()
    ensures error == FirstError(t.Views())
  {
    ghost var views := t.Views();
    var k := 0;
    while k < |t.order|
      invariant 0 <= k <= |t.order|
      invariant FirstError(views) == FirstError(views[k..])
    {
      var node := t.nodes[t.order[k]];
      assert node.View() == views[k];
      if node.error.Some? && node.error.value != "" {
        return node.error;
      }
      assert views[k..][1..] == views[k + 1..];
      k := k + 1;
    }
    return None;
  }
}
