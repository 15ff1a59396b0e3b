/** Dependency scheduling of one fusion (`FusionOptimizer`): grouping the
    chain into runs of independent functions, reordering it by its
    dependencies, the asynchronous execution plan and the per-function
    execution statistics. `deps[f]` is the set of functions `f` depends on,
    as `analyze_dependencies` builds it. */
module FusionScheduling {
  import opened Wrappers
  import opened Strs
  import opened Stats

  type Deps = map<string, set<string>>

  /** `dependencies.get(f, set())`. */
  function DepsOf(deps: Deps, f: string): set<string>
  {
    if f in deps then deps[f] else {}
  }

  // ---------------------------------------------------------------------
  // Parallel groups (lines 160-188)

  /** The groups laid end to end. */
  function Concat(groups: seq<seq<string>>): seq<string>
  {
    if groups == [] then [] else Concat(groups[..|groups| - 1]) + groups[|groups| - 1]
  }

  /** No member of the group depends on an earlier member of it. */
  predicate Independent(deps: Deps, group: seq<string>)
  {
    forall i, j :: 0 <= i < j < |group| ==> group[i] !in DepsOf(deps, group[j])
  }

  /** The first member of `next` depends on some member of `group`, so it
      could not have joined it. */
  predicate Blocked(deps: Deps, group: seq<string>, next: seq<string>)
  {
    next != [] && exists x :: x in group && x in DepsOf(deps, next[0])
  }

  lemma ConcatAppend(groups: seq<seq<string>>, g: seq<string>)
    ensures Concat(groups + [g]) == Concat(groups) + g
  {
    assert (groups + [g])[..|groups|] == groups;
  }

  /** The groups so far and the open group cover `done` and keep the
      grouping properties. */
  ghost predicate Grouped(deps: Deps, done: seq<string>, groups: seq<seq<string>>, current: seq<string>)
  {
    && Concat(groups) + current == done
    && (forall k :: 0 <= k < |groups| ==> groups[k] != [] && Independent(deps, groups[k]))
    && (forall k :: 0 < k < |groups| ==> Blocked(deps, groups[k - 1], groups[k]))
    && Independent(deps, current)
    && (done != [] ==> current != [])
    && (groups != [] ==> Blocked(deps, groups[|groups| - 1], current))
  }

  /** `f` joins the open group. */
  lemma JoinStep(deps: Deps, done: seq<string>, groups: seq<seq<string>>, current: seq<string>, f: string)
    requires Grouped(deps, done, groups, current)
    requires forall i :: 0 <= i < |current| ==> current[i] !in DepsOf(deps, f)
    ensures Grouped(deps, done + [f], groups, current + [f])
  {
    var c := current + [f];
    assert forall i :: 0 <= i < |current| ==> c[i] == current[i];
  }

  /** The open group is closed and `f` opens the next one. */
  lemma CloseStep(deps: Deps, done: seq<string>, groups: seq<seq<string>>, current: seq<string>, f: string)
    requires Grouped(deps, done, groups, current)
    requires current != [] && exists x :: x in current && x in DepsOf(deps, f)
    ensures Grouped(deps, done + [f], groups + [current], [f])
  {
    ConcatAppend(groups, current);
    var g := groups + [current];
    assert forall k :: 0 <= k < |groups| ==> g[k] == groups[k];
  }

  /** Lines 160-188: the chain is cut into consecutive non-empty groups; a
      function joins the current group unless it depends on a member of it,
      in which case it opens the next one. */
  method IdentifyParallelGroups(chain: seq<string>, deps: Deps) returns (groups: seq<seq<string>>)
    ensures Concat(groups) == chain
    ensures forall k :: 0 <= k < |groups| ==> groups[k] != [] && Independent(deps, groups[k])
    ensures forall k :: 0 < k < |groups| ==> Blocked(deps, groups[k - 1], groups[k])
  {
    groups := [];
    var current: seq<string> := [];
    for n := 0 to |chain|
      invariant Grouped(deps, chain[..n], groups, current)
    {
      var f := chain[n];
      var canParallelize := CanParallelize(deps, current, f);
      assert chain[..n + 1] == chain[..n] + [f];
      if canParallelize {
        JoinStep(deps, chain[..n], groups, current, f);
        current := current + [f];
      } else {
        CloseStep(deps, chain[..n], groups, current, f);
        groups := groups + [current];
        current := [f];
      }
    }
    assert chain[..|chain|] == chain;
    if current != [] {
      CloseLast(deps, chain, groups, current);
      groups := groups + [current];
    }
  }

  /** Lines 172-176: whether `f` depends on no member of the open group. */
  method CanParallelize(deps: Deps, current: seq<string>, f: string) returns (can: bool)
    ensures can <==> forall i :: 0 <= i < |current| ==> current[i] !in DepsOf(deps, f)
    ensures !can ==> exists x :: x in current && x in DepsOf(deps, f)
  {
    can := true;
    var k := 0;
    while k < |current| && can
      invariant 0 <= k <= |current|
      invariant can <==> forall i :: 0 <= i < k ==> current[i] !in DepsOf(deps, f)
      invariant !can ==> current[k - 1] in DepsOf(deps, f)
    {
      if current[k] in DepsOf(deps, f) {
        can := false;
      }
      k := k + 1;
    }
  }

  /** Lines 185-186: closing the last open group completes the grouping. */
  lemma CloseLast(deps: Deps, chain: seq<string>, groups: seq<seq<string>>, current: seq<string>)
    requires Grouped(deps, chain, groups, current) && current != []
    ensures Concat(groups + [current]) == chain
    ensures forall k :: 0 <= k < |groups + [current]| ==> (groups + [current])[k] != [] && Independent(deps, (groups + [current])[k])
    ensures forall k :: 0 < k < |groups + [current]| ==> Blocked(deps, (groups + [current])[k - 1], (groups + [current])[k])
  {
    ConcatAppend(groups, current);
    var g := groups + [current];
    assert forall k :: 0 <= k < |groups| ==> g[k] == groups[k];
  }

  // ---------------------------------------------------------------------
  // Function order (lines 190-250), as written

  /** Some function lists `f` among its dependencies (`has_incoming`). */
  predicate Needed(deps: Deps, f: string)
  {
    exists g :: g in deps && f in deps[g]
  }

  /** The chain's functions that some function needs (`needed`) or that no
      function needs (`!needed`), in chain order. */
  function Select(chain: seq<string>, deps: Deps, needed: bool): (r: seq<string>)
    ensures forall x :: x in r ==> x in chain && Needed(deps, x) == needed
    ensures forall x :: x in chain && Needed(deps, x) == needed ==> x in r
  {
    if chain == [] then []
    else
      var last := chain[|chain| - 1];
      Select(chain[..|chain| - 1], deps, needed) + (if Needed(deps, last) == needed then [last] else [])
  }

  /** `[f for f in chain if f not in done]`. */
  function Remaining(chain: seq<string>, done: seq<string>): (r: seq<string>)
  {
    if chain == [] then []
    else
      var last := chain[|chain| - 1];
      Remaining(chain[..|chain| - 1], done) + (if last in done then [] else [last])
  }

  /** What `_optimize_function_order` returns: the functions nobody depends
      on, then the others, each part in chain order. */
  function WrittenOrder(chain: seq<string>, deps: Deps): seq<string>
  {
    Select(chain, deps, false) + Select(chain, deps, true)
  }

  /** The two parts split the chain. */
  lemma {:induction false} SelectSplits(chain: seq<string>, deps: Deps)
    ensures multiset(Select(chain, deps, false)) + multiset(Select(chain, deps, true)) == multiset(chain)
  {
    if chain != [] {
      var init := chain[..|chain| - 1];
      SelectSplits(init, deps);
      assert chain == init + [chain[|chain| - 1]];
    }
  }

  /** The leftovers after the unneeded functions are the needed ones. */
  lemma {:induction false} RemainingAreNeeded(chain: seq<string>, deps: Deps, done: seq<string>)
    requires forall x :: x in chain ==> (x in done <==> !Needed(deps, x))
    ensures Remaining(chain, done) == Select(chain, deps, true)
  {
    if chain != [] {
      var init := chain[..|chain| - 1];
      forall x | x in init ensures x in chain { }
      RemainingAreNeeded(init, deps, done);
    }
  }

  /** Every listed dependent really depends on its key. */
  predicate ListsDependents(deps: Deps, graph: map<string, seq<string>>)
  {
    forall d, i :: d in graph && 0 <= i < |graph[d]| ==> graph[d][i] in deps && d in deps[graph[d][i]]
  }

  /** Lines 205-212: `graph[d]` lists the functions that depend on `d`, for
      every `d` of the chain, in the order the dict and sets are walked. */
  method DependentsGraph(chain: seq<string>, deps: Deps) returns (graph: map<string, seq<string>>)
    ensures graph.Keys == set x | x in chain
    ensures ListsDependents(deps, graph)
  {
    graph := map[];
    for n := 0 to |chain|
      invariant graph.Keys == set i | 0 <= i < n :: chain[i]
      invariant forall d :: d in graph ==> graph[d] == []
    {
      graph := graph[chain[n] := []];
    }
    var pending := deps.Keys;
    while pending != {}
      invariant pending <= deps.Keys
      invariant graph.Keys == set x | x in chain
      invariant ListsDependents(deps, graph)
      decreases |pending|
    {
      var f :| f in pending;
      pending := pending - {f};
      var ds := deps[f];
      while ds != {}
        invariant graph.Keys == set x | x in chain
        invariant ListsDependents(deps, graph)
        invariant ds <= deps[f]
        decreases |ds|
      {
        var d :| d in ds;
        ds := ds - {d};
        if d in chain {
          graph := graph[d := graph[d] + [f]];
        }
      }
    }
  }

  /** Lines 216-220: whether some function's dependency set holds `f`. */
  method HasIncoming(deps: Deps, f: string) returns (hasIncoming: bool)
    ensures hasIncoming <==> Needed(deps, f)
  {
    hasIncoming := false;
    var rest := deps.Keys;
    while rest != {} && !hasIncoming
      invariant rest <= deps.Keys
      invariant hasIncoming ==> Needed(deps, f)
      invariant !hasIncoming ==> forall g :: g in deps && g !in rest ==> f !in deps[g]
      decreases |rest|
    {
      var g :| g in rest;
      rest := rest - {g};
      if f in deps[g] {
        hasIncoming := true;
      }
    }
  }

  /** Lines 215-223: the chain's functions without incoming edges. */
  method NoDependencies(chain: seq<string>, deps: Deps) returns (r: seq<string>)
    ensures r == Select(chain, deps, false)
  {
    r := [];
    for n := 0 to |chain|
      invariant r == Select(chain[..n], deps, false)
    {
      var hasIncoming := HasIncoming(deps, chain[n]);
      assert chain[..n + 1][..n] == chain[..n];
      if !hasIncoming {
        r := r + [chain[n]];
      }
    }
    assert chain[..|chain|] == chain;
  }

  /** Lines 190-250 as written. `has_incoming` asks whether anyone depends
      on the function, so only functions nobody needs enter the worklist;
      those have no dependents, so the edge loop of lines 232-241 never adds
      one, and everything else is appended afterwards in chain order. The
      result is always a permutation of the chain. */
  method OptimizeFunctionOrder(chain: seq<string>, deps: Deps) returns (result: seq<string>)
    ensures result == WrittenOrder(chain, deps)
    ensures multiset(result) == multiset(chain)
  {
    var graph := DependentsGraph(chain, deps);
    var noDependencies := NoDependencies(chain, deps);
    result := Drain(deps, graph, noDependencies);
    // Leftovers in chain order (lines 245-248).
    LeftoversAreNeeded(chain, deps, result);
    if |result| < |chain| {
      result := result + Remaining(chain, result);
    }
    SelectSplits(chain, deps);
  }

  /** A function listed with a dependent is needed by it. */
  lemma ListedIsNeeded(deps: Deps, graph: map<string, seq<string>>, f: string)
    requires ListsDependents(deps, graph)
    ensures f in graph && graph[f] != [] ==> Needed(deps, f)
  {
    if f in graph && graph[f] != [] {
      var g := graph[f][0];
      assert g in deps && f in deps[g];
    }
  }

  /** Lines 226-241 on a worklist of functions nobody needs: each is moved
      to the result, and since nobody is listed as its dependent the edge
      loop adds nothing. */
  method Drain(deps: Deps, graph: map<string, seq<string>>, noDependencies: seq<string>) returns (result: seq<string>)
    requires ListsDependents(deps, graph)
    requires forall x :: x in noDependencies ==> !Needed(deps, x)
    ensures result == noDependencies
  {
    result := [];
    var work := noDependencies;
    while work != []
      invariant result + work == noDependencies
    {
      var f := work[0];
      assert f in noDependencies;
      work := work[1..];
      result := result + [f];
      var neighbours := if f in graph then graph[f] else [];
      // Nobody needs f, so nobody is listed as its dependent.
      ListedIsNeeded(deps, graph, f);
      assert neighbours == [];
    }
  }

  /** After the unneeded functions, the leftovers are exactly the needed
      ones, and there are some only if the worklist fell short. */
  lemma LeftoversAreNeeded(chain: seq<string>, deps: Deps, done: seq<string>)
    requires done == Select(chain, deps, false)
    ensures Remaining(chain, done) == Select(chain, deps, true)
    ensures |done| >= |chain| ==> Select(chain, deps, true) == []
  {
    RemainingAreNeeded(chain, deps, done);
    SelectSplits(chain, deps);
    assert |multiset(done)| + |multiset(Select(chain, deps, true))| == |multiset(chain)|;
  }

  /** Chain [A, B] where B reads A's output. */
  const ExampleDeps: Deps := map["A" := {}, "B" := {"A"}]

  lemma ExampleNeeds()
    ensures Needed(ExampleDeps, "A") && !Needed(ExampleDeps, "B")
  {
    assert "B" in ExampleDeps && "A" in ExampleDeps["B"];
  }

  /** On that chain the order returned runs B before A, against the
      dependency. */
  lemma WrittenOrderCounterexample()
    ensures "A" in DepsOf(ExampleDeps, "B")
    ensures WrittenOrder(["A", "B"], ExampleDeps) == ["B", "A"]
  {
    ExampleNeeds();
    assert ["A", "B"][..1] == ["A"] && ["A"][..0] == [];
    assert Select(["A"], ExampleDeps, false) == [];
    assert Select(["A"], ExampleDeps, true) == ["A"];
  }

  // ---------------------------------------------------------------------
  // Function order, corrected: a worklist topological sort that starts from
  // the functions with no dependency inside the chain and releases a
  // dependent once all its in-chain dependencies are placed.

  /** Every entry comes after all of its dependencies that lie in the chain. */
  ghost predicate RespectsDeps(chain: seq<string>, deps: Deps, order: seq<string>)
  {
    forall i, d :: 0 <= i < |order| && d in DepsOf(deps, order[i]) && d in chain ==> d in order[..i]
  }

  /** Every in-chain dependency of `f` is in `done`. */
  ghost predicate Ready(chain: seq<string>, deps: Deps, done: seq<string>, f: string)
  {
    forall d :: d in DepsOf(deps, f) && d in chain ==> d in done
  }

  /** `graph[d]` lists chain functions only. */
  predicate InChain(chain: seq<string>, graph: map<string, seq<string>>)
  {
    forall d, i :: d in graph && 0 <= i < |graph[d]| ==> graph[d][i] in chain
  }

  /** The worklist invariant: placed and waiting functions are distinct
      chain functions, the placed ones respect their dependencies, and the
      waiting ones have all theirs placed. */
  ghost predicate Sorting(chain: seq<string>, deps: Deps, result: seq<string>, work: seq<string>)
  {
    && NoRepeats(result + work)
    && (forall x :: x in result + work ==> x in chain)
    && RespectsDeps(chain, deps, result)
    && (forall x :: x in work ==> Ready(chain, deps, result, x))
  }

  /** Lines 205-212 restricted to the chain's own functions. */
  method ChainDependentsGraph(chain: seq<string>, deps: Deps) returns (graph: map<string, seq<string>>)
    ensures graph.Keys == set x | x in chain
    ensures InChain(chain, graph)
    ensures forall d, i :: d in graph && 0 <= i < |graph[d]| ==> d in DepsOf(deps, graph[d][i])
    ensures ListsChainDependents(chain, deps, graph, chain)
  {
    graph := map[];
    for n := 0 to |chain|
      invariant graph.Keys == set i | 0 <= i < n :: chain[i]
      invariant forall d :: d in graph ==> graph[d] == []
    {
      graph := graph[chain[n] := []];
    }
    for n := 0 to |chain|
      invariant graph.Keys == set x | x in chain
      invariant InChain(chain, graph)
      invariant forall d, i :: d in graph && 0 <= i < |graph[d]| ==> d in DepsOf(deps, graph[d][i])
      invariant ListsChainDependents(chain, deps, graph, chain[..n])
    {
      graph := LinkDependent(chain, deps, graph, chain[n]);
      assert chain[..n + 1] == chain[..n] + [chain[n]];
    }
    assert chain[..|chain|] == chain;
  }

  /** Every in-chain dependency `d` of a function of `xs` lists that
      function in `graph[d]`. */
  ghost predicate ListsChainDependents(chain: seq<string>, deps: Deps, graph: map<string, seq<string>>, xs: seq<string>)
  {
    forall x, d :: x in xs && d in DepsOf(deps, x) && d in chain && d in graph ==> x in graph[d]
  }

  /** Lines 209-212 for one function: it is appended to the list of each of
      its in-chain dependencies; nothing listed before is lost. */
  method LinkDependent(chain: seq<string>, deps: Deps, graph: map<string, seq<string>>, f: string)
    returns (graph': map<string, seq<string>>)
    requires f in chain && InChain(chain, graph)
    requires forall d, i :: d in graph && 0 <= i < |graph[d]| ==> d in DepsOf(deps, graph[d][i])
    ensures graph'.Keys == graph.Keys && InChain(chain, graph')
    ensures forall d, i :: d in graph' && 0 <= i < |graph'[d]| ==> d in DepsOf(deps, graph'[d][i])
    ensures forall d, x :: d in graph && x in graph[d] ==> x in graph'[d]
    ensures forall d :: d in DepsOf(deps, f) && d in chain && d in graph ==> f in graph'[d]
  {
    graph' := graph;
    var ds := DepsOf(deps, f);
    while ds != {}
      invariant graph'.Keys == graph.Keys && InChain(chain, graph')
      invariant forall d, i :: d in graph' && 0 <= i < |graph'[d]| ==> d in DepsOf(deps, graph'[d][i])
      invariant forall d, x :: d in graph && x in graph[d] ==> x in graph'[d]
      invariant forall d :: d in DepsOf(deps, f) - ds && d in chain && d in graph ==> f in graph'[d]
      invariant ds <= DepsOf(deps, f)
      decreases |ds|
    {
      var d :| d in ds;
      ds := ds - {d};
      if d in chain && d in graph' {
        graph' := graph'[d := graph'[d] + [f]];
      }
    }
  }

  /** Lines 234-238 as intended: whether `f` still waits for an in-chain
      dependency that is not placed yet. */
  method WaitsOn(chain: seq<string>, deps: Deps, f: string, done: seq<string>) returns (waits: bool)
    ensures waits <==> !Ready(chain, deps, done, f)
  {
    waits := false;
    var k := 0;
    while k < |chain| && !waits
      invariant 0 <= k <= |chain|
      invariant !waits <==> forall i :: 0 <= i < k ==> chain[i] in done || chain[i] !in DepsOf(deps, f)
      invariant waits ==> chain[k - 1] !in done && chain[k - 1] in DepsOf(deps, f)
    {
      if chain[k] !in done && chain[k] in DepsOf(deps, f) {
        waits := true;
      }
      k := k + 1;
    }
    if !waits {
      assert forall d :: d in chain ==> exists i :: 0 <= i < |chain| && chain[i] == d;
    }
  }

  /** Placing `f`, the head of the worklist, keeps the invariant. */
  lemma PlaceStep(chain: seq<string>, deps: Deps, result: seq<string>, f: string, work: seq<string>)
    requires Sorting(chain, deps, result, [f] + work)
    ensures Sorting(chain, deps, result + [f], work)
    ensures f in chain && f !in result
  {
    NoRepeatsParts(result, [f] + work);
    assert result + [f] + work == result + ([f] + work);
    assert Ready(chain, deps, result, f);
    forall x | x in work ensures Ready(chain, deps, result + [f], x) {
      assert x in [f] + work;
    }
    var r := result + [f];
    assert r[..|result|] == result;
    forall i, d | 0 <= i < |r| && d in DepsOf(deps, r[i]) && d in chain
      ensures d in r[..i]
    {
      if i < |result| {
        assert r[..i] == result[..i];
      }
    }
  }

  /** Queuing a ready chain function not yet placed or queued keeps it. */
  lemma QueueStep(chain: seq<string>, deps: Deps, result: seq<string>, work: seq<string>, n: string)
    requires Sorting(chain, deps, result, work)
    requires n in chain && n !in result && n !in work && Ready(chain, deps, result, n)
    ensures Sorting(chain, deps, result, work + [n])
  {
    assert result + (work + [n]) == (result + work) + [n];
  }

  /** Distinct entries from a duplicate-free chain occur at most as often as
      in the chain. */
  lemma {:induction false} SubMultiset(a: seq<string>, chain: seq<string>)
    requires NoRepeats(a) && NoRepeats(chain)
    requires forall x :: x in a ==> x in chain
    ensures multiset(a) <= multiset(chain)
  {
    forall x ensures multiset(a)[x] <= multiset(chain)[x] {
      AtMostOnce(a, x);
      if x in a {
        assert x in multiset(chain);
      }
    }
  }

  lemma {:induction false} AtMostOnce(a: seq<string>, x: string)
    requires NoRepeats(a)
    ensures multiset(a)[x] <= 1
    ensures x !in a ==> multiset(a)[x] == 0
  {
    if a != [] {
      var init := a[..|a| - 1];
      assert a == init + [a[|a| - 1]];
      assert NoRepeats(init);
      AtMostOnce(init, x);
      if a[|a| - 1] == x {
        assert x !in init;
      }
    }
  }

  /** On a duplicate-free chain the leftovers are what `done` lacks. */
  lemma {:induction false} RemainingMultiset(chain: seq<string>, done: seq<string>)
    requires NoRepeats(chain)
    ensures multiset(Remaining(chain, done)) == multiset(chain) - multiset(done)
  {
    if chain != [] {
      var init := chain[..|chain| - 1];
      var last := chain[|chain| - 1];
      assert chain == init + [last];
      assert NoRepeats(init);
      RemainingMultiset(init, done);
      assert last !in init;
      AtMostOnce(init, last);
    }
  }

  lemma NoRepeatsParts(a: seq<string>, b: seq<string>)
    requires NoRepeats(a + b)
    ensures NoRepeats(a) && forall x :: x in b ==> x !in a
  {
    var ab := a + b;
    assert forall i :: 0 <= i < |a| ==> ab[i] == a[i];
    assert forall j :: 0 <= j < |b| ==> ab[|a| + j] == b[j];
  }

  /** Lines 214-223 as intended: the chain functions with no dependency in
      the chain, in chain order. */
  method ReadyFunctions(chain: seq<string>, deps: Deps) returns (work: seq<string>)
    requires NoRepeats(chain)
    ensures Sorting(chain, deps, [], work)
    ensures forall x :: x in chain && Ready(chain, deps, [], x) ==> x in work
  {
    work := [];
    for n := 0 to |chain|
      invariant Sorting(chain, deps, [], work)
      invariant forall x :: x in work ==> x in chain[..n]
      invariant forall i :: 0 <= i < n && Ready(chain, deps, [], chain[i]) ==> chain[i] in work
    {
      var waits := WaitsOn(chain, deps, chain[n], []);
      if !waits {
        assert chain[n] !in work;
        QueueStep(chain, deps, [], work, chain[n]);
        work := work + [chain[n]];
      }
    }
  }

  /** Lines 232-241 as intended: queue each dependent of the function just
      placed that no longer waits for anything. */
  method Release(chain: seq<string>, deps: Deps, result: seq<string>, work: seq<string>, neighbours: seq<string>)
    returns (work': seq<string>)
    requires Sorting(chain, deps, result, work)
    requires forall k :: 0 <= k < |neighbours| ==> neighbours[k] in chain
    ensures Sorting(chain, deps, result, work')
    ensures forall x :: x in work ==> x in work'
    ensures forall k :: 0 <= k < |neighbours| && neighbours[k] !in result && Ready(chain, deps, result, neighbours[k]) ==>
              neighbours[k] in work'
  {
    work' := work;
    for k := 0 to |neighbours|
      invariant Sorting(chain, deps, result, work')
      invariant forall x :: x in work ==> x in work'
      invariant forall j :: 0 <= j < k && neighbours[j] !in result && Ready(chain, deps, result, neighbours[j]) ==>
                  neighbours[j] in work'
    {
      var nb := neighbours[k];
      var waits := WaitsOn(chain, deps, nb, result);
      if !waits && nb !in result && nb !in work' {
        QueueStep(chain, deps, result, work', nb);
        work' := work' + [nb];
      }
    }
  }

  /** The corrected `_optimize_function_order`: a prefix in dependency
      order, then the functions the worklist never released (those on or
      behind a cycle) in chain order; always a permutation of the chain.
      The prefix is as long as it can be: every function after it still
      waits for an in-chain dependency outside the prefix. */
  method TopologicalOrder(chain: seq<string>, deps: Deps) returns (result: seq<string>, ghost sorted: nat)
    requires NoRepeats(chain)
    ensures multiset(result) == multiset(chain)
    ensures sorted <= |result| && RespectsDeps(chain, deps, result[..sorted])
    ensures result[sorted..] == Remaining(chain, result[..sorted])
    ensures forall i :: sorted <= i < |result| ==> !Ready(chain, deps, result[..sorted], result[i])
  {
    var graph := ChainDependentsGraph(chain, deps);
    var work := ReadyFunctions(chain, deps);
    result := [];
    while work != []
      invariant Sorting(chain, deps, result, work)
      invariant Maximal(chain, deps, result, work)
      decreases (set x | x in chain) - (set x | x in result)
    {
      var f := work[0];
      assert [f] + work[1..] == work;
      PlaceStep(chain, deps, result, f, work[1..]);
      ghost var before := (set x | x in chain) - (set x | x in result);
      ghost var result0, work0 := result, work;
      result := result + [f];
      assert f in before && f !in (set x | x in chain) - (set x | x in result);
      work := work[1..];
      work := Release(chain, deps, result, work, graph[f]);
      MaximalStep(chain, deps, graph, result0, work0, work);
    }
    sorted := |result|;
    AppendLeftovers(chain, deps, result);
    LeftoversWait(chain, deps, result);
    result := result + Remaining(chain, result);
  }

  /** Every chain function neither placed nor queued still waits for an
      in-chain dependency that is not placed. */
  ghost predicate Maximal(chain: seq<string>, deps: Deps, result: seq<string>, work: seq<string>)
  {
    forall x :: x in chain && x !in result && x !in work ==> !Ready(chain, deps, result, x)
  }

  /** Placing the head of the worklist and queuing its ready dependents
      loses no function that became ready. */
  lemma MaximalStep(chain: seq<string>, deps: Deps, graph: map<string, seq<string>>,
                    result: seq<string>, work: seq<string>, work': seq<string>)
    requires work != [] && work[0] in chain && work[0] in graph
    requires Maximal(chain, deps, result, work)
    requires ListsChainDependents(chain, deps, graph, chain)
    requires forall x :: x in work[1..] ==> x in work'
    requires forall k :: (0 <= k < |graph[work[0]]| && graph[work[0]][k] !in result + [work[0]] &&
                          Ready(chain, deps, result + [work[0]], graph[work[0]][k])) ==> graph[work[0]][k] in work'
    ensures Maximal(chain, deps, result + [work[0]], work')
  {
    var f := work[0];
    forall x | x in chain && x !in result + [f] && Ready(chain, deps, result + [f], x) ensures x in work' {
      if Ready(chain, deps, result, x) {
        assert work == [f] + work[1..];
        assert x in work[1..];
      } else {
        var d :| d in DepsOf(deps, x) && d in chain && d !in result;
        assert d == f;
        assert x in graph[f];
      }
    }
  }

  /** With the worklist empty, every leftover still waits for an in-chain
      dependency outside the placed prefix. */
  lemma LeftoversWait(chain: seq<string>, deps: Deps, done: seq<string>)
    requires Maximal(chain, deps, done, [])
    ensures forall i :: |done| <= i < |done + Remaining(chain, done)| ==>
              !Ready(chain, deps, (done + Remaining(chain, done))[..|done|], (done + Remaining(chain, done))[i])
  {
    var r := done + Remaining(chain, done);
    assert r[..|done|] == done;
    forall i | |done| <= i < |r| ensures !Ready(chain, deps, done, r[i]) {
      assert r[i] == Remaining(chain, done)[i - |done|];
      RemainingMember(chain, done, r[i]);
    }
  }

  /** The leftovers are chain functions outside `done`. */
  lemma {:induction false} RemainingMember(chain: seq<string>, done: seq<string>, x: string)
    requires x in Remaining(chain, done)
    ensures x in chain && x !in done
  {
    var init := chain[..|chain| - 1];
    if x in Remaining(init, done) {
      RemainingMember(init, done, x);
      assert x in chain by { assert chain == init + [chain[|chain| - 1]]; }
    }
  }

  /** Lines 245-248: appending the leftovers to a sorted prefix completes a
      permutation of the chain. */
  lemma AppendLeftovers(chain: seq<string>, deps: Deps, done: seq<string>)
    requires NoRepeats(chain) && Sorting(chain, deps, done, [])
    ensures multiset(done + Remaining(chain, done)) == multiset(chain)
    ensures RespectsDeps(chain, deps, (done + Remaining(chain, done))[..|done|])
    ensures (done + Remaining(chain, done))[|done|..] == Remaining(chain, done)
  {
    NoRepeatsParts(done, []);
    assert done + [] == done;
    SubMultiset(done, chain);
    RemainingMultiset(chain, done);
    var r := done + Remaining(chain, done);
    assert r[..|done|] == done;
  }

  lemma BFirstBreaksOrder(chain: seq<string>, p: seq<string>)
    requires "A" in chain
    requires |p| > 0 && p[0] == "B"
    ensures !RespectsDeps(chain, ExampleDeps, p)
  {
    assert "A" in DepsOf(ExampleDeps, p[0]);
    assert p[..0] == [];
  }

  /** On the chain [A, B] where B reads A's output, the only order the
      corrected contract allows is [A, B]. */
  lemma TopologicalOrderExample(r: seq<string>, sorted: nat)
    requires multiset(r) == multiset(["A", "B"])
    requires sorted <= |r| && RespectsDeps(["A", "B"], ExampleDeps, r[..sorted])
    requires r[sorted..] == Remaining(["A", "B"], r[..sorted])
    ensures r == ["A", "B"]
  {
    assert |r| == 2 by {
      assert |multiset(r)| == |multiset(["A", "B"])|;
    }
    assert r == [r[0], r[1]];
    assert multiset{r[0], r[1]} == multiset{"A", "B"};
    if sorted == 0 {
      assert r == Remaining(["A", "B"], []);
      assert ["A", "B"][..1] == ["A"] && ["A"][..0] == [];
    } else if r[0] != "A" {
      BFirstBreaksOrder(["A", "B"], r[..sorted]);
    } else {
      assert multiset{r[0], r[1]}["B"] == 1;
    }
  }

  /** On the chain [B, A], listed against the dependency, the corrected
      contract still forces every function into the sorted part, A first:
      leaving A behind while it is ready breaks the last clause. */
  lemma ReversedChainExample(r: seq<string>, sorted: nat)
    requires multiset(r) == multiset(["B", "A"])
    requires sorted <= |r| && RespectsDeps(["B", "A"], ExampleDeps, r[..sorted])
    requires r[sorted..] == Remaining(["B", "A"], r[..sorted])
    requires forall i :: sorted <= i < |r| ==> !Ready(["B", "A"], ExampleDeps, r[..sorted], r[i])
    ensures r == ["A", "B"] && sorted == 2
  {
    assert |r| == 2 by {
      assert |multiset(r)| == |multiset(["B", "A"])|;
    }
    assert r == [r[0], r[1]];
    assert multiset{r[0], r[1]} == multiset{"B", "A"};
    assert DepsOf(ExampleDeps, "A") == {};
    if sorted == 0 {
      assert false;
    } else if r[0] != "A" {
      BFirstBreaksOrder(["B", "A"], r[..sorted]);
      assert false;
    } else if sorted == 1 {
      assert false;
    } else {
      assert multiset{r[0], r[1]}["B"] == 1;
    }
  }

  // ---------------------------------------------------------------------
  // Asynchronous execution plan without a performance model (lines 397-514)

  datatype Mode = Sync | Async

  /** One entry of `execution_order`: the function, how it runs and the
      earlier functions whose results it waits for. */
  datatype Step = Step(id: string, mode: Mode, waitFor: seq<string>)

  /** The functions of the steps, in order. */
  function Ids(order: seq<Step>): seq<string>
  {
    seq(|order|, i requires 0 <= i < |order| => order[i].id)
  }

  /** The synchronous functions, in order. */
  function SyncIds(order: seq<Step>): seq<string>
  {
    if order == [] then []
    else
      var last := order[|order| - 1];
      SyncIds(order[..|order| - 1]) + (if last.mode == Sync then [last.id] else [])
  }

  /** The chain's functions that lie on the critical path, in chain order. */
  function OnPath(chain: seq<string>, critical: seq<string>): seq<string>
  {
    if chain == [] then []
    else
      var last := chain[|chain| - 1];
      OnPath(chain[..|chain| - 1], critical) + (if last in critical then [last] else [])
  }

  /** A step runs synchronously exactly when it lies on the critical path,
      only an asynchronous step waits, and it waits only for functions it
      depends on. */
  predicate StepOk(critical: seq<string>, deps: Deps, s: Step)
  {
    && (s.mode == Sync <==> s.id in critical)
    && (s.mode == Sync ==> s.waitFor == [])
    && (forall d :: d in s.waitFor ==> d in DepsOf(deps, s.id))
  }

  predicate WellFormed(critical: seq<string>, deps: Deps, order: seq<Step>)
  {
    forall s :: s in order ==> StepOk(critical, deps, s)
  }

  /** Every step comes after the steps it waits for. */
  predicate AfterItsWaits(order: seq<Step>)
  {
    forall i, d :: 0 <= i < |order| && d in order[i].waitFor ==> d in Ids(order[..i])
  }

  /** `all(dep in [ex["id"] for ex in execution_order] for dep in waits)`. */
  predicate AllPlaced(waits: seq<string>, order: seq<Step>)
  {
    forall d :: d in waits ==> d in Ids(order)
  }

  /** The invariant of the loop of lines 420-456: the placed and pending
      steps cover the chain so far, pending steps are asynchronous and wait
      only for placed ones. */
  ghost predicate Planned(chain: seq<string>, critical: seq<string>, deps: Deps, order: seq<Step>, pending: seq<Step>)
  {
    && multiset(Ids(order)) + multiset(Ids(pending)) == multiset(chain)
    && WellFormed(critical, deps, order) && WellFormed(critical, deps, pending)
    && AfterItsWaits(order)
    && (forall p :: p in pending ==> p.mode == Async && AllPlaced(p.waitFor, order))
    && SyncIds(order) == OnPath(chain, critical)
  }

  lemma IdsAppend(a: seq<Step>, b: seq<Step>)
    ensures Ids(a + b) == Ids(a) + Ids(b)
  {
    assert forall i :: 0 <= i < |a| + |b| ==> Ids(a + b)[i] == (Ids(a) + Ids(b))[i];
  }

  /** Appending a well-formed step whose waits are already placed keeps the
      order well formed, and keeps every function placed so far. */
  lemma AppendStep(critical: seq<string>, deps: Deps, order: seq<Step>, s: Step)
    requires WellFormed(critical, deps, order) && AfterItsWaits(order)
    requires StepOk(critical, deps, s) && AllPlaced(s.waitFor, order)
    ensures WellFormed(critical, deps, order + [s]) && AfterItsWaits(order + [s])
    ensures SyncIds(order + [s]) == SyncIds(order) + (if s.mode == Sync then [s.id] else [])
    ensures Ids(order + [s]) == Ids(order) + [s.id]
  {
    var o := order + [s];
    assert o[..|order|] == order;
    forall i, d | 0 <= i < |o| && d in o[i].waitFor ensures d in Ids(o[..i]) {
      if i < |order| {
        assert o[..i] == order[..i];
      }
    }
  }

  /** Lines 441-443: the earlier steps the function depends on. */
  method WaitList(order: seq<Step>, deps: Deps, f: string) returns (waits: seq<string>)
    ensures forall d :: d in waits ==> d in DepsOf(deps, f)
    ensures AllPlaced(waits, order)
    ensures forall d :: d in DepsOf(deps, f) && d in Ids(order) ==> d in waits
  {
    waits := [];
    for k := 0 to |order|
      invariant forall d :: d in waits ==> d in DepsOf(deps, f) && d in Ids(order)
      invariant forall j :: 0 <= j < k && order[j].id in DepsOf(deps, f) ==> order[j].id in waits
    {
      if order[k].id in DepsOf(deps, f) {
        assert Ids(order)[k] == order[k].id;
        waits := waits + [order[k].id];
      }
    }
    forall d | d in DepsOf(deps, f) && d in Ids(order) ensures d in waits {
      var j :| 0 <= j < |order| && Ids(order)[j] == d;
      assert order[j].id == d;
    }
  }

  /** Every asynchronous step waits for each of its dependencies that an
      earlier step runs: with AfterItsWaits and WellFormed, its waits are
      exactly its dependencies among the earlier steps. */
  ghost predicate WaitsForEarlier(deps: Deps, order: seq<Step>)
  {
    forall i, d :: 0 <= i < |order| && order[i].mode == Async && d in DepsOf(deps, order[i].id) && d in Ids(order[..i]) ==>
      d in order[i].waitFor
  }

  lemma WaitsForEarlierStep(deps: Deps, order: seq<Step>, s: Step)
    requires WaitsForEarlier(deps, order)
    requires s.mode == Async ==> forall d :: d in DepsOf(deps, s.id) && d in Ids(order) ==> d in s.waitFor
    ensures WaitsForEarlier(deps, order + [s])
  {
    var o := order + [s];
    forall i | 0 <= i < |o| ensures o[..i] == if i < |order| then order[..i] else order {
    }
  }

  /** The invariant of the loop of lines 431-435, `k` pending steps in. */
  ghost predicate Starting(chain: seq<string>, critical: seq<string>, deps: Deps, order: seq<Step>, pending: seq<Step>,
                           order': seq<Step>, pending': seq<Step>, k: nat)
  {
    && k <= |pending|
    && multiset(Ids(order')) + multiset(Ids(pending')) + multiset(Ids(pending[k..])) == multiset(chain)
    && WellFormed(critical, deps, order') && AfterItsWaits(order')
    && (forall p :: p in pending' ==> p in pending)
    && SyncIds(order') == OnPath(chain, critical)
    && (forall d :: d in Ids(order) ==> d in Ids(order'))
  }

  /** A pending step whose waits are placed is started. */
  lemma StartPlace(chain: seq<string>, critical: seq<string>, deps: Deps, order: seq<Step>, pending: seq<Step>,
                   order': seq<Step>, pending': seq<Step>, k: nat)
    requires Planned(chain, critical, deps, order, pending)
    requires Starting(chain, critical, deps, order, pending, order', pending', k) && k < |pending|
    requires AllPlaced(pending[k].waitFor, order')
    ensures Starting(chain, critical, deps, order, pending, order' + [pending[k]], pending', k + 1)
  {
    var p := pending[k];
    assert p in pending;
    assert p.mode == Async && StepOk(critical, deps, p);
    assert pending[k..] == [p] + pending[k + 1..];
    IdsAppend([p], pending[k + 1..]);
    AppendStep(critical, deps, order', p);
  }

  /** A pending step that still waits stays pending. */
  lemma StartKeep(chain: seq<string>, critical: seq<string>, deps: Deps, order: seq<Step>, pending: seq<Step>,
                  order': seq<Step>, pending': seq<Step>, k: nat)
    requires Starting(chain, critical, deps, order, pending, order', pending', k) && k < |pending|
    ensures Starting(chain, critical, deps, order, pending, order', pending' + [pending[k]], k + 1)
  {
    var p := pending[k];
    assert p in pending;
    assert pending[k..] == [p] + pending[k + 1..];
    IdsAppend([p], pending[k + 1..]);
    IdsAppend(pending', [p]);
  }

  lemma StartDone(chain: seq<string>, critical: seq<string>, deps: Deps, order: seq<Step>, pending: seq<Step>,
                  order': seq<Step>, pending': seq<Step>)
    requires Planned(chain, critical, deps, order, pending)
    requires Starting(chain, critical, deps, order, pending, order', pending', |pending|)
    ensures Planned(chain, critical, deps, order', pending')
  {
    assert pending[|pending|..] == [];
    forall p | p in pending' ensures p.mode == Async && AllPlaced(p.waitFor, order') {
      assert p in pending;
    }
  }

  /** Lines 430-436: pending asynchronous steps whose waits are all placed
      are appended; the others stay pending. */
  method StartPending(ghost chain: seq<string>, critical: seq<string>, deps: Deps, order: seq<Step>, pending: seq<Step>)
    returns (order': seq<Step>, pending': seq<Step>)
    requires Planned(chain, critical, deps, order, pending)
    ensures Planned(chain, critical, deps, order', pending')
    ensures pending == [] ==> order' == order && pending' == []
  {
    order', pending' := order, [];
    assert pending[0..] == pending;
    for k := 0 to |pending|
      invariant Starting(chain, critical, deps, order, pending, order', pending', k)
      invariant pending == [] ==> order' == order && pending' == []
    {
      if AllPlaced(pending[k].waitFor, order') {
        StartPlace(chain, critical, deps, order, pending, order', pending', k);
        order' := order' + [pending[k]];
      } else {
        StartKeep(chain, critical, deps, order, pending, order', pending', k);
        pending' := pending' + [pending[k]];
      }
    }
    StartDone(chain, critical, deps, order, pending, order', pending');
  }

  /** Lines 416-459: the steps in chain order, critical functions as
      synchronous steps and the others as asynchronous steps that wait for
      the earlier steps they depend on. Since the waits are read off the
      steps already placed, no step is ever left pending: every function
      starts at its own place in the chain. */
  method ExecutionOrder(chain: seq<string>, critical: seq<string>, deps: Deps) returns (order: seq<Step>)
    ensures Ids(order) == chain
    ensures WellFormed(critical, deps, order)
    ensures AfterItsWaits(order) && WaitsForEarlier(deps, order)
    ensures SyncIds(order) == OnPath(chain, critical)
  {
    order := [];
    var pending: seq<Step> := [];
    for n := 0 to |chain|
      invariant Planned(chain[..n], critical, deps, order, pending)
      invariant pending == [] && Ids(order) == chain[..n] && WaitsForEarlier(deps, order)
    {
      var f := chain[n];
      var s: Step;
      if f in critical {
        s := Step(f, Sync, []);
      } else {
        var waits := WaitList(order, deps, f);
        s := Step(f, Async, waits);
      }
      WaitsForEarlierStep(deps, order, s);
      IdsAppend(order, [s]);
      order, pending := PlanStep(chain[..n], critical, deps, order, pending, s);
      assert chain[..n + 1] == chain[..n] + [f];
      if f in critical {
        order, pending := StartPending(chain[..n + 1], critical, deps, order, pending);
      }
    }
    assert chain[..|chain|] == chain;
    FlushPending(critical, deps, order, pending);
    assert order + pending == order;
    order := order + pending;
  }

  /** Lines 421-427 and 445-456: a new step is placed at once when it is
      synchronous or its waits are all placed, and is pending otherwise;
      since its waits are all placed, it is always placed at once. */
  method PlanStep(ghost done: seq<string>, critical: seq<string>, deps: Deps, order: seq<Step>, pending: seq<Step>, s: Step)
    returns (order': seq<Step>, pending': seq<Step>)
    requires Planned(done, critical, deps, order, pending)
    requires StepOk(critical, deps, s) && AllPlaced(s.waitFor, order)
    ensures Planned(done + [s.id], critical, deps, order', pending')
    ensures order' == order + [s] && pending' == pending
  {
    assert (done + [s.id])[..|done|] == done;
    if s.mode == Sync || s.waitFor == [] || AllPlaced(s.waitFor, order) {
      AppendStep(critical, deps, order, s);
      order', pending' := order + [s], pending;
      forall p | p in pending ensures AllPlaced(p.waitFor, order') { }
      assert multiset(Ids(order')) + multiset(Ids(pending')) == multiset(done + [s.id]);
      assert WellFormed(critical, deps, order') && WellFormed(critical, deps, pending');
      assert AfterItsWaits(order');
      assert SyncIds(order') == OnPath(done + [s.id], critical);
    } else {
      // pending_async.append(async_func): never reached, because the waits
      // of a new step are read off the steps already placed
      assert false;
    }
  }

  /** Line 459: appending the pending steps, whose waits are all placed,
      keeps the plan's properties. */
  lemma {:induction false} FlushPending(critical: seq<string>, deps: Deps, order: seq<Step>, pending: seq<Step>)
    requires WellFormed(critical, deps, order) && AfterItsWaits(order) && WellFormed(critical, deps, pending)
    requires forall p :: p in pending ==> p.mode == Async && AllPlaced(p.waitFor, order)
    ensures WellFormed(critical, deps, order + pending) && AfterItsWaits(order + pending)
    ensures SyncIds(order + pending) == SyncIds(order)
    decreases |pending|
  {
    if pending != [] {
      var p := pending[0];
      AppendStep(critical, deps, order, p);
      var rest := pending[1..];
      assert forall q :: q in rest ==> q in pending;
      assert order + pending == (order + [p]) + rest;
      forall q | q in rest ensures AllPlaced(q.waitFor, order + [p]) {
        assert AllPlaced(q.waitFor, order);
      }
      FlushPending(critical, deps, order + [p], rest);
    } else {
      assert order + pending == order;
    }
  }

  // ---------------------------------------------------------------------
  // Result collection (lines 498-512)

  /** Whether the step at `j` reads the result of the step at `i`. */
  predicate Reads(order: seq<Step>, deps: Deps, i: nat, j: nat)
    requires i < |order| && j < |order|
  {
    order[i].id in DepsOf(deps, order[j].id)
  }

  /** `needed_at` and `collect_before` of an asynchronous step. */
  datatype Collection = Collection(neededAt: Option<nat>, collectBefore: nat)

  /** The first step from `j` on that reads the result of step `i`. */
  function FirstReader(order: seq<Step>, deps: Deps, i: nat, j: nat): (r: Option<nat>)
    requires i < |order| && j <= |order|
    ensures r.Some? ==> j <= r.value < |order| && Reads(order, deps, i, r.value)
    ensures r.Some? ==> forall m :: j <= m < r.value ==> !Reads(order, deps, i, m)
    ensures r.None? ==> forall m :: j <= m < |order| ==> !Reads(order, deps, i, m)
    decreases |order| - j
  {
    if j == |order| then None
    else if Reads(order, deps, i, j) then Some(j)
    else FirstReader(order, deps, i, j + 1)
  }

  /** The collection entry of the step at `i`: the result must be in before
      the first later step that reads it, or by the end of the plan. */
  function Collect(order: seq<Step>, deps: Deps, i: nat): Collection
    requires i < |order|
  {
    var n := FirstReader(order, deps, i, i + 1);
    Collection(n, if n.None? then |order| else n.value)
  }

  /** `collect_before` is the first later step that reads the result, or
      the end of the plan when none does; `needed_at` is that step. */
  lemma CollectMeaning(order: seq<Step>, deps: Deps, i: nat)
    requires i < |order|
    ensures var c := Collect(order, deps, i);
      && i < c.collectBefore <= |order|
      && (forall m :: i < m < c.collectBefore ==> !Reads(order, deps, i, m))
      && (c.collectBefore < |order| ==> Reads(order, deps, i, c.collectBefore))
      && (c.neededAt.None? <==> c.collectBefore == |order|)
      && (c.neededAt.Some? ==> c.neededAt.value == c.collectBefore)
  {
  }

  /** No asynchronous step of the same function follows step `k` before
      index `end`. */
  predicate LastAsyncBefore(order: seq<Step>, k: nat, end: nat)
    requires k < |order| && end <= |order|
  {
    order[k].mode == Async &&
    forall j :: k < j < end ==> order[j].mode == Async ==> order[j].id != order[k].id
  }

  /** The keys written for the first `n` steps. */
  ghost function AsyncIds(order: seq<Step>, n: nat): set<string>
    requires n <= |order|
  {
    set k | 0 <= k < n && order[k].mode == Async :: order[k].id
  }

  /** The invariant of the loop of lines 499-512 after `n` steps. */
  ghost predicate Collected(order: seq<Step>, deps: Deps, rc: map<string, Collection>, n: nat)
    requires n <= |order|
  {
    && rc.Keys == AsyncIds(order, n)
    && forall k {:trigger LastAsyncBefore(order, k, n)} ::
         0 <= k < n && LastAsyncBefore(order, k, n) ==> rc[order[k].id] == Collect(order, deps, k)
  }

  lemma AsyncIdsStep(order: seq<Step>, n: nat)
    requires n < |order|
    ensures AsyncIds(order, n + 1) == AsyncIds(order, n) + (if order[n].mode == Async then {order[n].id} else {})
  {
  }

  /** An asynchronous step writes its entry over any earlier one. */
  lemma CollectAsync(order: seq<Step>, deps: Deps, rc: map<string, Collection>, n: nat)
    requires n < |order| && Collected(order, deps, rc, n) && order[n].mode == Async
    ensures Collected(order, deps, rc[order[n].id := Collect(order, deps, n)], n + 1)
  {
    AsyncIdsStep(order, n);
    var rc' := rc[order[n].id := Collect(order, deps, n)];
    forall k | 0 <= k < n + 1 && LastAsyncBefore(order, k, n + 1)
      ensures rc'[order[k].id] == Collect(order, deps, k)
    {
      if k < n {
        assert LastAsyncBefore(order, k, n);
        assert order[k].id != order[n].id;
      }
    }
  }

  /** A synchronous step writes nothing. */
  lemma CollectSync(order: seq<Step>, deps: Deps, rc: map<string, Collection>, n: nat)
    requires n < |order| && Collected(order, deps, rc, n) && order[n].mode != Async
    ensures Collected(order, deps, rc, n + 1)
  {
    AsyncIdsStep(order, n);
    forall k | 0 <= k < n + 1 && LastAsyncBefore(order, k, n + 1)
      ensures rc[order[k].id] == Collect(order, deps, k)
    {
      assert LastAsyncBefore(order, k, n);
    }
  }

  /** Lines 501-507: the index of the first later step that reads the
      result, if any. */
  method NeededAt(order: seq<Step>, deps: Deps, i: nat) returns (neededAt: Option<nat>)
    requires i < |order|
    ensures neededAt == FirstReader(order, deps, i, i + 1)
  {
    neededAt := None;
    var j := i + 1;
    while j < |order| && neededAt.None?
      invariant i + 1 <= j <= |order|
      invariant neededAt.None? ==> FirstReader(order, deps, i, i + 1) == FirstReader(order, deps, i, j)
      invariant neededAt.Some? ==> neededAt == FirstReader(order, deps, i, i + 1)
    {
      if order[i].id in DepsOf(deps, order[j].id) {
        neededAt := Some(j);
      }
      j := j + 1;
    }
  }

  /** Lines 499-512: one entry per asynchronous function, keyed by its id;
      a function with several asynchronous steps keeps its last one's. */
  method ResultCollection(order: seq<Step>, deps: Deps) returns (rc: map<string, Collection>)
    ensures rc.Keys == set i | 0 <= i < |order| && order[i].mode == Async :: order[i].id
    ensures forall i {:trigger LastAsyncBefore(order, i, |order|)} ::
              0 <= i < |order| && LastAsyncBefore(order, i, |order|) ==> rc[order[i].id] == Collect(order, deps, i)
  {
    rc := map[];
    for n := 0 to |order|
      invariant Collected(order, deps, rc, n)
    {
      if order[n].mode == Async {
        CollectAsync(order, deps, rc, n);
        var neededAt := NeededAt(order, deps, n);
        var collectBefore := if neededAt.None? then |order| else neededAt.value;
        rc := rc[order[n].id := Collection(neededAt, collectBefore)];
      } else {
        CollectSync(order, deps, rc, n);
      }
    }
  }

  /** The plan `_create_async_execution_plan` returns. */
  datatype Plan = Plan(syncFunctions: seq<string>, asyncFunctions: seq<string>,
                       executionOrder: seq<Step>, resultCollection: map<string, Collection>)

  /** Lines 397-514 without a performance model. */
  method CreateAsyncExecutionPlan(chain: seq<string>, asyncCandidates: seq<string>, critical: seq<string>, deps: Deps)
    returns (plan: Plan)
    ensures plan.syncFunctions == critical && plan.asyncFunctions == asyncCandidates
    ensures Ids(plan.executionOrder) == chain
    ensures WellFormed(critical, deps, plan.executionOrder) && AfterItsWaits(plan.executionOrder)
    ensures WaitsForEarlier(deps, plan.executionOrder)
    ensures SyncIds(plan.executionOrder) == OnPath(chain, critical)
    ensures var order := plan.executionOrder;
      && plan.resultCollection.Keys == (set i | 0 <= i < |order| && order[i].mode == Async :: order[i].id)
      && forall i {:trigger LastAsyncBefore(order, i, |order|)} ::
           0 <= i < |order| && LastAsyncBefore(order, i, |order|) ==>
             plan.resultCollection[order[i].id] == Collect(order, deps, i)
  {
    var order := ExecutionOrder(chain, critical, deps);
    var rc := ResultCollection(order, deps);
    plan := Plan(critical, asyncCandidates, order, rc);
  }

  // ---------------------------------------------------------------------
  // Execution statistics (lines 292-306)

  /** An entry of `execution_stats`: under a fusion id, the durations per
      function; under a function id, the running mean. Both kinds share the
      one dict. */
  datatype StatEntry = Runs(perFunction: map<string, seq<real>>) | Mean(value: real)

  /** The durations recorded for `fn` under `fusion`. */
  function Recorded(stats: map<string, StatEntry>, fusion: string, fn: string): seq<real>
  {
    if fusion in stats && stats[fusion].Runs? && fn in stats[fusion].perFunction
    then stats[fusion].perFunction[fn] else []
  }

  class ExecutionStats {
    var stats: map<string, StatEntry>

    constructor()
      ensures stats == map[]
    {
      stats := map[];
    }

    /** Lines 292-306: appends the duration to the function's list under the
        fusion and stores that list's mean under the function id. When the
        fusion id holds a mean already, the membership test of line 299
        raises TypeError (`ok` false) before anything changes. */
    method TrackExecution(fusion: string, fn: string, duration: real) returns (ok: bool)
      modifies this
      ensures ok <==> !(fusion in old(stats) && old(stats)[fusion].Mean?)
      ensures !ok ==> stats == old(stats)
      ensures ok ==> stats.Keys == old(stats).Keys + {fusion, fn}
      ensures ok ==> stats[fn] == Mean(Average(Recorded(old(stats), fusion, fn) + [duration]))
      ensures ok && fusion != fn ==>
                stats[fusion].Runs? &&
                stats[fusion].perFunction.Keys == (if fusion in old(stats) then old(stats)[fusion].perFunction.Keys else {}) + {fn} &&
                Recorded(stats, fusion, fn) == Recorded(old(stats), fusion, fn) + [duration]
      ensures ok && fusion != fn ==>
                forall g :: g != fn ==> Recorded(stats, fusion, g) == Recorded(old(stats), fusion, g)
      ensures ok ==> forall k :: k in old(stats) && k != fusion && k != fn ==> stats[k] == old(stats)[k]
    {
      if fusion !in stats {
        stats := stats[fusion := Runs(map[])];
      }
      if stats[fusion].Mean? {
        return false;
      }
      var runs := stats[fusion].perFunction;
      if fn !in runs {
        runs := runs[fn := []];
      }
      var list := runs[fn] + [duration];
      stats := stats[fusion := Runs(runs[fn := list])];
      stats := stats[fn := Mean(Average(list))];
      ok := true;
    }
  }
}
