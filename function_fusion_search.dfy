/** The local-search step of the function fusion optimiser,
    `iterate_on_lowest_latency`: functions that call each other synchronously
    are merged into sync sets, then the best setup measured so far is perturbed
    one function at a time until a setup that has not been measured turns up. */
module FunctionFusionSearch {
  import opened Wrappers
  import opened Strs
  import opened FunctionFusionOptimizer

  /** The names `fn.split("-")[2]` takes from the log groups "Function- -A" to
      "Function- -G". */
  const FunctionNames: set<string> := {"A", "B", "C", "D", "E", "F", "G"}

  // ---------------------------------------------------------------------------
  // Sync sets
  // ---------------------------------------------------------------------------

  /** The sync sets partition `names`: non-empty, pairwise disjoint blocks that
      together cover every name. */
  ghost predicate IsPartition(sync: set<set<string>>, names: set<string>)
  {
    {} !in sync &&
    (forall s :: s in sync ==> s <= names) &&
    (forall x :: x in names ==> exists s :: s in sync && x in s) &&
    (forall s1, s2, x :: s1 in sync && s2 in sync && x in s1 && x in s2 ==> s1 == s2)
  }

  /** Every sync set holding a holds b as well: within a partition that covers
      a, the two share a set. */
  ghost predicate Together(sync: set<set<string>>, a: string, b: string)
  {
    forall s :: s in sync && a in s ==> b in s
  }

  /** Every set of `coarse` that meets a set of `fine` contains all of it. */
  ghost predicate Coarser(fine: set<set<string>>, coarse: set<set<string>>)
  {
    forall s, c, x :: s in fine && c in coarse && x in s && x in c ==> s <= c
  }

  lemma CoarserRefl(sync: set<set<string>>, names: set<string>)
    requires IsPartition(sync, names)
    ensures Coarser(sync, sync)
  {
  }

  lemma CoarserTrans(a: set<set<string>>, b: set<set<string>>, c: set<set<string>>, names: set<string>)
    requires IsPartition(a, names) && IsPartition(b, names)
    requires Coarser(a, b) && Coarser(b, c)
    ensures Coarser(a, c)
  {
    forall s, z, x | s in a && z in c && x in s && x in z ensures s <= z {
      assert x in names;
      var y :| y in b && x in y;
      assert s <= y;
      assert y <= z;
    }
  }

  /** Names that share a set keep sharing one in a coarser partition. */
  lemma TogetherCoarser(fine: set<set<string>>, coarse: set<set<string>>, names: set<string>, a: string, b: string)
    requires IsPartition(fine, names) && a in names
    requires Coarser(fine, coarse) && Together(fine, a, b)
    ensures Together(coarse, a, b)
  {
    var s :| s in fine && a in s;
    forall c | c in coarse && a in c ensures b in c {
      assert s <= c;
    }
  }

  /** The starting point: every function in a set of its own. */
  lemma SingletonsPartition(names: set<string>)
    ensures IsPartition(set x | x in names :: {x}, names)
  {
    var sync := set x | x in names :: {x};
    forall x | x in names ensures exists s :: s in sync && x in s {
      assert {x} in sync;
    }
  }

  /** `sync_calls.remove(f); sync_calls.remove(g); sync_calls.add(f | g)` */
  function Merge(sync: set<set<string>>, f: set<string>, g: set<string>): set<set<string>>
  {
    sync - {f, g} + {f + g}
  }

  /** Merging two different blocks keeps a partition and only coarsens it. */
  lemma MergeKeepsPartition(sync: set<set<string>>, names: set<string>, f: set<string>, g: set<string>)
    requires IsPartition(sync, names) && f in sync && g in sync && f != g
    ensures IsPartition(Merge(sync, f, g), names)
    ensures Coarser(sync, Merge(sync, f, g))
    ensures f + g in Merge(sync, f, g)
  {
    var m := Merge(sync, f, g);
    forall x | x in names ensures exists s :: s in m && x in s {
      var s :| s in sync && x in s;
      if s == f || s == g {
        assert x in f + g;
      } else {
        assert s in m;
      }
    }
    forall s1, s2, x | s1 in m && s2 in m && x in s1 && x in s2 ensures s1 == s2 {
      if s1 != f + g && s2 != f + g {
        assert s1 in sync && s2 in sync;
      }
    }
    forall s, c, x | s in sync && c in m && x in s && x in c ensures s <= c {
      if c != f + g {
        assert c in sync;
      }
    }
  }

  /** `[call["called"] for call in invocation.get("calls", []) if call.get("sync", False) == True]` */
  function SyncCalled(calls: seq<Call>): (r: seq<string>)
    ensures forall c :: c in calls && c.sync ==> c.called in r
    ensures forall x :: x in r ==> Call(x, true) in calls
  {
    if calls == [] then []
    else
      assert calls == [calls[0]] + calls[1..];
      (if calls[0].sync then [calls[0].called] else []) + SyncCalled(calls[1..])
  }

  /** Every two known functions of the list share a sync set. */
  ghost predicate MergedFor(sync: set<set<string>>, names: set<string>, called: seq<string>)
  {
    forall i, j :: 0 <= i < j < |called| && called[i] in names && called[j] in names ==>
      Together(sync, called[i], called[j])
  }

  lemma MergedForCoarser(fine: set<set<string>>, coarse: set<set<string>>, names: set<string>, called: seq<string>)
    requires IsPartition(fine, names)
    requires Coarser(fine, coarse) && MergedFor(fine, names, called)
    ensures MergedFor(coarse, names, called)
  {
    forall i, j | 0 <= i < j < |called| && called[i] in names && called[j] in names
      ensures Together(coarse, called[i], called[j])
    {
      TogetherCoarser(fine, coarse, names, called[i], called[j]);
    }
  }

  /** `for s in sync_calls: if x in s: found = s`, over the set in whatever
      order it iterates. The sync sets are disjoint, so keeping the last match
      (lines 100-104) and breaking at the first (lines 129-132) agree. */
  method FindBlock(sync: set<set<string>>, x: string) returns (found: Option<set<string>>)
    ensures found.Some? ==> found.value in sync && x in found.value
    ensures found.None? ==> forall s :: s in sync ==> x !in s
  {
    found := None;
    var rest := sync;
    while rest != {}
      invariant rest <= sync
      invariant found.Some? ==> found.value in sync && x in found.value
      invariant found.None? ==> forall s :: s in sync && s !in rest ==> x !in s
      decreases |rest|
    {
      var s :| s in rest;
      if x in s {
        found := Some(s);
      }
      rest := rest - {s};
    }
  }

  /** The pair loop for one invocation: each pair of synchronously called
      functions whose sets differ has its two sets merged. */
  method MergeSyncPairs(sync0: set<set<string>>, names: set<string>, calls: seq<Call>) returns (sync: set<set<string>>)
    requires IsPartition(sync0, names)
    ensures IsPartition(sync, names) && Coarser(sync0, sync)
    ensures MergedFor(sync, names, SyncCalled(calls))
  {
    var called := SyncCalled(calls);
    var ps := Pairs(called);
    sync := sync0;
    var q := 0;
    while q < |ps|
      invariant q <= |ps|
      invariant IsPartition(sync, names) && Coarser(sync0, sync)
      invariant forall p :: 0 <= p < q && ps[p].0 in names && ps[p].1 in names ==>
                  Together(sync, ps[p].0, ps[p].1)
    {
      var (a, b) := ps[q];
      var first := FindBlock(sync, a);
      var second := FindBlock(sync, b);
      if first.Some? && second.Some? && first.value != second.value && b !in first.value {
        var prev := sync;
        sync := Merge(sync, first.value, second.value);
        MergeKeepsPartition(prev, names, first.value, second.value);
        CoarserTrans(sync0, prev, sync, names);
        forall p | 0 <= p < q && ps[p].0 in names && ps[p].1 in names
          ensures Together(sync, ps[p].0, ps[p].1)
        {
          TogetherCoarser(prev, sync, names, ps[p].0, ps[p].1);
        }
      }
      q := q + 1;
    }
    PairsUpToComplete(called, |called|);
    forall i, j | 0 <= i < j < |called| && called[i] in names && called[j] in names
      ensures Together(sync, called[i], called[j])
    {
      var p :| 0 <= p < |ps| && ps[p] == (called[i], called[j]);
    }
  }

  /** Every invocation's synchronously called functions share sets. */
  ghost predicate MergedAll(sync: set<set<string>>, names: set<string>, invocations: seq<Invocation>)
  {
    forall inv :: inv in invocations ==> MergedFor(sync, names, SyncCalled(inv.calls))
  }

  lemma MergedAllCoarser(fine: set<set<string>>, coarse: set<set<string>>, names: set<string>, invocations: seq<Invocation>)
    requires IsPartition(fine, names)
    requires Coarser(fine, coarse) && MergedAll(fine, names, invocations)
    ensures MergedAll(coarse, names, invocations)
  {
    forall inv | inv in invocations ensures MergedFor(coarse, names, SyncCalled(inv.calls)) {
      MergedForCoarser(fine, coarse, names, SyncCalled(inv.calls));
    }
  }

  lemma MergedAllAppend(sync: set<set<string>>, names: set<string>, invocations: seq<Invocation>, inv: Invocation)
    requires MergedAll(sync, names, invocations) && MergedFor(sync, names, SyncCalled(inv.calls))
    ensures MergedAll(sync, names, invocations + [inv])
  {
    forall i | i in invocations + [inv] ensures MergedFor(sync, names, SyncCalled(i.calls)) {
      if i != inv {
        assert i in invocations;
      }
    }
  }

  /** The invocation loop for one measured setup. */
  method MergeInvocations(sync0: set<set<string>>, names: set<string>, invocations: seq<Invocation>) returns (sync: set<set<string>>)
    requires IsPartition(sync0, names)
    ensures IsPartition(sync, names) && Coarser(sync0, sync)
    ensures MergedAll(sync, names, invocations)
  {
    sync := sync0;
    CoarserRefl(sync0, names);
    var n := 0;
    while n < |invocations|
      invariant n <= |invocations|
      invariant IsPartition(sync, names) && Coarser(sync0, sync)
      invariant MergedAll(sync, names, invocations[..n])
    {
      var prev := sync;
      sync := MergeSyncPairs(sync, names, invocations[n].calls);
      CoarserTrans(sync0, prev, sync, names);
      MergedAllCoarser(prev, sync, names, invocations[..n]);
      assert invocations[..n + 1] == invocations[..n] + [invocations[n]];
      MergedAllAppend(sync, names, invocations[..n], invocations[n]);
      n := n + 1;
    }
    assert invocations[..n] == invocations;
  }

  /** The loop over the measured setups, in key order. */
  method MergeSetups(t: Tested, sync0: set<set<string>>, names: set<string>) returns (sync: set<set<string>>)
    requires WellFormed(t) && IsPartition(sync0, names)
    ensures IsPartition(sync, names)
    ensures forall key, inv :: key in t.runs && inv in t.runs[key] ==> MergedFor(sync, names, SyncCalled(inv.calls))
  {
    sync := sync0;
    var k := 0;
    while k < |t.order|
      invariant k <= |t.order|
      invariant IsPartition(sync, names)
      invariant MergedUpTo(sync, names, t, k)
    {
      ghost var before := sync;
      sync := MergeInvocations(sync, names, t.runs[t.order[k]]);
      MergedUpToStep(before, sync, names, t, k);
      k := k + 1;
    }
    MergedEveryKey(sync, names, t);
  }

  /** The setups at the first k positions of the key order are merged. */
  ghost predicate MergedUpTo(sync: set<set<string>>, names: set<string>, t: Tested, k: nat)
    requires WellFormed(t) && k <= |t.order|
  {
    forall k' :: 0 <= k' < k ==> MergedAll(sync, names, t.runs[t.order[k']])
  }

  lemma MergedUpToStep(before: set<set<string>>, sync: set<set<string>>, names: set<string>, t: Tested, k: nat)
    requires WellFormed(t) && k < |t.order|
    requires IsPartition(before, names) && Coarser(before, sync)
    requires MergedUpTo(before, names, t, k)
    requires MergedAll(sync, names, t.runs[t.order[k]])
    ensures MergedUpTo(sync, names, t, k + 1)
  {
    forall k' | 0 <= k' < k ensures MergedAll(sync, names, t.runs[t.order[k']]) {
      MergedAllCoarser(before, sync, names, t.runs[t.order[k']]);
    }
  }

  lemma MergedEveryKey(sync: set<set<string>>, names: set<string>, t: Tested)
    requires WellFormed(t) && MergedUpTo(sync, names, t, |t.order|)
    ensures forall key, inv :: key in t.runs && inv in t.runs[key] ==> MergedFor(sync, names, SyncCalled(inv.calls))
  {
    forall key, inv | key in t.runs && inv in t.runs[key] ensures MergedFor(sync, names, SyncCalled(inv.calls)) {
      assert key in set i | 0 <= i < |t.order| :: t.order[i];
      var k' :| 0 <= k' < |t.order| && t.order[k'] == key;
      assert MergedAll(sync, names, t.runs[t.order[k']]);
    }
  }

  /** Lines 77-112: start from singletons and merge the sets of every two
      functions one invocation calls synchronously. The result partitions the
      function names, and any two known functions called synchronously by the
      same invocation of any measured setup share a set. */
  method SyncSets(t: Tested) returns (sync: set<set<string>>)
    requires WellFormed(t)
    ensures IsPartition(sync, FunctionNames)
    ensures forall key, inv :: key in t.runs && inv in t.runs[key] ==> MergedFor(sync, FunctionNames, SyncCalled(inv.calls))
  {
    sync := set x | x in FunctionNames :: {x};
    SingletonsPartition(FunctionNames);
    sync := MergeSetups(t, sync, FunctionNames);
  }

  // ---------------------------------------------------------------------------
  // Perturbing the best setup
  // ---------------------------------------------------------------------------

  /** The exceptions the search can end in: an IndexError the source raises,
      or the model's bound on the number of groups visited. */
  datatype SearchError = IndexError | OutOfFuel

  /** `[item for item in group if item != x]` */
  function Without(group: seq<string>, x: string): (r: seq<string>)
    ensures forall y :: y in r <==> y in group && y != x
    ensures |r| <= |group|
    ensures x !in group ==> r == group
  {
    if group == [] then []
    else
      assert group == [group[0]] + group[1..];
      (if group[0] == x then [] else [group[0]]) + Without(group[1..], x)
  }

  /** Removing a name keeps a group free of repeats. */
  lemma {:induction false} WithoutNoRepeats(group: seq<string>, x: string)
    requires NoRepeats(group)
    ensures NoRepeats(Without(group, x))
  {
    if group != [] {
      var h, t := group[0], group[1..];
      assert group == [h] + t;
      NoRepeatsCons(h, t);
      WithoutNoRepeats(t, x);
      WithoutCons(h, t, x);
      if h != x {
        ConsNoRepeats(h, Without(t, x));
      }
    }
  }

  /** A list without repeats is its head before a tail that lacks it and has
      no repeats itself. */
  lemma NoRepeatsCons(h: string, t: seq<string>)
    requires NoRepeats([h] + t)
    ensures h !in t && NoRepeats(t)
  {
    var g := [h] + t;
    forall k | 0 <= k < |t| ensures t[k] != h {
      assert g[0] == h && g[k + 1] == t[k];
    }
    forall p, q | 0 <= p < q < |t| ensures t[p] != t[q] {
      assert g[p + 1] == t[p] && g[q + 1] == t[q];
    }
  }

  lemma ConsNoRepeats(h: string, t: seq<string>)
    requires h !in t && NoRepeats(t)
    ensures NoRepeats([h] + t)
  {
    var g := [h] + t;
    forall p, q | 0 <= p < q < |g| ensures g[p] != g[q] {
      assert g[q] == t[q - 1];
      if p > 0 { assert g[p] == t[p - 1]; }
    }
  }

  /** `next((i for i, g in enumerate(setup) if x in g), -1)`: the first group
      holding x, if any. */
  function FirstGroupWith(setup: Setup, x: string): (r: Option<nat>)
    ensures r.Some? ==> r.value < |setup| && x in setup[r.value] &&
                        forall j :: 0 <= j < r.value ==> x !in setup[j]
    ensures r.None? ==> forall j :: 0 <= j < |setup| ==> x !in setup[j]
  {
    if setup == [] then None
    else if x in setup[0] then Some(0)
    else match FirstGroupWith(setup[1..], x)
      case None => None
      case Some(j) => Some(j + 1)
  }

  /** All names of a setup. */
  ghost function Names(setup: Setup): set<string>
  {
    if setup == [] then {} else (set y | y in setup[0]) + Names(setup[1..])
  }

  lemma {:induction false} NamesIndex(setup: Setup, y: string)
    ensures y in Names(setup) <==> exists i :: 0 <= i < |setup| && y in setup[i]
  {
    if setup != [] {
      NamesIndex(setup[1..], y);
      if y in Names(setup[1..]) {
        var i :| 0 <= i < |setup[1..]| && y in setup[1..][i];
        assert y in setup[i + 1];
      }
      if exists i :: 0 <= i < |setup| && y in setup[i] {
        var i :| 0 <= i < |setup| && y in setup[i];
        if i > 0 { assert y in setup[1..][i - 1]; }
      }
    }
  }

  predicate Within(group: seq<string>, allowed: set<string>)
  {
    forall y :: y in group ==> y in allowed
  }

  predicate AllWithin(setup: Setup, allowed: set<string>)
  {
    forall i :: 0 <= i < |setup| ==> Within(setup[i], allowed)
  }

  lemma AllWithinNames(setup: Setup)
    ensures AllWithin(setup, Names(setup))
  {
    forall i, y | 0 <= i < |setup| && y in setup[i] ensures y in Names(setup) {
      NamesIndex(setup, y);
    }
  }

  /** No name occurs twice in the setup: the groups are pairwise disjoint and
      none repeats a member. */
  ghost predicate Distinct(setup: Setup)
  {
    (forall i, j, y :: 0 <= i < j < |setup| && y in setup[i] ==> y !in setup[j]) &&
    (forall i :: 0 <= i < |setup| ==> NoRepeats(setup[i]))
  }

  /** Lines 146-147: the group at idx becomes `from` without x, and x gets a
      group of its own at the end. The source passes `fktn_group`, the group
      it looked up before the loop, as `from`. */
  function SplitOff(setup: Setup, idx: nat, from: seq<string>, x: string): (r: Setup)
    requires idx < |setup|
    ensures |r| == |setup| + 1
  {
    setup[idx := Without(from, x)] + [[x]]
  }

  /** Split off from the current group at idx, a setup without repeated names
      keeps its names and stays without repeats. */
  lemma SplitOffCurrentGroup(setup: Setup, idx: nat, x: string)
    requires Distinct(setup) && idx < |setup| && x in setup[idx]
    ensures Distinct(SplitOff(setup, idx, setup[idx], x))
    ensures Names(SplitOff(setup, idx, setup[idx], x)) == Names(setup)
  {
    SplitOffDistinct(setup, idx, x);
    SplitOffNames(setup, idx, x);
  }

  lemma SplitOffDistinct(setup: Setup, idx: nat, x: string)
    requires Distinct(setup) && idx < |setup| && x in setup[idx]
    ensures Distinct(SplitOff(setup, idx, setup[idx], x))
  {
    var r := SplitOff(setup, idx, setup[idx], x);
    WithoutNoRepeats(setup[idx], x);
    forall i, j, y | 0 <= i < j < |r| && y in r[i] ensures y !in r[j] {
      if j == |setup| {
        if i != idx { assert r[i] == setup[i]; }
      } else if i == idx {
        assert y in setup[idx] && r[j] == setup[j];
      } else if j == idx {
        assert r[i] == setup[i];
      } else {
        assert r[i] == setup[i] && r[j] == setup[j];
      }
    }
    forall i | 0 <= i < |r| ensures NoRepeats(r[i]) {
      if i == idx {
        assert r[i] == Without(setup[idx], x);
      } else if i < |setup| {
        assert r[i] == setup[i];
      }
    }
  }

  lemma SplitOffNames(setup: Setup, idx: nat, x: string)
    requires idx < |setup| && x in setup[idx]
    ensures Names(SplitOff(setup, idx, setup[idx], x)) == Names(setup)
  {
    var r := SplitOff(setup, idx, setup[idx], x);
    forall y ensures y in Names(r) <==> y in Names(setup) {
      NamesIndex(r, y);
      NamesIndex(setup, y);
      if y in Names(setup) {
        var i :| 0 <= i < |setup| && y in setup[i];
        if i == idx && y == x {
          assert y in r[|setup|];
        } else {
          assert y in r[i];
        }
      }
      if y in Names(r) {
        var i :| 0 <= i < |r| && y in r[i];
        if i == |setup| {
          assert y in setup[idx];
        } else {
          assert y in setup[i];
        }
      }
    }
  }

  /** With the stale group: from [[A, B, C]] with no synchronous calls, B and
      then C are split off, and the second split puts B back into the first
      group, so B ends up in two groups. */
  lemma StaleGroupCounterexample()
    ensures var g := ["A", "B", "C"];
            SplitOff(SplitOff([g], 0, g, "B"), 0, g, "C") == [["A", "B"], ["B"], ["C"]]
    ensures Distinct([["A", "B", "C"]]) && !Distinct([["A", "B"], ["B"], ["C"]])
  {
    var g := ["A", "B", "C"];
    StaleSecondSplit(g, "B", "C");
    WithoutExamples();
    DistinctExamples();
  }

  /** Two splits that both start from the stale group g: the second one
      rebuilds the first group from g, so the name split off first is back. */
  lemma StaleSecondSplit(g: seq<string>, b: string, c: string)
    ensures SplitOff(SplitOff([g], 0, g, b), 0, g, c) == [Without(g, c), [b], [c]]
  {
    var once := SplitOff([g], 0, g, b);
    assert once == [Without(g, b), [b]];
    assert SplitOff(once, 0, g, c) == [Without(g, c), [b], [c]];
  }

  lemma DistinctExamples()
    ensures Distinct([["A", "B", "C"]]) && !Distinct([["A", "B"], ["B"], ["C"]])
  {
    WithoutExamples();
    SingleGroupDistinct(["A", "B", "C"]);
    SharedNameNotDistinct([["A", "B"], ["B"], ["C"]], "B");
  }

  /** One group without repeats is a distinct setup. */
  lemma SingleGroupDistinct(g: seq<string>)
    requires NoRepeats(g)
    ensures Distinct([g])
  {
  }

  /** A name in both of the first two groups breaks distinctness. */
  lemma SharedNameNotDistinct(setup: Setup, y: string)
    requires |setup| >= 2 && y in setup[0] && y in setup[1]
    ensures !Distinct(setup)
  {
  }

  /** Splitting from the current group instead gives [[A], [B], [C]]. */
  lemma CurrentGroupExample()
    ensures var g := ["A", "B", "C"];
            var once := SplitOff([g], 0, g, "B");
            SplitOff(once, 0, once[0], "C") == [["A"], ["B"], ["C"]]
  {
    CurrentSecondSplit(["A", "B", "C"], "B", "C");
    WithoutExamples();
  }

  /** Two splits where the second starts from the group as the first left it. */
  lemma CurrentSecondSplit(g: seq<string>, b: string, c: string)
    ensures var once := SplitOff([g], 0, g, b);
            SplitOff(once, 0, once[0], c) == [Without(Without(g, b), c), [b], [c]]
  {
    var once := SplitOff([g], 0, g, b);
    assert once == [Without(g, b), [b]];
  }

  lemma WithoutExamples()
    ensures Without(["A", "B", "C"], "B") == ["A", "C"]
    ensures Without(["A", "B", "C"], "C") == ["A", "B"]
    ensures Without(["A", "C"], "C") == ["A"]
    ensures NoRepeats(["A", "B", "C"])
  {
    assert "A" != "B" && "A" != "C" && "B" != "C" by {
      assert "A"[0] != "B"[0] && "A"[0] != "C"[0] && "B"[0] != "C"[0];
    }
    WithoutThree("A", "B", "C");
  }

  /** `Without` on a list of three distinct names. */
  lemma WithoutThree(a: string, b: string, c: string)
    requires a != b && a != c && b != c
    ensures Without([a, b, c], b) == [a, c]
    ensures Without([a, b, c], c) == [a, b]
    ensures Without([a, c], c) == [a]
    ensures NoRepeats([a, b, c])
  {
    WithoutLast(a, b, c);
    WithoutMiddle(a, b, c);
    WithoutTwo(a, c);
  }

  lemma WithoutMiddle(a: string, b: string, c: string)
    requires a != b && b != c
    ensures Without([a, b, c], b) == [a, c]
  {
    WithoutTwo(b, c);
    WithoutCons(a, [b, c], b);
    assert [a, b, c] == [a] + [b, c];
  }

  lemma WithoutLast(a: string, b: string, c: string)
    requires a != c && b != c
    ensures Without([a, b, c], c) == [a, b]
  {
    WithoutTwo(b, c);
    WithoutCons(a, [b, c], c);
    assert [a, b, c] == [a] + [b, c];
  }

  /** Removing the second of two distinct names, or the first. */
  lemma WithoutTwo(a: string, c: string)
    requires a != c
    ensures Without([a, c], c) == [a]
    ensures Without([a, c], a) == [c]
  {
    WithoutCons(c, [], c);
    WithoutCons(c, [], a);
    WithoutCons(a, [c], c);
    WithoutCons(a, [c], a);
    assert [a, c] == [a] + [c] && [c] == [c] + [];
  }

  lemma WithoutCons(h: string, t: seq<string>, x: string)
    ensures Without([h] + t, x) == (if h == x then [] else [h]) + Without(t, x)
  {
    assert ([h] + t)[0] == h && ([h] + t)[1..] == t;
  }

  /** Names stay allowed under a larger set of allowed names. */
  lemma AllWithinMono(setup: Setup, small: set<string>, large: set<string>)
    requires AllWithin(setup, small) && small <= large
    ensures AllWithin(setup, large)
  {
  }

  lemma SplitOffWithin(setup: Setup, idx: nat, from: seq<string>, x: string, allowed: set<string>)
    requires idx < |setup| && AllWithin(setup, allowed) && Within(from, allowed) && x in allowed
    ensures AllWithin(SplitOff(setup, idx, from, x), allowed)
  {
    var r := SplitOff(setup, idx, from, x);
    forall i | 0 <= i < |r| ensures Within(r[i], allowed) {
      if i < |setup| && i != idx { assert r[i] == setup[i]; }
    }
  }

  lemma AppendToGroupWithin(setup: Setup, i: nat, y: string, allowed: set<string>)
    requires i < |setup| && AllWithin(setup, allowed) && y in allowed
    ensures AllWithin(setup[i := setup[i] + [y]], allowed)
  {
    var r := setup[i := setup[i] + [y]];
    forall j | 0 <= j < |r| ensures Within(r[j], allowed) {
      if j != i { assert r[j] == setup[j]; }
    }
  }

  lemma AddGroupWithin(setup: Setup, y: string, allowed: set<string>)
    requires AllWithin(setup, allowed) && y in allowed
    ensures AllWithin(setup + [[y]], allowed)
  {
    var r := setup + [[y]];
    forall j | 0 <= j < |r| ensures Within(r[j], allowed) {
      if j < |setup| { assert r[j] == setup[j]; }
    }
  }

  // ---------------------------------------------------------------------------
  // Removing a name before it moves (lines 173-182 and 216-223)
  // ---------------------------------------------------------------------------

  /** The first group that removing y would leave empty, if any. */
  function FirstEmptied(setup: Setup, y: string): (r: Option<nat>)
    ensures r.Some? ==> r.value < |setup| && Without(setup[r.value], y) == [] &&
                        forall j :: 0 <= j < r.value ==> Without(setup[j], y) != []
    ensures r.None? ==> forall j :: 0 <= j < |setup| ==> Without(setup[j], y) != []
  {
    if setup == [] then None
    else if Without(setup[0], y) == [] then Some(0)
    else match FirstEmptied(setup[1..], y)
      case None => None
      case Some(j) => Some(j + 1)
  }

  /** Lines 173-182: each group in turn loses y; the first group that is left
      empty is popped and the removal stops there. */
  function DropUntilEmptied(setup: Setup, y: string): Setup
  {
    if setup == [] then []
    else
      var w := Without(setup[0], y);
      if w == [] then setup[1..]
      else [w] + DropUntilEmptied(setup[1..], y)
  }

  /** If no group empties, y is gone from every group; otherwise exactly the
      first group holding y alone has disappeared, the groups before it have
      lost y and the groups after it are untouched. */
  lemma {:induction false} DropUntilEmptiedShape(setup: Setup, y: string)
    ensures var r := DropUntilEmptied(setup, y);
            FirstEmptied(setup, y).None? ==>
              |r| == |setup| && forall i :: 0 <= i < |r| ==> r[i] == Without(setup[i], y)
    ensures var r := DropUntilEmptied(setup, y);
            FirstEmptied(setup, y).Some? ==>
              var k := FirstEmptied(setup, y).value;
              |r| == |setup| - 1 && r[k..] == setup[k + 1..] &&
              forall i :: 0 <= i < k ==> r[i] == Without(setup[i], y)
  {
    if FirstEmptied(setup, y).None? {
      DropNoneShape(setup, y);
    } else {
      DropSomeShape(setup, y);
    }
  }

  lemma {:induction false} DropNoneShape(setup: Setup, y: string)
    requires FirstEmptied(setup, y).None?
    ensures var r := DropUntilEmptied(setup, y);
            |r| == |setup| && forall i :: 0 <= i < |r| ==> r[i] == Without(setup[i], y)
  {
    if setup != [] {
      var tail := setup[1..];
      DropNoneShape(tail, y);
      var r := DropUntilEmptied(setup, y);
      assert r == [Without(setup[0], y)] + DropUntilEmptied(tail, y);
      forall i | 1 <= i < |r| ensures r[i] == Without(setup[i], y) {
        assert tail[i - 1] == setup[i];
      }
    }
  }

  lemma {:induction false} DropSomeShape(setup: Setup, y: string)
    requires FirstEmptied(setup, y).Some?
    ensures var r := DropUntilEmptied(setup, y);
            var k := FirstEmptied(setup, y).value;
            |r| == |setup| - 1 && r[k..] == setup[k + 1..] &&
            forall i :: 0 <= i < k ==> r[i] == Without(setup[i], y)
  {
    var w := Without(setup[0], y);
    if w != [] {
      var tail := setup[1..];
      DropSomeShape(tail, y);
      var j := FirstEmptied(tail, y).value;
      assert FirstEmptied(setup, y).value == j + 1;
      assert DropUntilEmptied(setup, y) == [w] + DropUntilEmptied(tail, y);
      ConsShape(setup, tail, y, w, DropUntilEmptied(tail, y), j);
    }
  }

  /** One step of DropSomeShape: putting the first group, without y, in
      front of the shape of the rest. */
  lemma ConsShape(setup: Setup, tail: Setup, y: string, w: seq<string>, rt: Setup, j: nat)
    requires setup != [] && tail == setup[1..] && w == Without(setup[0], y)
    requires |rt| == |tail| - 1 && j <= |rt| && rt[j..] == tail[j + 1..]
    requires forall i :: 0 <= i < j ==> rt[i] == Without(tail[i], y)
    ensures var r := [w] + rt;
            |r| == |setup| - 1 && r[j + 1..] == setup[j + 2..] &&
            forall i :: 0 <= i < j + 1 ==> r[i] == Without(setup[i], y)
  {
    var r := [w] + rt;
    assert r[j + 1..] == rt[j..];
    assert tail[j + 1..] == setup[j + 2..];
    forall i | 1 <= i < j + 1 ensures r[i] == Without(setup[i], y) {
      assert r[i] == rt[i - 1] && tail[i - 1] == setup[i];
    }
  }

  /** The loop of lines 173-182 over the live list. */
  method RemoveUntilEmptied(setup0: Setup, y: string) returns (setup: Setup)
    ensures setup == DropUntilEmptied(setup0, y)
  {
    setup := setup0;
    var k := 0;
    while k < |setup|
      invariant 0 <= k <= |setup| == |setup0|
      invariant setup[k..] == setup0[k..]
      invariant DropUntilEmptied(setup0, y) == setup[..k] + DropUntilEmptied(setup0[k..], y)
    {
      var newGroup := Without(setup[k], y);
      if newGroup == [] {
        DropEmptiedAt(setup0, setup, k, y);
        setup := setup[..k] + setup[k + 1..];
        return;
      }
      DropKeptAt(setup0, setup, k, y);
      setup := setup[k := newGroup];
      k := k + 1;
    }
    assert setup0[k..] == [];
  }

  /** The loop of lines 173-182 stops at a group that y alone fills. */
  lemma DropEmptiedAt(setup0: Setup, setup: Setup, k: nat, y: string)
    requires k < |setup| == |setup0| && setup[k..] == setup0[k..]
    requires DropUntilEmptied(setup0, y) == setup[..k] + DropUntilEmptied(setup0[k..], y)
    requires Without(setup[k], y) == []
    ensures DropUntilEmptied(setup0, y) == setup[..k] + setup[k + 1..]
  {
    var tail := setup0[k..];
    assert tail[0] == setup[k] && tail[1..] == setup[k + 1..];
    DropUnfold(tail, y);
  }

  /** The loop of lines 173-182 moves past a group that keeps a member. */
  lemma DropKeptAt(setup0: Setup, setup: Setup, k: nat, y: string)
    requires k < |setup| == |setup0| && setup[k..] == setup0[k..]
    requires DropUntilEmptied(setup0, y) == setup[..k] + DropUntilEmptied(setup0[k..], y)
    requires Without(setup[k], y) != []
    ensures var next := setup[k := Without(setup[k], y)];
            next[k + 1..] == setup0[k + 1..] &&
            DropUntilEmptied(setup0, y) == next[..k + 1] + DropUntilEmptied(setup0[k + 1..], y)
  {
    var tail := setup0[k..];
    var w := Without(setup[k], y);
    assert tail[0] == setup[k] && tail[1..] == setup0[k + 1..];
    DropUnfold(tail, y);
    var rest := DropUntilEmptied(setup0[k + 1..], y);
    assert DropUntilEmptied(tail, y) == [w] + rest;
    var next := setup[k := w];
    assert next[..k + 1] == setup[..k] + [w];
    assert next[k + 1..] == setup[k + 1..];
    ConcatAssoc(setup[..k], [w], rest);
  }

  lemma ConcatAssoc<T>(a: seq<T>, b: seq<T>, c: seq<T>)
    ensures a + (b + c) == (a + b) + c
  {
  }

  lemma DropUnfold(setup: Setup, y: string)
    requires setup != []
    ensures DropUntilEmptied(setup, y) ==
            if Without(setup[0], y) == [] then setup[1..]
            else [Without(setup[0], y)] + DropUntilEmptied(setup[1..], y)
  {
  }

  lemma {:induction false} DropUntilEmptiedWithin(setup: Setup, y: string, allowed: set<string>)
    requires AllWithin(setup, allowed)
    ensures AllWithin(DropUntilEmptied(setup, y), allowed)
  {
    if setup != [] && Without(setup[0], y) != [] {
      assert AllWithin(setup[1..], allowed) by {
        forall i | 0 <= i < |setup| - 1 ensures Within(setup[1..][i], allowed) {
          assert setup[1..][i] == setup[i + 1];
        }
      }
      DropUntilEmptiedWithin(setup[1..], y, allowed);
    }
  }

  /** Lines 216-223 as written: k runs over the indices of the list as it was
      before the loop, a group left empty is popped (the `k -= 1` has no
      effect on a `range` loop), and reading a group past the end of the
      shortened list raises IndexError. */
  function RemoveFromAllFrom(setup: Setup, y: string, k: nat, n0: nat): (r: Result<Setup, SearchError>)
    ensures r.Err? ==> r.error == IndexError
    decreases n0 - k
  {
    if k >= n0 then Ok(setup)
    else if k >= |setup| then Err(IndexError)
    else
      var w := Without(setup[k], y);
      if w == [] then RemoveFromAllFrom(setup[..k] + setup[k + 1..], y, k + 1, n0)
      else RemoveFromAllFrom(setup[k := w], y, k + 1, n0)
  }

  /** `for k in range(len(current_optimal_setup))` from the start. When it
      completes, y is in no group and no group is empty. */
  function RemoveFromAll(setup: Setup, y: string): (r: Result<Setup, SearchError>)
    ensures r.Ok? ==> forall j :: 0 <= j < |r.value| ==> y !in r.value[j]
    ensures r.Ok? ==> forall j :: 0 <= j < |r.value| ==> r.value[j] != []
  {
    RemoveFromAllFromClears(setup, y, 0);
    RemoveFromAllFrom(setup, y, 0, |setup|)
  }

  /** From index k on, a completed run has removed y from every group and
      left none of those groups empty, and it has left the groups before k
      alone. */
  lemma {:induction false} RemoveFromAllFromClears(setup: Setup, y: string, k: nat)
    requires k <= |setup|
    ensures var r := RemoveFromAllFrom(setup, y, k, |setup|);
            r.Ok? ==> |r.value| >= k && r.value[..k] == setup[..k] &&
                      (forall j :: k <= j < |r.value| ==> y !in r.value[j]) &&
                      (forall j :: k <= j < |r.value| ==> r.value[j] != [])
    decreases |setup| - k
  {
    if k < |setup| {
      var w := Without(setup[k], y);
      if w != [] {
        var s := setup[k := w];
        RemoveFromAllFromClears(s, y, k + 1);
        var r := RemoveFromAllFrom(s, y, k + 1, |s|);
        if r.Ok? {
          assert r.value[k] == r.value[..k + 1][k] == s[k] == w;
          assert r.value[..k] == r.value[..k + 1][..k];
        }
      } else {
        var s := setup[..k] + setup[k + 1..];
        assert |s| == |setup| - 1;
        if k + 1 < |setup| {
          ShortRunFails(s, y, k + 1, |setup|);
        } else {
          assert RemoveFromAllFrom(s, y, k + 1, |setup|) == Ok(s);
          assert s == setup[..k];
        }
      }
    }
  }

  /** Once a group has been popped, the run reads past the end of the list. */
  lemma {:induction false} ShortRunFails(setup: Setup, y: string, k: nat, n0: nat)
    requires |setup| < n0 && k < n0
    ensures RemoveFromAllFrom(setup, y, k, n0) == Err(IndexError)
    decreases n0 - k
  {
    if k < |setup| {
      var w := Without(setup[k], y);
      if w == [] {
        ShortRunFails(setup[..k] + setup[k + 1..], y, k + 1, n0);
      } else {
        ShortRunFails(setup[k := w], y, k + 1, n0);
      }
    }
  }

  /** The loop of lines 216-223 over the live list. */
  method RemoveFromAllLoop(setup0: Setup, y: string) returns (r: Result<Setup, SearchError>)
    ensures r == RemoveFromAll(setup0, y)
  {
    var setup := setup0;
    var n0 := |setup0|;
    for k := 0 to n0
      invariant RemoveFromAllFrom(setup, y, k, n0) == RemoveFromAllFrom(setup0, y, 0, n0)
    {
      if k >= |setup| {
        return Err(IndexError);
      }
      var newGroup := Without(setup[k], y);
      if newGroup == [] {
        setup := setup[..k] + setup[k + 1..];
      } else {
        setup := setup[k := newGroup];
      }
    }
    return Ok(setup);
  }

  lemma {:induction false} RemoveFromAllFromWithin(setup: Setup, y: string, k: nat, n0: nat, allowed: set<string>)
    requires AllWithin(setup, allowed)
    ensures var r := RemoveFromAllFrom(setup, y, k, n0);
            r.Ok? ==> AllWithin(r.value, allowed)
    decreases n0 - k
  {
    if k < n0 && k < |setup| {
      var w := Without(setup[k], y);
      if w == [] {
        var s := setup[..k] + setup[k + 1..];
        assert AllWithin(s, allowed) by {
          forall i | 0 <= i < |s| ensures Within(s[i], allowed) {
            if i >= k { assert s[i] == setup[i + 1]; } else { assert s[i] == setup[i]; }
          }
        }
        RemoveFromAllFromWithin(s, y, k + 1, n0, allowed);
      } else {
        RemoveFromAllFromWithin(setup[k := w], y, k + 1, n0, allowed);
      }
    }
  }

  /** [[A], [B], [C]] with B to be moved: the group [B] is popped at k = 1,
      the list shrinks to two groups, and k = 2 reads past its end. */
  lemma IndexErrorCounterexample()
    ensures RemoveFromAll([["A"], ["B"], ["C"]], "B") == Err(IndexError)
  {
    assert "A" != "B" by { assert "A"[0] != "B"[0]; }
    var s := [["A"], ["B"], ["C"]];
    assert Without(["A"], "B") == ["A"] by { assert ["A"][1..] == []; }
    assert Without(["B"], "B") == [] by { assert ["B"][1..] == []; }
    assert s[0 := ["A"]] == s;
    assert s[..1] + s[2..] == [["A"], ["C"]];
    assert RemoveFromAllFrom(s, "B", 0, 3) == RemoveFromAllFrom(s, "B", 1, 3);
    assert RemoveFromAllFrom(s, "B", 1, 3) == RemoveFromAllFrom([["A"], ["C"]], "B", 2, 3);
    assert RemoveFromAllFrom([["A"], ["C"]], "B", 2, 3) == Err(IndexError);
  }

  /** What lines 216-223 evidently intend: drop y from every group and drop
      the groups left empty, so that every name but y stays where it was. */
  function RemoveEverywhere(setup: Setup, y: string): Setup
  {
    if setup == [] then []
    else
      var w := Without(setup[0], y);
      if w == [] then RemoveEverywhere(setup[1..], y)
      else [w] + RemoveEverywhere(setup[1..], y)
  }

  /** The intended removal: y is in no group, no group is empty, and every
      other name is kept. */
  lemma {:induction false} RemoveEverywhereSpec(setup: Setup, y: string)
    ensures var r := RemoveEverywhere(setup, y);
            (forall j :: 0 <= j < |r| ==> y !in r[j] && r[j] != []) &&
            Names(r) == Names(setup) - {y}
  {
    if setup != [] {
      var w := Without(setup[0], y);
      var rest := RemoveEverywhere(setup[1..], y);
      RemoveEverywhereSpec(setup[1..], y);
      WithoutNames(setup[0], y);
      if w != [] {
        assert ([w] + rest)[1..] == rest;
      }
    }
  }

  lemma WithoutNames(group: seq<string>, y: string)
    ensures (set z | z in Without(group, y)) == (set z | z in group) - {y}
  {
  }

  /** As long as no group consists of y alone, the loop as written completes
      and agrees with the intended removal. */
  lemma RemoveFromAllAgrees(setup: Setup, y: string)
    requires forall j :: 0 <= j < |setup| ==> Without(setup[j], y) != []
    ensures RemoveFromAll(setup, y) == Ok(RemoveEverywhere(setup, y))
  {
    RemoveFromAllFromAgrees(setup, y, 0);
    assert setup[..0] == [] && setup[0..] == setup;
    assert setup[..0] + RemoveEverywhere(setup[0..], y) == RemoveEverywhere(setup, y);
  }

  lemma {:induction false} RemoveFromAllFromAgrees(setup: Setup, y: string, k: nat)
    requires k <= |setup|
    requires forall j :: k <= j < |setup| ==> Without(setup[j], y) != []
    ensures RemoveFromAllFrom(setup, y, k, |setup|) == Ok(setup[..k] + RemoveEverywhere(setup[k..], y))
    decreases |setup| - k
  {
    if k == |setup| {
      assert setup[k..] == [] && setup[..k] == setup;
      assert RemoveEverywhere(setup[k..], y) == [];
      assert setup[..k] + RemoveEverywhere(setup[k..], y) == setup;
      assert RemoveFromAllFrom(setup, y, k, |setup|) == Ok(setup);
    } else {
      var w := Without(setup[k], y);
      var s := setup[k := w];
      RemoveFromAllFromAgrees(s, y, k + 1);
      assert RemoveFromAllFrom(setup, y, k, |setup|) == RemoveFromAllFrom(s, y, k + 1, |s|);
      ghost var tail := setup[k..];
      assert tail[0] == setup[k] && tail[1..] == setup[k + 1..] == s[k + 1..];
      assert RemoveEverywhere(tail, y) == [w] + RemoveEverywhere(s[k + 1..], y);
      assert s[..k + 1] == setup[..k] + [w];
      assert s[..k + 1] + RemoveEverywhere(s[k + 1..], y) == setup[..k] + RemoveEverywhere(tail, y);
    }
  }

  /** Moving y into a group of its own after the intended removal leaves every
      other name where it was and y in exactly the new last group. */
  lemma IsolateIntended(setup: Setup, y: string)
    requires y in Names(setup)
    ensures var r := RemoveEverywhere(setup, y) + [[y]];
            Names(r) == Names(setup) &&
            r[|r| - 1] == [y] &&
            forall j :: 0 <= j < |r| - 1 ==> y !in r[j]
  {
    var e := RemoveEverywhere(setup, y);
    RemoveEverywhereSpec(setup, y);
    NamesAppend(e, [y]);
  }

  lemma {:induction false} NamesAppend(setup: Setup, group: seq<string>)
    ensures Names(setup + [group]) == Names(setup) + (set z | z in group)
  {
    if setup != [] {
      assert (setup + [group])[1..] == setup[1..] + [group];
      NamesAppend(setup[1..], group);
    } else {
      assert ([group])[1..] == [];
    }
  }

  // ---------------------------------------------------------------------------
  // The search (lines 118-246)
  // ---------------------------------------------------------------------------

  /** Where one perturbation leaves the search: go on from `current`, return
      the untested setup `groups`, return None, or stop on an exception. */
  datatype Step = Next(current: Setup) | Found(groups: Setup) | GiveUp | Failed(error: SearchError)

  /** What every step promises: the setups it reaches keep their names within
      `allowed`, it moves on from `start` only through measured setups and
      only when the caller did not ask for None, a found setup has not been
      measured, None is returned early
      only when the caller asked for it, and the only exception is the
      IndexError the source can raise. */
  ghost predicate Sound(t: Tested, start: Setup, step: Step, allowed: set<string>, nullIfAlreadyTested: bool)
  {
    match step
    case Next(c) => AllWithin(c, allowed) && (c == start || (SetupFromList(c) in t.runs && !nullIfAlreadyTested))
    case Found(c) => SetupFromList(c) !in t.runs && AllWithin(c, allowed)
    case GiveUp => nullIfAlreadyTested
    case Failed(e) => e == IndexError
  }

  /** Lines 150-158, 189-199 and 230-241: an unmeasured setup is returned, a
      measured one ends the search with None when `null_if_already_tested`
      is set and is otherwise the point the search goes on from. */
  function AfterChange(t: Tested, current: Setup, nullIfAlreadyTested: bool): (r: Step)
    ensures r.Found? <==> SetupFromList(current) !in t.runs
    ensures r.GiveUp? <==> SetupFromList(current) in t.runs && nullIfAlreadyTested
    ensures r.Next? <==> SetupFromList(current) in t.runs && !nullIfAlreadyTested
    ensures r.Found? ==> r.groups == current
    ensures r.Next? ==> r.current == current
  {
    if SetupFromList(current) !in t.runs then Found(current)
    else if nullIfAlreadyTested then GiveUp
    else Next(current)
  }

  /** Lines 141-158: every member of `fktn_group` outside the sync set of
      `fktn` is split off into a group of its own. The group at the index of
      `fktn` is rebuilt from `fktn_group` as it was looked up before the loop. */
  method SplitUnsynced(t: Tested, current0: Setup, fktn: string, fktnGroup: seq<string>,
                       syncSet: set<string>, nullIfAlreadyTested: bool, ghost allowed: set<string>)
    returns (step: Step)
    requires AllWithin(current0, allowed) && Within(fktnGroup, allowed)
    ensures Sound(t, current0, step, allowed, nullIfAlreadyTested) && !step.Failed?
  {
    var current := current0;
    for n := 0 to |fktnGroup|
      invariant Sound(t, current0, Next(current), allowed, nullIfAlreadyTested)
    {
      var x := fktnGroup[n];
      if x !in syncSet {
        var idx := FirstGroupWith(current, fktn);
        if idx.Some? {
          SplitOffWithin(current, idx.value, fktnGroup, x, allowed);
          current := SplitOff(current, idx.value, fktnGroup, x);
          step := AfterChange(t, current, nullIfAlreadyTested);
          if !step.Next? {
            return;
          }
        }
      }
    }
    return Next(current);
  }

  /** Lines 163-199: every member y of the sync set of `fktn` that is missing
      from `fusion_group` (as enumerated) is taken out of its group and added
      to the group at index i; an index past the end raises IndexError. */
  method GatherSynced(t: Tested, current0: Setup, i: nat, fusionGroup: seq<string>,
                      syncSet: set<string>, nullIfAlreadyTested: bool, ghost allowed: set<string>)
    returns (step: Step)
    requires AllWithin(current0, allowed) && syncSet <= allowed
    ensures Sound(t, current0, step, allowed, nullIfAlreadyTested)
  {
    var current := current0;
    var rest := syncSet;
    while rest != {}
      invariant rest <= syncSet
      invariant Sound(t, current0, Next(current), allowed, nullIfAlreadyTested)
      decreases |rest|
    {
      var y :| y in rest;
      rest := rest - {y};
      if y !in fusionGroup {
        DropUntilEmptiedWithin(current, y, allowed);
        current := RemoveUntilEmptied(current, y);
        if i >= |current| {
          return Failed(IndexError);
        }
        AppendToGroupWithin(current, i, y, allowed);
        current := current[i := current[i] + [y]];
        step := AfterChange(t, current, nullIfAlreadyTested);
        if !step.Next? {
          return;
        }
      }
    }
    return Next(current);
  }

  /** Lines 208-241 for one sync set: every member y of it that sits in
      `fusion_group` (as enumerated) is removed from all groups and given a
      group of its own. */
  method IsolateBlock(t: Tested, current0: Setup, fusionGroup: seq<string>, block: set<string>,
                      nullIfAlreadyTested: bool, ghost allowed: set<string>)
    returns (step: Step)
    requires AllWithin(current0, allowed) && Within(fusionGroup, allowed)
    ensures Sound(t, current0, step, allowed, nullIfAlreadyTested)
  {
    var current := current0;
    var rest := block;
    while rest != {}
      invariant Sound(t, current0, Next(current), allowed, nullIfAlreadyTested)
      decreases |rest|
    {
      var y :| y in rest;
      rest := rest - {y};
      if y in fusionGroup {
        RemoveFromAllFromWithin(current, y, 0, |current|, allowed);
        var removed := RemoveFromAllLoop(current, y);
        if removed.Err? {
          return Failed(removed.error);
        }
        AddGroupWithin(removed.value, y, allowed);
        current := removed.value + [[y]];
        step := AfterChange(t, current, nullIfAlreadyTested);
        if !step.Next? {
          return;
        }
      }
    }
    return Next(current);
  }

  /** Lines 204-241: the sync sets that do not hold `fktn`, one after the other. */
  method IsolateOthers(t: Tested, current0: Setup, fusionGroup: seq<string>, fktn: string,
                       sync: set<set<string>>, nullIfAlreadyTested: bool, ghost allowed: set<string>)
    returns (step: Step)
    requires AllWithin(current0, allowed) && Within(fusionGroup, allowed)
    ensures Sound(t, current0, step, allowed, nullIfAlreadyTested)
  {
    var others := set s | s in sync && fktn !in s;
    var current := current0;
    while others != {}
      invariant Sound(t, current0, Next(current), allowed, nullIfAlreadyTested)
      decreases |others|
    {
      var block :| block in others;
      others := others - {block};
      step := IsolateBlock(t, current, fusionGroup, block, nullIfAlreadyTested, allowed);
      if !step.Next? {
        return;
      }
      current := step.current;
    }
    return Next(current);
  }

  /** Steps compose: a sound step taken from where a sound step left off is
      sound from the first starting point. */
  lemma SoundChain(t: Tested, start: Setup, mid: Setup, step: Step, allowed: set<string>, nullIfAlreadyTested: bool)
    requires Sound(t, start, Next(mid), allowed, nullIfAlreadyTested)
    requires Sound(t, mid, step, allowed, nullIfAlreadyTested)
    ensures Sound(t, start, step, allowed, nullIfAlreadyTested)
  {
  }

  /** Lines 119-241 for one function `fktn` of the group at index i: look up its
      current group and its sync set (a function in no sync set is skipped),
      then run the three kinds of perturbation in order. */
  method TryFunction(t: Tested, sync: set<set<string>>, current0: Setup, i: nat, fusionGroup: seq<string>,
                     fktn: string, nullIfAlreadyTested: bool, ghost allowed: set<string>)
    returns (step: Step)
    requires AllWithin(current0, allowed) && Within(fusionGroup, allowed)
    requires forall s :: s in sync ==> s <= allowed
    ensures Sound(t, current0, step, allowed, nullIfAlreadyTested)
  {
    var first := FirstGroupWith(current0, fktn);
    var fktnGroup := if first.Some? then current0[first.value] else [];
    var found := FindBlock(sync, fktn);
    if found.None? {
      return Next(current0);
    }
    var syncSet := found.value;
    step := SplitUnsynced(t, current0, fktn, fktnGroup, syncSet, nullIfAlreadyTested, allowed);
    if !step.Next? {
      return;
    }
    var afterSplit := step.current;
    step := GatherSynced(t, afterSplit, i, fusionGroup, syncSet, nullIfAlreadyTested, allowed);
    SoundChain(t, current0, afterSplit, step, allowed, nullIfAlreadyTested);
    if !step.Next? {
      return;
    }
    var afterGather := step.current;
    step := IsolateOthers(t, afterGather, fusionGroup, fktn, sync, nullIfAlreadyTested, allowed);
    SoundChain(t, current0, afterGather, step, allowed, nullIfAlreadyTested);
  }

  /** Lines 119-243: every function of `fusion_group`, in order. */
  method TryGroup(t: Tested, sync: set<set<string>>, current0: Setup, i: nat, fusionGroup: seq<string>,
                  nullIfAlreadyTested: bool, ghost allowed: set<string>)
    returns (step: Step)
    requires AllWithin(current0, allowed) && Within(fusionGroup, allowed)
    requires forall s :: s in sync ==> s <= allowed
    ensures Sound(t, current0, step, allowed, nullIfAlreadyTested)
  {
    var current := current0;
    for n := 0 to |fusionGroup|
      invariant Sound(t, current0, Next(current), allowed, nullIfAlreadyTested)
    {
      step := TryFunction(t, sync, current, i, fusionGroup, fusionGroup[n], nullIfAlreadyTested, allowed);
      SoundChain(t, current0, current, step, allowed, nullIfAlreadyTested);
      if !step.Next? {
        return;
      }
      current := step.current;
    }
    return Next(current);
  }

  /** `iterate_on_lowest_latency` from the base setup `currentMin`: build the
      sync sets, then visit the groups of the live setup by index, each group
      as it stands when its index is reached. A setup string is returned only
      if it has not been measured, and it only uses names of the base setup
      and the seven function names. The model visits at most `fuel` groups. */
  method IterateOnLowestLatency(t: Tested, nullIfAlreadyTested: bool, currentMin: string, fuel: nat)
    returns (r: Result<Option<string>, SearchError>, ghost groups: Setup)
    requires WellFormed(t)
    ensures r.Ok? && r.value.Some? ==>
              r.value.value !in t.runs && r.value.value == SetupFromList(groups) &&
              AllWithin(groups, Names(ListFromSetup(currentMin)) + FunctionNames)
  {
    var current := ListFromSetup(currentMin);
    ghost var allowed := Names(current) + FunctionNames;
    AllWithinNames(current);
    AllWithinMono(current, Names(current), allowed);
    var sync := SyncSets(t);
    assert forall s :: s in sync ==> s <= allowed;
    groups := [];
    var i := 0;
    while i < |current|
      invariant i <= fuel
      invariant AllWithin(current, allowed)
      decreases fuel - i
    {
      if i == fuel {
        return Err(OutOfFuel), [];
      }
      var fusionGroup := current[i];
      var step := TryGroup(t, sync, current, i, fusionGroup, nullIfAlreadyTested, allowed);
      match step
      case Found(c) =>
        return Ok(Some(SetupFromList(c))), c;
      case GiveUp =>
        return Ok(None), [];
      case Failed(e) =>
        return Err(e), [];
      case Next(c) =>
        current := c;
      i := i + 1;
    }
    return Ok(None), [];
  }

  /** With the default `function_to_find_base`: the search starts from the
      measured setup with the lowest median billed duration. */
  method IterateFromLowestLatency(t: Tested, nullIfAlreadyTested: bool, fuel: nat)
    returns (r: Result<Option<string>, SearchError>, base: string, ghost groups: Setup)
    requires WellFormed(t)
    ensures !HasData(t) ==> base == ""
    ensures HasData(t) ==> exists m :: FirstMinimum(t, m) && base == t.order[m]
    ensures r.Ok? && r.value.Some? ==>
              r.value.value !in t.runs && r.value.value == SetupFromList(groups) &&
              AllWithin(groups, Names(ListFromSetup(base)) + FunctionNames)
  {
    base := LowestLatency(t);
    r, groups := IterateOnLowestLatency(t, nullIfAlreadyTested, base, fuel);
  }
}
