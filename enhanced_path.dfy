/** Path optimisation of the enhanced fusion optimiser: the caller/callee
    pattern table read off the measured invocations, and the grouping that
    merges the groups of every synchronously called pair. Python dict and set
    iteration order is left open: every `:|` choice below stands for whatever
    order the interpreter uses, and the properties hold for each of them. */
module EnhancedPath {
  import opened Wrappers
  import opened Strs
  import opened FunctionFusionSearch

  /** One recorded call: `caller`, `called` and the `sync` flag (missing
      fields read as "" and false). A missing name (`None`) and an empty
      name are both encoded as "", so the model does not tell them apart:
      a call from `None` to "" counts as a self-call here, and a `None` and
      a "" entry share one key of the table. Grouping skips both kinds of
      name alike, so the groups are the same either way. */
  datatype CallRecord = CallRecord(caller: string, called: string, sync: bool)

  /** `call_patterns[caller][called] = is_sync` */
  type Patterns = map<string, map<string, bool>>

  // ---------------------------------------------------------------------------
  // analyze_call_patterns

  /** The flag of the last call from a to b in `calls`, if any, self-calls
      aside. */
  function LastSync(calls: seq<CallRecord>, a: string, b: string): (r: Option<bool>)
    ensures r.Some? ==> a != b
  {
    if calls == [] then None
    else
      var c := calls[|calls| - 1];
      if c.caller == a && c.called == b && a != b then Some(c.sync)
      else LastSync(calls[..|calls| - 1], a, b)
  }

  /** The table holds exactly the pairs that were called, each with the flag
      of its last call, and no caller with an empty row. */
  ghost predicate Tabulates(patterns: Patterns, calls: seq<CallRecord>)
  {
    (forall a :: a in patterns ==> patterns[a] != map[]) &&
    (forall a, b :: LastSync(calls, a, b).Some? <==> a in patterns && b in patterns[a]) &&
    (forall a, b :: a in patterns && b in patterns[a] ==> patterns[a][b] == LastSync(calls, a, b).value)
  }

  /** Lines 199-217 over the calls of all invocations in order: self-calls
      are skipped and a later call overwrites the flag of an earlier one. */
  method AnalyzeCallPatterns(calls: seq<CallRecord>) returns (patterns: Patterns)
    ensures Tabulates(patterns, calls)
  {
    patterns := map[];
    for n := 0 to |calls|
      invariant Tabulates(patterns, calls[..n])
    {
      var c := calls[n];
      assert calls[..n + 1] == calls[..n] + [c];
      ghost var before := patterns;
      if c.caller != c.called {
        var row := if c.caller in patterns then patterns[c.caller] else map[];
        patterns := patterns[c.caller := row[c.called := c.sync]];
      }
      TabulateStep(before, patterns, calls[..n], c);
    }
    assert calls[..|calls|] == calls;
  }

  /** One more call keeps the table exact. */
  lemma TabulateStep(before: Patterns, after: Patterns, calls: seq<CallRecord>, c: CallRecord)
    requires Tabulates(before, calls)
    requires c.caller == c.called ==> after == before
    requires c.caller != c.called ==>
               after == before[c.caller := (if c.caller in before then before[c.caller] else map[])[c.called := c.sync]]
    ensures Tabulates(after, calls + [c])
  {
    forall a | a in after ensures after[a] != map[] {
      if c.caller != c.called && a == c.caller {
        assert c.called in after[c.caller];
      } else {
        assert after[a] == before[a];
      }
    }
    forall a, b ensures LastSync(calls + [c], a, b).Some? <==> a in after && b in after[a] {
      LastSyncSnoc(calls, c, a, b);
    }
    forall a, b | a in after && b in after[a] ensures after[a][b] == LastSync(calls + [c], a, b).value {
      LastSyncSnoc(calls, c, a, b);
    }
  }

  /** The last call from a to b once c is appended. */
  lemma LastSyncSnoc(calls: seq<CallRecord>, c: CallRecord, a: string, b: string)
    ensures LastSync(calls + [c], a, b) ==
            if c.caller == a && c.called == b && a != b then Some(c.sync) else LastSync(calls, a, b)
  {
    var s := calls + [c];
    assert s[..|s| - 1] == calls;
  }

  // ---------------------------------------------------------------------------
  // path_optimize

  /** A synchronous call between two non-empty names: the edges the grouping
      follows. */
  predicate SyncEdge(patterns: Patterns, a: string, b: string)
  {
    a != "" && b != "" && a in patterns && b in patterns[a] && patterns[a][b]
  }

  /** Lines 235-242: the non-empty callers and the non-empty callees of
      non-empty callers. */
  function AllFunctions(patterns: Patterns): (names: set<string>)
    ensures "" !in names
    ensures forall a, b :: SyncEdge(patterns, a, b) ==> a in names && b in names
  {
    (set a | a in patterns && a != "") +
    (set a, b | a in patterns && a != "" && b in patterns[a] && b != "" :: b)
  }

  /** The grouping state: `groups` is `function_groups`; the ghost `owner` maps
      each name to the key of its group. Groups are keyed by one of their own
      members, every name is in exactly the group its owner names, and all
      members of a group share the tag of its key. */
  ghost predicate GroupsInv(groups: map<string, seq<string>>, owner: map<string, string>,
                            names: set<string>, tag: string -> int)
  {
    owner.Keys == names &&
    (forall x :: x in owner ==> owner[x] in groups && x in groups[owner[x]]) &&
    (forall k, x :: k in groups && x in groups[k] ==> x in owner && owner[x] == k) &&
    (forall k :: k in groups ==> k in groups[k]) &&
    (forall k, x :: k in groups && x in groups[k] ==> tag(x) == tag(k))
  }

  /** Lines 244-245: every function in a group of its own. */
  method InitGroups(names: set<string>, ghost tag: string -> int)
    returns (groups: map<string, seq<string>>, ghost owner: map<string, string>)
    ensures GroupsInv(groups, owner, names, tag)
  {
    groups := map[];
    owner := map[];
    var rest := names;
    while rest != {}
      invariant rest <= names
      invariant GroupsInv(groups, owner, names - rest, tag)
      decreases |rest|
    {
      var f :| f in rest;
      rest := rest - {f};
      groups := groups[f := [f]];
      owner := owner[f := f];
    }
  }

  /** Lines 262-266: the keys of the groups holding the caller and the callee,
      scanning the groups in dict order. */
  method FindGroups(groups: map<string, seq<string>>, caller: string, callee: string)
    returns (callerGroup: Option<string>, calleeGroup: Option<string>)
    ensures callerGroup.Some? ==> callerGroup.value in groups && caller in groups[callerGroup.value]
    ensures callerGroup.None? ==> forall k :: k in groups ==> caller !in groups[k]
    ensures calleeGroup.Some? ==> calleeGroup.value in groups && callee in groups[calleeGroup.value]
    ensures calleeGroup.None? ==> forall k :: k in groups ==> callee !in groups[k]
  {
    callerGroup, calleeGroup := None, None;
    var rest := groups.Keys;
    while rest != {}
      invariant rest <= groups.Keys
      invariant callerGroup.Some? ==> callerGroup.value in groups && caller in groups[callerGroup.value]
      invariant callerGroup.None? ==> forall k :: k in groups && k !in rest ==> caller !in groups[k]
      invariant calleeGroup.Some? ==> calleeGroup.value in groups && callee in groups[calleeGroup.value]
      invariant calleeGroup.None? ==> forall k :: k in groups && k !in rest ==> callee !in groups[k]
      decreases |rest|
    {
      var k :| k in rest;
      rest := rest - {k};
      if caller in groups[k] {
        callerGroup := Some(k);
      }
      if callee in groups[k] {
        calleeGroup := Some(k);
      }
    }
  }

  /** `min` and `max` of two different keys under Python string order. */
  lemma MinMaxDiffer(a: string, b: string)
    requires a != b
    ensures (if LexLess(b, a) then b else a) != (if LexLess(a, b) then b else a)
  {
    LexLessTotal(a, b);
    if LexLess(a, b) { LexLessAsymmetric(a, b); }
  }

  /** Names that shared a group in `owner0` still share one in `owner`. */
  ghost predicate Coarsens(owner0: map<string, string>, owner: map<string, string>)
  {
    owner0.Keys <= owner.Keys &&
    forall x, y :: x in owner0 && y in owner0 && owner0[x] == owner0[y] ==> owner[x] == owner[y]
  }

  lemma CoarsensTrans(a: map<string, string>, b: map<string, string>, c: map<string, string>)
    requires Coarsens(a, b) && Coarsens(b, c)
    ensures Coarsens(a, c)
  {
  }

  /** Every name of the group keyed oldKey moves to the group keyed newKey. */
  ghost function Rekey(owner: map<string, string>, oldKey: string, newKey: string): map<string, string>
  {
    map x | x in owner :: if owner[x] == oldKey then newKey else owner[x]
  }

  /** Storing the concatenation of two groups under one key and deleting the
      other keeps the grouping state consistent. */
  lemma MergeKeepsGroupsInv(groups: map<string, seq<string>>, owner: map<string, string>,
                            names: set<string>, tag: string -> int,
                            cg: string, eg: string, newKey: string, oldKey: string,
                            g: map<string, seq<string>>, o: map<string, string>)
    requires GroupsInv(groups, owner, names, tag)
    requires cg in groups && eg in groups && cg != eg && tag(cg) == tag(eg)
    requires (newKey == cg && oldKey == eg) || (newKey == eg && oldKey == cg)
    requires g == groups[newKey := groups[cg] + groups[eg]] - {oldKey}
    requires o == Rekey(owner, oldKey, newKey)
    ensures GroupsInv(g, o, names, tag)
    ensures Coarsens(owner, o)
  {
    MergeOwnersFound(groups, owner, names, tag, cg, eg, newKey, oldKey, g, o);
    MergeMembersOwned(groups, owner, names, tag, cg, eg, newKey, oldKey, g, o);
    MergeKeysKept(groups, owner, names, tag, cg, eg, newKey, oldKey, g, o);
  }

  lemma MergeKeysKept(groups: map<string, seq<string>>, owner: map<string, string>,
                      names: set<string>, tag: string -> int,
                      cg: string, eg: string, newKey: string, oldKey: string,
                      g: map<string, seq<string>>, o: map<string, string>)
    requires GroupsInv(groups, owner, names, tag)
    requires cg in groups && eg in groups && cg != eg
    requires (newKey == cg && oldKey == eg) || (newKey == eg && oldKey == cg)
    requires g == groups[newKey := groups[cg] + groups[eg]] - {oldKey}
    requires o == Rekey(owner, oldKey, newKey)
    ensures forall k :: k in g ==> k in g[k]
    ensures o.Keys == names
    ensures Coarsens(owner, o)
  {
    forall k | k in g ensures k in g[k] {
      if k != newKey { assert g[k] == groups[k]; }
    }
  }

  lemma MergeOwnersFound(groups: map<string, seq<string>>, owner: map<string, string>,
                         names: set<string>, tag: string -> int,
                         cg: string, eg: string, newKey: string, oldKey: string,
                         g: map<string, seq<string>>, o: map<string, string>)
    requires GroupsInv(groups, owner, names, tag)
    requires cg in groups && eg in groups && cg != eg
    requires (newKey == cg && oldKey == eg) || (newKey == eg && oldKey == cg)
    requires g == groups[newKey := groups[cg] + groups[eg]] - {oldKey}
    requires o == Rekey(owner, oldKey, newKey)
    ensures forall x :: x in o ==> o[x] in g && x in g[o[x]]
  {
    forall x | x in o ensures o[x] in g && x in g[o[x]] {
      var k := owner[x];
      assert x in groups[k];
      if k != oldKey && k != newKey {
        assert g[k] == groups[k];
      }
    }
  }

  lemma MergeMembersOwned(groups: map<string, seq<string>>, owner: map<string, string>,
                          names: set<string>, tag: string -> int,
                          cg: string, eg: string, newKey: string, oldKey: string,
                          g: map<string, seq<string>>, o: map<string, string>)
    requires GroupsInv(groups, owner, names, tag)
    requires cg in groups && eg in groups && cg != eg && tag(cg) == tag(eg)
    requires (newKey == cg && oldKey == eg) || (newKey == eg && oldKey == cg)
    requires g == groups[newKey := groups[cg] + groups[eg]] - {oldKey}
    requires o == Rekey(owner, oldKey, newKey)
    ensures forall k, x :: k in g && x in g[k] ==> x in o && o[x] == k
    ensures forall k, x :: k in g && x in g[k] ==> tag(x) == tag(k)
  {
    forall k, x | k in g && x in g[k] ensures x in o && o[x] == k && tag(x) == tag(k) {
      if k == newKey {
        assert x in groups[cg] || x in groups[eg];
      } else {
        assert x in groups[k];
      }
    }
  }

  /** Lines 256-280 for one callee: a synchronous call merges the two groups
      under the smaller key and deletes the larger one. Names that shared a
      group still do, and the caller and callee now do. */
  method MergeCallee(groups0: map<string, seq<string>>, ghost owner0: map<string, string>,
                     ghost names: set<string>, ghost tag: string -> int,
                     caller: string, callee: string, isSync: bool)
    returns (groups: map<string, seq<string>>, ghost owner: map<string, string>)
    requires GroupsInv(groups0, owner0, names, tag)
    requires caller in names && callee in names
    requires isSync ==> tag(caller) == tag(callee)
    ensures GroupsInv(groups, owner, names, tag)
    ensures Coarsens(owner0, owner)
    ensures caller in owner && callee in owner
    ensures isSync ==> owner[caller] == owner[callee]
  {
    groups, owner := groups0, owner0;
    if !isSync {
      return;
    }
    var callerGroup, calleeGroup := FindGroups(groups, caller, callee);
    assert owner0[caller] in groups0 && owner0[callee] in groups0;
    if callerGroup == calleeGroup {
      return;
    }
    var cg, eg := callerGroup.value, calleeGroup.value;
    assert cg == owner0[caller] && eg == owner0[callee];
    var merged := groups[cg] + groups[eg];
    var newKey := if LexLess(eg, cg) then eg else cg;
    var oldKey := if LexLess(cg, eg) then eg else cg;
    MinMaxDiffer(cg, eg);
    groups := groups[newKey := merged] - {oldKey};
    owner := Rekey(owner0, oldKey, newKey);
    MergeKeepsGroupsInv(groups0, owner0, names, tag, cg, eg, newKey, oldKey, groups, owner);
  }

  /** Lines 252-280 for one caller: its callees in dict order. */
  method MergeCaller(groups0: map<string, seq<string>>, ghost owner0: map<string, string>,
                     ghost names: set<string>, ghost tag: string -> int,
                     patterns: Patterns, caller: string)
    returns (groups: map<string, seq<string>>, ghost owner: map<string, string>)
    requires GroupsInv(groups0, owner0, names, tag)
    requires caller in patterns && caller != "" && names == AllFunctions(patterns)
    requires forall a, b :: SyncEdge(patterns, a, b) ==> tag(a) == tag(b)
    ensures GroupsInv(groups, owner, names, tag)
    ensures Coarsens(owner0, owner)
    ensures Joined(owner, patterns, caller, {})
  {
    groups, owner := groups0, owner0;
    var callees := patterns[caller].Keys;
    while callees != {}
      invariant callees <= patterns[caller].Keys
      invariant GroupsInv(groups, owner, names, tag)
      invariant Coarsens(owner0, owner)
      invariant Joined(owner, patterns, caller, callees)
      decreases |callees|
    {
      var callee :| callee in callees;
      ghost var pending := callees;
      callees := callees - {callee};
      assert pending == callees + {callee};
      groups, owner := JoinCallee(groups, owner, owner0, names, tag, patterns, caller, callee, callees);
    }
  }

  /** Lines 252-280 for one callee of `caller`, an empty name skipped: the
      callee joins its caller's group when the call is synchronous. */
  method JoinCallee(groups0: map<string, seq<string>>, ghost owner1: map<string, string>,
                    ghost owner0: map<string, string>, ghost names: set<string>, ghost tag: string -> int,
                    patterns: Patterns, caller: string, callee: string, ghost pending: set<string>)
    returns (groups: map<string, seq<string>>, ghost owner: map<string, string>)
    requires GroupsInv(groups0, owner1, names, tag) && Coarsens(owner0, owner1)
    requires caller in patterns && caller != "" && callee in patterns[caller] && names == AllFunctions(patterns)
    requires forall a, b :: SyncEdge(patterns, a, b) ==> tag(a) == tag(b)
    requires Joined(owner1, patterns, caller, pending + {callee})
    ensures GroupsInv(groups, owner, names, tag)
    ensures Coarsens(owner0, owner)
    ensures Joined(owner, patterns, caller, pending)
  {
    groups, owner := groups0, owner1;
    if callee != "" {
      groups, owner := MergeCallee(groups0, owner1, names, tag, caller, callee, patterns[caller][callee]);
      CoarsensTrans(owner0, owner1, owner);
      JoinedStep(owner1, owner, patterns, caller, callee, pending);
    } else {
      assert pending + {callee} == pending + {""};
    }
  }

  /** Every synchronous callee of `caller` outside `pending` shares its group. */
  ghost predicate Joined(owner: map<string, string>, patterns: Patterns, caller: string, pending: set<string>)
  {
    forall b :: SyncEdge(patterns, caller, b) && b !in pending ==>
      caller in owner && b in owner && owner[caller] == owner[b]
  }

  lemma JoinedStep(before: map<string, string>, owner: map<string, string>, patterns: Patterns,
                   caller: string, callee: string, pending: set<string>)
    requires Joined(before, patterns, caller, pending + {callee})
    requires Coarsens(before, owner)
    requires SyncEdge(patterns, caller, callee) ==> caller in owner && callee in owner && owner[caller] == owner[callee]
    ensures Joined(owner, patterns, caller, pending)
  {
  }

  /** Lines 248-280: all callers in dict order. Afterwards every synchronous
      pair shares a group. */
  method MergeAll(groups0: map<string, seq<string>>, ghost owner0: map<string, string>,
                  ghost tag: string -> int, patterns: Patterns)
    returns (groups: map<string, seq<string>>, ghost owner: map<string, string>)
    requires GroupsInv(groups0, owner0, AllFunctions(patterns), tag)
    requires forall a, b :: SyncEdge(patterns, a, b) ==> tag(a) == tag(b)
    ensures GroupsInv(groups, owner, AllFunctions(patterns), tag)
    ensures forall a, b :: SyncEdge(patterns, a, b) ==> owner[a] == owner[b]
  {
    ghost var names := AllFunctions(patterns);
    groups, owner := groups0, owner0;
    var callers := patterns.Keys;
    while callers != {}
      invariant callers <= patterns.Keys
      invariant GroupsInv(groups, owner, names, tag)
      invariant forall a, b :: SyncEdge(patterns, a, b) && a !in callers ==> owner[a] == owner[b]
      decreases |callers|
    {
      var caller :| caller in callers;
      callers := callers - {caller};
      if caller != "" {
        groups, owner := MergeCaller(groups, owner, names, tag, patterns, caller);
      }
    }
  }

  /** `list(set(group))`: the distinct members, in some order. */
  method Distinct(group: seq<string>) returns (r: seq<string>)
    ensures forall x :: x in r <==> x in group
    ensures NoRepeats(r)
  {
    r := [];
    var rest := set x | x in group;
    while rest != {}
      invariant forall x :: x in r ==> x in group && x !in rest
      invariant forall x :: x in group ==> x in r || x in rest
      invariant rest <= set x | x in group
      invariant NoRepeats(r)
      decreases |rest|
    {
      var x :| x in rest;
      rest := rest - {x};
      r := r + [x];
    }
  }

  /** Lines 283-290: the groups in dict order, each without repeats, empty
      ones dropped. */
  method CollectGroups(groups: map<string, seq<string>>, ghost owner: map<string, string>,
                       ghost names: set<string>, ghost tag: string -> int)
    returns (result: seq<seq<string>>, ghost keys: seq<string>)
    requires GroupsInv(groups, owner, names, tag)
    ensures |keys| == |result|
    ensures forall i :: 0 <= i < |result| ==>
              keys[i] in groups && result[i] != [] && NoRepeats(result[i]) &&
              forall x :: x in result[i] <==> x in groups[keys[i]]
    ensures forall i, j :: 0 <= i < j < |keys| ==> keys[i] != keys[j]
    ensures forall k :: k in groups ==> k in keys
  {
    result, keys := [], [];
    var rest := groups.Keys;
    while rest != {}
      invariant rest <= groups.Keys
      invariant |keys| == |result|
      invariant forall i :: 0 <= i < |result| ==>
                  keys[i] in groups && keys[i] !in rest && result[i] != [] && NoRepeats(result[i]) &&
                  forall x :: x in result[i] <==> x in groups[keys[i]]
      invariant forall i, j :: 0 <= i < j < |keys| ==> keys[i] != keys[j]
      invariant forall k :: k in groups && k !in rest ==> k in keys
      decreases |rest|
    {
      var k :| k in rest;
      rest := rest - {k};
      var members := Distinct(groups[k]);
      assert k in members;
      if members != [] {
        result := result + [members];
        keys := keys + [k];
      }
    }
  }

  /** `path_optimize`. The result partitions the non-empty names seen into
      non-empty groups without repeats; a synchronous callee is always in
      its caller's group; and two names share a group only if every
      tagging that gives synchronous pairs equal tags gives them equal
      tags too, so asynchronous calls never merge groups. */
  method PathOptimize(patterns: Patterns, ghost tag: string -> int) returns (result: seq<seq<string>>)
    requires forall a, b :: SyncEdge(patterns, a, b) ==> tag(a) == tag(b)
    ensures forall i :: 0 <= i < |result| ==> result[i] != [] && NoRepeats(result[i])
    ensures forall i, j, x :: 0 <= i < j < |result| && x in result[i] ==> x !in result[j]
    ensures forall i, x :: 0 <= i < |result| && x in result[i] ==> x in AllFunctions(patterns)
    ensures forall x :: x in AllFunctions(patterns) ==> exists i :: 0 <= i < |result| && x in result[i]
    ensures forall i, a, b :: 0 <= i < |result| && a in result[i] && SyncEdge(patterns, a, b) ==> b in result[i]
    ensures forall i, x, y :: 0 <= i < |result| && x in result[i] && y in result[i] ==> tag(x) == tag(y)
  {
    var names := AllFunctions(patterns);
    var groups;
    ghost var owner;
    groups, owner := InitGroups(names, tag);
    groups, owner := MergeAll(groups, owner, tag, patterns);
    ghost var keys;
    result, keys := CollectGroups(groups, owner, names, tag);
    CollectedCover(groups, owner, names, tag, result, keys);
    CollectedDisjoint(groups, owner, names, tag, result, keys);
    CollectedSync(groups, owner, tag, patterns, result, keys);
  }

  /** What CollectGroups promises about the groups it lists. */
  ghost predicate Collected(groups: map<string, seq<string>>, result: seq<seq<string>>, keys: seq<string>)
  {
    |keys| == |result| &&
    (forall i :: 0 <= i < |result| ==>
       keys[i] in groups && result[i] != [] && NoRepeats(result[i]) &&
       forall x :: x in result[i] <==> x in groups[keys[i]]) &&
    (forall i, j :: 0 <= i < j < |keys| ==> keys[i] != keys[j]) &&
    (forall k :: k in groups ==> k in keys)
  }

  /** Every name ends up in some listed group. */
  lemma CollectedCover(groups: map<string, seq<string>>, owner: map<string, string>,
                       names: set<string>, tag: string -> int, result: seq<seq<string>>, keys: seq<string>)
    requires GroupsInv(groups, owner, names, tag) && Collected(groups, result, keys)
    ensures forall x :: x in names ==> exists i :: 0 <= i < |result| && x in result[i]
  {
    forall x | x in names ensures exists i :: 0 <= i < |result| && x in result[i] {
      var i :| 0 <= i < |keys| && keys[i] == owner[x];
      assert x in result[i];
    }
  }

  /** No name is in two listed groups. */
  lemma CollectedDisjoint(groups: map<string, seq<string>>, owner: map<string, string>,
                          names: set<string>, tag: string -> int, result: seq<seq<string>>, keys: seq<string>)
    requires GroupsInv(groups, owner, names, tag) && Collected(groups, result, keys)
    ensures forall i, j, x :: 0 <= i < j < |result| && x in result[i] ==> x !in result[j]
  {
    forall i, j, x | 0 <= i < j < |result| && x in result[i] ensures x !in result[j] {
      assert owner[x] == keys[i];
    }
  }

  /** A synchronous callee is listed with its caller. */
  lemma CollectedSync(groups: map<string, seq<string>>, owner: map<string, string>,
                      tag: string -> int, patterns: Patterns, result: seq<seq<string>>, keys: seq<string>)
    requires GroupsInv(groups, owner, AllFunctions(patterns), tag) && Collected(groups, result, keys)
    requires forall a, b :: SyncEdge(patterns, a, b) ==> owner[a] == owner[b]
    ensures forall i, a, b :: 0 <= i < |result| && a in result[i] && SyncEdge(patterns, a, b) ==> b in result[i]
  {
    forall i, a, b | 0 <= i < |result| && a in result[i] && SyncEdge(patterns, a, b)
      ensures b in result[i]
    {
      assert owner[a] == keys[i];
    }
  }
}
