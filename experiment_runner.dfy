/** The configuration generator of the fusion test runner: for a chain of
    functions, one configuration per way of choosing a strategy for each
    consecutive pair, named after the chosen strategies. */
module ExperimentRunner {
  import opened Strs

  /** The rule of one caller/callee pair: the strategy for synchronous and
      for asynchronous calls. */
  datatype PairRule = PairRule(syncStrategy: string, asyncStrategy: string)

  type Rules = map<string, map<string, PairRule>>

  datatype Config = Config(name: string, rules: Rules)

  /** Lines 54-55: the strategy space used when none (or an empty one) is
      given. */
  const DefaultStrategySpace: seq<string> := ["local", "remote"]

  function Pow(b: nat, n: nat): nat
  {
    if n == 0 then 1 else b * Pow(b, n - 1)
  }

  predicate Distinct<T(==)>(s: seq<T>)
  {
    forall p, q :: 0 <= p < q < |s| ==> s[p] != s[q]
  }

  // ---------------------------------------------------------------------------
  // itertools.product(space, repeat=n)

  /** `x` put in front of every tail. */
  function PrependAll(x: string, tails: seq<seq<string>>): (r: seq<seq<string>>)
    ensures |r| == |tails|
    ensures forall i :: 0 <= i < |r| ==> r[i] == [x] + tails[i]
  {
    seq(|tails|, i requires 0 <= i < |tails| => [x] + tails[i])
  }

  /** Every choice from `space`, in order, in front of every tail, the
      tail varying fastest. */
  function ProductStep(space: seq<string>, tails: seq<seq<string>>): (r: seq<seq<string>>)
    ensures forall i :: 0 <= i < |r| ==> |r[i]| >= 1 && r[i][1..] in tails
  {
    if space == [] then [] else PrependAll(space[0], tails) + ProductStep(space[1..], tails)
  }

  /** `itertools.product(space, repeat=n)`: the last position varies
      fastest. */
  function Product(space: seq<string>, n: nat): (r: seq<seq<string>>)
    ensures forall i :: 0 <= i < |r| ==> |r[i]| == n
  {
    if n == 0 then [[]] else ProductStep(space, Product(space, n - 1))
  }

  lemma {:induction false} ProductStepCount(space: seq<string>, tails: seq<seq<string>>)
    ensures |ProductStep(space, tails)| == |space| * |tails|
  {
    if space != [] {
      ProductStepCount(space[1..], tails);
      assert |space| * |tails| == |tails| + (|space| - 1) * |tails|;
    }
  }

  /** There are |space|^n tuples. */
  lemma {:induction false} ProductCount(space: seq<string>, n: nat)
    ensures |Product(space, n)| == Pow(|space|, n)
  {
    if n > 0 {
      ProductCount(space, n - 1);
      ProductStepCount(space, Product(space, n - 1));
    }
  }

  lemma {:induction false} ProductStepMembers(space: seq<string>, tails: seq<seq<string>>, s: seq<string>)
    ensures s in ProductStep(space, tails) <==> |s| >= 1 && s[0] in space && s[1..] in tails
  {
    if space != [] {
      ProductStepMembers(space[1..], tails, s);
      if s in PrependAll(space[0], tails) {
        var i :| 0 <= i < |tails| && PrependAll(space[0], tails)[i] == s;
        assert s[1..] == tails[i];
      }
      if |s| >= 1 && s[0] == space[0] && s[1..] in tails {
        var i :| 0 <= i < |tails| && tails[i] == s[1..];
        assert s == [space[0]] + s[1..];
        assert PrependAll(space[0], tails)[i] == s;
      }
      if |s| >= 1 && s[0] in space && s[0] != space[0] {
        assert s[0] in space[1..] by {
          var k :| 0 <= k < |space| && space[k] == s[0];
          assert space[1..][k - 1] == s[0];
        }
      }
    }
  }

  /** Every element of `s` is in `space`. */
  predicate AllIn(s: seq<string>, space: seq<string>)
  {
    forall i :: 0 <= i < |s| ==> s[i] in space
  }

  lemma AllInCons(s: seq<string>, space: seq<string>)
    requires |s| >= 1
    ensures AllIn(s, space) <==> s[0] in space && AllIn(s[1..], space)
  {
    if s[0] in space && AllIn(s[1..], space) {
      forall i | 0 <= i < |s| ensures s[i] in space {
        if i > 0 { assert s[i] == s[1..][i - 1]; }
      }
    }
  }

  /** The tuples are exactly the length-n sequences over the space. */
  lemma {:induction false} ProductMembers(space: seq<string>, n: nat, s: seq<string>)
    ensures s in Product(space, n) <==> |s| == n && AllIn(s, space)
  {
    if n == 0 {
      if |s| == 0 { assert s == []; }
    } else {
      ProductStepMembers(space, Product(space, n - 1), s);
      if |s| >= 1 {
        ProductMembers(space, n - 1, s[1..]);
        AllInCons(s, space);
      }
    }
  }

  lemma DistinctAppend<T>(a: seq<T>, b: seq<T>)
    requires Distinct(a) && Distinct(b)
    requires forall x :: x in a ==> x !in b
    ensures Distinct(a + b)
  {
    var c := a + b;
    forall p, q | 0 <= p < q < |c| ensures c[p] != c[q] {
      if p < |a| && q >= |a| {
        assert c[p] in a && c[q] == b[q - |a|];
      }
    }
  }

  lemma {:induction false} ProductStepDistinct(space: seq<string>, tails: seq<seq<string>>)
    requires Distinct(space) && Distinct(tails)
    ensures Distinct(ProductStep(space, tails))
  {
    if space != [] {
      var rest := space[1..];
      assert Distinct(rest) by {
        forall p, q | 0 <= p < q < |rest| ensures rest[p] != rest[q] {
          assert rest[p] == space[p + 1] && rest[q] == space[q + 1];
        }
      }
      ProductStepDistinct(rest, tails);
      var front := PrependAll(space[0], tails);
      assert Distinct(front) by {
        forall p, q | 0 <= p < q < |front| ensures front[p] != front[q] {
          assert front[p][1..] == tails[p] && front[q][1..] == tails[q];
        }
      }
      assert space[0] !in rest by {
        forall k | 0 <= k < |rest| ensures rest[k] != space[0] {
          assert rest[k] == space[k + 1];
        }
      }
      forall x | x in front ensures x !in ProductStep(rest, tails) {
        ProductStepMembers(rest, tails, x);
      }
      DistinctAppend(front, ProductStep(rest, tails));
    }
  }

  /** A space without repeats gives tuples without repeats. */
  lemma {:induction false} ProductDistinct(space: seq<string>, n: nat)
    requires Distinct(space)
    ensures Distinct(Product(space, n))
  {
    if n > 0 {
      ProductDistinct(space, n - 1);
      ProductStepDistinct(space, Product(space, n - 1));
    }
  }

  // ---------------------------------------------------------------------------
  // One configuration

  /** Line 68. */
  function ConfigName(strategies: seq<string>): string
  {
    "config_" + Join(strategies, '_')
  }

  /** Two different non-empty strategy tuples get different names, as long
      as no strategy contains '_'. */
  lemma ConfigNamesDiffer(a: seq<string>, b: seq<string>)
    requires |a| >= 1 && |b| >= 1 && a != b
    requires forall s :: s in a ==> '_' !in s
    requires forall s :: s in b ==> '_' !in s
    ensures ConfigName(a) != ConfigName(b)
  {
    SplitJoin(a, '_');
    SplitJoin(b, '_');
    var p := "config_";
    assert ConfigName(a)[|p|..] == Join(a, '_');
    assert ConfigName(b)[|p|..] == Join(b, '_');
  }

  /** Lines 71-82 as a function: the rules after the first `n` pairs. */
  function RulesOf(functions: seq<string>, strategies: seq<string>, n: nat): Rules
    requires n < |functions| && n <= |strategies|
  {
    if n == 0 then map[]
    else
      var rules := RulesOf(functions, strategies, n - 1);
      var source := functions[n - 1];
      var row := if source in rules then rules[source] else map[];
      rules[source := row[functions[n] := PairRule(strategies[n - 1], "remote")]]
  }

  /** The sources of the rules are the functions that have a successor. */
  lemma {:induction false} RulesOfSources(functions: seq<string>, strategies: seq<string>, n: nat)
    requires n < |functions| && n <= |strategies|
    ensures forall a :: a in RulesOf(functions, strategies, n) <==> exists i :: 0 <= i < n && functions[i] == a
  {
    if n > 0 {
      RulesOfSources(functions, strategies, n - 1);
      forall a | a in RulesOf(functions, strategies, n) && a != functions[n - 1]
        ensures exists i :: 0 <= i < n && functions[i] == a
      {
        assert a in RulesOf(functions, strategies, n - 1);
        var i :| 0 <= i < n - 1 && functions[i] == a;
      }
    }
  }

  /** The targets of a source are its successors, and every rule sends
      asynchronous calls remotely. */
  lemma {:induction false} RulesOfTargets(functions: seq<string>, strategies: seq<string>, n: nat, a: string, b: string)
    requires n < |functions| && n <= |strategies|
    ensures var rules := RulesOf(functions, strategies, n);
            (a in rules && b in rules[a] <==> exists i :: 0 <= i < n && functions[i] == a && functions[i + 1] == b) &&
            (a in rules && b in rules[a] ==> rules[a][b].asyncStrategy == "remote")
  {
    if n > 0 {
      RulesOfTargets(functions, strategies, n - 1, a, b);
      var prev := RulesOf(functions, strategies, n - 1);
      var rules := RulesOf(functions, strategies, n);
      if a == functions[n - 1] && b == functions[n] {
        assert functions[n - 1] == a && functions[n] == b;
      } else if a == functions[n - 1] {
        assert (b in rules[a]) == (a in prev && b in prev[a]);
        if exists i :: 0 <= i < n && functions[i] == a && functions[i + 1] == b {
          var i :| 0 <= i < n && functions[i] == a && functions[i + 1] == b;
          assert i < n - 1;
        }
      } else {
        assert (a in rules) == (a in prev);
        if exists i :: 0 <= i < n && functions[i] == a && functions[i + 1] == b {
          var i :| 0 <= i < n && functions[i] == a && functions[i + 1] == b;
          assert i < n - 1;
        }
      }
    }
  }

  /** Every rule sends asynchronous calls remotely, and a pair's synchronous
      strategy is the one chosen at its last position in the chain. */
  lemma {:induction false} RulesOfValues(functions: seq<string>, strategies: seq<string>, n: nat, i: nat)
    requires n < |functions| && n <= |strategies| && i < n
    requires forall j :: i < j < n ==> (functions[j], functions[j + 1]) != (functions[i], functions[i + 1])
    ensures var rules := RulesOf(functions, strategies, n);
            functions[i] in rules && functions[i + 1] in rules[functions[i]] &&
            rules[functions[i]][functions[i + 1]] == PairRule(strategies[i], "remote")
  {
    if i < n - 1 {
      RulesOfValues(functions, strategies, n - 1, i);
    }
  }

  /** The configuration for one strategy tuple. */
  function ConfigOf(functions: seq<string>, strategies: seq<string>): Config
    requires |functions| >= 1 && |strategies| == |functions| - 1
  {
    Config(ConfigName(strategies), RulesOf(functions, strategies, |functions| - 1))
  }

  /** Lines 71-82 as the loop it is. */
  method BuildRules(functions: seq<string>, strategies: seq<string>) returns (rules: Rules)
    requires |functions| >= 1 && |strategies| == |functions| - 1
    ensures rules == RulesOf(functions, strategies, |functions| - 1)
  {
    rules := map[];
    var n := |functions| - 1;
    for i := 0 to n
      invariant rules == RulesOf(functions, strategies, i)
    {
      var source := functions[i];
      var target := functions[i + 1];
      if source !in rules {
        rules := rules[source := map[]];
      }
      rules := rules[source := rules[source][target := PairRule(strategies[i], "remote")]];
    }
  }

  /** Lines 54-90: nothing for fewer than two functions; otherwise one
      configuration per strategy tuple, in `itertools.product` order. An
      empty space stands for a missing one too (`if not strategy_space`). */
  method GenerateFusionConfigurations(functions: seq<string>, strategySpace: seq<string>) returns (configs: seq<Config>)
    ensures |functions| < 2 ==> configs == []
    ensures var space := if strategySpace == [] then DefaultStrategySpace else strategySpace;
            |functions| >= 2 ==>
              |configs| == |Product(space, |functions| - 1)| &&
              forall k :: 0 <= k < |configs| ==> configs[k] == ConfigOf(functions, Product(space, |functions| - 1)[k])
  {
    var space := if strategySpace == [] then DefaultStrategySpace else strategySpace;
    configs := [];
    var n := |functions| - 1;
    if n <= 0 {
      return;
    }
    var tuples := Product(space, n);
    for k := 0 to |tuples|
      invariant |configs| == k
      invariant forall j :: 0 <= j < k ==> configs[j] == ConfigOf(functions, tuples[j])
    {
      var strategies := tuples[k];
      ProductMembers(space, n, strategies);
      var rules := BuildRules(functions, strategies);
      configs := configs + [Config("config_" + Join(strategies, '_'), rules)];
    }
  }

  /** What the generator promises: |space|^(n-1) configurations, one per
      strategy tuple, with distinct names when the space has no repeats and
      no strategy contains '_'; each rule of each configuration sync by the
      tuple's strategy for its pair and async remote. */
  lemma GeneratedConfigurations(functions: seq<string>, space: seq<string>, configs: seq<Config>)
    requires |functions| >= 2 && space != []
    requires |configs| == |Product(space, |functions| - 1)|
    requires forall k :: 0 <= k < |configs| ==> configs[k] == ConfigOf(functions, Product(space, |functions| - 1)[k])
    requires Distinct(space) && forall s :: s in space ==> '_' !in s
    ensures |configs| == Pow(|space|, |functions| - 1)
    ensures forall p, q :: 0 <= p < q < |configs| ==> configs[p].name != configs[q].name
  {
    var n := |functions| - 1;
    var tuples := Product(space, n);
    ProductCount(space, n);
    ProductDistinct(space, n);
    forall p, q | 0 <= p < q < |configs| ensures configs[p].name != configs[q].name {
      ProductMembers(space, n, tuples[p]);
      ProductMembers(space, n, tuples[q]);
      ConfigNamesDiffer(tuples[p], tuples[q]);
    }
  }
}
