/** The exhaustive fusion optimiser's test plan for one chain of functions:
    the fusion groupings proposed for it, the memory configurations tried
    with each, and the payload each function is invoked with. The sizes
    loaded from the parameter file and the test data file are parameters;
    random sampling is an arbitrary choice of the right size. */
module FusionTestPlan {
  import opened Wrappers
  import opened Strs

  /** One fusion grouping: a list of groups, each a list of function names. */
  type Grouping = seq<seq<string>>

  // ---------------------------------------------------------------------------
  // generate_fusion_groups

  /** Lines 437-438: every adjacent pair fused on its own. */
  function AdjacentPairs(chain: seq<string>): (r: seq<Grouping>)
    ensures |chain| >= 1 ==> |r| == |chain| - 1
  {
    if |chain| < 2 then []
    else seq(|chain| - 1, i requires 0 <= i < |chain| - 1 => [[chain[i], chain[i + 1]]])
  }

  /** Lines 441-443: every run of three fused on its own. */
  function Triples(chain: seq<string>): seq<Grouping>
  {
    if |chain| < 3 then []
    else seq(|chain| - 2, i requires 0 <= i < |chain| - 2 => [[chain[i], chain[i + 1], chain[i + 2]]])
  }

  /** Lines 448-449 for one `i`: the pair at i with each later pair that does
      not touch it. */
  function DisjointRow(chain: seq<string>, i: nat): (r: seq<Grouping>)
    requires i + 3 < |chain|
    ensures |r| == |chain| - 3 - i
  {
    seq(|chain| - 3 - i, k requires 0 <= k < |chain| - 3 - i =>
      [[chain[i], chain[i + 1]], [chain[i + 2 + k], chain[i + 3 + k]]])
  }

  /** Lines 446-449 from row `i` on. */
  function DisjointFrom(chain: seq<string>, i: nat): seq<Grouping>
    decreases |chain| - i
  {
    if i + 3 < |chain| then DisjointRow(chain, i) + DisjointFrom(chain, i + 1) else []
  }

  function DisjointPairs(chain: seq<string>): seq<Grouping>
  {
    DisjointFrom(chain, 0)
  }

  /** Lines 436-452: all candidate groupings of a chain, the baseline with no
      fusion last. */
  function CandidateGroupings(chain: seq<string>): seq<Grouping>
  {
    AdjacentPairs(chain) + Triples(chain) + DisjointPairs(chain) + [[]]
  }

  /** A chain of n functions yields n-1 pairs, n-2 triples, (n-2)(n-3)/2
      disjoint pairs of pairs, and the baseline. */
  lemma CandidateCount(chain: seq<string>)
    requires |chain| >= 3
    ensures |AdjacentPairs(chain)| == |chain| - 1
    ensures |Triples(chain)| == |chain| - 2
    ensures 2 * |DisjointPairs(chain)| == (|chain| - 2) * (|chain| - 3)
    ensures |CandidateGroupings(chain)| == |chain| - 1 + |chain| - 2 + |DisjointPairs(chain)| + 1
  {
    DisjointFromCount(chain, 0);
  }

  lemma {:induction false} DisjointFromCount(chain: seq<string>, i: nat)
    requires i <= |chain| - 2
    ensures 2 * |DisjointFrom(chain, i)| == (|chain| - 2 - i) * (|chain| - 3 - i)
    decreases |chain| - i
  {
    if i + 3 < |chain| {
      DisjointFromCount(chain, i + 1);
    }
  }

  /** The two pairs of a disjoint grouping are separate stretches of the
      chain, so in a chain without repeats they share no function. */
  lemma {:induction false} DisjointFromDisjoint(chain: seq<string>, i: nat, g: Grouping)
    requires NoRepeats(chain)
    requires g in DisjointFrom(chain, i)
    ensures |g| == 2 && |g[0]| == 2 && |g[1]| == 2
    ensures forall x :: x in g[0] ==> x !in g[1]
    decreases |chain| - i
  {
    if i + 3 < |chain| {
      var row := DisjointRow(chain, i);
      assert DisjointFrom(chain, i) == row + DisjointFrom(chain, i + 1);
      if g in row {
        var k :| 0 <= k < |row| && row[k] == g;
        DisjointRowDisjoint(chain, i, k);
      } else {
        DisjointFromDisjoint(chain, i + 1, g);
      }
    }
  }

  /** One grouping of row `i`: the pair at i and a later pair clear of it. */
  lemma DisjointRowDisjoint(chain: seq<string>, i: nat, k: nat)
    requires NoRepeats(chain)
    requires i + 3 < |chain| && k < |chain| - 3 - i
    ensures var g := DisjointRow(chain, i)[k];
            |g| == 2 && |g[0]| == 2 && |g[1]| == 2 && forall x :: x in g[0] ==> x !in g[1]
  {
    var g := DisjointRow(chain, i)[k];
    assert g[0] == [chain[i], chain[i + 1]] && g[1] == [chain[i + 2 + k], chain[i + 3 + k]];
    forall x | x in g[0] ensures x !in g[1] {
      var p := if x == chain[i] then i else i + 1;
      assert chain[p] == x;
      assert chain[p] != chain[i + 2 + k] && chain[p] != chain[i + 3 + k];
    }
  }

  /** No candidate except the baseline is empty. */
  lemma CandidatesNonEmpty(chain: seq<string>)
    ensures forall g :: g in AdjacentPairs(chain) + Triples(chain) + DisjointPairs(chain) ==> g != []
  {
    forall g | g in DisjointPairs(chain) ensures g != [] {
      DisjointFromShape(chain, 0, g);
    }
  }

  lemma {:induction false} DisjointFromShape(chain: seq<string>, i: nat, g: Grouping)
    requires g in DisjointFrom(chain, i)
    ensures |g| == 2
    decreases |chain| - i
  {
    if i + 3 < |chain| && g !in DisjointRow(chain, i) {
      DisjointFromShape(chain, i + 1, g);
    }
  }

  /** Lines 436-452 as written: the loops that build the candidates. */
  method BuildCandidates(chain: seq<string>) returns (groups: seq<Grouping>)
    ensures groups == CandidateGroupings(chain)
  {
    groups := AppendAdjacentPairs(chain);
    if |chain| >= 3 {
      groups := AppendTriples(chain, groups);
    }
    if |chain| >= 4 {
      groups := AppendDisjointPairs(chain, groups);
    }
    groups := groups + [[]];
  }

  method AppendAdjacentPairs(chain: seq<string>) returns (groups: seq<Grouping>)
    ensures groups == AdjacentPairs(chain)
  {
    groups := [];
    var i := 0;
    while i < |chain| - 1
      invariant 0 <= i && (|chain| >= 1 ==> i <= |chain| - 1)
      invariant |chain| >= 1 ==> groups == AdjacentPairs(chain)[..i]
      invariant |chain| == 0 ==> groups == []
    {
      groups := groups + [[[chain[i], chain[i + 1]]]];
      i := i + 1;
    }
  }

  method AppendTriples(chain: seq<string>, prefix: seq<Grouping>) returns (groups: seq<Grouping>)
    requires |chain| >= 3
    ensures groups == prefix + Triples(chain)
  {
    groups := prefix;
    var i := 0;
    while i < |chain| - 2
      invariant 0 <= i <= |chain| - 2
      invariant groups == prefix + Triples(chain)[..i]
    {
      groups := groups + [[[chain[i], chain[i + 1], chain[i + 2]]]];
      i := i + 1;
    }
  }

  method AppendDisjointPairs(chain: seq<string>, prefix: seq<Grouping>) returns (groups: seq<Grouping>)
    requires |chain| >= 4
    ensures groups == prefix + DisjointPairs(chain)
  {
    groups := prefix;
    var i := 0;
    while i < |chain| - 3
      invariant 0 <= i <= |chain| - 3
      invariant groups + DisjointFrom(chain, i) == prefix + DisjointPairs(chain)
    {
      ghost var before := groups;
      groups := AppendDisjointRow(chain, i, groups);
      assert DisjointFrom(chain, i) == DisjointRow(chain, i) + DisjointFrom(chain, i + 1);
      i := i + 1;
    }
    assert DisjointFrom(chain, i) == [];
  }

  method AppendDisjointRow(chain: seq<string>, i: nat, prefix: seq<Grouping>) returns (groups: seq<Grouping>)
    requires i + 3 < |chain|
    ensures groups == prefix + DisjointRow(chain, i)
  {
    groups := prefix;
    var row := DisjointRow(chain, i);
    var j := i + 2;
    while j < |chain| - 1
      invariant i + 2 <= j <= |chain| - 1
      invariant groups == prefix + row[..j - i - 2]
    {
      groups := groups + [[[chain[i], chain[i + 1]], [chain[j], chain[j + 1]]]];
      j := j + 1;
    }
    assert row[..j - i - 2] == row;
  }

  /** `"->".join(chain)` */
  function ArrowKey(chain: seq<string>): string
  {
    if chain == [] then ""
    else if |chain| == 1 then chain[0]
    else chain[0] + "->" + ArrowKey(chain[1..])
  }

  /** What may be stored for a chain: all candidates when they fit, or else a
      sample of the fused ones of the allowed size followed by the
      baseline. */
  ghost predicate StoredFor(v: seq<Grouping>, chain: seq<string>, maxGroups: int)
  {
    var all := CandidateGroupings(chain);
    if |all| <= maxGroups then v == all
    else |v| == Min(maxGroups - 1, |all| - 1) + 1 && |v| >= 1 && v[|v| - 1] == [] &&
         multiset(v[..|v| - 1]) <= multiset(all[..|all| - 1])
  }

  function Min(a: int, b: int): int
  {
    if a < b then a else b
  }

  /** `[g for g in fusion_groups if g != []]` */
  function NonEmpty(groups: seq<Grouping>): (r: seq<Grouping>)
    ensures forall g :: g in r <==> g in groups && g != []
  {
    if groups == [] then []
    else (if groups[0] == [] then [] else [groups[0]]) + NonEmpty(groups[1..])
  }

  lemma {:induction false} NonEmptyAll(groups: seq<Grouping>)
    requires forall g :: g in groups ==> g != []
    ensures NonEmpty(groups) == groups
  {
    if groups != [] {
      assert groups[0] in groups;
      forall g | g in groups[1..] ensures g != [] { assert g in groups; }
      NonEmptyAll(groups[1..]);
    }
  }

  /** Lines 407-469: the candidates of each chain, keyed by the chain joined
      with "->"; a later chain with the same key replaces an earlier one.
      With more candidates than `maxGroups` a random sample of the fused ones
      is kept and the baseline is put back last; a negative sample size
      (maxGroups < 1) makes `random.sample` raise. */
  method GenerateFusionGroups(chains: seq<seq<string>>, maxGroups: int)
    returns (r: Result<map<string, seq<Grouping>>, string>)
    ensures r.Ok? <==> forall c :: c in chains ==> |CandidateGroupings(c)| <= maxGroups || maxGroups >= 1
    ensures r.Ok? ==> r.value.Keys == set c | c in chains :: ArrowKey(c)
    ensures r.Ok? ==> forall i :: 0 <= i < |chains| && LastWithKey(chains, i) ==>
                        StoredFor(r.value[ArrowKey(chains[i])], chains[i], maxGroups)
  {
    var result: map<string, seq<Grouping>> := map[];
    for n := 0 to |chains|
      invariant forall c :: c in chains[..n] ==> |CandidateGroupings(c)| <= maxGroups || maxGroups >= 1
      invariant Generated(result, chains[..n], maxGroups)
    {
      var chain := chains[n];
      assert chains[..n + 1] == chains[..n] + [chain];
      var groups := BuildCandidates(chain);
      if |groups| > maxGroups && maxGroups < 1 {
        assert chain in chains;
        return Err("ValueError: sample larger than population or is negative");
      }
      groups := SampleCandidates(chain, groups, maxGroups);
      GeneratedStep(result, chains[..n], chain, groups, maxGroups);
      result := result[ArrowKey(chain) := groups];
    }
    assert chains[..|chains|] == chains;
    return Ok(result);
  }

  /** The result holds one entry per key, and the entry of each chain that
      is the last with its key is what may be stored for it. */
  ghost predicate Generated(result: map<string, seq<Grouping>>, chains: seq<seq<string>>, maxGroups: int)
  {
    result.Keys == (set c | c in chains :: ArrowKey(c)) &&
    forall i :: 0 <= i < |chains| && LastWithKey(chains, i) ==>
      StoredFor(result[ArrowKey(chains[i])], chains[i], maxGroups)
  }

  lemma GeneratedStep(result: map<string, seq<Grouping>>, chains: seq<seq<string>>, chain: seq<string>,
                      groups: seq<Grouping>, maxGroups: int)
    requires Generated(result, chains, maxGroups)
    requires StoredFor(groups, chain, maxGroups)
    ensures Generated(result[ArrowKey(chain) := groups], chains + [chain], maxGroups)
  {
    var s := chains + [chain];
    var after := result[ArrowKey(chain) := groups];
    KeysStep(result, chains, chain, groups);
    forall i | 0 <= i < |s| && LastWithKey(s, i) ensures StoredFor(after[ArrowKey(s[i])], s[i], maxGroups) {
      GeneratedAt(result, chains, chain, groups, maxGroups, i);
    }
  }

  /** The entry of one chain that is last with its key after the step. */
  lemma GeneratedAt(result: map<string, seq<Grouping>>, chains: seq<seq<string>>, chain: seq<string>,
                    groups: seq<Grouping>, maxGroups: int, i: nat)
    requires Generated(result, chains, maxGroups)
    requires StoredFor(groups, chain, maxGroups)
    requires i < |chains| + 1 && LastWithKey(chains + [chain], i)
    ensures StoredFor(result[ArrowKey(chain) := groups][ArrowKey((chains + [chain])[i])], (chains + [chain])[i], maxGroups)
  {
    if i < |chains| {
      EarlierEntryKept(result, chains, chain, groups, i);
    } else {
      assert (chains + [chain])[i] == chain;
    }
  }

  lemma KeysStep(result: map<string, seq<Grouping>>, chains: seq<seq<string>>, chain: seq<string>,
                 groups: seq<Grouping>)
    requires result.Keys == (set c | c in chains :: ArrowKey(c))
    ensures result[ArrowKey(chain) := groups].Keys == set c | c in chains + [chain] :: ArrowKey(c)
  {
    assert forall c :: c in chains + [chain] <==> c in chains || c == chain;
  }

  lemma EarlierEntryKept(result: map<string, seq<Grouping>>, chains: seq<seq<string>>, chain: seq<string>,
                         groups: seq<Grouping>, i: nat)
    requires i < |chains| && result.Keys == (set c | c in chains :: ArrowKey(c))
    requires LastWithKey(chains + [chain], i)
    ensures LastWithKey(chains, i)
    ensures (chains + [chain])[i] == chains[i]
    ensures result[ArrowKey(chain) := groups][ArrowKey(chains[i])] == result[ArrowKey(chains[i])]
  {
    var s := chains + [chain];
    assert s[|chains|] == chain;
    forall j | i < j < |chains| ensures ArrowKey(chains[j]) != ArrowKey(chains[i]) {
      assert s[j] == chains[j];
    }
  }

  /** No later chain shares the key of chain `i`. */
  ghost predicate LastWithKey(chains: seq<seq<string>>, i: int)
    requires 0 <= i < |chains|
  {
    forall j :: i < j < |chains| ==> ArrowKey(chains[j]) != ArrowKey(chains[i])
  }

  /** Lines 455-461: too many candidates are cut down to a random sample of
      the fused ones, with the baseline put back last. */
  method SampleCandidates(chain: seq<string>, candidates: seq<Grouping>, maxGroups: int)
    returns (groups: seq<Grouping>)
    requires candidates == CandidateGroupings(chain)
    requires |candidates| <= maxGroups || maxGroups >= 1
    ensures StoredFor(groups, chain, maxGroups)
  {
    groups := candidates;
    if |groups| > maxGroups {
      FusedCandidates(chain);
      var rest := NonEmpty(groups);
      var selected := Sample(rest, Min(maxGroups - 1, |rest|));
      groups := selected + [[]];
      assert groups[..|groups| - 1] == selected;
    }
  }

  /** `random.sample(xs, size)`: `size` of the elements, each used at most
      as often as it occurs. Which ones is left open. */
  method Sample<T(==)>(xs: seq<T>, size: nat) returns (s: seq<T>)
    requires size <= |xs|
    ensures |s| == size && multiset(s) <= multiset(xs)
  {
    assert multiset(xs[..size]) <= multiset(xs) by {
      assert xs == xs[..size] + xs[size..];
    }
    s :| |s| == size && multiset(s) <= multiset(xs);
  }

  /** Filtering out the empty candidates leaves exactly the fused ones: all
      but the final baseline. */
  lemma FusedCandidates(chain: seq<string>)
    ensures var all := CandidateGroupings(chain);
            |all| >= 1 && NonEmpty(all) == all[..|all| - 1]
  {
    var fused := AdjacentPairs(chain) + Triples(chain) + DisjointPairs(chain);
    var all := CandidateGroupings(chain);
    assert all == fused + [[]] && all[..|all| - 1] == fused;
    CandidatesNonEmpty(chain);
    NonEmptyAll(fused);
    NonEmptyAppendBaseline(fused);
  }

  lemma NonEmptyAppendBaseline(groups: seq<Grouping>)
    ensures NonEmpty(groups + [[]]) == NonEmpty(groups)
  {
    if groups != [] {
      assert (groups + [[]])[1..] == groups[1..] + [[]];
      NonEmptyAppendBaseline(groups[1..]);
    }
  }

  // ---------------------------------------------------------------------------
  // _generate_memory_configurations

  /** Line 253: the sizes tried for a function the parameter file does not
      list. */
  const DefaultMemoryConfigs: seq<int> := [128, 256, 512, 1024]

  /** Line 490: the sizes tried for `f`. */
  function Options(f: string, functionMemoryConfigs: map<string, seq<int>>): seq<int>
  {
    if f in functionMemoryConfigs then functionMemoryConfigs[f] else DefaultMemoryConfigs
  }

  /** A memory size per function. */
  type MemoryConfig = map<string, int>

  /** Lines 500-503 for one configuration: a copy per size, `f` set to it. */
  function Row(config: MemoryConfig, f: string, options: seq<int>): (r: seq<MemoryConfig>)
    ensures |r| == |options|
  {
    seq(|options|, k requires 0 <= k < |options| => config[f := options[k]])
  }

  /** Lines 498-503: every configuration extended by every size, in order. */
  function Cross(configs: seq<MemoryConfig>, f: string, options: seq<int>): (r: seq<MemoryConfig>)
    ensures |r| == |configs| * |options|
  {
    if configs == [] then []
    else Cross(configs[..|configs| - 1], f, options) + Row(configs[|configs| - 1], f, options)
  }

  /** Lines 493-505 for one function: a first function with no
      configurations yet starts the list, any later one multiplies it. */
  function Expand(configs: seq<MemoryConfig>, f: string, options: seq<int>): seq<MemoryConfig>
  {
    if configs == [] then Row(map[], f, options) else Cross(configs, f, options)
  }

  /** The configurations of a chain without any sampling. */
  function Product(chain: seq<string>, functionMemoryConfigs: map<string, seq<int>>): seq<MemoryConfig>
  {
    if chain == [] then []
    else
      var f := chain[|chain| - 1];
      Expand(Product(chain[..|chain| - 1], functionMemoryConfigs), f, Options(f, functionMemoryConfigs))
  }

  /** The number of size combinations of a chain. */
  function Combinations(chain: seq<string>, functionMemoryConfigs: map<string, seq<int>>): nat
  {
    if chain == [] then 1
    else
      var f := chain[|chain| - 1];
      Combinations(chain[..|chain| - 1], functionMemoryConfigs) * |Options(f, functionMemoryConfigs)|
  }

  /** A configuration only sets functions of the chain, each to one of its
      sizes. */
  ghost predicate Assigns(config: MemoryConfig, chain: seq<string>, functionMemoryConfigs: map<string, seq<int>>)
  {
    forall f :: f in config ==> f in chain && config[f] in Options(f, functionMemoryConfigs)
  }

  /** With at least one size per function, a chain has exactly as many
      configurations as size combinations, and each one sets every function
      of the chain to one of its sizes. */
  lemma {:induction false} ProductComplete(chain: seq<string>, functionMemoryConfigs: map<string, seq<int>>)
    requires |chain| >= 1
    requires forall f :: f in chain ==> |Options(f, functionMemoryConfigs)| >= 1
    ensures |Product(chain, functionMemoryConfigs)| == Combinations(chain, functionMemoryConfigs)
    ensures forall c :: c in Product(chain, functionMemoryConfigs) ==>
              Assigns(c, chain, functionMemoryConfigs) && forall f :: f in chain ==> f in c
  {
    var fmc := functionMemoryConfigs;
    var prefix, f := chain[..|chain| - 1], chain[|chain| - 1];
    var opts := Options(f, fmc);
    assert f in chain;
    if prefix == [] {
      assert Product(prefix, fmc) == [] && Combinations(prefix, fmc) == 1;
      forall c | c in Product(chain, fmc) ensures Assigns(c, chain, fmc) && forall g :: g in chain ==> g in c {
        assert chain == [f];
      }
    } else {
      forall g | g in prefix ensures |Options(g, fmc)| >= 1 { assert g in chain; }
      ProductComplete(prefix, fmc);
      var before := Product(prefix, fmc);
      assert before != [] by {
        CombinationsPositive(prefix, fmc);
      }
      assert chain == prefix + [f];
      CrossAssignsAll(chain, fmc, before);
    }
  }

  lemma CrossAssignsAll(chain: seq<string>, fmc: map<string, seq<int>>, before: seq<MemoryConfig>)
    requires |chain| >= 1
    requires forall c :: c in before ==> Assigns(c, chain[..|chain| - 1], fmc) &&
                                         forall g :: g in chain[..|chain| - 1] ==> g in c
    ensures forall c :: c in Cross(before, chain[|chain| - 1], Options(chain[|chain| - 1], fmc)) ==>
              Assigns(c, chain, fmc) && forall g :: g in chain ==> g in c
  {
    var prefix, f := chain[..|chain| - 1], chain[|chain| - 1];
    var opts := Options(f, fmc);
    assert chain == prefix + [f];
    forall c | c in Cross(before, f, opts) ensures Assigns(c, chain, fmc) && forall g :: g in chain ==> g in c {
      CrossMember(before, f, opts, c);
      var b :| b in before && exists k :: 0 <= k < |opts| && c == b[f := opts[k]];
      forall g | g in chain ensures g in c {
        if g != f {
          assert g in prefix;
        }
      }
      forall g | g in c ensures g in chain && c[g] in Options(g, fmc) {
        if g != f { assert g in prefix; }
      }
    }
  }

  lemma {:induction false} CombinationsPositive(chain: seq<string>, functionMemoryConfigs: map<string, seq<int>>)
    requires forall f :: f in chain ==> |Options(f, functionMemoryConfigs)| >= 1
    ensures Combinations(chain, functionMemoryConfigs) >= 1
  {
    if chain != [] {
      var prefix := chain[..|chain| - 1];
      forall g | g in prefix ensures |Options(g, functionMemoryConfigs)| >= 1 { assert g in chain; }
      CombinationsPositive(prefix, functionMemoryConfigs);
      assert chain[|chain| - 1] in chain;
    }
  }

  /** Every element of a product is an earlier configuration with `f` set
      to one of the sizes. */
  lemma {:induction false} CrossMember(configs: seq<MemoryConfig>, f: string, options: seq<int>, c: MemoryConfig)
    requires c in Cross(configs, f, options)
    ensures exists b :: b in configs && exists k :: 0 <= k < |options| && c == b[f := options[k]]
  {
    var last := configs[|configs| - 1];
    if c in Cross(configs[..|configs| - 1], f, options) {
      CrossMember(configs[..|configs| - 1], f, options, c);
      var b :| b in configs[..|configs| - 1] && exists k :: 0 <= k < |options| && c == b[f := options[k]];
      assert b in configs;
    } else {
      var row := Row(last, f, options);
      var k :| 0 <= k < |row| && row[k] == c;
      assert last in configs;
    }
  }

  /** Every function of the chain has at least one size to try. */
  ghost predicate AllHaveOptions(chain: seq<string>, functionMemoryConfigs: map<string, seq<int>>)
  {
    forall f :: f in chain ==> |Options(f, functionMemoryConfigs)| >= 1
  }

  /** How many configurations the loop holds after the chain: the first
      function (or any function met with an empty list) starts one per size,
      every later one multiplies the list, which is cut back to 50 whenever
      it grows beyond that. */
  function ConfigCount(chain: seq<string>, functionMemoryConfigs: map<string, seq<int>>): nat
  {
    if chain == [] then 0
    else
      var prev := ConfigCount(chain[..|chain| - 1], functionMemoryConfigs);
      var k := |Options(chain[|chain| - 1], functionMemoryConfigs)|;
      if prev == 0 then k else if prev * k > 50 then 50 else prev * k
  }

  /** With at least one size per function the count is never 0 and, from
      the second function on, it is the number of size combinations capped
      at 50: exactly 50 whenever there are more combinations than that. */
  lemma {:induction false} ConfigCountIsCapped(chain: seq<string>, functionMemoryConfigs: map<string, seq<int>>)
    requires |chain| >= 1 && AllHaveOptions(chain, functionMemoryConfigs)
    ensures ConfigCount(chain, functionMemoryConfigs) >= 1
    ensures |chain| == 1 ==> ConfigCount(chain, functionMemoryConfigs) == Combinations(chain, functionMemoryConfigs)
    ensures |chain| >= 2 ==>
              ConfigCount(chain, functionMemoryConfigs) ==
              (if Combinations(chain, functionMemoryConfigs) > 50 then 50 else Combinations(chain, functionMemoryConfigs))
  {
    var fmc := functionMemoryConfigs;
    var prefix, f := chain[..|chain| - 1], chain[|chain| - 1];
    var k := |Options(f, fmc)|;
    assert f in chain;
    if prefix == [] {
      assert Combinations(prefix, fmc) == 1;
    } else {
      forall g | g in prefix ensures |Options(g, fmc)| >= 1 { assert g in chain; }
      ConfigCountIsCapped(prefix, fmc);
      CombinationsPositive(prefix, fmc);
      var p := Combinations(prefix, fmc);
      assert Combinations(chain, fmc) == p * k;
      CappedProduct(p, k);
    }
  }

  /** Capping before or after multiplying by a positive factor is the same. */
  lemma CappedProduct(p: nat, k: nat)
    requires p >= 1 && k >= 1
    ensures p * k >= p
    ensures p > 50 ==> 50 * k >= 50
  {
  }

  /** One function more: the count as the loop updates it. */
  lemma ConfigCountStep(chain: seq<string>, n: nat, functionMemoryConfigs: map<string, seq<int>>)
    requires n < |chain|
    ensures var prev := ConfigCount(chain[..n], functionMemoryConfigs);
            var k := |Options(chain[n], functionMemoryConfigs)|;
            ConfigCount(chain[..n + 1], functionMemoryConfigs) ==
              if prev == 0 then k else if prev * k > 50 then 50 else prev * k
  {
    assert chain[..n + 1][..n] == chain[..n];
  }

  /** No sampling step is reached: no prefix of the chain has more than 50
      configurations. */
  ghost predicate Unsampled(chain: seq<string>, functionMemoryConfigs: map<string, seq<int>>)
  {
    forall n :: 1 <= n <= |chain| ==> |Product(chain[..n], functionMemoryConfigs)| <= 50
  }

  /** Lines 471-515: the configurations are built function by function;
      whenever a product exceeds 50 a random sample of 50 of them is kept.
      Every configuration sets only functions of the chain, each to one of
      its sizes, and when no sampling happens the result is the whole
      product. The list holds ConfigCount configurations, and when every
      function has a size each of them sets every function of the chain. */
  method GenerateMemoryConfigurations(chain: seq<string>, functionMemoryConfigs: map<string, seq<int>>)
    returns (configs: seq<MemoryConfig>)
    ensures forall c :: c in configs ==> Assigns(c, chain, functionMemoryConfigs)
    ensures Unsampled(chain, functionMemoryConfigs) ==> configs == Product(chain, functionMemoryConfigs)
    ensures |configs| == ConfigCount(chain, functionMemoryConfigs)
    ensures AllHaveOptions(chain, functionMemoryConfigs) ==>
              forall c :: c in configs ==> forall f :: f in chain ==> f in c
  {
    var fmc := functionMemoryConfigs;
    configs := [];
    for n := 0 to |chain|
      invariant forall c :: c in configs ==> Assigns(c, chain[..n], fmc)
      invariant Unsampled(chain[..n], fmc) ==> configs == Product(chain[..n], fmc)
      invariant |configs| == ConfigCount(chain[..n], fmc)
      invariant AllHaveOptions(chain[..n], fmc) ==> forall c :: c in configs ==> forall g :: g in chain[..n] ==> g in c
    {
      var f := chain[n];
      var options := Options(f, fmc);
      ghost var before := configs;
      if configs == [] {
        configs := seq(|options|, k requires 0 <= k < |options| => map[f := options[k]]);
        assert configs == Row(map[], f, options);
      } else {
        configs := CrossStep(configs, f, options);
        if |configs| > 50 {
          var full := configs;
          configs := Sample(full, 50);
          forall c | c in configs ensures c in full {
            assert c in multiset(configs);
          }
        }
      }
      MemoryStep(chain, n, fmc, before, configs);
      ConfigCountStep(chain, n, fmc);
      if AllHaveOptions(chain[..n + 1], fmc) {
        CoverStep(chain, n, fmc, before, configs);
      }
    }
    assert chain[..|chain|] == chain;
  }

  /** With a size for every function the list is never empty after the
      first function, so each function extends every configuration. */
  lemma CoverStep(chain: seq<string>, n: nat, fmc: map<string, seq<int>>,
                  before: seq<MemoryConfig>, after: seq<MemoryConfig>)
    requires n < |chain| && AllHaveOptions(chain[..n + 1], fmc)
    requires |before| == ConfigCount(chain[..n], fmc)
    requires AllHaveOptions(chain[..n], fmc) ==> forall c :: c in before ==> forall g :: g in chain[..n] ==> g in c
    requires forall c :: c in after ==> c in Expand(before, chain[n], Options(chain[n], fmc))
    ensures forall c :: c in after ==> forall g :: g in chain[..n + 1] ==> g in c
  {
    var f, opts := chain[n], Options(chain[n], fmc);
    assert chain[..n + 1] == chain[..n] + [f];
    assert AllHaveOptions(chain[..n], fmc);
    if n >= 1 {
      ConfigCountIsCapped(chain[..n], fmc);
    }
    forall c | c in after ensures forall g :: g in chain[..n + 1] ==> g in c {
      if before == [] {
        var k :| 0 <= k < |opts| && Row(map[], f, opts)[k] == c;
      } else {
        CrossMember(before, f, opts, c);
        var b :| b in before && exists k :: 0 <= k < |opts| && c == b[f := opts[k]];
      }
    }
  }

  /** One function more keeps the configurations sound, and exact while
      nothing is sampled. */
  lemma MemoryStep(chain: seq<string>, n: nat, fmc: map<string, seq<int>>,
                   before: seq<MemoryConfig>, after: seq<MemoryConfig>)
    requires n < |chain|
    requires forall c :: c in before ==> Assigns(c, chain[..n], fmc)
    requires Unsampled(chain[..n], fmc) ==> before == Product(chain[..n], fmc)
    requires forall c :: c in after ==> c in Expand(before, chain[n], Options(chain[n], fmc))
    requires |Expand(before, chain[n], Options(chain[n], fmc))| <= 50 ==>
               after == Expand(before, chain[n], Options(chain[n], fmc))
    ensures forall c :: c in after ==> Assigns(c, chain[..n + 1], fmc)
    ensures Unsampled(chain[..n + 1], fmc) ==> after == Product(chain[..n + 1], fmc)
  {
    var f := chain[n];
    assert chain[..n + 1] == chain[..n] + [f];
    forall c | c in after ensures Assigns(c, chain[..n + 1], fmc) {
      ExpandSound(before, chain[..n], f, fmc, c);
    }
    if Unsampled(chain[..n + 1], fmc) {
      MemoryExact(chain, n, fmc, before, after);
    }
  }

  /** A configuration of an extended list sets the new function to one of its
      sizes and the others as before. */
  lemma ExpandSound(before: seq<MemoryConfig>, prefix: seq<string>, f: string,
                    fmc: map<string, seq<int>>, c: MemoryConfig)
    requires forall b :: b in before ==> Assigns(b, prefix, fmc)
    requires c in Expand(before, f, Options(f, fmc))
    ensures Assigns(c, prefix + [f], fmc)
  {
    var opts := Options(f, fmc);
    if before == [] {
      var k :| 0 <= k < |opts| && Row(map[], f, opts)[k] == c;
    } else {
      CrossMember(before, f, opts, c);
      var b :| b in before && exists k :: 0 <= k < |opts| && c == b[f := opts[k]];
      forall g | g in c ensures g in prefix + [f] && c[g] in Options(g, fmc) {
        if g != f { assert g in prefix; }
      }
    }
  }

  /** While nothing is sampled, the list after one more function is the
      product over the longer prefix. */
  lemma MemoryExact(chain: seq<string>, n: nat, fmc: map<string, seq<int>>,
                    before: seq<MemoryConfig>, after: seq<MemoryConfig>)
    requires n < |chain|
    requires Unsampled(chain[..n], fmc) ==> before == Product(chain[..n], fmc)
    requires |Expand(before, chain[n], Options(chain[n], fmc))| <= 50 ==>
               after == Expand(before, chain[n], Options(chain[n], fmc))
    requires Unsampled(chain[..n + 1], fmc)
    ensures after == Product(chain[..n + 1], fmc)
  {
    var next := chain[..n + 1];
    assert next[..|next| - 1] == chain[..n] && next[|next| - 1] == chain[n];
    UnsampledShorter(next, fmc);
    assert Product(next, fmc) == Expand(Product(chain[..n], fmc), chain[n], Options(chain[n], fmc));
  }

  /** A chain that is never sampled has at most 50 configurations, and
      neither is its chain without the last function. */
  lemma UnsampledShorter(chain: seq<string>, fmc: map<string, seq<int>>)
    requires |chain| >= 1 && Unsampled(chain, fmc)
    ensures |Product(chain, fmc)| <= 50
    ensures Unsampled(chain[..|chain| - 1], fmc)
  {
    var prefix := chain[..|chain| - 1];
    assert chain[..|chain|] == chain;
    forall m | 1 <= m <= |prefix| ensures |Product(prefix[..m], fmc)| <= 50 {
      assert prefix[..m] == chain[..m];
    }
  }

  /** Lines 498-503 as written: the nested loops over the configurations and
      the sizes. */
  method CrossStep(configs: seq<MemoryConfig>, f: string, options: seq<int>) returns (result: seq<MemoryConfig>)
    ensures result == Cross(configs, f, options)
  {
    result := [];
    for i := 0 to |configs|
      invariant result == Cross(configs[..i], f, options)
    {
      var config := configs[i];
      for j := 0 to |options|
        invariant result == Cross(configs[..i], f, options) + Row(config, f, options)[..j]
      {
        result := result + [config[f := options[j]]];
      }
      assert configs[..i + 1][..i] == configs[..i];
      assert Row(config, f, options)[..|options|] == Row(config, f, options);
    }
    assert configs[..|configs|] == configs;
  }

  // ---------------------------------------------------------------------------
  // _get_test_data_for_function

  /** The JSON values of the test data file. */
  datatype Json = JStr(s: string) | JNum(n: int) | JObj(fields: map<string, Json>) | JOther

  /** `str(n)` for a natural number. */
  function NatToString(n: nat): (r: string)
    ensures |r| >= 1 && AllDigits(r)
  {
    if n < 10 then [Digit(n)] else NatToString(n / 10) + [Digit(n % 10)]
  }

  function Digit(d: nat): (c: char)
    requires d < 10
    ensures '0' <= c <= '9'
  {
    ['0', '1', '2', '3', '4', '5', '6', '7', '8', '9'][d]
  }

  predicate AllDigits(s: string)
  {
    forall i :: 0 <= i < |s| ==> '0' <= s[i] <= '9'
  }

  /** The value of a string of decimal digits. */
  function DigitsValue(s: string): nat
    requires AllDigits(s)
  {
    if s == [] then 0 else DigitsValue(s[..|s| - 1]) * 10 + ((s[|s| - 1] as int) - ('0' as int))
  }

  /** Reading the digits back gives the number. */
  lemma {:induction false} NatToStringRoundTrip(n: nat)
    ensures DigitsValue(NatToString(n)) == n
  {
    var s := NatToString(n);
    if n >= 10 {
      NatToStringRoundTrip(n / 10);
      assert s[..|s| - 1] == NatToString(n / 10);
    }
  }

  /** Line 1077: `f"test_{config_id}_{position}"`. */
  function UserId(configId: nat, position: nat): string
  {
    "test_" + NatToString(configId) + "_" + NatToString(position)
  }

  /** Different configurations or positions get different user ids. */
  lemma UserIdInjective(a: nat, p: nat, b: nat, q: nat)
    requires UserId(a, p) == UserId(b, q)
    ensures a == b && p == q
  {
    TaggedInjective("test_", NatToString(a), NatToString(p), NatToString(b), NatToString(q));
    NatToStringRoundTrip(a);
    NatToStringRoundTrip(b);
    NatToStringRoundTrip(p);
    NatToStringRoundTrip(q);
  }

  /** A fixed prefix, digits, an underscore and a suffix: equal strings of
      this shape have equal digits and equal suffixes. */
  lemma TaggedInjective(pre: string, x: string, y: string, x': string, y': string)
    requires AllDigits(x) && AllDigits(x')
    requires pre + x + "_" + y == pre + x' + "_" + y'
    ensures x == x' && y == y'
  {
    var s, t := pre + x + "_" + y, pre + x' + "_" + y';
    assert s[|pre|..] == x + "_" + y;
    assert t[|pre|..] == x' + "_" + y';
    SplitAtUnderscore(x, y, x', y');
  }

  lemma SplitAtUnderscore(x: string, y: string, x': string, y': string)
    requires AllDigits(x) && AllDigits(x')
    requires x + "_" + y == x' + "_" + y'
    ensures x == x' && y == y'
  {
    var s := x + "_" + y;
    assert s == x + ("_" + y) && s == x' + ("_" + y');
    assert s[|x|] == '_' && s[|x'|] == '_';
    assert |x| == |x'|;
    assert x == s[..|x|] == x';
    assert y == s[|x| + 1..] == y';
  }

  /** Lines 1075-1078. */
  function DefaultData(configId: nat, position: nat): map<string, Json>
  {
    map["operation" := JStr("test"), "userId" := JStr(UserId(configId, position))]
  }

  /** Lines 1085-1092: an entry with several operations is narrowed to its
      "add" payload if it has one and to its "get" payload otherwise. */
  function Payload(data: Json): Json
  {
    if data.JObj? && ("add" in data.fields || "get" in data.fields || "empty" in data.fields) then
      var op := if "add" in data.fields then "add" else "get";
      if op in data.fields then data.fields[op] else JObj(map[])
    else data
  }

  /** Lines 1062-1104: the defaults, overlaid by the function's payload when
      the test data has an entry for it, and the user id always set last. */
  function TestDataForFunction(testData: map<string, Json>, funcName: string, configId: nat, position: nat)
    : (r: map<string, Json>)
    ensures "userId" in r && r["userId"] == JStr(UserId(configId, position))
    ensures "operation" in r
    ensures funcName !in testData ==> r == DefaultData(configId, position)
    ensures funcName in testData && Payload(testData[funcName]).JObj? ==>
              forall k :: k in Payload(testData[funcName]).fields && k != "userId" ==>
                k in r && r[k] == Payload(testData[funcName]).fields[k]
    ensures funcName in testData && !Payload(testData[funcName]).JObj? ==> r == DefaultData(configId, position)
    ensures funcName in testData && Payload(testData[funcName]).JObj? ==>
              r.Keys == DefaultData(configId, position).Keys + Payload(testData[funcName]).fields.Keys
    ensures !(funcName in testData && Payload(testData[funcName]).JObj? && "operation" in Payload(testData[funcName]).fields) ==>
              r["operation"] == JStr("test")
  {
    var defaults := DefaultData(configId, position);
    if funcName in testData then
      var data := Payload(testData[funcName]);
      var merged := if data.JObj? then defaults + data.fields else defaults;
      merged["userId" := JStr(UserId(configId, position))]
    else defaults
  }
}
