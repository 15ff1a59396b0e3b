/** The fusion-setup algebra and the latency-driven local search: a setup is a
    list of fusion groups of function names, encoded canonically as a string
    ("A.B,C"); measured runs are grouped by setup string; the search starts
    from the setup with the lowest median billed duration and proposes a
    neighbouring setup that has not been measured yet. */
module FunctionFusionOptimizer {
  import opened Wrappers
  import opened Strs

  /** A fusion setup: groups of function names deployed together. */
  type Setup = seq<seq<string>>

  // ---------------------------------------------------------------------------
  // Setup strings

  /** `".".join(sorted(group))` */
  function GroupKey(group: seq<string>): string
  {
    Join(SortStrings(group), '.')
  }

  /** `setup_from_list`: sort each group, join it with '.', sort the group
      strings and join them with ','. */
  function SetupFromList(groups: Setup): string
  {
    Join(SortStrings(MapSeq(GroupKey, groups)), ',')
  }

  function SplitOnDot(group: string): seq<string>
  {
    Split(group, '.')
  }

  /** `list_from_setup`: split on ',' and then each piece on '.'. There is
      always at least one group, no group is empty, and no name holds a ','
      or a '.'. */
  function ListFromSetup(setup: string): (r: Setup)
    ensures |r| >= 1
    ensures forall g :: g in r ==> |g| >= 1 && forall x :: x in g ==> '.' !in x && ',' !in x
  {
    var pieces := Split(setup, ',');
    var r := MapSeq(SplitOnDot, pieces);
    assert forall g :: g in r ==> |g| >= 1 && forall x :: x in g ==> '.' !in x && ',' !in x by {
      forall g | g in r ensures |g| >= 1 && forall x :: x in g ==> '.' !in x && ',' !in x {
        var i :| 0 <= i < |r| && r[i] == g;
        assert pieces[i] in pieces;
        forall x | x in g ensures ',' !in x {
          var j :| 0 <= j < |g| && g[j] == x;
          SplitPieceWithin(pieces[i], '.', j, ',');
        }
      }
    }
    r
  }

  /** A piece of a split holds no character that the whole string lacks. */
  lemma {:induction false} SplitPieceWithin(s: string, sep: char, j: nat, c: char)
    requires c !in s
    requires j < |Split(s, sep)|
    ensures c !in Split(s, sep)[j]
    decreases |s|
  {
    var k := IndexOf(s, sep);
    if k < |s| {
      if j == 0 {
        assert Split(s, sep)[0] == s[..k];
      } else {
        var t := s[k + 1..];
        assert c !in t by {
          forall i | 0 <= i < |t| ensures t[i] != c {
            assert t[i] == s[k + 1 + i];
          }
        }
        SplitPieceWithin(s[k + 1..], sep, j - 1, c);
      }
    }
  }

  /** A well-formed list of groups: at least one group, no empty group, and no
      name that holds a separator. */
  predicate Encodable(groups: Setup)
  {
    |groups| >= 1 &&
    forall g :: g in groups ==> |g| >= 1 && forall x :: x in g ==> '.' !in x && ',' !in x
  }

  /** Permuting the groups does not change the setup string. */
  lemma SetupFromListGroupOrder(a: Setup, b: Setup)
    requires multiset(a) == multiset(b)
    ensures SetupFromList(a) == SetupFromList(b)
  {
    MapSeqMultiset(GroupKey, a, b);
    SortStringsCanonical(MapSeq(GroupKey, a), MapSeq(GroupKey, b));
  }

  /** Permuting the members of any group does not change the setup string. */
  lemma SetupFromListMemberOrder(a: Setup, b: Setup)
    requires |a| == |b|
    requires forall i :: 0 <= i < |a| ==> multiset(a[i]) == multiset(b[i])
    ensures SetupFromList(a) == SetupFromList(b)
  {
    forall i | 0 <= i < |a| ensures GroupKey(a[i]) == GroupKey(b[i]) {
      SortStringsCanonical(a[i], b[i]);
    }
    assert MapSeq(GroupKey, a) == MapSeq(GroupKey, b);
  }

  /** Each group sorted. */
  function SortGroup(group: seq<string>): seq<string>
  {
    SortStrings(group)
  }

  /** A group string splits back into the sorted group. */
  lemma GroupKeyRoundTrip(g: seq<string>)
    requires |g| >= 1 && forall x :: x in g ==> '.' !in x
    ensures SplitOnDot(GroupKey(g)) == SortStrings(g)
  {
    var sg := SortStrings(g);
    forall p | p in sg ensures '.' !in p {
      assert p in multiset(sg);
    }
    SplitJoin(sg, '.');
  }

  /** No group string holds a ','. */
  lemma GroupKeysHaveNoComma(groups: Setup)
    requires Encodable(groups)
    ensures forall p :: p in SortStrings(MapSeq(GroupKey, groups)) ==> ',' !in p
  {
    var keys := MapSeq(GroupKey, groups);
    forall p | p in SortStrings(keys) ensures ',' !in p {
      assert p in multiset(SortStrings(keys));
      assert p in multiset(keys);
      var i :| 0 <= i < |keys| && keys[i] == p;
      assert groups[i] in groups;
      var sg := SortStrings(groups[i]);
      forall x | x in sg ensures ',' !in x { assert x in multiset(sg); }
      JoinNotContains(sg, '.', ',');
    }
  }

  /** Decoding an encoded setup yields its groups, each sorted, in some order. */
  lemma DecodedGroups(groups: Setup)
    requires Encodable(groups)
    ensures multiset(ListFromSetup(SetupFromList(groups))) == multiset(MapSeq(SortGroup, groups))
  {
    var keys := MapSeq(GroupKey, groups);
    var sk := SortStrings(keys);
    assert ListFromSetup(SetupFromList(groups)) == MapSeq(SplitOnDot, sk) by {
      GroupKeysHaveNoComma(groups);
      SplitJoin(sk, ',');
    }
    MapSeqMultiset(SplitOnDot, sk, keys);
    KeysSplitBack(groups);
  }

  lemma KeysSplitBack(groups: Setup)
    requires Encodable(groups)
    ensures MapSeq(SplitOnDot, MapSeq(GroupKey, groups)) == MapSeq(SortGroup, groups)
  {
    var keys := MapSeq(GroupKey, groups);
    var twice, sorted := MapSeq(SplitOnDot, keys), MapSeq(SortGroup, groups);
    forall i | 0 <= i < |groups| ensures twice[i] == sorted[i] {
      var g := groups[i];
      assert g in groups;
      assert |g| >= 1 && forall x :: x in g ==> '.' !in x;
      GroupKeyRoundTrip(g);
      assert twice[i] == SplitOnDot(keys[i]) == SplitOnDot(GroupKey(g));
    }
  }

  lemma SortedGroupsSorted(groups: Setup)
    ensures forall g :: g in MapSeq(SortGroup, groups) ==> Sorted(g)
  {
  }

  lemma PermutedStaysSorted(r: Setup, sorted: Setup)
    requires multiset(r) == multiset(sorted)
    requires forall g :: g in sorted ==> Sorted(g)
    ensures forall i :: 0 <= i < |r| ==> Sorted(r[i])
  {
    forall i | 0 <= i < |r| ensures Sorted(r[i]) {
      assert r[i] in multiset(sorted);
    }
  }

  /** The group strings of a decoded setup are the sorted group strings of the
      encoded one, so the decoded groups come in ascending order of their
      strings. */
  lemma DecodedOrder(groups: Setup)
    requires Encodable(groups)
    ensures MapSeq(GroupKey, ListFromSetup(SetupFromList(groups))) == SortStrings(MapSeq(GroupKey, groups))
  {
    DecodeSplits(groups);
    RekeyGroupStrings(groups);
  }

  /** Decoding splits each of the sorted group strings on '.'. */
  lemma DecodeSplits(groups: Setup)
    requires Encodable(groups)
    ensures ListFromSetup(SetupFromList(groups)) == MapSeq(SplitOnDot, SortStrings(MapSeq(GroupKey, groups)))
  {
    GroupKeysHaveNoComma(groups);
    SplitJoin(SortStrings(MapSeq(GroupKey, groups)), ',');
  }

  lemma RekeyGroupStrings(groups: Setup)
    requires Encodable(groups)
    ensures var sk := SortStrings(MapSeq(GroupKey, groups));
            MapSeq(GroupKey, MapSeq(SplitOnDot, sk)) == sk
  {
    var sk := SortStrings(MapSeq(GroupKey, groups));
    forall key | key in sk ensures GroupKey(SplitOnDot(key)) == key {
      assert key in multiset(sk);
      KeyOfGroupString(groups, key);
    }
    RekeyAll(sk);
  }

  /** Keys that each survive a split and re-join survive it as a list. */
  lemma RekeyAll(keys: seq<string>)
    requires forall key :: key in keys ==> GroupKey(SplitOnDot(key)) == key
    ensures MapSeq(GroupKey, MapSeq(SplitOnDot, keys)) == keys
  {
    var rekeyed := MapSeq(GroupKey, MapSeq(SplitOnDot, keys));
    forall i | 0 <= i < |keys| ensures rekeyed[i] == keys[i] {
      assert keys[i] in keys;
    }
  }

  /** Each group string of an encodable setup keys back to itself. */
  lemma KeyOfGroupString(groups: Setup, key: string)
    requires Encodable(groups)
    requires key in multiset(MapSeq(GroupKey, groups))
    ensures GroupKey(SplitOnDot(key)) == key
  {
    var keys := MapSeq(GroupKey, groups);
    var k :| 0 <= k < |keys| && keys[k] == key;
    assert groups[k] in groups;
    KeyOfDecodedGroup(groups[k]);
  }

  /** Re-keying a decoded group string gives the string back. */
  lemma KeyOfDecodedGroup(g: seq<string>)
    requires |g| >= 1 && forall x :: x in g ==> '.' !in x
    ensures GroupKey(SplitOnDot(GroupKey(g))) == GroupKey(g)
  {
    GroupKeyRoundTrip(g);
    SortStringsCanonical(SortStrings(g), g);
  }

  /** Decoding an encoded setup gives its groups sorted within and across, and
      re-encoding that gives the same string: the setup string is a canonical
      form. */
  lemma ListFromSetupRoundTrip(groups: Setup)
    requires Encodable(groups)
    ensures var r := ListFromSetup(SetupFromList(groups));
            |r| == |groups| &&
            multiset(r) == multiset(MapSeq(SortGroup, groups)) &&
            (forall i :: 0 <= i < |r| ==> Sorted(r[i])) &&
            MapSeq(GroupKey, r) == SortStrings(MapSeq(GroupKey, groups)) &&
            Sorted(MapSeq(GroupKey, r)) &&
            SetupFromList(r) == SetupFromList(groups)
  {
    var r := ListFromSetup(SetupFromList(groups));
    var sorted := MapSeq(SortGroup, groups);
    DecodedGroups(groups);
    DecodedOrder(groups);
    assert |r| == |groups| by {
      assert |r| == |multiset(r)| == |multiset(sorted)| == |sorted|;
    }
    assert forall i :: 0 <= i < |r| ==> Sorted(r[i]) by {
      SortedGroupsSorted(groups);
      PermutedStaysSorted(r, sorted);
    }
    assert SetupFromList(r) == SetupFromList(groups) by {
      SetupFromListGroupOrder(r, sorted);
      SortingGroupsKeepsSetup(groups);
    }
  }

  lemma SortingGroupsKeepsSetup(groups: Setup)
    ensures SetupFromList(MapSeq(SortGroup, groups)) == SetupFromList(groups)
  {
    var sorted := MapSeq(SortGroup, groups);
    forall i | 0 <= i < |groups| ensures multiset(sorted[i]) == multiset(groups[i]) {
    }
    SetupFromListMemberOrder(sorted, groups);
  }

  // ---------------------------------------------------------------------------
  // pairs

  /** The pairs (arr[i], arr[j]) for j = from .. |arr|-1, in order. */
  function RowFrom<T>(arr: seq<T>, i: nat, from: nat): (r: seq<(T, T)>)
    requires i < |arr| && from <= |arr|
    ensures |r| == |arr| - from
    ensures forall k :: 0 <= k < |r| ==> r[k] == (arr[i], arr[from + k])
    decreases |arr| - from
  {
    if from == |arr| then [] else [(arr[i], arr[from])] + RowFrom(arr, i, from + 1)
  }

  function Row<T>(arr: seq<T>, i: nat): (r: seq<(T, T)>)
    requires i < |arr|
  {
    RowFrom(arr, i, i + 1)
  }

  /** The rows of the first `i` indices, concatenated. */
  function PairsUpTo<T>(arr: seq<T>, i: nat): seq<(T, T)>
    requires i <= |arr|
  {
    if i == 0 then [] else PairsUpTo(arr, i - 1) + Row(arr, i - 1)
  }

  lemma {:induction false} PairsUpToCount<T>(arr: seq<T>, i: nat)
    requires i <= |arr|
    ensures 2 * |PairsUpTo(arr, i)| == i * (2 * |arr| - i - 1)
  {
    if i > 0 {
      PairsUpToCount(arr, i - 1);
      var p := |PairsUpTo(arr, i - 1)|;
      assert |PairsUpTo(arr, i)| == p + (|arr| - i);
      CountStep(|arr|, i, p);
    }
  }

  /** Adding row i-1, of n-i pairs, to the count of the rows before it. */
  lemma CountStep(n: int, i: int, p: int)
    requires 2 * p == (i - 1) * (2 * n - (i - 1) - 1)
    ensures 2 * (p + (n - i)) == i * (2 * n - i - 1)
  {
    assert 2 * n - (i - 1) - 1 == 2 * n - i;
    calc {
      (i - 1) * (2 * n - i) + 2 * (n - i);
      i * (2 * n - i) - (2 * n - i) + 2 * n - 2 * i;
      i * (2 * n - i) - i;
      i * (2 * n - i - 1);
    }
  }

  /** Every pair of positions a < b with a < i is among the first i rows. */
  lemma PairsUpToComplete<T>(arr: seq<T>, i: nat)
    requires i <= |arr|
    ensures forall a, b :: 0 <= a < b < |arr| && a < i ==> (arr[a], arr[b]) in PairsUpTo(arr, i)
  {
    forall a, b | 0 <= a < b < |arr| && a < i ensures (arr[a], arr[b]) in PairsUpTo(arr, i) {
      PairInRows(arr, i, a, b);
    }
  }

  lemma {:induction false} PairInRows<T>(arr: seq<T>, i: nat, a: nat, b: nat)
    requires i <= |arr| && a < b < |arr| && a < i
    ensures (arr[a], arr[b]) in PairsUpTo(arr, i)
  {
    var prev, row := PairsUpTo(arr, i - 1), Row(arr, i - 1);
    assert PairsUpTo(arr, i) == prev + row;
    if a == i - 1 {
      assert row[b - i] == (arr[a], arr[b]);
    } else {
      PairInRows(arr, i - 1, a, b);
    }
  }

  /** Every entry of the first i rows is a pair of positions a < b with a < i. */
  lemma {:induction false} PairsUpToSound<T>(arr: seq<T>, i: nat, k: nat)
    requires i <= |arr| && k < |PairsUpTo(arr, i)|
    ensures exists a, b :: 0 <= a < b < |arr| && a < i && PairsUpTo(arr, i)[k] == (arr[a], arr[b])
  {
    var prev, row := PairsUpTo(arr, i - 1), Row(arr, i - 1);
    if k >= |prev| {
      var b := i + (k - |prev|);
      assert PairsUpTo(arr, i)[k] == row[k - |prev|] == (arr[i - 1], arr[b]);
    } else {
      PairsUpToSound(arr, i - 1, k);
      var a, b :| 0 <= a < b < |arr| && a < i - 1 && prev[k] == (arr[a], arr[b]);
      assert PairsUpTo(arr, i)[k] == prev[k];
    }
  }

  /** `pairs(arr)`: every pair of positions i < j, row by row, n(n-1)/2 of them. */
  method Pairs<T>(arr: seq<T>) returns (result: seq<(T, T)>)
    ensures result == PairsUpTo(arr, |arr|)
  {
    result := [];
    var i := 0;
    while i < |arr|
      invariant 0 <= i <= |arr|
      invariant result == PairsUpTo(arr, i)
    {
      var j := i + 1;
      while j < |arr|
        invariant i + 1 <= j <= |arr|
        invariant result == PairsUpTo(arr, i) + Row(arr, i)[..j - i - 1]
      {
        assert Row(arr, i)[..j - i] == Row(arr, i)[..j - i - 1] + [(arr[i], arr[j])];
        result := result + [(arr[i], arr[j])];
        j := j + 1;
      }
      assert Row(arr, i)[..|arr| - i - 1] == Row(arr, i);
      i := i + 1;
    }
  }

  // ---------------------------------------------------------------------------
  // Measured runs and the lowest-latency setup

  /** One recorded outgoing call of an invocation; a missing `sync` flag reads
      as false. */
  datatype Call = Call(called: string, sync: bool)

  /** One measured invocation: its billed duration and the calls it made. */
  datatype Invocation = Invocation(billedDuration: real, calls: seq<Call>)

  /** `setups_tested`: the invocations measured under each setup string, with
      the dict's insertion order kept in `order`. */
  datatype Tested = Tested(order: seq<string>, runs: map<string, seq<Invocation>>)

  ghost predicate WellFormed(t: Tested)
  {
    (forall i, j :: 0 <= i < j < |t.order| ==> t.order[i] != t.order[j]) &&
    t.runs.Keys == set i | 0 <= i < |t.order| :: t.order[i]
  }

  function BilledDuration(inv: Invocation): real
  {
    inv.billedDuration
  }

  predicate SortedReals(s: seq<real>)
  {
    forall i, j :: 0 <= i < j < |s| ==> s[i] <= s[j]
  }

  function InsertReal(x: real, s: seq<real>): (r: seq<real>)
    ensures multiset(r) == multiset(s) + multiset{x}
    ensures |r| == |s| + 1
  {
    if s == [] then [x]
    else if x <= s[0] then [x] + s
    else
      assert s == [s[0]] + s[1..];
      [s[0]] + InsertReal(x, s[1..])
  }

  lemma {:induction false} InsertRealSorted(x: real, s: seq<real>)
    requires SortedReals(s)
    ensures SortedReals(InsertReal(x, s))
  {
    if s != [] && x > s[0] {
      var t := InsertReal(x, s[1..]);
      InsertRealSorted(x, s[1..]);
      forall j | 0 <= j < |t| ensures s[0] <= t[j] {
        assert t[j] in multiset(t);
        if t[j] != x {
          assert t[j] in multiset(s[1..]);
          assert t[j] in s[1..];
        }
      }
    }
  }

  function SortReals(s: seq<real>): (r: seq<real>)
    ensures SortedReals(r)
    ensures multiset(r) == multiset(s)
    ensures |r| == |s|
  {
    if s == [] then []
    else
      assert s == [s[0]] + s[1..];
      var t := SortReals(s[1..]);
      InsertRealSorted(s[0], t);
      InsertReal(s[0], t)
  }

  /** `statistics.median`: the middle of the sorted data, or the mean of the two
      middle values. */
  function Median(s: seq<real>): real
    requires |s| > 0
  {
    var r := SortReals(s);
    var n := |r|;
    if n % 2 == 1 then r[n / 2] else (r[n / 2 - 1] + r[n / 2]) / 2.0
  }

  /** The median lies between two of the data points, and for an odd count it
      is one of them. */
  lemma MedianBetween(s: seq<real>)
    requires |s| > 0
    ensures exists i, j :: 0 <= i < |s| && 0 <= j < |s| && s[i] <= Median(s) <= s[j]
    ensures |s| % 2 == 1 ==> Median(s) in s
  {
    var r := SortReals(s);
    var n := |r|;
    assert r[n / 2] in multiset(s);
    assert r[n / 2] in s;
    if n % 2 == 0 {
      assert r[n / 2 - 1] in multiset(s);
      assert r[n / 2 - 1] in s;
    }
  }

  /** The setup at position i of the dict has at least one invocation. */
  predicate HasDataAt(t: Tested, i: int)
  {
    0 <= i < |t.order| && t.order[i] in t.runs && t.runs[t.order[i]] != []
  }

  /** Median billed duration of the setup at position i. */
  function MedianAt(t: Tested, i: int): real
    requires HasDataAt(t, i)
  {
    Median(MapSeq(BilledDuration, t.runs[t.order[i]]))
  }

  ghost predicate HasData(t: Tested)
  {
    exists i :: HasDataAt(t, i)
  }

  /** Position m holds the smallest median, and no earlier position ties it. */
  ghost predicate FirstMinimum(t: Tested, m: int)
  {
    HasDataAt(t, m) &&
    (forall j :: HasDataAt(t, j) ==> MedianAt(t, m) <= MedianAt(t, j)) &&
    (forall j :: HasDataAt(t, j) && j < m ==> MedianAt(t, m) < MedianAt(t, j))
  }

  /** The `medians` dict: entry p is (position, median) of a setup with data,
      positions ascending, and `where` locates every position with data below k. */
  ghost predicate MediansOf(t: Tested, k: int, medians: seq<(nat, real)>, where: map<nat, nat>)
  {
    (forall p :: 0 <= p < |medians| ==>
       medians[p].0 < k && HasDataAt(t, medians[p].0) && medians[p].1 == MedianAt(t, medians[p].0)) &&
    (forall p, q :: 0 <= p < q < |medians| ==> medians[p].0 < medians[q].0) &&
    (forall j: nat :: j < k && HasDataAt(t, j) ==> j in where && where[j] < |medians| && medians[where[j]].0 == j)
  }

  /** The first loop: the median billed duration of every setup that has at
      least one invocation, in key order. */
  method CollectMedians(t: Tested) returns (medians: seq<(nat, real)>, ghost where: map<nat, nat>)
    requires WellFormed(t)
    ensures MediansOf(t, |t.order|, medians, where)
  {
    medians, where := [], map[];
    var k := 0;
    while k < |t.order|
      invariant 0 <= k <= |t.order|
      invariant MediansOf(t, k, medians, where)
    {
      var durations := MapSeq(BilledDuration, t.runs[t.order[k]]);
      MediansStep(t, k, medians, where);
      if durations != [] {
        where := where[k := |medians|];
        medians := medians + [(k, Median(durations))];
      }
      k := k + 1;
    }
  }

  /** One more position: it is recorded exactly when it has data. */
  lemma MediansStep(t: Tested, k: nat, medians: seq<(nat, real)>, where: map<nat, nat>)
    requires k < |t.order|
    requires MediansOf(t, k, medians, where)
    ensures !HasDataAt(t, k) ==> MediansOf(t, k + 1, medians, where)
    ensures HasDataAt(t, k) ==>
              MediansOf(t, k + 1, medians + [(k, MedianAt(t, k))], where[k := |medians|])
  {
    if HasDataAt(t, k) {
      var medians', where' := medians + [(k, MedianAt(t, k))], where[k := |medians|];
      assert medians'[|medians|] == (k, MedianAt(t, k));
      forall p | 0 <= p < |medians'|
        ensures medians'[p].0 < k + 1 && HasDataAt(t, medians'[p].0) && medians'[p].1 == MedianAt(t, medians'[p].0)
      {
        if p < |medians| { assert medians'[p] == medians[p]; }
      }
      forall j: nat | j < k + 1 && HasDataAt(t, j)
        ensures j in where' && where'[j] < |medians'| && medians'[where'[j]].0 == j
      {
        if j < k { assert medians'[where[j]] == medians[where[j]]; }
      }
    }
  }

  /** `get_configuration_with_lowest_latency`: the setup with the strictly
      smallest median billed duration, the first one on ties, or "" when no
      setup has any invocation. */
  method LowestLatency(t: Tested) returns (minKey: string)
    requires WellFormed(t)
    ensures !HasData(t) ==> minKey == ""
    ensures HasData(t) ==> exists m :: FirstMinimum(t, m) && minKey == t.order[m]
  {
    var medians;
    ghost var where;
    medians, where := CollectMedians(t);
    minKey := "";
    var minValue: Option<real> := None;   // float('inf')
    ghost var best: nat := 0;
    var p := 0;
    while p < |medians|
      invariant 0 <= p <= |medians|
      invariant minValue.None? <==> p == 0
      invariant minValue.None? ==> minKey == ""
      invariant minValue.Some? ==>
                  best < p && minKey == t.order[medians[best].0] && minValue.value == medians[best].1 &&
                  FirstLeast(medians, best, p)
    {
      FirstLeastStep(medians, best, p, minValue.None?);
      if minValue.None? || medians[p].1 < minValue.value {
        minKey := t.order[medians[p].0];
        minValue := Some(medians[p].1);
        best := p;
      }
      p := p + 1;
    }
    if p > 0 {
      assert HasDataAt(t, medians[0].0);
    }
    if HasData(t) {
      var i :| HasDataAt(t, i);
      assert i in where;
      FirstOfMedians(t, medians, where, best);
    }
  }

  /** Entry `best` of the first p entries has the smallest value, and no entry
      before it ties it. */
  ghost predicate FirstLeast(medians: seq<(nat, real)>, best: int, p: int)
    requires 0 <= best < p <= |medians|
  {
    (forall q :: 0 <= q < p ==> medians[best].1 <= medians[q].1) &&
    (forall q :: 0 <= q < best ==> medians[best].1 < medians[q].1)
  }

  /** One step of the `min_value` scan. */
  lemma FirstLeastStep(medians: seq<(nat, real)>, best: int, p: int, first: bool)
    requires 0 <= p < |medians|
    requires first ==> p == 0
    requires !first ==> 0 <= best < p && FirstLeast(medians, best, p)
    ensures first || medians[p].1 < medians[best].1 ==> FirstLeast(medians, p, p + 1)
    ensures !first && !(medians[p].1 < medians[best].1) ==> FirstLeast(medians, best, p + 1)
  {
  }

  /** The first smallest entry of the medians list is the first minimum over
      the whole dict. */
  lemma FirstOfMedians(t: Tested, medians: seq<(nat, real)>, where: map<nat, nat>, best: nat)
    requires MediansOf(t, |t.order|, medians, where)
    requires best < |medians| && FirstLeast(medians, best, |medians|)
    ensures FirstMinimum(t, medians[best].0)
  {
    var m := medians[best].0;
    assert medians[best].1 == MedianAt(t, m);
    forall j | HasDataAt(t, j) ensures MedianAt(t, m) <= MedianAt(t, j) {
      var qj := MedianEntry(t, medians, where, j);
      assert medians[best].1 <= medians[qj].1;
    }
    forall j | HasDataAt(t, j) && j < m ensures MedianAt(t, m) < MedianAt(t, j) {
      var qj := MedianEntry(t, medians, where, j);
      AscendingIndex(medians, qj, best);
      assert medians[best].1 < medians[qj].1;
    }
  }

  /** In a list of ascending positions, a smaller position comes first. */
  lemma AscendingIndex(medians: seq<(nat, real)>, a: nat, b: nat)
    requires forall p, q :: 0 <= p < q < |medians| ==> medians[p].0 < medians[q].0
    requires a < |medians| && b < |medians| && medians[a].0 < medians[b].0
    ensures a < b
  {
  }

  /** The entry of the medians list for a position with data. */
  lemma MedianEntry(t: Tested, medians: seq<(nat, real)>, where: map<nat, nat>, j: int) returns (q: nat)
    requires MediansOf(t, |t.order|, medians, where) && HasDataAt(t, j)
    ensures q < |medians| && medians[q].0 == j && medians[q].1 == MedianAt(t, j)
  {
    q := where[j];
  }
}
