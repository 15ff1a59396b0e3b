/** The exhaustive fusion optimiser's function call graph: which function
    may call which, which pairs are semantically compatible, and which pairs
    are blacklisted; the chains of a given length a depth-first search finds
    in it; the fusion groups proposed for a chain; the memory configurations
    tried for it; and the test payload of each function. */
module FusionChains {
  import opened Wrappers
  import opened Strs

  /** A directed pair of function names. */
  type Pair = (string, string)

  class FunctionCallGraph {
    /** The keys of `call_edges` in insertion order. */
    var functions: seq<string>
    /** `call_edges`: the possible next functions of each function. */
    var callEdges: map<string, seq<string>>
    var compatibility: map<Pair, bool>
    var blacklist: set<Pair>

    /** `functions` lists the keys of `callEdges` once each, every edge list
        is free of repeats and leads to known functions, every edge has a
        compatibility entry, and the blacklist is symmetric. */
    ghost predicate Valid()
      reads this
    {
      GraphInv(functions, callEdges, compatibility, blacklist)
    }

    /** Lines 31-38. */
    constructor()
      ensures Valid()
      ensures functions == [] && callEdges == map[] && compatibility == map[] && blacklist == {}
    {
      functions, callEdges, compatibility, blacklist := [], map[], map[], {};
    }

    /** Lines 40-44: a new function gets an empty edge list; a known one is
        left alone, so adding a function twice is the same as once. */
    method AddFunction(f: string)
      requires Valid()
      modifies this
      ensures Valid()
      ensures f in callEdges
      ensures old(f in callEdges) ==> functions == old(functions) && callEdges == old(callEdges)
      ensures old(f !in callEdges) ==> functions == old(functions) + [f] && callEdges == old(callEdges)[f := []]
      ensures compatibility == old(compatibility) && blacklist == old(blacklist)
      ensures callEdges.Keys == old(callEdges.Keys) + {f}
      ensures functions == old(functions) + if old(f in callEdges) then [] else [f]
    {
      if f !in callEdges {
        functions := functions + [f];
        callEdges := callEdges[f := []];
      }
    }

    /** Lines 46-65: both ends become known functions, the edge is stored
        once, and its compatibility is (re)set. */
    method AddEdge(from: string, to: string, compatible: bool)
      requires Valid()
      modifies this
      ensures Valid()
      ensures from in callEdges && to in callEdges
      ensures callEdges.Keys == old(callEdges.Keys) + {from, to}
      ensures functions == old(functions) + (if from in old(callEdges) then [] else [from]) +
                           (if to in old(callEdges) || to == from then [] else [to])
      ensures to in old(Edges(from)) ==> callEdges[from] == old(Edges(from))
      ensures to !in old(Edges(from)) ==> callEdges[from] == old(Edges(from)) + [to]
      ensures forall f :: f in old(callEdges) && f != from ==> f in callEdges && callEdges[f] == old(callEdges[f])
      ensures compatibility == old(compatibility)[(from, to) := compatible]
      ensures blacklist == old(blacklist)
    {
      ghost var known, listed, fromEdges := callEdges.Keys, functions, Edges(from);
      AddFunction(from);
      AddFunction(to);
      assert callEdges.Keys == known + {from} + {to};
      assert callEdges[from] == fromEdges;
      assert functions == listed + (if from in known then [] else [from]) + (if to in known || to == from then [] else [to]);
      StoreEdge(from, to, compatible);
    }

    /** Lines 59-65: the edge between two known functions is stored once,
        and its compatibility is (re)set. */
    method StoreEdge(from: string, to: string, compatible: bool)
      requires Valid() && from in callEdges && to in callEdges
      modifies this
      ensures Valid()
      ensures callEdges == old(callEdges)[from := old(Edges(from)) + if to in old(Edges(from)) then [] else [to]]
      ensures compatibility == old(compatibility)[(from, to) := compatible]
      ensures callEdges.Keys == old(callEdges.Keys)
      ensures functions == old(functions) && blacklist == old(blacklist)
    {
      var edges := callEdges[from];
      AddEdgeKeepsInv(functions, callEdges, compatibility, blacklist, from, to, compatible);
      if to !in edges {
        callEdges := callEdges[from := edges + [to]];
      } else {
        assert edges + [] == edges && callEdges == callEdges[from := edges];
      }
      compatibility := compatibility[(from, to) := compatible];
    }

    /** Lines 67-75: both orders are blacklisted and marked incompatible. */
    method AddBlacklistPair(a: string, b: string)
      requires Valid()
      modifies this
      ensures Valid()
      ensures blacklist == old(blacklist) + {(a, b), (b, a)}
      ensures compatibility == old(compatibility)[(a, b) := false][(b, a) := false]
      ensures functions == old(functions) && callEdges == old(callEdges)
    {
      blacklist := blacklist + {(a, b), (b, a)};
      compatibility := compatibility[(a, b) := false][(b, a) := false];
    }

    /** Lines 77-81: `get_possible_next_functions`. */
    function Edges(f: string): seq<string>
      reads this
    {
      if f in callEdges then callEdges[f] else []
    }

    /** A step `is_valid_chain` accepts: not blacklisted, and a compatibility
        entry that says yes. */
    predicate StepOk(a: string, b: string)
      reads this
    {
      (a, b) !in blacklist && (a, b) in compatibility && compatibility[(a, b)]
    }

    /** What `is_valid_chain` checks. */
    predicate ValidChain(chain: seq<string>)
      reads this
    {
      |chain| < 2 || forall i :: 0 <= i < |chain| - 1 ==> StepOk(chain[i], chain[i + 1])
    }

    /** Lines 83-107: every adjacent pair is checked in order; the first
        blacklisted, incompatible or undefined pair rejects the chain. */
    method IsValidChain(chain: seq<string>) returns (ok: bool)
      ensures ok == ValidChain(chain)
    {
      if |chain| < 2 {
        return true;
      }
      for i := 0 to |chain| - 1
        invariant forall j :: 0 <= j < i ==> StepOk(chain[j], chain[j + 1])
      {
        var pair := (chain[i], chain[i + 1]);
        if pair in blacklist {
          return false;
        }
        if pair in compatibility {
          if !compatibility[pair] {
            return false;
          }
        } else {
          return false;
        }
      }
      return true;
    }

    /** Lines 155-165: the step the depth-first search takes. Without a
        compatibility entry it falls back to the edge list. */
    predicate DfsStep(a: string, b: string)
      reads this
    {
      (a, b) !in blacklist &&
      if (a, b) in compatibility then compatibility[(a, b)] else b in Edges(a)
    }

    /** In a consistent graph every edge has a compatibility entry, so the
        search's step is exactly the step `is_valid_chain` accepts. */
    lemma DfsStepIsStepOk(a: string, b: string)
      requires Valid()
      ensures DfsStep(a, b) <==> StepOk(a, b)
    {
    }

    /** A chain the search may produce: known functions, none twice, every
        step one the search takes. */
    ghost predicate SearchChain(c: seq<string>)
      reads this
    {
      |c| >= 1 && NoRepeats(c) &&
      (forall i :: 0 <= i < |c| ==> c[i] in functions) &&
      (forall i :: 0 <= i < |c| - 1 ==> DfsStep(c[i], c[i + 1]))
    }

    /** `c` is a chain of `length` that continues `chain` by search steps
        through functions not yet on it. */
    ghost predicate Extends(c: seq<string>, chain: seq<string>, length: int)
      reads this
    {
      |chain| >= 1 && |c| == length && |chain| <= |c| && c[..|chain|] == chain && NoRepeats(c) &&
      (forall i :: |chain| <= i < |c| ==> c[i] in functions) &&
      (forall i :: |chain| - 1 <= i < |c| - 1 ==> DfsStep(c[i], c[i + 1]))
    }

    /** Lines 139-170: the nested `dfs`. A chain of the wanted length is
        recorded; otherwise it is extended by every function, in order, that
        is not on it yet and that the search may step to. Every recorded
        chain extends `chain`, and every extension of `chain` is recorded. */
    method Dfs(chain: seq<string>, length: int, acc: seq<seq<string>>) returns (out: seq<seq<string>>)
      requires |chain| >= 1 && NoRepeats(chain)
      ensures |acc| <= |out| && out[..|acc|] == acc
      ensures forall k :: |acc| <= k < |out| ==> Extends(out[k], chain, length)
      ensures forall c :: Extends(c, chain, length) ==> c in out
      decreases (set f | f in functions) - (set x | x in chain)
    {
      if |chain| == length {
        out := acc + [chain];
        forall c | Extends(c, chain, length) ensures c in out {
          assert c == c[..|chain|];
          assert out[|acc|] == c;
        }
        return;
      }
      out := acc;
      var last := chain[|chain| - 1];
      for n := 0 to |functions|
        invariant |acc| <= |out| && out[..|acc|] == acc
        invariant forall k :: |acc| <= k < |out| ==> Extends(out[k], chain, length)
        invariant forall c :: Extends(c, chain, length) && c[|chain|] in functions[..n] ==> c in out
      {
        var next := functions[n];
        if next !in chain && DfsStep(last, next) {
          NoRepeatsAppend(chain, next);
          assert (set f | f in functions) - (set x | x in chain + [next]) <
                 (set f | f in functions) - (set x | x in chain) by {
            assert next in (set f | f in functions) - (set x | x in chain);
          }
          ghost var before := out;
          out := Dfs(chain + [next], length, out);
          assert next in functions;
          DfsBranchSound(acc, before, out, chain, next, length);
          DfsBranchComplete(before, out, chain, next, length, functions[..n]);
          assert functions[..n + 1] == functions[..n] + [next];
        } else {
          forall c | Extends(c, chain, length) && c[|chain|] in functions[..n + 1] ensures c in out {
            if c[|chain|] != next {
              assert c[|chain|] in functions[..n];
            }
          }
        }
      }
      forall c | Extends(c, chain, length) ensures c in out {
        assert c[|chain|] in functions[..|functions|];
      }
    }

    /** After one recursive search from `chain + [next]`: everything recorded
        since `acc` still extends `chain`. */
    lemma DfsBranchSound(acc: seq<seq<string>>, before: seq<seq<string>>, out: seq<seq<string>>,
                         chain: seq<string>, next: string, length: int)
      requires |chain| >= 1 && next in functions && DfsStep(chain[|chain| - 1], next)
      requires |acc| <= |before| <= |out| && out[..|before|] == before
      requires forall k :: |acc| <= k < |before| ==> Extends(before[k], chain, length)
      requires forall k :: |before| <= k < |out| ==> Extends(out[k], chain + [next], length)
      ensures forall k :: |acc| <= k < |out| ==> Extends(out[k], chain, length)
    {
      forall k | |acc| <= k < |out| ensures Extends(out[k], chain, length) {
        if k < |before| {
          assert out[k] == before[k];
        } else {
          ExtendsBack(out[k], chain, next, length);
        }
      }
    }

    /** After one recursive search from `chain + [next]`: every extension of
        `chain` whose next name is `next` or one tried before is recorded. */
    lemma DfsBranchComplete(before: seq<seq<string>>, out: seq<seq<string>>,
                            chain: seq<string>, next: string, length: int, tried: seq<string>)
      requires |chain| != length
      requires |before| <= |out| && out[..|before|] == before
      requires forall c :: Extends(c, chain, length) && c[|chain|] in tried ==> c in before
      requires forall c :: Extends(c, chain + [next], length) ==> c in out
      ensures forall c :: Extends(c, chain, length) && c[|chain|] in tried + [next] ==> c in out
    {
      forall c | Extends(c, chain, length) && c[|chain|] in tried + [next] ensures c in out {
        if c[|chain|] == next {
          ExtendsNext(c, chain, next, length);
        } else {
          assert c[|chain|] in tried;
          var k :| 0 <= k < |before| && before[k] == c;
          assert out[k] == c;
        }
      }
    }

    /** After the search from `start`: everything found is a search chain of
        the length. */
    lemma SearchSound(before: seq<seq<string>>, found: seq<seq<string>>, start: string, length: int)
      requires start in functions
      requires |before| <= |found| && found[..|before|] == before
      requires forall c :: c in before ==> |c| == length && SearchChain(c)
      requires forall k :: |before| <= k < |found| ==> Extends(found[k], [start], length)
      ensures forall c :: c in found ==> |c| == length && SearchChain(c)
    {
      forall c | c in found ensures |c| == length && SearchChain(c) {
        var k :| 0 <= k < |found| && found[k] == c;
        if k < |before| {
          assert c == before[k];
        } else {
          assert Extends(c, [start], length);
          assert c[0] == start;
          SearchChainExtends(c);
        }
      }
    }

    /** After the search from `start`: every search chain of the length that
        starts at `start` or at a function tried before is found. */
    lemma SearchComplete(before: seq<seq<string>>, found: seq<seq<string>>, start: string, length: int,
                         tried: seq<string>)
      requires |before| <= |found| && found[..|before|] == before
      requires forall c :: SearchChain(c) && |c| == length && c[0] in tried ==> c in before
      requires forall c :: Extends(c, [start], length) ==> c in found
      ensures forall c :: SearchChain(c) && |c| == length && c[0] in tried + [start] ==> c in found
    {
      forall c | SearchChain(c) && |c| == length && c[0] in tried + [start] ensures c in found {
        if c[0] == start {
          SearchChainExtends(c);
        } else {
          assert c[0] in tried;
          var k :| 0 <= k < |before| && before[k] == c;
          assert found[k] == c;
        }
      }
    }

    /** An extension of `chain` longer than it is an extension of `chain`
        with its next name added. */
    lemma ExtendsNext(c: seq<string>, chain: seq<string>, next: string, length: int)
      requires Extends(c, chain, length) && |chain| < |c| && c[|chain|] == next
      ensures Extends(c, chain + [next], length)
    {
      assert c[..|chain| + 1] == c[..|chain|] + [c[|chain|]];
    }

    /** An extension of `chain + [next]` is one of `chain` when the step to
        `next` is a search step. */
    lemma ExtendsBack(c: seq<string>, chain: seq<string>, next: string, length: int)
      requires |chain| >= 1 && next in functions && DfsStep(chain[|chain| - 1], next)
      requires Extends(c, chain + [next], length)
      ensures Extends(c, chain, length)
    {
      assert c[..|chain|] == (c[..|chain| + 1])[..|chain|];
      assert c[|chain|] == next;
    }

    /** A search chain of some length is an extension of its first name. */
    lemma SearchChainExtends(c: seq<string>)
      requires |c| >= 1
      ensures SearchChain(c) <==> c[0] in functions && Extends(c, [c[0]], |c|)
    {
    }

    /** Lines 109-183: for every length from `minLength` to `maxLength`, a
        search from every function in turn. Exactly the search chains of
        those lengths are produced. */
    method GenerateAllValidChains(minLength: int, maxLength: int) returns (all: seq<seq<string>>)
      ensures forall c :: c in all ==> minLength <= |c| <= maxLength && SearchChain(c)
      ensures forall c :: SearchChain(c) && minLength <= |c| <= maxLength ==> c in all
    {
      all := [];
      var length := minLength;
      while length <= maxLength
        invariant forall c :: c in all ==> minLength <= |c| < length && SearchChain(c)
        invariant forall c :: SearchChain(c) && minLength <= |c| < length ==> c in all
        invariant minLength <= length
        invariant length <= maxLength + 1 || all == []
        decreases maxLength - length
      {
        var found := ChainsOfLength(length);
        all := all + found;
        length := length + 1;
      }
    }

    /** Lines 137-179: a search from every function in turn, for one
        length. Exactly the search chains of that length are found. */
    method ChainsOfLength(length: int) returns (found: seq<seq<string>>)
      ensures forall c :: c in found ==> |c| == length && SearchChain(c)
      ensures forall c :: SearchChain(c) && |c| == length ==> c in found
    {
      found := [];
      for n := 0 to |functions|
        invariant forall c :: c in found ==> |c| == length && SearchChain(c)
        invariant forall c :: SearchChain(c) && |c| == length && c[0] in functions[..n] ==> c in found
      {
        var start := functions[n];
        ghost var before := found;
        found := Dfs([start], length, found);
        SearchSound(before, found, start, length);
        SearchComplete(before, found, start, length, functions[..n]);
        assert functions[..n + 1] == functions[..n] + [start];
      }
      forall c | SearchChain(c) && |c| == length ensures c in found {
        assert c[0] in functions[..|functions|];
      }
    }

    /** Every chain the search produces passes `is_valid_chain`. */
    lemma SearchChainsAreValid(c: seq<string>)
      requires Valid() && SearchChain(c)
      ensures ValidChain(c)
    {
      forall i | 0 <= i < |c| - 1 ensures StepOk(c[i], c[i + 1]) {
        DfsStepIsStepOk(c[i], c[i + 1]);
      }
    }
  }

  /** The consistency of the graph's fields, stated on their values. */
  ghost predicate GraphInv(functions: seq<string>, callEdges: map<string, seq<string>>,
                           compatibility: map<Pair, bool>, blacklist: set<Pair>)
  {
    (forall f :: f in callEdges <==> f in functions) &&
    NoRepeats(functions) &&
    (forall f :: f in callEdges ==> NoRepeats(callEdges[f])) &&
    (forall f, g :: f in callEdges && g in callEdges[f] ==> g in callEdges && (f, g) in compatibility) &&
    (forall a, b :: (a, b) in blacklist ==> (b, a) in blacklist)
  }

  /** Storing an edge between two known functions keeps the graph
      consistent. */
  lemma AddEdgeKeepsInv(functions: seq<string>, callEdges: map<string, seq<string>>,
                        compatibility: map<Pair, bool>, blacklist: set<Pair>,
                        from: string, to: string, compatible: bool)
    requires GraphInv(functions, callEdges, compatibility, blacklist)
    requires from in callEdges && to in callEdges
    ensures GraphInv(functions, callEdges, compatibility[(from, to) := compatible], blacklist)
    ensures to !in callEdges[from] ==>
              GraphInv(functions, callEdges[from := callEdges[from] + [to]],
                       compatibility[(from, to) := compatible], blacklist)
  {
    if to !in callEdges[from] {
      NoRepeatsAppend(callEdges[from], to);
      var ce := callEdges[from := callEdges[from] + [to]];
      var co := compatibility[(from, to) := compatible];
      forall f, g | f in ce && g in ce[f] ensures g in ce && (f, g) in co {
        if f == from && g != to {
          assert g in callEdges[from];
        }
      }
    }
  }

  /** Appending a new name keeps a list free of repeats. */
  lemma NoRepeatsAppend(s: seq<string>, x: string)
    requires NoRepeats(s) && x !in s
    ensures NoRepeats(s + [x])
  {
    var t := s + [x];
    forall p, q | 0 <= p < q < |t| ensures t[p] != t[q] {
      if q == |s| { assert t[p] == s[p] && s[p] in s; }
    }
  }
}
