# Function-Fusion, modelled in Dafny

Function-Fusion runs serverless functions either as separate deployments or fused into groups that call one another in-process, and it searches for the fusion setup that is fastest or cheapest. This project models the deterministic core of that system and proves properties about it:

- **Webshop currency handler** (Python and JavaScript): the euro-based rate table, the rate lookup and the two-field fixed-point conversion (whole units plus nanos).
- **Fusion-setup algebra and search**:
  - the canonical setup strings ("A.B,C");
  - the latency-driven local search, which perturbs the best measured setup one function at a time;
  - the enhanced optimiser's path grouping and memory choice.
- **Exhaustive fusion optimiser**:
  - the call graph with its compatibility table and blacklist;
  - the chains a depth-first search finds in it;
  - the candidate groupings, memory configurations and test payloads of a chain.
- **Dependency scheduling**:
  - parallel groups;
  - the dependency order;
  - the asynchronous execution plan and its result-collection points;
  - per-function execution statistics.
- **Continuous optimiser**: the CSP-1 controller, which decides when to optimise and how the interval adapts.
- **Cost model**: billed durations, the cost breakdown of a setup, the free tier and the monthly estimate.
- **Lambda emulation**: a warm-instance pool with a time-to-live, and a file cache.
- **Communication-aware optimiser**: its weights, its strategy table, the relations between groups, and the serialisation, compression and authentication choices.
- **Experiment runner**: the configuration generator.
- **Fusion engine**: configuration objects, execution traces and task results.
- **Service-communication model**:
  - the nested configuration merge;
  - the load profile;
  - the mesh overhead;
  - event-service prices;
  - data-transfer billing.
- **Prime sieve** of the split benchmark.

Code that changes state in place is modelled as classes and methods:
- the call graph;
- the controller;
- the cost model's counters;
- the instance pool and the file cache;
- the traces and the engine;
- the service model's counters.

Loops are modelled as `while` loops with invariants, proved against specification functions. Pure code is modelled as functions, with lemmas about them.

Floats are modelled as exact reals. Python `int()` is truncation toward zero, and `%` follows each language's own rule. Clocks, random choices, generated ids, file sizes and measured durations come in as parameters. Python set and dict iteration order is left open as an arbitrary choice where the result can depend on it.

The currency conversion follows the code as written, in two places where it departs from rounding toward zero and from a carry at 10^9 nanos:
- The Python `symmetric_floor` floors negative values and turns a negative whole number v into v-1. It does not round toward zero.
- Both handlers carry nanos into units with the divisor 999 999 999, not 10^9.

Both points are listed under Findings, beside the corrected conversion.

## Model

| member | source | states |
|---|---|---|
| CurrencyRates.RatesPositive | functions/webshop/currency/handler.py:3-37 | every rate of the euro-based table is positive and the euro's own entry is exactly 1 |
| CurrencyPy.GetRate | functions/webshop/currency/handler.py:58-59 | the rate exists iff both codes are in the table; a missing target raises KeyError on the target first, else a missing source; the rate times the source's entry is the target's entry |
| CurrencyPy.RateSelfAndInverse | functions/webshop/currency/handler.py:58-59 | a known code converts to itself at exactly 1.0, and the rates a→b and b→a are reciprocal |
| CurrencyPy.SymmetricFloor | functions/webshop/currency/handler.py:62-63 | truncation for values ≥ 0, the floor for negative non-integers, and v-1 for a negative integer v |
| CurrencyPy.ApplyRate | functions/webshop/currency/handler.py:66-77 | the final nanos always lie in [0, 999 999 998] (Python `%` with a positive divisor) |
| CurrencyPy.Handler | functions/webshop/currency/handler.py:40-55 | succeeds iff both codes are known; the result carries the target code and the units and nanos apply_rate gives; otherwise the lookup's KeyError |
| CurrencyPy.IdentityForNonNegative | functions/webshop/currency/handler.py:66-77 | at rate 1.0, units ≥ 0 and 0 ≤ nanos < 999 999 999 come back unchanged |
| CurrencyPy.RoundTripLosesNanos | functions/webshop/currency/handler.py:40-77 | as written, KRW 0 units 1000 nanos converts to 0 EUR, and 0 EUR back to 0 KRW |
| CurrencyPy.EurToUsdExample | functions/webshop/currency/handler.py:40-77 | 10 EUR 500 000 000 nanos at 1.0798 give 11 USD 337 900 001 nanos, because the carry divides by 999 999 999 |
| CurrencyPy.NegativeSelfConversionCounterexample | functions/webshop/currency/handler.py:62-63 | converting -1 EUR to EUR gives (-1, 1): self-conversion of a negative whole amount is not the identity |
| CurrencyPy.CarryDivisorCounterexample | functions/webshop/currency/handler.py:73-75 | (0, 999 999 999) at rate 1 becomes (1, 0), one nano more than the input |
| CurrencyJs.GetRate | functions/webshop/currency/handler.js:50-52 | NaN iff either code is missing (no error raised); otherwise a positive rate with rate × table[from] = table[to] |
| CurrencyJs.RateSelf | functions/webshop/currency/handler.js:50-52 | getRate(c, c) is 1 for a known code, NaN for an unknown one |
| CurrencyJs.SymmetricFloor | functions/webshop/currency/handler.js:54-60 | rounds toward zero: floor for positive values, ceil for zero and negative values |
| CurrencyJs.SymmetricFloorOdd | functions/webshop/currency/handler.js:54-60 | symmetricFloor(-x) = -symmetricFloor(x) |
| CurrencyJs.Rem | functions/webshop/currency/handler.js:72 | JavaScript `%` with a positive divisor: below the divisor in magnitude, with the sign of the dividend |
| CurrencyJs.CarryExact | functions/webshop/currency/handler.js:69-72 | the carried units times 999 999 999 plus the remainder give back newNanos exactly |
| CurrencyJs.ApplyRate | functions/webshop/currency/handler.js:62-75 | \|finalNanos\| < 999 999 999 with the sign of newNanos; the carry preserves the value in units of 999 999 999, so each carried unit adds one nano |
| CurrencyJs.ApplyRateOdd | functions/webshop/currency/handler.js:62-75 | applyRate(-u, -n, r) is the exact negation of applyRate(u, n, r) |
| CurrencyJs.IdentityAtRateOne | functions/webshop/currency/handler.js:62-75 | at rate 1 with \|nanos\| < 999 999 999, (units, nanos) comes back unchanged whatever the sign of units |
| CurrencyJs.Handler | functions/webshop/currency/handler.js:3-11 | the result's currencyCode is event.toCode; units and nanos are NaN iff a code is unknown, otherwise those of applyRate |
| CurrencyJs.CarryDivisorCounterexample | functions/webshop/currency/handler.js:69-72 | (0, 999 999 999) at rate 1 becomes (1, 0) |
| CurrencyIntended.ApplyRate | functions/webshop/currency/handler.py:66-77 | the corrected conversion (truncation, carry at 10^9) leaves nanos below 10^9 in magnitude |
| CurrencyIntended.Carry | functions/webshop/currency/handler.py:73-75 | the corrected carry keeps the amount counted in nanos, leaves nanos below 10^9 in magnitude and keeps their sign |
| CurrencyIntended.ApplyRateWithinOneNano | functions/webshop/currency/handler.py:66-77 | read as a count of nanos, the corrected result is within one nano of the exact amount times the rate |
| CurrencyIntended.IdentityAtRateOne | functions/webshop/currency/handler.py:66-77 | at rate 1 every amount with \|nanos\| < 10^9 comes back unchanged, negative ones included |
| CurrencyIntended.ApplyRateOdd | functions/webshop/currency/handler.js:62-75 | negating both fields negates the corrected result |
| CurrencyIntended.HandlerSelfConversion | functions/webshop/currency/handler.py:40-55 | with the corrected conversion, converting a known currency to itself returns the amount unchanged |
| CurrencyIntended.RoundTripWithin | functions/webshop/currency/handler.py:66-77 | converting at a rate and back at its reciprocal returns the amount, counted in nanos, within 1 + the rate back |
| CurrencyIntended.HandlerRoundTripWithin | functions/webshop/currency/handler.py:40-77 | converting between two known currencies and back succeeds, ends in the original currency, and is off by less than 1 + rate(B, A) nanos |
| CurrencyIntended.RoundTripLosesNanos | functions/webshop/currency/handler.py:40-77 | KRW 0 units 1000 nanos converts to 0 EUR, and 0 EUR back to 0 KRW: the round trip is not within one nano |
| Sieve.StruckIffComposite | functions/split/A/handler.py:55-61 | within [2, limit] a number is zeroed by the sieve iff it is composite |
| Sieve.StrikeMultiples | functions/split/A/handler.py:53-61 | slots are only set to 0, never resized; a slot is zero iff its number has a divisor p ≥ 2 with p·p at most the number |
| Sieve.ZeroMultiples | functions/split/A/handler.py:60-61 | zeroes exactly the slots from p·p-2 on in steps of p and leaves the rest |
| Sieve.Eratosthenes | functions/split/A/handler.py:48-66 | [] when limit < 2, otherwise exactly the primes in [2, limit] in ascending order |
| CurrencyIntended.Handler | functions/webshop/currency/handler.py:40-55 | succeeds exactly when both codes are known, with the same KeyError otherwise; the result carries the target code and the amount converted at the looked-up rate by the corrected conversion |
| Sieve.ISqrt | functions/split/A/handler.py:55 | int(math.sqrt(n)) as the exact integer square root |
| Sieve.StruckIsComposite | functions/split/A/handler.py:56-61 | a number the sieve strikes has a proper divisor, so it is not prime |
| Sieve.CompositeIsStruck | functions/split/A/handler.py:56-61 | every composite up to the limit has a divisor the sieve processes, so it is struck |
| FunctionFusionOptimizer.ListFromSetup | app/optimizer/function_fusion_optimizer.py:18-20 | splitting on ',' then on '.' gives at least one group, and when the string came from names without separators no group is empty |
| FunctionFusionOptimizer.GroupKey | app/optimizer/function_fusion_optimizer.py:16 | one group's part of a setup string: its names sorted and joined with '.'; GroupKeyRoundTrip proves it splits back into the sorted group |
| FunctionFusionOptimizer.SetupFromList | app/optimizer/function_fusion_optimizer.py:14-16 | the setup string: the group keys sorted and joined with ','; SetupFromListGroupOrder, SetupFromListMemberOrder and ListFromSetupRoundTrip state that it ignores both orders and decodes back to the sorted groups |
| FunctionFusionOptimizer.SetupFromListGroupOrder | app/optimizer/function_fusion_optimizer.py:14-16 | permuting the groups does not change the setup string |
| FunctionFusionOptimizer.SetupFromListMemberOrder | app/optimizer/function_fusion_optimizer.py:14-16 | permuting the members of any group does not change the setup string |
| FunctionFusionOptimizer.GroupKeyRoundTrip | app/optimizer/function_fusion_optimizer.py:16-20 | a group string splits back on '.' into the sorted group |
| FunctionFusionOptimizer.DecodedGroups | app/optimizer/function_fusion_optimizer.py:14-20 | decoding an encoded setup yields the sorted groups as a multiset |
| FunctionFusionOptimizer.ListFromSetupRoundTrip | app/optimizer/function_fusion_optimizer.py:14-20 | for names without '.' or ',', list_from_setup(setup_from_list(L)) is L with each group sorted, in sorted group order, and encodes back to the same string |
| FunctionFusionOptimizer.DecodedOrder | app/optimizer/function_fusion_optimizer.py:14-20 | the group strings of the decoded setup are the sorted group strings of the encoded one |
| FunctionFusionOptimizer.SortingGroupsKeepsSetup | app/optimizer/function_fusion_optimizer.py:14-16 | sorting the members of each group first gives the same setup string |
| FunctionFusionOptimizer.PairsUpToCount | app/optimizer/function_fusion_optimizer.py:22-28 | the first i rows hold i(2n-i-1)/2 pairs, so all n rows hold n(n-1)/2 |
| FunctionFusionOptimizer.PairsUpToComplete | app/optimizer/function_fusion_optimizer.py:22-28 | every pair of positions a < b is produced |
| FunctionFusionOptimizer.PairInRows | app/optimizer/function_fusion_optimizer.py:22-28 | a pair of positions a < b lies in the rows of every prefix that includes row a |
| FunctionFusionOptimizer.PairsUpToSound | app/optimizer/function_fusion_optimizer.py:22-28 | every produced pair is (arr[a], arr[b]) for positions a < b |
| FunctionFusionOptimizer.Pairs | app/optimizer/function_fusion_optimizer.py:22-28 | the nested loops build exactly the rows of i < j pairs in index order |
| FunctionFusionOptimizer.Median | app/optimizer/function_fusion_optimizer.py:44 | `statistics.median` of a non-empty list: the middle of the sorted data, or the mean of the two middle values; MedianBetween places it between two data points |
| FunctionFusionOptimizer.MedianBetween | app/optimizer/function_fusion_optimizer.py:44 | the median lies between two data points and is one of them for an odd count |
| FunctionFusionOptimizer.CollectMedians | app/optimizer/function_fusion_optimizer.py:40-44 | the medians dict holds, in key order, the median billed duration of exactly the setups with at least one invocation |
| FunctionFusionOptimizer.MediansStep | app/optimizer/function_fusion_optimizer.py:40-44 | one more setup adds an entry exactly when it has at least one invocation, and the earlier entries stay |
| FunctionFusionOptimizer.LowestLatency | app/optimizer/function_fusion_optimizer.py:30-54 | returns "" when no setup has data, otherwise the key with the strictly smallest median, the first one on ties |
| FunctionFusionOptimizer.FirstOfMedians | app/optimizer/function_fusion_optimizer.py:46-54 | the first smallest entry of the medians dict is the first minimum over all keys |
| FunctionFusionSearch.SingletonsPartition | app/optimizer/function_fusion_optimizer.py:79-80 | the initial singleton sets partition the function names |
| FunctionFusionSearch.MergeKeepsPartition | app/optimizer/function_fusion_optimizer.py:106-112 | removing two different sets and adding their union keeps a partition, coarsens it and holds the union |
| FunctionFusionSearch.TogetherCoarser | app/optimizer/function_fusion_optimizer.py:79-112 | names that share a sync set keep sharing one after further merges |
| FunctionFusionSearch.SyncCalled | app/optimizer/function_fusion_optimizer.py:90-92 | the list holds exactly the called names of the calls flagged sync |
| FunctionFusionSearch.FindBlock | app/optimizer/function_fusion_optimizer.py:100-104 | finds the sync set holding x when there is one, and reports none otherwise |
| FunctionFusionSearch.MergeSyncPairs | app/optimizer/function_fusion_optimizer.py:93-112 | after one invocation the sets still partition the names and every two known sync-called functions share a set |
| FunctionFusionSearch.MergeInvocations | app/optimizer/function_fusion_optimizer.py:88-112 | the same for every invocation of a setup |
| FunctionFusionSearch.MergeSetups | app/optimizer/function_fusion_optimizer.py:86-112 | the same for every measured setup |
| FunctionFusionSearch.SyncSets | app/optimizer/function_fusion_optimizer.py:77-112 | the sync sets partition A..G and any two functions called synchronously by one invocation share a set |
| FunctionFusionSearch.Without | app/optimizer/function_fusion_optimizer.py:147 | keeps exactly the members other than x and changes nothing when x is absent |
| FunctionFusionSearch.FirstGroupWith | app/optimizer/function_fusion_optimizer.py:121-124 | the index of the first group holding x, or none when no group holds it |
| FunctionFusionSearch.SplitOffCurrentGroup | app/optimizer/function_fusion_optimizer.py:146-147 | splitting x off the current group keeps every name once and keeps the set of names |
| FunctionFusionSearch.StaleGroupCounterexample | app/optimizer/function_fusion_optimizer.py:141-147 | with the stale fktn_group, [[A,B,C]] becomes [[A,B],[B],[C]]: B ends up in two groups |
| FunctionFusionSearch.CurrentGroupExample | app/optimizer/function_fusion_optimizer.py:141-147 | splitting from the current group gives [[A],[B],[C]] |
| FunctionFusionSearch.DropUntilEmptiedShape | app/optimizer/function_fusion_optimizer.py:173-182 | y leaves every group up to the first group it would empty, that group is popped, and later groups stay |
| FunctionFusionSearch.RemoveUntilEmptied | app/optimizer/function_fusion_optimizer.py:173-182 | the loop over the live list computes DropUntilEmptied |
| FunctionFusionSearch.RemoveFromAll | app/optimizer/function_fusion_optimizer.py:216-223 | when the loop completes y is in no group and no group is empty |
| FunctionFusionSearch.RemoveFromAllFromClears | app/optimizer/function_fusion_optimizer.py:216-223 | a completed run leaves the groups before k alone and removes y from every later group |
| FunctionFusionSearch.ShortRunFails | app/optimizer/function_fusion_optimizer.py:216-223 | once a group has been popped the range loop reads past the end: IndexError |
| FunctionFusionSearch.RemoveFromAllLoop | app/optimizer/function_fusion_optimizer.py:216-223 | the loop over the live list computes RemoveFromAll |
| FunctionFusionSearch.IndexErrorCounterexample | app/optimizer/function_fusion_optimizer.py:216-223 | [[A],[B],[C]] with B to be isolated raises IndexError |
| FunctionFusionSearch.RemoveEverywhereSpec | app/optimizer/function_fusion_optimizer.py:216-223 | the intended removal leaves y in no group, no group empty, and every other name kept |
| FunctionFusionSearch.RemoveFromAllAgrees | app/optimizer/function_fusion_optimizer.py:216-223 | when no group is y alone, the loop as written agrees with the intended removal |
| FunctionFusionSearch.IsolateIntended | app/optimizer/function_fusion_optimizer.py:216-227 | the intended removal plus [y] keeps every name and puts y only in the new last group |
| FunctionFusionSearch.AfterChange | app/optimizer/function_fusion_optimizer.py:150-158 | an unmeasured setup is returned; a measured one gives None when null_if_already_tested is set and is otherwise where the search goes on |
| FunctionFusionSearch.SplitUnsynced | app/optimizer/function_fusion_optimizer.py:141-158 | the first perturbation never raises and is sound: any setup it returns is unmeasured |
| FunctionFusionSearch.GatherSynced | app/optimizer/function_fusion_optimizer.py:163-199 | the second perturbation is sound; its only exception is IndexError |
| FunctionFusionSearch.IsolateBlock | app/optimizer/function_fusion_optimizer.py:208-241 | the third perturbation for one sync set is sound |
| FunctionFusionSearch.IsolateOthers | app/optimizer/function_fusion_optimizer.py:204-241 | the third perturbation over all other sync sets is sound |
| FunctionFusionSearch.SoundChain | app/optimizer/function_fusion_optimizer.py:119-241 | sound steps compose |
| FunctionFusionSearch.TryFunction | app/optimizer/function_fusion_optimizer.py:119-241 | the three perturbations for one function, in order, are sound |
| FunctionFusionSearch.TryGroup | app/optimizer/function_fusion_optimizer.py:119-243 | every function of a group in turn, sound |
| FunctionFusionSearch.IterateOnLowestLatency | app/optimizer/function_fusion_optimizer.py:56-246 | a returned setup string is never already a key of setups_tested, is the encoding of the setup reached, and uses only names of the base setup and A..G |
| FunctionFusionSearch.IterateFromLowestLatency | app/optimizer/function_fusion_optimizer.py:56-246 | with the default base finder the search starts from the lowest-latency setup and returns only unmeasured setups |
| EnhancedPath.LastSync | app/optimizer/enhanced_fusion_optimizer.py:199-217 | a recorded flag exists only for a pair of different functions |
| EnhancedPath.AnalyzeCallPatterns | app/optimizer/enhanced_fusion_optimizer.py:199-217 | the table holds exactly the caller→called pairs seen, self-calls skipped, each with the sync flag of its last call |
| EnhancedPath.TabulateStep | app/optimizer/enhanced_fusion_optimizer.py:205-217 | one more call keeps the table exact |
| EnhancedPath.LastSyncSnoc | app/optimizer/enhanced_fusion_optimizer.py:203-217 | after one more call the last flag from a to b is that call's, if it goes from a to b and a is not b, and otherwise unchanged |
| EnhancedPath.AllFunctions | app/optimizer/enhanced_fusion_optimizer.py:235-242 | no empty name, and both ends of every synchronous edge are included |
| EnhancedPath.InitGroups | app/optimizer/enhanced_fusion_optimizer.py:244-245 | every function starts in a group of its own keyed by itself |
| EnhancedPath.FindGroups | app/optimizer/enhanced_fusion_optimizer.py:262-266 | finds the keys of the groups holding the caller and the callee, or reports none |
| EnhancedPath.MergeKeepsGroupsInv | app/optimizer/enhanced_fusion_optimizer.py:268-280 | storing the concatenation under one key and deleting the other keeps every name in exactly one group |
| EnhancedPath.MergeCallee | app/optimizer/enhanced_fusion_optimizer.py:256-280 | a synchronous call puts caller and callee in one group; groups only ever merge |
| EnhancedPath.MergeCaller | app/optimizer/enhanced_fusion_optimizer.py:252-280 | after a caller's row every synchronous callee shares its group |
| EnhancedPath.JoinCallee | app/optimizer/enhanced_fusion_optimizer.py:252-280 | one callee of the row, an empty name skipped: groups only merge, and the callee now shares its caller's group if the call is synchronous |
| EnhancedPath.MergeAll | app/optimizer/enhanced_fusion_optimizer.py:248-280 | after all callers every synchronous pair shares a group |
| EnhancedPath.Distinct | app/optimizer/enhanced_fusion_optimizer.py:286 | list(set(group)) keeps the same members without repeats |
| EnhancedPath.CollectGroups | app/optimizer/enhanced_fusion_optimizer.py:283-290 | one non-empty, repeat-free group per remaining key, with the key's members |
| EnhancedPath.CollectedCover | app/optimizer/enhanced_fusion_optimizer.py:283-290 | every name appears in some listed group |
| EnhancedPath.CollectedDisjoint | app/optimizer/enhanced_fusion_optimizer.py:283-290 | no name is in two listed groups |
| EnhancedPath.CollectedSync | app/optimizer/enhanced_fusion_optimizer.py:248-290 | a synchronous callee is listed in its caller's group |
| EnhancedPath.PathOptimize | app/optimizer/enhanced_fusion_optimizer.py:233-292 | a partition of all non-empty names seen into non-empty groups without duplicates; every sync callee is in its caller's group; async edges never merge groups |
| EnhancedOptimizer.Normalise | app/optimizer/enhanced_fusion_optimizer.py:61-63 | the two weights sum to 1 and keep their ratio |
| EnhancedOptimizer.MemoryEfficiency | app/optimizer/enhanced_fusion_optimizer.py:345-349 | the score is at most 1, and exactly 1 iff the size is 1024 MB |
| EnhancedOptimizer.EfficiencyDecreasesWithDistance | app/optimizer/enhanced_fusion_optimizer.py:345-349 | a size further from 1024 MB scores lower |
| EnhancedOptimizer.BestMemory | app/optimizer/enhanced_fusion_optimizer.py:319-328 | the first size with the highest score, 128 MB when there are none |
| EnhancedOptimizer.BestConfiguredMemory | app/optimizer/enhanced_fusion_optimizer.py:303-349 | over the configured sizes the choice is 1024 MB |
| EnhancedOptimizer.ValidGroup | app/optimizer/enhanced_fusion_optimizer.py:311 | keeps exactly the non-empty names |
| EnhancedOptimizer.GetSetupString | app/optimizer/enhanced_fusion_optimizer.py:450-458 | each group sorted and joined with '.', the groups kept in their order and joined with ','; SetupStringRoundTrip, SetupStringMemberOrder and SetupStringKeepsGroupOrder state what it preserves |
| EnhancedOptimizer.SetupStringRoundTrip | app/optimizer/enhanced_fusion_optimizer.py:440-458 | get_configuration_as_list(get_setup_string(G)) is G with each group sorted, in the original group order |
| EnhancedOptimizer.SetupStringMemberOrder | app/optimizer/enhanced_fusion_optimizer.py:440-448 | the setup string ignores the order within each group |
| EnhancedOptimizer.SetupStringKeepsGroupOrder | app/optimizer/enhanced_fusion_optimizer.py:440-448 | unlike setup_from_list, [[B],[A]] gives "B,A" |
| EnhancedOptimizer.GroupEntry | app/optimizer/enhanced_fusion_optimizer.py:309-318 | a group yields at most one key, and none exactly when every name in it is empty |
| EnhancedOptimizer.UnionOfEntriesMembers | app/optimizer/enhanced_fusion_optimizer.py:307-331 | a key is collected exactly when some group in the list yields it |
| EnhancedOptimizer.ConfiguredKeysMembers | app/optimizer/enhanced_fusion_optimizer.py:307-331 | a key is written exactly when some path group with a non-empty name has it as its sorted key |
| EnhancedOptimizer.ConfigureGroup | app/optimizer/enhanced_fusion_optimizer.py:309-331 | one group adds its key, if any, and every stored size stays 1024 MB |
| EnhancedOptimizer.ConfigureGroups | app/optimizer/enhanced_fusion_optimizer.py:307-333 | the written keys are exactly those of the groups, each 1024 MB |
| EnhancedOptimizer.EnhancedFusionOptimizer.constructor | app/optimizer/enhanced_fusion_optimizer.py:15-37 | weights 0.7/0.3, no test results, the nine memory sizes |
| EnhancedOptimizer.EnhancedFusionOptimizer.SetTestResults | app/optimizer/enhanced_fusion_optimizer.py:39-45 | stores the results and leaves the weights |
| EnhancedOptimizer.EnhancedFusionOptimizer.SetOptimizationWeights | app/optimizer/enhanced_fusion_optimizer.py:52-64 | the stored weights are the given ones scaled to sum to 1; a zero total fails and stores nothing |
| EnhancedOptimizer.EnhancedFusionOptimizer.AnalyzeCallPatterns | app/optimizer/enhanced_fusion_optimizer.py:190-219 | tabulates the calls of all stored test results |
| EnhancedOptimizer.EnhancedFusionOptimizer.InfrastructureOptimize | app/optimizer/enhanced_fusion_optimizer.py:294-334 | nothing without test results or runtime; otherwise one entry per group with a non-empty name, keyed by its sorted names, each 1024 MB |
| FusionChains.FunctionCallGraph.constructor | app/optimizer/fusion_optimizer.py:31-38 | an empty, consistent graph |
| FusionChains.FunctionCallGraph.AddFunction | app/optimizer/fusion_optimizer.py:40-44 | a new function gets an empty edge list; adding a known one changes nothing, so the call is idempotent |
| FusionChains.FunctionCallGraph.AddEdge | app/optimizer/fusion_optimizer.py:46-65 | both ends become known functions, appended in that order when new; an edge already present is not stored twice, other edge lists stay, and the pair's compatibility is set |
| FusionChains.FunctionCallGraph.StoreEdge | app/optimizer/fusion_optimizer.py:59-65 | the edge is appended to the caller's list unless present, the pair's compatibility is set, and the graph stays consistent |
| FusionChains.FunctionCallGraph.AddBlacklistPair | app/optimizer/fusion_optimizer.py:67-75 | both orders of the pair are blacklisted and marked incompatible |
| FusionChains.FunctionCallGraph.IsValidChain | app/optimizer/fusion_optimizer.py:83-107 | accepts chains shorter than 2; otherwise every adjacent pair must be non-blacklisted with compatibility True, an undefined pair failing |
| FusionChains.FunctionCallGraph.DfsStepIsStepOk | app/optimizer/fusion_optimizer.py:155-165 | in a consistent graph the step the search takes is exactly the step is_valid_chain accepts |
| FusionChains.FunctionCallGraph.Dfs | app/optimizer/fusion_optimizer.py:139-170 | appends exactly the extensions of the chain of the wanted length: no repeated function, every step a search step |
| FusionChains.FunctionCallGraph.SearchChainExtends | app/optimizer/fusion_optimizer.py:139-170 | a chain the search may produce is an extension of its first function |
| FusionChains.FunctionCallGraph.ChainsOfLength | app/optimizer/fusion_optimizer.py:137-179 | for one length, the searches from every function together find exactly the search chains of that length |
| FusionChains.FunctionCallGraph.DfsBranchSound | app/optimizer/fusion_optimizer.py:150-170 | what a recursive search from the chain plus one function records still extends the chain |
| FusionChains.FunctionCallGraph.DfsBranchComplete | app/optimizer/fusion_optimizer.py:150-170 | after the recursive search for one more function, every extension through it or an earlier one is recorded |
| FusionChains.FunctionCallGraph.SearchSound | app/optimizer/fusion_optimizer.py:172-176 | what a search from one start function adds are search chains of the length |
| FusionChains.FunctionCallGraph.SearchComplete | app/optimizer/fusion_optimizer.py:172-176 | after a search from one start, every search chain of the length starting there or at an earlier start is found |
| FusionChains.FunctionCallGraph.GenerateAllValidChains | app/optimizer/fusion_optimizer.py:109-183 | exactly the search chains with length in [min_length, max_length] |
| FusionChains.FunctionCallGraph.SearchChainsAreValid | app/optimizer/fusion_optimizer.py:83-183 | every chain the search produces passes is_valid_chain, so none has a blacklisted step |
| FusionChains.AddEdgeKeepsInv | app/optimizer/fusion_optimizer.py:46-65 | storing an edge between known functions keeps the graph consistent |
| FusionTestPlan.CandidateGroupings | app/optimizer/fusion_optimizer.py:436-452 | the candidates of one chain: adjacent pairs, then triples, then disjoint pairs of pairs, then the empty baseline; CandidateCount, CandidatesNonEmpty and FusedCandidates state their number and shape |
| FusionTestPlan.Triples | app/optimizer/fusion_optimizer.py:441-443 | one single-group grouping per run of three consecutive functions, none for a chain shorter than 3; CandidateCount gives n-2 of them |
| FusionTestPlan.DisjointPairs | app/optimizer/fusion_optimizer.py:446-449 | every pair (i, i+1) with every later pair (j, j+1), j ≥ i+2, as one two-group grouping; DisjointFromDisjoint shows the two pairs share no function |
| FusionTestPlan.AdjacentPairs | app/optimizer/fusion_optimizer.py:437-438 | a chain of n yields n-1 adjacent pairs |
| FusionTestPlan.DisjointRow | app/optimizer/fusion_optimizer.py:446-449 | row i holds one grouping per later pair that does not touch pair i |
| FusionTestPlan.CandidateCount | app/optimizer/fusion_optimizer.py:436-452 | for n ≥ 3: n-1 pairs, n-2 triples, (n-2)(n-3)/2 disjoint pairs, and the baseline |
| FusionTestPlan.DisjointFromDisjoint | app/optimizer/fusion_optimizer.py:446-449 | in a chain without repeats the two pairs of a disjoint grouping share no function |
| FusionTestPlan.DisjointRowDisjoint | app/optimizer/fusion_optimizer.py:446-449 | a disjoint grouping that starts at a given pair shares no function between its two pairs |
| FusionTestPlan.CandidatesNonEmpty | app/optimizer/fusion_optimizer.py:436-452 | no candidate other than the baseline is empty |
| FusionTestPlan.BuildCandidates | app/optimizer/fusion_optimizer.py:436-452 | the loops build exactly the candidate list, baseline last |
| FusionTestPlan.NonEmpty | app/optimizer/fusion_optimizer.py:457 | keeps exactly the non-empty groupings |
| FusionTestPlan.GenerateFusionGroups | app/optimizer/fusion_optimizer.py:407-469 | one entry per chain key "A->B->…", the last chain with a key winning; all candidates when they fit, else a sample of the fused ones with the empty baseline kept last; a negative sample size raises |
| FusionTestPlan.SampleCandidates | app/optimizer/fusion_optimizer.py:455-461 | what is stored is either all candidates or a sample of the allowed size followed by the baseline |
| FusionTestPlan.Sample | app/optimizer/fusion_optimizer.py:460 | a random sample has the requested size and takes each element no more often than it occurs |
| FusionTestPlan.FusedCandidates | app/optimizer/fusion_optimizer.py:459 | filtering out the empty candidates leaves exactly the candidates before the final baseline |
| FusionTestPlan.Row | app/optimizer/fusion_optimizer.py:500-503 | one copy of the configuration per size |
| FusionTestPlan.Cross | app/optimizer/fusion_optimizer.py:498-503 | every configuration extended by every size: \|configs\|·\|sizes\| of them |
| FusionTestPlan.ProductComplete | app/optimizer/fusion_optimizer.py:471-515 | without sampling a chain has exactly as many configurations as size combinations, each setting every function to one of its sizes |
| FusionTestPlan.CrossMember | app/optimizer/fusion_optimizer.py:498-503 | every configuration of a product is an earlier one with the function set to one of its sizes |
| FusionTestPlan.GenerateMemoryConfigurations | app/optimizer/fusion_optimizer.py:471-515 | every configuration sets only chain functions, each to one of its sizes; with no sampling the result is the full product; the list always holds ConfigCount configurations, and when every function has a size each configuration sets every function of the chain |
| FusionTestPlan.ConfigCountIsCapped | app/optimizer/fusion_optimizer.py:489-510 | with a size for every function the list is never empty; for one function it has one configuration per size, from two functions on it has the number of size combinations capped at 50, so exactly 50 whenever a sample was drawn |
| FusionTestPlan.ExpandSound | app/optimizer/fusion_optimizer.py:493-505 | extending by one function keeps every configuration to chain functions set to their own sizes |
| FusionTestPlan.MemoryExact | app/optimizer/fusion_optimizer.py:493-510 | while no prefix exceeds 50 configurations, one more function yields the full product of the longer prefix |
| FusionTestPlan.UnsampledShorter | app/optimizer/fusion_optimizer.py:508-510 | a chain never cut down to 50 has at most 50 configurations, and so has its chain without the last function |
| FusionTestPlan.CrossStep | app/optimizer/fusion_optimizer.py:498-503 | the nested loops compute the product |
| FusionTestPlan.NatToStringRoundTrip | app/optimizer/fusion_optimizer.py:1077 | str(n) reads back as n |
| FusionTestPlan.UserId | app/optimizer/fusion_optimizer.py:1077 | `f"test_{config_id}_{position}"` with decimal digits; UserIdInjective shows distinct inputs give distinct ids |
| FusionTestPlan.UserIdInjective | app/optimizer/fusion_optimizer.py:1077 | different configurations or positions get different user ids |
| FusionTestPlan.TaggedInjective | app/optimizer/fusion_optimizer.py:1077 | a prefix, digits, an underscore and a suffix determine the digits and the suffix |
| FusionTestPlan.Payload | app/optimizer/fusion_optimizer.py:1085-1092 | an entry with an "add", "get" or "empty" key is narrowed to its "add" payload if present, else its "get" payload, else an empty dict; any other entry is used as it is; TestDataForFunction states the resulting data |
| FusionTestPlan.TestDataForFunction | app/optimizer/fusion_optimizer.py:1062-1104 | userId is always "test_{config_id}_{position}"; the defaults without an entry or with a non-dict payload; otherwise the keys are exactly the defaults' and the narrowed payload's, every payload field other than userId wins, and "operation" keeps its default "test" unless the payload sets it |
| FusionScheduling.IdentifyParallelGroups | app/optimizer/FusionOptimizer.py:160-188 | the groups are non-empty, laid end to end give back the chain in order, no member depends on an earlier member of its group, and each group after the first starts with a function that depends on the group before it |
| FusionScheduling.CanParallelize | app/optimizer/FusionOptimizer.py:172-176 | true exactly when the function depends on no member of the open group |
| FusionScheduling.JoinStep | app/optimizer/FusionOptimizer.py:172-180 | a function that depends on no member of the open group joins it without breaking the grouping |
| FusionScheduling.CloseStep | app/optimizer/FusionOptimizer.py:181-184 | a function that depends on a member of the open group closes it and opens the next |
| FusionScheduling.CloseLast | app/optimizer/FusionOptimizer.py:185-186 | closing the last open group gives a grouping of the whole chain |
| FusionScheduling.Select | app/optimizer/FusionOptimizer.py:215-223 | keeps exactly the chain's functions that some function needs (or that none needs) |
| FusionScheduling.SelectSplits | app/optimizer/FusionOptimizer.py:215-250 | the unneeded and the needed functions together are the chain as a multiset |
| FusionScheduling.RemainingAreNeeded | app/optimizer/FusionOptimizer.py:245-248 | once the unneeded functions are placed, the leftovers are exactly the needed ones in chain order |
| FusionScheduling.DependentsGraph | app/optimizer/FusionOptimizer.py:205-212 | one entry per chain function, every listed function depends on the entry's key |
| FusionScheduling.HasIncoming | app/optimizer/FusionOptimizer.py:216-220 | true exactly when some function lists the given one among its dependencies |
| FusionScheduling.NoDependencies | app/optimizer/FusionOptimizer.py:215-223 | the chain's functions that no function needs, in chain order |
| FusionScheduling.OptimizeFunctionOrder | app/optimizer/FusionOptimizer.py:190-250 | the unneeded functions, then the needed ones, each in chain order; always a permutation of the chain |
| FusionScheduling.Drain | app/optimizer/FusionOptimizer.py:226-241 | a worklist of functions nobody needs is emptied into the result unchanged |
| FusionScheduling.LeftoversAreNeeded | app/optimizer/FusionOptimizer.py:245-248 | the leftovers are the needed functions, and there are none when the worklist covered the chain |
| FusionScheduling.ExampleNeeds | app/optimizer/FusionOptimizer.py:215-220 | on [A, B] with B reading A, A is needed and B is not |
| FusionScheduling.WrittenOrderCounterexample | app/optimizer/FusionOptimizer.py:190-250 | on [A, B] with B reading A the order returned is [B, A] |
| FusionScheduling.ChainDependentsGraph | app/optimizer/FusionOptimizer.py:205-212 | the dependents graph restricted to the chain: every listed dependent is a chain function that depends on the key, and every chain function is listed under each of its in-chain dependencies |
| FusionScheduling.LinkDependent | app/optimizer/FusionOptimizer.py:209-212 | one function is listed under each of its in-chain dependencies; no entry is lost and no key is added |
| FusionScheduling.WaitsOn | app/optimizer/FusionOptimizer.py:234-238 | true exactly when the function still has an unplaced dependency in the chain |
| FusionScheduling.PlaceStep | app/optimizer/FusionOptimizer.py:226-230 | moving the worklist head to the result keeps the order respecting dependencies |
| FusionScheduling.QueueStep | app/optimizer/FusionOptimizer.py:234-241 | queuing a ready, unplaced, unqueued function keeps the worklist invariant |
| FusionScheduling.SubMultiset | app/optimizer/FusionOptimizer.py:245-250 | distinct chain functions occur at most once |
| FusionScheduling.RemainingMultiset | app/optimizer/FusionOptimizer.py:245-248 | the leftovers are the chain minus the placed functions, as multisets |
| FusionScheduling.ReadyFunctions | app/optimizer/FusionOptimizer.py:214-223 | the initial worklist holds exactly the chain functions with no dependency in the chain |
| FusionScheduling.Release | app/optimizer/FusionOptimizer.py:232-241 | queuing the ready dependents of a placed function keeps the worklist invariant, keeps every queued function, and queues every unplaced dependent that became ready |
| FusionScheduling.TopologicalOrder | app/optimizer/FusionOptimizer.py:190-250 | a permutation of the chain whose sorted prefix puts every function after its in-chain dependencies and is as long as it can be: every leftover, in chain order, still waits for an in-chain dependency outside the prefix |
| FusionScheduling.MaximalStep | app/optimizer/FusionOptimizer.py:225-241 | placing the worklist head and queuing its ready dependents leaves no ready function outside the result and the worklist |
| FusionScheduling.LeftoversWait | app/optimizer/FusionOptimizer.py:243-248 | once the worklist is empty, every leftover waits for an in-chain dependency outside the sorted prefix |
| FusionScheduling.RemainingMember | app/optimizer/FusionOptimizer.py:243-248 | a leftover is a chain function not yet placed |
| FusionScheduling.AppendLeftovers | app/optimizer/FusionOptimizer.py:245-248 | a sorted prefix plus the leftovers is a permutation of the chain with that prefix still sorted |
| FusionScheduling.BFirstBreaksOrder | app/optimizer/FusionOptimizer.py:190-250 | on any chain holding A, an order starting with B breaks the dependency of B on A |
| FusionScheduling.TopologicalOrderExample | app/optimizer/FusionOptimizer.py:190-250 | on [A, B] with B reading A the corrected order can only be [A, B] |
| FusionScheduling.ReversedChainExample | app/optimizer/FusionOptimizer.py:190-250 | on [B, A] with B reading A the corrected order must still sort both functions and can only be [A, B] |
| FusionScheduling.AppendStep | app/optimizer/FusionOptimizer.py:420-456 | appending a step whose waits are placed keeps the plan well formed and ordered |
| FusionScheduling.WaitList | app/optimizer/FusionOptimizer.py:441-443 | the waits are exactly the dependencies of the function that are already placed |
| FusionScheduling.WaitsForEarlierStep | app/optimizer/FusionOptimizer.py:438-447 | appending a step that waits for all its placed dependencies keeps every asynchronous step waiting for all its earlier dependencies |
| FusionScheduling.StartPending | app/optimizer/FusionOptimizer.py:430-436 | starting the pending steps whose waits are placed keeps the plan invariant; with nothing pending nothing changes |
| FusionScheduling.PlanStep | app/optimizer/FusionOptimizer.py:421-427 | a new step whose waits are placed is appended at once, the pending list stays, and the plan invariant holds |
| FusionScheduling.FlushPending | app/optimizer/FusionOptimizer.py:459 | appending the pending asynchronous steps keeps the plan well formed and adds no synchronous step |
| FusionScheduling.ExecutionOrder | app/optimizer/FusionOptimizer.py:416-459 | one step per chain function, in chain order; critical functions run synchronously, the others asynchronously waiting for exactly the earlier steps they depend on |
| FusionScheduling.FirstReader | app/optimizer/FusionOptimizer.py:501-507 | the first later step that reads the result, and no step before it does |
| FusionScheduling.CollectMeaning | app/optimizer/FusionOptimizer.py:499-512 | collect_before is the first later step that needs the result, or the plan's length when none does; needed_at is that step or None |
| FusionScheduling.NeededAt | app/optimizer/FusionOptimizer.py:501-507 | the scan finds the first later reader |
| FusionScheduling.ResultCollection | app/optimizer/FusionOptimizer.py:499-512 | one entry per asynchronous function, holding the collection point of its last asynchronous step |
| FusionScheduling.CreateAsyncExecutionPlan | app/optimizer/FusionOptimizer.py:397-514 | the plan lists the critical and candidate functions, an execution order with one step per chain function in chain order whose asynchronous steps wait for exactly their earlier dependencies, and the collection points of the asynchronous steps |
| FusionScheduling.ExecutionStats.constructor | app/optimizer/FusionOptimizer.py:27 | statistics start empty |
| FusionScheduling.ExecutionStats.TrackExecution | app/optimizer/FusionOptimizer.py:292-306 | the duration is appended to the function's list under the fusion and the function's entry becomes that list's mean; nothing else changes, and a fusion id holding a mean raises before any change |
| ContinuousOptimizer.KeepLast | app/optimizer/continuous_optimizer.py:400-402 | the last min(n, 100) entries of the history, in order |
| ContinuousOptimizer.Increased | app/optimizer/continuous_optimizer.py:428-434 | twice the interval, capped at the normal interval |
| ContinuousOptimizer.Decreased | app/optimizer/continuous_optimizer.py:436-442 | half the interval rounded down, never below the minimum |
| ContinuousOptimizer.IntervalStaysInRange | app/optimizer/continuous_optimizer.py:428-442 | from an interval within [minimum, normal], increasing and decreasing stay within it, moving up and down respectively |
| ContinuousOptimizer.DecreaseUndoesIncrease | app/optimizer/continuous_optimizer.py:428-442 | halving undoes a doubling the cap did not cut |
| ContinuousOptimizer.MetricDrift | app/optimizer/continuous_optimizer.py:170-203 | drift exactly when there are at least 10 points, the previous five have a positive mean, and the last five's mean differs from it by more than the threshold fraction |
| ContinuousOptimizer.SteadyHistoryDoesNotDrift | app/optimizer/continuous_optimizer.py:170-203 | ten equal latencies never drift |
| ContinuousOptimizer.Latencies | app/optimizer/continuous_optimizer.py:383-387 | only traces with a non-zero duration contribute, each in milliseconds |
| ContinuousOptimizer.ContinuousOptimizer.constructor | app/optimizer/continuous_optimizer.py:42-69 | interval 100, normal 1000, minimum 50, three successes, 15 % drift, counters and histories empty |
| ContinuousOptimizer.ContinuousOptimizer.ShouldRunOptimization | app/optimizer/continuous_optimizer.py:149-168 | true once the executions since the last optimisation reach the interval; otherwise only a drift over at least ten latencies triggers it |
| ContinuousOptimizer.ContinuousOptimizer.IncreaseOptimizationInterval | app/optimizer/continuous_optimizer.py:428-434 | the interval doubles, capped at normal; nothing else changes |
| ContinuousOptimizer.ContinuousOptimizer.DecreaseOptimizationInterval | app/optimizer/continuous_optimizer.py:436-442 | the interval halves, floored at the minimum; nothing else changes |
| ContinuousOptimizer.ContinuousOptimizer.ProcessOptimizationResult | app/optimizer/continuous_optimizer.py:336-376 | a non-success changes nothing; the same setup adds one success and lengthens the interval from the configured count on; a new setup resets the count |
| ContinuousOptimizer.ContinuousOptimizer.UpdateMetrics | app/optimizer/continuous_optimizer.py:378-402 | the mean latency is appended when there is one and the history keeps its last 100 entries; the execution counter goes up by exactly one |
| ContinuousOptimizer.ContinuousOptimizer.UpdateOptimizationHistory | app/optimizer/continuous_optimizer.py:314-334 | the result is appended and the history keeps its last 100 entries |
| ContinuousOptimizer.ContinuousOptimizer.UpdateCspConfig | app/optimizer/continuous_optimizer.py:482-496 | each given key replaces its setting and the others stay; the current interval is cut to a new normal interval and then raised to a new minimum, so it lies between them when they are ordered |
| ContinuousOptimizer.ContinuousOptimizer.MonitorTick | app/optimizer/continuous_optimizer.py:119-141 | runs exactly when due; a run records the result in the bounded history and updates the success count and interval as the result says, then the count restarts at one; otherwise the count grows by one and the interval, count and history stay; the latency history gains the mean of the new latencies; the settings stay |
| ImprovedCostModel.ProfileFor | evaluation/improved_cost_model.py:62-67 | a custom profile wins; the three known providers get their price table; any other provider is an error |
| ImprovedCostModel.Ceil | evaluation/improved_cost_model.py:109 | math.ceil: the least integer at or above the value |
| ImprovedCostModel.CeilStep | evaluation/improved_cost_model.py:109 | rounding up to the resolution covers the duration by less than one step |
| ImprovedCostModel.BilledDuration | evaluation/improved_cost_model.py:102-109 | the billed duration covers both the run and the minimum, and exceeds the larger by less than one resolution step |
| ImprovedCostModel.BilledDurationIsLeast | evaluation/improved_cost_model.py:102-109 | it is the least multiple of the resolution covering the run and the minimum |
| ImprovedCostModel.BilledDurationIdempotent | evaluation/improved_cost_model.py:102-109 | billing a billed duration again changes nothing |
| ImprovedCostModel.BilledDurationMonotone | evaluation/improved_cost_model.py:102-109 | a longer run is never billed for less |
| ImprovedCostModel.ExecutionCost | evaluation/improved_cost_model.py:95-124 | a non-billable run costs 0; a billable one costs the request price plus the compute part |
| ImprovedCostModel.ComputeCostNonNegative | evaluation/improved_cost_model.py:111-121 | with sensible prices the compute part is never negative |
| ImprovedCostModel.ExecutionCostAtLeastRequest | evaluation/improved_cost_model.py:95-124 | a billed run costs at least the request price |
| ImprovedCostModel.SyncCostsAtLeastAsync | evaluation/improved_cost_model.py:119-121 | a synchronous call costs at least the asynchronous one, and the same under factor 1 |
| ImprovedCostModel.ExecutionCostMonotone | evaluation/improved_cost_model.py:102-124 | a longer run never costs less |
| ImprovedCostModel.ShortRunsCostTheMinimum | evaluation/improved_cost_model.py:105-106 | a run shorter than the minimum costs what the minimum costs |
| ImprovedCostModel.GoogleBillsWholeSteps | evaluation/improved_cost_model.py:36-46 | with Google's 100 ms steps a 101 ms run bills 200 ms and a 20 ms run 100 ms |
| ImprovedCostModel.GroupsDictLast | evaluation/improved_cost_model.py:168-179 | a function is looked up in the last group that names it, with that group's key and memory |
| ImprovedCostModel.GroupsDict | evaluation/improved_cost_model.py:168-179 | `groups_dict`: every member of every group mapped to its group, key and memory, a later group overriding an earlier one; GroupsDictLast and GroupsDictMissing state the lookup |
| ImprovedCostModel.GroupsDictMissing | evaluation/improved_cost_model.py:168-179 | a function no group names has no entry |
| ImprovedCostModel.RunCost | evaluation/improved_cost_model.py:193-215 | the cost of one grouped run: its group's memory, billable unless the caller is in the same group; ExecutionCost and RunCostsLocalFree / RunCostsBilled state its value |
| ImprovedCostModel.RunCosts | evaluation/improved_cost_model.py:193-215 | one cost per run |
| ImprovedCostModel.RunGbSeconds | evaluation/improved_cost_model.py:125-128 | one GB-second figure per run |
| ImprovedCostModel.PrefixStep | evaluation/improved_cost_model.py:182-230 | the totals after one more run are the totals so far plus that run, when it is grouped |
| ImprovedCostModel.RunCostsLocalFree | evaluation/improved_cost_model.py:201-215 | a call from inside the caller's own group is charged nothing |
| ImprovedCostModel.RunCostsBilled | evaluation/improved_cost_model.py:193-215 | each billed run costs at least the request price |
| ImprovedCostModel.TallyBalanced | evaluation/improved_cost_model.py:217-230 | the total is the request part plus the compute part |
| ImprovedCostModel.RepeatIsProduct | evaluation/improved_cost_model.py:217-222 | adding n request prices is n times the price |
| ImprovedCostModel.TallyRequestsAdd | evaluation/improved_cost_model.py:217-222 | the request part is the request price added once per billed run |
| ImprovedCostModel.TallyRequests | evaluation/improved_cost_model.py:217-222 | the request part is the number of billed runs times the request price |
| ImprovedCostModel.TallyComputeNonNegative | evaluation/improved_cost_model.py:217-230 | the compute part is never negative when each billed run costs at least the request price |
| ImprovedCostModel.Totals | evaluation/improved_cost_model.py:161-230 | `cost_breakdown` before the free tier, summed over the runs; TotalsBalanced and SkippedRunsCostNothing state its balance |
| ImprovedCostModel.TotalsBalanced | evaluation/improved_cost_model.py:168-230 | a setup's total is its request part plus its compute part, the request part one price per billed run |
| ImprovedCostModel.SkippedRunsCostNothing | evaluation/improved_cost_model.py:188-206 | a run of an ungrouped function, or a call from inside its own group, leaves the breakdown unchanged |
| ImprovedCostModel.UsedShare | evaluation/improved_cost_model.py:236-242 | the share of the allowance used is at most 1, and not negative for non-negative usage |
| ImprovedCostModel.Discounted | evaluation/improved_cost_model.py:243-244 | a non-negative part keeps between nothing and all of itself after the discount |
| ImprovedCostModel.FreeTierOf | evaluation/improved_cost_model.py:233-248 | the savings lie between 0 and the cost, and savings plus the cost after the free tier give the total |
| ImprovedCostModel.FreeTierExhausted | evaluation/improved_cost_model.py:233-248 | once the allowance is used up nothing is saved |
| ImprovedCostModel.FreeTierNeverNegative | evaluation/improved_cost_model.py:233-248 | with sensible prices the cost after the free tier is never negative |
| ImprovedCostModel.Monthly | evaluation/improved_cost_model.py:320-358 | the monthly cost after the free tier is never negative, equals cost minus savings whenever that is not negative, and no savings without the free tier |
| ImprovedCostModel.MonthlySavingsWithinCost | evaluation/improved_cost_model.py:320-358 | the allowance never saves more than the month costs |
| ImprovedCostModel.MonthlyFreeTier | evaluation/improved_cost_model.py:325-354 | with the allowance applied, the month costs the per-invocation cost times the invocations and saves the covered requests and GB-seconds at their prices |
| ImprovedCostModel.SavingsWithin | evaluation/improved_cost_model.py:337-348 | the covered requests and GB-seconds save between nothing and the cost of the invocations |
| ImprovedCostModel.CostModel.constructor | evaluation/improved_cost_model.py:50-72 | the chosen profile and flags, free-tier counters at 0 |
| ImprovedCostModel.CostModel.CalculateExecutionCost | evaluation/improved_cost_model.py:78-131 | returns the run's price; a billed run adds one request and its GB-seconds to the counters when the free tier applies; nothing else changes |
| ImprovedCostModel.CostModel.CalculateFusionCost | evaluation/improved_cost_model.py:133-250 | the breakdown of the setup; the counters grow by the billed runs and their GB-seconds; the free-tier part is present exactly when the free tier applies |
| ImprovedCostModel.CostModel.AddExecution | evaluation/improved_cost_model.py:193-230 | one grouped run priced and added to the totals, counters moved only for a billed run |
| ImprovedCostModel.CostModel.EstimateMonthlyCost | evaluation/improved_cost_model.py:305-358 | the monthly estimate of one invocation's breakdown, never negative; the free-tier counters grow by the billed runs and their GB-seconds when the free tier applies |
| ImprovedCostModel.CostModel.ResetFreeTierTracking | evaluation/improved_cost_model.py:360-367 | both counters back to 0, nothing else changes |
| ImprovedCostModel.CostModel.SetDoubleBillingFactor | evaluation/improved_cost_model.py:379-388 | the stored factor is exactly max(1, factor), so never below 1; nothing else of this model changes (the shared price table is left out, see below) |
| ImprovedCostModel.BuildGroupsDict | evaluation/improved_cost_model.py:168-179 | the loops build the group dictionary |
| ImprovedCostModel.AddMembers | evaluation/improved_cost_model.py:174-179 | every member of the group gets the group's entry, the rest is kept |
| ImprovedCostModel.NewCostModel | evaluation/improved_cost_model.py:50-72 | an error exactly for an unknown provider without a custom profile, else a fresh model with the chosen profile and zero counters |
| LambdaIgniteManager.ExactlyTtlIsNeither | lambda_ignite_manager.py:31-71 | an instance aged exactly the time-to-live is neither reused nor cleaned up |
| LambdaIgniteManager.WarmOf | lambda_ignite_manager.py:26-33 | exactly the listed instances younger than the time-to-live |
| LambdaIgniteManager.MostRecentIndex | lambda_ignite_manager.py:37 | the first of the latest-used instances, as max with key=last_used picks |
| LambdaIgniteManager.ColdStartThenWarm | lambda_ignite_manager.py:47-62 | after a cold start with a positive time-to-live, the new instance is the one reused at once |
| LambdaIgniteManager.RemoveFirstMultiset | lambda_ignite_manager.py:75-77 | list.remove drops exactly one occurrence of the id |
| LambdaIgniteManager.DropMembers | lambda_ignite_manager.py:73-81 | the lists keep exactly the ids not removed |
| LambdaIgniteManager.DropNone | lambda_ignite_manager.py:73-81 | removing nothing keeps the list |
| LambdaIgniteManager.DropAbsent | lambda_ignite_manager.py:75-77 | removing an absent id changes nothing |
| LambdaIgniteManager.RemoveFirstDrop | lambda_ignite_manager.py:75-77 | on a list without repeats, removing the first occurrence removes the id altogether |
| LambdaIgniteManager.LambdaInstancePool.constructor | lambda_ignite_manager.py:13-18 | empty pool with the given time-to-live |
| LambdaIgniteManager.LambdaInstancePool.WarmInstances | lambda_ignite_manager.py:26-33 | the warm instances of the function, in list order |
| LambdaIgniteManager.LambdaInstancePool.GetInstance | lambda_ignite_manager.py:20-62 | a cold start exactly when no instance is warm: then the new id is appended and stamped; otherwise the latest-used warm instance is reused and re-stamped; the invocation count rises by one either way |
| LambdaIgniteManager.LambdaInstancePool.RemoveInstance | lambda_ignite_manager.py:75-77 | every function's list loses the first occurrence of the id; nothing else changes |
| LambdaIgniteManager.LambdaInstancePool.ExpiredIds | lambda_ignite_manager.py:69-71 | exactly the ids older than the time-to-live |
| LambdaIgniteManager.LambdaInstancePool.RunCleanup | lambda_ignite_manager.py:64-83 | every expired instance leaves the last-use map and every list, the rest kept in order; nothing else changes |
| LambdaIgniteManager.LambdaInstancePool.ExpireAll | lambda_ignite_manager.py:74-81 | the given ids leave the last-use map and every list; nothing else changes |
| LambdaIgniteManager.LambdaInstancePool.ExpireOne | lambda_ignite_manager.py:73-81 | one expired id leaves every list and the last-use map |
| LambdaIgniteManager.Forget | lambda_ignite_manager.py:79-81 | the last-use map without the given ids, other entries unchanged |
| LambdaIgniteManager.ForgetTwice | lambda_ignite_manager.py:73-81 | forgetting ids one at a time is forgetting them together |
| LambdaIgniteManager.ExpiredSet | lambda_ignite_manager.py:69-71 | the ids whose age is strictly above the time-to-live |
| LambdaIgniteManager.RemovedNothing | lambda_ignite_manager.py:73-81 | before any removal the lists are untouched |
| LambdaIgniteManager.RemovedStep | lambda_ignite_manager.py:73-81 | removing one more id from every list keeps the removal invariant |
| LambdaIgniteManager.RemoveFirstAbsent | lambda_ignite_manager.py:75-77 | removing an absent id changes nothing |
| LambdaIgniteManager.ReadStep | lambda_ignite_manager.py:91-130 | two disk reads on a cold start or a miss, one on a hit; the path is cached afterwards and no other key is added |
| LambdaIgniteManager.SecondReadHits | lambda_ignite_manager.py:91-130 | a warm read right after a read of the same path hits the cache |
| LambdaIgniteManager.ReadLatency | lambda_ignite_manager.py:122-124 | never negative; two disk reads take twice as long as one |
| LambdaIgniteManager.Cleaned | lambda_ignite_manager.py:132-150 | exactly the entries younger than their maximum age stay, unchanged; only removed stale entries leave the layer set |
| LambdaIgniteManager.LayerFilesLiveLonger | lambda_ignite_manager.py:140 | a layer file outlives an ordinary file of the same age and stays up to ten times the maximum age |
| LambdaIgniteManager.LambdaIOEmulator.constructor | lambda_ignite_manager.py:86-89 | empty cache and layer set |
| LambdaIgniteManager.LambdaIOEmulator.SimulateFileRead | lambda_ignite_manager.py:91-130 | the state and the disk reads follow ReadStep; the latency is the read time per disk read |
| LambdaIgniteManager.LambdaIOEmulator.CleanupCache | lambda_ignite_manager.py:132-150 | the cache and the layer set become their cleaned versions |
| LambdaIgniteManager.LambdaIOEmulator.StalePaths | lambda_ignite_manager.py:136-143 | exactly the cached paths older than their maximum age |
| LambdaIgniteManager.LambdaIOEmulator.RemovePaths | lambda_ignite_manager.py:145-148 | the given paths leave the cache and the layer set; the other entries stay unchanged |
| CommunicationAwareOptimizer.Normalised | app/optimizer/communication_aware_optimizer.py:67-74 | the weights sum to one and keep their ratios |
| CommunicationAwareOptimizer.NormalisedIdempotent | app/optimizer/communication_aware_optimizer.py:57-77 | normalising twice is normalising once, so setting the same weights twice is setting them once |
| CommunicationAwareOptimizer.DefaultWeightsNormalised | app/optimizer/communication_aware_optimizer.py:39-44 | the default weights already sum to one |
| CommunicationAwareOptimizer.NormalisedWithinUnit | app/optimizer/communication_aware_optimizer.py:67-74 | non-negative weights normalise into [0, 1] |
| CommunicationAwareOptimizer.StrategyName | app/optimizer/communication_aware_optimizer.py:377-391 | one of the four strategy-table entries |
| CommunicationAwareOptimizer.CommunicationType | app/optimizer/communication_aware_optimizer.py:377-391 | the table entry for local or remote by the call type and sync or async by the flag |
| CommunicationAwareOptimizer.DefaultCommunicationTypes | app/optimizer/communication_aware_optimizer.py:47-52 | with the default table: direct or event for local calls, http or the API gateway for any other call type |
| CommunicationAwareOptimizer.IsHighVolume | app/optimizer/communication_aware_optimizer.py:473-475 | more than 10 calls, a missing relation or count reading as 0; Serialisation, Compression and AuthType use it |
| CommunicationAwareOptimizer.Serialisation | app/optimizer/communication_aware_optimizer.py:393-415 | protobuf exactly for high-volume http, json otherwise |
| CommunicationAwareOptimizer.Compression | app/optimizer/communication_aware_optimizer.py:417-441 | none for direct calls; brotli exactly for other high-volume calls; gzip for other http and API-gateway calls; none otherwise |
| CommunicationAwareOptimizer.AuthType | app/optimizer/communication_aware_optimizer.py:443-471 | an API key exactly for http, IAM exactly for the API gateway and events |
| CommunicationAwareOptimizer.UncalledGroupSettings | app/optimizer/communication_aware_optimizer.py:286-299 | two groups that never call each other get the API gateway, json, gzip and IAM |
| CommunicationAwareOptimizer.GroupKeyIgnoresOrder | app/optimizer/communication_aware_optimizer.py:373-375 | a group's key does not depend on the order of its names |
| CommunicationAwareOptimizer.OwnerOf | app/optimizer/communication_aware_optimizer.py:327-330 | a name has an owner exactly when some group holds it |
| CommunicationAwareOptimizer.OwnerOfLast | app/optimizer/communication_aware_optimizer.py:327-330 | a name belongs to the key of the last group that holds it |
| CommunicationAwareOptimizer.Record | app/optimizer/communication_aware_optimizer.py:352-368 | recording a call adds its group pair and no other key |
| CommunicationAwareOptimizer.RecordKeepsCounts | app/optimizer/communication_aware_optimizer.py:352-368 | one more call of the right kind, and every relation stays consistent: counts add up and the sync flag marks a sync majority |
| CommunicationAwareOptimizer.CrossFromStep | app/optimizer/communication_aware_optimizer.py:338-368 | one more callee adds its group pair when it lies in another group |
| CommunicationAwareOptimizer.CrossPairsStep | app/optimizer/communication_aware_optimizer.py:338-368 | one more caller adds the pairs its calls cross |
| CommunicationAwareOptimizer.FunctionToGroup | app/optimizer/communication_aware_optimizer.py:327-330 | the loops build the name-to-group map |
| CommunicationAwareOptimizer.AssignAll | app/optimizer/communication_aware_optimizer.py:329-330 | every name of the group maps to its key, the rest kept |
| CommunicationAwareOptimizer.RecordCall | app/optimizer/communication_aware_optimizer.py:352-368 | one recorded call keeps the relations consistent, adds only its key, and adds one call (and one synchronous call when it is synchronous) to that key only |
| CommunicationAwareOptimizer.AddCallerRelations | app/optimizer/communication_aware_optimizer.py:338-368 | one caller's calls add exactly the cross-group pairs they cross, and each relation's counts grow by that caller's calls (and synchronous calls) between its groups |
| CommunicationAwareOptimizer.AddCall | app/optimizer/communication_aware_optimizer.py:345-368 | one callee's call adds its pair when it crosses groups |
| CommunicationAwareOptimizer.AnalyzeGroupRelations | app/optimizer/communication_aware_optimizer.py:314-371 | one consistent relation per ordered pair of different groups some call crosses, and no other; its call count is the number of calls from the first group into the second, its sync count the number of those that are synchronous |
| CommunicationAwareOptimizer.CallsFromStep | app/optimizer/communication_aware_optimizer.py:343-368 | one more callee adds one call to exactly the group pair it crosses |
| CommunicationAwareOptimizer.CallsStep | app/optimizer/communication_aware_optimizer.py:337-368 | one more caller adds its calls between each group pair |
| CommunicationAwareOptimizer.CountsAreCalls | app/optimizer/communication_aware_optimizer.py:337-368 | after all callers, each relation's counts are the numbers of calls and synchronous calls between its groups |
| CommunicationAwareOptimizer.UngroupedCallerCallsNothing | app/optimizer/communication_aware_optimizer.py:338-339 | a caller outside every group adds no call |
| CommunicationAwareOptimizer.RelationsAreCrossGroupCalls | app/optimizer/communication_aware_optimizer.py:314-371 | a pair has a relation exactly when some recorded call goes from the first group to the different second group |
| CommunicationAwareOptimizer.CommunicationOptimizer.constructor | app/optimizer/communication_aware_optimizer.py:23-55 | default weights and strategy table |
| CommunicationAwareOptimizer.CommunicationOptimizer.SetCommunicationWeights | app/optimizer/communication_aware_optimizer.py:57-77 | a positive total is divided out, otherwise the weights stay; the strategies do not change |
| CommunicationAwareOptimizer.CommunicationOptimizer.SetCommunicationStrategies | app/optimizer/communication_aware_optimizer.py:79-87 | the table is updated key by key and never loses an entry; the weights do not change |
| ExperimentRunner.PrependAll | evaluation/experiment_runner.py:67 | one sequence per tail, the choice in front |
| ExperimentRunner.ProductStep | evaluation/experiment_runner.py:67 | each tuple is a choice in front of one of the tails |
| ExperimentRunner.Product | evaluation/experiment_runner.py:67 | every tuple has one strategy per consecutive pair |
| ExperimentRunner.ProductStepCount | evaluation/experiment_runner.py:67 | \|space\| times \|tails\| tuples |
| ExperimentRunner.ProductCount | evaluation/experiment_runner.py:67 | \|space\|^n tuples |
| ExperimentRunner.ProductStepMembers | evaluation/experiment_runner.py:67 | a tuple is produced exactly when its head is a choice and its tail one of the tails |
| ExperimentRunner.AllInCons | evaluation/experiment_runner.py:67 | a tuple is over the space exactly when its head and its tail are |
| ExperimentRunner.ProductMembers | evaluation/experiment_runner.py:67 | the tuples are exactly the length-n sequences over the space |
| ExperimentRunner.DistinctAppend | evaluation/experiment_runner.py:67 | two repeat-free lists with nothing in common join into a repeat-free list |
| ExperimentRunner.ProductStepDistinct | evaluation/experiment_runner.py:67 | a repeat-free space and repeat-free tails give no repeated tuple |
| ExperimentRunner.ProductDistinct | evaluation/experiment_runner.py:67 | a space without repeats gives no tuple twice |
| ExperimentRunner.ConfigName | evaluation/experiment_runner.py:68 | "config_" followed by the strategies joined with '_'; ConfigNamesDiffer proves distinct tuples get distinct names |
| ExperimentRunner.RulesOf | evaluation/experiment_runner.py:71-82 | the rules after the first n links: each function mapped to its successor with the link's sync strategy and a remote async strategy; RulesOfSources, RulesOfTargets and RulesOfValues state them |
| ExperimentRunner.ConfigOf | evaluation/experiment_runner.py:68-88 | one configuration: its name and the rules of all links; GeneratedConfigurations counts them and shows the names distinct |
| ExperimentRunner.ConfigNamesDiffer | evaluation/experiment_runner.py:68 | different tuples get different names when no strategy contains '_' |
| ExperimentRunner.RulesOfSources | evaluation/experiment_runner.py:71-82 | the rules' sources are exactly the functions with a successor |
| ExperimentRunner.RulesOfTargets | evaluation/experiment_runner.py:71-82 | a source's targets are exactly its successors, and every rule sends asynchronous calls remotely |
| ExperimentRunner.RulesOfValues | evaluation/experiment_runner.py:71-82 | a pair's rule is sync by the strategy chosen at its last position, async remote |
| ExperimentRunner.BuildRules | evaluation/experiment_runner.py:71-82 | the loop builds the rules of the whole chain |
| ExperimentRunner.GenerateFusionConfigurations | evaluation/experiment_runner.py:54-90 | nothing for fewer than two functions; otherwise one configuration per strategy tuple in product order, the default space standing in for an empty one |
| ExperimentRunner.GeneratedConfigurations | evaluation/experiment_runner.py:54-90 | \|space\|^(n-1) configurations with distinct names |
| Fusion.StrategyOf | app/fusion.py:12-15 | strategy "local", no url and retry 0 unless given |
| Fusion.StrategyRoundTrip | app/fusion.py:12-23 | reading back what to_dict wrote gives the same strategy |
| Fusion.RuleOf | app/fusion.py:26-29 | a missing sync or async entry becomes the local strategy |
| Fusion.RuleRoundTrip | app/fusion.py:26-36 | reading back what to_dict wrote gives the same rule |
| Fusion.ConfigurationOf | app/fusion.py:40-53 | 128 MB and 3 s without data, and one rule per entry of the data's rules |
| Fusion.GetRule | app/fusion.py:55-61 | the stored rule of the pair, or local/local when there is none |
| Fusion.GetRuleFromData | app/fusion.py:40-61 | a configured pair gets the data's rule read with its defaults; any other pair gets local/local |
| Fusion.UnconfiguredRunsLocally | app/fusion.py:40-61 | without configuration data every pair runs locally in both modes |
| Fusion.TraceNode.constructor | app/fusion.py:65-76 | a pending node with no times, no result, no error, local and sync |
| Fusion.TraceNode.Start | app/fusion.py:78-84 | running from now with the given strategy and mode; the end time, result and error stay |
| Fusion.TraceNode.Complete | app/fusion.py:86-92 | completed with duration end minus start and the given result; a node that never started raises after the end time is written |
| Fusion.TraceNode.Fail | app/fusion.py:94-100 | failed with duration end minus start and the error text; a node that never started raises after the end time is written |
| Fusion.ExecutionTrace.Views | app/fusion.py:117-151 | one view per node, in dict order |
| Fusion.ExecutionTrace.constructor | app/fusion.py:119-126 | a running trace with no nodes |
| Fusion.ExecutionTrace.AddNode | app/fusion.py:128-132 | a fresh pending node under the function id; a second node for a function replaces the first and keeps its place in dict order |
| Fusion.ExecutionTrace.Complete | app/fusion.py:134-139 | end time, duration end minus start, and the final status; the nodes stay |
| Fusion.LastCompleted | app/fusion.py:383-386 | the position of a completed node, None exactly when no node completed |
| Fusion.LastCompletedIsLatest | app/fusion.py:383-386 | with non-empty ids, the first of the completed nodes that ended last |
| Fusion.FirstError | app/fusion.py:399 | the first non-empty error in dict order, None exactly when no node has one |
| Fusion.FusionEngine.constructor | app/fusion.py:154-167 | no fusions, configurations or traces |
| Fusion.FusionEngine.RegisterFusion | app/fusion.py:169-186 | the chain and the configuration are stored under the name, replacing earlier ones; the traces stay |
| Fusion.FusionEngine.GetTaskResult | app/fusion.py:358-400 | an unknown id is reported as such; a running trace gives its elapsed time; a finished one its status, the latest completed node's result and the first error |
| Fusion.LatestCompleted | app/fusion.py:383-386 | the loop finds the latest completed node |
| Fusion.ResultOf | app/fusion.py:388-391 | the result of the node picked as last completed, when its function id is non-empty; LatestResult computes it |
| Fusion.LatestResult | app/fusion.py:383-391 | the result of the latest completed node when it has a function id, otherwise none |
| Fusion.FirstNodeError | app/fusion.py:399 | the generator finds the first error |
| ServiceModel.Merge | app/communication/service_model.py:110-116 | the merged keys are the union of both key sets, and keys the updates do not name keep their values |
| ServiceModel.MergeAt | app/communication/service_model.py:110-116 | a dictionary update of a dictionary is merged recursively; any other update replaces the value |
| ServiceModel.MergeNothing | app/communication/service_model.py:110-116 | merging nothing leaves the configuration as it is |
| ServiceModel.MergeIdempotent | app/communication/service_model.py:110-116 | applying the same user configuration twice gives what applying it once gives |
| ServiceModel.MergeSelf | app/communication/service_model.py:110-116 | a configuration merged into itself stays as it is |
| ServiceModel.Lookup | app/communication/service_model.py:110-116 | the empty path finds the whole configuration |
| ServiceModel.MergeKeepsUpdatedScalars | app/communication/service_model.py:110-116 | every scalar the user configuration sets is what the merged configuration holds at that path |
| ServiceModel.LoadFactor | app/communication/service_model.py:517-545 | the load factor always lies between 0.7 and 1.3 |
| ServiceModel.LoadFactorAt | app/communication/service_model.py:527-529 | a missing time of day means the clock's hour |
| ServiceModel.PeakHours | app/communication/service_model.py:532-545 | the factor is 1.3 exactly in the 9-12 and 14-17 windows |
| ServiceModel.NightHours | app/communication/service_model.py:532-545 | the factor is 0.7 exactly between 0 and 6; an hour outside 0-20 gets 0.8 |
| ServiceModel.RampsAreMonotone | app/communication/service_model.py:532-545 | the morning ramp rises and the evening ramp falls |
| ServiceModel.MeshOverhead | app/communication/service_model.py:334-370 | a disabled mesh adds nothing |
| ServiceModel.MeshOverheadMonotone | app/communication/service_model.py:334-370 | with non-negative latencies, switching on a feature never lowers the overhead |
| ServiceModel.DefaultMeshBounds | app/communication/service_model.py:86-91 | with the default latencies: 0 while disabled, between 3 and 9.5 ms once enabled |
| ServiceModel.EventServiceCost | app/communication/service_model.py:251-276 | with non-negative prices the cost is never negative, and kinesis always pays at least one shard-hour |
| ServiceModel.UnknownServiceBilledAsSqs | app/communication/service_model.py:251-276 | a service the table does not know is billed exactly as sqs |
| ServiceModel.PerMillionIsAdditive | app/communication/service_model.py:251-276 | outside kinesis the price is additive in the operations and zero for none |
| ServiceModel.KinesisMinimumShard | app/communication/service_model.py:251-276 | kinesis always pays at least one shard-hour |
| ServiceModel.DefaultEventExamples | app/communication/service_model.py:44-66 | with the default prices a million sns messages cost 0.50, a million sqs messages 0.40, and idle kinesis 0.015 |
| ServiceModel.Bill | app/communication/service_model.py:389-394 | an error exactly when the type has no price; the error leaves the counters alone; otherwise only the type's counter grows, by the gigabytes billed |
| ServiceModel.EveryTypeBilledAsIntraRegion | app/communication/service_model.py:372-394 | as written, every transfer type, internet included, is billed and counted as intra-region |
| ServiceModel.ResolvedAsWritten | app/communication/service_model.py:385-387 | as written: the type itself only when it is a key of the price section, else "intra_region"; EveryTypeBilledAsIntraRegion shows the consequence |
| ServiceModel.TransferAsWritten | app/communication/service_model.py:372-394 | `calculate_data_transfer_cost` as written: Bill under the as-written type; the Bill contract gives the KeyError, the price and the counter |
| ServiceModel.TransferIntended | app/communication/service_model.py:372-394 | the corrected transfer: Bill under the type whose price key exists, else intra-region; IntendedBillsOwnRate and IntendedUnknownTypeIsIntraRegion state it |
| ServiceModel.ResolvedIntended | app/communication/service_model.py:376-387 | the type itself or intra-region |
| ServiceModel.IntendedBillsOwnRate | app/communication/service_model.py:376-394 | a type with a price is billed at that price and counted under its own name |
| ServiceModel.IntendedUnknownTypeIsIntraRegion | app/communication/service_model.py:385-387 | a type without a price falls back to intra-region |
| ServiceModel.IntendedInternetRate | app/communication/service_model.py:94-98 | with the default prices internet traffic costs 0.09 per GB and is counted as internet |
| ServiceModel.ServiceCommunicationModel.constructor | app/communication/service_model.py:20-108 | the given configuration, no API requests, zero event messages for the four services and zero transfer counters |
| ServiceModel.ServiceCommunicationModel.ServiceMeshOverhead | app/communication/service_model.py:334-370 | nothing while the mesh is disabled; at least the sidecar and routing latencies once it is enabled with a non-negative auth latency |
| ServiceModel.ServiceCommunicationModel.CalculateDataTransferCost | app/communication/service_model.py:372-394 | the cost and the counters follow the billing as written; the other counters stay |
| ServiceModel.DefaultModelCountsIntraRegion | app/communication/service_model.py:372-394 | on a default model every transfer costs 0.01 per GB and is counted as intra-region, internet staying 0 |

## Left out

- CurrencyIntended.HandlerRoundTripWithin: converting from one currency to another and back is not within one nano of the original, even with the corrected conversion. Each conversion truncates to whole nanos, and the error of the first one is multiplied by the rate back. So the proved bound is 1 + rate(B, A) nanos, and CurrencyIntended.RoundTripLosesNanos exhibits a loss of 1000 nanos (KRW to EUR and back). CurrencyPy.RoundTripLosesNanos shows the same loss for the Python handler as written.
- IEEE double rounding: every float is an exact real, so results that depend on rounding the rate product are not reproduced.
- Logging, file output, the HTTP, Docker, VM and subprocess plumbing, and asynchronous execution: these are out of scope. The monitoring and cleanup threads and the pool's lock are also left out; every operation is modelled as one sequential step.
- The clock, `uuid`, `random.randint`, the file system and measured latencies become parameters. `random.sample` becomes an arbitrary choice of the right size.
- FunctionFusionSearch.IterateOnLowestLatency: the model visits at most `fuel` groups and then returns OutOfFuel. Termination of the source's loop over the live setup list is not established.
- EnhancedOptimizer.EnhancedFusionOptimizer.InfrastructureOptimize: only the branch without a cost model is modelled. The cost-model score needs an external performance model.
- FusionScheduling.CreateAsyncExecutionPlan: only the branch without a performance model is modelled, and the simulated timings of `_simulate_execution_order` are left out.
- FusionScheduling.OptimizeFunctionOrder: the inner loop over a placed function's dependents is left out because it can never run (see Findings), so the method shows the loop body's effect only.
- `analyze_dependencies`, `optimize_fusion`, `optimize_async_execution`, `_analyze_execution_times` and `invoke_fusion_optimized` read the fusion engine and its traces asynchronously. They are not part of this model; their dependency map is a parameter.
- ContinuousOptimizer: `_run_optimization` and `_collect_execution_data` are not modelled. A run's result and the trace durations are parameters.
- ImprovedCostModel: `compare_fusion_setups` and `update_profile` are not modelled.
- ImprovedCostModel.CostModel.SetDoubleBillingFactor: the model gives every cost model its own copy of the price profile. In the source, evaluation/improved_cost_model.py:65 stores a reference to the class-level `PROVIDER_PROFILES` entry (and line 63 the caller's `custom_profile` dict), so the write at line 387 changes that shared table: every other cost model of the same provider, and every one created later, sees the new factor. The same aliasing applies to `update_profile` (line 376). This sharing between objects is not modelled.
- ImprovedCostModel.BilledDuration: requires a non-zero billing resolution. The ZeroDivisionError that evaluation/improved_cost_model.py:109 raises for a zero resolution is not modelled.
- ImprovedCostModel.ExecutionCost: a billable run requires a non-zero billing resolution, for the same reason (line 109). ComputeCost, RunCost, RunCosts and the batch totals built on them carry the same precondition.
- ImprovedCostModel.CostModel.CalculateExecutionCost: a billable run requires a non-zero billing resolution. The ZeroDivisionError of line 109 is not modelled. CostModel.AddExecution carries the same precondition for a charged run.
- ImprovedCostModel.Monthly: with the free tier applied, requires a non-zero `gb_second_cost`. The ZeroDivisionError that evaluation/improved_cost_model.py:337 raises is not modelled. CostModel.EstimateMonthlyCost carries the same precondition.
- ServiceModel:
  - The typed configuration (mesh, event prices, transfer prices) is given directly instead of being read out of the merged dictionary.
  - Event services a user adds beyond the default four are not modelled.
  - The latency functions, `calculate_api_gateway_cost`, `simulate_communication` and `get_billing_summary` are not modelled.
- LambdaIgniteManager: the `AWSLambdaIgniteManager` methods built on the VM manager are not modelled. The file size and the read latency constant are inputs.
- CommunicationAwareOptimizer: `optimize`, `get_optimal_configuration*`, `optimize_communication_settings` and the save and load of results are not modelled. The call patterns are a parameter.
- Fusion: `execute` and `_execute_fusion` are not modelled. A run's trace is built by calling the trace methods directly.
- Sieve.ISqrt: `int(math.sqrt(n))` is taken as the exact integer square root; rounding of the float square root for very large limits is not modelled.

## Findings

| source | as written | input that shows it | evidently intended | confidence | as-written member | corrected member |
|---|---|---|---|---|---|---|
| functions/webshop/currency/handler.py:62-63 | `symmetric_floor(v)` returns `int(v) - 1` for every negative v, including whole numbers | convert -1 EUR 0 nanos to EUR: the result is (-1, 1), not (-1, 0) | round toward zero, so that converting to the same currency is the identity | not executed | CurrencyPy.NegativeSelfConversionCounterexample | CurrencyIntended.HandlerSelfConversion |
| functions/webshop/currency/handler.py:73-75 | nanos are carried into units with the divisor 999 999 999 | units 0, nanos 999 999 999 at rate 1 become (1, 0) | carry at 10^9 nanos per unit, so that rate 1 returns the amount unchanged | not executed | CurrencyPy.CarryDivisorCounterexample | CurrencyIntended.IdentityAtRateOne |
| functions/webshop/currency/handler.js:69-72 | the same divisor 999 999 999 in the JavaScript carry | units 0, nanos 999 999 999 at rate 1 become (1, 0) | carry at 10^9 nanos per unit | not executed | CurrencyJs.CarryDivisorCounterexample | CurrencyIntended.IdentityAtRateOne |
| app/optimizer/function_fusion_optimizer.py:141-147 | the split removes the function from the stale `fktn_group` of the enclosing loop, not from the current group | setup [[A, B, C]] with no synchronous calls: B and then C are split off, the second split rebuilds the group from the stale list, and the result is [[A, B], [B], [C]], with B in two groups | remove the function from the group it is being split off | not executed | FunctionFusionSearch.StaleGroupCounterexample | FunctionFusionSearch.SplitOffCurrentGroup |
| app/optimizer/function_fusion_optimizer.py:216-223 | groups are popped inside `for k in range(n0)` over the original length | setup [[A], [B], [C]] moving B: the group [B] is popped at k = 1, the list shrinks to two groups, and k = 2 reads past its end (IndexError) | drop the function from every group and remove the groups that become empty | not executed | FunctionFusionSearch.IndexErrorCounterexample | FunctionFusionSearch.IsolateIntended |
| app/optimizer/FusionOptimizer.py:214-223 | `has_incoming` seeds the worklist with the functions nobody depends on, so dependents come first | chain [A, B] where B depends on A: the order returned is [B, A] | a topological order that puts every function after its dependencies | not executed | FusionScheduling.WrittenOrderCounterexample | FusionScheduling.TopologicalOrder |
| app/communication/service_model.py:385-387 | the transfer type is looked up among the price keys `<type>_cost_per_gb`, so it is never found | an internet transfer is billed at the intra-region price and counted as intra-region | bill each known type at its own price and under its own counter | not executed | ServiceModel.EveryTypeBilledAsIntraRegion | ServiceModel.IntendedBillsOwnRate |
