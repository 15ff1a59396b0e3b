/** The Lambda emulation on top of the VM manager: a pool that keeps
    instances warm for a time-to-live and reuses the most recently used one,
    and an I/O emulator whose file cache makes a first read cost two disk
    reads. The clock, the random part of a new instance id, the file system
    and the lock are outside the model: the current time, the new id and the
    file size come in as parameters. */
module LambdaIgniteManager {
  import opened Strs

  /** `last_used.get(id, 0)`. */
  function Stamp(lastUsed: map<string, real>, id: string): real
  {
    if id in lastUsed then lastUsed[id] else 0.0
  }

  /** Line 31: an instance is warm while its age is strictly below the
      time-to-live. */
  predicate IsWarm(lastUsed: map<string, real>, ttl: real, now: real, id: string)
  {
    now - Stamp(lastUsed, id) < ttl
  }

  /** Line 71: an instance expires once its age is strictly above the
      time-to-live. */
  predicate Expired(lastUsed: map<string, real>, ttl: real, now: real, id: string)
    requires id in lastUsed
  {
    now - lastUsed[id] > ttl
  }

  /** An instance aged exactly the time-to-live is neither warm nor
      expired. */
  lemma ExactlyTtlIsNeither(lastUsed: map<string, real>, ttl: real, now: real, id: string)
    requires id in lastUsed && now - lastUsed[id] == ttl
    ensures !IsWarm(lastUsed, ttl, now, id) && !Expired(lastUsed, ttl, now, id)
  {
  }

  /** The warm instances of a list, in list order. */
  function WarmOf(ids: seq<string>, lastUsed: map<string, real>, ttl: real, now: real): (r: seq<string>)
    ensures forall x :: x in r <==> x in ids && IsWarm(lastUsed, ttl, now, x)
    ensures |r| <= |ids|
  {
    if ids == [] then []
    else
      var last := ids[|ids| - 1];
      WarmOf(ids[..|ids| - 1], lastUsed, ttl, now) + if IsWarm(lastUsed, ttl, now, last) then [last] else []
  }

  /** Line 37: the position `max(..., key=last_used)` picks, the first of
      the latest-used ones. */
  function MostRecentIndex(ids: seq<string>, lastUsed: map<string, real>): (i: nat)
    requires ids != []
    ensures i < |ids|
    ensures forall j :: 0 <= j < |ids| ==> Stamp(lastUsed, ids[j]) <= Stamp(lastUsed, ids[i])
    ensures forall j :: 0 <= j < i ==> Stamp(lastUsed, ids[j]) < Stamp(lastUsed, ids[i])
  {
    if |ids| == 1 then 0
    else
      var best := MostRecentIndex(ids[..|ids| - 1], lastUsed);
      if Stamp(lastUsed, ids[|ids| - 1]) > Stamp(lastUsed, ids[best]) then |ids| - 1 else best
  }

  /** `instances.get(name, [])`. */
  function InstancesOf(instances: map<string, seq<string>>, name: string): seq<string>
  {
    if name in instances then instances[name] else []
  }

  /** `invocation_count.get(name, 0)`. */
  function CountOf(counts: map<string, int>, name: string): int
  {
    if name in counts then counts[name] else 0
  }

  /** A cold start leaves a warm instance behind: with a positive
      time-to-live, the instance it created is the one reused at once. */
  lemma ColdStartThenWarm(ids: seq<string>, lastUsed: map<string, real>, ttl: real, now: real, newId: string)
    requires ttl > 0.0
    requires forall x :: x in ids ==> Stamp(lastUsed, x) <= now
    ensures var warm := WarmOf(ids + [newId], lastUsed[newId := now], ttl, now);
            warm != [] && Stamp(lastUsed[newId := now], warm[MostRecentIndex(warm, lastUsed[newId := now])]) == now
  {
    var after := lastUsed[newId := now];
    var warm := WarmOf(ids + [newId], after, ttl, now);
    assert (ids + [newId])[..|ids|] == ids;
    assert warm[|warm| - 1] == newId;
    var i := MostRecentIndex(warm, after);
    assert warm[i] in ids + [newId];
  }

  /** `list.remove(x)`: the first occurrence goes, if there is one. */
  function RemoveFirst(s: seq<string>, x: string): seq<string>
  {
    if s == [] then []
    else if s[0] == x then s[1..]
    else [s[0]] + RemoveFirst(s[1..], x)
  }

  /** Exactly one occurrence of the id goes, when there is one. */
  lemma {:induction false} RemoveFirstMultiset(s: seq<string>, x: string)
    ensures multiset(RemoveFirst(s, x)) == multiset(s) - multiset{x}
  {
    if s != [] {
      assert s == [s[0]] + s[1..];
      if s[0] != x {
        RemoveFirstMultiset(s[1..], x);
      }
    }
  }

  /** The list without the given ids, in order. */
  function Drop(s: seq<string>, gone: set<string>): seq<string>
  {
    if s == [] then []
    else (if s[0] in gone then [] else [s[0]]) + Drop(s[1..], gone)
  }

  /** `Drop` keeps exactly the ids that are not gone. */
  lemma {:induction false} DropMembers(s: seq<string>, gone: set<string>)
    ensures forall y :: y in Drop(s, gone) <==> y in s && y !in gone
  {
    if s != [] {
      assert s == [s[0]] + s[1..];
      DropMembers(s[1..], gone);
    }
  }

  lemma {:induction false} DropNone(s: seq<string>)
    ensures Drop(s, {}) == s
  {
    if s != [] {
      assert s == [s[0]] + s[1..];
      DropNone(s[1..]);
    }
  }

  lemma {:induction false} DropAbsent(s: seq<string>, gone: set<string>, x: string)
    requires x !in s
    ensures Drop(s, gone + {x}) == Drop(s, gone)
  {
    if s != [] {
      assert s == [s[0]] + s[1..];
      DropAbsent(s[1..], gone, x);
    }
  }

  /** On a list without repeats, removing the first occurrence removes the
      id altogether. */
  lemma {:induction false} RemoveFirstDrop(s: seq<string>, gone: set<string>, x: string)
    requires NoRepeats(s) && x !in gone
    ensures RemoveFirst(Drop(s, gone), x) == Drop(s, gone + {x})
  {
    if s != [] {
      var t := s[1..];
      assert s == [s[0]] + t;
      assert NoRepeats(t) by {
        forall p, q | 0 <= p < q < |t| ensures t[p] != t[q] {
          assert t[p] == s[p + 1] && t[q] == s[q + 1];
        }
      }
      if s[0] in gone {
        assert Drop(s, gone) == Drop(t, gone);
        assert Drop(s, gone + {x}) == Drop(t, gone + {x});
        RemoveFirstDrop(t, gone, x);
      } else if s[0] == x {
        assert x !in t by {
          forall q | 0 <= q < |t| ensures t[q] != x {
            assert t[q] == s[q + 1];
          }
        }
        DropAbsent(t, gone, x);
      } else {
        RemoveFirstDrop(t, gone, x);
        assert Drop(s, gone) == [s[0]] + Drop(t, gone);
      }
    }
  }

  class LambdaInstancePool {
    /** function name -> its instance ids */
    var instances: map<string, seq<string>>
    /** instance id -> time of last use */
    var lastUsed: map<string, real>
    var ttlSeconds: real
    var invocationCount: map<string, int>

    /** Lines 13-18. */
    constructor(ttlSeconds: real)
      ensures instances == map[] && lastUsed == map[] && invocationCount == map[]
      ensures this.ttlSeconds == ttlSeconds
    {
      instances := map[];
      lastUsed := map[];
      this.ttlSeconds := ttlSeconds;
      invocationCount := map[];
    }

    /** Lines 26-33: the warm instances of a function, in list order. */
    method WarmInstances(name: string, now: real) returns (warm: seq<string>)
      requires name in instances
      ensures warm == WarmOf(instances[name], lastUsed, ttlSeconds, now)
    {
      var ids := instances[name];
      warm := [];
      var k := 0;
      while k < |ids|
        invariant 0 <= k <= |ids|
        invariant warm == WarmOf(ids[..k], lastUsed, ttlSeconds, now)
      {
        assert ids[..k + 1][..k] == ids[..k];
        var stamp := if ids[k] in lastUsed then lastUsed[ids[k]] else 0.0;
        if now - stamp < ttlSeconds {
          warm := warm + [ids[k]];
        }
        k := k + 1;
      }
      assert ids[..k] == ids;
    }

    /** Lines 20-62: reuse the latest-used warm instance of the function,
        refreshing its time, or start a new one; either way the function's
        invocation count rises by one. */
    method GetInstance(name: string, now: real, newId: string) returns (instanceId: string, isColdStart: bool)
      modifies this
      ensures ttlSeconds == old(ttlSeconds)
      ensures invocationCount == old(invocationCount)[name := CountOf(old(invocationCount), name) + 1]
      ensures var warm := WarmOf(InstancesOf(old(instances), name), old(lastUsed), ttlSeconds, now);
              (isColdStart <==> warm == []) &&
              (!isColdStart ==>
                 instanceId == warm[MostRecentIndex(warm, old(lastUsed))] &&
                 instances == old(instances) && lastUsed == old(lastUsed)[instanceId := now]) &&
              (isColdStart ==>
                 instanceId == newId &&
                 instances == old(instances)[name := InstancesOf(old(instances), name) + [newId]] &&
                 lastUsed == old(lastUsed)[newId := now])
    {
      if name in instances {
        var warm := WarmInstances(name, now);
        if warm != [] {
          instanceId := warm[MostRecentIndex(warm, lastUsed)];
          lastUsed := lastUsed[instanceId := now];
          invocationCount := invocationCount[name := CountOf(invocationCount, name) + 1];
          return instanceId, false;
        }
      }
      instanceId := newId;
      if name !in instances {
        instances := instances[name := []];
      }
      instances := instances[name := instances[name] + [instanceId]];
      lastUsed := lastUsed[instanceId := now];
      invocationCount := invocationCount[name := CountOf(invocationCount, name) + 1];
      isColdStart := true;
    }

    /** Lines 75-77: drop the first occurrence of an instance from every
        function's list. */
    method RemoveInstance(id: string)
      modifies this
      ensures instances == map f | f in old(instances) :: RemoveFirst(old(instances)[f], id)
      ensures lastUsed == old(lastUsed) && ttlSeconds == old(ttlSeconds) && invocationCount == old(invocationCount)
    {
      var names := instances.Keys;
      ghost var before := instances;
      while names != {}
        decreases |names|
        invariant names <= before.Keys && instances.Keys == before.Keys
        invariant forall f :: f in instances ==>
                    instances[f] == if f in names then before[f] else RemoveFirst(before[f], id)
        invariant lastUsed == old(lastUsed) && ttlSeconds == old(ttlSeconds) && invocationCount == old(invocationCount)
      {
        var f :| f in names;
        if id in instances[f] {
          instances := instances[f := RemoveFirst(instances[f], id)];
        } else {
          RemoveFirstAbsent(before[f], id);
        }
        names := names - {f};
      }
      assert instances.Keys == before.Keys;
      assert forall f :: f in instances ==> instances[f] == RemoveFirst(before[f], id);
    }

    /** Lines 69-71: the ids whose last use is older than the
        time-to-live. */
    method ExpiredIds(now: real) returns (expired: set<string>)
      ensures expired == ExpiredSet(lastUsed, ttlSeconds, now)
    {
      expired := {};
      var rest := lastUsed.Keys;
      while rest != {}
        decreases |rest|
        invariant rest <= lastUsed.Keys
        invariant expired == set id | id in lastUsed.Keys - rest && Expired(lastUsed, ttlSeconds, now, id)
      {
        var id :| id in rest;
        if now - lastUsed[id] > ttlSeconds {
          expired := expired + {id};
        }
        rest := rest - {id};
      }
    }

    /** Lines 64-83: every instance older than the time-to-live leaves
        both maps; the lists keep the rest in order. */
    method RunCleanup(now: real)
      modifies this
      ensures ttlSeconds == old(ttlSeconds) && invocationCount == old(invocationCount)
      ensures lastUsed == Forget(old(lastUsed), ExpiredSet(old(lastUsed), ttlSeconds, now))
      ensures Removed(old(instances), instances, ExpiredSet(old(lastUsed), ttlSeconds, now))
    {
      var expired := ExpiredIds(now);
      ExpireAll(expired);
    }

    /** Lines 74-81: the loop over the expired ids. */
    method ExpireAll(expired: set<string>)
      modifies this
      ensures ttlSeconds == old(ttlSeconds) && invocationCount == old(invocationCount)
      ensures lastUsed == Forget(old(lastUsed), expired)
      ensures Removed(old(instances), instances, expired)
    {
      ghost var stamps := lastUsed;
      ghost var lists := instances;
      var todo := expired;
      ghost var done: set<string> := {};
      RemovedNothing(lists);
      while todo != {}
        decreases |todo|
        invariant todo + done == expired && todo !! done
        invariant ttlSeconds == old(ttlSeconds) && invocationCount == old(invocationCount)
        invariant lastUsed == Forget(stamps, done)
        invariant Removed(lists, instances, done)
      {
        var id :| id in todo;
        ExpireOne(id, lists, done);
        ForgetTwice(stamps, done, id);
        done := done + {id};
        todo := todo - {id};
      }
      assert done == expired;
    }

    /** Lines 73-81, for one expired id: out of every list and out of the
        last-use map. */
    method ExpireOne(id: string, ghost lists: map<string, seq<string>>, ghost done: set<string>)
      requires Removed(lists, instances, done) && id !in done
      modifies this
      ensures Removed(lists, instances, done + {id})
      ensures lastUsed == Forget(old(lastUsed), {id})
      ensures ttlSeconds == old(ttlSeconds) && invocationCount == old(invocationCount)
    {
      RemovedStep(lists, instances, done, id);
      RemoveInstance(id);
      if id in lastUsed {
        lastUsed := map k | k in lastUsed && k != id :: lastUsed[k];
      }
    }
  }

  /** The last-use map without the given ids. */
  function Forget(lastUsed: map<string, real>, gone: set<string>): (r: map<string, real>)
    ensures r.Keys == lastUsed.Keys - gone
    ensures forall id :: id in r ==> r[id] == lastUsed[id]
  {
    map id | id in lastUsed && id !in gone :: lastUsed[id]
  }

  lemma ForgetTwice(lastUsed: map<string, real>, gone: set<string>, id: string)
    ensures Forget(Forget(lastUsed, gone), {id}) == Forget(lastUsed, gone + {id})
  {
  }

  /** The ids the cleanup finds expired. */
  function ExpiredSet(lastUsed: map<string, real>, ttl: real, now: real): (r: set<string>)
    ensures forall id :: id in r <==> id in lastUsed && now - lastUsed[id] > ttl
  {
    set id | id in lastUsed && Expired(lastUsed, ttl, now, id)
  }

  /** The lists after removing the ids `gone`: same functions, each list
      loses one occurrence of each id, and a list without repeats keeps its
      other ids in order. */
  ghost predicate Removed(lists: map<string, seq<string>>, current: map<string, seq<string>>, gone: set<string>)
  {
    current.Keys == lists.Keys &&
    (forall f :: f in current ==> multiset(current[f]) == multiset(lists[f]) - multiset(gone)) &&
    (forall f :: f in current && NoRepeats(lists[f]) ==> current[f] == Drop(lists[f], gone))
  }

  lemma RemovedNothing(lists: map<string, seq<string>>)
    ensures Removed(lists, lists, {})
  {
    forall f | f in lists ensures Drop(lists[f], {}) == lists[f] {
      DropNone(lists[f]);
    }
  }

  /** Removing one more id from every list keeps `Removed`. */
  lemma RemovedStep(lists: map<string, seq<string>>, current: map<string, seq<string>>, gone: set<string>, id: string)
    requires Removed(lists, current, gone) && id !in gone
    ensures Removed(lists, map f | f in current :: RemoveFirst(current[f], id), gone + {id})
  {
    var after := map f | f in current :: RemoveFirst(current[f], id);
    forall f | f in after
      ensures multiset(after[f]) == multiset(lists[f]) - multiset(gone + {id})
    {
      RemoveFirstMultiset(current[f], id);
      MultisetStep(multiset(lists[f]), gone, id);
    }
    forall f | f in after && NoRepeats(lists[f])
      ensures after[f] == Drop(lists[f], gone + {id})
    {
      RemoveFirstDrop(lists[f], gone, id);
    }
  }

  lemma MultisetStep(m: multiset<string>, gone: set<string>, id: string)
    requires id !in gone
    ensures (m - multiset(gone)) - multiset{id} == m - multiset(gone + {id})
  {
    forall y ensures ((m - multiset(gone)) - multiset{id})[y] == (m - multiset(gone + {id}))[y] {
      if y == id {
        assert multiset(gone)[y] == 0 && multiset(gone + {id})[y] == 1;
      } else if y in gone {
        assert multiset(gone)[y] == 1 && multiset(gone + {id})[y] == 1;
      } else {
        assert multiset(gone)[y] == 0 && multiset(gone + {id})[y] == 0;
      }
    }
  }

  /** Removing an id that is not there changes nothing. */
  lemma {:induction false} RemoveFirstAbsent(s: seq<string>, x: string)
    requires x !in s
    ensures RemoveFirst(s, x) == s
  {
    if s != [] {
      assert s == [s[0]] + s[1..];
      RemoveFirstAbsent(s[1..], x);
    }
  }

  // File reads

  /** What a simulated read reports. */
  datatype ReadResult = ReadResult(diskReads: nat, latencyMs: real, fileSizeBytes: nat)

  /** The file cache and the layer files after a read, and how many disk
      reads it took: two on a cold start or a miss, one on a hit. */
  datatype CacheState = CacheState(fileCache: map<string, real>, layerFiles: set<string>)

  function ReadStep(s: CacheState, path: string, isColdStart: bool, isLayerFile: bool, now: real): (r: (CacheState, nat))
    ensures r.1 == 1 || r.1 == 2
    ensures r.1 == 2 <==> isColdStart || path !in s.fileCache
    ensures path in r.0.fileCache && r.0.fileCache.Keys == s.fileCache.Keys + {path}
    ensures s.layerFiles <= r.0.layerFiles <= s.layerFiles + {path}
  {
    if isColdStart || path !in s.fileCache then
      (CacheState(s.fileCache[path := now], if isLayerFile then s.layerFiles + {path} else s.layerFiles), 2)
    else
      (CacheState(s.fileCache[path := now], s.layerFiles), 1)
  }

  /** A warm read right after any read of the same path hits the cache. */
  lemma SecondReadHits(s: CacheState, path: string, isColdStart: bool, isLayerFile: bool, now: real, later: real)
    ensures ReadStep(ReadStep(s, path, isColdStart, isLayerFile, now).0, path, false, isLayerFile, later).1 == 1
  {
  }

  /** Lines 122-124: about 50 MB/s, once per disk read. */
  function ReadLatency(fileSize: nat, diskReads: nat): (ms: real)
    ensures ms >= 0.0
    ensures diskReads == 2 ==> ms == 2.0 * ReadLatency(fileSize, 1)
  {
    fileSize as real / (50.0 * 1024.0 * 1024.0) * 1000.0 * diskReads as real
  }

  /** Line 140: layer files keep their entry ten times as long. */
  function MaxAgeFor(layerFiles: set<string>, path: string, maxAge: real): real
  {
    if path in layerFiles then maxAge * 10.0 else maxAge
  }

  predicate Stale(s: CacheState, path: string, maxAge: real, now: real)
    requires path in s.fileCache
  {
    now - s.fileCache[path] > MaxAgeFor(s.layerFiles, path, maxAge)
  }

  /** The state after a cache cleanup. */
  function Cleaned(s: CacheState, maxAge: real, now: real): (r: CacheState)
    ensures r.fileCache.Keys <= s.fileCache.Keys
    ensures forall p :: p in r.fileCache ==> r.fileCache[p] == s.fileCache[p] && !Stale(s, p, maxAge, now)
    ensures forall p :: p in s.fileCache && !Stale(s, p, maxAge, now) ==> p in r.fileCache
    ensures r.layerFiles <= s.layerFiles
    ensures forall p :: p in s.layerFiles && p !in r.layerFiles ==> p in s.fileCache && Stale(s, p, maxAge, now)
  {
    var stale := StaleSet(s, maxAge, now);
    CacheState(map p | p in s.fileCache && p !in stale :: s.fileCache[p], s.layerFiles - stale)
  }

  /** The cached paths older than their maximum age. */
  function StaleSet(s: CacheState, maxAge: real, now: real): set<string>
  {
    set p | p in s.fileCache && Stale(s, p, maxAge, now)
  }

  /** A layer file outlives an ordinary file of the same age: when the
      ordinary one is kept, so is the layer file, and a layer file is kept
      up to ten times the maximum age. */
  lemma LayerFilesLiveLonger(s: CacheState, layer: string, plain: string, maxAge: real, now: real)
    requires maxAge >= 0.0
    requires layer in s.fileCache && layer in s.layerFiles
    requires plain in s.fileCache && plain !in s.layerFiles
    requires s.fileCache[layer] == s.fileCache[plain]
    ensures plain in Cleaned(s, maxAge, now).fileCache ==> layer in Cleaned(s, maxAge, now).fileCache
    ensures now - s.fileCache[layer] <= 10.0 * maxAge ==> layer in Cleaned(s, maxAge, now).fileCache
  {
  }

  class LambdaIOEmulator {
    /** path -> time of last access */
    var fileCache: map<string, real>
    var layerFiles: set<string>

    /** Lines 86-89. */
    constructor()
      ensures fileCache == map[] && layerFiles == {}
    {
      fileCache := map[];
      layerFiles := {};
    }

    function State(): CacheState
      reads this
    {
      CacheState(fileCache, layerFiles)
    }

    /** Lines 91-130: a read on a cold start or a miss costs two disk reads
        and caches the path; a hit costs one and refreshes its time. */
    method SimulateFileRead(path: string, isColdStart: bool, isLayerFile: bool, now: real, fileSize: nat)
      returns (r: ReadResult)
      modifies this
      ensures (State(), r.diskReads) == ReadStep(old(State()), path, isColdStart, isLayerFile, now)
      ensures r.latencyMs == ReadLatency(fileSize, r.diskReads) && r.fileSizeBytes == fileSize
    {
      var readCount := 1;
      if isColdStart || path !in fileCache {
        readCount := 2;
        fileCache := fileCache[path := now];
        if isLayerFile {
          layerFiles := layerFiles + {path};
        }
      } else {
        fileCache := fileCache[path := now];
      }
      var latencyPerReadMs := fileSize as real / (50.0 * 1024.0 * 1024.0) * 1000.0;
      r := ReadResult(readCount, latencyPerReadMs * readCount as real, fileSize);
    }

    /** Lines 132-150: entries older than their maximum age leave the cache,
        and removed layer files leave the layer set. */
    method CleanupCache(maxAgeSeconds: real, now: real)
      modifies this
      ensures State() == Cleaned(old(State()), maxAgeSeconds, now)
    {
      var toRemove := StalePaths(maxAgeSeconds, now);
      RemovePaths(toRemove);
    }

    /** Lines 136-143: the cached paths past their maximum age. */
    method StalePaths(maxAgeSeconds: real, now: real) returns (toRemove: set<string>)
      ensures toRemove == StaleSet(State(), maxAgeSeconds, now)
    {
      ghost var s := State();
      toRemove := {};
      var rest := fileCache.Keys;
      while rest != {}
        decreases |rest|
        invariant rest <= s.fileCache.Keys
        invariant toRemove == set p | p in s.fileCache.Keys - rest && Stale(s, p, maxAgeSeconds, now)
      {
        var path :| path in rest;
        var maxAge := if path in layerFiles then maxAgeSeconds * 10.0 else maxAgeSeconds;
        if now - fileCache[path] > maxAge {
          toRemove := toRemove + {path};
        }
        rest := rest - {path};
      }
      assert s.fileCache.Keys - rest == s.fileCache.Keys;
    }

    /** Lines 145-148: the paths leave the cache and the layer set. */
    method RemovePaths(toRemove: set<string>)
      modifies this
      ensures fileCache == map p | p in old(fileCache) && p !in toRemove :: old(fileCache)[p]
      ensures layerFiles == old(layerFiles) - toRemove
    {
      var todo := toRemove;
      while todo != {}
        decreases |todo|
        invariant todo <= toRemove
        invariant fileCache == map p | p in old(fileCache) && p !in toRemove - todo :: old(fileCache)[p]
        invariant layerFiles == old(layerFiles) - (toRemove - todo)
      {
        var path :| path in todo;
        fileCache := map p | p in fileCache && p != path :: fileCache[p];
        if path in layerFiles {
          layerFiles := layerFiles - {path};
        }
        todo := todo - {path};
      }
      assert toRemove - todo == toRemove;
    }
  }
}
