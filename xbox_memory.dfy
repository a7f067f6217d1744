/**
 XboxMemoryManager: the resource cache of the Xbox port. The source keeps its
 state in static members; here it is one MemoryManager object whose fields
 the methods update in place. The clock (GetMilliseconds) is the `now`
 parameter; logging is left out, except that the ids a cleanup frees and the
 bytes it frees (which the source logs) are returned.
 */
module XboxMemory {
  import opened MapSums
  import opened XboxMemorySpec

  /** Oldest first by the timestamps in `res`. */
  ghost predicate OldestFirst(s: seq<string>, res: map<string, ResourceInfo>)
  {
    && (forall i :: 0 <= i < |s| ==> s[i] in res)
    && (forall i, j :: 0 <= i < j < |s| ==> res[s[i]].lastAccessed <= res[s[j]].lastAccessed)
  }

  /** The sequence `s` with `id` inserted at position `k`. */
  function InsertAt(s: seq<string>, k: nat, id: string): (s': seq<string>)
    requires k <= |s|
    ensures |s'| == |s| + 1 && s'[k] == id
    ensures forall i :: 0 <= i < k ==> s'[i] == s[i]
    ensures forall i :: k < i < |s'| ==> s'[i] == s[i - 1]
    ensures forall x :: x in s' <==> x in s || x == id
  {
    assert s == s[..k] + s[k..];
    s[..k] + [id] + s[k..]
  }

  /**
   Inserting `id` after every element no newer than it, and before the rest,
   keeps a sequence oldest first and distinct.
   */
  lemma InsertKeepsOrder(s: seq<string>, k: nat, id: string, res: map<string, ResourceInfo>)
    requires OldestFirst(s, res) && Distinct(s) && id in res && id !in s
    requires k <= |s|
    requires forall i :: 0 <= i < k ==> res[s[i]].lastAccessed <= res[id].lastAccessed
    requires k < |s| ==> res[s[k]].lastAccessed > res[id].lastAccessed
    ensures OldestFirst(InsertAt(s, k, id), res) && Distinct(InsertAt(s, k, id))
  {
    var s' := InsertAt(s, k, id);
    forall i, j | 0 <= i < j < |s'| ensures res[s'[i]].lastAccessed <= res[s'[j]].lastAccessed {
      if j == k {
      } else if i == k {
        assert s'[j] == s[j - 1];
      } else if i < k && k < j {
        assert res[s[i]].lastAccessed <= res[id].lastAccessed;
      }
    }
    forall i, j | 0 <= i < j < |s'| ensures s'[i] != s'[j] {
      if i == k {
        assert s'[j] == s[j - 1];
      } else if j == k {
        assert s'[i] == s[i];
      }
    }
  }

  /**
   Orders `ids` oldest first by the timestamps in `res`. This stands in for
   the std::sort call of TriggerCleanup, which is not stable: the contract
   promises only what std::sort does, a sorted permutation, so callers may
   not rely on any order among equal timestamps.
   */
  method SortOldestFirst(ids: seq<string>, res: map<string, ResourceInfo>) returns (sorted: seq<string>)
    requires forall i :: 0 <= i < |ids| ==> ids[i] in res
    requires Distinct(ids)
    ensures |sorted| == |ids| && Distinct(sorted)
    ensures forall x :: x in sorted <==> x in ids
    ensures forall i :: 0 <= i < |sorted| ==> sorted[i] in res
    ensures forall i, j :: 0 <= i < j < |sorted| ==> res[sorted[i]].lastAccessed <= res[sorted[j]].lastAccessed
  {
    sorted := [];
    var n := 0;
    while n < |ids|
      invariant 0 <= n <= |ids|
      invariant |sorted| == n && Distinct(sorted) && OldestFirst(sorted, res)
      invariant forall x :: x in sorted <==> x in ids[..n]
    {
      var id := ids[n];
      assert id !in ids[..n];
      var k := 0;
      while k < |sorted| && res[sorted[k]].lastAccessed <= res[id].lastAccessed
        invariant 0 <= k <= |sorted|
        invariant forall i :: 0 <= i < k ==> res[sorted[i]].lastAccessed <= res[id].lastAccessed
      {
        k := k + 1;
      }
      InsertKeepsOrder(sorted, k, id, res);
      sorted := InsertAt(sorted, k, id);
      assert ids[..n + 1] == ids[..n] + [id];
      n := n + 1;
    }
    assert ids[..n] == ids;
  }

  class MemoryManager {
    var initialized: bool
    var resources: map<string, ResourceInfo>
    var cacheSizes: map<string, nat>
    var categoryUsage: map<string, nat>
    var lastCleanup: Tick

    /** The records and the counters together. */
    function Ledger(): Books
      reads this
    {
      Books(resources, categoryUsage)
    }

    /** The invariant every method keeps: no counter is below its live bytes. */
    ghost predicate Valid()
      reads this
    {
      Covered(Ledger())
    }

    /** Every counter equals its live bytes; kept unless an id is re-registered. */
    ghost predicate Balanced()
      reads this
    {
      Exact(Ledger())
    }

    /** The state of the statics before Initialize. */
    constructor ()
      ensures Valid() && Balanced()
      ensures !initialized && resources == map[] && cacheSizes == map[] && categoryUsage == map[]
      ensures lastCleanup == 0
    {
      initialized := false;
      resources := map[];
      cacheSizes := map[];
      categoryUsage := map[];
      lastCleanup := 0;
      forall t ensures Live(map[], t) == 0 {
        assert Contributions(map[], t) == map[];
      }
    }

    /** Installs the default category limits and starts the maintenance clock, once. */
    method Initialize(now: Tick)
      requires Valid()
      modifies this
      ensures Valid() && (old(Balanced()) ==> Balanced())
      ensures Ledger() == old(Ledger()) && initialized
      ensures old(initialized) ==> cacheSizes == old(cacheSizes) && lastCleanup == old(lastCleanup)
      ensures !old(initialized) ==> cacheSizes == WithDefaultCacheSizes(old(cacheSizes)) && lastCleanup == now
    {
      if initialized {
        return;
      }
      cacheSizes := cacheSizes["textures" := 16 * 1024 * 1024];
      cacheSizes := cacheSizes["sounds" := 8 * 1024 * 1024];
      cacheSizes := cacheSizes["animations" := 4 * 1024 * 1024];
      cacheSizes := cacheSizes["scripts" := 2 * 1024 * 1024];
      lastCleanup := now;
      initialized := true;
    }

    /** Runs an aggressive cleanup, then forgets every record and counter. */
    method Shutdown(now: Tick)
      requires Valid()
      modifies this
      ensures Valid() && (old(Balanced()) ==> Balanced())
      ensures cacheSizes == old(cacheSizes) && lastCleanup == old(lastCleanup) && !initialized
      ensures !old(initialized) ==> Ledger() == old(Ledger())
      ensures old(initialized) ==> resources == map[] && categoryUsage == map[] && Balanced()
    {
      if !initialized {
        return;
      }
      var evicted, freed := TriggerCleanup(true, now);
      resources := map[];
      categoryUsage := map[];
      forall t ensures Live(map[], t) == 0 {
        assert Contributions(map[], t) == map[];
      }
      initialized := false;
    }

    /**
     The periodic tick: once more than CLEANUP_INTERVAL ticks have passed
     since the last check, classify the pressure, sweep if memory is low, and
     restart the interval. `action` is the sweep it ran.
     */
    method Update(now: Tick) returns (action: Maintenance, evicted: seq<string>)
      requires Valid()
      modifies this
      ensures Valid() && (old(Balanced()) ==> Balanced())
      ensures initialized == old(initialized) && cacheSizes == old(cacheSizes)
      ensures !(old(initialized) && CleanupDue(now, old(lastCleanup))) ==>
        Ledger() == old(Ledger()) && lastCleanup == old(lastCleanup) && action == NoSweep && evicted == []
      ensures old(initialized) && CleanupDue(now, old(lastCleanup)) ==>
        && lastCleanup == now
        && action == UpdateAction(MemoryInfoFor(Total(old(categoryUsage))))
        && (action == NoSweep ==> Ledger() == old(Ledger()) && evicted == [])
        && (action != NoSweep ==> IsSweep(old(Ledger()), Ledger(), evicted, now, action == AggressiveSweep))
    {
      action, evicted := NoSweep, [];
      if !initialized {
        return;
      }
      var currentTime := now;
      if TickSub(currentTime, lastCleanup) > CLEANUP_INTERVAL {
        var info := GetMemoryInfo();
        if info.isLow {
          action := NormalSweep;
          var freed;
          evicted, freed := TriggerCleanup(false, currentTime);
        } else if info.isCritical {
          // The source runs TriggerCleanup(true) here; critical implies low,
          // so this branch is never taken (see UpdateNeverAggressive).
          assert false;
        }
        lastCleanup := currentTime;
      }
    }

    /** The pressure snapshot, computed from the sum of all category counters. */
    method GetMemoryInfo() returns (info: MemoryInfo)
      ensures info == MemoryInfoFor(Total(categoryUsage))
    {
      var simulatedUsed := GetSystemMemoryUsage();
      info := MemoryInfoFor(simulatedUsed);
    }

    /** Whether less than 15% of the budget is available. */
    method IsMemoryLow() returns (low: bool)
      ensures low <==> Total(categoryUsage) >= 57042535
    {
      var info := GetMemoryInfo();
      PressureThresholds(Total(categoryUsage));
      low := info.isLow;
    }

    /** Whether less than 5% of the budget is available; implies IsMemoryLow. */
    method IsMemoryCritical() returns (critical: bool)
      ensures critical <==> Total(categoryUsage) >= 63753421
    {
      var info := GetMemoryInfo();
      PressureThresholds(Total(categoryUsage));
      critical := info.isCritical;
    }

    /**
     Tracks a resource (only once initialized): the record is installed under
     `id`, overwriting any previous one, and its size is added to its
     category's counter. If the category has a limit and its counter now
     exceeds it, a normal cleanup runs over all categories; `evicted` are the
     ids it freed.
     */
    method RegisterResource(id: string, data: Pointer, size: nat, category: string, isStatic: bool, now: Tick)
      returns (evicted: seq<string>)
      requires Valid()
      modifies this
      ensures Valid()
      ensures initialized == old(initialized) && cacheSizes == old(cacheSizes) && lastCleanup == old(lastCleanup)
      ensures !old(initialized) ==> Ledger() == old(Ledger()) && evicted == []
      ensures old(initialized) ==>
        var installed := Registered(old(Ledger()), id, NewRecord(data, size, category, isStatic, now));
        if OverLimit(cacheSizes, installed.usage, category) then IsSweep(installed, Ledger(), evicted, now, false)
        else Ledger() == installed && evicted == []
      ensures old(Balanced()) && id !in old(resources) ==> Balanced()
    {
      evicted := [];
      if !initialized {
        return;
      }
      var info := NewRecord(data, size, category, isStatic, now);
      ghost var installed := Registered(Ledger(), id, info);
      RegisterAccounting(Ledger(), id, info);
      resources := resources[id := info];
      categoryUsage := categoryUsage[category := CountedIn(categoryUsage, category) + size];
      assert Ledger() == installed;
      if category in cacheSizes && categoryUsage[category] > cacheSizes[category] {
        var freed;
        evicted, freed := TriggerCleanup(false, now);
      }
    }

    /** Stops tracking `id`, if it is tracked, and takes its size off its category's counter. */
    method UnregisterResource(id: string)
      requires Valid()
      modifies this
      ensures Ledger() == Unregistered(old(Ledger()), id)
      ensures Valid() && (old(Balanced()) ==> Balanced())
      ensures initialized == old(initialized) && cacheSizes == old(cacheSizes) && lastCleanup == old(lastCleanup)
    {
      ghost var b0 := Ledger();
      UnregisterKeepsAccounting(b0, id);
      if id in resources {
        var r := resources[id];
        LiveRemove(resources, id, r.category);
        categoryUsage := categoryUsage[r.category := categoryUsage[r.category] - r.size];
        resources := resources - {id};
      }
      assert Ledger() == Unregistered(b0, id);
    }

    /** Marks `id` as used now, if it is tracked. */
    method TouchResource(id: string, now: Tick)
      requires Valid()
      modifies this
      ensures Ledger() == Touched(old(Ledger()), id, now)
      ensures Valid() && (old(Balanced()) ==> Balanced())
      ensures initialized == old(initialized) && cacheSizes == old(cacheSizes) && lastCleanup == old(lastCleanup)
    {
      ghost var b0 := Ledger();
      TouchKeepsAccounting(b0, id, now);
      if id in resources {
        var r := resources[id];
        resources := resources[id := r.(lastAccessed := now, accessCount := r.accessCount + 1)];
      }
      assert Ledger() == Touched(b0, id, now);
    }

    /**
     The sweep: collect the non-static records last accessed before
     `now - age` (10 s if aggressive, else 60 s, in wrapped ticks), order them
     oldest first, and unregister them one by one until the freed bytes reach
     a quarter (aggressive) or an eighth of the budget.
     */
    method TriggerCleanup(aggressive: bool, now: Tick) returns (evicted: seq<string>, freed: nat)
      requires Valid()
      modifies this
      ensures Valid() && (old(Balanced()) ==> Balanced())
      ensures initialized == old(initialized) && cacheSizes == old(cacheSizes) && lastCleanup == old(lastCleanup)
      ensures IsSweep(old(Ledger()), Ledger(), evicted, now, aggressive)
      ensures freed == Freed(old(resources), evicted)
    {
      var threshold := CleanupThreshold(now, aggressive);
      var unusedResources := GetUnusedResources(threshold);
      forall k | 0 <= k < |unusedResources| ensures unusedResources[k] in resources {
        assert unusedResources[k] in UnusedIds(resources, threshold);
      }
      var order := SortOldestFirst(unusedResources, resources);
      forall k | 0 <= k < |order| ensures order[k] in resources && !resources[order[k]].isStatic {
        assert order[k] in UnusedIds(resources, threshold);
      }
      var targetToFree := CleanupTarget(aggressive);
      ghost var b0 := Ledger();
      ghost var cut;
      evicted, freed, cut := EvictOldest(order, targetToFree);
      EvictedKeepsAccounting(b0, Ledger(), evicted);
      SweepOrderFacts(b0, order, evicted, threshold);
    }

    /**
     The eviction loop of TriggerCleanup: unregister the candidates in
     `order` one by one until the freed bytes reach `target`. The records
     are all candidates, so none is skipped; `cut` is how many were taken.
     */
    method EvictOldest(order: seq<string>, target: nat)
      returns (evicted: seq<string>, freed: nat, ghost cut: nat)
      requires Valid()
      requires Distinct(order) && target > 0
      requires forall k :: 0 <= k < |order| ==> order[k] in resources && !resources[order[k]].isStatic
      modifies this
      ensures initialized == old(initialized) && cacheSizes == old(cacheSizes) && lastCleanup == old(lastCleanup)
      ensures Evicted(old(Ledger()), Ledger(), evicted)
      ensures cut <= |order| && evicted == order[..cut]
      ensures freed == Freed(old(resources), evicted)
      ensures |evicted| > 0 ==> Freed(old(resources), evicted[..|evicted| - 1]) < target
      ensures freed >= target || evicted == order
    {
      ghost var b0 := Ledger();
      freed, evicted := 0, [];
      var i := 0;
      cut := 0;
      while i < |order|
        invariant 0 <= i <= |order| && evicted == order[..i] && cut == i
        invariant initialized == old(initialized) && cacheSizes == old(cacheSizes) && lastCleanup == old(lastCleanup)
        invariant Evicted(b0, Ledger(), evicted)
        invariant freed == Freed(b0.resources, evicted) < target
      {
        var id := order[i];
        EvictNextPresent(b0, Ledger(), order, i);
        if id in resources && !resources[id].isStatic {
          freed := freed + resources[id].size;
          EvictAt(b0, order, i);
          evicted := order[..i + 1];
          assert freed == Freed(b0.resources, evicted);
          if freed >= target {
            assert evicted[..|evicted| - 1] == order[..i];
            cut := i + 1;
            return;
          }
        }
        i := i + 1;
        cut := i;
      }
      assert order[..i] == order;
      if i > 0 {
        assert evicted[..i - 1] == order[..i - 1];
        assert Freed(b0.resources, evicted) == Freed(b0.resources, order[..i - 1]) + SizeIn(b0.resources, order[i - 1]);
      }
    }

    /** One turn of EvictOldest: unregisters `order[i]`, which the earlier turns left in place. */
    method EvictAt(ghost b0: Books, order: seq<string>, i: nat)
      requires Covered(b0) && i < |order| && Distinct(order) && order[i] in b0.resources
      requires Evicted(b0, Ledger(), order[..i])
      modifies this
      ensures initialized == old(initialized) && cacheSizes == old(cacheSizes) && lastCleanup == old(lastCleanup)
      ensures Evicted(b0, Ledger(), order[..i + 1])
      ensures Freed(b0.resources, order[..i + 1]) == Freed(b0.resources, order[..i]) + b0.resources[order[i]].size
    {
      EvictNext(b0, Ledger(), order, i);
      UnregisterResource(order[i]);
    }

    /** The ids GetUnusedResources returns, each once, in the map's (unspecified) order. */
    method GetUnusedResources(threshold: Tick) returns (unused: seq<string>)
      ensures Distinct(unused)
      ensures forall x :: x in unused <==> x in UnusedIds(resources, threshold)
    {
      unused := [];
      var rest := resources.Keys;
      while rest != {}
        invariant rest <= resources.Keys
        invariant Distinct(unused)
        invariant forall x :: x in unused <==> x in UnusedIds(resources, threshold) && x !in rest
        decreases rest
      {
        var id :| id in rest;
        if resources[id].lastAccessed < threshold && !resources[id].isStatic {
          unused := unused + [id];
        }
        rest := rest - {id};
      }
    }

    /** The sum of all category counters. */
    method GetSystemMemoryUsage() returns (total: nat)
      ensures total == Total(categoryUsage)
    {
      total := 0;
      var rest := categoryUsage;
      while |rest.Keys| != 0
        invariant total + Total(rest) == Total(categoryUsage)
        decreases |rest.Keys|
      {
        var k :| k in rest;
        TotalRemove(rest, k);
        total := total + rest[k];
        assert (rest - {k}).Keys == rest.Keys - {k};
        rest := rest - {k};
      }
    }

    /**
     One per-category sweep: removes every non-static record of `category`
     last accessed before `now - age`, taking its size off the counter.
     */
    method CleanupUnusedOfType(category: string, age: nat, now: Tick)
      requires Valid()
      modifies this
      ensures Valid() && (old(Balanced()) ==> Balanced())
      ensures initialized == old(initialized) && cacheSizes == old(cacheSizes) && lastCleanup == old(lastCleanup)
      ensures resources == SweptCategory(old(resources), category, TickSub(now, age))
      ensures categoryUsage.Keys == old(categoryUsage).Keys
      ensures forall t :: t != category ==> CountedIn(categoryUsage, t) == CountedIn(old(categoryUsage), t)
      ensures forall t :: CountedIn(categoryUsage, t) + Live(old(resources), t)
                       == CountedIn(old(categoryUsage), t) + Live(resources, t)
    {
      var threshold := TickSub(now, age);
      ghost var b0 := Ledger();
      ghost var gone: seq<string> := [];
      var keys := resources.Keys;
      while keys != {}
        invariant initialized == old(initialized) && cacheSizes == old(cacheSizes) && lastCleanup == old(lastCleanup)
        invariant keys <= b0.resources.Keys
        invariant Evicted(b0, Ledger(), gone)
        invariant SweptSoFar(b0.resources, gone, keys, category, threshold)
        decreases keys
      {
        var k :| k in keys;
        ghost var b1 := Ledger();
        CategoryStep(b0, b1, gone, keys, k, category, threshold);
        keys := keys - {k};
        var r := resources[k];
        if r.category == category && r.lastAccessed < threshold && !r.isStatic {
          // The source erases the record and subtracts its size inline,
          // which is exactly what UnregisterResource does.
          UnregisterResource(k);
          gone := gone + [k];
        }
      }
      CategorySweepDone(b0, Ledger(), gone, category, threshold);
    }

    /** The texture sweep (30 s); it matches the singular name "texture". */
    method CleanupUnusedTextures(now: Tick)
      requires Valid()
      modifies this
      ensures Valid() && (old(Balanced()) ==> Balanced())
      ensures initialized == old(initialized) && cacheSizes == old(cacheSizes) && lastCleanup == old(lastCleanup)
      ensures resources == SweptCategory(old(resources), "texture", TickSub(now, TEXTURE_AGE))
      ensures categoryUsage.Keys == old(categoryUsage).Keys
      ensures forall t :: t != "texture" ==> CountedIn(categoryUsage, t) == CountedIn(old(categoryUsage), t)
      ensures forall t :: CountedIn(categoryUsage, t) + Live(old(resources), t)
                       == CountedIn(old(categoryUsage), t) + Live(resources, t)
    {
      CleanupUnusedOfType("texture", TEXTURE_AGE, now);
    }

    /** The sound sweep (15 s); it matches the singular name "sound". */
    method CleanupUnusedSounds(now: Tick)
      requires Valid()
      modifies this
      ensures Valid() && (old(Balanced()) ==> Balanced())
      ensures initialized == old(initialized) && cacheSizes == old(cacheSizes) && lastCleanup == old(lastCleanup)
      ensures resources == SweptCategory(old(resources), "sound", TickSub(now, SOUND_AGE))
      ensures categoryUsage.Keys == old(categoryUsage).Keys
      ensures forall t :: t != "sound" ==> CountedIn(categoryUsage, t) == CountedIn(old(categoryUsage), t)
      ensures forall t :: CountedIn(categoryUsage, t) + Live(old(resources), t)
                       == CountedIn(old(categoryUsage), t) + Live(resources, t)
    {
      CleanupUnusedOfType("sound", SOUND_AGE, now);
    }

    /** The animation sweep (45 s); it matches the singular name "animation". */
    method CleanupUnusedAnimations(now: Tick)
      requires Valid()
      modifies this
      ensures Valid() && (old(Balanced()) ==> Balanced())
      ensures initialized == old(initialized) && cacheSizes == old(cacheSizes) && lastCleanup == old(lastCleanup)
      ensures resources == SweptCategory(old(resources), "animation", TickSub(now, ANIMATION_AGE))
      ensures categoryUsage.Keys == old(categoryUsage).Keys
      ensures forall t :: t != "animation" ==> CountedIn(categoryUsage, t) == CountedIn(old(categoryUsage), t)
      ensures forall t :: CountedIn(categoryUsage, t) + Live(old(resources), t)
                       == CountedIn(old(categoryUsage), t) + Live(resources, t)
    {
      CleanupUnusedOfType("animation", ANIMATION_AGE, now);
    }

    /** Sets (or overwrites) the limit of one category; nothing is evicted until the next check. */
    method SetCacheSize(category: string, maxSize: nat)
      modifies this`cacheSizes
      ensures cacheSizes == old(cacheSizes)[category := maxSize]
    {
      cacheSizes := cacheSizes[category := maxSize];
    }

    /** Tightens the texture and sound limits, then runs a normal cleanup. */
    method OptimizeForFrameRate(now: Tick) returns (evicted: seq<string>)
      requires Valid()
      modifies this
      ensures Valid() && (old(Balanced()) ==> Balanced())
      ensures cacheSizes == old(cacheSizes)["textures" := 12 * 1024 * 1024]["sounds" := 6 * 1024 * 1024]
      ensures initialized == old(initialized) && lastCleanup == old(lastCleanup)
      ensures IsSweep(old(Ledger()), Ledger(), evicted, now, false)
    {
      SetCacheSize("textures", 12 * 1024 * 1024);
      SetCacheSize("sounds", 6 * 1024 * 1024);
      var freed;
      evicted, freed := TriggerCleanup(false, now);
    }

    /** Tightens the texture, sound and animation limits, then runs an aggressive cleanup. */
    method ReduceMemoryFootprint(now: Tick) returns (evicted: seq<string>)
      requires Valid()
      modifies this
      ensures Valid() && (old(Balanced()) ==> Balanced())
      ensures cacheSizes == old(cacheSizes)["textures" := 8 * 1024 * 1024]["sounds" := 4 * 1024 * 1024]
                                          ["animations" := 2 * 1024 * 1024]
      ensures initialized == old(initialized) && lastCleanup == old(lastCleanup)
      ensures IsSweep(old(Ledger()), Ledger(), evicted, now, true)
    {
      SetCacheSize("textures", 8 * 1024 * 1024);
      SetCacheSize("sounds", 4 * 1024 * 1024);
      SetCacheSize("animations", 2 * 1024 * 1024);
      var freed;
      evicted, freed := TriggerCleanup(true, now);
    }
  }

  /**
   The ordering half of a sweep: `evicted` is a prefix of the sorted candidate
   list `order`, so it is distinct, sorted, and no candidate left behind is
   older than one taken.
   */
  lemma SweepOrderFacts(b0: Books, order: seq<string>, evicted: seq<string>, threshold: Tick)
    requires Distinct(order)
    requires forall x :: x in order <==> x in UnusedIds(b0.resources, threshold)
    requires forall i, j :: 0 <= i < j < |order| ==>
      order[i] in b0.resources && order[j] in b0.resources &&
      b0.resources[order[i]].lastAccessed <= b0.resources[order[j]].lastAccessed
    requires exists n :: 0 <= n <= |order| && evicted == order[..n]
    ensures Distinct(evicted)
    ensures forall i :: 0 <= i < |evicted| ==> evicted[i] in UnusedIds(b0.resources, threshold)
    ensures forall i, j :: 0 <= i < j < |evicted| ==>
      b0.resources[evicted[i]].lastAccessed <= b0.resources[evicted[j]].lastAccessed
    ensures forall c :: c in UnusedIds(b0.resources, threshold) && c !in evicted ==>
      forall i :: 0 <= i < |evicted| ==> b0.resources[evicted[i]].lastAccessed <= b0.resources[c].lastAccessed
  {
    var n :| 0 <= n <= |order| && evicted == order[..n];
    forall i | 0 <= i < |evicted| ensures evicted[i] in UnusedIds(b0.resources, threshold) {
      assert evicted[i] == order[i];
    }
    forall c | c in UnusedIds(b0.resources, threshold) && c !in evicted
      ensures forall i :: 0 <= i < |evicted| ==> b0.resources[evicted[i]].lastAccessed <= b0.resources[c].lastAccessed
    {
      var j :| 0 <= j < |order| && order[j] == c;
      forall i | 0 <= i < |evicted|
        ensures b0.resources[evicted[i]].lastAccessed <= b0.resources[c].lastAccessed
      {
        assert evicted[i] == order[i];
      }
    }
  }
}
