/**
 The bookkeeping of the Xbox resource cache (XboxMemoryManager) as values:
 the tracked records, the per-category byte counters, what Register,
 Unregister and Touch do to them, what a cleanup sweep is allowed to do, and
 how memory pressure is classified. The class in xbox_memory.dfy changes its
 fields exactly as these functions say.
 */
module XboxMemorySpec {
  import opened MapSums

  /** The memory budget of the console: 64 MiB. */
  const TOTAL_MEMORY: nat := 64 * 1024 * 1024

  /** Timestamps are unsigned machine words; subtraction wraps modulo 2^64. */
  const TICK_MOD: int := 0x1_0000_0000_0000_0000
  type Tick = t: int | 0 <= t < TICK_MOD

  /** Milliseconds between two maintenance checks in Update. */
  const CLEANUP_INTERVAL: nat := 30000
  /** Age (ms) a record must exceed to be swept by a normal / an aggressive cleanup. */
  const NORMAL_AGE: nat := 60000
  const AGGRESSIVE_AGE: nat := 10000
  /** Ages used by the per-category sweeps. */
  const TEXTURE_AGE: nat := 30000
  const SOUND_AGE: nat := 15000
  const ANIMATION_AGE: nat := 45000

  /** The opaque data pointer stored with a record. */
  datatype Pointer = Null | Address(value: nat)

  /** One tracked resource; `category` is the source's `type` string. */
  datatype ResourceInfo = ResourceInfo(
    data: Pointer,
    size: nat,
    category: string,
    lastAccessed: Tick,
    accessCount: nat,
    isStatic: bool)

  /** The pressure snapshot returned by GetMemoryInfo (without the float usage percentage). */
  datatype MemoryInfo = MemoryInfo(
    totalMemory: nat,
    availableMemory: nat,
    usedMemory: nat,
    isLow: bool,
    isCritical: bool)

  /** The two maps the accounting is about: the records and the per-category counters. */
  datatype Books = Books(resources: map<string, ResourceInfo>, usage: map<string, nat>)

  /** What periodic maintenance decides to do. */
  datatype Maintenance = NoSweep | NormalSweep | AggressiveSweep

  // ---------------------------------------------------------------------------
  // Clock arithmetic

  /** `a - b` on the unsigned tick type. */
  function TickSub(a: Tick, b: nat): (r: Tick)
    ensures b <= a ==> r == a - b
    ensures a < b <= TICK_MOD ==> r == TICK_MOD - (b - a)
  {
    (a - b) % TICK_MOD
  }

  /** The timestamp below which TriggerCleanup considers a record unused. */
  function CleanupThreshold(now: Tick, aggressive: bool): (threshold: Tick)
    ensures var age := if aggressive then AGGRESSIVE_AGE else NORMAL_AGE;
      && (age <= now ==> threshold + age == now)
      && (now < age ==> now < threshold)
  {
    TickSub(now, if aggressive then AGGRESSIVE_AGE else NORMAL_AGE)
  }

  /** The number of bytes after which TriggerCleanup stops. */
  function CleanupTarget(aggressive: bool): nat
  {
    if aggressive then TOTAL_MEMORY / 4 else TOTAL_MEMORY / 8
  }

  /** Update runs its check only when more than the interval has elapsed (in wrapped ticks). */
  function CleanupDue(now: Tick, lastCleanup: Tick): (due: bool)
    ensures lastCleanup <= now ==> (due <==> now - lastCleanup > CLEANUP_INTERVAL)
    ensures now < lastCleanup ==> (due <==> lastCleanup - now < TICK_MOD - CLEANUP_INTERVAL)
  {
    TickSub(now, lastCleanup) > CLEANUP_INTERVAL
  }

  // ---------------------------------------------------------------------------
  // Records and counters

  /** The record RegisterResource installs. */
  function NewRecord(data: Pointer, size: nat, category: string, isStatic: bool, now: Tick): ResourceInfo
  {
    ResourceInfo(data, size, category, now, 1, isStatic)
  }

  /** The counter of a category; a category never seen reads as zero, as with the source's operator[]. */
  function CountedIn(usage: map<string, nat>, t: string): nat
  {
    if t in usage then usage[t] else 0
  }

  /** The candidates of GetUnusedResources: non-static and accessed strictly before the threshold. */
  predicate IsUnused(r: ResourceInfo, threshold: Tick)
  {
    r.lastAccessed < threshold && !r.isStatic
  }

  function UnusedIds(res: map<string, ResourceInfo>, threshold: Tick): set<string>
  {
    set k | k in res && IsUnused(res[k], threshold)
  }

  /** What each record contributes to the byte count of category `t`. */
  function Contributions(res: map<string, ResourceInfo>, t: string): map<string, nat>
  {
    map k | k in res :: if res[k].category == t then res[k].size else 0
  }

  /** The bytes of the live records of category `t`: the reference value for its counter. */
  ghost function Live(res: map<string, ResourceInfo>, t: string): nat
  {
    Total(Contributions(res, t))
  }

  function Contribution(r: ResourceInfo, t: string): nat
  {
    if r.category == t then r.size else 0
  }

  lemma LiveRemove(res: map<string, ResourceInfo>, k: string, t: string)
    requires k in res
    ensures Live(res, t) == Live(res - {k}, t) + Contribution(res[k], t)
  {
    TotalRemove(Contributions(res, t), k);
    assert Contributions(res, t) - {k} == Contributions(res - {k}, t);
  }

  lemma LiveReplace(res: map<string, ResourceInfo>, k: string, r: ResourceInfo, t: string)
    ensures Live(res[k := r], t) + (if k in res then Contribution(res[k], t) else 0)
         == Live(res, t) + Contribution(r, t)
  {
    LiveRemove(res[k := r], k, t);
    if k in res {
      LiveRemove(res, k, t);
      assert res[k := r] - {k} == res - {k};
    } else {
      assert res[k := r] - {k} == res;
    }
  }

  /**
   The accounting invariant every operation keeps: each live record's category
   has a counter, and no counter is below the bytes of its live records. It is
   what makes every counter subtraction in the source non-wrapping.
   */
  ghost predicate Covered(b: Books)
  {
    && (forall id :: id in b.resources ==> b.resources[id].category in b.usage)
    && (forall t :: Live(b.resources, t) <= CountedIn(b.usage, t))
  }

  /** The intended invariant: every counter equals the bytes of its live records. */
  ghost predicate Exact(b: Books)
  {
    && Covered(b)
    && (forall t :: Live(b.resources, t) == CountedIn(b.usage, t))
  }

  /** RegisterResource's cleanup test: the category has a limit and its counter is above it. */
  predicate OverLimit(limits: map<string, nat>, usage: map<string, nat>, t: string)
  {
    t in limits && CountedIn(usage, t) > limits[t]
  }

  /** RegisterResource's bookkeeping: install the record (overwriting), add its size. */
  function Registered(b: Books, id: string, r: ResourceInfo): (after: Books)
    ensures id in after.resources && after.resources[id] == r
    ensures forall k :: k != id ==> (k in after.resources <==> k in b.resources)
    ensures forall k :: k != id && k in b.resources ==> after.resources[k] == b.resources[k]
    ensures CountedIn(after.usage, r.category) == CountedIn(b.usage, r.category) + r.size
    ensures forall t :: t != r.category ==> CountedIn(after.usage, t) == CountedIn(b.usage, t)
  {
    Books(b.resources[id := r], b.usage[r.category := CountedIn(b.usage, r.category) + r.size])
  }

  /** UnregisterResource's bookkeeping: drop the record and subtract its size. */
  function Unregistered(b: Books, id: string): (after: Books)
    requires Covered(b)
    ensures id !in after.resources
    ensures forall k :: k != id ==> (k in after.resources <==> k in b.resources)
    ensures forall k :: k in after.resources ==> after.resources[k] == b.resources[k]
    ensures after.usage.Keys == b.usage.Keys
    ensures id in b.resources ==>
      CountedIn(after.usage, b.resources[id].category) + b.resources[id].size
      == CountedIn(b.usage, b.resources[id].category)
    ensures forall t :: id !in b.resources || t != b.resources[id].category ==>
      CountedIn(after.usage, t) == CountedIn(b.usage, t)
  {
    if id in b.resources then
      var r := b.resources[id];
      LiveRemove(b.resources, id, r.category);
      Books(b.resources - {id}, b.usage[r.category := b.usage[r.category] - r.size])
    else b
  }

  /** TouchResource's bookkeeping: refresh the timestamp, count the access. */
  function Touched(b: Books, id: string, now: Tick): (after: Books)
    ensures after.usage == b.usage && after.resources.Keys == b.resources.Keys
    ensures forall k :: k in b.resources && k != id ==> after.resources[k] == b.resources[k]
    ensures id in b.resources ==>
      after.resources[id] == b.resources[id].(lastAccessed := now, accessCount := b.resources[id].accessCount + 1)
  {
    if id in b.resources then
      var r := b.resources[id];
      Books(b.resources[id := r.(lastAccessed := now, accessCount := r.accessCount + 1)], b.usage)
    else b
  }

  /** Registering keeps the invariant, whether or not the id was already present. */
  lemma RegisterKeepsCovered(b: Books, id: string, r: ResourceInfo)
    requires Covered(b)
    ensures Covered(Registered(b, id, r))
  {
    var b' := Registered(b, id, r);
    forall t ensures Live(b'.resources, t) <= CountedIn(b'.usage, t) {
      LiveReplace(b.resources, id, r, t);
    }
  }

  /** Registering a fresh id keeps every counter exact. */
  lemma RegisterFreshKeepsExact(b: Books, id: string, r: ResourceInfo)
    requires Exact(b) && id !in b.resources
    ensures Exact(Registered(b, id, r))
  {
    RegisterKeepsCovered(b, id, r);
    var b' := Registered(b, id, r);
    forall t ensures Live(b'.resources, t) == CountedIn(b'.usage, t) {
      LiveReplace(b.resources, id, r, t);
    }
  }

  /** RegisterResource's accounting: the invariant always survives, exactness survives a fresh id. */
  lemma RegisterAccounting(b: Books, id: string, r: ResourceInfo)
    requires Covered(b)
    ensures Covered(Registered(b, id, r))
    ensures Exact(b) && id !in b.resources ==> Exact(Registered(b, id, r))
  {
    RegisterKeepsCovered(b, id, r);
    if Exact(b) && id !in b.resources {
      RegisterFreshKeepsExact(b, id, r);
    }
  }

  /**
   Re-registering a present id never subtracts the old record's size, so the
   old record's category ends up counting its bytes twice.
   */
  lemma ReRegisterOvercounts(b: Books, id: string, r: ResourceInfo)
    requires Exact(b) && id in b.resources
    ensures var old_ := b.resources[id]; var b' := Registered(b, id, r);
      CountedIn(b'.usage, old_.category) == Live(b'.resources, old_.category) + old_.size
  {
    var old_ := b.resources[id];
    LiveReplace(b.resources, id, r, old_.category);
  }

  /** Hence a re-registration of a non-empty record breaks the exact invariant. */
  lemma ReRegisterBreaksExact(b: Books, id: string, r: ResourceInfo)
    requires Exact(b) && id in b.resources && b.resources[id].size > 0
    ensures !Exact(Registered(b, id, r))
  {
    ReRegisterOvercounts(b, id, r);
  }

  /** Unregistering keeps the invariant, and keeps every counter exact if it was. */
  lemma UnregisterKeepsAccounting(b: Books, id: string)
    requires Covered(b)
    ensures Covered(Unregistered(b, id))
    ensures Exact(b) ==> Exact(Unregistered(b, id))
    ensures Unregistered(b, id).usage.Keys == b.usage.Keys
  {
    if id in b.resources {
      var b' := Unregistered(b, id);
      var r := b.resources[id];
      forall t
        ensures Live(b'.resources, t) + Contribution(r, t) == Live(b.resources, t)
        ensures CountedIn(b'.usage, t) + Contribution(r, t) == CountedIn(b.usage, t)
      {
        LiveRemove(b.resources, id, t);
      }
    }
  }

  /** Unregistering twice leaves the same books as unregistering once. */
  lemma UnregisterIdempotent(b: Books, id: string)
    requires Covered(b)
    ensures Covered(Unregistered(b, id))
    ensures Unregistered(Unregistered(b, id), id) == Unregistered(b, id)
  {
    UnregisterKeepsAccounting(b, id);
  }

  /** Touching changes no size, category, static flag or counter, and never moves a timestamp past `now`. */
  lemma TouchKeepsAccounting(b: Books, id: string, now: Tick)
    requires Covered(b)
    ensures var b' := Touched(b, id, now);
      && b'.usage == b.usage
      && b'.resources.Keys == b.resources.Keys
      && (forall k :: k in b.resources ==>
            && b'.resources[k].size == b.resources[k].size
            && b'.resources[k].category == b.resources[k].category
            && b'.resources[k].isStatic == b.resources[k].isStatic)
      && (id in b.resources ==>
            b'.resources[id].lastAccessed == now && b'.resources[id].accessCount == b.resources[id].accessCount + 1)
      && Covered(b')
      && (Exact(b) ==> Exact(b'))
  {
    if id in b.resources {
      var b' := Touched(b, id, now);
      var r := b.resources[id];
      forall t ensures Live(b'.resources, t) == Live(b.resources, t) {
        LiveReplace(b.resources, id, b'.resources[id], t);
      }
    }
  }

  // ---------------------------------------------------------------------------
  // Sweeps

  predicate Distinct(s: seq<string>)
  {
    forall i, j :: 0 <= i < j < |s| ==> s[i] != s[j]
  }

  function SizeIn(res: map<string, ResourceInfo>, id: string): nat
  {
    if id in res then res[id].size else 0
  }

  /** The bytes freed by evicting `ids` in order from `res`. */
  function Freed(res: map<string, ResourceInfo>, ids: seq<string>): nat
  {
    if ids == [] then 0 else Freed(res, ids[..|ids| - 1]) + SizeIn(res, ids[|ids| - 1])
  }

  /** The part of Freed that belongs to category `t`. */
  function FreedOf(res: map<string, ResourceInfo>, ids: seq<string>, t: string): nat
  {
    if ids == [] then 0
    else FreedOf(res, ids[..|ids| - 1], t)
         + (if ids[|ids| - 1] in res then Contribution(res[ids[|ids| - 1]], t) else 0)
  }

  /** `res` without the records named in `ids`. */
  function Without(res: map<string, ResourceInfo>, ids: seq<string>): map<string, ResourceInfo>
  {
    map k | k in res && k !in ids :: res[k]
  }

  /**
   What one TriggerCleanup does to the books `b0`, evicting `evicted` in that
   order: only unused records (non-static, older than the threshold), oldest
   first, none left behind that is older than one taken, stopping right after
   the target is reached or when the candidates run out; the counters lose
   exactly the evicted bytes.
   */
  ghost predicate IsSweep(b0: Books, b1: Books, evicted: seq<string>, now: Tick, aggressive: bool)
    ensures IsSweep(b0, b1, evicted, now, aggressive) ==>
      && (forall k :: k in b1.resources ==> k in b0.resources && b1.resources[k] == b0.resources[k])
      && (forall k :: k in b0.resources && k !in b1.resources ==> k in evicted)
      && b1.usage.Keys == b0.usage.Keys
  {
    var threshold := CleanupThreshold(now, aggressive);
    var target := CleanupTarget(aggressive);
    var unused := UnusedIds(b0.resources, threshold);
    && Distinct(evicted)
    && (forall i :: 0 <= i < |evicted| ==> evicted[i] in unused)
    && (forall i, j :: 0 <= i < j < |evicted| ==>
          b0.resources[evicted[i]].lastAccessed <= b0.resources[evicted[j]].lastAccessed)
    && (forall i, c :: 0 <= i < |evicted| && c in unused && c !in evicted ==>
          b0.resources[evicted[i]].lastAccessed <= b0.resources[c].lastAccessed)
    && (|evicted| > 0 ==> Freed(b0.resources, evicted[..|evicted| - 1]) < target)
    && (Freed(b0.resources, evicted) >= target || forall c :: c in unused ==> c in evicted)
    && Evicted(b0, b1, evicted)
  }

  /**
   The bookkeeping half of a sweep: `b1` is `b0` after unregistering the
   distinct ids `evicted`, so their records are gone and each counter has
   lost exactly their bytes.
   */
  ghost predicate Evicted(b0: Books, b1: Books, evicted: seq<string>)
  {
    && Distinct(evicted)
    && b1.resources == Without(b0.resources, evicted)
    && b1.usage.Keys == b0.usage.Keys
    && (forall t :: CountedIn(b1.usage, t) + FreedOf(b0.resources, evicted, t) == CountedIn(b0.usage, t))
  }

  /**
   Evicting records keeps the accounting invariant and each counter's
   distance to its live bytes, so exact counters stay exact.
   */
  lemma EvictedKeepsAccounting(b0: Books, b1: Books, evicted: seq<string>)
    requires Covered(b0) && Evicted(b0, b1, evicted)
    ensures Covered(b1)
    ensures Exact(b0) ==> Exact(b1)
    ensures forall t :: CountedIn(b1.usage, t) + Live(b0.resources, t) == CountedIn(b0.usage, t) + Live(b1.resources, t)
  {
    forall t ensures CountedIn(b1.usage, t) + Live(b0.resources, t) == CountedIn(b0.usage, t) + Live(b1.resources, t) {
      LiveWithout(b0.resources, evicted, t);
    }
  }

  /**
   One step of TriggerCleanup's loop: having evicted the first `i` ids of the
   distinct candidate list `order`, the next one is still tracked, unchanged,
   and unregistering it evicts the first `i + 1`.
   */
  /** The next id in `order` is still present and unchanged after the ones before it went. */
  lemma EvictNextPresent(b0: Books, b1: Books, order: seq<string>, i: nat)
    requires i < |order| && Distinct(order) && order[i] in b0.resources
    requires Evicted(b0, b1, order[..i])
    ensures order[i] in b1.resources && b1.resources[order[i]] == b0.resources[order[i]]
  {
    assert order[i] !in order[..i];
  }

  lemma EvictNext(b0: Books, b1: Books, order: seq<string>, i: nat)
    requires Covered(b0) && i < |order| && Distinct(order) && order[i] in b0.resources
    requires Evicted(b0, b1, order[..i])
    ensures order[i] in b1.resources && b1.resources[order[i]] == b0.resources[order[i]]
    ensures Covered(b1)
    ensures Evicted(b0, Unregistered(b1, order[i]), order[..i] + [order[i]])
    ensures order[..i] + [order[i]] == order[..i + 1]
    ensures Freed(b0.resources, order[..i + 1]) == Freed(b0.resources, order[..i]) + b0.resources[order[i]].size
  {
    assert order[i] !in order[..i];
    EvictedKeepsAccounting(b0, b1, order[..i]);
    EvictOne(b0, b1, order[..i], order[i]);
  }

  /** Unregistering one more record of `b0` extends the eviction by that id. */
  lemma EvictOne(b0: Books, b1: Books, evicted: seq<string>, id: string)
    requires Evicted(b0, b1, evicted) && Covered(b1)
    requires id in b0.resources && id !in evicted
    ensures Evicted(b0, Unregistered(b1, id), evicted + [id])
    ensures Freed(b0.resources, evicted + [id]) == Freed(b0.resources, evicted) + b0.resources[id].size
  {
    var ev := evicted + [id];
    assert ev[..|ev| - 1] == evicted;
    WithoutStep(b0.resources, evicted, id);
    var b2 := Unregistered(b1, id);
    var r := b0.resources[id];
    forall t ensures CountedIn(b2.usage, t) + FreedOf(b0.resources, ev, t) == CountedIn(b0.usage, t) {
      assert FreedOf(b0.resources, ev, t) == FreedOf(b0.resources, evicted, t) + Contribution(r, t);
    }
  }

  /** A sweep never removes or alters a static record. */
  lemma SweepKeepsStatic(b0: Books, b1: Books, evicted: seq<string>, now: Tick, aggressive: bool, id: string)
    requires IsSweep(b0, b1, evicted, now, aggressive)
    requires id in b0.resources && b0.resources[id].isStatic
    ensures id in b1.resources && b1.resources[id] == b0.resources[id]
  {
  }

  /**
   Once the clock is past the sweep's age, a sweep never removes a record
   accessed within that age: every removed record is strictly older.
   */
  lemma SweepSparesRecent(b0: Books, b1: Books, evicted: seq<string>, now: Tick, aggressive: bool, id: string)
    requires IsSweep(b0, b1, evicted, now, aggressive)
    requires now >= (if aggressive then AGGRESSIVE_AGE else NORMAL_AGE)
    requires id in b0.resources && id !in b1.resources
    ensures b0.resources[id].lastAccessed < now - (if aggressive then AGGRESSIVE_AGE else NORMAL_AGE)
    ensures !b0.resources[id].isStatic
  {
    assert id in evicted;
    var i :| 0 <= i < |evicted| && evicted[i] == id;
  }

  /**
   Before the clock reaches the sweep's age, `now - age` wraps to a huge
   threshold and every non-static record is a candidate, however recent.
   */
  lemma EarlySweepTakesEverything(r: ResourceInfo, now: Tick, aggressive: bool)
    requires now < (if aggressive then AGGRESSIVE_AGE else NORMAL_AGE)
    requires r.lastAccessed <= now && !r.isStatic
    ensures IsUnused(r, CleanupThreshold(now, aggressive))
  {
  }

  /** Freed bytes only grow along the eviction order. */
  lemma {:induction false} FreedMonotone(res: map<string, ResourceInfo>, ids: seq<string>, i: nat)
    requires i <= |ids|
    ensures Freed(res, ids[..i]) <= Freed(res, ids)
    decreases |ids|
  {
    if i < |ids| {
      assert ids[..|ids| - 1][..i] == ids[..i];
      FreedMonotone(res, ids[..|ids| - 1], i);
    } else {
      assert ids[..i] == ids;
    }
  }

  /** The sweep stops right after reaching its target: every shorter prefix freed less. */
  lemma SweepStopsAtTarget(b0: Books, b1: Books, evicted: seq<string>, now: Tick, aggressive: bool, i: nat)
    requires IsSweep(b0, b1, evicted, now, aggressive)
    requires i < |evicted|
    ensures Freed(b0.resources, evicted[..i]) < CleanupTarget(aggressive)
  {
    var last := evicted[..|evicted| - 1];
    assert last[..i] == evicted[..i];
    FreedMonotone(b0.resources, last, i);
  }

  /** The live bytes of a category drop by exactly the evicted bytes of that category. */
  lemma {:induction false} LiveWithout(res: map<string, ResourceInfo>, ids: seq<string>, t: string)
    requires Distinct(ids)
    ensures Live(res, t) == Live(Without(res, ids), t) + FreedOf(res, ids, t)
    decreases |ids|
  {
    if ids == [] {
      assert Without(res, ids) == res;
    } else {
      var front, last := ids[..|ids| - 1], ids[|ids| - 1];
      assert ids == front + [last];
      assert Distinct(front);
      LiveWithout(res, front, t);
      var w := Without(res, front);
      if last in res {
        WithoutStep(res, front, last);
        LiveRemove(w, last, t);
      } else {
        assert w == Without(res, ids);
      }
    }
  }

  lemma WithoutStep(res: map<string, ResourceInfo>, front: seq<string>, last: string)
    requires last in res && last !in front
    ensures last in Without(res, front)
    ensures Without(res, front)[last] == res[last]
    ensures Without(res, front) - {last} == Without(res, front + [last])
  {
  }

  /**
   A sweep keeps every counter's distance to its live bytes: exact counters
   stay exact and drifted ones keep their drift.
   */
  lemma SweepKeepsDrift(b0: Books, b1: Books, evicted: seq<string>, now: Tick, aggressive: bool, t: string)
    requires IsSweep(b0, b1, evicted, now, aggressive)
    ensures CountedIn(b1.usage, t) + Live(b0.resources, t) == CountedIn(b0.usage, t) + Live(b1.resources, t)
  {
    LiveWithout(b0.resources, evicted, t);
  }

  // ---------------------------------------------------------------------------
  // Per-category sweeps (CleanupUnusedTextures / Sounds / Animations)

  /** Whether a per-category sweep of `category` removes `r`. */
  predicate Expired(r: ResourceInfo, category: string, threshold: Tick)
    ensures Expired(r, category, threshold) <==> r.category == category && IsUnused(r, threshold)
  {
    r.category == category && r.lastAccessed < threshold && !r.isStatic
  }

  /** `res` after a per-category sweep: the expired records of `category` are gone. */
  function SweptCategory(res: map<string, ResourceInfo>, category: string, threshold: Tick): (r: map<string, ResourceInfo>)
    ensures forall k :: k in r <==> k in res && !Expired(res[k], category, threshold)
    ensures forall k :: k in r ==> r[k] == res[k]
  {
    map k | k in res && !Expired(res[k], category, threshold) :: res[k]
  }

  /** The ids a per-category sweep has removed once it has visited all keys but `keys`. */
  ghost predicate SweptSoFar(res: map<string, ResourceInfo>, gone: seq<string>, keys: set<string>, category: string, threshold: Tick)
  {
    forall k :: k in gone <==> k in res && k !in keys && Expired(res[k], category, threshold)
  }

  /**
   One step of a per-category sweep: visiting key `k` either removes its
   record (extending the eviction) or keeps it; either way the sweep so far
   accounts for every visited key.
   */
  lemma CategoryStep(b0: Books, b1: Books, gone: seq<string>, keys: set<string>, k: string, category: string, threshold: Tick)
    requires Covered(b0) && Evicted(b0, b1, gone)
    requires keys <= b0.resources.Keys && k in keys
    requires SweptSoFar(b0.resources, gone, keys, category, threshold)
    ensures k in b1.resources && b1.resources[k] == b0.resources[k] && Covered(b1)
    ensures Expired(b0.resources[k], category, threshold) ==>
      Evicted(b0, Unregistered(b1, k), gone + [k]) && SweptSoFar(b0.resources, gone + [k], keys - {k}, category, threshold)
    ensures !Expired(b0.resources[k], category, threshold) ==> SweptSoFar(b0.resources, gone, keys - {k}, category, threshold)
  {
    EvictedKeepsAccounting(b0, b1, gone);
    if Expired(b0.resources[k], category, threshold) {
      EvictOne(b0, b1, gone, k);
    }
  }

  /**
   A finished per-category sweep: the expired records of `category` are gone,
   only that category's counter moved, and every counter kept its distance
   to its live bytes.
   */
  lemma CategorySweepDone(b0: Books, b1: Books, gone: seq<string>, category: string, threshold: Tick)
    requires Covered(b0) && Evicted(b0, b1, gone)
    requires SweptSoFar(b0.resources, gone, {}, category, threshold)
    ensures Covered(b1) && (Exact(b0) ==> Exact(b1))
    ensures b1.resources == SweptCategory(b0.resources, category, threshold)
    ensures b1.usage.Keys == b0.usage.Keys
    ensures forall t :: t != category ==> CountedIn(b1.usage, t) == CountedIn(b0.usage, t)
    ensures forall t :: CountedIn(b1.usage, t) + Live(b0.resources, t) == CountedIn(b0.usage, t) + Live(b1.resources, t)
  {
    EvictedKeepsAccounting(b0, b1, gone);
    SweptCategoryIsWithout(b0.resources, gone, category, threshold);
    forall t | t != category ensures CountedIn(b1.usage, t) == CountedIn(b0.usage, t) {
      FreedOfOtherCategory(b0.resources, gone, category, t);
    }
  }

  lemma SweptCategoryIsWithout(res: map<string, ResourceInfo>, gone: seq<string>, category: string, threshold: Tick)
    requires SweptSoFar(res, gone, {}, category, threshold)
    ensures Without(res, gone) == SweptCategory(res, category, threshold)
    ensures forall i :: 0 <= i < |gone| ==> gone[i] in res && res[gone[i]].category == category
  {
    forall i | 0 <= i < |gone| ensures gone[i] in res && res[gone[i]].category == category {
      assert gone[i] in gone;
    }
  }

  /** Evicting only records of `category` leaves every other counter as it was. */
  lemma {:induction false} FreedOfOtherCategory(res: map<string, ResourceInfo>, ids: seq<string>, category: string, t: string)
    requires forall i :: 0 <= i < |ids| ==> ids[i] in res && res[ids[i]].category == category
    requires t != category
    ensures FreedOf(res, ids, t) == 0
    decreases |ids|
  {
    if ids != [] {
      FreedOfOtherCategory(res, ids[..|ids| - 1], category, t);
    }
  }

  /** The categories Initialize gives a limit; their names are plural. */
  const DEFAULT_CATEGORIES: set<string> := {"textures", "sounds", "animations", "scripts"}

  /** The cache limits Initialize installs over the existing ones. */
  function WithDefaultCacheSizes(limits: map<string, nat>): (r: map<string, nat>)
    ensures r.Keys == limits.Keys + DEFAULT_CATEGORIES
  {
    limits["textures" := 16 * 1024 * 1024]["sounds" := 8 * 1024 * 1024]
          ["animations" := 4 * 1024 * 1024]["scripts" := 2 * 1024 * 1024]
  }

  /**
   The per-category sweeps look for the singular names "texture", "sound" and
   "animation", so they never remove a record filed under a default category.
   */
  lemma CategorySweepsMissDefaults(r: ResourceInfo, threshold: Tick)
    requires r.category in DEFAULT_CATEGORIES
    ensures !Expired(r, "texture", threshold)
    ensures !Expired(r, "sound", threshold)
    ensures !Expired(r, "animation", threshold)
  {
  }

  // ---------------------------------------------------------------------------
  // Memory pressure

  /**
   GetMemoryInfo off the console: used is the counted total capped at the
   budget. The float tests `available / total < 0.15` and `< 0.05` are written
   as integer cross-multiplications.
   */
  function MemoryInfoFor(simulatedUsed: nat): (info: MemoryInfo)
    ensures info.totalMemory == TOTAL_MEMORY
    ensures info.usedMemory + info.availableMemory == TOTAL_MEMORY
    ensures info.usedMemory <= simulatedUsed
    ensures info.isCritical ==> info.isLow
  {
    var used := if simulatedUsed < TOTAL_MEMORY then simulatedUsed else TOTAL_MEMORY;
    var available := TOTAL_MEMORY - used;
    MemoryInfo(TOTAL_MEMORY, available, used,
               available * 100 < 15 * TOTAL_MEMORY,
               available * 100 < 5 * TOTAL_MEMORY)
  }

  /** The byte counts at which the flags switch on: low from 57042535 used, critical from 63753421. */
  lemma PressureThresholds(simulatedUsed: nat)
    ensures MemoryInfoFor(simulatedUsed).isLow <==> simulatedUsed >= 57042535
    ensures MemoryInfoFor(simulatedUsed).isCritical <==> simulatedUsed >= 63753421
  {
  }

  /** Update's decision as written: it tests isLow before isCritical. */
  function UpdateAction(info: MemoryInfo): (m: Maintenance)
    ensures m == NormalSweep <==> info.isLow
    ensures m == AggressiveSweep <==> !info.isLow && info.isCritical
    ensures m == NoSweep <==> !info.isLow && !info.isCritical
  {
    if info.isLow then NormalSweep
    else if info.isCritical then AggressiveSweep
    else NoSweep
  }

  /** Since critical implies low, Update never runs an aggressive sweep. */
  lemma UpdateNeverAggressive(simulatedUsed: nat)
    ensures UpdateAction(MemoryInfoFor(simulatedUsed)) != AggressiveSweep
    ensures UpdateAction(MemoryInfoFor(simulatedUsed)) == NormalSweep
            <==> MemoryInfoFor(simulatedUsed).isLow
  {
  }
}
