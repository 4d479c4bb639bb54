/**
 Module freshness classification (`module_status`): the module's current build
 state is compared with the one remembered in the build-state cache of its
 (platform, architecture) pair, and the cache is then overwritten with the
 current state whatever the outcome.

 The state is opaque: the model only compares states for equality, so it is a
 type parameter `S(==)`. The current state is an input, since computing it
 (fingerprint and source hashing) is outside this model.
 */
module ModuleStatusEngine {
  import opened Optional

  /** The platform `module_status` uses when none is given. */
  const DefaultPlatform: string := "ios"

  /** The fixed platform-to-architecture table. */
  const ArchTable: map<string, string> := map["ios" := "arm64", "android" := "armeabi-v7a"]

  /** The architecture a platform is cross-compiled for; any platform outside
      the table has none. */
  function ArchOf(platform: string): (arch: Option<string>)
    ensures arch == (if platform in ArchTable then Some(ArchTable[platform]) else None)
  {
    if platform == "ios" then Some("arm64")
    else if platform == "android" then Some("armeabi-v7a")
    else None
  }

  datatype Status = Unknown | OutOfDate | UpToDate

  /** The string `module_status` returns for each classification. */
  function Name(s: Status): (n: string)
    ensures n in {"unknown", "out_of_date", "up_to_date"}
  {
    match s
    case Unknown => "unknown"
    case OutOfDate => "out_of_date"
    case UpToDate => "up_to_date"
  }

  /** Different classifications are reported as different strings. */
  lemma NameInjective(s: Status, t: Status)
    requires Name(s) == Name(t)
    ensures s == t
  {
  }

  /** One build-state cache: module name to the state last observed. */
  type Cache<S> = map<string, S>

  datatype Outcome<S> = Outcome(status: Status, cache: Cache<S>)

  /** Reads the remembered state, stores the current one, and classifies. */
  function Classify<S(==)>(cache: Cache<S>, name: string, current: S): (o: Outcome<S>)
    ensures o.status == Unknown <==> name !in cache
    ensures o.status == OutOfDate <==> name in cache && cache[name] != current
    ensures o.status == UpToDate <==> name in cache && cache[name] == current
    ensures o.cache.Keys == cache.Keys + {name}
    ensures o.cache[name] == current
    ensures forall k :: k in cache && k != name ==> o.cache[k] == cache[k]
  {
    var expected := if name in cache then Some(cache[name]) else None;
    var updated := cache[name := current];
    if expected.None? then Outcome(Unknown, updated)
    else if expected.value != current then Outcome(OutOfDate, updated)
    else Outcome(UpToDate, updated)
  }

  /** A first evaluation finds nothing (`unknown`) and records the state. */
  lemma ColdStart<S>(cache: Cache<S>, name: string, current: S)
    requires name !in cache
    ensures Classify(cache, name, current).status == Unknown
    ensures Classify(cache, name, current).cache == cache[name := current]
  {
  }

  /** Evaluating again with the threaded cache and an unchanged state gives
      `up_to_date`; with a changed state it gives `out_of_date` and the cache
      then holds the new state, not the old one. */
  lemma ReEvaluation<S>(cache: Cache<S>, name: string, first: S, second: S)
    ensures var again := Classify(Classify(cache, name, first).cache, name, second);
            && (again.status == UpToDate <==> first == second)
            && (again.status == OutOfDate <==> first != second)
            && again.cache[name] == second
  {
  }

  /** Updating the cache twice with the same state changes nothing the second time. */
  lemma UpdateIdempotent<S>(cache: Cache<S>, name: string, current: S)
    ensures var once := Classify(cache, name, current).cache;
            Classify(once, name, current).cache == once
  {
  }

  /** Which cache file a platform's evaluation reads and writes. */
  datatype CacheKey = CacheKey(platform: string, arch: Option<string>)

  function KeyOf(platform: string): CacheKey {
    CacheKey(platform, ArchOf(platform))
  }

  /** All build-state caches, one per (platform, architecture). */
  type Store<S> = map<CacheKey, Cache<S>>

  /** A cache never written reads as empty (cold start). */
  function CacheOf<S>(store: Store<S>, key: CacheKey): Cache<S> {
    if key in store then store[key] else map[]
  }

  /** Every cache other than the one under `key` is as it was. */
  ghost predicate OthersUnchanged<S>(store: Store<S>, store': Store<S>, key: CacheKey) {
    && (forall k :: k != key ==> (k in store' <==> k in store))
    && (forall k :: k != key && k in store ==> store'[k] == store[k])
  }

  /** `module_status(module, platform)` with the state it computes for the module given as `current`. */
  function ModuleStatus<S(==)>(store: Store<S>, name: string, platform: string, current: S): (r: (Status, Store<S>))
    ensures r.0 == Classify(CacheOf(store, KeyOf(platform)), name, current).status
    ensures CacheOf(r.1, KeyOf(platform)) == Classify(CacheOf(store, KeyOf(platform)), name, current).cache
    ensures OthersUnchanged(store, r.1, KeyOf(platform))
  {
    var key := CacheKey(platform, ArchOf(platform));
    var o := Classify(CacheOf(store, key), name, current);
    (o.status, store[key := o.cache])
  }

  /** Evaluations on one platform never touch the cache of another platform. */
  lemma PlatformsIsolated<S>(store: Store<S>, name: string, p: string, q: string, current: S)
    requires p != q
    ensures CacheOf(ModuleStatus(store, name, p, current).1, KeyOf(q)) == CacheOf(store, KeyOf(q))
  {
  }

  /** `after` is `before` once every module of `done` has been evaluated in
      order: each of them now maps to its current state, nothing else changed. */
  ghost predicate Threaded<S>(before: Cache<S>, after: Cache<S>, done: seq<string>, current: string -> S) {
    && (forall m :: m in after <==> m in before || m in done)
    && (forall m :: m in done ==> after[m] == current(m))
    && (forall m :: m in before && m !in done ==> after[m] == before[m])
  }

  /** One more evaluation on a threaded cache: a module seen before finds its
      own state, a new one is classified against the original cache. */
  lemma ThreadStep<S>(before: Cache<S>, after: Cache<S>, done: seq<string>, m: string, current: string -> S)
    requires Threaded(before, after, done, current)
    ensures Threaded(before, Classify(after, m, current(m)).cache, done + [m], current)
    ensures m in done ==> Classify(after, m, current(m)).status == UpToDate
    ensures m !in done ==> Classify(after, m, current(m)).status == Classify(before, m, current(m)).status
  {
    var next := Classify(after, m, current(m)).cache;
    forall x | x in done + [m]
      ensures next[x] == current(x)
    {
      if x != m {
        assert x in done;
      }
    }
  }

  /** The status the `i`-th evaluation of a batch reports: `up_to_date` for a
      module already evaluated earlier in the batch, otherwise the
      classification against the cache the batch started from. */
  ghost function BatchStatus<S>(before: Cache<S>, modules: seq<string>, i: nat, current: string -> S): Status
    requires i < |modules|
  {
    if modules[i] in modules[..i] then UpToDate else Classify(before, modules[i], current(modules[i])).status
  }

  /** `statuses` are the reports of the first `|statuses|` evaluations of a batch. */
  ghost predicate BatchStatuses<S>(before: Cache<S>, modules: seq<string>, statuses: seq<Status>, current: string -> S) {
    && |statuses| <= |modules|
    && forall j :: 0 <= j < |statuses| ==> statuses[j] == BatchStatus(before, modules, j, current)
  }

  /** Two updates that each touch only the cache under `key` together touch only that cache. */
  lemma OthersUnchangedTrans<S>(s0: Store<S>, s1: Store<S>, s2: Store<S>, key: CacheKey)
    requires OthersUnchanged(s0, s1, key) && OthersUnchanged(s1, s2, key)
    ensures OthersUnchanged(s0, s2, key)
  {
  }

  /** One more status in a batch. */
  lemma BatchStatusesStep<S>(before: Cache<S>, modules: seq<string>, statuses: seq<Status>, current: string -> S, s: Status)
    requires BatchStatuses(before, modules, statuses, current) && |statuses| < |modules|
    requires s == BatchStatus(before, modules, |statuses|, current)
    ensures BatchStatuses(before, modules, statuses + [s], current)
  {
  }

  /** The state of a batch after its first `|statuses|` evaluations. */
  ghost predicate BatchInvariant<S>(store: Store<S>, st: Store<S>, modules: seq<string>, statuses: seq<Status>,
                                    platform: string, current: string -> S)
  {
    && |statuses| <= |modules|
    && BatchStatuses(CacheOf(store, KeyOf(platform)), modules, statuses, current)
    && Threaded(CacheOf(store, KeyOf(platform)), CacheOf(st, KeyOf(platform)), modules[..|statuses|], current)
    && OthersUnchanged(store, st, KeyOf(platform))
  }

  /** The next evaluation of a batch keeps the batch invariant. */
  lemma BatchStep<S>(store: Store<S>, st: Store<S>, modules: seq<string>, statuses: seq<Status>,
                     platform: string, current: string -> S)
    requires BatchInvariant(store, st, modules, statuses, platform, current) && |statuses| < |modules|
    ensures var r := ModuleStatus(st, modules[|statuses|], platform, current(modules[|statuses|]));
            BatchInvariant(store, r.1, modules, statuses + [r.0], platform, current)
  {
    var i := |statuses|;
    var key := KeyOf(platform);
    var m := modules[i];
    var before := CacheOf(store, key);
    ThreadStep(before, CacheOf(st, key), modules[..i], m, current);
    var r := ModuleStatus(st, m, platform, current(m));
    BatchStatusesStep(before, modules, statuses, current, r.0);
    OthersUnchangedTrans(store, st, r.1, key);
    assert modules[..i + 1] == modules[..i] + [m];
  }

  /** The status of each module of `modules`, evaluated in order on one
      platform with the store threaded through. A module evaluated for the
      second time finds its own freshly stored state. */
  method EvaluateAll<S(==)>(modules: seq<string>, platform: string, current: string -> S, store: Store<S>)
    returns (statuses: seq<Status>, store': Store<S>)
    ensures |statuses| == |modules|
    ensures forall i :: 0 <= i < |modules| && modules[i] !in modules[..i] ==>
              statuses[i] == Classify(CacheOf(store, KeyOf(platform)), modules[i], current(modules[i])).status
    ensures forall i :: 0 <= i < |modules| && modules[i] in modules[..i] ==> statuses[i] == UpToDate
    ensures Threaded(CacheOf(store, KeyOf(platform)), CacheOf(store', KeyOf(platform)), modules, current)
    ensures OthersUnchanged(store, store', KeyOf(platform))
  {
    statuses := [];
    store' := store;
    while |statuses| < |modules|
      invariant BatchInvariant(store, store', modules, statuses, platform, current)
      decreases |modules| - |statuses|
    {
      var m := modules[|statuses|];
      BatchStep(store, store', modules, statuses, platform, current);
      var r := ModuleStatus(store', m, platform, current(m));
      statuses := statuses + [r.0];
      store' := r.1;
    }
    assert modules[..|statuses|] == modules;
    ghost var before := CacheOf(store, KeyOf(platform));
    forall j | 0 <= j < |modules|
      ensures statuses[j] == BatchStatus(before, modules, j, current)
    {
    }
  }
}
