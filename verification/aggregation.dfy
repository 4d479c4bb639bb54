/**
 Aggregation (`emoji_from_string`, the counting part of
 `print_platform_status`, and the repository list of `print_repos_status`):
 modules are evaluated in sorted order, the up-to-date ones are counted, and
 the counts give a three-way global health classification.
 */
module Aggregation {
  import opened Optional
  import opened Text
  import opened Glyphs
  import opened ModuleConfig
  import opened ModuleStatusEngine

  /** `emoji_from_string(s)`: only the two known strings get their own glyph. */
  function EmojiFromString(s: string): (g: Glyph)
    ensures g == Check <==> s == "up_to_date"
    ensures g == Hammer <==> s == "out_of_date"
    ensures g == Cross <==> s != "up_to_date" && s != "out_of_date"
  {
    if s == "up_to_date" then Check
    else if s == "out_of_date" then Hammer
    else Cross
  }

  /** The glyph each module classification is shown with; `unknown` shares the cross. */
  lemma EmojiOfStatus(s: Status)
    ensures EmojiFromString(Name(s)) == (match s
                                         case UpToDate => Check
                                         case OutOfDate => Hammer
                                         case Unknown => Cross)
  {
  }

  /** How many of the statuses are `up_to_date`. */
  function CountUpToDate(statuses: seq<Status>): (n: nat)
    ensures n == multiset(statuses)[UpToDate]
    ensures n <= |statuses|
    ensures n == |statuses| <==> forall i :: 0 <= i < |statuses| ==> statuses[i] == UpToDate
    ensures n == 0 <==> forall i :: 0 <= i < |statuses| ==> statuses[i] != UpToDate
  {
    if |statuses| == 0 then 0
    else
      assert statuses == [statuses[0]] + statuses[1..];
      (if statuses[0] == UpToDate then 1 else 0) + CountUpToDate(statuses[1..])
  }

  /** Counting distributes over the two module groups. */
  lemma {:induction false} CountAppend(a: seq<Status>, b: seq<Status>)
    ensures CountUpToDate(a + b) == CountUpToDate(a) + CountUpToDate(b)
  {
    if |a| == 0 {
      assert a + b == b;
    } else {
      assert (a + b)[1..] == a[1..] + b;
      CountAppend(a[1..], b);
    }
  }

  /** The up-to-date count over two groups is bounded by their total size, and
      reaches it exactly when every status in both is `up_to_date`. */
  lemma CountTwoGroups(a: seq<Status>, b: seq<Status>)
    ensures CountUpToDate(a) + CountUpToDate(b) <= |a| + |b|
    ensures CountUpToDate(a) + CountUpToDate(b) == |a| + |b| <==>
              (forall i :: 0 <= i < |a| ==> a[i] == UpToDate) && (forall i :: 0 <= i < |b| ==> b[i] == UpToDate)
  {
  }

  /** The global health signal of the menu title. */
  datatype Health = Sunny | PartlyCloudy | Cloudy

  /** All built, more than half built (floor division of the count), or otherwise. */
  function GlobalHealth(moduleCount: nat, builtCount: nat): (h: Health)
    ensures h == Sunny <==> builtCount == moduleCount
    ensures h == PartlyCloudy <==> builtCount != moduleCount && 2 * builtCount > moduleCount
    ensures h == Cloudy <==> builtCount != moduleCount && 2 * builtCount <= moduleCount
  {
    if moduleCount == builtCount then Sunny
    else if builtCount > moduleCount / 2 then PartlyCloudy
    else Cloudy
  }

  /** What one pass over a platform's modules produces. */
  datatype PlatformReport = PlatformReport(
    repoModules: seq<string>,
    repoStatuses: seq<Status>,
    externalModules: seq<string>,
    externalStatuses: seq<Status>,
    moduleCount: nat,
    builtCount: nat,
    health: Health)

  /** One module group: its names sorted (`keys().sort()`), then each evaluated
      on `evalPlatform`. The names are distinct, so each status is the
      classification against the cache the group started from. */
  method EvaluateGroup<S(==)>(group: set<string>, evalPlatform: string, current: string -> S, store: Store<S>)
    returns (modules: seq<string>, statuses: seq<Status>, store': Store<S>)
    ensures StrictlySorted(modules)
    ensures forall m :: m in modules <==> m in group
    ensures |modules| == |group| && |statuses| == |modules|
    ensures forall i :: 0 <= i < |modules| ==>
              statuses[i] == Classify(CacheOf(store, KeyOf(evalPlatform)), modules[i], current(modules[i])).status
    ensures Threaded(CacheOf(store, KeyOf(evalPlatform)), CacheOf(store', KeyOf(evalPlatform)), modules, current)
    ensures OthersUnchanged(store, store', KeyOf(evalPlatform))
  {
    modules := SortSet(group);
    SortedDistinct(modules);
    statuses, store' := EvaluateAll(modules, evalPlatform, current, store);
  }

  /** A module the first batch did not evaluate is classified the same after it. */
  lemma ClassifyUntouched<S>(c0: Cache<S>, c1: Cache<S>, done: seq<string>, m: string, current: string -> S)
    requires Threaded(c0, c1, done, current) && m !in done
    ensures Classify(c1, m, current(m)).status == Classify(c0, m, current(m)).status
  {
  }

  /** The module groups of a pass over `platform`: each sorted, and exactly the
      repo-backed and the external modules selected for it. */
  ghost predicate PassGroups(conf: Config, platform: string, report: PlatformReport) {
    && StrictlySorted(report.repoModules)
    && (forall m :: m in report.repoModules <==> m in GetModules(conf, Some(platform), Some(true)))
    && StrictlySorted(report.externalModules)
    && (forall m :: m in report.externalModules <==> m in GetModules(conf, Some(platform), Some(false)))
  }

  /** One status per module, each the classification against `cache`. */
  ghost predicate PassStatuses<S>(cache: Cache<S>, current: string -> S, report: PlatformReport) {
    && |report.repoStatuses| == |report.repoModules|
    && |report.externalStatuses| == |report.externalModules|
    && (forall i :: 0 <= i < |report.repoModules| ==>
          report.repoStatuses[i] == Classify(cache, report.repoModules[i], current(report.repoModules[i])).status)
    && (forall i :: 0 <= i < |report.externalModules| ==>
          report.externalStatuses[i] == Classify(cache, report.externalModules[i], current(report.externalModules[i])).status)
  }

  /** The counts: every selected module, and the number of `up_to_date`
      statuses over both groups, which is all of them exactly when every status
      is `up_to_date`; and the health they give. */
  ghost predicate PassCounts(conf: Config, platform: string, report: PlatformReport) {
    && report.moduleCount == |GetModules(conf, Some(platform), None)|
    && report.moduleCount == |report.repoStatuses| + |report.externalStatuses|
    && report.builtCount == CountUpToDate(report.repoStatuses) + CountUpToDate(report.externalStatuses)
    && report.builtCount <= report.moduleCount
    && (report.builtCount == report.moduleCount <==>
          (forall i :: 0 <= i < |report.repoStatuses| ==> report.repoStatuses[i] == UpToDate) &&
          (forall i :: 0 <= i < |report.externalStatuses| ==> report.externalStatuses[i] == UpToDate))
    && report.health == GlobalHealth(report.moduleCount, report.builtCount)
  }

  /** The cache update of a pass evaluated on `evalPlatform`: every module of
      both groups is recorded, and no other cache changes. */
  ghost predicate PassCache<S>(evalPlatform: string, current: string -> S, store: Store<S>, report: PlatformReport,
                               store': Store<S>)
  {
    && Threaded(CacheOf(store, KeyOf(evalPlatform)), CacheOf(store', KeyOf(evalPlatform)),
                report.repoModules + report.externalModules, current)
    && OthersUnchanged(store, store', KeyOf(evalPlatform))
  }

  /** Both module groups of a platform, each sorted and evaluated on
      `evalPlatform`, the repo-backed group first. The groups are disjoint, so
      every status is the classification against the cache the pass started from. */
  method EvaluateGroups<S(==)>(conf: Config, platform: string, evalPlatform: string, current: string -> S, store: Store<S>)
    returns (repoModules: seq<string>, repoStatuses: seq<Status>, externalModules: seq<string>, externalStatuses: seq<Status>, store': Store<S>)
    ensures StrictlySorted(repoModules)
    ensures forall m :: m in repoModules <==> m in GetModules(conf, Some(platform), Some(true))
    ensures StrictlySorted(externalModules)
    ensures forall m :: m in externalModules <==> m in GetModules(conf, Some(platform), Some(false))
    ensures |repoStatuses| == |repoModules| && |externalStatuses| == |externalModules|
    ensures |repoModules| + |externalModules| == |GetModules(conf, Some(platform), None)|
    ensures forall i :: 0 <= i < |repoModules| ==>
              repoStatuses[i] == Classify(CacheOf(store, KeyOf(evalPlatform)), repoModules[i], current(repoModules[i])).status
    ensures forall i :: 0 <= i < |externalModules| ==>
              externalStatuses[i]
              == Classify(CacheOf(store, KeyOf(evalPlatform)), externalModules[i], current(externalModules[i])).status
    ensures Threaded(CacheOf(store, KeyOf(evalPlatform)), CacheOf(store', KeyOf(evalPlatform)),
                     repoModules + externalModules, current)
    ensures OthersUnchanged(store, store', KeyOf(evalPlatform))
  {
    var key := KeyOf(evalPlatform);
    ghost var cache := CacheOf(store, key);
    RepoPartition(conf, Some(platform));
    var store1;
    repoModules, repoStatuses, store1 := EvaluateGroup(GetModules(conf, Some(platform), Some(true)).Keys, evalPlatform, current, store);
    externalModules, externalStatuses, store' :=
      EvaluateGroup(GetModules(conf, Some(platform), Some(false)).Keys, evalPlatform, current, store1);
    // The first group's evaluations leave the second group's cache entries alone.
    forall i | 0 <= i < |externalModules|
      ensures externalStatuses[i] == Classify(cache, externalModules[i], current(externalModules[i])).status
    {
      ClassifyUntouched(cache, CacheOf(store1, key), repoModules, externalModules[i], current);
    }
    ThreadedConcat(cache, CacheOf(store1, key), CacheOf(store', key), repoModules, externalModules, current);
    OthersUnchangedTrans(store, store1, store', key);
  }

  /** The status pass of `print_platform_status`, with the platform the modules
      are evaluated on as a parameter. */
  method PlatformPass<S(==)>(conf: Config, platform: string, evalPlatform: string, current: string -> S, store: Store<S>)
    returns (report: PlatformReport, store': Store<S>)
    ensures PassGroups(conf, platform, report)
    ensures PassStatuses(CacheOf(store, KeyOf(evalPlatform)), current, report)
    ensures PassCounts(conf, platform, report)
    ensures PassCache(evalPlatform, current, store, report, store')
  {
    var repoModules, repoStatuses, externalModules, externalStatuses;
    repoModules, repoStatuses, externalModules, externalStatuses, store' :=
      EvaluateGroups(conf, platform, evalPlatform, current, store);
    var moduleCount := |repoStatuses| + |externalStatuses|;
    var builtCount := CountUpToDate(repoStatuses) + CountUpToDate(externalStatuses);
    CountTwoGroups(repoStatuses, externalStatuses);
    report := PlatformReport(repoModules, repoStatuses, externalModules, externalStatuses,
                             moduleCount, builtCount, GlobalHealth(moduleCount, builtCount));
  }

  /** `print_platform_status(platform)` as written: the two module groups are
      selected for `platform`, but `module_status` is called without a platform,
      so every module is evaluated on the default one. `current` gives each
      module's current build state there. */
  method PlatformStatus<S(==)>(conf: Config, platform: string, current: string -> S, store: Store<S>)
    returns (report: PlatformReport, store': Store<S>)
    ensures PassGroups(conf, platform, report)
    ensures PassStatuses(CacheOf(store, KeyOf(DefaultPlatform)), current, report)
    ensures PassCounts(conf, platform, report)
    ensures PassCache(DefaultPlatform, current, store, report, store')
  {
    report, store' := PlatformPass(conf, platform, DefaultPlatform, current, store);
  }

  /** The as-written pass reads the default platform's cache even for another
      platform. Take an `"android"` cache that already holds the current state
      of module `core-lib`, and no `"ios"` cache. Any report meeting
      `PlatformStatus`'s status contract shows `core-lib` as `unknown`; any
      report meeting `PlatformStatusCorrected`'s shows it as `up_to_date`. */
  lemma DefaultPlatformQuirk<S>(s: S, current: string -> S, asWritten: PlatformReport, corrected: PlatformReport)
    requires current("core-lib") == s
    requires asWritten.repoModules == ["core-lib"] && corrected.repoModules == ["core-lib"]
    requires var store: Store<S> := map[KeyOf("android") := map["core-lib" := s]];
             && PassStatuses(CacheOf(store, KeyOf(DefaultPlatform)), current, asWritten)
             && PassStatuses(CacheOf(store, KeyOf("android")), current, corrected)
    ensures asWritten.repoStatuses == [Unknown]
    ensures corrected.repoStatuses == [UpToDate]
  {
  }

  /** `print_platform_status(platform)` with each module evaluated on the
      platform whose modules were selected, so the cache of that platform is
      the one read and written. */
  method PlatformStatusCorrected<S(==)>(conf: Config, platform: string, current: string -> S, store: Store<S>)
    returns (report: PlatformReport, store': Store<S>)
    ensures PassGroups(conf, platform, report)
    ensures PassStatuses(CacheOf(store, KeyOf(platform)), current, report)
    ensures PassCounts(conf, platform, report)
    ensures PassCache(platform, current, store, report, store')
  {
    report, store' := PlatformPass(conf, platform, platform, current, store);
  }

  /** Two batches evaluated one after the other thread like one batch. */
  lemma ThreadedConcat<S>(c0: Cache<S>, c1: Cache<S>, c2: Cache<S>, a: seq<string>, b: seq<string>, current: string -> S)
    requires Threaded(c0, c1, a, current) && Threaded(c1, c2, b, current)
    ensures Threaded(c0, c2, a + b, current)
  {
    forall m | m in a + b
      ensures c2[m] == current(m)
    {
      if m !in b {
        assert m in a;
      }
    }
  }

  /** The repository list of `print_repos_status(platform)`: `"bundle"` first,
      then every repository the selected repo-backed modules are built from,
      once each and in ascending order. */
  method RepoList(conf: Config, platform: Option<string>) returns (repos: seq<string>)
    ensures |repos| >= 1 && repos[0] == "bundle"
    ensures StrictlySorted(repos[1..])
    ensures forall r :: r in repos[1..] <==>
              exists k :: k in conf && BuildsFor(conf[k], platform) && conf[k].repos == Some(r)
  {
    var repoModules := GetModules(conf, platform, Some(true));
    var names := RepoNames(repoModules);
    var sorted := SortSet(names);
    repos := ["bundle"] + sorted;
    assert repos[1..] == sorted;
    forall r | r in sorted
      ensures exists k :: k in conf && BuildsFor(conf[k], platform) && conf[k].repos == Some(r)
    {
      var k :| k in repoModules && repoModules[k].repos == Some(r);
    }
  }

  /** `"bundle"` itself is listed twice exactly when some selected module is
      built from a repository of that name; otherwise no name repeats. */
  lemma RepoListDistinct(conf: Config, platform: Option<string>, repos: seq<string>)
    requires |repos| >= 1 && repos[0] == "bundle"
    requires StrictlySorted(repos[1..])
    requires forall r :: r in repos[1..] <==>
               exists k :: k in conf && BuildsFor(conf[k], platform) && conf[k].repos == Some(r)
    ensures (forall i, j :: 0 <= i < j < |repos| ==> repos[i] != repos[j]) <==>
            (forall k :: k in conf && BuildsFor(conf[k], platform) ==> conf[k].repos != Some("bundle"))
  {
    if forall k :: k in conf && BuildsFor(conf[k], platform) ==> conf[k].repos != Some("bundle") {
      SortedDistinct(repos[1..]);
      forall i, j | 0 <= i < j < |repos|
        ensures repos[i] != repos[j]
      {
        if i > 0 {
          assert repos[i] == repos[1..][i - 1] && repos[j] == repos[1..][j - 1];
        } else {
          assert repos[j] in repos[1..];
        }
      }
    } else {
      var k :| k in conf && BuildsFor(conf[k], platform) && conf[k].repos == Some("bundle");
      assert "bundle" in repos[1..];
      var j :| 0 <= j < |repos[1..]| && repos[1..][j] == "bundle";
      assert repos[0] == repos[j + 1];
    }
  }
}
