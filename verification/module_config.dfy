/**
 Module selection: the build-module configuration (module name to attributes)
 filtered by target platform and by whether a module is built from a tracked
 repository (`get_modules`).
 */
module ModuleConfig {
  import opened Optional
  import opened Text

  /** The attributes of one configured module that the selection looks at.
      `targets` is the optional list of platforms it builds for; `repos` is
      present exactly when the configuration has a `"repos"` entry for it. */
  datatype ModuleAttrs = ModuleAttrs(targets: Option<seq<string>>, repos: Option<string>)

  type Config = map<string, ModuleAttrs>

  /** A missing `targets` entry reads as the empty list. */
  function Targets(a: ModuleAttrs): seq<string> {
    ValueOr(a.targets, [])
  }

  /** Platform filter: no platform, or an empty one (both falsy), selects every
      module; otherwise the lower-cased platform must be listed in `targets`. */
  predicate BuildsFor(a: ModuleAttrs, platform: Option<string>) {
    match platform
    case None => true
    case Some(p) => p == "" || Lower(p) in Targets(a)
  }

  /** Repository filter: `None` keeps every module, `Some(b)` keeps the modules
      whose having a `"repos"` entry agrees with `b`. */
  predicate RepoMatches(a: ModuleAttrs, hasRepo: Option<bool>) {
    match hasRepo
    case None => true
    case Some(want) => a.repos.Some? == want
  }

  /** `get_modules(platform, has_repo)`: the platform filter, then the repository filter. */
  function GetModules(conf: Config, platform: Option<string>, hasRepo: Option<bool>): (r: Config)
    ensures forall k :: k in r ==> k in conf && r[k] == conf[k]
    ensures forall k :: k in r <==> k in conf && BuildsFor(conf[k], platform) && RepoMatches(conf[k], hasRepo)
  {
    var byPlatform :=
      if platform.Some? && platform.value != "" then
        map k | k in conf && Lower(platform.value) in Targets(conf[k]) :: conf[k]
      else conf;
    if hasRepo.None? then byPlatform
    else if hasRepo.value then map k | k in byPlatform && byPlatform[k].repos.Some? :: byPlatform[k]
    else map k | k in byPlatform && byPlatform[k].repos.None? :: byPlatform[k]
  }

  /** For a fixed platform, the repository-backed and the external modules are
      disjoint, together they are exactly the unfiltered selection, and so
      their sizes add up. */
  lemma RepoPartition(conf: Config, platform: Option<string>)
    ensures GetModules(conf, platform, Some(true)).Keys !! GetModules(conf, platform, Some(false)).Keys
    ensures GetModules(conf, platform, Some(true)) + GetModules(conf, platform, Some(false))
            == GetModules(conf, platform, None)
    ensures |GetModules(conf, platform, Some(true))| + |GetModules(conf, platform, Some(false))|
            == |GetModules(conf, platform, None)|
  {
    var withRepo := GetModules(conf, platform, Some(true));
    var external := GetModules(conf, platform, Some(false));
    var all := GetModules(conf, platform, None);
    var union := withRepo + external;
    assert union.Keys == all.Keys by {
      forall k | k in all ensures k in union {
        if conf[k].repos.Some? { assert k in withRepo; } else { assert k in external; }
      }
    }
    forall k | k in all
      ensures union[k] == all[k]
    {
      if k in external { assert union[k] == external[k]; } else { assert union[k] == withRepo[k]; }
    }
    assert union == all;
    assert |withRepo.Keys + external.Keys| == |withRepo.Keys| + |external.Keys|;
  }

  /** The platform is lower-cased before it is looked up, so its spelling in
      upper or lower case selects the same modules. */
  lemma PlatformCaseInsensitive(conf: Config, p: string, hasRepo: Option<bool>)
    ensures GetModules(conf, Some(p), hasRepo) == GetModules(conf, Some(Lower(p)), hasRepo)
  {
    LowerIdempotent(p);
    assert p == "" <==> Lower(p) == "";
    forall k | k in conf
      ensures BuildsFor(conf[k], Some(p)) == BuildsFor(conf[k], Some(Lower(p)))
    {
    }
  }

  /** The repository names the given modules are built from (duplicates collapse). */
  function RepoNames(modules: Config): (names: set<string>)
    ensures forall n :: n in names <==> exists k :: k in modules && modules[k].repos == Some(n)
  {
    set k | k in modules && modules[k].repos.Some? :: modules[k].repos.value
  }
}
