# Stupeflix status plugin: decision logic

This project models the decision logic of the Stupeflix menu-bar status plugin
(`Plugins/Stupeflix/helpers/helper.py`). The plugin reports two things.
Per module, it says whether the locally built module is up to date, based on
the build state remembered in a per-(platform, architecture) cache. Per
repository, it says whether the working copy is present, in sync with its
upstream, and dirty. Git, the filesystem and the fingerprint computation are
not modelled: their results are inputs.

The model has these modules:

- `Optional` (option.dfy): `Option`, for Python's `None`-able values.
- `Text` (text.dfy): Python 2 byte-string `lower()`, the string ordering that `list.sort()` uses, and sorting a set of names.
- `ModuleConfig` (module_config.dfy): `get_modules`, which filters the module configuration by platform and by having a `"repos"` entry.
- `ModuleStatusEngine` (module_status.dfy): `module_status`. This covers the architecture lookup, the unknown / out-of-date / up-to-date classification and the cache overwrite. The build state is an opaque type `S` with equality only. The caches are a map from (platform, architecture) to `map<string, S>`, threaded through every call.
- `Glyphs` (glyphs.dfy) and `RepoStatus` (repo_status.dfy): `repos_status`'s choice of glyphs.
- `Aggregation` (aggregation.dfy): `emoji_from_string`, plus the counting and global health of `print_platform_status`. It also builds the repository list of `print_repos_status`.

## Model

| member | source | states |
|---|---|---|
| ModuleConfig.GetModules | Plugins/Stupeflix/helpers/helper.py:18-28 | The result is a sub-map of the configuration with unchanged values. A module is kept exactly when it passes the platform filter and the repository filter. The platform filter is skipped for no platform or the empty one; otherwise the lower-cased platform must be in `targets`, and a missing `targets` counts as empty. `Some(true)` keeps exactly the modules with `"repos"`, `Some(false)` exactly those without. |
| ModuleConfig.RepoPartition | Plugins/Stupeflix/helpers/helper.py:21-28 | For one platform, the repo-backed and external selections are disjoint. Their union is the selection with no repository filter, and their sizes add up to its size. |
| ModuleConfig.PlatformCaseInsensitive | Plugins/Stupeflix/helpers/helper.py:22 | A platform selects the same modules as its lower-cased spelling. |
| ModuleConfig.RepoNames | Plugins/Stupeflix/helpers/helper.py:139 | A name is in the set exactly when some given module has it as its `"repos"` value. |
| Text.Lower | Plugins/Stupeflix/helpers/helper.py:22 | `lower()` keeps the length. Each upper-case ASCII letter becomes the lower-case letter at the same place in the alphabet, and every other character is kept as it is. |
| Text.LowerIdempotent | Plugins/Stupeflix/helpers/helper.py:22 | `lower()` keeps the length, leaves no upper-case ASCII letter, and gives the same result when applied twice. |
| Text.Less | Plugins/Stupeflix/helpers/helper.py:140 | The order `sort()` uses on names: `a` comes before `b` exactly when `a` is a proper prefix of `b`, or the two agree up to some position where `a` has the smaller character. |
| Text.Insert | Plugins/Stupeflix/helpers/helper.py:140 | Inserting a new name into a strictly ascending list keeps it strictly ascending, adds exactly that name, and grows the list by one. |
| Text.SortSet | Plugins/Stupeflix/helpers/helper.py:139-140 | The result is strictly ascending under Python's string order. It holds exactly the set's elements, each once. |
| ModuleStatusEngine.ArchOf | Plugins/Stupeflix/helpers/helper.py:71-75 | The result agrees with the fixed table: `ios` gives `arm64` and `android` gives `armeabi-v7a`. Every other platform gives no architecture. |
| ModuleStatusEngine.Name | Plugins/Stupeflix/helpers/helper.py:83-88 | Every classification is reported as one of `unknown`, `out_of_date` or `up_to_date`. |
| ModuleStatusEngine.NameInjective | Plugins/Stupeflix/helpers/helper.py:83-88 | Different classifications are reported as different strings. |
| ModuleStatusEngine.Classify | Plugins/Stupeflix/helpers/helper.py:80-88 | No prior entry gives `unknown`, a different prior entry `out_of_date`, and an equal one `up_to_date` (all three as if-and-only-if). Whatever the outcome, the cache then maps the module to the current state, and every other entry is unchanged. |
| ModuleStatusEngine.ColdStart | Plugins/Stupeflix/helpers/helper.py:80-84 | A module with no cache entry is `unknown`, and afterwards the cache holds its current state. |
| ModuleStatusEngine.ReEvaluation | Plugins/Stupeflix/helpers/helper.py:80-88 | A second evaluation on the threaded cache is `up_to_date` exactly when the state is unchanged, and `out_of_date` exactly when it changed. The cache then holds the newer state. |
| ModuleStatusEngine.UpdateIdempotent | Plugins/Stupeflix/helpers/helper.py:82 | Storing the same state twice leaves the cache as the first store left it. |
| ModuleStatusEngine.ModuleStatus | Plugins/Stupeflix/helpers/helper.py:67-89 | The status is the classification against the cache of (platform, architecture of the platform), where a cache never written is empty. That cache gets the update, and every other cache is unchanged. |
| ModuleStatusEngine.PlatformsIsolated | Plugins/Stupeflix/helpers/helper.py:77-82 | Evaluating on one platform leaves the cache of any other platform as it was. |
| ModuleStatusEngine.ThreadStep | Plugins/Stupeflix/helpers/helper.py:104 | One more evaluation on a threaded cache gives `up_to_date` for a module already evaluated in the batch. A new module gets its classification against the starting cache. |
| ModuleStatusEngine.EvaluateAll | Plugins/Stupeflix/helpers/helper.py:104 | One status per module. A first occurrence gets its classification against the cache the batch started from, and a repeat is `up_to_date`. Afterwards every evaluated module maps to its current state, and all other entries and caches are unchanged. |
| RepoStatus.FreshnessOf | Plugins/Stupeflix/helpers/helper.py:50-59 | Exactly the codes 0, 1, 2, 4 and 8 are recognised, and each one reads back as a state with that code. |
| RepoStatus.CodeRoundTrip | Plugins/Stupeflix/helpers/helper.py:50-59 | The code of each freshness state reads back as that state. |
| RepoStatus.ReposStatus | Plugins/Stupeflix/helpers/helper.py:31-65 | A missing directory gives exactly the missing marker and an empty branch text. Otherwise the branch is shown in parentheses. At most one freshness glyph comes first, present exactly for codes 0, 1, 2, 4 and 8, and it is the glyph of that state. The last glyph is always the dirty or the clean one, as the dirty flag says. |
| RepoStatus.MissingIgnoresGit | Plugins/Stupeflix/helpers/helper.py:39-40 | For a missing directory the line does not depend on any git input. |
| RepoStatus.ReadBack | Plugins/Stupeflix/helpers/helper.py:39-64 | The glyphs of every line read back as "missing" or as (recognised freshness, dirty flag). So freshness and dirtiness are reported as two independent glyphs. |
| Aggregation.EmojiFromString | Plugins/Stupeflix/helpers/helper.py:91-96 | `up_to_date` maps to the check glyph and `out_of_date` to the hammer, each as if-and-only-if. Every other string maps to the cross. |
| Aggregation.EmojiOfStatus | Plugins/Stupeflix/helpers/helper.py:91-96 | Each classification's string gets its glyph, and `unknown` gets the cross. |
| Aggregation.CountUpToDate | Plugins/Stupeflix/helpers/helper.py:106 | The count is the number of occurrences of `up_to_date` among the statuses, as the sum of booleans computes. It never exceeds the number of statuses. It equals that number exactly when all are `up_to_date`, and it is zero exactly when none is. |
| Aggregation.CountAppend | Plugins/Stupeflix/helpers/helper.py:105-111 | Counting the two groups separately and adding gives the count of their concatenation. |
| Aggregation.CountTwoGroups | Plugins/Stupeflix/helpers/helper.py:105-111 | The summed count is at most the summed size, with equality exactly when both groups are all `up_to_date`. |
| Aggregation.GlobalHealth | Plugins/Stupeflix/helpers/helper.py:113-119 | The result is sunny exactly when the counts are equal, zero modules included. Otherwise it is partly cloudy exactly when `2 * built > count`, which is the floor-division test `built > count / 2`, and cloudy in the remaining cases. |
| Aggregation.EvaluateGroup | Plugins/Stupeflix/helpers/helper.py:103-104 | The group's names come out strictly sorted and each once. Each status is the classification against the starting cache, and the cache ends up recording every one of them. |
| Aggregation.EvaluateGroups | Plugins/Stupeflix/helpers/helper.py:103-111 | The repo-backed group is evaluated first, then the external group. Each is sorted and is exactly its selection for the platform, and together they have as many modules as the unfiltered selection. Every status, in both groups, is the classification against the cache the pass started from. The cache ends up recording all modules of both groups. |
| Aggregation.ClassifyUntouched | Plugins/Stupeflix/helpers/helper.py:104-109 | A module the first group did not evaluate is classified the same after that group ran. |
| Aggregation.ThreadedConcat | Plugins/Stupeflix/helpers/helper.py:104-109 | Two groups evaluated one after the other update the cache like one batch of both. |
| Aggregation.PlatformPass | Plugins/Stupeflix/helpers/helper.py:98-119 | Both groups are sorted and are exactly the repo-backed and external selections for the platform. Every status is the classification against the starting cache. The module count is the number of statuses in both groups, which is the size of the unfiltered selection. The built count is the number of `up_to_date` statuses in the two groups added together. It is at most the module count, and equals it exactly when every status is `up_to_date`. The health is the three-way classification of the two counts. All evaluated modules are recorded in the cache, and other caches are unchanged. |
| Aggregation.PlatformStatus | Plugins/Stupeflix/helpers/helper.py:98-119 | As `PlatformPass`, with every module evaluated on the default platform `ios`, as the code does. |
| Aggregation.DefaultPlatformQuirk | Plugins/Stupeflix/helpers/helper.py:104-109 | Take an `android` cache that already holds module `core-lib`'s current state, and no `ios` cache. Any report meeting the as-written status contract shows `core-lib` as `unknown`. Any report meeting the corrected one, for `android`, shows it as `up_to_date`. |
| Aggregation.PlatformStatusCorrected | Plugins/Stupeflix/helpers/helper.py:98-119 | As `PlatformPass`, with every module evaluated on the platform whose modules were selected. |
| Aggregation.RepoList | Plugins/Stupeflix/helpers/helper.py:137-141 | The list starts with `bundle`. Its tail is strictly ascending, so it has no duplicates. The tail holds exactly the `"repos"` values of the repo-backed modules selected for the platform. |
| Aggregation.RepoListDistinct | Plugins/Stupeflix/helpers/helper.py:139-141 | No name appears twice in the whole list exactly when no selected module's repository is itself named `bundle`. |

## Left out

- Git and subprocess calls (`sh.git`, `utils.git_is_dirty`, `utils.get_git_freshness(fetch=True)` with its network fetch) are left out. Their results are the `GitProbe` input.
- The scoped directory change around the git calls is left out, because it is process state.
- `os.path.exists`, `conf.get` and `conf.defaults` are left out. The configuration map and the directory-exists flag are parameters.
- The fingerprint and module-state computation (`get_xcompile_fingerprint`, `get_module_state`, `get_build_states_cache_path`) is left out, because it is foreign code. The current state is an input of opaque type `S`, given per module by the `current` function.
- `BuildStatesCache` persistence is not part of this model. The cache is an in-memory map threaded from call to call, which assumes that `build_states[module] = current` is persisted.
- All `print` output is presentation and is left out. This covers the menu lines, the bash and editor command strings, the glyphs' emoji text and the UTF-8 stdout wrapper.
- `print_status` is left out. It reads an undefined `MODULES_DICT` and calls a hard-coded build script.
- The loop of `print_repos_status` that runs `repos_status` on each listed repository is left out. Only the list's construction is modelled; the per-repository result is `RepoStatus.ReposStatus`.
- ModuleStatusEngine.Classify: assumes the current state is never `None`. The code's `expected is None` test (helper.py:83) also fires when a `None` state was stored earlier. In that case the code reports `unknown` again, where `ReEvaluation` proves `up_to_date`.
- ModuleStatusEngine.EvaluateAll: `get_module_state` is passed the cache itself (helper.py:81). The model assumes it neither reads nor writes the cache, and that each module's current state stays fixed for a whole pass (the `current` function). Both `Classify`'s "every other entry is unchanged" and the pass-level "classified against the cache the pass started from" rest on this.
- ModuleStatusEngine.EvaluateAll: an exception from `get_module_state` (helper.py:81) ends `print_platform_status` before line 82 stores the state. The model has no failing evaluation, so every batch and every pass completes.
- RepoStatus.ReposStatus: exceptions from the git calls are not modelled. For example, `sh.git('rev-parse', …)` (helper.py:45) raises in an existing directory that is not a git working copy, and `repos_status` then returns nothing. The model always produces a line.
- Text.LowerIdempotent: `lower()` is modelled on ASCII letters only, which is Python 2 byte-string behaviour. Unicode case mapping, for a `unicode` platform argument, is not modelled.
- Text.SortSet: names are ordered by character code, which equals Python 2's byte order only for ASCII names.

## Notes on the code

- Freshness codes: only code 4 shows the diverged glyph. Any code other than 0, 1, 2, 4 and 8 shows no freshness glyph, and that includes 3 (`1 | 2`). The encoding of `get_git_freshness` is not part of this model, so this is not claimed as a defect.
- `module_status` has only three results. A failed state computation has no status of its own; exceptions are listed under "Left out".
- Module names come only from the configuration's own keys, so a module missing from the configuration is never evaluated.

## Findings

| source | as written | input that shows it | evidently intended | confidence | as-written member | corrected member |
|---|---|---|---|---|---|---|
| Plugins/Stupeflix/helpers/helper.py:104-109 | `module_status(m)` is called without the platform, so every module is checked against the `ios` cache | `print_platform_status("android")` with an `android` cache that already records module `core-lib` in its current state and no `ios` cache: `core-lib` is reported `unknown` | `module_status(m, platform)`, so that `core-lib` is `up_to_date` | medium, not executed | Aggregation.PlatformStatus; Aggregation.DefaultPlatformQuirk | Aggregation.PlatformStatusCorrected |
