# clean-macos-cache: a Dafny model of the scan and clean pipeline

This project models the core of a small macOS cache cleaner. The cleaner
scans a fixed catalog of cache locations plus the Electron applications it
finds under `~/Library/Application Support`. It measures every location,
reports the categories that hold something, and removes the ones the user
selects. The model works over an abstract filesystem. That filesystem maps
absolute paths to `File(size)` or `Dir(children)`, lists the directories
that cannot be read, and holds the output of the `du -sk` command for each
directory. It covers these parts, module by module:

- `Paths` (src/utils/path.ts): `expandPath`, plus the `path.join`,
  `path.dirname` and `path.basename` behaviour that the wildcard resolver
  depends on.
- `Glob`: the anchored `*` pattern that `getMatchingPaths` builds from the
  final path segment (`^…$`, with `*` read as `.*`).
- `JsNumber`: JavaScript `parseInt` with no radix. It is used on the `du`
  output.
- `FsModel`: the abstract filesystem.
- `Filesystem` (src/utils/filesystem.ts): `getMatchingPaths` and
  `getDirectorySize`.
- `Catalog` and `CatalogFacts` (src/constants/cache-categories.ts,
  src/constants/electron.ts): the `CACHE_CATEGORIES` table and
  `ELECTRON_CACHE_DIRS`, with the consequences the table has for scanning.
  A home-relative path `~/rest` in the table is written `Home("rest")`,
  which is the same string, `"~/" + rest`.
- `Electron` (src/utils/electron.ts): `isElectronApp` and
  `getElectronCachePaths`.
- `Discovery` (src/utils/discovery.ts): `discoverElectronApps`. This covers
  the exclusion rule, the key sanitisation and the map filling.
- `OrderedMaps`: a JavaScript object used as a dictionary. Keys keep their
  insertion order, and assigning to an existing key replaces its value in
  place.
- `SizeSort` and `Scanner` (src/utils/scanner.ts): `scanCaches`. This covers
  the merge, the per-category sums, the inclusion rule, and the stable sort
  from largest to smallest.
- `Cleaner` (src/utils/cleaner.ts): `cleanCaches`. This covers the
  selection filter and the per-entry counters. Command outcomes and
  removal outcomes are oracles.

Each loop in the source is a method with loop invariants. The method's
postcondition ties its result to a specification function, and lemmas state
what that function guarantees. The home directory, the filesystem and the
oracles are parameters. `Discovery` and `Scanner` also take the static
catalog as a parameter; the program passes `CACHE_CATEGORIES`. The concrete
consequences of the table are stated for `Catalog.CacheCategories`.

utils.js is an older JavaScript copy of the same functions, and the model
uses the same definitions for it:

- `expandPath` at utils.js:13-18 is `Paths.ExpandPath`.
- `isElectronApp` at utils.js:21-37 is `Electron.IsElectronApp`.
- `getElectronCachePaths` at utils.js:40-51 is `Electron.GetElectronCachePaths`.
- `discoverElectronApps` at utils.js:54-97 is `Discovery.DiscoverElectronApps`.
- `getMatchingPaths` at utils.js:100-144 is `Filesystem.GetMatchingPaths`.
- `getDirectorySize` at utils.js:147-168 is `Filesystem.DirectorySize`.
- `scanCaches` at utils.js:180-237 is `Scanner.ScanCaches`.
- `cleanCaches` at utils.js:343-418 is `Cleaner.CleanCaches`.

Some consequences of the code, which the model keeps as written:

- The directory that is listed is `dirname` of the pattern after every `*`
  has been deleted. So a `*` in a directory segment gives no matches at all
  (`Filesystem.MatchingPathsStarNotInFinalSegment`), and a final segment
  made only of `*` lists the grandparent
  (`Filesystem.MatchingPathsOfStarSegment`).
- As a result, the four `chrome` patterns, such as
  `~/Library/Caches/Google/Chrome/*/Cache`, resolve to nothing on every
  filesystem (`CatalogFacts.ChromePatternsResolveToNothing`). The Chrome
  sub-directory branch of `getMatchingPaths` is never reached by them.
- A final segment `prefix*suffix` becomes the anchored regular expression
  `^prefix.*suffix$`. It does not match names where prefix and suffix
  overlap: the name must be at least as long as both together
  (`Glob.MatchesPrefixStarSuffix`).
- The merge spreads the discovered map over the static one, so on a key
  collision the discovered entry wins
  (`Scanner.MergedCategoriesProperties`). An application directory named
  `npm` or `NPM` therefore replaces the `npm` category, which is why
  `Scanner.PackageManagerCachesReported` needs the key to be free.
- The cleaner adds the entry's full pre-scan size once per removed path,
  before any later failure. One entry can therefore count as both a success
  and a failure (`Cleaner.SuccessAndFailure`,
  `Cleaner.CleanPathsAccounting`).

## Model

| member | source | states |
|---|---|---|
| Paths.ExpandPath | src/utils/path.ts:9-14 | A path that does not start with `~/` (including bare `~` and `~user/...`) is returned unchanged. A `~/` path starts with home after expansion, and a longer one ends with everything after its first two characters. With a home that does not end in `/`, it is exactly `home + "/" + rest`. |
| Paths.ExpandPathIdempotent | src/utils/path.ts:9-14 | With an absolute home directory, expanding twice gives the same result as expanding once. |
| Paths.StripStars | src/utils/filesystem.ts:16 | `replace(/\*/g, '')` leaves no `*` and never makes the string longer. |
| Paths.StripStarsAppend | src/utils/filesystem.ts:16 | Deleting stars distributes over concatenation. |
| Paths.StripStarsStarFree | src/utils/filesystem.ts:16 | A string without `*` is left as it is. |
| Paths.StripStarsAllStars | src/utils/filesystem.ts:16 | A segment made only of `*` disappears. |
| Paths.DirnameOfChild | src/utils/filesystem.ts:16 | `path.dirname` of `a/s`, for a final segment `s`, is `a`. |
| Paths.DirnameOfChildWithSlash | src/utils/filesystem.ts:16 | `path.dirname` ignores a trailing slash: `a/b/` gives `a`. This is how a `*`-only final segment ends up listing the grandparent. |
| Paths.BasenameOfChild | src/utils/filesystem.ts:17 | `path.basename` of `x/s` is the final segment `s`. |
| Glob.MatchesLiteral | src/utils/filesystem.ts:30-31 | A segment without `*` matches exactly the name equal to it. |
| Glob.MatchesLiteralPrefix | src/utils/filesystem.ts:30-31 | A star-free prefix of the pattern must be a prefix of the name, and the rest of the pattern must match the rest of the name. |
| Glob.MatchesStarSuffix | src/utils/filesystem.ts:30-31 | `*suffix` matches exactly the names that end in `suffix` and have no line terminator before it. |
| Glob.MatchesPrefixStarSuffix | src/utils/filesystem.ts:30-31 | `prefix*suffix` matches exactly the names that start with `prefix`, end with `suffix`, are long enough for both without overlap, and have no line terminator in between. |
| Glob.MatchesAllStars | src/utils/filesystem.ts:30-31 | A segment made only of `*` matches every name without a line terminator. |
| JsNumber.ParseIntDecimal | src/utils/filesystem.ts:78 | `parseInt` of decimal digits, followed by anything that does not continue the number (such as a tab), is the value of the digits. |
| JsNumber.ParseIntNonNegative | src/utils/filesystem.ts:78 | Without a leading minus sign, a parsed number is never negative. |
| JsNumber.TrimStart | src/utils/filesystem.ts:78 | `parseInt` skips leading white space: the result is a suffix of the input and does not start with white space. |
| JsNumber.TrimStartDropsWhitespace | src/utils/filesystem.ts:78 | Every character `parseInt` skips before the number is white space. |
| JsNumber.LeadingDigits | src/utils/filesystem.ts:78 | The digits `parseInt` reads form the longest prefix of digits of the input. |
| FsModel.Listing | src/utils/filesystem.ts:20-24 | Listing succeeds exactly for an existing directory that can be read. |
| FsModel.ExistingChildrenMembers | src/utils/electron.ts:36-41 | The existing children are exactly the existing `parent/name` for the listed names, and there are at most as many of them as names. |
| FsModel.ExistingChildrenDistinct | src/utils/electron.ts:36-41 | Distinct non-empty names give a list without duplicates. |
| Filesystem.GetMatchingPaths | src/utils/filesystem.ts:11-55 | The loop over the directory entries, including the inner loop over the Chrome sub-directories, returns `MatchingPaths`. |
| Filesystem.EntryPaths | src/utils/filesystem.ts:28-44 | One entry appends what `EntryMatches` gives for it: nothing unless the final segment has a `*` and matches the name; otherwise the Chrome sub-directories for a directory under `Google/Chrome`, or the entry's own full path. |
| Filesystem.ChromeSubPaths | src/utils/filesystem.ts:34-40 | The inner loop appends `fullPath/sub` for exactly the existing sub-directories among the five Chrome cache names, in that list's order. |
| Filesystem.MatchingPathsStarFree | src/utils/filesystem.ts:54 | A pattern without `*` after expansion gives exactly the one-element list of the expanded path, with no existence check. |
| Filesystem.MatchingPathsUnlisted | src/utils/filesystem.ts:19-22 | A missing or unreadable parent directory gives an empty result. |
| Filesystem.MatchingPathsStarNotInFinalSegment | src/utils/filesystem.ts:29 | If the pattern has a `*` but its final segment does not, the result is empty even when the directory exists. |
| Filesystem.MatchingPathsMembers | src/utils/filesystem.ts:24-48 | A path is a match exactly when the listing succeeded and some entry's whole name matches the final segment. That entry then gives either its existing Chrome cache sub-directories (a directory under a `Google/Chrome` pattern) or its own full path. |
| Filesystem.CollectMatchesAppend | src/utils/filesystem.ts:27-46 | The matches follow the directory-listing order: collecting over two runs of entries concatenates their matches. |
| Filesystem.ListedDirOfWildcardSegment | src/utils/filesystem.ts:16-17 | For `d/s`, where `s` has a `*` but is not only stars, the listed directory is `d` and the final segment is `s`. |
| Filesystem.ListedDirOfStarSegment | src/utils/filesystem.ts:16-17 | For `a/b/*`, the listed directory is the grandparent `a`, not `a/b`. |
| Filesystem.MatchingPathsOfStarSegment | src/utils/filesystem.ts:16-42 | `a/b/*` (outside Chrome) matches exactly `a/name` for the entries of `a` that have no line terminator, not the entries of `a/b`. |
| Filesystem.DuBytes | src/utils/filesystem.ts:78-79 | The `du` figure is converted to bytes with NaN mapped to 0, so it is always a multiple of 1024. |
| Filesystem.DuReportBytes | src/utils/filesystem.ts:74-79 | `du` output `<kilobytes>\t<path>` gives 1024 times the kilobytes. |
| Filesystem.DuFallbackIsZero | src/utils/filesystem.ts:74 | The `echo "0"` fallback output gives 0. |
| Filesystem.DirectorySize | src/utils/filesystem.ts:62-83 | A missing path gives 0 and a file gives its byte size. A directory gives a multiple of 1024, and 0 when `du` gives no output. |
| Filesystem.DirectorySizeOfDuReport | src/utils/filesystem.ts:72-79 | A directory whose `du -sk` report is `<kilobytes>\t<path>` measures 1024 times the kilobytes. |
| Filesystem.DirectorySizeNonNegative | src/utils/filesystem.ts:78-79 | A `du` figure without a minus sign never gives a negative size. |
| OrderedMaps.PutLookup | src/utils/discovery.ts:40 | After `obj[k] = v`, `k` gives `v` and every other key gives what it gave before. |
| OrderedMaps.PutKeys | src/utils/discovery.ts:40 | Assigning an existing key keeps the key order; assigning a new key appends it. |
| OrderedMaps.PutAllLookup | src/utils/scanner.ts:20 | After a spread, a key gives its last value in the spread source if it has one, otherwise its old value. |
| OrderedMaps.PutAllKeys | src/utils/scanner.ts:20 | A spread keeps the old keys first, in order, and the key set is the union. |
| OrderedMaps.LastWithKeyDistinct | src/utils/scanner.ts:20 | In a map with distinct keys, the last value for a key is the value it looks up. |
| CatalogFacts.SudoCategories | src/constants/cache-categories.ts:126-143 | Exactly `systemTemp`, `simulator` and `systemLogs` need sudo. Each of them has a warning, and every path of theirs is absolute (starts with `/`, not `~/`). |
| CatalogFacts.NonSudoPathsUnderHome | src/constants/cache-categories.ts:7-125 | Every path of a category without sudo starts with `~/`. |
| CatalogFacts.GradleOnlyWarningWithoutSudo | src/constants/cache-categories.ts:108-113 | `gradle` is the only category without sudo that carries a warning. |
| CatalogFacts.WildcardDirectoryMatchesNothing | src/utils/filesystem.ts:16-29 | A home pattern `~/dirs/last`, with a `*` in `dirs` and a plain final segment `last`, matches nothing on any filesystem. |
| CatalogFacts.ChromePatternsResolveToNothing | src/constants/cache-categories.ts:13-24 | All four `chrome` patterns resolve to the empty list on every filesystem and every home directory. |
| CatalogFacts.CatalogKeys | src/constants/cache-categories.ts:6-158 | The table's keys, in declaration order. |
| CatalogFacts.CatalogKeysDistinct | src/constants/cache-categories.ts:6-158 | No key is declared twice. |
| CatalogFacts.CommandCategories | src/constants/cache-categories.ts:36-157 | Exactly `homebrew`, `npm` and `pnpm` have a command, and `npm` and `pnpm` are the only categories without paths. |
| Electron.GetElectronCachePaths | src/utils/electron.ts:33-44 | The loop returns `appPath/name` for exactly the existing children among `ELECTRON_CACHE_DIRS`, in that list's order, without duplicates, and at most 10 of them. |
| Electron.CachePathsFacts | src/utils/electron.ts:36-41 | The cache paths are exactly the existing `appPath/name` for the names in `ELECTRON_CACHE_DIRS`, with at most 10 of them and no duplicates. |
| Electron.ElectronAppIffCachePaths | src/utils/electron.ts:10-26 | For a directory, `isElectronApp` holds exactly when `getElectronCachePaths` is non-empty. |
| Discovery.SanitizeKey | src/utils/discovery.ts:38 | The key, `toLowerCase()` with everything outside `[a-z0-9]` removed, contains only `[a-z0-9]`. |
| Discovery.SanitizeKeyOfKey | src/utils/discovery.ts:38 | A name made only of `[a-z0-9]` is its own key. |
| Discovery.SanitizeKeyIdempotent | src/utils/discovery.ts:38 | Sanitising a key again changes nothing. |
| Discovery.SanitizeKeyCollision | src/utils/discovery.ts:38 | Different names can share a key: `A b` and `ab` both give `ab`. |
| Discovery.DiscoverElectronApps | src/utils/discovery.ts:13-56 | The loop over the Application Support entries returns `DiscoveredApps`. |
| Discovery.DiscoverEntry | src/utils/discovery.ts:24-48 | One entry assigns its sanitised key to its discovered category exactly when it qualifies, and otherwise leaves the map unchanged. |
| Discovery.DiscoveredAppsUnlisted | src/utils/discovery.ts:17-20 | A missing or unreadable Application Support directory gives an empty map. |
| Discovery.DiscoveriesMembers | src/utils/discovery.ts:24-50 | An entry is discovered exactly when it is a directory, is not already defined, is an Electron application, and has a non-empty list of cache paths. |
| Discovery.DiscoveredAppsEntries | src/utils/discovery.ts:24-48 | Keys are distinct. Every entry comes from a listed directory that is not already defined. Its key is the sanitised name (only `[a-z0-9]`). Its name is `⚡ ` plus the entry name. Its paths are non-empty, it has no sudo, no warning and no command, and it is marked auto-discovered. |
| Discovery.DiscoveredAppsComplete | src/utils/discovery.ts:24-48 | Every qualifying entry's key is present in the result. |
| Discovery.LastCollisionWins | src/utils/discovery.ts:40 | Among the qualifying entries, the last one with a given key supplies that key's value. |
| Discovery.DiscoveredAppsLastWins | src/utils/discovery.ts:40 | When no later qualifying entry has the same key, an entry's key maps to its own category: its name and its existing cache paths. |
| Discovery.HomeSubstringNeverDiscovered | src/utils/discovery.ts:29-33 | With the shipped table, a name that occurs in the home path occurs in an expanded catalog path, so it is already defined and never discovered. |
| SizeSort.SortResults | src/utils/scanner.ts:67 | The in-place insertion sort of the result array leaves exactly `SortBySizeDesc` of its old contents. |
| SizeSort.InsertInPlace | src/utils/scanner.ts:67 | One insertion step shifts the larger-size prefix and places the element, leaving the rest of the array untouched. |
| SizeSort.ShiftRight | src/utils/scanner.ts:67 | The shift moves each element of the sorted prefix that is smaller than the inserted one up by one slot, and stops at the first one that is at least as large, so equal sizes keep their order. |
| SizeSort.InsertAt | src/utils/scanner.ts:67 | Inserting into a sorted list at the first position after every element at least as large as the new one gives the same list as the stable `Insert`. |
| SizeSort.SortBySizeDescProperties | src/utils/scanner.ts:67 | The sort is a permutation, ordered from largest to smallest, and stable: the results of each size keep their relative order. |
| SizeSort.SortBySizeDescOfSorted | src/utils/scanner.ts:67 | Already sorted input is left as it is. |
| Scanner.ScanCaches | src/utils/scanner.ts:11-68 | The scan returns `ScanReport`: the sorted list of the entries emitted for the merged categories. |
| Scanner.MeasureCategory | src/utils/scanner.ts:25-50 | An auto-discovered category measures its stored paths. Any other category measures the matches of each pattern in turn. The total is the sum of the positive sizes, and the found paths are those with a positive size. |
| Scanner.MeasurePaths | src/utils/scanner.ts:30-36 | The measuring loop adds each positive size to the running total and appends that path. |
| Scanner.Found | src/utils/scanner.ts:30-36 | Every found path measures above zero, and there are no more found paths than candidates. |
| Scanner.ScanEntry | src/utils/scanner.ts:52-63 | A category is emitted exactly when its total is above zero or it has a non-empty command. It keeps its key, name, sudo flag, warning, command and auto-discovered flag. |
| Scanner.MergedCategoriesProperties | src/utils/scanner.ts:20 | In the merged map a discovered entry replaces the static one with the same key. Static keys keep their order at the front, and the key set is the union. |
| Scanner.TotalAppend | src/utils/scanner.ts:39-49 | Paths are not deduplicated: measuring two runs of paths adds their totals and concatenates their found paths. |
| Scanner.FoundCount | src/utils/scanner.ts:39-49 | A path produced `n` times is listed `n` times if it measures above zero, and otherwise not at all. |
| Scanner.TotalOfFound | src/utils/scanner.ts:25-50 | The total is the sum of the sizes of the found paths. It is positive exactly when some path was found. |
| Scanner.ScanEntryMeasures | src/utils/scanner.ts:25-63 | An emitted entry's size is the sum of its paths' sizes. Every listed path measures above zero, and its paths are exactly the candidates that measure above zero. |
| Scanner.ScanResultsMembers | src/utils/scanner.ts:24-64 | A result is emitted exactly when some merged category produces it. |
| Scanner.ScanReportOrder | src/utils/scanner.ts:67 | The report is a permutation of the emitted results, sorted from largest to smallest, with equal sizes in merge order. |
| Scanner.CommandOnlyCategoryReported | src/utils/scanner.ts:52-63 | A catalog category with no paths but a command, whose key no discovered application took, is always reported with size 0 and its command. |
| Scanner.PackageManagerCachesReported | src/constants/cache-categories.ts:144-157 | With the shipped table, `npm` and `pnpm` are always reported with size 0, no paths and a command, unless a discovered application took the key. |
| Cleaner.CleanCaches | src/utils/cleaner.ts:14-91 | The loop over the selected caches returns the counters and leaves the filesystem that `CleanReport` describes. |
| Cleaner.RemovePaths | src/utils/cleaner.ts:38-68 | The inner loop, with its `break` at the first failed removal, ends in the state `CleanPaths` describes. |
| Cleaner.RemoveTree | src/utils/cleaner.ts:43-61 | A recursive removal deletes the path and every path below it, and nothing outside its subtree. |
| Cleaner.Selected | src/utils/cleaner.ts:15 | A cache is selected exactly when its key is one of the selected keys. |
| Cleaner.SelectedAppend | src/utils/cleaner.ts:15 | The selection keeps the order of `caches`: it distributes over concatenation. |
| Cleaner.SelectedEverything | src/utils/cleaner.ts:15 | Selecting every key keeps every cache, in order. |
| Cleaner.UnknownKeyIgnored | src/utils/cleaner.ts:15 | A selected key that no cache has changes nothing. |
| Cleaner.CleanPathsAccounting | src/utils/cleaner.ts:38-68 | The path loop only removes paths, and `cleaned` is set exactly when some path was removed. `totalCleaned` grows by `k` times the entry's size for some `k` no larger than the number of paths, and `k > 0` exactly when something was removed. |
| Cleaner.CleanPathsNothingPresent | src/utils/cleaner.ts:39-40 | If none of the paths exists any more, the loop changes nothing. |
| Cleaner.CleanPathsAllRemoved | src/utils/cleaner.ts:39-66 | If all `k` paths exist, none is below an earlier one, and every removal succeeds, then `totalCleaned` grows by `k` times the size and every path is gone. |
| Cleaner.CleanPathsAppend | src/utils/cleaner.ts:47-60 | After a failed removal the remaining paths are not attempted. Without a failure the loop carries on with them from where it stands. |
| Cleaner.CommandEntryRunsOnlyCommand | src/utils/cleaner.ts:25-35 | For an entry with a command, the cleaner's own removal code removes nothing and `totalCleaned` is unchanged. The entry adds one to `successCount` or `failCount` according to the command's outcome. |
| Cleaner.HomebrewCleanedByCommandOnly | src/constants/cache-categories.ts:36-42 | `homebrew` lists a path, yet cleaning it only runs `brew cleanup`: the cleaner's own removal code removes nothing and exactly one counter goes up. |
| Cleaner.NothingToClean | src/utils/cleaner.ts:38-75 | A path entry none of whose paths exists changes no counter. |
| Cleaner.PathEntryCounters | src/utils/cleaner.ts:38-72 | For a path entry, success is counted exactly when something was removed. Each counter grows by at most one, and `totalCleaned` grows by a multiple of the size. |
| Cleaner.SuccessAndFailure | src/utils/cleaner.ts:38-72 | If the first path is removed and the second removal fails, the entry adds one success, one failure, and its whole size. |
| Cleaner.RemovalFollowsSudoFlag | src/utils/cleaner.ts:43-61 | Only the removal outcome for the entry's own sudo flag matters: `sudo rm -rf` when it is set, in-process removal otherwise. |
| Cleaner.CleanAllAppend | src/utils/cleaner.ts:20-82 | Entries are processed one after another whatever happened before: a run over `a + b` is the run over `b` started where `a` left off. |
| Cleaner.CleanAllMonotone | src/utils/cleaner.ts:16-82 | The three counters never decrease, and paths are only ever removed. Each entry adds at most one success and at most one failure. |

## Left out

- Spinners, colours, the summary box, the prompts, the entry points and
  `formatBytes` are terminal output or use floating point. src/utils/display.ts,
  src/utils/prompts.ts, src/index.ts and index.js are not part of this model.
- Real subprocesses and filesystem calls (`du -sk`, `sudo rm -rf`, the
  category commands, `fs.rmSync`, `existsSync`, `statSync`, `readdirSync`)
  are replaced by the abstract filesystem and by the oracles `commandOk`
  and `removeOk`. Symbolic links, permissions, shell quoting, and a removal
  that deletes only part of a tree are not modelled. The oracles are
  functions, so the same command or removal always has the same outcome.
- A command's own effect on the filesystem is not modelled. `brew cleanup`,
  `npm cache clean --force` and `pnpm store prune` delete cache files
  themselves, but the model only records whether the command succeeded.
  The filesystem facts about command entries (`Cleaner.CommandEntryRunsOnlyCommand`,
  `Cleaner.HomebrewCleanedByCommandOnly`) are about the cleaner's own
  removal code.
- Sizes are unbounded integers. In the program every size is a
  JavaScript number, that is an IEEE double: `parseInt(...) * 1024`, the
  sums `totalSize += size` and `totalCleaned += sizeBeforeClean`, and the
  comparison `b.size - a.size` agree with the model only below 2^53 bytes
  and for finite `du` figures (a figure of several hundred digits becomes
  `Infinity`).
- Exceptions: listing or sizing failures that the code catches become the
  unreadable-directory set and missing `du` output. Discovery's catch around
  the loop is modelled only for the listing itself. An exception thrown
  part-way through the loop, which returns the entries collected so far, is
  not modelled. Neither is the cleaner's outer `catch`, which has nothing
  in the modelled code that could throw.
- `path.join` normalisation (`..`, `.`, repeated slashes) is not modelled:
  `Join` inserts a single `/`, as it does for normalised inputs.
  `path.dirname` and `path.basename` follow node's posix rules.
- Regular-expression metacharacters other than `*` in a final segment,
  which the code does not escape, are read as literal characters.
- `toLowerCase` is modelled for ASCII letters and for the two non-ASCII
  characters whose lower case contains an ASCII letter (U+0130, U+212A).
  Other characters are passed through, which the key filter then removes.
  Key order is insertion order; JavaScript's ordering of integer-like
  object keys first is not modelled.
- `CatalogFacts.OnlyChromeHasWildcards` is not stated. That no pattern
  outside `chrome` contains a `*` holds of the table. Checking every
  character of the long literal paths is beyond what the solver does within
  the resource limit.
- `Scanner.PackageManagerCachesReported` requires that no discovered
  application took the key `npm` or `pnpm`. Without that condition the
  property does not hold, because discovered entries win the merge.
