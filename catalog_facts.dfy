/**
 * Consequences of the static table in src/constants/cache-categories.ts.
 */
module CatalogFacts {

  import opened Wrappers
  import opened Paths
  import opened FsModel
  import opened Types
  import opened OrderedMaps
  import opened Catalog
  import opened Filesystem

  /** Exactly `systemTemp`, `simulator` and `systemLogs` need sudo; each
      carries a warning and lists only absolute paths. */
  lemma SudoCategories()
    ensures forall i :: 0 <= i < |CacheCategories| ==>
      (CacheCategories[i].1.requiresSudo <==> CacheCategories[i].0 in ["systemTemp", "simulator", "systemLogs"])
    ensures forall i, j :: 0 <= i < |CacheCategories| && CacheCategories[i].1.requiresSudo && 0 <= j < |CacheCategories[i].1.paths| ==>
      CacheCategories[i].1.warning.Some? && CacheCategories[i].1.paths[j] != [] && CacheCategories[i].1.paths[j][0] == '/'
  {
  }

  /** Joining onto a path with a final segment keeps that segment last. */
  lemma JoinChild(a: string, dirs: string, last: string)
    requires dirs != ""
    ensures Join(a, dirs + "/" + last) == Join(a, dirs) + "/" + last
    ensures EndsWith(Join(a, dirs), dirs)
  {
  }

  /** A home pattern `~/dirs/last` whose `*` sits in `dirs` and whose final
      segment `last` is plain never matches anything. */
  lemma WildcardDirectoryMatchesNothing(fs: Fs, home: string, dirs: string, last: string)
    requires '*' in dirs && last != "" && '/' !in last && '*' !in last
    ensures MatchingPaths(fs, home, Home(dirs + "/" + last)) == []
  {
    var pattern := Home(dirs + "/" + last);
    JoinChild(home, dirs, last);
    var parent := Join(home, dirs);
    assert ExpandPath(pattern, home) == parent + "/" + last;
    BasenameOfChild(parent, last);
    var k :| 0 <= k < |dirs| && dirs[k] == '*';
    assert parent[|parent| - |dirs| + k] == '*';
    MatchingPathsStarNotInFinalSegment(fs, home, pattern);
  }

  /** Cutting `rest` at index `m` of a `/` gives the directory part and
      the final segment. */
  lemma CutAt(rest: string, k: nat, m: nat)
    requires k < m < |rest| && rest[k] == '*' && rest[m] == '/'
    ensures rest == rest[..m] + "/" + rest[m + 1..]
    ensures '*' in rest[..m]
  {
    assert rest == rest[..m] + [rest[m]] + rest[m + 1..];
    assert rest[..m][k] == '*';
  }

  /** A home pattern `~/rest` whose final segment `last` follows a `*`
      and a `/`. */
  lemma StarBeforeFinalSegment(fs: Fs, home: string, rest: string, last: string)
    requires last != "" && '/' !in last && '*' !in last
    requires EndsWith(rest, "*/" + last)
    ensures MatchingPaths(fs, home, Home(rest)) == []
  {
    var n := |last| + 2;
    assert rest[|rest| - n..] == "*/" + last;
    assert rest[|rest| - n] == '*' && rest[|rest| - n + 1] == '/';
    assert rest[|rest| - n + 2..] == last;
    CutAt(rest, |rest| - n, |rest| - n + 1);
    WildcardDirectoryMatchesNothing(fs, home, rest[..|rest| - n + 1], last);
  }

  /** The four `chrome` patterns put the `*` in the profile segment, not in
      the final one, so they resolve to nothing on every filesystem. */
  lemma ChromePatternsResolveToNothing(fs: Fs, home: string)
    ensures forall j :: 0 <= j < |Chrome.paths| ==> MatchingPaths(fs, home, Chrome.paths[j]) == []
  {
    forall j | 0 <= j < |Chrome.paths|
      ensures MatchingPaths(fs, home, Chrome.paths[j]) == []
    {
      if j == 0 {
        ChromeCachePattern(fs, home);
      } else if j == 1 {
        ChromeCodeCachePattern(fs, home);
      } else if j == 2 {
        ChromeWebStoragePattern(fs, home);
      } else {
        ChromeServiceWorkerPattern(fs, home);
      }
    }
  }

  lemma ChromeCachePattern(fs: Fs, home: string)
    ensures MatchingPaths(fs, home, Chrome.paths[0]) == []
  {
    var rest := "Library/Caches/Google/Chrome/*/Cache";
    assert Chrome.paths[0] == Home(rest);
    assert rest[|rest| - 7..] == "*/Cache";
    StarBeforeFinalSegment(fs, home, rest, "Cache");
  }

  lemma ChromeCodeCachePattern(fs: Fs, home: string)
    ensures MatchingPaths(fs, home, Chrome.paths[1]) == []
  {
    var rest := "Library/Caches/Google/Chrome/*/Code Cache";
    assert Chrome.paths[1] == Home(rest);
    assert rest[|rest| - 12..] == "*/Code Cache";
    StarBeforeFinalSegment(fs, home, rest, "Code Cache");
  }

  lemma ChromeWebStoragePattern(fs: Fs, home: string)
    ensures MatchingPaths(fs, home, Chrome.paths[2]) == []
  {
    var rest := "Library/Application Support/Google/Chrome/*/WebStorage";
    assert Chrome.paths[2] == Home(rest);
    assert rest[|rest| - 12..] == "*/WebStorage";
    StarBeforeFinalSegment(fs, home, rest, "WebStorage");
  }

  lemma ChromeServiceWorkerPattern(fs: Fs, home: string)
    ensures MatchingPaths(fs, home, Chrome.paths[3]) == []
  {
    var rest := "Library/Application Support/Google/Chrome/*/Service Worker";
    assert Chrome.paths[3] == Home(rest);
    assert rest[|rest| - 16..] == "*/Service Worker";
    StarBeforeFinalSegment(fs, home, rest, "Service Worker");
  }

  /** Every path of a category that does not need sudo is under the home
      directory. */
  lemma NonSudoPathsUnderHome()
    ensures forall i, j :: 0 <= i < |CacheCategories| && !CacheCategories[i].1.requiresSudo && 0 <= j < |CacheCategories[i].1.paths| ==>
      StartsWith(CacheCategories[i].1.paths[j], "~/")
  {
  }

  /** `gradle` is the only category without sudo that carries a warning. */
  lemma GradleOnlyWarningWithoutSudo()
    ensures forall i :: 0 <= i < |CacheCategories| ==>
      (!CacheCategories[i].1.requiresSudo && CacheCategories[i].1.warning.Some? <==> CacheCategories[i].0 == "gradle")
  {
  }

  /** The table's keys, in declaration order. */
  lemma CatalogKeys()
    ensures Keys(CacheCategories) == ["yarn", "chrome", "googleUpdater", "cocoapods", "homebrew", "vscode",
      "krisp", "warp", "teams", "xcode", "gradle", "userCache", "mediaAnalysis", "systemTemp",
      "simulator", "systemLogs", "npm", "pnpm"]
  {
  }

  /** No key is declared twice, so every entry is what its key looks up. */
  lemma CatalogKeysDistinct()
    ensures DistinctKeys(CacheCategories)
  {
  }

  /** Exactly `homebrew`, `npm` and `pnpm` carry a command; `npm` and
      `pnpm` are the only categories without paths. */
  lemma CommandCategories()
    ensures forall i :: 0 <= i < |CacheCategories| ==>
      (HasCommand(CacheCategories[i].1.command) <==> CacheCategories[i].0 in ["homebrew", "npm", "pnpm"])
    ensures forall i :: 0 <= i < |CacheCategories| ==>
      (CacheCategories[i].1.paths == [] <==> CacheCategories[i].0 in ["npm", "pnpm"])
  {
  }
}
