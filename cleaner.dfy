/**
 * src/utils/cleaner.ts: `cleanCaches()` walks the selected scan results in
 * order, runs an entry's command when it has one, and otherwise removes
 * its paths one by one, keeping the counters `totalCleaned`,
 * `successCount` and `failCount`.
 *
 * The filesystem at cleaning time is the set of paths that exist; removing
 * a path removes it and everything below it. Whether a command or a
 * removal succeeds is an oracle: `commandOk(command)` for `execSync`, and
 * `removeOk(path, sudo)` for `sudo rm -rf` (when `sudo` holds) or
 * `fs.rmSync`.
 */
module Cleaner {

  import opened Wrappers
  import opened Paths
  import opened Types
  import opened Catalog

  /** The counters and the filesystem between two entries. */
  datatype Tally = Tally(totalCleaned: nat, successCount: nat, failCount: nat, present: set<string>)

  /** The state of one entry's path loop: the filesystem, the running
      `totalCleaned`, the entry's `cleaned` flag, and whether the loop
      stopped at a failed removal. */
  datatype PathState = PathState(present: set<string>, totalCleaned: nat, cleaned: bool, failed: bool)

  /** Whether `q` is `p` itself or lies below it. */
  predicate Under(q: string, p: string)
  {
    q == p || StartsWith(q, p + "/")
  }

  /** The paths left after a recursive removal of `p`. */
  function RemoveTree(present: set<string>, p: string): (r: set<string>)
    ensures r <= present && p !in r
    ensures forall q :: Under(q, p) ==> q !in r
    ensures forall q :: q in present && !Under(q, p) ==> q in r
  {
    set q | q in present && !Under(q, p)
  }

  /** `caches.filter(c => selectedKeys.includes(c.key))`. */
  function Selected(caches: seq<CacheResult>, selectedKeys: seq<string>): (r: seq<CacheResult>)
    ensures |r| <= |caches|
    ensures forall c :: c in r <==> c in caches && c.key in selectedKeys
  {
    if caches == [] then []
    else if caches[0].key in selectedKeys then [caches[0]] + Selected(caches[1..], selectedKeys)
    else Selected(caches[1..], selectedKeys)
  }

  /** The path loop of one entry, from `st` on: a missing path is skipped,
      a removed one adds the entry's whole `size`, and the first failed
      removal ends the loop. */
  function CleanPaths(size: nat, sudo: bool, paths: seq<string>, st: PathState,
                      removeOk: (string, bool) -> bool): PathState
  {
    if paths == [] then st
    else if paths[0] !in st.present then CleanPaths(size, sudo, paths[1..], st, removeOk)
    else if !removeOk(paths[0], sudo) then st.(failed := true)
    else CleanPaths(size, sudo, paths[1..],
      PathState(RemoveTree(st.present, paths[0]), st.totalCleaned + size, true, st.failed), removeOk)
  }

  /** One iteration of the outer loop. */
  function CleanEntry(c: CacheResult, t: Tally, commandOk: string -> bool,
                      removeOk: (string, bool) -> bool): Tally
  {
    if HasCommand(c.command) then
      if commandOk(c.command.value) then t.(successCount := t.successCount + 1)
      else t.(failCount := t.failCount + 1)
    else
      var r := CleanPaths(c.size, c.requiresSudo, c.paths,
        PathState(t.present, t.totalCleaned, false, false), removeOk);
      Tally(r.totalCleaned,
        t.successCount + (if r.cleaned then 1 else 0),
        t.failCount + (if r.failed then 1 else 0),
        r.present)
  }

  /** The outer loop over `cs`, from `t` on. */
  function CleanAll(cs: seq<CacheResult>, t: Tally, commandOk: string -> bool,
                    removeOk: (string, bool) -> bool): Tally
  {
    if cs == [] then t
    else CleanAll(cs[1..], CleanEntry(cs[0], t, commandOk, removeOk), commandOk, removeOk)
  }

  /** The counters `cleanCaches` reports and the filesystem it leaves. */
  function CleanReport(caches: seq<CacheResult>, selectedKeys: seq<string>, present: set<string>,
                       commandOk: string -> bool, removeOk: (string, bool) -> bool): Tally
  {
    CleanAll(Selected(caches, selectedKeys), Tally(0, 0, 0, present), commandOk, removeOk)
  }

  /** `cleanCaches`, without the spinners and the summary box. */
  method CleanCaches(caches: seq<CacheResult>, selectedKeys: seq<string>, present: set<string>,
                     commandOk: string -> bool, removeOk: (string, bool) -> bool)
    returns (totalCleaned: nat, successCount: nat, failCount: nat, remaining: set<string>)
    ensures Tally(totalCleaned, successCount, failCount, remaining)
      == CleanReport(caches, selectedKeys, present, commandOk, removeOk)
  {
    var selectedCaches := Selected(caches, selectedKeys);
    totalCleaned, successCount, failCount := 0, 0, 0;
    remaining := present;
    var i := 0;
    while i < |selectedCaches|
      invariant 0 <= i <= |selectedCaches|
      invariant CleanAll(selectedCaches[i..], Tally(totalCleaned, successCount, failCount, remaining), commandOk, removeOk)
        == CleanReport(caches, selectedKeys, present, commandOk, removeOk)
    {
      var cache := selectedCaches[i];
      assert selectedCaches[i..] == [cache] + selectedCaches[i + 1..];
      if HasCommand(cache.command) {
        if commandOk(cache.command.value) {
          successCount := successCount + 1;
        } else {
          failCount := failCount + 1;
        }
        i := i + 1;
        continue;
      }
      var cleaned, failed;
      remaining, totalCleaned, cleaned, failed := RemovePaths(cache, remaining, totalCleaned, removeOk);
      if failed {
        failCount := failCount + 1;
      }
      if cleaned {
        successCount := successCount + 1;
      }
      i := i + 1;
    }
  }

  /** The inner loop over `cache.paths`: starts with `cleaned` false and
      reports whether it stopped at a failed removal. */
  method RemovePaths(cache: CacheResult, present: set<string>, totalCleaned0: nat, removeOk: (string, bool) -> bool)
    returns (remaining: set<string>, totalCleaned: nat, cleaned: bool, failed: bool)
    ensures PathState(remaining, totalCleaned, cleaned, failed)
      == CleanPaths(cache.size, cache.requiresSudo, cache.paths, PathState(present, totalCleaned0, false, false), removeOk)
  {
    remaining, totalCleaned, cleaned, failed := present, totalCleaned0, false, false;
    var j := 0;
    while j < |cache.paths|
      invariant 0 <= j <= |cache.paths|
      invariant !failed
      invariant CleanPaths(cache.size, cache.requiresSudo, cache.paths[j..], PathState(remaining, totalCleaned, cleaned, false), removeOk)
        == CleanPaths(cache.size, cache.requiresSudo, cache.paths, PathState(present, totalCleaned0, false, false), removeOk)
    {
      var dirPath := cache.paths[j];
      assert cache.paths[j..] == [dirPath] + cache.paths[j + 1..];
      if dirPath in remaining {
        var sizeBeforeClean := cache.size;
        if removeOk(dirPath, cache.requiresSudo) {
          remaining := RemoveTree(remaining, dirPath);
          cleaned := true;
        } else {
          failed := true;
          break;
        }
        if cleaned {
          totalCleaned := totalCleaned + sizeBeforeClean;
        }
      }
      j := j + 1;
    }
  }

  // Selection

  /** The filter keeps the order of `caches`: it distributes over
      concatenation. */
  lemma {:induction false} SelectedAppend(a: seq<CacheResult>, b: seq<CacheResult>, selectedKeys: seq<string>)
    ensures Selected(a + b, selectedKeys) == Selected(a, selectedKeys) + Selected(b, selectedKeys)
  {
    if a != [] {
      assert (a + b)[0] == a[0];
      assert (a + b)[1..] == a[1..] + b;
      SelectedAppend(a[1..], b, selectedKeys);
    } else {
      assert a + b == b;
    }
  }

  /** Selecting every key keeps every cache, in order. */
  lemma {:induction false} SelectedEverything(caches: seq<CacheResult>, selectedKeys: seq<string>)
    requires forall c :: c in caches ==> c.key in selectedKeys
    ensures Selected(caches, selectedKeys) == caches
  {
    if caches != [] {
      assert forall c :: c in caches[1..] ==> c in caches;
      SelectedEverything(caches[1..], selectedKeys);
    }
  }

  /** A selected key that no cache has is ignored. */
  lemma {:induction false} UnknownKeyIgnored(caches: seq<CacheResult>, selectedKeys: seq<string>, k: string)
    requires forall c :: c in caches ==> c.key != k
    ensures Selected(caches, selectedKeys + [k]) == Selected(caches, selectedKeys)
  {
    if caches != [] {
      assert forall c :: c in caches[1..] ==> c in caches;
      UnknownKeyIgnored(caches[1..], selectedKeys, k);
    }
  }

  // One entry's paths

  /** The path loop only removes paths; `cleaned` ends up set exactly when
      it was already set or some path was removed; `totalCleaned` grows by
      `size` once per removed path. */
  lemma {:induction false} CleanPathsAccounting(size: nat, sudo: bool, paths: seq<string>, st: PathState,
                                                removeOk: (string, bool) -> bool)
    ensures CleanPaths(size, sudo, paths, st, removeOk).present <= st.present
    ensures CleanPaths(size, sudo, paths, st, removeOk).cleaned
      <==> st.cleaned || CleanPaths(size, sudo, paths, st, removeOk).present < st.present
    ensures exists k: nat :: (k <= |paths|
      && CleanPaths(size, sudo, paths, st, removeOk).totalCleaned == st.totalCleaned + k * size
      && (k > 0 <==> CleanPaths(size, sudo, paths, st, removeOk).present < st.present))
  {
    var r := CleanPaths(size, sudo, paths, st, removeOk);
    if paths == [] {
      assert r.totalCleaned == st.totalCleaned + 0 * size;
    } else if paths[0] !in st.present {
      CleanPathsAccounting(size, sudo, paths[1..], st, removeOk);
      var k: nat :| k <= |paths[1..]| && r.totalCleaned == st.totalCleaned + k * size
        && (k > 0 <==> r.present < st.present);
      assert k <= |paths|;
    } else if !removeOk(paths[0], sudo) {
      assert r.totalCleaned == st.totalCleaned + 0 * size;
    } else {
      var next := PathState(RemoveTree(st.present, paths[0]), st.totalCleaned + size, true, st.failed);
      assert next.present < st.present by {
        assert paths[0] in st.present && paths[0] !in next.present;
      }
      CleanPathsAccounting(size, sudo, paths[1..], next, removeOk);
      var k: nat :| k <= |paths[1..]| && r.totalCleaned == next.totalCleaned + k * size;
      assert r.totalCleaned == st.totalCleaned + (k + 1) * size;
      assert k + 1 <= |paths|;
    }
  }

  /** When none of the paths exists, the path loop changes nothing. */
  lemma {:induction false} CleanPathsNothingPresent(size: nat, sudo: bool, paths: seq<string>, st: PathState,
                                                    removeOk: (string, bool) -> bool)
    requires forall p :: p in paths ==> p !in st.present
    ensures CleanPaths(size, sudo, paths, st, removeOk) == st
  {
    if paths != [] {
      assert forall p :: p in paths[1..] ==> p in paths;
      CleanPathsNothingPresent(size, sudo, paths[1..], st, removeOk);
    }
  }

  /** When every path exists, none lies below an earlier one, and every
      removal succeeds, `k` paths add `k` times the entry's size. */
  lemma {:induction false} CleanPathsAllRemoved(size: nat, sudo: bool, paths: seq<string>, st: PathState,
                                                removeOk: (string, bool) -> bool)
    requires forall i :: 0 <= i < |paths| ==> paths[i] in st.present && removeOk(paths[i], sudo)
    requires forall i, j :: 0 <= i < j < |paths| ==> !Under(paths[j], paths[i])
    ensures CleanPaths(size, sudo, paths, st, removeOk).totalCleaned == st.totalCleaned + |paths| * size
    ensures CleanPaths(size, sudo, paths, st, removeOk).cleaned == (st.cleaned || paths != [])
    ensures CleanPaths(size, sudo, paths, st, removeOk).failed == st.failed
    ensures forall i :: 0 <= i < |paths| ==> paths[i] !in CleanPaths(size, sudo, paths, st, removeOk).present
  {
    if paths != [] {
      var next := PathState(RemoveTree(st.present, paths[0]), st.totalCleaned + size, true, st.failed);
      var rest := paths[1..];
      forall i | 0 <= i < |rest|
        ensures rest[i] in next.present && removeOk(rest[i], sudo)
      {
        assert rest[i] == paths[i + 1];
        assert !Under(paths[i + 1], paths[0]);
      }
      forall i, j | 0 <= i < j < |rest|
        ensures !Under(rest[j], rest[i])
      {
        assert rest[i] == paths[i + 1] && rest[j] == paths[j + 1];
      }
      CleanPathsAllRemoved(size, sudo, rest, next, removeOk);
      var r := CleanPaths(size, sudo, rest, next, removeOk);
      CleanPathsAccounting(size, sudo, rest, next, removeOk);
      assert r.totalCleaned == st.totalCleaned + |paths| * size;
      forall i | 0 <= i < |paths|
        ensures paths[i] !in r.present
      {
        if i > 0 {
          assert paths[i] == rest[i - 1];
        }
      }
    }
  }

  /** Once a removal fails, the entry's remaining paths are not attempted;
      otherwise the loop goes on with them from where it stands. */
  lemma {:induction false} CleanPathsAppend(size: nat, sudo: bool, ps: seq<string>, qs: seq<string>, st: PathState,
                                            removeOk: (string, bool) -> bool)
    requires !st.failed
    ensures CleanPaths(size, sudo, ps, st, removeOk).failed
      ==> CleanPaths(size, sudo, ps + qs, st, removeOk) == CleanPaths(size, sudo, ps, st, removeOk)
    ensures !CleanPaths(size, sudo, ps, st, removeOk).failed
      ==> (CleanPaths(size, sudo, ps + qs, st, removeOk)
        == CleanPaths(size, sudo, qs, CleanPaths(size, sudo, ps, st, removeOk), removeOk))
  {
    if ps != [] {
      assert (ps + qs)[0] == ps[0];
      assert (ps + qs)[1..] == ps[1..] + qs;
      if ps[0] !in st.present {
        CleanPathsAppend(size, sudo, ps[1..], qs, st, removeOk);
      } else if removeOk(ps[0], sudo) {
        var next := PathState(RemoveTree(st.present, ps[0]), st.totalCleaned + size, true, st.failed);
        CleanPathsAppend(size, sudo, ps[1..], qs, next, removeOk);
      }
    } else {
      assert ps + qs == qs;
    }
  }

  // One entry

  /** An entry with a command runs only the command: its paths and the
      filesystem are untouched, `totalCleaned` is unchanged, and exactly
      one of the two counters goes up by one. */
  lemma CommandEntryRunsOnlyCommand(c: CacheResult, t: Tally, commandOk: string -> bool,
                                    removeOk: (string, bool) -> bool)
    requires HasCommand(c.command)
    ensures CleanEntry(c, t, commandOk, removeOk).present == t.present
    ensures CleanEntry(c, t, commandOk, removeOk).totalCleaned == t.totalCleaned
    ensures CleanEntry(c, t, commandOk, removeOk).successCount
      == t.successCount + (if commandOk(c.command.value) then 1 else 0)
    ensures CleanEntry(c, t, commandOk, removeOk).failCount
      == t.failCount + (if commandOk(c.command.value) then 0 else 1)
  {
  }

  /** `homebrew` lists a path and a command; cleaning its scan result only
      runs `brew cleanup`. */
  lemma HomebrewCleanedByCommandOnly(c: CacheResult, t: Tally, commandOk: string -> bool,
                                     removeOk: (string, bool) -> bool)
    requires c.command == Homebrew.command
    ensures Homebrew.paths != []
    ensures CleanEntry(c, t, commandOk, removeOk).present == t.present
    ensures CleanEntry(c, t, commandOk, removeOk).totalCleaned == t.totalCleaned
    ensures CleanEntry(c, t, commandOk, removeOk).successCount + CleanEntry(c, t, commandOk, removeOk).failCount
      == t.successCount + t.failCount + 1
  {
    CommandEntryRunsOnlyCommand(c, t, commandOk, removeOk);
  }

  /** A path entry none of whose paths exists changes no counter. */
  lemma NothingToClean(c: CacheResult, t: Tally, commandOk: string -> bool, removeOk: (string, bool) -> bool)
    requires !HasCommand(c.command)
    requires forall p :: p in c.paths ==> p !in t.present
    ensures CleanEntry(c, t, commandOk, removeOk) == t
  {
    CleanPathsNothingPresent(c.size, c.requiresSudo, c.paths, PathState(t.present, t.totalCleaned, false, false), removeOk);
  }

  /** A path entry is a success exactly when it removed something, and a
      failure at most once; each counter grows by at most one. */
  lemma PathEntryCounters(c: CacheResult, t: Tally, commandOk: string -> bool, removeOk: (string, bool) -> bool)
    requires !HasCommand(c.command)
    ensures CleanEntry(c, t, commandOk, removeOk).present <= t.present
    ensures CleanEntry(c, t, commandOk, removeOk).successCount == t.successCount + 1
      <==> CleanEntry(c, t, commandOk, removeOk).present < t.present
    ensures t.successCount <= CleanEntry(c, t, commandOk, removeOk).successCount <= t.successCount + 1
    ensures t.failCount <= CleanEntry(c, t, commandOk, removeOk).failCount <= t.failCount + 1
    ensures exists k: nat :: (k <= |c.paths|
      && CleanEntry(c, t, commandOk, removeOk).totalCleaned == t.totalCleaned + k * c.size)
    ensures t.totalCleaned <= CleanEntry(c, t, commandOk, removeOk).totalCleaned
  {
    CleanPathsAccounting(c.size, c.requiresSudo, c.paths, PathState(t.present, t.totalCleaned, false, false), removeOk);
  }

  /** An entry whose first path is removed and whose second path then
      fails counts both as a success and as a failure. */
  lemma SuccessAndFailure(c: CacheResult, t: Tally, commandOk: string -> bool, removeOk: (string, bool) -> bool)
    requires !HasCommand(c.command) && |c.paths| == 2
    requires c.paths[0] in t.present && c.paths[1] in t.present && !Under(c.paths[1], c.paths[0])
    requires removeOk(c.paths[0], c.requiresSudo) && !removeOk(c.paths[1], c.requiresSudo)
    ensures CleanEntry(c, t, commandOk, removeOk).successCount == t.successCount + 1
    ensures CleanEntry(c, t, commandOk, removeOk).failCount == t.failCount + 1
    ensures CleanEntry(c, t, commandOk, removeOk).totalCleaned == t.totalCleaned + c.size
  {
    var p := c.paths;
    var st := PathState(t.present, t.totalCleaned, false, false);
    var next := PathState(RemoveTree(t.present, p[0]), t.totalCleaned + c.size, true, false);
    assert p[1..][0] == p[1] && p[1] in next.present;
    assert CleanPaths(c.size, c.requiresSudo, p[1..], next, removeOk) == next.(failed := true);
    assert CleanPaths(c.size, c.requiresSudo, p, st, removeOk) == next.(failed := true);
  }

  /** Only the removal outcome for the entry's own sudo flag matters:
      `sudo rm -rf` when `requiresSudo` is set, `fs.rmSync` otherwise. */
  lemma RemovalFollowsSudoFlag(c: CacheResult, t: Tally, commandOk: string -> bool,
                               removeOk: (string, bool) -> bool, removeOk': (string, bool) -> bool)
    requires forall p :: p in c.paths ==> removeOk(p, c.requiresSudo) == removeOk'(p, c.requiresSudo)
    ensures CleanEntry(c, t, commandOk, removeOk) == CleanEntry(c, t, commandOk, removeOk')
  {
    if !HasCommand(c.command) {
      SameOutcomes(c.size, c.requiresSudo, c.paths, PathState(t.present, t.totalCleaned, false, false), removeOk, removeOk');
    }
  }

  lemma {:induction false} SameOutcomes(size: nat, sudo: bool, paths: seq<string>, st: PathState,
                                        removeOk: (string, bool) -> bool, removeOk': (string, bool) -> bool)
    requires forall p :: p in paths ==> removeOk(p, sudo) == removeOk'(p, sudo)
    ensures CleanPaths(size, sudo, paths, st, removeOk) == CleanPaths(size, sudo, paths, st, removeOk')
  {
    if paths != [] {
      assert forall p :: p in paths[1..] ==> p in paths;
      SameOutcomes(size, sudo, paths[1..], st, removeOk, removeOk');
      var next := PathState(RemoveTree(st.present, paths[0]), st.totalCleaned + size, true, st.failed);
      SameOutcomes(size, sudo, paths[1..], next, removeOk, removeOk');
    }
  }

  // The whole run

  /** Entries are processed one after another whatever happened before:
      the run over `a + b` is the run over `b` from where `a` left off. */
  lemma {:induction false} CleanAllAppend(a: seq<CacheResult>, b: seq<CacheResult>, t: Tally,
                                          commandOk: string -> bool, removeOk: (string, bool) -> bool)
    ensures CleanAll(a + b, t, commandOk, removeOk)
      == CleanAll(b, CleanAll(a, t, commandOk, removeOk), commandOk, removeOk)
  {
    if a != [] {
      assert (a + b)[0] == a[0];
      assert (a + b)[1..] == a[1..] + b;
      CleanAllAppend(a[1..], b, CleanEntry(a[0], t, commandOk, removeOk), commandOk, removeOk);
    } else {
      assert a + b == b;
    }
  }

  /** The three counters never decrease and paths are only ever removed;
      each entry adds at most one success and at most one failure. */
  lemma {:induction false} CleanAllMonotone(cs: seq<CacheResult>, t: Tally,
                                            commandOk: string -> bool, removeOk: (string, bool) -> bool)
    ensures t.totalCleaned <= CleanAll(cs, t, commandOk, removeOk).totalCleaned
    ensures t.successCount <= CleanAll(cs, t, commandOk, removeOk).successCount <= t.successCount + |cs|
    ensures t.failCount <= CleanAll(cs, t, commandOk, removeOk).failCount <= t.failCount + |cs|
    ensures CleanAll(cs, t, commandOk, removeOk).present <= t.present
  {
    if cs != [] {
      var c := cs[0];
      if HasCommand(c.command) {
        CommandEntryRunsOnlyCommand(c, t, commandOk, removeOk);
      } else {
        PathEntryCounters(c, t, commandOk, removeOk);
      }
      CleanAllMonotone(cs[1..], CleanEntry(c, t, commandOk, removeOk), commandOk, removeOk);
    }
  }
}
