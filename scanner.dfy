/**
 * src/utils/scanner.ts: `scanCaches()` merges the static catalog with the
 * discovered Electron applications, measures every category, keeps the
 * ones with something to clean, and orders them from largest to smallest.
 * The table of static categories is a parameter (the program passes
 * `CACHE_CATEGORIES`); so are the filesystem and the home directory.
 */
module Scanner {

  import opened Wrappers
  import opened FsModel
  import opened Types
  import opened OrderedMaps
  import opened Catalog
  import opened CatalogFacts
  import opened Filesystem
  import opened Discovery
  import opened SizeSort

  /** `{ ...CACHE_CATEGORIES, ...discoveredElectronApps }`. */
  function MergedCategories(catalog: OrderedMap<CacheCategory>, discovered: OrderedMap<CacheCategory>): OrderedMap<CacheCategory>
  {
    PutAll(catalog, discovered)
  }

  /** Every pattern's matches in turn, without removing repeats. */
  function ResolvePatterns(fs: Fs, home: string, patterns: seq<string>): seq<string>
  {
    if patterns == [] then []
    else ResolvePatterns(fs, home, patterns[..|patterns| - 1]) + MatchingPaths(fs, home, patterns[|patterns| - 1])
  }

  /** The paths a category measures: its stored paths when it was
      discovered, the matches of its patterns otherwise. */
  function CandidatePaths(fs: Fs, home: string, category: CacheCategory): seq<string>
  {
    if category.isAutoDiscovered then category.paths else ResolvePatterns(fs, home, category.paths)
  }

  /** The paths of `ps` that measure above zero, in order. */
  function Found(fs: Fs, ps: seq<string>): (found: seq<string>)
    ensures forall i :: 0 <= i < |found| ==> DirectorySize(fs, found[i]) > 0
    ensures |found| <= |ps|
  {
    if ps == [] then []
    else
      var last := ps[|ps| - 1];
      Found(fs, ps[..|ps| - 1]) + (if DirectorySize(fs, last) > 0 then [last] else [])
  }

  /** What `totalSize` adds up: the sizes above zero. */
  function Total(fs: Fs, ps: seq<string>): nat
  {
    if ps == [] then 0
    else
      var size := DirectorySize(fs, ps[|ps| - 1]);
      Total(fs, ps[..|ps| - 1]) + (if size > 0 then size else 0)
  }

  /** The plain sum of the sizes of `ps`. */
  function SumSizes(fs: Fs, ps: seq<string>): int
  {
    if ps == [] then 0 else SumSizes(fs, ps[..|ps| - 1]) + DirectorySize(fs, ps[|ps| - 1])
  }

  /** The result pushed for one category, if any. */
  function ScanEntry(fs: Fs, home: string, key: string, category: CacheCategory): (r: Option<CacheResult>)
    ensures r.Some? <==> Total(fs, CandidatePaths(fs, home, category)) > 0 || HasCommand(category.command)
    ensures r.Some? ==>
      && r.value.key == key && r.value.name == category.name
      && r.value.requiresSudo == category.requiresSudo && r.value.warning == category.warning
      && r.value.command == category.command && r.value.isAutoDiscovered == category.isAutoDiscovered
  {
    var paths := CandidatePaths(fs, home, category);
    var totalSize := Total(fs, paths);
    if totalSize > 0 || HasCommand(category.command) then
      Some(CacheResult(key, category.name, totalSize, Found(fs, paths), category.requiresSudo,
        category.warning, category.command, category.isAutoDiscovered))
    else None
  }

  /** The results in the order of the merged categories, before sorting. */
  function ScanResults(fs: Fs, home: string, categories: OrderedMap<CacheCategory>): seq<CacheResult>
  {
    if categories == [] then []
    else
      var (key, category) := categories[|categories| - 1];
      var entry := ScanEntry(fs, home, key, category);
      ScanResults(fs, home, categories[..|categories| - 1]) + (if entry.Some? then [entry.value] else [])
  }

  /** What `scanCaches()` resolves to. */
  function ScanReport(fs: Fs, home: string, catalog: OrderedMap<CacheCategory>): seq<CacheResult>
  {
    SortBySizeDesc(ScanResults(fs, home, MergedCategories(catalog, DiscoveredApps(fs, home, catalog))))
  }

  method ScanCaches(fs: Fs, home: string, catalog: OrderedMap<CacheCategory>) returns (results: seq<CacheResult>)
    ensures results == ScanReport(fs, home, catalog)
  {
    var discoveredElectronApps := DiscoverElectronApps(fs, home, catalog);
    var allCategories := PutAll(catalog, discoveredElectronApps);
    var unsorted: seq<CacheResult> := [];
    var c := 0;
    while c < |allCategories|
      invariant 0 <= c <= |allCategories|
      invariant unsorted == ScanResults(fs, home, allCategories[..c])
    {
      var (key, category) := allCategories[c];
      var totalSize, foundPaths := MeasureCategory(fs, home, category);
      ghost var before := unsorted;
      if totalSize > 0 || HasCommand(category.command) {
        unsorted := unsorted + [CacheResult(key, category.name, totalSize, foundPaths, category.requiresSudo,
          category.warning, category.command, category.isAutoDiscovered)];
      }
      ScanResultsStep(fs, home, allCategories, c);
      c := c + 1;
    }
    assert allCategories[..c] == allCategories;
    var sorted := new CacheResult[|unsorted|](i requires 0 <= i < |unsorted| => unsorted[i]);
    assert sorted[..] == unsorted;
    SortResults(sorted);
    results := sorted[..];
  }

  /** The body of the loop over categories, up to the push: the total size
      and the found paths of one category. */
  method MeasureCategory(fs: Fs, home: string, category: CacheCategory) returns (totalSize: nat, foundPaths: seq<string>)
    ensures totalSize == Total(fs, CandidatePaths(fs, home, category))
    ensures foundPaths == Found(fs, CandidatePaths(fs, home, category))
  {
    if category.isAutoDiscovered {
      totalSize, foundPaths := MeasurePaths(fs, category.paths, 0, []);
    } else {
      totalSize, foundPaths := 0, [];
      var j := 0;
      while j < |category.paths|
        invariant 0 <= j <= |category.paths|
        invariant totalSize == Total(fs, ResolvePatterns(fs, home, category.paths[..j]))
        invariant foundPaths == Found(fs, ResolvePatterns(fs, home, category.paths[..j]))
      {
        var matchingPaths := GetMatchingPaths(fs, home, category.paths[j]);
        TotalAppend(fs, ResolvePatterns(fs, home, category.paths[..j]), matchingPaths);
        totalSize, foundPaths := MeasurePaths(fs, matchingPaths, totalSize, foundPaths);
        ResolveStep(fs, home, category.paths, j);
        j := j + 1;
      }
      assert category.paths[..j] == category.paths;
    }
  }

  /** The innermost loop: measures each path and adds the ones above zero
      to the running total and list. */
  method MeasurePaths(fs: Fs, ps: seq<string>, totalSize0: nat, foundPaths0: seq<string>)
    returns (totalSize: nat, foundPaths: seq<string>)
    ensures totalSize == totalSize0 + Total(fs, ps)
    ensures foundPaths == foundPaths0 + Found(fs, ps)
  {
    totalSize, foundPaths := totalSize0, foundPaths0;
    var j := 0;
    while j < |ps|
      invariant 0 <= j <= |ps|
      invariant totalSize == totalSize0 + Total(fs, ps[..j])
      invariant foundPaths == foundPaths0 + Found(fs, ps[..j])
    {
      var dirPath := ps[j];
      var size := DirectorySize(fs, dirPath);
      if size > 0 {
        totalSize := totalSize + size;
        foundPaths := foundPaths + [dirPath];
      }
      MeasureStep(fs, ps, j);
      j := j + 1;
    }
    assert ps[..j] == ps;
  }

  lemma MeasureStep(fs: Fs, ps: seq<string>, j: nat)
    requires j < |ps|
    ensures Total(fs, ps[..j + 1]) == Total(fs, ps[..j]) + (if DirectorySize(fs, ps[j]) > 0 then DirectorySize(fs, ps[j]) else 0)
    ensures Found(fs, ps[..j + 1]) == Found(fs, ps[..j]) + (if DirectorySize(fs, ps[j]) > 0 then [ps[j]] else [])
  {
    assert ps[..j + 1][..j] == ps[..j];
  }

  /** Measuring two lists one after the other adds up their totals and
      concatenates what they found: nothing is removed as a repeat. */
  lemma {:induction false} TotalAppend(fs: Fs, a: seq<string>, b: seq<string>)
    ensures Total(fs, a + b) == Total(fs, a) + Total(fs, b)
    ensures Found(fs, a + b) == Found(fs, a) + Found(fs, b)
    decreases |b|
  {
    if b == [] {
      assert a + b == a;
    } else {
      var init := b[..|b| - 1];
      TotalAppend(fs, a, init);
      assert (a + b)[..|a + b| - 1] == a + init;
    }
  }

  lemma ResolveStep(fs: Fs, home: string, patterns: seq<string>, j: nat)
    requires j < |patterns|
    ensures ResolvePatterns(fs, home, patterns[..j + 1])
         == ResolvePatterns(fs, home, patterns[..j]) + MatchingPaths(fs, home, patterns[j])
  {
    assert patterns[..j + 1][..j] == patterns[..j];
  }

  lemma ScanResultsStep(fs: Fs, home: string, categories: OrderedMap<CacheCategory>, c: nat)
    requires c < |categories|
    ensures var entry := ScanEntry(fs, home, categories[c].0, categories[c].1);
      ScanResults(fs, home, categories[..c + 1])
        == ScanResults(fs, home, categories[..c]) + (if entry.Some? then [entry.value] else [])
  {
    assert categories[..c + 1][..c] == categories[..c];
  }

  /** In the merged table a discovered category replaces a static one of
      the same key; the static keys keep their order at the front and only
      discovered keys follow them. */
  lemma MergedCategoriesProperties(catalog: OrderedMap<CacheCategory>, discovered: OrderedMap<CacheCategory>, k: string)
    requires DistinctKeys(discovered)
    ensures Lookup(MergedCategories(catalog, discovered), k)
         == if Lookup(discovered, k).Some? then Lookup(discovered, k) else Lookup(catalog, k)
    ensures |Keys(catalog)| <= |Keys(MergedCategories(catalog, discovered))|
    ensures Keys(MergedCategories(catalog, discovered))[..|Keys(catalog)|] == Keys(catalog)
    ensures k in Keys(MergedCategories(catalog, discovered)) <==> k in Keys(catalog) || k in Keys(discovered)
  {
    PutAllLookup(catalog, discovered, k);
    LastWithKeyDistinct(discovered, k);
    PutAllKeys(catalog, discovered);
    LookupSome(discovered, k);
  }

  /** A measured path is listed exactly as often as it is produced when it
      measures above zero, and never otherwise. */
  lemma {:induction false} FoundCount(fs: Fs, ps: seq<string>, x: string)
    ensures multiset(Found(fs, ps))[x] == if DirectorySize(fs, x) > 0 then multiset(ps)[x] else 0
    decreases |ps|
  {
    if ps != [] {
      var init := ps[..|ps| - 1];
      var last := ps[|ps| - 1];
      FoundCount(fs, init, x);
      assert ps == init + [last];
      assert multiset(ps) == multiset(init) + multiset{last};
      assert multiset(Found(fs, ps)) == multiset(Found(fs, init)) + multiset(if DirectorySize(fs, last) > 0 then [last] else []);
    }
  }

  /** The total is the sum of the sizes of the found paths, so it is above
      zero exactly when something was found. */
  lemma {:induction false} TotalOfFound(fs: Fs, ps: seq<string>)
    ensures Total(fs, ps) == SumSizes(fs, Found(fs, ps))
    ensures Total(fs, ps) > 0 <==> Found(fs, ps) != []
    decreases |ps|
  {
    if ps != [] {
      var init, last := ps[..|ps| - 1], ps[|ps| - 1];
      TotalOfFound(fs, init);
      var f := Found(fs, init);
      if DirectorySize(fs, last) > 0 {
        assert Found(fs, ps) == f + [last];
        assert (f + [last])[..|f|] == f;
        assert SumSizes(fs, f + [last]) == SumSizes(fs, f) + DirectorySize(fs, last);
      } else {
        assert Found(fs, ps) == f;
      }
    }
  }

  /** An emitted result's size is the sum of the measured sizes of its
      paths; every listed path measured above zero, and every candidate
      path that measured above zero is listed. */
  lemma ScanEntryMeasures(fs: Fs, home: string, key: string, category: CacheCategory, r: CacheResult)
    requires ScanEntry(fs, home, key, category) == Some(r)
    ensures r.size == SumSizes(fs, r.paths)
    ensures forall i :: 0 <= i < |r.paths| ==> DirectorySize(fs, r.paths[i]) > 0
    ensures forall p :: p in CandidatePaths(fs, home, category) && DirectorySize(fs, p) > 0 <==> p in r.paths
    ensures r.size > 0 <==> r.paths != []
  {
    var ps := CandidatePaths(fs, home, category);
    TotalOfFound(fs, ps);
    forall p ensures p in ps && DirectorySize(fs, p) > 0 <==> p in r.paths {
      FoundCount(fs, ps, p);
    }
  }

  /** `r` is what some entry of `categories` emits. */
  predicate EmittedBy(fs: Fs, home: string, categories: OrderedMap<CacheCategory>, r: CacheResult)
  {
    exists i :: 0 <= i < |categories| && ScanEntry(fs, home, categories[i].0, categories[i].1) == Some(r)
  }

  /** The results are exactly the entries of the merged categories that
      are emitted. */
  lemma {:induction false} ScanResultsMembers(fs: Fs, home: string, categories: OrderedMap<CacheCategory>, r: CacheResult)
    ensures r in ScanResults(fs, home, categories) <==> EmittedBy(fs, home, categories, r)
    decreases |categories|
  {
    if categories != [] {
      var init, last := categories[..|categories| - 1], categories[|categories| - 1];
      ScanResultsMembers(fs, home, init, r);
      assert categories == init + [last];
      if EmittedBy(fs, home, init, r) {
        var i :| 0 <= i < |init| && ScanEntry(fs, home, init[i].0, init[i].1) == Some(r);
        assert categories[i] == init[i];
      }
      if EmittedBy(fs, home, categories, r) {
        var i :| 0 <= i < |categories| && ScanEntry(fs, home, categories[i].0, categories[i].1) == Some(r);
        if i < |init| {
          assert init[i] == categories[i];
        }
      }
    }
  }

  /** The report holds the emitted results, each as often as emitted,
      from largest to smallest, with equal sizes in merge order. */
  lemma ScanReportOrder(fs: Fs, home: string, catalog: OrderedMap<CacheCategory>)
    ensures var unsorted := ScanResults(fs, home, MergedCategories(catalog, DiscoveredApps(fs, home, catalog)));
      && multiset(ScanReport(fs, home, catalog)) == multiset(unsorted)
      && SortedBySizeDesc(ScanReport(fs, home, catalog))
      && forall k: nat :: WithSize(ScanReport(fs, home, catalog), k) == WithSize(unsorted, k)
  {
    SortBySizeDescProperties(ScanResults(fs, home, MergedCategories(catalog, DiscoveredApps(fs, home, catalog))));
  }

  /** A category with no paths but a command is always reported, with size
      zero, unless a discovered application takes its key. */
  lemma CommandOnlyCategoryReported(fs: Fs, home: string, catalog: OrderedMap<CacheCategory>, key: string, category: CacheCategory)
    requires Lookup(catalog, key) == Some(category)
    requires category.paths == [] && HasCommand(category.command)
    requires key !in Keys(DiscoveredApps(fs, home, catalog))
    ensures exists r :: (r in ScanReport(fs, home, catalog)
      && r.key == key && r.size == 0 && r.paths == [] && r.command == category.command)
  {
    var discovered := DiscoveredApps(fs, home, catalog);
    var merged := MergedCategories(catalog, discovered);
    DiscoveredAppsEntries(fs, home, catalog);
    MergedCategoriesProperties(catalog, discovered, key);
    LookupSome(discovered, key);
    LookupSome(merged, key);
    var i :| 0 <= i < |merged| && merged[i] == (key, category);
    var r := CacheResult(key, category.name, 0, [], category.requiresSudo, category.warning,
      category.command, category.isAutoDiscovered);
    assert CandidatePaths(fs, home, category) == [];
    assert ScanEntry(fs, home, merged[i].0, merged[i].1) == Some(r);
    ScanResultsMembers(fs, home, merged, r);
    ScanReportOrder(fs, home, catalog);
    assert r in multiset(ScanResults(fs, home, merged));
  }

  /** With the shipped table, `npm` and `pnpm` are always reported, with no
      size and their command, unless a discovered application took the
      same key. */
  lemma PackageManagerCachesReported(fs: Fs, home: string, key: string)
    requires key == "npm" || key == "pnpm"
    requires key !in Keys(DiscoveredApps(fs, home, CacheCategories))
    ensures exists r :: (r in ScanReport(fs, home, CacheCategories)
      && r.key == key && r.size == 0 && r.paths == [] && r.command.Some?)
  {
    CatalogKeysDistinct();
    var i := if key == "npm" then 16 else 17;
    assert CacheCategories[i].0 == key;
    LookupOfEntry(CacheCategories, i);
    CommandOnlyCategoryReported(fs, home, CacheCategories, key, CacheCategories[i].1);
  }
}
