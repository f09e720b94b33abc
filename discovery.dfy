/**
 * src/utils/discovery.ts: finding Electron applications under
 * `~/Library/Application Support` that the static catalog does not
 * already cover, and turning each into an auto-discovered category.
 */
module Discovery {

  import opened Wrappers
  import opened Paths
  import opened FsModel
  import opened Types
  import opened OrderedMaps
  import opened Catalog
  import opened Electron
  import opened ConcatMaps

  function AppSupportPath(home: string): string
  {
    Join(home, "Library/Application Support")
  }

  /** The application's name is a substring of some home-expanded path of
      the static catalog. */
  predicate AlreadyDefined(catalog: OrderedMap<CacheCategory>, name: string, home: string)
  {
    exists i, j :: 0 <= i < |catalog| && 0 <= j < |catalog[i].1.paths|
      && Contains(ExpandPath(catalog[i].1.paths[j], home), name)
  }

  predicate IsKeyChar(c: char)
  {
    'a' <= c <= 'z' || '0' <= c <= '9'
  }

  /** What `toLowerCase()` makes of one character, as far as it can matter
      to a key: ASCII capitals become small letters, and the two non-ASCII
      capitals whose lower case holds an ASCII letter (U+0130, lower-cased
      to `i` and a combining dot, and the Kelvin sign U+212A, lower-cased
      to `k`) become those letters; every other character is kept as it
      is, since it is either a key character already or is removed. */
  function LowerForKey(c: char): string
  {
    if 'A' <= c <= 'Z' then [(c as int + 32) as char]
    else if c == '\U{130}' then "i\U{307}"
    else if c == '\U{212A}' then "k"
    else [c]
  }

  /** `name.toLowerCase().replace(/[^a-z0-9]/g, '')`. */
  function SanitizeKey(name: string): (key: string)
    ensures forall i :: 0 <= i < |key| ==> IsKeyChar(key[i])
  {
    if name == [] then []
    else
      var lowered := LowerForKey(name[0]);
      KeepKeyChars(lowered) + SanitizeKey(name[1..])
  }

  function KeepKeyChars(s: string): (r: string)
    ensures forall i :: 0 <= i < |r| ==> IsKeyChar(r[i])
    ensures |r| <= |s|
  {
    if s == [] then [] else (if IsKeyChar(s[0]) then [s[0]] else []) + KeepKeyChars(s[1..])
  }

  /** A name made of key characters is its own key; in particular the key
      of a key is itself. */
  lemma {:induction false} SanitizeKeyOfKey(name: string)
    requires forall i :: 0 <= i < |name| ==> IsKeyChar(name[i])
    ensures SanitizeKey(name) == name
  {
    if name != [] {
      assert IsKeyChar(name[0]);
      assert KeepKeyChars(LowerForKey(name[0])) == [name[0]];
      SanitizeKeyOfKey(name[1..]);
    }
  }

  lemma SanitizeKeyIdempotent(name: string)
    ensures SanitizeKey(SanitizeKey(name)) == SanitizeKey(name)
  {
    SanitizeKeyOfKey(SanitizeKey(name));
  }

  /** Keys ignore ASCII case and drop punctuation and spaces, so different
      application names can share a key. */
  lemma SanitizeKeyCollision()
    ensures SanitizeKey("A b") == SanitizeKey("ab") == "ab"
  {
    assert SanitizeKey("b") == "b";
    assert SanitizeKey(" b") == "b";
    assert SanitizeKey("ab") == "ab";
  }

  /** The category made for a discovered application. */
  function DiscoveredCategory(name: string, cachePaths: seq<string>): CacheCategory
  {
    CacheCategory("⚡ " + name, cachePaths, false, None, None, true)
  }

  /** A listed entry becomes a category: it is a directory, the catalog does
      not already name it, and it holds cache sub-directories. */
  predicate Qualifies(fs: Fs, home: string, catalog: OrderedMap<CacheCategory>, name: string)
  {
    var appPath := Join(AppSupportPath(home), name);
    && IsDir(fs, appPath)
    && !AlreadyDefined(catalog, name, home)
    && IsElectronApp(fs, appPath)
    && ExistingChildren(fs, appPath, ElectronCacheDirs) != []
  }

  function DiscoveredEntry(fs: Fs, home: string, name: string): (string, CacheCategory)
  {
    (SanitizeKey(name), DiscoveredCategory(name, ExistingChildren(fs, Join(AppSupportPath(home), name), ElectronCacheDirs)))
  }

  /** The assignment the loop makes for the entry `name`, if any. */
  function DiscoveryOf(fs: Fs, home: string, catalog: OrderedMap<CacheCategory>, name: string): OrderedMap<CacheCategory>
  {
    if Qualifies(fs, home, catalog, name) then [DiscoveredEntry(fs, home, name)] else []
  }

  /** The assignments the loop makes, in listing order. */
  function Discoveries(fs: Fs, home: string, catalog: OrderedMap<CacheCategory>, names: seq<string>): OrderedMap<CacheCategory>
  {
    ConcatMap(name => DiscoveryOf(fs, home, catalog, name), names)
  }

  /** The object `discoverElectronApps()` returns. */
  function DiscoveredApps(fs: Fs, home: string, catalog: OrderedMap<CacheCategory>): OrderedMap<CacheCategory>
  {
    match Listing(fs, AppSupportPath(home))
    case None => []
    case Some(names) => PutAll([], Discoveries(fs, home, catalog, names))
  }

  method DiscoverElectronApps(fs: Fs, home: string, catalog: OrderedMap<CacheCategory>) returns (electronApps: OrderedMap<CacheCategory>)
    ensures electronApps == DiscoveredApps(fs, home, catalog)
  {
    var appSupportPath := AppSupportPath(home);
    electronApps := [];
    var listing := Listing(fs, appSupportPath);
    if listing.None? {
      return;
    }
    var entries := listing.value;
    var i := 0;
    while i < |entries|
      invariant 0 <= i <= |entries|
      invariant electronApps == PutAll([], Discoveries(fs, home, catalog, entries[..i]))
    {
      electronApps := DiscoverEntry(fs, home, catalog, entries[i], electronApps);
      DiscoveriesStep(fs, home, catalog, entries, i);
      i := i + 1;
    }
    assert entries[..i] == entries;
  }

  /** The body of the loop over the Application Support entries: one entry
      is added to `electronApps` under its sanitised key when it qualifies. */
  method DiscoverEntry(fs: Fs, home: string, catalog: OrderedMap<CacheCategory>, name: string,
    electronApps0: OrderedMap<CacheCategory>) returns (electronApps: OrderedMap<CacheCategory>)
    ensures electronApps == if Qualifies(fs, home, catalog, name)
      then Put(electronApps0, SanitizeKey(name), DiscoveredEntry(fs, home, name).1) else electronApps0
  {
    electronApps := electronApps0;
    var appPath := Join(AppSupportPath(home), name);
    if IsDir(fs, appPath) {
      var alreadyDefined := AlreadyDefined(catalog, name, home);
      if !alreadyDefined && IsElectronApp(fs, appPath) {
        var cachePaths := GetElectronCachePaths(fs, appPath);
        if |cachePaths| > 0 {
          var key := SanitizeKey(name);
          electronApps := Put(electronApps, key, DiscoveredCategory(name, cachePaths));
        }
      }
    }
  }

  /** One more listed name adds its discovery after the earlier ones when
      it qualifies, and nothing otherwise. */
  lemma DiscoveriesStep(fs: Fs, home: string, catalog: OrderedMap<CacheCategory>, entries: seq<string>, i: nat)
    requires i < |entries|
    ensures PutAll([], Discoveries(fs, home, catalog, entries[..i + 1]))
         == if Qualifies(fs, home, catalog, entries[i])
            then Put(PutAll([], Discoveries(fs, home, catalog, entries[..i])), SanitizeKey(entries[i]), DiscoveredEntry(fs, home, entries[i]).1)
            else PutAll([], Discoveries(fs, home, catalog, entries[..i]))
  {
    ConcatMapStep(name => DiscoveryOf(fs, home, catalog, name), entries, i);
    var es := Discoveries(fs, home, catalog, entries[..i]);
    if Qualifies(fs, home, catalog, entries[i]) {
      PutAllSnoc([], es, DiscoveredEntry(fs, home, entries[i]));
    } else {
      assert es + [] == es;
    }
  }

  /** Without a listable Application Support directory nothing is found. */
  lemma DiscoveredAppsUnlisted(fs: Fs, home: string, catalog: OrderedMap<CacheCategory>)
    requires Listing(fs, AppSupportPath(home)).None?
    ensures DiscoveredApps(fs, home, catalog) == []
  {
  }

  /** `e` is what some qualifying name among `names` is turned into. */
  predicate DiscoveredFrom(fs: Fs, home: string, catalog: OrderedMap<CacheCategory>, names: seq<string>, e: (string, CacheCategory))
  {
    exists i :: 0 <= i < |names| && Qualifies(fs, home, catalog, names[i]) && e == DiscoveredEntry(fs, home, names[i])
  }

  lemma DiscoveriesMembers(fs: Fs, home: string, catalog: OrderedMap<CacheCategory>, names: seq<string>, e: (string, CacheCategory))
    ensures e in Discoveries(fs, home, catalog, names) <==> DiscoveredFrom(fs, home, catalog, names, e)
  {
    ConcatMapMembers(name => DiscoveryOf(fs, home, catalog, name), names, e);
  }

  /** Every discovered entry comes from a listed directory that the catalog
      does not name and that holds cache sub-directories; its key is the
      sanitised directory name and its category is an auto-discovered one
      without sudo, warning or command, over a non-empty path list. Keys
      are distinct. */
  lemma DiscoveredAppsEntries(fs: Fs, home: string, catalog: OrderedMap<CacheCategory>)
    ensures DistinctKeys(DiscoveredApps(fs, home, catalog))
    ensures forall k :: 0 <= k < |DiscoveredApps(fs, home, catalog)| ==>
      var (key, category) := DiscoveredApps(fs, home, catalog)[k];
      && Listing(fs, AppSupportPath(home)).Some?
      && (exists i :: 0 <= i < |Listing(fs, AppSupportPath(home)).value|
           && var name := Listing(fs, AppSupportPath(home)).value[i];
              && IsDir(fs, Join(AppSupportPath(home), name))
              && !AlreadyDefined(catalog, name, home)
              && key == SanitizeKey(name)
              && category.name == "⚡ " + name)
      && (forall c :: 0 <= c < |key| ==> IsKeyChar(key[c]))
      && category.paths != []
      && !category.requiresSudo && category.warning.None? && category.command.None?
      && category.isAutoDiscovered
  {
    var apps := DiscoveredApps(fs, home, catalog);
    match Listing(fs, AppSupportPath(home))
    case None =>
    case Some(names) =>
      var es := Discoveries(fs, home, catalog, names);
      PutAllDistinct([], es);
      forall k | 0 <= k < |apps|
        ensures var (key, category) := apps[k];
          && (exists i :: 0 <= i < |names|
               && var name := names[i];
                  && IsDir(fs, Join(AppSupportPath(home), name))
                  && !AlreadyDefined(catalog, name, home)
                  && key == SanitizeKey(name)
                  && category.name == "⚡ " + name)
          && (forall c :: 0 <= c < |key| ==> IsKeyChar(key[c]))
          && category.paths != []
          && !category.requiresSudo && category.warning.None? && category.command.None?
          && category.isAutoDiscovered
      {
        LookupOfEntry(apps, k);
        PutAllLookup([], es, apps[k].0);
        LastWithKeyIn(es, apps[k].0);
        var j :| 0 <= j < |es| && es[j] == (apps[k].0, LastWithKey(es, apps[k].0).value)
          && forall j' :: j < j' < |es| ==> es[j'].0 != apps[k].0;
        DiscoveriesMembers(fs, home, catalog, names, es[j]);
      }
  }

  /** Every listed directory that qualifies gets an entry under its key. */
  lemma DiscoveredAppsComplete(fs: Fs, home: string, catalog: OrderedMap<CacheCategory>, names: seq<string>, i: nat)
    requires Listing(fs, AppSupportPath(home)) == Some(names)
    requires i < |names| && Qualifies(fs, home, catalog, names[i])
    ensures Lookup(DiscoveredApps(fs, home, catalog), SanitizeKey(names[i])).Some?
  {
    var es := Discoveries(fs, home, catalog, names);
    DiscoveriesMembers(fs, home, catalog, names, DiscoveredEntry(fs, home, names[i]));
    LastWithKeyIn(es, SanitizeKey(names[i]));
    PutAllLookup([], es, SanitizeKey(names[i]));
  }

  /** When several listed directories share a key, the category of the LAST
      of them is the one kept. */
  lemma LastCollisionWins(fs: Fs, home: string, catalog: OrderedMap<CacheCategory>, names: seq<string>, i: nat)
    requires i < |names| && Qualifies(fs, home, catalog, names[i])
    requires forall j :: i < j < |names| && Qualifies(fs, home, catalog, names[j]) ==> SanitizeKey(names[j]) != SanitizeKey(names[i])
    ensures LastWithKey(Discoveries(fs, home, catalog, names), SanitizeKey(names[i])) == Some(DiscoveredEntry(fs, home, names[i]).1)
  {
    var f := name => DiscoveryOf(fs, home, catalog, name);
    forall j, x | i < j < |names| && x in f(names[j])
      ensures x.0 != SanitizeKey(names[i])
    {
    }
    LastOfConcatMap(f, names, i, DiscoveredEntry(fs, home, names[i]));
  }

  lemma DiscoveredAppsLastWins(fs: Fs, home: string, catalog: OrderedMap<CacheCategory>, names: seq<string>, i: nat)
    requires Listing(fs, AppSupportPath(home)) == Some(names)
    requires i < |names| && Qualifies(fs, home, catalog, names[i])
    requires forall j :: i < j < |names| && Qualifies(fs, home, catalog, names[j]) ==> SanitizeKey(names[j]) != SanitizeKey(names[i])
    ensures Lookup(DiscoveredApps(fs, home, catalog), SanitizeKey(names[i]))
         == Some(DiscoveredCategory(names[i], ExistingChildren(fs, Join(AppSupportPath(home), names[i]), ElectronCacheDirs)))
  {
    LastCollisionWins(fs, home, catalog, names, i);
    PutAllLookup([], Discoveries(fs, home, catalog, names), SanitizeKey(names[i]));
  }

  lemma ContainsTransitive(a: string, b: string, c: string)
    requires Contains(a, b) && Contains(b, c)
    ensures Contains(a, c)
  {
    var i :| 0 <= i <= |a| - |b| && OccursAt(a, b, i);
    var j :| 0 <= j <= |b| - |c| && OccursAt(b, c, j);
    assert a[i..i + |b|] == b;
    forall k | 0 <= k < |c|
      ensures a[i + j..i + j + |c|][k] == c[k]
    {
      assert a[i + j + k] == a[i..i + |b|][j + k] == b[j + k] == b[j..j + |c|][k];
    }
    assert a[i + j..i + j + |c|] == c;
    assert OccursAt(a, c, i + j);
  }

  /** Because every `~/` path of the catalog expands to a path starting with
      the home directory, no application whose name is part of the home
      directory's path is ever discovered. */
  lemma HomeSubstringNeverDiscovered(fs: Fs, home: string, name: string)
    requires Contains(home, name)
    ensures AlreadyDefined(CacheCategories, name, home)
    ensures !Qualifies(fs, home, CacheCategories, name)
  {
    var yarn := CacheCategories[0].1.paths[0];
    assert yarn == Home("Library/Caches/Yarn/v6");
    var expanded := ExpandPath(yarn, home);
    assert OccursAt(expanded, home, 0);
    ContainsTransitive(expanded, home, name);
    DefinedBy(CacheCategories, name, home, 0, 0);
  }

  lemma DefinedBy(catalog: OrderedMap<CacheCategory>, name: string, home: string, i: nat, j: nat)
    requires i < |catalog| && j < |catalog[i].1.paths|
    requires Contains(ExpandPath(catalog[i].1.paths[j], home), name)
    ensures AlreadyDefined(catalog, name, home)
  {
  }
}
