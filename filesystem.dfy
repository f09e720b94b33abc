/**
 * src/utils/filesystem.ts: resolving a catalog path pattern with at most
 * a `*` in its final segment (`getMatchingPaths`) and measuring a path
 * (`getDirectorySize`), over the abstract filesystem of FsModel.
 */
module Filesystem {

  import opened Wrappers
  import opened Paths
  import opened Glob
  import opened JsNumber
  import opened FsModel
  import opened ConcatMaps

  /** The sub-caches a matched Chrome profile directory is replaced by. */
  const ChromeCacheDirs: seq<string> := ["Cache", "Code Cache", "GPUCache", "WebStorage", "Service Worker"]

  /** The directory that is listed: the dirname of the pattern once every
      `*` has been deleted. */
  function ListedDir(expanded: string): string
  {
    Dirname(StripStars(expanded))
  }

  /** What one directory entry contributes to the matches. */
  function EntryMatches(fs: Fs, dir: string, base: string, chrome: bool, name: string): seq<string>
  {
    var fullPath := Join(dir, name);
    if '*' in base && Matches(base, name) then
      if IsDir(fs, fullPath) && chrome then ExistingChildren(fs, fullPath, ChromeCacheDirs) else [fullPath]
    else []
  }

  /** The matches of the entries `names`, in listing order. */
  function CollectMatches(fs: Fs, dir: string, base: string, chrome: bool, names: seq<string>): seq<string>
  {
    ConcatMap(name => EntryMatches(fs, dir, base, chrome, name), names)
  }

  /** The paths `getMatchingPaths(pattern)` returns. */
  function MatchingPaths(fs: Fs, home: string, pattern: string): seq<string>
  {
    var expanded := ExpandPath(pattern, home);
    if '*' in expanded then
      match Listing(fs, ListedDir(expanded))
      case None => []
      case Some(entries) =>
        CollectMatches(fs, ListedDir(expanded), Basename(expanded), Contains(expanded, "Google/Chrome"), entries)
    else [expanded]
  }

  method GetMatchingPaths(fs: Fs, home: string, pattern: string) returns (matches: seq<string>)
    ensures matches == MatchingPaths(fs, home, pattern)
  {
    var expandedPattern := ExpandPath(pattern, home);
    if '*' in expandedPattern {
      var dir := Dirname(StripStars(expandedPattern));
      var basePattern := Basename(expandedPattern);
      var chrome := Contains(expandedPattern, "Google/Chrome");
      var listing := Listing(fs, dir);
      if listing.None? {
        return [];
      }
      var entries := listing.value;
      matches := [];
      var i := 0;
      while i < |entries|
        invariant 0 <= i <= |entries|
        invariant matches == CollectMatches(fs, dir, basePattern, chrome, entries[..i])
      {
        matches := EntryPaths(fs, dir, basePattern, chrome, entries[i], matches);
        CollectMatchesStep(fs, dir, basePattern, chrome, entries, i);
        i := i + 1;
      }
      assert entries[..i] == entries;
      return;
    }
    matches := [expandedPattern];
  }

  /** The body of the loop over the directory entries: appends what the
      entry `name` contributes. */
  method EntryPaths(fs: Fs, dir: string, basePattern: string, chrome: bool, name: string, matches0: seq<string>)
    returns (matches: seq<string>)
    ensures matches == matches0 + EntryMatches(fs, dir, basePattern, chrome, name)
  {
    matches := matches0;
    var fullPath := Join(dir, name);
    if '*' in basePattern && Matches(basePattern, name) {
      if IsDir(fs, fullPath) && chrome {
        matches := ChromeSubPaths(fs, fullPath, matches);
      } else {
        matches := matches + [fullPath];
      }
    }
  }

  /** The inner loop over the Chrome cache sub-directories of a matched
      profile directory. */
  method ChromeSubPaths(fs: Fs, fullPath: string, matches0: seq<string>) returns (matches: seq<string>)
    ensures matches == matches0 + ExistingChildren(fs, fullPath, ChromeCacheDirs)
  {
    matches := matches0;
    var j := 0;
    while j < |ChromeCacheDirs|
      invariant 0 <= j <= |ChromeCacheDirs|
      invariant matches == matches0 + ExistingChildren(fs, fullPath, ChromeCacheDirs[..j])
    {
      var subPath := Join(fullPath, ChromeCacheDirs[j]);
      assert ChromeCacheDirs[..j + 1][..j] == ChromeCacheDirs[..j];
      if Exists(fs, subPath) {
        matches := matches + [subPath];
      }
      j := j + 1;
    }
    assert ChromeCacheDirs[..j] == ChromeCacheDirs;
  }

  lemma CollectMatchesStep(fs: Fs, dir: string, base: string, chrome: bool, entries: seq<string>, i: nat)
    requires i < |entries|
    ensures CollectMatches(fs, dir, base, chrome, entries[..i + 1])
         == CollectMatches(fs, dir, base, chrome, entries[..i]) + EntryMatches(fs, dir, base, chrome, entries[i])
  {
    ConcatMapStep(name => EntryMatches(fs, dir, base, chrome, name), entries, i);
  }

  /** A pattern without `*` resolves to itself, whether or not it exists. */
  lemma MatchingPathsStarFree(fs: Fs, home: string, pattern: string)
    requires '*' !in ExpandPath(pattern, home)
    ensures MatchingPaths(fs, home, pattern) == [ExpandPath(pattern, home)]
  {
  }

  /** A listed directory that is missing, not a directory or unreadable
      gives no match. */
  lemma MatchingPathsUnlisted(fs: Fs, home: string, pattern: string)
    requires '*' in ExpandPath(pattern, home)
    requires Listing(fs, ListedDir(ExpandPath(pattern, home))).None?
    ensures MatchingPaths(fs, home, pattern) == []
  {
  }

  lemma CollectWithoutStar(fs: Fs, dir: string, base: string, chrome: bool, names: seq<string>)
    requires '*' !in base
    ensures CollectMatches(fs, dir, base, chrome, names) == []
  {
    var matches := CollectMatches(fs, dir, base, chrome, names);
    if matches != [] {
      CollectMatchesMembers(fs, dir, base, chrome, names, matches[0]);
      assert false;
    }
  }

  /** A `*` outside the final segment gives no match at all, even when the
      listed directory exists: only the final segment is matched, and
      without a `*` it matches nothing. */
  lemma MatchingPathsStarNotInFinalSegment(fs: Fs, home: string, pattern: string)
    requires '*' in ExpandPath(pattern, home)
    requires '*' !in Basename(ExpandPath(pattern, home))
    ensures MatchingPaths(fs, home, pattern) == []
  {
    var expanded := ExpandPath(pattern, home);
    match Listing(fs, ListedDir(expanded))
    case None =>
    case Some(entries) =>
      CollectWithoutStar(fs, ListedDir(expanded), Basename(expanded), Contains(expanded, "Google/Chrome"), entries);
  }

  /** Matches keep the listing order: the matches of a listing are those of
      its first part followed by those of the rest. */
  lemma CollectMatchesAppend(fs: Fs, dir: string, base: string, chrome: bool, a: seq<string>, b: seq<string>)
    ensures CollectMatches(fs, dir, base, chrome, a + b)
         == CollectMatches(fs, dir, base, chrome, a) + CollectMatches(fs, dir, base, chrome, b)
  {
    ConcatMapAppend(name => EntryMatches(fs, dir, base, chrome, name), a, b);
  }

  /** A path is matched exactly when some entry contributes it. */
  lemma CollectMatchesMembers(fs: Fs, dir: string, base: string, chrome: bool, names: seq<string>, x: string)
    ensures x in CollectMatches(fs, dir, base, chrome, names) <==>
      exists i :: 0 <= i < |names| && x in EntryMatches(fs, dir, base, chrome, names[i])
  {
    ConcatMapMembers(name => EntryMatches(fs, dir, base, chrome, name), names, x);
  }

  /** For a wildcard pattern, `x` is returned exactly when some listed entry
      of the listed directory matches the whole final segment and `x` is
      that entry's path, or, for a directory under a `Google/Chrome`
      pattern, one of its existing sub-caches. */
  lemma MatchingPathsMembers(fs: Fs, home: string, pattern: string, x: string)
    requires '*' in ExpandPath(pattern, home)
    ensures var expanded := ExpandPath(pattern, home);
            var dir := ListedDir(expanded);
            var base := Basename(expanded);
            x in MatchingPaths(fs, home, pattern) <==>
              && Listing(fs, dir).Some?
              && exists i :: 0 <= i < |Listing(fs, dir).value|
                   && var name := Listing(fs, dir).value[i];
                      && '*' in base
                      && Matches(base, name)
                      && if IsDir(fs, Join(dir, name)) && Contains(expanded, "Google/Chrome")
                         then x in ExistingChildren(fs, Join(dir, name), ChromeCacheDirs)
                         else x == Join(dir, name)
  {
    var expanded := ExpandPath(pattern, home);
    var dir := ListedDir(expanded);
    match Listing(fs, dir)
    case None =>
    case Some(entries) =>
      CollectMatchesMembers(fs, dir, Basename(expanded), Contains(expanded, "Google/Chrome"), entries, x);
  }

  /** For a final segment holding a `*` and some other character, below a
      star-free directory `d`, the listed directory is `d` and the matched
      segment is the final one. */
  lemma ListedDirOfWildcardSegment(d: string, s: string)
    requires d != "" && d != "/" && '*' !in d
    requires '/' !in s && '*' in s && StripStars(s) != ""
    ensures ListedDir(d + "/" + s) == d
    ensures Basename(d + "/" + s) == s
  {
    StripStarsAppend(d + "/", s);
    StripStarsAppend(d, "/");
    StripStarsStarFree(d);
    assert StripStars("/") == "/";
    assert forall c :: c in StripStars(s) ==> c in s by {
      StripStarsSubset(s);
    }
    DirnameOfChild(d, StripStars(s));
    BasenameOfChild(d, s);
  }

  lemma {:induction false} StripStarsSubset(s: string)
    ensures forall c :: c in StripStars(s) ==> c in s
  {
    if s != [] {
      StripStarsSubset(s[1..]);
    }
  }

  /** A final segment made only of stars lists the GRANDPARENT: deleting
      the stars leaves a trailing separator, which `dirname` skips. */
  lemma ListedDirOfStarSegment(a: string, b: string, stars: string)
    requires a != "" && a != "/" && '*' !in a
    requires b != "" && '/' !in b && '*' !in b
    requires stars != "" && AllStars(stars)
    ensures ListedDir(a + "/" + b + "/" + stars) == a
    ensures Basename(a + "/" + b + "/" + stars) == stars
  {
    var e := a + "/" + b + "/" + stars;
    StripStarsAppend(a + "/" + b + "/", stars);
    StripStarsAllStars(stars);
    StripStarsStarFree(a + "/" + b + "/");
    assert StripStars(e) == a + "/" + b + "/";
    DirnameOfChildWithSlash(a, b);
    assert '/' !in stars;
    assert e == (a + "/" + b) + "/" + stars;
    BasenameOfChild(a + "/" + b, stars);
  }

  /** Consequently such a pattern returns every listed entry of the
      grandparent whose name has no line terminator (outside Chrome). */
  lemma MatchingPathsOfStarSegment(fs: Fs, home: string, pattern: string, a: string, b: string, stars: string, x: string)
    requires ExpandPath(pattern, home) == a + "/" + b + "/" + stars
    requires a != "" && a != "/" && '*' !in a
    requires b != "" && '/' !in b && '*' !in b
    requires stars != "" && AllStars(stars)
    requires !Contains(a + "/" + b + "/" + stars, "Google/Chrome")
    ensures x in MatchingPaths(fs, home, pattern) <==>
      && Listing(fs, a).Some?
      && exists i :: 0 <= i < |Listing(fs, a).value|
           && NoLineTerminator(Listing(fs, a).value[i])
           && x == Join(a, Listing(fs, a).value[i])
  {
    var e := a + "/" + b + "/" + stars;
    ListedDirOfStarSegment(a, b, stars);
    assert stars[0] in stars;
    MatchingPathsMembers(fs, home, pattern, x);
    match Listing(fs, a)
    case None =>
    case Some(entries) =>
      forall i | 0 <= i < |entries|
        ensures Matches(stars, entries[i]) <==> NoLineTerminator(entries[i])
      {
        MatchesAllStars(stars, entries[i]);
      }
  }

  /** The part of `du`'s output before the first tab (`split('\t')[0]`). */
  function BeforeTab(s: string): (r: string)
    ensures '\t' !in r
    ensures StartsWithPrefix(s, r)
  {
    if s == [] || s[0] == '\t' then [] else [s[0]] + BeforeTab(s[1..])
  }

  /** `parseInt(...) * 1024 || 0`: the kilobyte figure in bytes, with `NaN`
      (and zero) giving 0. */
  function DuBytes(output: string): (r: int)
    ensures r % 1024 == 0
  {
    match ParseInt(BeforeTab(output))
    case None => 0
    case Some(kilobytes) => KilobytesInBytes(kilobytes); kilobytes * 1024
  }

  /** A figure in kibibytes, in bytes, is a whole number of kibibytes. */
  lemma KilobytesInBytes(k: int)
    ensures (k * 1024) % 1024 == 0
  {
  }

  /** `getDirectorySize(p)`. */
  function DirectorySize(fs: Fs, p: string): (r: int)
    ensures !Exists(fs, p) ==> r == 0
    ensures Exists(fs, p) && !IsDir(fs, p) ==> r == fs.nodes[p].size
    ensures IsDir(fs, p) ==> r % 1024 == 0
    ensures IsDir(fs, p) && p !in fs.du ==> r == 0
  {
    if !Exists(fs, p) then 0
    else match fs.nodes[p]
      case File(size) => size
      case Dir(_) => if p in fs.du then DuBytes(fs.du[p]) else 0
  }

  lemma {:induction false} BeforeTabOf(d: string, rest: string)
    requires '\t' !in d
    ensures BeforeTab(d + "\t" + rest) == d
    decreases |d|
  {
    if d == [] {
      assert (d + "\t" + rest)[0] == '\t';
    } else {
      assert (d + "\t" + rest)[1..] == d[1..] + "\t" + rest;
      assert d[0] in d;
      assert forall c :: c in d[1..] ==> c in d;
      BeforeTabOf(d[1..], rest);
      assert d == [d[0]] + d[1..];
    }
  }

  /** A `du -sk` report `<kilobytes>\t<path>` is that many kibibytes. */
  lemma DuReportBytes(kilobytes: string, rest: string)
    requires IsDecimal(kilobytes)
    ensures forall i :: 0 <= i < |kilobytes| ==> IsDigit(kilobytes[i], 10)
    ensures DuBytes(kilobytes + "\t" + rest) == 1024 * DigitsValue(kilobytes, 10)
  {
    forall i | 0 <= i < |kilobytes| ensures kilobytes[i] != '\t' {
      assert '0' <= kilobytes[i] <= '9';
    }
    BeforeTabOf(kilobytes, rest);
    ParseIntDecimal(kilobytes, []);
    assert kilobytes + [] == kilobytes;
  }

  /** `getDirectorySize` of a directory whose `du -sk` report is
      `<kilobytes>\t<path>` is 1024 times the kilobytes. */
  lemma DirectorySizeOfDuReport(fs: Fs, p: string, kilobytes: string, rest: string)
    requires IsDir(fs, p) && p in fs.du && fs.du[p] == kilobytes + "\t" + rest
    requires IsDecimal(kilobytes)
    ensures forall i :: 0 <= i < |kilobytes| ==> IsDigit(kilobytes[i], 10)
    ensures DirectorySize(fs, p) == 1024 * DigitsValue(kilobytes, 10)
  {
    DuReportBytes(kilobytes, rest);
  }

  /** The shell fallback `echo "0"` measures as 0 bytes. */
  lemma DuFallbackIsZero()
    ensures DuBytes("0\n") == 0
  {
    var out := "0\n";
    assert out == "0" + "\n";
    assert out[1..] == "\n" && out[1..][1..] == [];
    assert BeforeTab(out) == out;
    assert IsDecimal("0");
    ParseIntDecimal("0", "\n");
    assert "0"[..0] == [];
    assert DigitsValue("0", 10) == 0;
  }

  /** A directory is never measured negative unless `du` printed a minus
      sign first. */
  lemma DirectorySizeNonNegative(fs: Fs, p: string)
    requires IsDir(fs, p) && p in fs.du
    requires var t := TrimStart(BeforeTab(fs.du[p])); t == [] || t[0] != '-'
    ensures DirectorySize(fs, p) >= 0
  {
    ParseIntNonNegative(BeforeTab(fs.du[p]));
  }
}
