/**
 * Path strings (src/utils/path.ts and the parts of node's posix `path`
 * module that the cache cleaner relies on).
 *
 * Paths are plain strings. `Join` is `path.join` for a directory and a
 * relative name that are already normalised; `Dirname` and `Basename`
 * follow node's posix scanning rules exactly, because the wildcard
 * resolver's behaviour depends on them.
 */
module Paths {

  predicate StartsWith(s: string, prefix: string)
  {
    |prefix| <= |s| && s[..|prefix|] == prefix
  }

  predicate EndsWith(s: string, suffix: string)
  {
    |suffix| <= |s| && s[|s| - |suffix|..] == suffix
  }

  /** A prefix is matched by its first character and then the rest. */
  lemma StartsWithFirst(s: string, prefix: string)
    requires s != "" && prefix != ""
    ensures StartsWith(s, prefix) <==> s[0] == prefix[0] && StartsWith(s[1..], prefix[1..])
  {
    if |prefix| <= |s| {
      assert s[..|prefix|] == [s[0]] + s[1..][..|prefix| - 1];
      assert prefix == [prefix[0]] + prefix[1..];
    }
  }

  /** `sub` occurs in `s` at index `i`. */
  predicate OccursAt(s: string, sub: string, i: int)
  {
    0 <= i <= |s| - |sub| && s[i..i + |sub|] == sub
  }

  /** JavaScript's `s.includes(sub)`. */
  predicate Contains(s: string, sub: string)
  {
    exists i :: 0 <= i <= |s| - |sub| && OccursAt(s, sub, i)
  }

  /** `path.join(a, b)` for a normalised `a` and a relative `b` without
      `.`/`..` segments or repeated separators. */
  function Join(a: string, b: string): string
  {
    if b == "" then (if a == "" then "." else a)
    else if a == "" then b
    else if a[|a| - 1] == '/' then a + b
    else a + "/" + b
  }

  /** `expandPath`: only a leading `~/` is rewritten, to `home` joined with
      the rest of the path; everything else (bare `~`, `~user/...`) is
      returned unchanged. */
  function ExpandPath(filePath: string, home: string): (r: string)
    ensures !StartsWith(filePath, "~/") ==> r == filePath
    ensures StartsWith(filePath, "~/") ==> StartsWith(r, home)
    ensures StartsWith(filePath, "~/") && |filePath| > 2 ==> EndsWith(r, filePath[2..])
    ensures (StartsWith(filePath, "~/") && |filePath| > 2 && home != "" && home[|home| - 1] != '/')
      ==> r == home + "/" + filePath[2..]
  {
    if StartsWith(filePath, "~/") then Join(home, filePath[2..]) else filePath
  }

  /** Expansion is idempotent once the home directory is absolute: the
      expanded path starts with `/`, so it is not expanded again. */
  lemma ExpandPathIdempotent(filePath: string, home: string)
    requires StartsWith(home, "/")
    ensures ExpandPath(ExpandPath(filePath, home), home) == ExpandPath(filePath, home)
  {
    var once := ExpandPath(filePath, home);
    if StartsWith(filePath, "~/") {
      assert once[0] == '/';
      assert !StartsWith(once, "~/");
    }
  }

  /** The path with every `*` deleted, as the global replace of `*` by the empty string. */
  function StripStars(s: string): (r: string)
    ensures '*' !in r
    ensures |r| <= |s|
  {
    if s == [] then [] else (if s[0] == '*' then [] else [s[0]]) + StripStars(s[1..])
  }

  lemma {:induction false} StripStarsAppend(a: string, b: string)
    ensures StripStars(a + b) == StripStars(a) + StripStars(b)
  {
    if a != [] {
      assert (a + b)[1..] == a[1..] + b;
      StripStarsAppend(a[1..], b);
    } else {
      assert a + b == b;
    }
  }

  lemma {:induction false} StripStarsStarFree(s: string)
    requires '*' !in s
    ensures StripStars(s) == s
  {
    if s != [] {
      assert s[0] in s;
      assert forall c :: c in s[1..] ==> c in s;
      StripStarsStarFree(s[1..]);
      assert s == [s[0]] + s[1..];
    }
  }

  predicate AllStars(s: string)
  {
    forall i :: 0 <= i < |s| ==> s[i] == '*'
  }

  lemma {:induction false} StripStarsAllStars(s: string)
    requires AllStars(s)
    ensures StripStars(s) == ""
  {
    if s != [] {
      StripStarsAllStars(s[1..]);
    }
  }

  /** The scan of node's posix `dirname` from position `i` down to 1:
      trailing separators are skipped while `matchedSlash` holds, and the
      first separator after a non-separator ends the directory part.
      -1 when there is none. */
  function DirEnd(p: string, i: nat, matchedSlash: bool): (end: int)
    requires i < |p|
    ensures -1 <= end <= i
    ensures end != -1 ==> 1 <= end && p[end] == '/'
    decreases i
  {
    if i == 0 then -1
    else if p[i] == '/' then (if matchedSlash then DirEnd(p, i - 1, true) else i)
    else DirEnd(p, i - 1, false)
  }

  /** node's posix `path.dirname`. */
  function Dirname(p: string): string
  {
    if p == "" then "."
    else
      var end := DirEnd(p, |p| - 1, true);
      if end == -1 then (if p[0] == '/' then "/" else ".")
      else if p[0] == '/' && end == 1 then "//"
      else p[..end]
  }

  function TrimTrailingSlashes(p: string): string
  {
    if p != "" && p[|p| - 1] == '/' then TrimTrailingSlashes(p[..|p| - 1]) else p
  }

  function AfterLastSlash(q: string): string
  {
    if q == "" || q[|q| - 1] == '/' then "" else AfterLastSlash(q[..|q| - 1]) + [q[|q| - 1]]
  }

  /** node's posix `path.basename` (no suffix argument): the last segment
      once trailing separators are ignored. */
  function Basename(p: string): string
  {
    AfterLastSlash(TrimTrailingSlashes(p))
  }

  /** Once the scan has met a non-separator, the next separator down to
      index `k` (at least 1) ends the directory part. */
  lemma {:induction false} DirEndStopsAtSeparator(p: string, i: nat, k: nat, matchedSlash: bool)
    requires 1 <= k < |p| && k <= i < |p| && p[k] == '/'
    requires forall j :: k < j <= i ==> p[j] != '/'
    requires k == i ==> !matchedSlash
    ensures DirEnd(p, i, matchedSlash) == k
    decreases i
  {
    if i > k {
      DirEndStopsAtSeparator(p, i - 1, k, false);
    }
  }

  /** The directory of `a/s`, for a last segment `s`, is `a`. */
  lemma DirnameOfChild(a: string, s: string)
    requires a != "" && a != "/"
    requires s != "" && '/' !in s
    ensures Dirname(a + "/" + s) == a
  {
    var p := a + "/" + s;
    assert p[|a|] == '/';
    forall j | |a| < j <= |p| - 1 ensures p[j] != '/' {
      assert p[j] == s[j - |a| - 1];
    }
    DirEndStopsAtSeparator(p, |p| - 1, |a|, true);
    assert p[..|a|] == a;
  }

  /** The directory of `a/b/` is `a`: the trailing separator is skipped. */
  lemma DirnameOfChildWithSlash(a: string, b: string)
    requires a != "" && a != "/"
    requires b != "" && '/' !in b
    ensures Dirname(a + "/" + b + "/") == a
  {
    var p := a + "/" + b + "/";
    assert p[|p| - 1] == '/';
    assert p[|a|] == '/';
    forall j | |a| < j <= |p| - 2 ensures p[j] != '/' {
      assert p[j] == b[j - |a| - 1];
    }
    DirEndStopsAtSeparator(p, |p| - 2, |a|, false);
    assert DirEnd(p, |p| - 1, true) == DirEnd(p, |p| - 2, true);
    if |p| - 2 > |a| {
      DirEndStopsAtSeparator(p, |p| - 3, |a|, false);
    }
    assert p[..|a|] == a;
  }

  lemma {:induction false} AfterLastSlashOfSegment(x: string, s: string)
    requires '/' !in s
    ensures AfterLastSlash(x + "/" + s) == s
    decreases |s|
  {
    var q := x + "/" + s;
    if s == "" {
      assert q[|q| - 1] == '/';
    } else {
      assert q[|q| - 1] == s[|s| - 1];
      assert s[|s| - 1] in s;
      assert q[..|q| - 1] == x + "/" + s[..|s| - 1];
      assert forall c :: c in s[..|s| - 1] ==> c in s;
      AfterLastSlashOfSegment(x, s[..|s| - 1]);
      assert s == s[..|s| - 1] + [s[|s| - 1]];
    }
  }

  /** The last segment of `x/s` is `s`. */
  lemma BasenameOfChild(x: string, s: string)
    requires s != "" && '/' !in s
    ensures Basename(x + "/" + s) == s
  {
    var p := x + "/" + s;
    assert p[|p| - 1] == s[|s| - 1] && s[|s| - 1] in s;
    assert TrimTrailingSlashes(p) == p;
    AfterLastSlashOfSegment(x, s);
  }
}
