/**
 * The abstract filesystem the cache cleaner reads. A path maps to a file
 * with its byte size or to a directory with its entry names in listing
 * order; `unlistable` holds the directories whose listing fails
 * (permission denied), and `du` holds, for a directory, the standard
 * output of `du -sk "<dir>" 2>/dev/null || echo "0"` (a path missing from
 * it is one for which running that shell command threw).
 */
module FsModel {

  import opened Wrappers
  import opened Paths

  datatype Node = File(size: nat) | Dir(children: seq<string>)

  datatype Fs = Fs(nodes: map<string, Node>, unlistable: set<string>, du: map<string, string>)

  /** `fs.existsSync(p)`. */
  predicate Exists(fs: Fs, p: string)
  {
    p in fs.nodes
  }

  /** `isDirectory()` of the entry or of `fs.statSync(p)`. */
  predicate IsDir(fs: Fs, p: string)
  {
    p in fs.nodes && fs.nodes[p].Dir?
  }

  /** `existsSync(p)` followed by `readdirSync(p)`: `None` when the path is
      missing, is not a directory, or cannot be listed. */
  function Listing(fs: Fs, p: string): (r: Option<seq<string>>)
    ensures r.Some? <==> IsDir(fs, p) && p !in fs.unlistable
  {
    if IsDir(fs, p) && p !in fs.unlistable then Some(fs.nodes[p].children) else None
  }

  /** `parent/name` for every `name` of `names`, in that order, that
      exists. */
  function ExistingChildren(fs: Fs, parent: string, names: seq<string>): seq<string>
  {
    if names == [] then []
    else
      var last := Join(parent, names[|names| - 1]);
      ExistingChildren(fs, parent, names[..|names| - 1]) + (if Exists(fs, last) then [last] else [])
  }

  /** The result holds `parent/name` exactly for the names whose path
      exists, and nothing else. */
  lemma {:induction false} ExistingChildrenMembers(fs: Fs, parent: string, names: seq<string>, x: string)
    ensures x in ExistingChildren(fs, parent, names) <==>
      Exists(fs, x) && exists i :: 0 <= i < |names| && x == Join(parent, names[i])
    ensures |ExistingChildren(fs, parent, names)| <= |names|
    decreases |names|
  {
    if names != [] {
      var init := names[..|names| - 1];
      ExistingChildrenMembers(fs, parent, init, x);
      if x == Join(parent, names[|names| - 1]) && Exists(fs, x) {
        assert x in ExistingChildren(fs, parent, names);
      }
      if exists i :: 0 <= i < |init| && x == Join(parent, init[i]) {
        var i :| 0 <= i < |init| && x == Join(parent, init[i]);
        assert names[i] == init[i];
      }
      if exists i :: 0 <= i < |names| && x == Join(parent, names[i]) {
        var i :| 0 <= i < |names| && x == Join(parent, names[i]);
        if i < |init| {
          assert init[i] == names[i];
        }
      }
    }
  }

  /** `Join` keeps different non-empty names apart. */
  lemma JoinInjective(parent: string, a: string, b: string)
    requires a != "" && b != "" && a != b
    ensures Join(parent, a) != Join(parent, b)
  {
    if parent != "" && parent[|parent| - 1] == '/' {
      assert (parent + a)[|parent|..] == a;
      assert (parent + b)[|parent|..] == b;
    } else if parent != "" {
      assert (parent + "/" + a)[|parent| + 1..] == a;
      assert (parent + "/" + b)[|parent| + 1..] == b;
    }
  }

  predicate Distinct(s: seq<string>)
  {
    forall i, j :: 0 <= i < j < |s| ==> s[i] != s[j]
  }

  /** Distinct, non-empty names give a result without duplicates. */
  lemma {:induction false} ExistingChildrenDistinct(fs: Fs, parent: string, names: seq<string>)
    requires Distinct(names)
    requires forall i :: 0 <= i < |names| ==> names[i] != ""
    ensures Distinct(ExistingChildren(fs, parent, names))
    decreases |names|
  {
    if names != [] {
      var init := names[..|names| - 1];
      var last := Join(parent, names[|names| - 1]);
      ExistingChildrenDistinct(fs, parent, init);
      ExistingChildrenMembers(fs, parent, init, last);
      forall i | 0 <= i < |init| ensures last != Join(parent, init[i]) {
        assert init[i] == names[i];
        JoinInjective(parent, init[i], names[|names| - 1]);
      }
    }
  }
}
