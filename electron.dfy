/**
 * src/utils/electron.ts: recognising an Electron application directory by
 * the cache sub-directories it holds, and listing those sub-directories.
 */
module Electron {

  import opened Paths
  import opened FsModel
  import opened Catalog

  /** `isElectronApp(appPath)`: an existing directory with at least one of
      the known cache sub-directories. A missing path or a file is not an
      application. */
  predicate IsElectronApp(fs: Fs, appPath: string)
  {
    && IsDir(fs, appPath)
    && exists i :: 0 <= i < |ElectronCacheDirs| && Exists(fs, Join(appPath, ElectronCacheDirs[i]))
  }

  /** `getElectronCachePaths(appPath)`. */
  method GetElectronCachePaths(fs: Fs, appPath: string) returns (cachePaths: seq<string>)
    ensures cachePaths == ExistingChildren(fs, appPath, ElectronCacheDirs)
    ensures forall x :: x in cachePaths <==>
      Exists(fs, x) && exists i :: 0 <= i < |ElectronCacheDirs| && x == Join(appPath, ElectronCacheDirs[i])
    ensures |cachePaths| <= |ElectronCacheDirs|
    ensures Distinct(cachePaths)
  {
    cachePaths := [];
    var i := 0;
    while i < |ElectronCacheDirs|
      invariant 0 <= i <= |ElectronCacheDirs|
      invariant cachePaths == ExistingChildren(fs, appPath, ElectronCacheDirs[..i])
    {
      var cachePath := Join(appPath, ElectronCacheDirs[i]);
      assert ElectronCacheDirs[..i + 1][..i] == ElectronCacheDirs[..i];
      if Exists(fs, cachePath) {
        cachePaths := cachePaths + [cachePath];
      }
      i := i + 1;
    }
    assert ElectronCacheDirs[..i] == ElectronCacheDirs;
    CachePathsFacts(fs, appPath);
  }

  lemma CachePathsFacts(fs: Fs, appPath: string)
    ensures forall x :: x in ExistingChildren(fs, appPath, ElectronCacheDirs) <==>
      Exists(fs, x) && exists i :: 0 <= i < |ElectronCacheDirs| && x == Join(appPath, ElectronCacheDirs[i])
    ensures |ExistingChildren(fs, appPath, ElectronCacheDirs)| <= |ElectronCacheDirs|
    ensures Distinct(ExistingChildren(fs, appPath, ElectronCacheDirs))
  {
    forall x ensures x in ExistingChildren(fs, appPath, ElectronCacheDirs) <==>
      Exists(fs, x) && exists i :: 0 <= i < |ElectronCacheDirs| && x == Join(appPath, ElectronCacheDirs[i])
    {
      ExistingChildrenMembers(fs, appPath, ElectronCacheDirs, x);
    }
    ExistingChildrenMembers(fs, appPath, ElectronCacheDirs, "");
    CacheDirNames();
    ExistingChildrenDistinct(fs, appPath, ElectronCacheDirs);
  }

  /** The ten names are different and none is empty. */
  lemma CacheDirNames()
    ensures Distinct(ElectronCacheDirs)
    ensures forall i :: 0 <= i < |ElectronCacheDirs| ==> ElectronCacheDirs[i] != ""
  {
  }

  /** For a directory, being an Electron application is the same as having
      a non-empty list of cache paths. */
  lemma ElectronAppIffCachePaths(fs: Fs, appPath: string)
    requires IsDir(fs, appPath)
    ensures IsElectronApp(fs, appPath) <==> ExistingChildren(fs, appPath, ElectronCacheDirs) != []
  {
    var cachePaths := ExistingChildren(fs, appPath, ElectronCacheDirs);
    if IsElectronApp(fs, appPath) {
      var i :| 0 <= i < |ElectronCacheDirs| && Exists(fs, Join(appPath, ElectronCacheDirs[i]));
      ExistingChildrenMembers(fs, appPath, ElectronCacheDirs, Join(appPath, ElectronCacheDirs[i]));
    }
    if cachePaths != [] {
      ExistingChildrenMembers(fs, appPath, ElectronCacheDirs, cachePaths[0]);
    }
  }
}
