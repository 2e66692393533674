/**
 * How the engine (VideoDedupShared/Classes/DedupEngine.cs) decides which
 * paths matter: the relevance filter applied to watcher events, the
 * recursive walk of the watched tree, and the reconciliation of the
 * persisted cache with a fresh scan.
 */
module Discovery {
  import opened Wrappers
  import opened PathText
  import opened VideoFiles

  /** The folder part of the settings (IFolderSettings). */
  datatype FolderSettings = FolderSettings(
    basePath: string,
    excludedDirectories: seq<string>,
    fileExtensions: seq<string>,
    recursive: bool,
    cachePath: string)

  /** Whether the path starts with one of the excluded directories. */
  function InExcludedDirectory(filePath: string, excluded: seq<string>): (r: bool)
    ensures r <==> exists k :: 0 <= k < |excluded| && StartsWith(filePath, excluded[k])
  {
    if excluded == [] then false
    else StartsWith(filePath, excluded[0]) || InExcludedDirectory(filePath, excluded[1..])
  }

  /**
   * IsFilePathRelevant: the path lies under the base path, under none of
   * the excluded directories, and its extension is one of the configured
   * extensions, compared ordinally (case-sensitive).
   */
  predicate IsFilePathRelevant(filePath: string, settings: FolderSettings) {
    if !StartsWith(filePath, settings.basePath) then false
    else if InExcludedDirectory(filePath, settings.excludedDirectories) then false
    else Extension(filePath) in settings.fileExtensions
  }

  /** The three conditions of the relevance filter, both ways. */
  lemma RelevantIffAllThreeHold(filePath: string, settings: FolderSettings)
    ensures IsFilePathRelevant(filePath, settings)
        <==> && StartsWith(filePath, settings.basePath)
             && (forall e :: e in settings.excludedDirectories ==> !StartsWith(filePath, e))
             && Extension(filePath) in settings.fileExtensions
  {
    if forall e :: e in settings.excludedDirectories ==> !StartsWith(filePath, e) {
      assert !InExcludedDirectory(filePath, settings.excludedDirectories);
    }
  }

  /**
   * A path the watcher filter accepts also passes the scan's extension
   * filter, which ignores case.
   */
  lemma RelevantPathPassesScanFilter(filePath: string, settings: FolderSettings)
    requires IsFilePathRelevant(filePath, settings)
    ensures ContainsIgnoreCase(settings.fileExtensions, Extension(filePath))
  {
    ContainsImpliesContainsIgnoreCase(settings.fileExtensions, Extension(filePath));
  }

  /**
   * The converse fails: the watcher filter is case-sensitive, so a file the
   * scan picks up ("a.MP4" with ".mp4" configured) is ignored when it
   * arrives through a watcher event.
   */
  lemma WatcherFilterIsCaseSensitive()
    ensures ContainsIgnoreCase([".mp4"], Extension("V/a.MP4"))
    ensures !IsFilePathRelevant("V/a.MP4", FolderSettings("V", [], [".mp4"], true, "cache"))
  {
    SampleExtension();
    assert EqualsIgnoreCase([".mp4"][0], ".MP4");
    assert ".MP4"[1] != ".mp4"[1];
  }

  lemma SampleExtension()
    ensures Extension("V/a.MP4") == ".MP4"
  {
    var path := "V/a.MP4";
    assert path[6] == '4' && path[5] == 'P' && path[4] == 'M' && path[3] == '.';
    assert ExtensionFrom(path, 4) == ".MP4";
    assert ExtensionFrom(path, 7) == ExtensionFrom(path, 6) == ExtensionFrom(path, 5) == ExtensionFrom(path, 4);
  }

  const RecycleBinName: string := "$RECYCLE.BIN"

  /** Whether the last component of the path is $RECYCLE.BIN. */
  predicate IsRecycleBin(path: string) {
    var n := |RecycleBinName|;
    n <= |path| && path[|path| - n..] == RecycleBinName && (n == |path| || IsNameBoundary(path[|path| - n - 1]))
  }

  /** The test above is Path.GetFileName(path) == "$RECYCLE.BIN". */
  lemma IsRecycleBinIffFileName(path: string)
    ensures IsRecycleBin(path) <==> FileName(path) == RecycleBinName
  {
    if IsRecycleBin(path) {
      RecycleBinNameIsOneName();
      FileNameIsUnique(path, RecycleBinName);
    } else if FileName(path) == RecycleBinName {
      assert false;
    }
  }

  lemma RecycleBinNameIsOneName()
    ensures forall k :: 0 <= k < |RecycleBinName| ==> !IsNameBoundary(RecycleBinName[k])
  {
  }

  /**
   * A directory of the watched tree as the walk sees it: whether listing it
   * is permitted, its files (full paths) and its subdirectories.
   */
  datatype Directory = Directory(path: string, accessible: bool, files: seq<string>, subdirectories: seq<Directory>)

  /**
   * GetAllAccessibleFilesIn: nothing from a directory named $RECYCLE.BIN or
   * one that cannot be listed; otherwise its files, followed, when
   * recursive, by the files of every subdirectory whose path is not in the
   * excluded list.
   */
  function AccessibleFilesIn(d: Directory, excluded: seq<string>, recursive: bool): seq<string>
    decreases d, 1
  {
    if IsRecycleBin(d.path) || !d.accessible then []
    else d.files + (if recursive then SubdirectoryFiles(d, 0, excluded, recursive) else [])
  }

  /** The files the walk collects from the subdirectories i, i + 1, ... of d. */
  function SubdirectoryFiles(d: Directory, i: nat, excluded: seq<string>, recursive: bool): seq<string>
    requires i <= |d.subdirectories|
    decreases d, 0, |d.subdirectories| - i
  {
    if i == |d.subdirectories| then []
    else
      (if d.subdirectories[i].path in excluded then [] else AccessibleFilesIn(d.subdirectories[i], excluded, recursive))
      + SubdirectoryFiles(d, i + 1, excluded, recursive)
  }

  /**
   * The directory reached from d by following the subdirectory indices of
   * `route`, when every directory on the way may be entered: none is a
   * recycle bin or unlistable, the root is the only one allowed when the
   * walk is not recursive, and no directory below the root is excluded.
   */
  function Reach(d: Directory, route: seq<nat>, excluded: seq<string>, recursive: bool): Option<Directory>
    decreases route
  {
    if IsRecycleBin(d.path) || !d.accessible then None
    else if route == [] then Some(d)
    else if !recursive || route[0] >= |d.subdirectories| || d.subdirectories[route[0]].path in excluded then None
    else Reach(d.subdirectories[route[0]], route[1..], excluded, recursive)
  }

  lemma {:induction false} SubdirectoryFilesContains(d: Directory, i: nat, k: nat, excluded: seq<string>, recursive: bool, f: string)
    requires i <= k < |d.subdirectories|
    requires d.subdirectories[k].path !in excluded
    requires f in AccessibleFilesIn(d.subdirectories[k], excluded, recursive)
    ensures f in SubdirectoryFiles(d, i, excluded, recursive)
    decreases k - i
  {
    var here := if d.subdirectories[i].path in excluded then [] else AccessibleFilesIn(d.subdirectories[i], excluded, recursive);
    var rest := SubdirectoryFiles(d, i + 1, excluded, recursive);
    assert SubdirectoryFiles(d, i, excluded, recursive) == here + rest;
    if i < k {
      SubdirectoryFilesContains(d, i + 1, k, excluded, recursive, f);
      assert f in rest;
    } else {
      assert f in here;
    }
  }

  lemma {:induction false} SubdirectoryFilesSource(d: Directory, i: nat, excluded: seq<string>, recursive: bool, f: string) returns (k: nat)
    requires i <= |d.subdirectories|
    requires f in SubdirectoryFiles(d, i, excluded, recursive)
    ensures i <= k < |d.subdirectories|
    ensures d.subdirectories[k].path !in excluded
    ensures f in AccessibleFilesIn(d.subdirectories[k], excluded, recursive)
    decreases |d.subdirectories| - i
  {
    if i < |d.subdirectories| {
      var here := if d.subdirectories[i].path in excluded then [] else AccessibleFilesIn(d.subdirectories[i], excluded, recursive);
      if f in here {
        k := i;
      } else {
        k := SubdirectoryFilesSource(d, i + 1, excluded, recursive, f);
      }
    }
  }

  /** Every file of a directory the walk may reach is collected. */
  lemma {:induction false} WalkCollectsReachableFiles(d: Directory, route: seq<nat>, excluded: seq<string>, recursive: bool, f: string)
    requires Reach(d, route, excluded, recursive).Some?
    requires f in Reach(d, route, excluded, recursive).value.files
    ensures f in AccessibleFilesIn(d, excluded, recursive)
    decreases route
  {
    if route != [] {
      var child := d.subdirectories[route[0]];
      WalkCollectsReachableFiles(child, route[1..], excluded, recursive, f);
      SubdirectoryFilesContains(d, 0, route[0], excluded, recursive, f);
    }
  }

  /** Every file the walk collects belongs to a directory it may reach. */
  lemma {:induction false} WalkCollectsOnlyReachableFiles(d: Directory, excluded: seq<string>, recursive: bool, f: string) returns (route: seq<nat>)
    requires f in AccessibleFilesIn(d, excluded, recursive)
    ensures Reach(d, route, excluded, recursive).Some?
    ensures f in Reach(d, route, excluded, recursive).value.files
    decreases d
  {
    if f in d.files {
      route := [];
    } else {
      var k := SubdirectoryFilesSource(d, 0, excluded, recursive, f);
      var rest := WalkCollectsOnlyReachableFiles(d.subdirectories[k], excluded, recursive, f);
      route := [k] + rest;
      assert route[1..] == rest;
    }
  }

  /** The path of every record of a list. */
  function PathSet(s: seq<VideoRecord>): set<string> {
    set r | r in s :: r.filePath
  }

  /** No two records of the list share a path. */
  predicate UniqueByPath(s: seq<VideoRecord>) {
    forall i, j :: 0 <= i < j < |s| ==> s[i].filePath != s[j].filePath
  }

  /**
   * HashSet.UnionWith with identity by path: each item whose path is not
   * present yet is added; an item whose path is present is dropped, so the
   * entry already there wins.
   */
  function UnionWith(current: seq<VideoRecord>, items: seq<VideoRecord>): (r: seq<VideoRecord>)
    ensures UniqueByPath(current) ==> UniqueByPath(r)
    ensures PathSet(r) == PathSet(current) + PathSet(items)
    ensures current <= r
    ensures forall x :: x in r ==> x in current || x in items
    decreases items
  {
    if items == [] then current
    else
      var next := if items[0].filePath in PathSet(current) then current else current + [items[0]];
      assert PathSet(next) == PathSet(current) + {items[0].filePath};
      assert PathSet(items) == {items[0].filePath} + PathSet(items[1..]);
      UnionWith(next, items[1..])
  }

  /** The cache entries RemoveWhere keeps: existing files, and only top-level ones when not recursive. */
  predicate Retained(r: VideoRecord, settings: FolderSettings, existing: set<string>) {
    (settings.recursive || DirectoryName(r.filePath) == Some(settings.basePath)) && r.filePath in existing
  }

  function RetainedEntries(s: seq<VideoRecord>, settings: FolderSettings, existing: set<string>): (r: seq<VideoRecord>)
    ensures forall x :: x in r <==> x in s && Retained(x, settings, existing)
    ensures UniqueByPath(s) ==> UniqueByPath(r)
  {
    if s == [] then []
    else
      var rest := RetainedEntries(s[1..], settings, existing);
      assert UniqueByPath(s) ==> s[0].filePath !in PathSet(s[1..]);
      if Retained(s[0], settings, existing) then [s[0]] + rest else rest
  }

  /** A freshly discovered path: a record with nothing memoized. */
  function Discovered(paths: seq<string>): (r: seq<VideoRecord>)
    ensures |r| == |paths|
    ensures forall k :: 0 <= k < |paths| ==> r[k] == VideoRecord(paths[k], None)
    ensures PathSet(r) == set p | p in paths
    ensures forall x :: x in r ==> x.duration == None
  {
    var r := seq(|paths|, k requires 0 <= k < |paths| => VideoRecord(paths[k], None));
    assert PathSet(r) == set p | p in paths by {
      forall p | p in paths ensures p in PathSet(r) {
        var k :| 0 <= k < |paths| && paths[k] == p;
        assert r[k].filePath == p;
      }
    }
    r
  }

  /** LoadVideoFilesCache: None when the file is missing or unreadable, else the deserialized set. */
  function LoadedCache(cacheFile: Option<seq<VideoRecord>>): seq<VideoRecord> {
    if cacheFile.None? then [] else UnionWith([], cacheFile.value)
  }

  /**
   * The reconciliation of GetVideoFileList: with no usable cache, the set of
   * found files; otherwise the retained cache entries, then every found
   * file whose path is not among them.
   */
  function Reconcile(cacheFile: Option<seq<VideoRecord>>, found: seq<string>, settings: FolderSettings, existing: set<string>): (r: seq<VideoRecord>)
    ensures UniqueByPath(r)
    ensures LoadedCache(cacheFile) == [] ==> PathSet(r) == set p | p in found
    ensures LoadedCache(cacheFile) != [] ==>
      PathSet(r) == (set x | x in LoadedCache(cacheFile) && Retained(x, settings, existing) :: x.filePath) + (set p | p in found)
    ensures forall x :: x in r ==>
      (x in LoadedCache(cacheFile) && Retained(x, settings, existing)) || (x.filePath in found && x.duration == None)
    ensures forall x :: x in LoadedCache(cacheFile) && Retained(x, settings, existing) ==> x in r
  {
    var cached := LoadedCache(cacheFile);
    var scanned := Discovered(found);
    if cached == [] then UnionWith([], scanned)
    else
      var kept := RetainedEntries(cached, settings, existing);
      assert PathSet(kept) == set x | x in cached && Retained(x, settings, existing) :: x.filePath;
      UnionWith(kept, scanned)
  }

  /** The scan's extension filter (case-insensitive). */
  function WithVideoExtension(files: seq<string>, extensions: seq<string>): (r: seq<string>)
    ensures forall f :: f in r <==> f in files && ContainsIgnoreCase(extensions, Extension(f))
  {
    if files == [] then []
    else
      var rest := WithVideoExtension(files[1..], extensions);
      if ContainsIgnoreCase(extensions, Extension(files[0])) then [files[0]] + rest else rest
  }

  /**
   * GetVideoFileList: the files of the tree with a video extension,
   * reconciled with the cache. Every entry is a retained cache entry or a
   * reachable file with a video extension and nothing memoized.
   */
  function GetVideoFileList(settings: FolderSettings, root: Directory, cacheFile: Option<seq<VideoRecord>>, existing: set<string>): (r: seq<VideoRecord>)
    ensures UniqueByPath(r)
    ensures forall x :: x in r ==>
      || (x in LoadedCache(cacheFile) && Retained(x, settings, existing))
      || (&& x.filePath in AccessibleFilesIn(root, settings.excludedDirectories, settings.recursive)
          && ContainsIgnoreCase(settings.fileExtensions, Extension(x.filePath))
          && x.duration == None)
  {
    var found := WithVideoExtension(AccessibleFilesIn(root, settings.excludedDirectories, settings.recursive), settings.fileExtensions);
    Reconcile(cacheFile, found, settings, existing)
  }

  /**
   * The paths of the list are exactly the paths of the retained cache
   * entries and of the collected files with a video extension, and every
   * retained cache entry is kept as it was.
   */
  lemma GetVideoFileListPaths(settings: FolderSettings, root: Directory, cacheFile: Option<seq<VideoRecord>>, existing: set<string>)
    ensures var r := GetVideoFileList(settings, root, cacheFile, existing);
      && PathSet(r)
         == (set x | x in LoadedCache(cacheFile) && Retained(x, settings, existing) :: x.filePath)
          + (set f | f in AccessibleFilesIn(root, settings.excludedDirectories, settings.recursive)
                     && ContainsIgnoreCase(settings.fileExtensions, Extension(f)))
      && forall x :: x in LoadedCache(cacheFile) && Retained(x, settings, existing) ==> x in r
  {
    var files := AccessibleFilesIn(root, settings.excludedDirectories, settings.recursive);
    var found := WithVideoExtension(files, settings.fileExtensions);
    var kept := set x | x in LoadedCache(cacheFile) && Retained(x, settings, existing) :: x.filePath;
    WithVideoExtensionPaths(files, settings.fileExtensions);
    if LoadedCache(cacheFile) == [] {
      EmptyUnion(kept, set p | p in found);
    }
  }

  /** The paths WithVideoExtension keeps, as a set. */
  lemma WithVideoExtensionPaths(files: seq<string>, extensions: seq<string>)
    ensures (set p | p in WithVideoExtension(files, extensions))
         == set f | f in files && ContainsIgnoreCase(extensions, Extension(f))
  {
  }

  lemma EmptyUnion<T>(a: set<T>, b: set<T>)
    requires a == {}
    ensures a + b == b
  {
  }
}
