/**
 * The DedupEngine of VideoDedupShared/Classes/DedupEngine.cs: configuration,
 * the Start/Stop guards, the watcher handlers that queue changes, and the
 * two task bodies, ProcessFolder (the full scan) and ProcessChanges (the
 * delta pass), which maintain the inventory of video records.
 *
 * The engine is modelled sequentially. The background task is the field
 * `task`; a task body runs as a whole when the environment calls RunTask
 * (or when Stop waits for it), and watcher events arrive between bodies.
 * The token a body receives stands for the CancellationTokenSource that
 * Start creates and Stop cancels.
 */
module Engine {
  import opened Wrappers
  import opened PathText
  import opened Comparison
  import opened VideoFiles
  import opened Discovery
  import opened Passes

  /** IDedupperSettings: the folder settings and the comparison settings. */
  datatype DedupperSettings = DedupperSettings(folder: FolderSettings, comparison: ComparisonSettings)

  /** The body a task runs: Task.Factory.StartNew(ProcessFolder) or StartNew(ProcessChanges). */
  datatype Job = ScanFolder | ApplyChanges

  /** DedupTask: null, a task that has not completed, or a completed one. */
  datatype TaskState = NoTask | Running(job: Job) | Completed

  datatype ConfigurationError = NullConfiguration
  datatype StartError = NoConfiguration | InvalidBasePath

  /** How a task body ended: ran to the end, returned on cancellation, or threw. */
  datatype Outcome = Finished | Cancelled | Faulted

  /**
   * What the task bodies read from outside the engine: the directory tree
   * under the base path, the cache file's content (None when it is missing
   * or unreadable), the set of existing files (File.Exists), the media
   * functions, and the outcomes of successive File.Open attempts per path.
   */
  datatype Environment = Environment(
    root: Directory,
    cacheFile: Option<seq<VideoRecord>>,
    existing: set<string>,
    media: Media,
    open: string -> nat -> OpenOutcome)

  /** The inventory and the duplicates reported so far. */
  datatype Inventory = Inventory(files: seq<VideoRecord>, reported: seq<(VideoRecord, VideoRecord)>)

  /** The record a new file yields once its duration has been read. */
  function NewRecord(media: Media, path: string): (r: VideoRecord)
    ensures r.filePath == path && r.duration == Some(media.probe(path).GetOr(0))
  {
    Resolve(media, VideoRecord(path, None))
  }

  /**
   * One new file taken from the queue by ProcessChanges (when its access
   * check does not rethrow): it is added only when it was accessible, has a
   * non-zero duration and its path is not tracked yet, and then the
   * duplicates of it in the grown list are reported.
   */
  function AfterNewFile(settings: ComparisonSettings, env: Environment, inv: Inventory, path: string): Inventory {
    var record := NewRecord(env.media, path);
    if AccessFrom(env.open(path), 0) != Accessible then inv
    else if DurationTicks(env.media, record) == 0 then inv
    else if path in PathSet(inv.files) then inv
    else
      var files := inv.files + [record];
      Inventory(files, inv.reported + Matches(settings, env.media, files, record))
  }

  /**
   * What taking `path` may leave when cancellation stops it: nothing done
   * yet, or the file added (when AfterNewFile adds it) and a prefix of its
   * duplicates reported.
   */
  predicate PartlyAfterNewFile(settings: ComparisonSettings, env: Environment, inv: Inventory, path: string, now: Inventory) {
    || now == inv
    || (var full := AfterNewFile(settings, env, inv, path);
        && now.files == full.files && inv.reported <= now.reported <= full.reported)
  }

  /**
   * What the new-file loop of ProcessChanges leaves in `now` after taking
   * `taken` of the queued files `added`, starting from `start`: all of them
   * in order when it finishes; those before the last one taken when that
   * one's access check throws; and, on cancellation, those before the last
   * one taken and part of that one.
   */
  predicate NewFilesTaken(settings: ComparisonSettings, env: Environment, start: Inventory, added: seq<string>, taken: nat, outcome: Outcome, now: Inventory)
    requires taken <= |added|
  {
    && (outcome == Finished ==>
          && taken == |added|
          && (forall p :: p in added ==> AccessFrom(env.open(p), 0) != Rethrown)
          && now == AddAll(settings, env, start, added))
    && (outcome == Faulted ==>
          && 0 < taken
          && AccessFrom(env.open(added[taken - 1]), 0) == Rethrown
          && now == AddAll(settings, env, start, added[..taken - 1]))
    && (outcome == Cancelled ==>
          && 0 < taken
          && PartlyAfterNewFile(settings, env, AddAll(settings, env, start, added[..taken - 1]), added[taken - 1], now))
  }

  /** The new files of `paths` taken in order. */
  function AddAll(settings: ComparisonSettings, env: Environment, inv: Inventory, paths: seq<string>): Inventory {
    if paths == [] then inv
    else AfterNewFile(settings, env, AddAll(settings, env, inv, paths[..|paths| - 1]), paths[|paths| - 1])
  }

  /** The deleted files of `paths` removed in order. */
  function RemoveAll(files: seq<VideoRecord>, paths: seq<string>): seq<VideoRecord> {
    if paths == [] then files
    else RemoveByPath(RemoveAll(files, paths[..|paths| - 1]), paths[|paths| - 1])
  }

  /** The invariant of the inventory: unique by path, every duration read and non-zero. */
  predicate ValidInventory(files: seq<VideoRecord>) {
    && UniqueByPath(files)
    && forall r :: r in files ==> r.duration.Some? && r.duration.value != 0
  }

  /** Appending a record with a new path keeps the list unique. */
  lemma AppendByPath(s: seq<VideoRecord>, x: VideoRecord)
    requires UniqueByPath(s) && x.filePath !in PathSet(s)
    ensures UniqueByPath(s + [x])
  {
    var r := s + [x];
    forall i, j | 0 <= i < j < |r| ensures r[i].filePath != r[j].filePath {
      assert r[i] == s[i];
      if j < |s| {
        assert r[j] == s[j];
      } else {
        assert s[i] in s;
      }
    }
  }

  /**
   * A new file enters the inventory only when it was accessible, has a
   * non-zero duration and its path was not tracked; nothing else changes.
   */
  lemma AfterNewFileMembership(settings: ComparisonSettings, env: Environment, inv: Inventory, path: string, x: VideoRecord)
    ensures x in AfterNewFile(settings, env, inv, path).files
        <==> || x in inv.files
             || (&& x == NewRecord(env.media, path)
                 && AccessFrom(env.open(path), 0) == Accessible
                 && DurationTicks(env.media, x) != 0
                 && path !in PathSet(inv.files))
  {
  }

  /** Taking a new file keeps the inventory valid. */
  lemma AfterNewFileKeepsInventoryValid(settings: ComparisonSettings, env: Environment, inv: Inventory, path: string)
    requires ValidInventory(inv.files)
    ensures ValidInventory(AfterNewFile(settings, env, inv, path).files)
    ensures inv.reported <= AfterNewFile(settings, env, inv, path).reported
  {
    var record := NewRecord(env.media, path);
    if AccessFrom(env.open(path), 0) == Accessible && DurationTicks(env.media, record) != 0 && path !in PathSet(inv.files) {
      AppendByPath(inv.files, record);
    }
  }

  /** Removing files keeps the inventory valid. */
  lemma {:induction false} RemoveAllKeepsInventoryValid(files: seq<VideoRecord>, paths: seq<string>)
    requires ValidInventory(files)
    ensures ValidInventory(RemoveAll(files, paths))
    ensures PathSet(RemoveAll(files, paths)) == PathSet(files) - set p | p in paths
  {
    if paths != [] {
      var init, last := paths[..|paths| - 1], paths[|paths| - 1];
      var before := RemoveAll(files, init);
      RemoveAllKeepsInventoryValid(files, init);
      RemoveByPathKeepsUnique(before, last);
      assert RemoveAll(files, paths) == RemoveByPath(before, last);
      assert (set p | p in paths) == (set p | p in init) + {last} by {
        assert paths == init + [last];
      }
    }
  }

  /** Removing one more queued path extends RemoveAll by one step. */
  lemma RemoveNext(files: seq<VideoRecord>, paths: seq<string>, k: nat)
    requires k < |paths|
    ensures RemoveAll(files, paths[..k + 1]) == RemoveByPath(RemoveAll(files, paths[..k]), paths[k])
  {
    assert paths[..k + 1][..k] == paths[..k];
  }

  /** Taking one more queued new file extends AddAll by one step. */
  lemma AddNext(settings: ComparisonSettings, env: Environment, inv: Inventory, paths: seq<string>, k: nat)
    requires k < |paths|
    ensures paths[..k + 1] == paths[..k] + [paths[k]]
    ensures AddAll(settings, env, inv, paths[..k + 1]) == AfterNewFile(settings, env, AddAll(settings, env, inv, paths[..k]), paths[k])
  {
    assert paths[..k + 1][..k] == paths[..k];
  }

  /**
   * The delta pass keeps the inventory valid: after the deletions and the
   * new files are applied, it is still unique by path with every duration
   * read and non-zero, and the duplicates reported before are kept.
   */
  lemma {:induction false} ChangesKeepInventoryValid(settings: ComparisonSettings, env: Environment, inv: Inventory, paths: seq<string>)
    requires ValidInventory(inv.files)
    ensures ValidInventory(AddAll(settings, env, inv, paths).files)
    ensures inv.reported <= AddAll(settings, env, inv, paths).reported
  {
    if paths != [] {
      ChangesKeepInventoryValid(settings, env, inv, paths[..|paths| - 1]);
      AfterNewFileKeepsInventoryValid(settings, env, AddAll(settings, env, inv, paths[..|paths| - 1]), paths[|paths| - 1]);
    }
  }

  /**
   * The baseline ProcessFolder builds when it is not cancelled: the
   * reconciled list with every duration read, without the files whose
   * duration is zero.
   */
  function Baseline(folder: FolderSettings, env: Environment): seq<VideoRecord> {
    var list := GetVideoFileList(folder, env.root, env.cacheFile, env.existing);
    WithDuration(env.media, Resolved(env.media, list, |list|))
  }

  /**
   * The baseline is a valid inventory, holds no file of zero duration, and
   * is a subsequence of the reconciled list once its durations are read.
   */
  lemma BaselineIsValid(folder: FolderSettings, env: Environment)
    ensures ValidInventory(Baseline(folder, env))
    ensures forall r :: r in Baseline(folder, env) ==> DurationTicks(env.media, r) != 0
    ensures var list := GetVideoFileList(folder, env.root, env.cacheFile, env.existing);
      && IsSubsequence(Baseline(folder, env), Resolved(env.media, list, |list|))
      && PathSet(Baseline(folder, env)) <= PathSet(list)
  {
    var list := GetVideoFileList(folder, env.root, env.cacheFile, env.existing);
    ResolvedKeepsRecords(env.media, list, |list|);
  }

  class DedupEngine {
    var configuration: Option<DedupperSettings>
    var task: TaskState
    /** FileWatcher.EnableRaisingEvents, Path and IncludeSubdirectories. */
    var watching: bool
    var watchPath: string
    var includeSubdirectories: bool
    /** The NewFiles and DeletedFiles queues, as paths. */
    var newFiles: seq<string>
    var deletedFiles: seq<string>
    /** VideoFiles, the inventory. */
    var videoFiles: seq<VideoRecord>
    /** The last list written to the cache file, if any. */
    var savedCache: Option<seq<VideoRecord>>
    /** The pairs passed to DuplicateFound, in order. */
    var duplicates: seq<(VideoRecord, VideoRecord)>

    predicate Valid()
      reads this
    {
      && ValidInventory(videoFiles)
      && (task != NoTask ==> configuration.Some?)
      && (watching ==> task != NoTask)
    }

    /** DedupEngine(): no configuration, no task, nothing tracked. */
    constructor ()
      ensures Valid()
      ensures configuration == None && task == NoTask && !watching
      ensures newFiles == [] && deletedFiles == [] && videoFiles == [] && savedCache == None && duplicates == []
    {
      configuration := None;
      task := NoTask;
      watching := false;
      watchPath := [];
      includeSubdirectories := false;
      newFiles := [];
      deletedFiles := [];
      videoFiles := [];
      savedCache := None;
      duplicates := [];
    }

    /** UpdateConfiguration: a null configuration is rejected; otherwise a copy is kept. */
    method UpdateConfiguration(config: Option<DedupperSettings>) returns (r: Result<(), ConfigurationError>)
      modifies this`configuration
      ensures config.None? ==> r == Err(NullConfiguration) && configuration == old(configuration)
      ensures config.Some? ==> r == Ok(()) && configuration == config
      ensures old(Valid()) ==> Valid()
    {
      if config.None? {
        return Err(NullConfiguration);
      }
      configuration := config;
      r := Ok(());
    }

    /**
     * Start: fails without a configuration or when the base path is not an
     * existing directory; does nothing while the task has not completed, so
     * the queues are kept and no second task starts; otherwise points the
     * watcher at the base path, empties both queues and starts the scan.
     */
    method Start(directories: set<string>) returns (r: Result<(), StartError>)
      requires Valid()
      modifies this
      ensures Valid()
      ensures configuration == old(configuration) && videoFiles == old(videoFiles)
      ensures savedCache == old(savedCache) && duplicates == old(duplicates)
      ensures r == if configuration.None? then Err(NoConfiguration)
                   else if configuration.value.folder.basePath !in directories then Err(InvalidBasePath)
                   else Ok(())
      ensures r.Err? || old(task).Running? ==>
        && task == old(task) && watching == old(watching)
        && watchPath == old(watchPath) && includeSubdirectories == old(includeSubdirectories)
        && newFiles == old(newFiles) && deletedFiles == old(deletedFiles)
      ensures r.Ok? && !old(task).Running? ==>
        var folder := configuration.value.folder;
        && task == Running(ScanFolder)
        && watching && watchPath == folder.basePath && includeSubdirectories == folder.recursive
        && newFiles == [] && deletedFiles == []
    {
      if configuration.None? {
        return Err(NoConfiguration);
      }
      var folder := configuration.value.folder;
      if folder.basePath !in directories {
        return Err(InvalidBasePath);
      }
      if task.Running? {
        return Ok(());
      }
      watchPath := folder.basePath;
      includeSubdirectories := folder.recursive;
      watching := true;
      newFiles := [];
      deletedFiles := [];
      task := Running(ScanFolder);
      r := Ok(());
    }

    /**
     * Stop: turns the watcher off; when the task has not completed, cancels
     * it and waits for it, so the body runs with a token that is already
     * cancelled and the task ends completed.
     */
    method Stop(env: Environment) returns (ghost removed: nat, ghost taken: nat)
      requires Valid()
      modifies this
      ensures Valid()
      ensures !watching && !task.Running?
      ensures !old(task).Running? ==>
        && task == old(task) && videoFiles == old(videoFiles) && duplicates == old(duplicates)
        && newFiles == old(newFiles) && deletedFiles == old(deletedFiles) && savedCache == old(savedCache)
      ensures watchPath == old(watchPath) && includeSubdirectories == old(includeSubdirectories)
      ensures old(task).Running? ==>
        && task == Completed && duplicates == old(duplicates) && savedCache == old(savedCache)
        && removed + taken <= 1
        && removed <= |old(deletedFiles)| && deletedFiles == old(deletedFiles)[removed..]
        && taken <= |old(newFiles)| && newFiles == old(newFiles)[taken..]
        && videoFiles == RemoveAll(old(videoFiles), old(deletedFiles)[..removed])
      ensures configuration == old(configuration)
    {
      watching := false;
      removed, taken := 0, 0;
      if !task.Running? {
        return;
      }
      var outcome;
      outcome, removed, taken := RunTask(env, CancellationToken(0, 0));
    }

    /** StartProcessingChanges: starts the delta pass unless the task is still running. */
    method StartProcessingChanges()
      requires task != NoTask
      modifies this`task
      ensures task == if old(task).Running? then old(task) else Running(ApplyChanges)
    {
      if task.Running? {
        return;
      }
      task := Running(ApplyChanges);
    }

    /** HandleNewFileEvent (Created and Changed events): queues a relevant path and starts the delta pass. */
    method HandleNewFileEvent(filePath: string)
      requires configuration.Some? && task != NoTask
      modifies this`newFiles, this`task
      ensures IsFilePathRelevant(filePath, configuration.value.folder) ==>
        newFiles == old(newFiles) + [filePath] && task == if old(task).Running? then old(task) else Running(ApplyChanges)
      ensures !IsFilePathRelevant(filePath, configuration.value.folder) ==> newFiles == old(newFiles) && task == old(task)
      ensures old(Valid()) ==> Valid()
    {
      if !IsFilePathRelevant(filePath, configuration.value.folder) {
        return;
      }
      newFiles := newFiles + [filePath];
      StartProcessingChanges();
    }

    /** HandleDeletedFileEvent: queues a relevant path for removal and starts the delta pass. */
    method HandleDeletedFileEvent(filePath: string)
      requires configuration.Some? && task != NoTask
      modifies this`deletedFiles, this`task
      ensures IsFilePathRelevant(filePath, configuration.value.folder) ==>
        deletedFiles == old(deletedFiles) + [filePath] && task == if old(task).Running? then old(task) else Running(ApplyChanges)
      ensures !IsFilePathRelevant(filePath, configuration.value.folder) ==> deletedFiles == old(deletedFiles) && task == old(task)
      ensures old(Valid()) ==> Valid()
    {
      if !IsFilePathRelevant(filePath, configuration.value.folder) {
        return;
      }
      deletedFiles := deletedFiles + [filePath];
      StartProcessingChanges();
    }

    /** A rename: the old path is handled as a deletion, then the new path as a new file. */
    method HandleRenamedEvent(oldFullPath: string, fullPath: string)
      requires configuration.Some? && task != NoTask
      modifies this`newFiles, this`deletedFiles, this`task
      ensures var folder := configuration.value.folder;
        && deletedFiles == old(deletedFiles) + (if IsFilePathRelevant(oldFullPath, folder) then [oldFullPath] else [])
        && newFiles == old(newFiles) + (if IsFilePathRelevant(fullPath, folder) then [fullPath] else [])
      ensures task == if old(task).Running? || !(IsFilePathRelevant(oldFullPath, configuration.value.folder) || IsFilePathRelevant(fullPath, configuration.value.folder))
                      then old(task) else Running(ApplyChanges)
      ensures old(Valid()) ==> Valid()
    {
      HandleDeletedFileEvent(oldFullPath);
      HandleNewFileEvent(fullPath);
    }

    /** ProcessChangesIfAny: with both queues empty the task ends (monitoring); otherwise the delta pass starts. */
    method ProcessChangesIfAny()
      modifies this`task
      ensures task == if newFiles == [] && deletedFiles == [] then Completed else Running(ApplyChanges)
    {
      if newFiles == [] && deletedFiles == [] {
        task := Completed;
        return;
      }
      task := Running(ApplyChanges);
    }

    /** Runs the body of the pending task with the token of its cancellation source. */
    method RunTask(env: Environment, token: CancellationToken) returns (outcome: Outcome, ghost removed: nat, ghost taken: nat)
      requires Valid() && task.Running?
      modifies this`deletedFiles, this`newFiles, this`videoFiles, this`savedCache, this`duplicates, this`task
      ensures Valid()
      ensures task == Completed || task == Running(ApplyChanges)
      ensures configuration == old(configuration) && watching == old(watching)
      ensures removed <= |old(deletedFiles)| && deletedFiles == old(deletedFiles)[removed..]
      ensures taken <= |old(newFiles)| && newFiles == old(newFiles)[taken..]
      ensures outcome != Finished ==> task == Completed
      ensures old(task) == Running(ScanFolder) ==>
        var settings := old(configuration).value;
        var baseline := Baseline(settings.folder, env);
        && removed == 0 && taken == 0 && outcome != Faulted
        && (|| (videoFiles == old(videoFiles) && savedCache == old(savedCache) && duplicates == old(duplicates))
            || (videoFiles == baseline && savedCache == Some(baseline)))
        && (outcome == Finished ==>
              && videoFiles == baseline
              && duplicates == old(duplicates) + Duplicates(settings.comparison, env.media, baseline)
              && task == if newFiles == [] && deletedFiles == [] then Completed else Running(ApplyChanges))
        && (outcome == Cancelled ==>
              && old(duplicates) <= duplicates
              && duplicates[|old(duplicates)|..] <= Duplicates(settings.comparison, env.media, baseline))
      ensures old(task) == Running(ApplyChanges) ==>
        var kept := Inventory(RemoveAll(old(videoFiles), old(deletedFiles)[..removed]), old(duplicates));
        && (0 < taken || outcome == Finished ==> deletedFiles == [])
        && (outcome == Finished ==> task == Completed && newFiles == [])
        && (taken == 0 ==> Inventory(videoFiles, duplicates) == kept)
        && savedCache == (if |videoFiles| == |kept.files| then old(savedCache) else Some(videoFiles))
        && (0 < taken || outcome == Finished ==>
              NewFilesTaken(old(configuration).value.comparison, env, kept, old(newFiles), taken, outcome, Inventory(videoFiles, duplicates)))
      ensures token.IsCancellationRequested() ==>
        && task == Completed && duplicates == old(duplicates) && savedCache == old(savedCache)
        && removed + taken <= 1 && videoFiles == RemoveAll(old(videoFiles), old(deletedFiles)[..removed])
    {
      if task.job == ScanFolder {
        ghost var replaced;
        outcome, replaced := ProcessFolder(env, token);
        removed, taken := 0, 0;
      } else {
        outcome, removed, taken := ProcessChanges(env, token);
      }
    }

    /**
     * ProcessFolder: builds the reconciled list, reads every duration,
     * keeps the files whose duration is not zero as the new inventory and
     * writes it to the cache, reports the duplicates of the inventory, and
     * then turns to the queued changes. The token is polled after each of
     * these steps; on cancellation the task ends where it is.
     */
    method ProcessFolder(env: Environment, token: CancellationToken) returns (outcome: Outcome, ghost replaced: bool)
      requires Valid() && task == Running(ScanFolder)
      modifies this`videoFiles, this`savedCache, this`task, this`duplicates
      ensures Valid()
      ensures outcome != Faulted
      ensures configuration == old(configuration) && watching == old(watching)
      ensures newFiles == old(newFiles) && deletedFiles == old(deletedFiles)
      ensures var settings := old(configuration).value;
        var baseline := Baseline(settings.folder, env);
        && (replaced ==> videoFiles == baseline && savedCache == Some(baseline))
        && (!replaced ==> videoFiles == old(videoFiles) && savedCache == old(savedCache) && duplicates == old(duplicates))
        && (outcome == Finished ==>
              && replaced
              && duplicates == old(duplicates) + Duplicates(settings.comparison, env.media, baseline)
              && task == if newFiles == [] && deletedFiles == [] then Completed else Running(ApplyChanges))
        && (outcome == Cancelled ==>
              && task == Completed
              && old(duplicates) <= duplicates
              && duplicates[|old(duplicates)|..] <= Duplicates(settings.comparison, env.media, baseline))
      ensures token.IsCancellationRequested() ==> outcome == Cancelled && !replaced
    {
      var settings := configuration.value;
      var after, cancelled;
      after, cancelled, replaced := LoadBaseline(env, settings.folder, token);
      if cancelled {
        assert duplicates[|old(duplicates)|..] == [];
        return Cancelled, replaced;
      }
      outcome := ReportDuplicates(env, settings.comparison, after);
    }

    /**
     * The last steps of ProcessFolder: reports the duplicates of the
     * inventory and polls the token once more; on cancellation the task
     * ends, otherwise it turns to the changes queued meanwhile. Once the
     * token reports cancellation nothing more is reported.
     */
    method ReportDuplicates(env: Environment, settings: ComparisonSettings, token: CancellationToken) returns (outcome: Outcome)
      modifies this`duplicates, this`task
      ensures outcome != Faulted
      ensures outcome == Finished ==>
        && duplicates == old(duplicates) + Duplicates(settings, env.media, videoFiles)
        && task == if newFiles == [] && deletedFiles == [] then Completed else Running(ApplyChanges)
      ensures outcome == Cancelled ==>
        && task == Completed
        && old(duplicates) <= duplicates
        && duplicates[|old(duplicates)|..] <= Duplicates(settings, env.media, videoFiles)
      ensures token.IsCancellationRequested() ==> outcome == Cancelled && duplicates == old(duplicates)
      ensures var l := SortByDuration(env.media, videoFiles);
        duplicates == old(duplicates) + Reported(settings, env.media, l, ExaminedWithin(settings, env.media, l, 0, token.Remaining()))
      ensures outcome == Cancelled ==> token.Remaining() <= PassPolls(settings, env.media, SortByDuration(env.media, videoFiles), 0)
      ensures outcome == Finished ==> PassPolls(settings, env.media, SortByDuration(env.media, videoFiles), 0) < token.Remaining()
    {
      var found, after, stopped := FindDuplicates(videoFiles, settings, env.media, token);
      duplicates := duplicates + found;
      assert duplicates[|old(duplicates)|..] == found;
      if token.IsCancellationRequested() {
        CancellationIsSticky(token, after);
      }
      if after.IsCancellationRequested() {
        task := Completed;
        return Cancelled;
      }
      ProcessChangesIfAny();
      outcome := Finished;
    }

    /**
     * The first steps of ProcessFolder: builds the reconciled list, reads
     * every duration, keeps the files whose duration is not zero as the new
     * inventory and writes it to the cache, polling the token after each
     * step. On cancellation the task ends, and the inventory is either
     * untouched or already the new baseline (`replaced`).
     */
    method LoadBaseline(env: Environment, folder: FolderSettings, token: CancellationToken)
        returns (after: CancellationToken, cancelled: bool, ghost replaced: bool)
      requires ValidInventory(videoFiles)
      modifies this`videoFiles, this`savedCache, this`task
      ensures ValidInventory(videoFiles)
      ensures task == if cancelled then Completed else old(task)
      ensures !cancelled ==> videoFiles == Baseline(folder, env) && savedCache == Some(videoFiles)
      ensures !replaced ==> videoFiles == old(videoFiles) && savedCache == old(savedCache)
      ensures replaced ==> videoFiles == Baseline(folder, env) && savedCache == Some(videoFiles)
      ensures !cancelled ==> replaced
      ensures token.IsCancellationRequested() ==> cancelled && !replaced
      ensures token.PolledUpTo(after)
      ensures replaced ==> |GetVideoFileList(folder, env.root, env.cacheFile, env.existing)| + 2 <= token.Remaining()
      ensures !replaced ==> token.Remaining() < |GetVideoFileList(folder, env.root, env.cacheFile, env.existing)| + 2
      ensures cancelled ==> token.Remaining() < |GetVideoFileList(folder, env.root, env.cacheFile, env.existing)| + 3
      ensures !cancelled ==> |GetVideoFileList(folder, env.root, env.cacheFile, env.existing)| + 3 <= token.Remaining()
    {
      replaced := false;
      var list := GetVideoFileList(folder, env.root, env.cacheFile, env.existing);
      cancelled := token.IsCancellationRequested();
      after := token.Next();
      if cancelled {
        task := Completed;
        return;
      }
      var loaded, counter;
      loaded, counter, after, cancelled := PreloadFiles(list, env.media, after);
      cancelled := after.IsCancellationRequested();
      after := after.Next();
      if cancelled {
        task := Completed;
        return;
      }
      BaselineIsValid(folder, env);
      videoFiles := WithDuration(env.media, loaded);
      savedCache := Some(videoFiles);
      replaced := true;
      cancelled := after.IsCancellationRequested();
      after := after.Next();
      if cancelled {
        task := Completed;
      }

    }

    /**
     * The first loop of ProcessChanges: takes each queued deletion in turn,
     * removes the path from the inventory and polls the token, returning
     * once it reports cancellation. `removed` counts the deletions taken.
     */
    method RemoveDeletedFiles(token: CancellationToken) returns (after: CancellationToken, cancelled: bool, ghost removed: nat)
      requires ValidInventory(videoFiles)
      modifies this`deletedFiles, this`videoFiles
      ensures ValidInventory(videoFiles)
      ensures removed <= |old(deletedFiles)| && deletedFiles == old(deletedFiles)[removed..]
      ensures videoFiles == RemoveAll(old(videoFiles), old(deletedFiles)[..removed])
      ensures !cancelled ==> removed == |old(deletedFiles)| && deletedFiles == []
      ensures token.PolledUpTo(after)
      ensures token.IsCancellationRequested() && old(deletedFiles) != [] ==> cancelled
      ensures after == CancellationToken(token.polls + removed, token.cancelAt)
      ensures cancelled ==> removed == token.Remaining() + 1
      ensures !cancelled ==> |old(deletedFiles)| <= token.Remaining()
    {
      ghost var deleted := deletedFiles;
      ghost var start := videoFiles;
      removed := 0;
      after := token;
      cancelled := false;
      while deletedFiles != []
        invariant removed <= |deleted| && deletedFiles == deleted[removed..]
        invariant videoFiles == RemoveAll(start, deleted[..removed])
        invariant token.PolledUpTo(after) && !cancelled
        invariant 0 < removed ==> !token.IsCancellationRequested()
        invariant after == CancellationToken(token.polls + removed, token.cancelAt) && removed <= token.Remaining()
      {
        var path := deletedFiles[0];
        RemoveNext(start, deleted, removed);
        deletedFiles := deletedFiles[1..];
        videoFiles := RemoveByPath(videoFiles, path);
        removed := removed + 1;
        cancelled := after.IsCancellationRequested();
        after := after.Next();
        if cancelled {
          RemoveAllKeepsInventoryValid(start, deleted[..removed]);
          return;
        }
      }
      RemoveAllKeepsInventoryValid(start, deleted[..removed]);
    }

    /**
     * One pass of the second loop of ProcessChanges for the new file
     * `path`: the access check (an ArgumentOutOfRangeException ends the
     * task), the duration, the containment check, then adding the file,
     * writing the cache and reporting its duplicates, with the token
     * polled where the source polls it.
     */
    method TakeNewFile(env: Environment, settings: ComparisonSettings, path: string, token: CancellationToken)
        returns (outcome: Outcome, after: CancellationToken)
      requires ValidInventory(videoFiles)
      modifies this`videoFiles, this`savedCache, this`duplicates
      ensures ValidInventory(videoFiles)
      ensures outcome == Faulted <==> AccessFrom(env.open(path), 0) == Rethrown
      ensures outcome == Finished ==>
        Inventory(videoFiles, duplicates) == AfterNewFile(settings, env, Inventory(old(videoFiles), old(duplicates)), path)
      ensures outcome == Faulted ==>
        videoFiles == old(videoFiles) && duplicates == old(duplicates) && savedCache == old(savedCache)
      ensures outcome == Cancelled ==>
        PartlyAfterNewFile(settings, env, Inventory(old(videoFiles), old(duplicates)), path, Inventory(videoFiles, duplicates))
      ensures old(videoFiles) <= videoFiles
      ensures savedCache == if |videoFiles| == |old(videoFiles)| then old(savedCache) else Some(videoFiles)
      ensures old(duplicates) <= duplicates
      ensures token.IsCancellationRequested() ==>
        && outcome != Finished
        && videoFiles == old(videoFiles) && duplicates == old(duplicates) && savedCache == old(savedCache)
      ensures token.PolledUpTo(after)
    {
      after := token;
      var file := new VideoFile(path, settings);
      var access;
      ghost var tries;
      access, tries := file.WaitForFileAccess(env.open(path));
      if access == Rethrown {
        return Faulted, after;
      }
      var cancelled := after.IsCancellationRequested();
      after := after.Next();
      if cancelled {
        return Cancelled, after;
      }
      if access == Inaccessible {
        return Finished, after;
      }
      var d := file.Duration(env.media.probe(path));
      if d == 0 {
        return Finished, after;
      }
      cancelled := after.IsCancellationRequested();
      after := after.Next();
      if cancelled {
        return Cancelled, after;
      }
      if path in PathSet(videoFiles) {
        return Finished, after;
      }
      var record := VideoRecord(path, Some(d));
      cancelled, after := AddNewRecord(env, settings, record, after);
      outcome := if cancelled then Cancelled else Finished;
    }

    /**
     * The end of TakeNewFile for a file that passed its checks: adds its
     * record, writes the cache and reports its duplicates in the grown
     * list, polling before and after the report. Cancellation leaves the
     * record added and a prefix of its duplicates reported.
     */
    method AddNewRecord(env: Environment, settings: ComparisonSettings, record: VideoRecord, token: CancellationToken)
        returns (cancelled: bool, after: CancellationToken)
      requires ValidInventory(videoFiles)
      requires record.filePath !in PathSet(videoFiles) && record.duration.Some? && record.duration.value != 0
      modifies this`videoFiles, this`savedCache, this`duplicates
      ensures videoFiles == old(videoFiles) + [record] && ValidInventory(videoFiles)
      ensures savedCache == Some(videoFiles)
      ensures old(duplicates) <= duplicates <= old(duplicates) + Matches(settings, env.media, videoFiles, record)
      ensures !cancelled ==> duplicates == old(duplicates) + Matches(settings, env.media, videoFiles, record)
      ensures token.IsCancellationRequested() ==> cancelled && duplicates == old(duplicates)
      ensures token.PolledUpTo(after)
    {
      AppendByPath(videoFiles, record);
      videoFiles := videoFiles + [record];
      savedCache := Some(videoFiles);
      cancelled := token.IsCancellationRequested();
      after := token.Next();
      if cancelled {
        return;
      }
      var found;
      found, after, cancelled := FindDuplicatesOf(videoFiles, record, settings, env.media, after);
      duplicates := duplicates + found;
      cancelled := after.IsCancellationRequested();
      after := after.Next();
    }

    /**
     * The second loop of ProcessChanges: takes each queued new file in turn
     * as TakeNewFile does, stopping when a file's access check throws or the
     * token reports cancellation. `taken` counts the new files taken.
     */
    method AddNewFiles(env: Environment, settings: ComparisonSettings, token: CancellationToken)
        returns (outcome: Outcome, after: CancellationToken, ghost taken: nat)
      requires ValidInventory(videoFiles)
      modifies this`newFiles, this`videoFiles, this`savedCache, this`duplicates
      ensures ValidInventory(videoFiles)
      ensures taken <= |old(newFiles)| && newFiles == old(newFiles)[taken..]
      ensures NewFilesTaken(settings, env, Inventory(old(videoFiles), old(duplicates)), old(newFiles), taken, outcome, Inventory(videoFiles, duplicates))
      ensures outcome == Finished ==> newFiles == []
      ensures taken == 0 ==> videoFiles == old(videoFiles) && duplicates == old(duplicates)
      ensures old(videoFiles) <= videoFiles
      ensures savedCache == if |videoFiles| == |old(videoFiles)| then old(savedCache) else Some(videoFiles)
      ensures old(duplicates) <= duplicates
      ensures token.IsCancellationRequested() ==> duplicates == old(duplicates) && videoFiles == old(videoFiles)
      ensures token.IsCancellationRequested() && old(newFiles) != [] ==> taken == 1 && outcome != Finished
      ensures token.PolledUpTo(after)
    {
      ghost var added := newFiles;
      ghost var start := Inventory(videoFiles, duplicates);
      taken := 0;
      after := token;
      outcome := Finished;
      while newFiles != []
        invariant taken <= |added| && newFiles == added[taken..]
        invariant ValidInventory(videoFiles)
        invariant Inventory(videoFiles, duplicates) == AddAll(settings, env, start, added[..taken])
        invariant forall p :: p in added[..taken] ==> AccessFrom(env.open(p), 0) != Rethrown
        invariant old(duplicates) <= duplicates
        invariant old(videoFiles) <= videoFiles
        invariant savedCache == if |videoFiles| == |old(videoFiles)| then old(savedCache) else Some(videoFiles)
        invariant token.PolledUpTo(after)
        invariant 0 < taken ==> !token.IsCancellationRequested()
        invariant outcome == Finished
        decreases |added| - taken
      {
        AddNext(settings, env, start, added, taken);
        outcome, after := TakeQueuedFile(env, settings, start, added, taken, after);
        taken := taken + 1;
        if outcome != Finished {
          return;
        }
      }
      assert added[..taken] == added;
    }

    /**
     * One pass of the loop of AddNewFiles: takes the queued new file
     * added[taken] off the queue and runs TakeNewFile on it.
     */
    method TakeQueuedFile(env: Environment, settings: ComparisonSettings, ghost start: Inventory, ghost added: seq<string>, ghost taken: nat, token: CancellationToken)
        returns (outcome: Outcome, after: CancellationToken)
      requires taken < |added| && newFiles == added[taken..]
      requires ValidInventory(videoFiles)
      requires Inventory(videoFiles, duplicates) == AddAll(settings, env, start, added[..taken])
      modifies this`newFiles, this`videoFiles, this`savedCache, this`duplicates
      ensures newFiles == added[taken + 1..] && ValidInventory(videoFiles)
      ensures old(videoFiles) <= videoFiles
      ensures savedCache == if |videoFiles| == |old(videoFiles)| then old(savedCache) else Some(videoFiles)
      ensures old(duplicates) <= duplicates
      ensures token.PolledUpTo(after)
      ensures token.IsCancellationRequested() ==>
        outcome != Finished && videoFiles == old(videoFiles) && duplicates == old(duplicates)
      ensures outcome == Finished ==>
        && Inventory(videoFiles, duplicates) == AfterNewFile(settings, env, AddAll(settings, env, start, added[..taken]), added[taken])
        && AccessFrom(env.open(added[taken]), 0) != Rethrown
      ensures outcome == Faulted ==>
        && Inventory(videoFiles, duplicates) == AddAll(settings, env, start, added[..taken])
        && AccessFrom(env.open(added[taken]), 0) == Rethrown
      ensures outcome == Cancelled ==>
        PartlyAfterNewFile(settings, env, AddAll(settings, env, start, added[..taken]), added[taken], Inventory(videoFiles, duplicates))
    {
      var path := newFiles[0];
      newFiles := newFiles[1..];
      outcome, after := TakeNewFile(env, settings, path, token);
    }

    /**
     * ProcessChanges: first takes every queued deletion, then every queued
     * new file; on cancellation or when an access check throws the task
     * ends where it is, otherwise it turns to the changes queued meanwhile.
     */
    method ProcessChanges(env: Environment, token: CancellationToken) returns (outcome: Outcome, ghost removed: nat, ghost taken: nat)
      requires Valid() && task == Running(ApplyChanges)
      modifies this`deletedFiles, this`newFiles, this`videoFiles, this`savedCache, this`duplicates, this`task
      ensures Valid()
      ensures configuration == old(configuration) && watching == old(watching)
      ensures removed <= |old(deletedFiles)| && deletedFiles == old(deletedFiles)[removed..]
      ensures taken <= |old(newFiles)| && newFiles == old(newFiles)[taken..]
      ensures 0 < taken || outcome == Finished ==> deletedFiles == []
      ensures outcome != Finished ==> task == Completed
      ensures outcome == Finished ==> task == Completed && newFiles == []
      ensures old(duplicates) <= duplicates
      ensures var kept := Inventory(RemoveAll(old(videoFiles), old(deletedFiles)[..removed]), old(duplicates));
        && (taken == 0 ==> Inventory(videoFiles, duplicates) == kept)
        && savedCache == (if |videoFiles| == |kept.files| then old(savedCache) else Some(videoFiles))
        && (0 < taken || outcome == Finished ==>
              NewFilesTaken(old(configuration).value.comparison, env, kept, old(newFiles), taken, outcome, Inventory(videoFiles, duplicates)))
      ensures token.IsCancellationRequested() ==>
        && task == Completed && duplicates == old(duplicates) && savedCache == old(savedCache)
        && removed + taken <= 1 && videoFiles == RemoveAll(old(videoFiles), old(deletedFiles)[..removed])
    {
      var settings := configuration.value.comparison;
      var after, cancelled;
      after, cancelled, removed := RemoveDeletedFiles(token);
      taken := 0;
      outcome := Cancelled;
      if !cancelled {
        outcome, after, taken := AddNewFiles(env, settings, after);
      }
      if outcome == Finished {
        ProcessChangesIfAny();
      } else {
        task := Completed;
      }
    }
  }
}
