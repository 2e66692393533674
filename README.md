# VideoDedup engine and video record, in Dafny

This project models the duplicate-detection core of VideoDedup:

- the `DedupEngine`, which keeps an inventory of the video files under a watched folder, compares them pairwise to report duplicates, and keeps the inventory up to date as the file-system watcher reports changes;
- the `VideoFile` record it works on, with identity by path, a lazily read duration, a memo of thumbnails, and the rules that decide when two videos are duplicates.

The model is split into seven modules:

- `Wrappers` (`wrappers.dfy`) holds `Option` and `Result`.
- `Comparison` (`comparison.dfy`) holds the duration rule in exact tick arithmetic, the thumbnail sampling, the count of differing sample pairs and the early-exit verdict.
- `PathText` (`path_text.dfy`) holds the parts of `System.IO.Path` and of string comparison the engine relies on: `GetFileName`, `GetExtension`, `GetDirectoryName`, `StartsWith` and a case-insensitive `Contains`.
- `VideoFiles` (`video_file.dfy`) holds the class `VideoFile`, whose fields `duration`, `fileSize` and `thumbnails` are updated in place:
  - the memoized `Duration` and `FileSize`;
  - the bounded `WaitForFileAccess` loop;
  - `GetThumbnail`, `AreThumbnailsEqual` and `DisposeThumbnails`;
  - equality and the hash code.

  It also holds `VideoRecord`, the value view of a record that the engine keeps in its lists.
- `Discovery` (`discovery.dfy`) holds:
  - the relevance filter for watcher paths;
  - the recursive walk of an abstract directory tree;
  - the reconciliation of the persisted cache with a fresh scan.
- `Passes` (`passes.dfy`) holds:
  - the cancellation token;
  - `OrderBy` on durations;
  - the full pairwise pass `FindDuplicates` and the targeted pass `FindDuplicatesOf`, both as loops;
  - `PreloadFiles`, the zero-duration filter and `List.Remove`.
- `Engine` (`engine.dfy`) holds the class `DedupEngine`. Its fields are:
  - the configuration;
  - the task state;
  - the watcher settings;
  - the two change queues;
  - the inventory `videoFiles`;
  - the last list written to the cache file;
  - the sequence of `DuplicateFound` events.

  Its methods are `Start`, `Stop`, the event handlers, `ProcessFolder` and `ProcessChanges`. The two task bodies are split into the steps the source takes.

The engine is modelled sequentially. `Task.Factory.StartNew` sets the field `task` to `Running(job)`. `RunTask` then runs that body as a whole, with a cancellation token. Watcher events arrive between bodies. A `CancellationToken(polls, cancelAt)` answers its polls in order and reports cancellation from poll number `cancelAt` on. `token.Remaining()` is the number of polls that still answer "not cancelled". The methods of `Passes`, and the engine's `RemoveDeletedFiles`, `LoadBaseline` and `ReportDuplicates`, state exactly when the token stops them. For `FindDuplicates` and `ReportDuplicates` this is in terms of the polls of the full pass (`Passes.PassPolls`) and the pairs examined within a budget of polls (`Passes.ExaminedWithin`). For `FindDuplicatesOf`, `PreloadFiles` and `RemoveDeletedFiles` it is a position in the list. For `LoadBaseline` it is the length of the reconciled list. The delta pass (`TakeNewFile`, `AddNewFiles`, `ProcessChanges`) states instead what a cancelled or faulted run leaves (`Engine.PartlyAfterNewFile`), and what a token cancelled at the start lets it do. The delta pass writes the cache file only after adding a new file, so after a pass that only removes deleted files the cache file still holds the list written before those removals.

`Environment` stands for the outside world the bodies read:
- the directory tree;
- the cache file's content;
- `File.Exists`;
- the media functions (duration probe, frame extractor, image difference);
- the outcomes of successive `File.Open` attempts.

The engine calls extension methods of a newer `VideoFile` whose source is not part of this model:
- `IsDurationEqual(other, settings)`;
- `AreImagesEqual(other, settings, cancelToken)`;
- `DisposeImages()`;
- `WaitForFileAccess(cancelToken)`.

On records they are modelled by two predicates, `Passes.DurEq` and `Passes.ImgEq`. These apply the rules of `VideoDedup/VideoFile.cs` (`IsDurationEqual` and `AreThumbnailsEqual`). `Passes.SamplesOfOwnMemoAreThumbnails` ties `ImgEq` to the samples the class's `AreThumbnailsEqual` fetches. This holds whenever the file's memo holds only its own thumbnails, as it does after earlier comparisons in the pass. `Passes.FetchingKeepsOwnThumbnails` shows that fetching keeps the memo in that form. The engine's access check uses the visible `WaitForFileAccess`.

The model follows the code in these places, which a reader might not expect:
- An extraction failure stores a 1×1 placeholder image. Its difference score is whatever the differencer says; it is not counted as "different" by force.
- `WaitForFileAccess` lets `ArgumentOutOfRangeException` through. This ends the delta pass (`Outcome.Faulted`) rather than skipping the file.
- The watcher relevance filter compares extensions case-sensitively, while the scan ignores case (`Discovery.WatcherFilterIsCaseSensitive`).
- Excluded directories are matched as path prefixes by the watcher filter, but by exact path in the directory walk.

## Model

| member | source | states |
|---|---|---|
| Comparison.SecondsRuleIsSymmetric | VideoDedup/VideoFile.cs:127-128 | In Seconds mode the verdict does not depend on which file is `this`. |
| Comparison.PercentRuleRejectsZeroBase | VideoDedup/VideoFile.cs:129-132 | In Percent mode a file of zero duration is duration-equal to no file. |
| Comparison.PercentRuleIsAsymmetric | VideoDedup/VideoFile.cs:129-132 | With a 5 % tolerance, 101 s accepts 96 s but 96 s does not accept 101 s: the base is this file's duration only. |
| Comparison.DurationWindowIsInterval | VideoDedup/VideoFile.cs:123-136 | For a fixed reference duration, a longer duration that is equal implies every duration between them is equal. This is what makes the sorted pass's break safe. |
| Comparison.DifferentCountIsCardinality | VideoDedup/VideoFile.cs:167-177 | The running count of different pairs after n samples is the number of indices below n whose score exceeds the threshold. |
| Comparison.DifferentCountMonotone | VideoDedup/VideoFile.cs:174-177 | Sampling more pairs never lowers the count. |
| Comparison.SamplesFetched | VideoDedup/VideoFile.cs:168-183 | The number of pairs fetched is at least one when there are samples. No prefix before it exceeds the limit. It stops short of the end only at a prefix that exceeds the limit. |
| Comparison.ExceedingStopsFetching | VideoDedup/VideoFile.cs:179-182 | The first pair that pushes the count past the limit is the last one fetched, and the verdict is then false. |
| Comparison.ThumbnailsMatchIffNoPrefixExceeds | VideoDedup/VideoFile.cs:165-185 | The verdict is true iff no non-empty prefix of the samples exceeds MaxDifferentThumbnails. The early exit therefore agrees with counting all pairs. |
| PathText.FileName | VideoDedup/VideoFile.cs:23 | The file name is a suffix of the path without separators, and it starts the path or follows a separator. |
| PathText.FileNameIsUnique | VideoDedup/VideoFile.cs:23 | Any such suffix is the file name. |
| PathText.Extension | VideoDedupShared/Classes/DedupEngine.cs:243 | The extension is empty, or it is a suffix of the path of length at least 2 that starts with '.' and holds no other '.' or separator. Conversely, when a '.' that is not the last character has no '.' or separator after it, the extension is the text from that '.'. |
| PathText.DirectoryName | VideoDedupShared/Classes/DedupEngine.cs:363-364 | There is no directory name (the source's null) exactly for an empty path or a root such as `C:\`. Otherwise the directory name is shorter than the path and holds no '/'. Its value is pinned by the lemmas below. |
| PathText.NormalizeSeparators | VideoDedupShared/Classes/DedupEngine.cs:363-364 | The result is in normal form: only `\` separates, and no two separators are adjacent except a leading pair. The other characters are kept in order, a separator stands in exactly the gaps between them where the input has a run of separators, and a leading pair is kept. |
| PathText.NormalFormIsUnique | VideoDedupShared/Classes/DedupEngine.cs:363-364 | Two strings in normal form with the same other characters, separators in the same gaps and the same leading pair are equal, so the contract above determines the result. |
| PathText.NormalizeSeparatorsIsIdempotent | VideoDedupShared/Classes/DedupEngine.cs:363-364 | Normalising a normalised string changes nothing. |
| PathText.DirectoryNameOfChild | VideoDedupShared/Classes/DedupEngine.cs:363-364 | A file name that follows a root directly, or follows a directory in normal form and one separator, has that root or directory as its directory name. |
| PathText.DirectoryNameOfChildAnySeparators | VideoDedupShared/Classes/DedupEngine.cs:363-364 | A file name that follows a directory and one separator of either kind, above the root, has that directory with its separators normalised as its directory name. |
| PathText.NormalizeSlashedDirectory | VideoDedupShared/Classes/DedupEngine.cs:363-364 | `C:/V` normalises to `C:\V`. |
| PathText.DirectoryNameOfSlashedPath | VideoDedupShared/Classes/DedupEngine.cs:363-364 | `C:/V/a.mp4` has the directory name `C:\V`. |
| PathText.DirectoryNameOnDriveRoot | VideoDedupShared/Classes/DedupEngine.cs:363-364 | `C:\a.mp4` has the directory name `C:\`, and `C:\` itself has none. |
| PathText.ContainsImpliesContainsIgnoreCase | VideoDedupShared/Classes/DedupEngine.cs:345-347 | A value that is ordinally in the list is also in it ignoring case. |
| VideoFiles.AccessibleIffAnOpenSucceeds | VideoDedup/VideoFile.cs:96-121 | Access is granted iff one of the first 20 opens succeeds and every open before it failed with a retryable error. |
| VideoFiles.Wrap32 | VideoDedup/VideoFile.cs:205 | Unchecked int addition: the result is in the signed 32-bit range and congruent to the exact sum modulo 2^32. |
| VideoFiles.VideoFile.constructor | VideoDedup/VideoFile.cs:80-84 | A new record has the given path and settings, nothing memoized and no thumbnails. |
| VideoFiles.VideoFile.Duration | VideoDedup/VideoFile.cs:51-70 | The first read stores the probe's answer, or zero when the probe throws. Every later read returns the stored value whatever the probe says then. |
| VideoFiles.VideoFile.FileSize | VideoDedup/VideoFile.cs:38-49 | It is memoized like Duration, but a failed read is an error and leaves the memo unset. |
| VideoFiles.VideoFile.WaitForFileAccess | VideoDedup/VideoFile.cs:96-121 | The answer is `AccessFrom(attempt, 0)`, after 1 to 20 attempts. All attempts but the last failed with a retryable error. The answer is Accessible iff the last open succeeded and Rethrown iff it threw ArgumentOutOfRange. A retryable last failure means all 20 attempts were made. |
| VideoFiles.VideoFile.IsDurationEqual | VideoDedup/VideoFile.cs:123-136 | The verdict is the duration rule with this file's duration as the reference. Both durations are memoized as a read yields them. |
| VideoFiles.VideoFile.SampleAtFrontier | VideoDedup/VideoFile.cs:145-162 | Fetching the next sample yields it and adds exactly it to the memo. |
| VideoFiles.VideoFile.SampleAlreadyFetched | VideoDedup/VideoFile.cs:145-162 | Fetching a memoized sample again yields the stored image and leaves the memo as it is. |
| VideoFiles.VideoFile.GetThumbnail | VideoDedup/VideoFile.cs:138-163 | An index outside [0, thumbnailCount) is an error and changes nothing. Otherwise it returns the memoized image, or the extracted one (placeholder on failure), which is stored under that index only. A memo hit reads no duration. |
| VideoFiles.VideoFile.FetchSamplePair | VideoDedup/VideoFile.cs:170-171 | One loop step fetches sample i of both files, also when they are the same object, and extends both memos by it. |
| VideoFiles.VideoFile.AreThumbnailsEqual | VideoDedup/VideoFile.cs:165-185 | The verdict is `ThumbnailsMatch` of both files' samples. Each memo ends up holding exactly the samples fetched up to the early exit. The durations the files yield are unchanged. |
| VideoFiles.VideoFile.DisposeThumbnails | VideoDedup/VideoFile.cs:187-190 | The thumbnail memo is emptied. Path, duration and size are untouched. |
| VideoFiles.VideoFile.GetHashCode | VideoDedup/VideoFile.cs:203-206 | The hash is a signed 32-bit int however large the path's string hash is (unchecked addition of 1230029444). |
| VideoFiles.EqualsIsEquivalence | VideoDedup/VideoFile.cs:192-201 | Equality by path is reflexive, symmetric and transitive, and no record equals null. |
| VideoFiles.EqualRecordsHashEqually | VideoDedup/VideoFile.cs:197-206 | Equal records have equal hash codes. |
| VideoFiles.OperatorEqualsAgreesWithEquals | VideoDedup/VideoFile.cs:208-216 | `==` agrees with Equals on a non-null left side and is symmetric. `!=` is its negation. |
| Discovery.InExcludedDirectory | VideoDedupShared/Classes/DedupEngine.cs:234-241 | The path is excluded iff it starts with some excluded directory. |
| Discovery.RelevantIffAllThreeHold | VideoDedupShared/Classes/DedupEngine.cs:226-251 | A path is relevant iff three conditions hold: it starts with the base path, it starts with no excluded directory, and its extension is ordinally one of the configured extensions. |
| Discovery.RelevantPathPassesScanFilter | VideoDedupShared/Classes/DedupEngine.cs:243-244 | A path relevant to the watcher also passes the scan's case-insensitive extension filter. |
| Discovery.WatcherFilterIsCaseSensitive | VideoDedupShared/Classes/DedupEngine.cs:243-244 | The converse fails: "V/a.MP4" passes the scan filter for ".mp4" but is not relevant to the watcher. |
| Discovery.IsRecycleBinIffFileName | VideoDedupShared/Classes/DedupEngine.cs:283 | The recycle-bin test is `Path.GetFileName(dir) == "$RECYCLE.BIN"`. |
| Discovery.WalkCollectsReachableFiles | VideoDedupShared/Classes/DedupEngine.cs:277-316 | Every file of a reachable directory is collected. A directory is reachable along a route that avoids recycle bins and unlistable directories, excluded subdirectories, and subdirectories when not recursive. |
| Discovery.WalkCollectsOnlyReachableFiles | VideoDedupShared/Classes/DedupEngine.cs:277-316 | Every collected file belongs to such a reachable directory. |
| Discovery.UnionWith | VideoDedupShared/Classes/DedupEngine.cs:367 | HashSet.UnionWith by path: the result extends the current set, covers the paths of both, holds only items of either, and stays unique by path. |
| Discovery.RetainedEntries | VideoDedupShared/Classes/DedupEngine.cs:361-366 | RemoveWhere keeps exactly the entries whose file exists and, when not recursive, whose directory is the base path. |
| Discovery.Discovered | VideoDedupShared/Classes/DedupEngine.cs:348 | The records' paths are exactly the found paths, and no record has a duration memoized. |
| Discovery.Reconcile | VideoDedupShared/Classes/DedupEngine.cs:350-368 | The result is unique by path. With a missing or empty cache its paths are exactly the found paths. Otherwise they are the retained cache entries' paths ∪ the found paths. Every entry is a retained cache entry or a fresh record of a found path, and every retained cache entry is kept. |
| Discovery.WithVideoExtension | VideoDedupShared/Classes/DedupEngine.cs:345-347 | It keeps exactly the files whose extension is configured, ignoring case. |
| Discovery.GetVideoFileList | VideoDedupShared/Classes/DedupEngine.cs:332-375 | The list is unique by path. Every entry is a retained cache entry, or a fresh record of a collected file with a video extension. |
| Discovery.GetVideoFileListPaths | VideoDedupShared/Classes/DedupEngine.cs:332-375 | The list's paths are exactly the retained cache entries' paths ∪ the collected files with a video extension (ignoring case), and every retained cache entry is kept. |
| Passes.Resolve | VideoDedupShared/Classes/DedupEngine.cs:392 | Reading a duration fixes it: the path and the duration the record yields are unchanged, and an already-read record is left as it is. |
| Passes.SamplesOfFreshFileAreThumbnails | VideoDedupShared/Classes/DedupEngine.cs:451 | The samples the class fetches for a file with an empty memo are the samples ImgEq compares. |
| Passes.SamplesOfOwnMemoAreThumbnails | VideoDedup/VideoFile.cs:145-162 | The samples the class fetches for a file whose memo holds only its own thumbnails are the samples ImgEq compares. |
| Passes.FetchingKeepsOwnThumbnails | VideoDedup/VideoFile.cs:158-161 | Fetching any number of a file's samples into a memo of its own thumbnails leaves a memo of its own thumbnails. |
| Passes.Insert | VideoDedupShared/Classes/DedupEngine.cs:419 | Insertion into a duration-sorted list keeps it sorted and adds exactly the record. |
| Passes.SortByDuration | VideoDedupShared/Classes/DedupEngine.cs:419 | OrderBy(f => f.Duration) is sorted by duration and a permutation of its input. |
| Passes.ExaminedMembership | VideoDedupShared/Classes/DedupEngine.cs:421-456 | The nested loop examines (a, b) iff a < b and l[a] is duration-equal to every file from a + 1 to b. |
| Passes.BreakEndsTheRow | VideoDedupShared/Classes/DedupEngine.cs:446-449 | Once l[i] and l[j] are not duration-equal, no pair (i, k) with k ≥ j is examined. |
| Passes.ReportsOnlyCloseSimilarPairs | VideoDedupShared/Classes/DedupEngine.cs:412-464 | Every reported pair is (l[i], l[j]) of the sorted list with i < j. l[i] is duration-equal to every file from i + 1 to j, and the images match. |
| Passes.ReportsEveryCloseSimilarPair | VideoDedupShared/Classes/DedupEngine.cs:437-455 | Every pair i < j of the sorted list that is duration-equal and has matching images is reported: the break loses nothing. |
| Passes.CompareRow | VideoDedupShared/Classes/DedupEngine.cs:437-456 | The inner loop polls before each file of row `index`. It is cancelled iff the token's remaining polls fall short of the row's polls. It then stops at position index + 1 + remaining; otherwise it stops at the row's end. It reports exactly the image matches of the pairs before that position, and the token advances by exactly the polls made. |
| Passes.CompareRows | VideoDedupShared/Classes/DedupEngine.cs:421-459 | The nested loop is cancelled iff the token's remaining polls fall short of the full pass's polls. It reports exactly the image matches of the pairs examined within that budget. The token advances by the budget plus one when cancelled, by the full pass's polls otherwise. |
| Passes.ExaminedWithinIsPrefix | VideoDedupShared/Classes/DedupEngine.cs:421-459 | Whatever the budget, the pairs examined within it are a prefix of those the full pass examines, and all of them when the budget covers every poll. |
| Passes.ReportedWithinIsPrefix | VideoDedupShared/Classes/DedupEngine.cs:412-464 | What the pass reports within a budget is a prefix of everything it reports: all of it when the budget covers every poll, nothing for a zero budget. |
| Passes.FindDuplicates | VideoDedupShared/Classes/DedupEngine.cs:412-464 | It reports a prefix of the full pass's duplicates: all of them unless cancelled, none when the token is already cancelled. It is cancelled iff the token's remaining polls fall short of the full pass's polls. It then reports the matches of the pairs examined within those polls, and makes one poll more. |
| Passes.MatchesMembership | VideoDedupShared/Classes/DedupEngine.cs:473-494 | The targeted pass reports (ref, f) iff f is in the list with another path, f is duration-equal to ref with f's duration as the base, and the images match. In particular, ref is never paired with itself. |
| Passes.FindDuplicatesOf | VideoDedupShared/Classes/DedupEngine.cs:466-496 | It reports a prefix of those matches in list order: all of them unless cancelled, none when the token is already cancelled. It is cancelled iff the token's remaining polls are fewer than the files. The report is then the matches among the first `Remaining()` files, and the token advances by one poll more than that; otherwise it advances by one poll per file. |
| Passes.ResolvedKeepsRecords | VideoDedupShared/Classes/DedupEngine.cs:377-399 | Preloading keeps every path and every duration a record yields, and keeps the list unique by path. Once all are read, every record holds its duration. |
| Passes.PreloadFiles | VideoDedupShared/Classes/DedupEngine.cs:377-399 | The durations of the first `counter` records are read, and the token advances by `counter` polls. It is cancelled iff the token's remaining polls are fewer than the records, and `counter` is then that number plus one. Otherwise `counter` covers the whole list. |
| Passes.WithDuration | VideoDedupShared/Classes/DedupEngine.cs:530-532 | It keeps exactly the records of non-zero duration, as a subsequence of its input, and keeps uniqueness by path. |
| Passes.RemoveByPath | VideoDedupShared/Classes/DedupEngine.cs:559 | An untracked path leaves the list unchanged. A tracked one shortens it by one, and no record is added. |
| Passes.RemoveByPathKeepsUnique | VideoDedupShared/Classes/DedupEngine.cs:559 | On a list unique by path, removal keeps it unique and drops exactly that path. |
| Engine.AfterNewFileMembership | VideoDedupShared/Classes/DedupEngine.cs:573-608 | A new file enters the inventory iff it was accessible, its duration is non-zero and its path was not tracked. No other record changes. |
| Engine.AfterNewFileKeepsInventoryValid | VideoDedupShared/Classes/DedupEngine.cs:599-603 | Taking a new file keeps the inventory unique by path with non-zero durations, and keeps the duplicates reported before. |
| Engine.RemoveAllKeepsInventoryValid | VideoDedupShared/Classes/DedupEngine.cs:557-571 | Draining deletions keeps the inventory valid and removes exactly the deleted paths. |
| Engine.ChangesKeepInventoryValid | VideoDedupShared/Classes/DedupEngine.cs:573-626 | Draining the new files keeps the inventory valid and keeps the duplicates reported before. |
| Engine.BaselineIsValid | VideoDedupShared/Classes/DedupEngine.cs:516-532 | The baseline is unique by path with no zero duration, and is a subsequence of the reconciled list once its durations are read. |
| Engine.DedupEngine.constructor | VideoDedupShared/Classes/DedupEngine.cs:99-106 | A new engine has no configuration, no task, empty queues and inventory, and no events. |
| Engine.DedupEngine.UpdateConfiguration | VideoDedupShared/Classes/DedupEngine.cs:111-119 | A null configuration is rejected and changes nothing. Otherwise the configuration is replaced. |
| Engine.DedupEngine.Start | VideoDedupShared/Classes/DedupEngine.cs:121-167 | It fails without a configuration, or when the base path is not an existing directory. On an error, or while a task runs, it changes nothing: task, watcher, watched path and recursion flag, and both queues stay as they were. Otherwise it watches the base path (recursive as configured), empties both queues and starts the scan. |
| Engine.DedupEngine.Stop | VideoDedupShared/Classes/DedupEngine.cs:169-181 | The watcher is off afterwards; its path and recursion flag and the configuration are kept. With no running task nothing else changes: task, inventory, queues, cache file and events stay as they were. A running task runs with a cancelled token and ends completed. It reports nothing and leaves the cache file as it was. It takes at most one queued deletion or one queued new file: the queues lose at most that head, and the inventory loses at most that deleted path. |
| Engine.DedupEngine.StartProcessingChanges | VideoDedupShared/Classes/DedupEngine.cs:183-196 | It starts the delta pass unless a task is still running. |
| Engine.DedupEngine.HandleNewFileEvent | VideoDedupShared/Classes/DedupEngine.cs:265-275 | A relevant path is appended to the new-files queue and the delta pass is started if idle. An irrelevant path changes nothing. |
| Engine.DedupEngine.HandleDeletedFileEvent | VideoDedupShared/Classes/DedupEngine.cs:253-263 | A relevant path is appended to the deleted queue and the delta pass is started if idle. An irrelevant path changes nothing. |
| Engine.DedupEngine.HandleRenamedEvent | VideoDedupShared/Classes/DedupEngine.cs:216-221 | A rename queues the old path as deleted, then the new path as new, each only if relevant. The delta pass starts when either was queued and no task runs. |
| Engine.DedupEngine.ProcessChangesIfAny | VideoDedupShared/Classes/DedupEngine.cs:498-510 | With both queues empty the task completes (monitoring). Otherwise the delta pass starts. |
| Engine.DedupEngine.RunTask | VideoDedupShared/Classes/DedupEngine.cs:161-166 | Running the pending body keeps the engine valid and leaves it completed or with the delta pass pending. For the scan it gives what `ProcessFolder` states: the inventory and cache are untouched or the baseline, the full pass's duplicates are reported when it finishes, and a prefix of them when cancelled. For the delta pass it gives what `ProcessChanges` states: `RemoveAll` of the deletions taken, then `NewFilesTaken` of the new files taken, and the cache file rule. A cancelled token reports nothing, leaves the cache file as it was and takes at most one queued change. |
| Engine.DedupEngine.ProcessFolder | VideoDedupShared/Classes/DedupEngine.cs:512-551 | Either the inventory, cache file and events are untouched, or the inventory and the cache file are the baseline (`replaced`). Finished: the baseline was written, the duplicates of the full pass are reported, and the queued changes are picked up. Cancelled: the task completes having reported a prefix of those duplicates. A token cancelled at the start changes nothing. |
| Engine.DedupEngine.LoadBaseline | VideoDedupShared/Classes/DedupEngine.cs:514-537 | Unless cancelled, the inventory and the cache file become the baseline. A cancellation before that point leaves both untouched, as does a token cancelled at the start. With n files in the reconciled list, the baseline is written iff the token has at least n + 2 polls left, and the step is not cancelled iff it has at least n + 3. |
| Engine.DedupEngine.ReportDuplicates | VideoDedupShared/Classes/DedupEngine.cs:539-550 | The duplicates of the inventory are appended (a prefix when cancelled). Exactly the matches of the pairs examined within the token's remaining polls are appended. It ends cancelled iff those polls do not exceed the full pass's polls. Otherwise it turns to the queued changes or ends. |
| Engine.DedupEngine.RemoveDeletedFiles | VideoDedupShared/Classes/DedupEngine.cs:557-571 | It removes the first `removed` queued paths in order, and all of them unless cancelled, polling once per removal. It is cancelled iff the token's remaining polls are fewer than the queued paths, and `removed` is then that number plus one. The inventory stays valid. |
| Engine.DedupEngine.TakeNewFile | VideoDedupShared/Classes/DedupEngine.cs:575-625 | One new file: it faults iff the access check rethrows, and a fault changes neither the inventory, the events nor the cache file. When it finishes, the inventory and events are `AfterNewFile` of the old ones. When cancelled, either nothing changed, or the file was added as `AfterNewFile` adds it and a prefix of its duplicates was reported (`PartlyAfterNewFile`). The inventory only grows, and the cache file holds the grown inventory exactly when the file was added; otherwise it is untouched. A token cancelled at the start changes nothing. |
| Engine.DedupEngine.AddNewRecord | VideoDedupShared/Classes/DedupEngine.cs:599-625 | The record is appended, the cache file holds the grown list, and a prefix of its duplicates in that list is reported: all of them unless cancelled, none for a token cancelled at the start. |
| Engine.DedupEngine.AddNewFiles | VideoDedupShared/Classes/DedupEngine.cs:573-626 | It takes the queued new files in order (`NewFilesTaken`). When it finishes, the inventory and events are `AddAll` of the queue. A fault names the file whose access check rethrew, and leaves `AddAll` of the files before it. A cancellation leaves `PartlyAfterNewFile` of the file it stopped at over `AddAll` of the files before it. The cache file is untouched while no file was added, and holds the inventory once one was. A token cancelled at the start takes one file (when any is queued) and changes nothing. |
| Engine.DedupEngine.TakeQueuedFile | VideoDedupShared/Classes/DedupEngine.cs:573-626 | One step of that loop: the head of the queue is taken and its outcome is related to `AddAll` of the files taken before it. The cache file is untouched unless the file was added, and then holds the inventory. |
| Engine.DedupEngine.ProcessChanges | VideoDedupShared/Classes/DedupEngine.cs:553-629 | Deletions drain before any new file is taken. While no new file is taken, the inventory is `RemoveAll` of the deletions taken and no event is reported. Once the deletions are drained, the new files taken satisfy `NewFilesTaken` over that inventory: `AddAll` of the whole queue when it finishes, with no access check rethrown; after a fault or a cancellation, `AddAll` of the files before the last one taken, or `PartlyAfterNewFile` of that one. The cache file is untouched unless a new file was added, and then holds the inventory. The inventory stays unique by path with non-zero durations. A token cancelled at the start takes at most one deletion or one new file, reports nothing and leaves the cache file as it was. |

## Left out

- Concurrency is not modelled: `Task.Factory.StartNew`, `lock (DedupLock)`, the concurrent queues and `DedupTask.Wait()`. The engine is sequential, and a task body runs as a whole between watcher events.
- The file system and serialisation are parameters, not operations:
  - `FileSystemWatcher` is not modelled; the handlers are called directly.
  - Directory enumeration is an abstract tree.
  - `File.Exists` is a set.
  - `File.Open` is a sequence of outcomes.
  - JSON load/save is the cache value in `Environment.cacheFile` and the field `savedCache`, which stands for the last list written by `SaveVideoFilesCache`.
- The media calls `FFProbe`, `FFMpegConverter` and `Image.PercentageDifference` are uninterpreted functions. The thumbnail time offset is computed inside the extractor.
- Floating point is not modelled:
  - Durations are integer ticks, and both duration rules are exact integer inequalities (the source compares `double` TotalSeconds).
  - The difference threshold is compared as a real.
- Logging, progress events, `Stopwatch` timing and `Thread.Sleep` backoff are left out, as are `Dispose` of the engine and of queued files, and `DisposeImages` in the engine.
- The `Changed`/`Created` watcher handlers only forward to `HandleNewFileEvent`, and the `Error` handler only logs. They have no members of their own.
- The cancellable `WaitForFileAccess(cancelToken)` and `AreImagesEqual(…, cancelToken)` that the engine calls are not part of this model. The visible `WaitForFileAccess` is used, and the image comparison runs to completion.
- `Passes.SortByDuration`: proves the result sorted and a permutation, but not that `OrderBy` keeps equal durations in input order.
- `Discovery.Directory`: an `UnauthorizedAccessException` part way through a listing is modelled as an unlistable directory contributing nothing.
- `PathText.DirectoryName`: UNC roots (`\\server\share`) and device paths (`\\?\`) are treated as a path with one leading separator. The directory name of a UNC share's root therefore differs from the runtime's. An empty path gives no directory name, where some runtimes throw. Some runtimes normalise the separators of the whole path before the scan; the model normalises only the result.
- `PathText.StartsWith`: the source's `string.StartsWith(string)` (DedupEngine.cs:228, :236) compares by the current culture; the model compares ordinally.
- `PathText.EqualsIgnoreCase`: culture-sensitive case folding is reduced to ASCII letters.
- `Discovery.UnionWith`: the HashSet's enumeration order is modelled as insertion order.
- `Engine.DedupEngine.ProcessFolder`: on cancellation states only that the inventory is either untouched or already the baseline. It does not say at which poll the pass stopped.
- `VideoFiles.VideoFile.GetHashCode`: the string hash is a parameter.
- `VideoFiles.VideoFile.FileName`, `FileName` in the source: a plain call of `PathText.FileName`; it has no contract of its own.
- `VideoFiles.VideoFile.IsDurationEqual`: the default branch that throws `ConfigurationErrorsException` cannot occur, because the duration rule is a closed datatype.
- `Engine.DedupEngine.ProcessFolder`: the exceptions that fault the scan in the source are not modelled, so it never ends `Faulted`. They are: `File.WriteAllText` failing in `SaveVideoFilesCache` (DedupEngine.cs:406, reached from :533), and `Directory.EnumerateFiles` or `Directory.GetDirectories` (:296, :302) throwing anything other than the `UnauthorizedAccessException` caught at :310.
- `Engine.DedupEngine.LoadBaseline`: a failing cache write at DedupEngine.cs:533 is not modelled; in the source it faults the scan before any duplicate is reported.
- `Engine.DedupEngine.TakeNewFile`: a failing cache write at DedupEngine.cs:610 is not modelled. The model faults only when the access check rethrows.
- `Comparison.ComparisonSettings`: `MaxThumbnailComparison` is a `nat`. The source's `int` could be negative, and `Enumerable.Range` (VideoFile.cs:168) would then throw and fault the pass.
- `Engine.DedupEngine`: `VideoFiles` starts as an empty list rather than null. The source's list is null until a scan sets it at DedupEngine.cs:530. A scan that faults before that line (see `ProcessFolder` above) leaves it null, and a later delta pass would then throw on it; the model has no such fault.
- `Engine.DedupEngine.TakeNewFile`: when cancelled, states which of the states in `PartlyAfterNewFile` it leaves, but not the poll that stopped it.
- `Engine.DedupEngine.AddNewFiles`: states which file a cancellation stopped at (the ghost count `taken`) and what it left, but not at which poll.
- `Engine.DedupEngine.ProcessChanges`: like `AddNewFiles`. A cancellation during the deletions is stated through `removed` only.
