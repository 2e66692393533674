/**
 * The video record entity of VideoDedup/VideoFile.cs: identity by path,
 * lazily memoized duration and size, a memo of thumbnails, the comparison
 * methods built on the rules of module Comparison, and the bounded wait for
 * read access.
 */
module VideoFiles {
  import opened Wrappers
  import opened Comparison
  import PathText

  /**
   * The duration a lazy read yields: the memo when it is set, otherwise the
   * probe's answer, and TimeSpan.Zero when the probe threw.
   */
  function DurationOf(memo: Option<nat>, probe: Option<nat>): nat {
    if memo.Some? then memo.value else probe.GetOr(0)
  }

  /**
   * The value view of a record, as the cache file stores it and as the
   * engine keeps it in its lists: the path and the duration memo.
   */
  datatype VideoRecord = VideoRecord(filePath: string, duration: Option<nat>)

  datatype IoError = FileNotFound
  datatype ThumbnailError = IndexOutOfRange

  /** The outcome of one File.Open attempt: success or the exception it threw. */
  datatype OpenOutcome =
    | Opened
    | ArgumentOutOfRange
    | ArgumentNull
    | InvalidArgument
    | PathTooLong
    | DirectoryNotFound
    | NotSupported
    | OtherFailure

  /** WaitForFileAccess's answer; Rethrown stands for the ArgumentOutOfRangeException it lets through. */
  datatype AccessResult = Accessible | Inaccessible | Rethrown

  const MaxOpenAttempts: nat := 20

  /** The answer of WaitForFileAccess once attempts 0 .. k - 1 have failed transiently. */
  function AccessFrom(attempt: nat -> OpenOutcome, k: nat): AccessResult
    decreases MaxOpenAttempts - k
  {
    if k >= MaxOpenAttempts then Inaccessible
    else match attempt(k)
      case Opened => Accessible
      case ArgumentOutOfRange => Rethrown
      case OtherFailure => AccessFrom(attempt, k + 1)
      case _ => Inaccessible
  }

  /**
   * Access is granted exactly when one of the first MaxOpenAttempts opens
   * succeeds and every open before it failed with a retryable error.
   */
  lemma {:induction false} AccessibleIffAnOpenSucceeds(attempt: nat -> OpenOutcome, k: nat)
    requires k <= MaxOpenAttempts
    ensures AccessFrom(attempt, k) == Accessible
        <==> exists n :: k <= n < MaxOpenAttempts && attempt(n) == Opened
                         && forall j :: k <= j < n ==> attempt(j) == OtherFailure
    decreases MaxOpenAttempts - k
  {
    if k < MaxOpenAttempts {
      AccessibleIffAnOpenSucceeds(attempt, k + 1);
      if attempt(k) == OtherFailure {
        if exists n :: k <= n < MaxOpenAttempts && attempt(n) == Opened && forall j :: k <= j < n ==> attempt(j) == OtherFailure {
          var n :| k <= n < MaxOpenAttempts && attempt(n) == Opened && forall j :: k <= j < n ==> attempt(j) == OtherFailure;
          assert k + 1 <= n;
        }
      }
    }
  }

  /** Wraps a mathematical integer into the signed 32-bit range, as unchecked C# int arithmetic does. */
  function Wrap32(x: int): (w: int)
    ensures -0x8000_0000 <= w < 0x8000_0000
    ensures (w - x) % 0x1_0000_0000 == 0
  {
    var m := x % 0x1_0000_0000;
    if m >= 0x8000_0000 then m - 0x1_0000_0000 else m
  }

  /** Record identity and memoized metadata, one object per discovered file. */
  class VideoFile {
    const filePath: string
    const settings: ComparisonSettings
    var duration: Option<nat>
    var fileSize: Option<nat>
    var thumbnails: map<int, Image>

    constructor (path: string, comparisonSettings: ComparisonSettings)
      ensures filePath == path && settings == comparisonSettings
      ensures duration == None && fileSize == None && thumbnails == map[]
    {
      filePath := path;
      settings := comparisonSettings;
      duration := None;
      fileSize := None;
      thumbnails := map[];
    }

    function FileName(): string {
      PathText.FileName(filePath)
    }

    /** The value view of this record. */
    function Record(): VideoRecord
      reads this
    {
      VideoRecord(filePath, duration)
    }

    /**
     * The Duration property: the first read stores the probe's answer (zero
     * when the probe throws) and every later read returns the stored value,
     * whatever the probe would say then.
     */
    method Duration(probe: Option<nat>) returns (d: nat)
      modifies this`duration
      ensures duration == Some(d)
      ensures old(duration).Some? ==> d == old(duration).value
      ensures old(duration).None? ==> d == probe.GetOr(0)
    {
      if duration.None? {
        duration := Some(probe.GetOr(0));
      }
      d := duration.value;
    }

    /**
     * The FileSize property: memoized like Duration, but a failure to read
     * the length is not caught and leaves the memo unset.
     */
    method FileSize(length: Option<nat>) returns (r: Result<nat, IoError>)
      modifies this`fileSize
      ensures old(fileSize).Some? ==> r == Ok(old(fileSize).value) && fileSize == old(fileSize)
      ensures old(fileSize).None? && length.Some? ==> r == Ok(length.value) && fileSize == length
      ensures old(fileSize).None? && length.None? ==> r == Err(FileNotFound) && fileSize == None
    {
      if fileSize.None? {
        if length.None? {
          return Err(FileNotFound);
        }
        fileSize := length;
      }
      r := Ok(fileSize.value);
    }

    /**
     * WaitForFileAccess: opens the file at most MaxOpenAttempts times
     * (attempt(k) is the outcome of the k-th open), succeeding at the first
     * open that works, giving up at once on argument, path-too-long,
     * directory-not-found and not-supported errors, retrying on any other
     * error, and letting ArgumentOutOfRangeException through.
     */
    method WaitForFileAccess(attempt: nat -> OpenOutcome) returns (r: AccessResult, ghost tries: nat)
      ensures r == AccessFrom(attempt, 0)
      ensures 1 <= tries <= MaxOpenAttempts
      ensures forall k :: 0 <= k < tries - 1 ==> attempt(k) == OtherFailure
      ensures r == Accessible <==> attempt(tries - 1) == Opened
      ensures r == Rethrown <==> attempt(tries - 1) == ArgumentOutOfRange
      ensures attempt(tries - 1) == OtherFailure ==> tries == MaxOpenAttempts
    {
      var i := 0;
      while i < MaxOpenAttempts
        invariant 0 <= i <= MaxOpenAttempts
        invariant forall k :: 0 <= k < i ==> attempt(k) == OtherFailure
        invariant AccessFrom(attempt, i) == AccessFrom(attempt, 0)
      {
        var outcome := attempt(i);
        match outcome {
          case Opened =>
            return Accessible, i + 1;
          case ArgumentOutOfRange =>
            return Rethrown, i + 1;
          case OtherFailure =>
          case _ =>
            return Inaccessible, i + 1;
        }
        i := i + 1;
      }
      r, tries := Inaccessible, MaxOpenAttempts;
    }

    /**
     * IsDurationEqual: reads both durations (memoizing them) and applies the
     * rule with this file's duration as the reference.
     */
    method IsDurationEqual(other: VideoFile, media: Media) returns (r: bool)
      modifies this`duration, other`duration
      ensures r == Comparison.IsDurationEqual(settings,
        DurationOf(old(duration), media.probe(filePath)),
        DurationOf(old(other.duration), media.probe(other.filePath)))
      ensures duration == Some(DurationOf(old(duration), media.probe(filePath)))
      ensures other.duration == Some(DurationOf(old(other.duration), media.probe(other.filePath)))
    {
      var mine := Duration(media.probe(filePath));
      var theirs := other.Duration(media.probe(other.filePath));
      r := Comparison.IsDurationEqual(settings, mine, theirs);
    }

    /** The image GetThumbnail yields for `index` from the memo `cache`. */
    static function ImageAt(cache: map<int, Image>, media: Media, path: string, duration: nat, index: nat, count: nat): Image {
      if index in cache then cache[index] else ExtractOrPlaceholder(media, path, duration, index, count)
    }

    /** The `count` images GetThumbnail yields from the memo and duration memo given. */
    static function Samples(cache: map<int, Image>, durationMemo: Option<nat>, media: Media, path: string, count: nat): (images: seq<Image>)
      ensures |images| == count
    {
      seq(count, k requires 0 <= k < count => ImageAt(cache, media, path, DurationOf(durationMemo, media.probe(path)), k, count))
    }

    /** The memo after the samples 0 .. i - 1 of `images` have been fetched into `cache`. */
    static function Memoized(cache: map<int, Image>, images: seq<Image>, i: nat): map<int, Image>
      requires i <= |images|
    {
      if i == 0 then cache else Memoized(cache, images, i - 1)[i - 1 := images[i - 1]]
    }

    /** Fetching the samples below i leaves the memo at i and above as it was. */
    static lemma {:induction false} MemoizedAbove(cache: map<int, Image>, images: seq<Image>, i: nat, k: int)
      requires i <= |images| && i <= k
      ensures k in Memoized(cache, images, i) <==> k in cache
      ensures k in cache ==> Memoized(cache, images, i)[k] == cache[k]
    {
      if i > 0 {
        MemoizedAbove(cache, images, i - 1, k);
      }
    }

    /** Fetching sample i at the frontier yields the i-th sample and extends the memo by it. */
    static lemma SampleAtFrontier(cache: map<int, Image>, memo: Option<nat>, media: Media, path: string, n: nat, i: nat)
      requires i < n
      ensures
        var xs := Samples(cache, memo, media, path, n);
        var current := Memoized(cache, xs, i);
        && ImageAt(current, media, path, DurationOf(memo, media.probe(path)), i, n) == xs[i]
        && current[i := xs[i]] == Memoized(cache, xs, i + 1)
    {
      var xs := Samples(cache, memo, media, path, n);
      MemoizedAbove(cache, xs, i, i);
    }

    /** Fetching sample i again, once it is memoized, yields it and leaves the memo as it is. */
    static lemma SampleAlreadyFetched(cache: map<int, Image>, memo: Option<nat>, media: Media, path: string, n: nat, i: nat)
      requires i < n
      ensures
        var xs := Samples(cache, memo, media, path, n);
        var current := Memoized(cache, xs, i + 1);
        && ImageAt(current, media, path, DurationOf(memo, media.probe(path)), i, n) == xs[i]
        && current[i := xs[i]] == current
    {
    }

    /**
     * GetThumbnail: rejects an index outside [0, thumbnailCount); otherwise
     * returns the memoized image, extracting it first (placeholder on
     * failure) when the index is not yet in the memo. Other indices of the
     * memo are untouched.
     */
    method GetThumbnail(index: int, thumbnailCount: int, media: Media) returns (r: Result<Image, ThumbnailError>)
      modifies this`thumbnails, this`duration
      ensures (index < 0 || index >= thumbnailCount) ==>
        r == Err(IndexOutOfRange) && thumbnails == old(thumbnails) && duration == old(duration)
      ensures 0 <= index < thumbnailCount ==>
        var image := ImageAt(old(thumbnails), media, filePath, DurationOf(old(duration), media.probe(filePath)), index, thumbnailCount);
        r == Ok(image) && thumbnails == old(thumbnails)[index := image]
      ensures index in old(thumbnails) ==> duration == old(duration)
      ensures DurationOf(duration, media.probe(filePath)) == DurationOf(old(duration), media.probe(filePath))
    {
      if index >= thumbnailCount || index < 0 {
        return Err(IndexOutOfRange);
      }
      if index !in thumbnails {
        var d := Duration(media.probe(filePath));
        thumbnails := thumbnails[index := ExtractOrPlaceholder(media, filePath, d, index, thumbnailCount)];
      }
      r := Ok(thumbnails[index]);
    }

    /**
     * The state of both files while AreThumbnailsEqual runs: each memo holds
     * its first i samples on top of what it held before, and each file still
     * yields the duration it yielded before.
     */
    ghost predicate FetchedUpTo(other: VideoFile, media: Media, i: nat,
                                xs: seq<Image>, ys: seq<Image>,
                                cache: map<int, Image>, memo: Option<nat>,
                                otherCache: map<int, Image>, otherMemo: Option<nat>)
      reads this, other
    {
      && i <= |xs| && i <= |ys|
      && thumbnails == Memoized(cache, xs, i) && other.thumbnails == Memoized(otherCache, ys, i)
      && DurationOf(duration, media.probe(filePath)) == DurationOf(memo, media.probe(filePath))
      && DurationOf(other.duration, media.probe(other.filePath)) == DurationOf(otherMemo, media.probe(other.filePath))
    }

    /** One step of AreThumbnailsEqual: GetThumbnail(i) on this file, then on the other. */
    method FetchSamplePair(other: VideoFile, media: Media, n: nat, i: nat,
                           ghost xs: seq<Image>, ghost ys: seq<Image>,
                           ghost cache: map<int, Image>, ghost memo: Option<nat>,
                           ghost otherCache: map<int, Image>, ghost otherMemo: Option<nat>)
        returns (mine: Image, theirs: Image)
      requires i < n
      requires xs == Samples(cache, memo, media, filePath, n)
      requires ys == Samples(otherCache, otherMemo, media, other.filePath, n)
      requires other == this ==> cache == otherCache && memo == otherMemo
      requires FetchedUpTo(other, media, i, xs, ys, cache, memo, otherCache, otherMemo)
      modifies this`thumbnails, this`duration, other`thumbnails, other`duration
      ensures mine == xs[i] && theirs == ys[i]
      ensures FetchedUpTo(other, media, i + 1, xs, ys, cache, memo, otherCache, otherMemo)
    {
      SampleAtFrontier(cache, memo, media, filePath, n, i);
      var r := GetThumbnail(i, n, media);
      mine := r.value;
      if other == this {
        SampleAlreadyFetched(cache, memo, media, filePath, n, i);
      } else {
        SampleAtFrontier(otherCache, otherMemo, media, other.filePath, n, i);
      }
      r := other.GetThumbnail(i, n, media);
      theirs := r.value;
    }

    /**
     * AreThumbnailsEqual: compares the samples of both files index by index,
     * counting different pairs, and answers false as soon as the count
     * exceeds MaxDifferentThumbnails. Both memos end up holding exactly the
     * samples fetched before that point.
     */
    method AreThumbnailsEqual(other: VideoFile, media: Media) returns (r: bool)
      modifies this`thumbnails, this`duration, other`thumbnails, other`duration
      ensures
        var n := settings.maxThumbnailComparison;
        var xs := Samples(old(thumbnails), old(duration), media, filePath, n);
        var ys := Samples(old(other.thumbnails), old(other.duration), media, other.filePath, n);
        var fetched := SamplesFetched(settings, media, xs, ys, 0);
        && r == ThumbnailsMatch(settings, media, xs, ys)
        && thumbnails == Memoized(old(thumbnails), xs, fetched)
        && other.thumbnails == Memoized(old(other.thumbnails), ys, fetched)
      ensures DurationOf(duration, media.probe(filePath)) == DurationOf(old(duration), media.probe(filePath))
      ensures DurationOf(other.duration, media.probe(other.filePath)) == DurationOf(old(other.duration), media.probe(other.filePath))
    {
      var n := settings.maxThumbnailComparison;
      ghost var xs := Samples(thumbnails, duration, media, filePath, n);
      ghost var ys := Samples(other.thumbnails, other.duration, media, other.filePath, n);
      var differenceCount := 0;
      var i := 0;
      while i < n
        invariant 0 <= i <= n
        invariant SamplesFetched(settings, media, xs, ys, i) == SamplesFetched(settings, media, xs, ys, 0)
        invariant differenceCount == DifferentCount(settings, media, xs, ys, i)
        invariant 0 < i ==> differenceCount <= settings.maxDifferentThumbnails
        invariant FetchedUpTo(other, media, i, xs, ys, old(thumbnails), old(duration), old(other.thumbnails), old(other.duration))
      {
        var mine, theirs := FetchSamplePair(other, media, n, i, xs, ys, old(thumbnails), old(duration), old(other.thumbnails), old(other.duration));
        if IsDifferent(settings, media, mine, theirs) {
          differenceCount := differenceCount + 1;
        }
        if differenceCount > settings.maxDifferentThumbnails {
          ExceedingStopsFetching(settings, media, xs, ys, i);
          return false;
        }
        i := i + 1;
      }
      r := true;
    }

    /** DisposeThumbnails: empties the memo of thumbnails and nothing else. */
    method DisposeThumbnails()
      modifies this`thumbnails
      ensures thumbnails == map[]
    {
      thumbnails := map[];
    }

    /** Equals(VideoFile): identity is the path. */
    predicate Equals(other: VideoFile?) {
      other != null && filePath == other.filePath
    }

    /** GetHashCode: 1230029444 plus the string hash of the path, in 32-bit arithmetic. */
    function GetHashCode(stringHash: string -> int): (h: int)
      ensures -0x8000_0000 <= h < 0x8000_0000
    {
      Wrap32(1230029444 + stringHash(filePath))
    }

    /** operator == (EqualityComparer<VideoFile>.Default): null equals only null. */
    static predicate OperatorEquals(left: VideoFile?, right: VideoFile?) {
      if left == null then right == null else left.Equals(right)
    }

    static predicate OperatorNotEquals(left: VideoFile?, right: VideoFile?) {
      !OperatorEquals(left, right)
    }
  }

  /** Equality by path is an equivalence relation on records. */
  lemma EqualsIsEquivalence(a: VideoFile, b: VideoFile, c: VideoFile)
    ensures a.Equals(a)
    ensures a.Equals(b) == b.Equals(a)
    ensures a.Equals(b) && b.Equals(c) ==> a.Equals(c)
    ensures !a.Equals(null)
  {
  }

  /** Records that are Equals have equal hash codes. */
  lemma EqualRecordsHashEqually(a: VideoFile, b: VideoFile, stringHash: string -> int)
    requires a.Equals(b)
    ensures a.GetHashCode(stringHash) == b.GetHashCode(stringHash)
  {
  }

  /** The == operator agrees with Equals and is symmetric. */
  lemma OperatorEqualsAgreesWithEquals(left: VideoFile?, right: VideoFile?)
    ensures left != null ==> VideoFile.OperatorEquals(left, right) == left.Equals(right)
    ensures VideoFile.OperatorEquals(left, right) == VideoFile.OperatorEquals(right, left)
    ensures VideoFile.OperatorNotEquals(left, right) == !VideoFile.OperatorEquals(left, right)
  {
  }
}
