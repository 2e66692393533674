/**
 * The comparison rules of a video record (VideoDedup/VideoFile.cs): when two
 * durations count as equal, and when two series of thumbnails count as the
 * same video. Durations are TimeSpan ticks; the source compares
 * TotalSeconds as doubles, which this model replaces by exact integer
 * arithmetic. Thumbnails and their difference score come from external
 * media services, modelled by the Media value.
 */
module Comparison {
  import opened Wrappers

  const TicksPerSecond: nat := 10_000_000

  datatype DurationDifferenceType = Seconds | Percent

  /** The comparison part of the settings (IComparisonSettings). */
  datatype ComparisonSettings = ComparisonSettings(
    durationDifferenceType: DurationDifferenceType,
    maxDurationDifferenceSeconds: int,
    maxDurationDifferencePercent: int,
    maxThumbnailComparison: nat,
    maxDifferentThumbnails: int,
    maxDifferencePercentage: int)

  function Abs(x: int): nat {
    if x < 0 then -x else x
  }

  /**
   * IsDurationEqual of a file whose duration is `mine` against one whose
   * duration is `other`. In Percent mode the allowed difference is a
   * percentage of `mine` only, so the rule is not symmetric.
   */
  predicate IsDurationEqual(settings: ComparisonSettings, mine: nat, other: nat) {
    match settings.durationDifferenceType
    case Seconds =>
      Abs(mine - other) < settings.maxDurationDifferenceSeconds * TicksPerSecond
    case Percent =>
      100 * Abs(mine - other) < mine * settings.maxDurationDifferencePercent
  }

  /** The seconds rule does not depend on which file asks. */
  lemma SecondsRuleIsSymmetric(settings: ComparisonSettings, a: nat, b: nat)
    requires settings.durationDifferenceType == Seconds
    ensures IsDurationEqual(settings, a, b) == IsDurationEqual(settings, b, a)
  {
  }

  /** A file of zero duration is duration-equal to nothing in Percent mode. */
  lemma PercentRuleRejectsZeroBase(settings: ComparisonSettings, other: nat)
    requires settings.durationDifferenceType == Percent
    ensures !IsDurationEqual(settings, 0, other)
  {
  }

  /**
   * The percent rule is asymmetric: with a 5 % tolerance a 101 s file accepts
   * a 96 s one, but the 96 s file does not accept the 101 s one.
   */
  lemma PercentRuleIsAsymmetric(settings: ComparisonSettings)
    requires settings.durationDifferenceType == Percent
    requires settings.maxDurationDifferencePercent == 5
    ensures IsDurationEqual(settings, 101 * TicksPerSecond, 96 * TicksPerSecond)
    ensures !IsDurationEqual(settings, 96 * TicksPerSecond, 101 * TicksPerSecond)
  {
  }

  /**
   * Against a fixed reference duration, the set of durations that are equal
   * to it is an interval: going further away from `mine` (in sorted order)
   * never makes a failing comparison pass again. This is what makes the
   * early break of the full pass safe.
   */
  lemma DurationWindowIsInterval(settings: ComparisonSettings, mine: nat, near: nat, far: nat)
    requires mine <= near <= far
    ensures IsDurationEqual(settings, mine, far) ==> IsDurationEqual(settings, mine, near)
  {
  }

  /** An image as the comparison sees it; Placeholder is the 1x1 bitmap stored when extraction fails. */
  datatype Image = Frame(id: int) | Placeholder

  /**
   * The external media services: the duration probe (None when it throws),
   * the frame extractor for (path, duration in ticks, index, count), None
   * when it throws (the time offset duration / (count + 1) * (index + 1) is
   * computed inside it), and the image difference score.
   */
  datatype Media = Media(
    probe: string -> Option<nat>,
    extract: (string, nat, nat, nat) -> Option<Image>,
    difference: (Image, Image) -> real)

  /** What GetThumbnail stores on a cache miss. */
  function ExtractOrPlaceholder(media: Media, path: string, duration: nat, index: nat, count: nat): Image {
    media.extract(path, duration, index, count).GetOr(Placeholder)
  }

  /** The thumbnails of one file, sampled freshly. */
  function Thumbnails(media: Media, path: string, duration: nat, count: nat): (images: seq<Image>)
    ensures |images| == count
    ensures forall k :: 0 <= k < count ==> images[k] == ExtractOrPlaceholder(media, path, duration, k, count)
  {
    seq(count, k requires 0 <= k < count => ExtractOrPlaceholder(media, path, duration, k, count))
  }

  /** A sample pair counts as different when its score exceeds MaxDifferencePercentage / 100. */
  predicate IsDifferent(settings: ComparisonSettings, media: Media, a: Image, b: Image) {
    media.difference(a, b) > settings.maxDifferencePercentage as real / 100.0
  }

  /** The number of different sample pairs among the first n. */
  function DifferentCount(settings: ComparisonSettings, media: Media, xs: seq<Image>, ys: seq<Image>, n: nat): (c: nat)
    requires n <= |xs| && n <= |ys|
    ensures c <= n
  {
    if n == 0 then 0
    else DifferentCount(settings, media, xs, ys, n - 1) + (if IsDifferent(settings, media, xs[n - 1], ys[n - 1]) then 1 else 0)
  }

  /** The indices among the first n whose sample pair is different. */
  function DifferentIndices(settings: ComparisonSettings, media: Media, xs: seq<Image>, ys: seq<Image>, n: nat): set<nat>
    requires n <= |xs| && n <= |ys|
  {
    set k: nat | k < n && IsDifferent(settings, media, xs[k], ys[k])
  }

  /** The running count is the size of the set of different indices. */
  lemma {:induction false} DifferentCountIsCardinality(settings: ComparisonSettings, media: Media, xs: seq<Image>, ys: seq<Image>, n: nat)
    requires n <= |xs| && n <= |ys|
    ensures DifferentCount(settings, media, xs, ys, n) == |DifferentIndices(settings, media, xs, ys, n)|
  {
    if n > 0 {
      DifferentCountIsCardinality(settings, media, xs, ys, n - 1);
      var before := DifferentIndices(settings, media, xs, ys, n - 1);
      if IsDifferent(settings, media, xs[n - 1], ys[n - 1]) {
        assert DifferentIndices(settings, media, xs, ys, n) == before + {n - 1};
      } else {
        assert DifferentIndices(settings, media, xs, ys, n) == before;
      }
    }
  }

  /** Sampling more pairs never lowers the count. */
  lemma {:induction false} DifferentCountMonotone(settings: ComparisonSettings, media: Media, xs: seq<Image>, ys: seq<Image>, m: nat, n: nat)
    requires m <= n <= |xs| && n <= |ys|
    ensures DifferentCount(settings, media, xs, ys, m) <= DifferentCount(settings, media, xs, ys, n)
  {
    if m < n {
      DifferentCountMonotone(settings, media, xs, ys, m, n - 1);
    }
  }

  /**
   * AreThumbnailsEqual's verdict on two sample series of
   * MaxThumbnailComparison images: true when there are no samples at all
   * (the loop never runs), otherwise when the different pairs do not
   * exceed MaxDifferentThumbnails.
   */
  predicate ThumbnailsMatch(settings: ComparisonSettings, media: Media, xs: seq<Image>, ys: seq<Image>)
    requires |xs| == |ys| == settings.maxThumbnailComparison
  {
    settings.maxThumbnailComparison == 0
    || DifferentCount(settings, media, xs, ys, settings.maxThumbnailComparison) <= settings.maxDifferentThumbnails
  }

  /**
   * The number of sample pairs AreThumbnailsEqual fetches when it has
   * already looked at the first k without exceeding the limit: it stops
   * right after the pair that makes the count exceed MaxDifferentThumbnails,
   * or after the last pair.
   */
  function SamplesFetched(settings: ComparisonSettings, media: Media, xs: seq<Image>, ys: seq<Image>, k: nat): (n: nat)
    requires |xs| == |ys| == settings.maxThumbnailComparison
    requires k <= settings.maxThumbnailComparison
    ensures k <= n <= settings.maxThumbnailComparison
    ensures k < settings.maxThumbnailComparison ==> k < n
    ensures forall j :: k < j < n ==> DifferentCount(settings, media, xs, ys, j) <= settings.maxDifferentThumbnails
    ensures n < settings.maxThumbnailComparison ==> DifferentCount(settings, media, xs, ys, n) > settings.maxDifferentThumbnails
    decreases settings.maxThumbnailComparison - k
  {
    if k == settings.maxThumbnailComparison then k
    else if DifferentCount(settings, media, xs, ys, k + 1) > settings.maxDifferentThumbnails then k + 1
    else SamplesFetched(settings, media, xs, ys, k + 1)
  }

  /**
   * When the pair at index i is the first to push the count past the limit,
   * the comparison has fetched exactly i + 1 pairs and the verdict is false.
   */
  lemma ExceedingStopsFetching(settings: ComparisonSettings, media: Media, xs: seq<Image>, ys: seq<Image>, i: nat)
    requires |xs| == |ys| == settings.maxThumbnailComparison
    requires i < settings.maxThumbnailComparison
    requires SamplesFetched(settings, media, xs, ys, i) == SamplesFetched(settings, media, xs, ys, 0)
    requires DifferentCount(settings, media, xs, ys, i + 1) > settings.maxDifferentThumbnails
    ensures SamplesFetched(settings, media, xs, ys, 0) == i + 1
    ensures !ThumbnailsMatch(settings, media, xs, ys)
  {
    DifferentCountMonotone(settings, media, xs, ys, i + 1, settings.maxThumbnailComparison);
  }

  /**
   * The early exit is sound: the verdict is false exactly when some
   * non-empty prefix of the samples already exceeds the tolerated number of
   * differences.
   */
  lemma ThumbnailsMatchIffNoPrefixExceeds(settings: ComparisonSettings, media: Media, xs: seq<Image>, ys: seq<Image>)
    requires |xs| == |ys| == settings.maxThumbnailComparison
    ensures ThumbnailsMatch(settings, media, xs, ys)
        <==> forall j :: 0 < j <= settings.maxThumbnailComparison ==> DifferentCount(settings, media, xs, ys, j) <= settings.maxDifferentThumbnails
  {
    var n := settings.maxThumbnailComparison;
    if ThumbnailsMatch(settings, media, xs, ys) {
      forall j | 0 < j <= n
        ensures DifferentCount(settings, media, xs, ys, j) <= settings.maxDifferentThumbnails
      {
        DifferentCountMonotone(settings, media, xs, ys, j, n);
      }
    } else {
      assert DifferentCount(settings, media, xs, ys, n) > settings.maxDifferentThumbnails;
    }
  }
}
