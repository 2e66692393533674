/**
 * The passes the engine (VideoDedupShared/Classes/DedupEngine.cs) runs over
 * its inventory of video records: the duration preload, the removal of
 * zero-length files, the full pairwise comparison of the duration-sorted
 * list, the targeted comparison of one new file, and List.Remove.
 *
 * The engine compares files through the extension methods
 * IsDurationEqual(other, settings) and AreImagesEqual(other, settings,
 * cancelToken) of the shared VideoFile, whose source is not part of this
 * model. They are modelled by DurEq and ImgEq below, which apply the rules
 * of VideoDedup/VideoFile.cs (IsDurationEqual and AreThumbnailsEqual) to the
 * records; the cancellable image comparison is taken to run to completion.
 */
module Passes {
  import opened Wrappers
  import opened Comparison
  import opened VideoFiles
  import opened Discovery

  /**
   * A CancellationToken as the passes observe it: the token answers its
   * polls in order, and poll number `polls` (counting from zero) is the
   * first to see the cancellation when `polls` reaches `cancelAt`. Once
   * cancellation is seen it stays seen.
   */
  datatype CancellationToken = CancellationToken(polls: nat, cancelAt: nat) {
    predicate IsCancellationRequested() {
      cancelAt <= polls
    }

    /** The token after one more poll. */
    function Next(): CancellationToken {
      CancellationToken(polls + 1, cancelAt)
    }

    /** The number of polls, from this one on, that still answer "not cancelled". */
    function Remaining(): nat {
      if cancelAt <= polls then 0 else cancelAt - polls
    }

    /** `later` is this token after some polls. */
    predicate PolledUpTo(later: CancellationToken) {
      later.cancelAt == cancelAt && polls <= later.polls
    }
  }

  /** A token that has seen cancellation passes it on to every later poll. */
  lemma CancellationIsSticky(token: CancellationToken, later: CancellationToken)
    requires token.PolledUpTo(later) && token.IsCancellationRequested()
    ensures later.IsCancellationRequested()
  {
  }

  /** The duration the lazy Duration property yields for a record. */
  function DurationTicks(media: Media, r: VideoRecord): nat {
    DurationOf(r.duration, media.probe(r.filePath))
  }

  /** The record after its Duration property has been read once. */
  function Resolve(media: Media, r: VideoRecord): (s: VideoRecord)
    ensures s.filePath == r.filePath && s.duration.Some?
    ensures DurationTicks(media, s) == DurationTicks(media, r)
    ensures r.duration.Some? ==> s == r
  {
    r.(duration := Some(DurationTicks(media, r)))
  }

  /** IsDurationEqual(a, b) with a as "this": the percentage base is a's duration. */
  predicate DurEq(settings: ComparisonSettings, media: Media, a: VideoRecord, b: VideoRecord) {
    IsDurationEqual(settings, DurationTicks(media, a), DurationTicks(media, b))
  }

  /** AreImagesEqual(a, b): the thumbnail rule applied to the samples of both files. */
  predicate ImgEq(settings: ComparisonSettings, media: Media, a: VideoRecord, b: VideoRecord) {
    var n := settings.maxThumbnailComparison;
    ThumbnailsMatch(settings, media,
      Thumbnails(media, a.filePath, DurationTicks(media, a), n),
      Thumbnails(media, b.filePath, DurationTicks(media, b), n))
  }

  /**
   * The samples AreThumbnailsEqual fetches for a file whose thumbnail memo
   * is empty are the samples ImgEq compares.
   */
  lemma SamplesOfFreshFileAreThumbnails(media: Media, r: VideoRecord, n: nat)
    ensures VideoFile.Samples(map[], r.duration, media, r.filePath, n)
         == Thumbnails(media, r.filePath, DurationTicks(media, r), n)
  {
  }

  /** Every image the thumbnail memo of r holds, below n, is r's own thumbnail at that index. */
  predicate HoldsOwnThumbnails(media: Media, r: VideoRecord, n: nat, cache: map<int, Image>) {
    forall i :: 0 <= i < n && i in cache ==> cache[i] == Thumbnails(media, r.filePath, DurationTicks(media, r), n)[i]
  }

  /**
   * Whatever of its own thumbnails the memo of r already holds (as after
   * earlier comparisons of FindDuplicates), the samples AreThumbnailsEqual
   * fetches for r are the samples ImgEq compares.
   */
  lemma SamplesOfOwnMemoAreThumbnails(media: Media, r: VideoRecord, n: nat, cache: map<int, Image>)
    requires HoldsOwnThumbnails(media, r, n, cache)
    ensures VideoFile.Samples(cache, r.duration, media, r.filePath, n)
         == Thumbnails(media, r.filePath, DurationTicks(media, r), n)
  {
  }

  /** Fetching any number of r's samples into a memo of its own thumbnails keeps it one. */
  lemma {:induction false} FetchingKeepsOwnThumbnails(media: Media, r: VideoRecord, n: nat, cache: map<int, Image>, k: nat)
    requires HoldsOwnThumbnails(media, r, n, cache) && k <= n
    ensures HoldsOwnThumbnails(media, r, n,
      VideoFile.Memoized(cache, VideoFile.Samples(cache, r.duration, media, r.filePath, n), k))
  {
    var xs := VideoFile.Samples(cache, r.duration, media, r.filePath, n);
    SamplesOfOwnMemoAreThumbnails(media, r, n, cache);
    if k > 0 {
      FetchingKeepsOwnThumbnails(media, r, n, cache, k - 1);
    }
  }

  // ---------------------------------------------------------------------
  // OrderBy(f => f.Duration)

  predicate SortedByDuration(media: Media, s: seq<VideoRecord>) {
    forall i, j :: 0 <= i < j < |s| ==> DurationTicks(media, s[i]) <= DurationTicks(media, s[j])
  }

  /** Inserts x after every record that is not longer than it. */
  function Insert(media: Media, s: seq<VideoRecord>, x: VideoRecord): (r: seq<VideoRecord>)
    requires SortedByDuration(media, s)
    ensures SortedByDuration(media, r)
    ensures multiset(r) == multiset(s) + multiset{x}
  {
    if s == [] then [x]
    else if DurationTicks(media, x) < DurationTicks(media, s[0]) then [x] + s
    else
      var rest := Insert(media, s[1..], x);
      assert s == [s[0]] + s[1..];
      InsertKeepsFirst(media, s, rest, x);
      [s[0]] + rest
  }

  /** The step of Insert that keeps s[0] in front: every record after it is at least as long. */
  lemma InsertKeepsFirst(media: Media, s: seq<VideoRecord>, rest: seq<VideoRecord>, x: VideoRecord)
    requires s != [] && SortedByDuration(media, s) && SortedByDuration(media, rest)
    requires DurationTicks(media, s[0]) <= DurationTicks(media, x)
    requires multiset(rest) == multiset(s[1..]) + multiset{x}
    ensures SortedByDuration(media, [s[0]] + rest)
  {
    var r := [s[0]] + rest;
    forall j | 0 < j < |r|
      ensures DurationTicks(media, s[0]) <= DurationTicks(media, r[j])
    {
      assert r[j] in multiset(rest);
      if r[j] != x {
        assert r[j] in multiset(s[1..]);
        var k :| 0 <= k < |s[1..]| && s[1..][k] == r[j];
        assert s[k + 1] == r[j];
      }
    }
  }

  /** OrderBy(f => f.Duration): the records sorted by duration, keeping the input order among equal durations. */
  function SortByDuration(media: Media, s: seq<VideoRecord>): (r: seq<VideoRecord>)
    ensures SortedByDuration(media, r)
    ensures multiset(r) == multiset(s)
  {
    if s == [] then []
    else
      assert s == s[..|s| - 1] + [s[|s| - 1]];
      Insert(media, SortByDuration(media, s[..|s| - 1]), s[|s| - 1])
  }

  // ---------------------------------------------------------------------
  // FindDuplicates: which index pairs the nested loop examines

  /**
   * Row i of the nested loop from position j on: (i, j), (i, j + 1), ...
   * up to the first position whose file is not duration-equal to l[i].
   */
  function RowPairs(settings: ComparisonSettings, media: Media, l: seq<VideoRecord>, i: nat, j: nat): seq<(nat, nat)>
    requires i < |l|
    decreases |l| - j
  {
    if j >= |l| || !DurEq(settings, media, l[i], l[j]) then []
    else [(i, j)] + RowPairs(settings, media, l, i, j + 1)
  }

  /** The pairs the rows 0 .. rows - 1 examine, in loop order. */
  function Examined(settings: ComparisonSettings, media: Media, l: seq<VideoRecord>, rows: nat): seq<(nat, nat)>
    requires rows <= |l|
  {
    if rows == 0 then []
    else Examined(settings, media, l, rows - 1) + RowPairs(settings, media, l, rows - 1, rows)
  }

  /** The pairs (i, a), (i, a + 1), ..., (i, b - 1). */
  function Between(i: nat, a: nat, b: nat): (ps: seq<(nat, nat)>)
    requires a <= b
    ensures |ps| == b - a
    decreases b - a
  {
    if a == b then [] else Between(i, a, b - 1) + [(i, b - 1)]
  }

  /** Between counts up from a: its k-th pair is (i, a + k). */
  lemma {:induction false} BetweenAt(i: nat, a: nat, b: nat, k: nat)
    requires a <= b && k < b - a
    ensures Between(i, a, b)[k] == (i, a + k)
    decreases b - a
  {
    if k < b - 1 - a {
      BetweenAt(i, a, b - 1, k);
    }
  }

  /** Between peeled from the front. */
  lemma {:induction false} BetweenCons(i: nat, a: nat, b: nat)
    requires a < b
    ensures Between(i, a, b) == [(i, a)] + Between(i, a + 1, b)
    decreases b - a
  {
    if a + 1 < b {
      BetweenCons(i, a, b - 1);
      AppendAssociates([(i, a)], Between(i, a + 1, b - 1), [(i, b - 1)]);
    }
  }

  /** Stopping earlier gives a prefix. */
  lemma {:induction false} BetweenPrefix(i: nat, a: nat, b: nat, c: nat)
    requires a <= b <= c
    ensures Between(i, a, b) <= Between(i, a, c)
    decreases c - b
  {
    if b < c {
      BetweenPrefix(i, a, b, c - 1);
    }
  }

  /** The duplicates reported for the examined pairs ps: those whose images match. */
  function Reported(settings: ComparisonSettings, media: Media, l: seq<VideoRecord>, ps: seq<(nat, nat)>): seq<(VideoRecord, VideoRecord)>
  {
    if ps == [] then []
    else
      var (i, j) := ps[|ps| - 1];
      Reported(settings, media, l, ps[..|ps| - 1])
        + (if i < |l| && j < |l| && ImgEq(settings, media, l[i], l[j]) then [(l[i], l[j])] else [])
  }

  /** Everything FindDuplicates reports when it is not cancelled. */
  function Duplicates(settings: ComparisonSettings, media: Media, files: seq<VideoRecord>): seq<(VideoRecord, VideoRecord)> {
    AllReported(settings, media, SortByDuration(media, files))
  }

  /** What the nested loop reports on the list l when it runs to the end. */
  function AllReported(settings: ComparisonSettings, media: Media, l: seq<VideoRecord>): seq<(VideoRecord, VideoRecord)> {
    Reported(settings, media, l, Examined(settings, media, l, |l|))
  }

  /**
   * The polls row i of the inner loop makes when no poll sees cancellation:
   * one per examined pair, and one more for the file that ends the row by
   * not being duration-equal, when there is such a file.
   */
  function RowPolls(settings: ComparisonSettings, media: Media, l: seq<VideoRecord>, i: nat): nat
    requires i < |l|
  {
    var n := |RowPairs(settings, media, l, i, i + 1)|;
    if i + 1 + n < |l| then n + 1 else n
  }

  /** The polls the outer loop makes from row `row` on when no poll sees cancellation. */
  function PassPolls(settings: ComparisonSettings, media: Media, l: seq<VideoRecord>, row: nat): nat
    decreases |l| - row
  {
    if row + 1 >= |l| then 0
    else 1 + RowPolls(settings, media, l, row) + PassPolls(settings, media, l, row + 1)
  }

  /**
   * The pairs the nested loop examines from row `row` on when only the next
   * `budget` polls answer "not cancelled": the outer poll of a row uses one,
   * and the row stops at the inner poll that sees cancellation.
   */
  function ExaminedWithin(settings: ComparisonSettings, media: Media, l: seq<VideoRecord>, row: nat, budget: nat): seq<(nat, nat)>
    decreases |l| - row
  {
    if row + 1 >= |l| || budget == 0 then []
    else
      var polls := RowPolls(settings, media, l, row);
      if budget - 1 < polls then Between(row, row + 1, row + budget)
      else RowPairs(settings, media, l, row, row + 1) + ExaminedWithin(settings, media, l, row + 1, budget - 1 - polls)
  }

  lemma {:induction false} RowPairsMembership(settings: ComparisonSettings, media: Media, l: seq<VideoRecord>, i: nat, j: nat, a: nat, b: nat)
    requires i < |l|
    ensures (a, b) in RowPairs(settings, media, l, i, j)
        <==> a == i && j <= b < |l| && forall k :: j <= k <= b ==> DurEq(settings, media, l[i], l[k])
    decreases |l| - j
  {
    if j < |l| && DurEq(settings, media, l[i], l[j]) {
      RowPairsMembership(settings, media, l, i, j + 1, a, b);
      if a == i && j < b < |l| && forall k :: j + 1 <= k <= b ==> DurEq(settings, media, l[i], l[k]) {
        assert forall k :: j <= k <= b ==> DurEq(settings, media, l[i], l[k]);
      }
    } else if a == i && j <= b < |l| {
      if j < |l| {
        assert !DurEq(settings, media, l[i], l[j]);
      }
    }
  }

  /**
   * The pair (a, b) is examined exactly when a < b and l[a] is
   * duration-equal to every file from a + 1 up to b.
   */
  lemma {:induction false} ExaminedMembership(settings: ComparisonSettings, media: Media, l: seq<VideoRecord>, rows: nat, a: nat, b: nat)
    requires rows <= |l|
    ensures (a, b) in Examined(settings, media, l, rows)
        <==> a < rows && a < b < |l| && forall k :: a < k <= b ==> DurEq(settings, media, l[a], l[k])
  {
    if rows > 0 {
      ExaminedMembership(settings, media, l, rows - 1, a, b);
      RowPairsMembership(settings, media, l, rows - 1, rows, a, b);
    }
  }

  lemma {:induction false} ExaminedGrows(settings: ComparisonSettings, media: Media, l: seq<VideoRecord>, a: nat, b: nat)
    requires a <= b <= |l|
    ensures Examined(settings, media, l, a) <= Examined(settings, media, l, b)
    decreases b - a
  {
    if a < b {
      ExaminedGrows(settings, media, l, a, b - 1);
    }
  }

  lemma {:induction false} ReportedAppend(settings: ComparisonSettings, media: Media, l: seq<VideoRecord>, ps: seq<(nat, nat)>, qs: seq<(nat, nat)>)
    ensures Reported(settings, media, l, ps + qs) == Reported(settings, media, l, ps) + Reported(settings, media, l, qs)
    decreases |qs|
  {
    if qs != [] {
      var last := qs[|qs| - 1];
      assert (ps + qs)[..|ps + qs| - 1] == ps + qs[..|qs| - 1];
      ReportedAppend(settings, media, l, ps, qs[..|qs| - 1]);
    } else {
      assert ps + qs == ps;
    }
  }

  /** Reporting over a prefix of the pairs reports a prefix of the duplicates. */
  lemma ReportedPrefix(settings: ComparisonSettings, media: Media, l: seq<VideoRecord>, ps: seq<(nat, nat)>, qs: seq<(nat, nat)>)
    requires ps <= qs
    ensures Reported(settings, media, l, ps) <= Reported(settings, media, l, qs)
  {
    assert qs == ps + qs[|ps|..];
    ReportedAppend(settings, media, l, ps, qs[|ps|..]);
  }

  lemma {:induction false} ReportedSource(settings: ComparisonSettings, media: Media, l: seq<VideoRecord>, ps: seq<(nat, nat)>, p: (VideoRecord, VideoRecord))
      returns (i: nat, j: nat)
    requires p in Reported(settings, media, l, ps)
    ensures (i, j) in ps && i < |l| && j < |l| && ImgEq(settings, media, l[i], l[j]) && p == (l[i], l[j])
    decreases |ps|
  {
    var (a, b) := ps[|ps| - 1];
    if p in Reported(settings, media, l, ps[..|ps| - 1]) {
      i, j := ReportedSource(settings, media, l, ps[..|ps| - 1], p);
    } else {
      i, j := a, b;
    }
  }

  lemma {:induction false} ReportedContains(settings: ComparisonSettings, media: Media, l: seq<VideoRecord>, ps: seq<(nat, nat)>, i: nat, j: nat)
    requires (i, j) in ps && i < |l| && j < |l| && ImgEq(settings, media, l[i], l[j])
    ensures (l[i], l[j]) in Reported(settings, media, l, ps)
    decreases |ps|
  {
    if ps[|ps| - 1] != (i, j) {
      assert ps == ps[..|ps| - 1] + [ps[|ps| - 1]];
      ReportedContains(settings, media, l, ps[..|ps| - 1], i, j);
    }
  }

  /**
   * Soundness of FindDuplicates: every reported pair is (l[i], l[j]) of the
   * sorted list with i < j, l[i] duration-equal to every file from i + 1 up
   * to j, and matching images.
   */
  lemma ReportsOnlyCloseSimilarPairs(settings: ComparisonSettings, media: Media, files: seq<VideoRecord>, p: (VideoRecord, VideoRecord))
      returns (i: nat, j: nat)
    requires p in Duplicates(settings, media, files)
    ensures
      var l := SortByDuration(media, files);
      && i < j < |l| && p == (l[i], l[j])
      && (forall k :: i < k <= j ==> DurEq(settings, media, l[i], l[k]))
      && ImgEq(settings, media, l[i], l[j])
  {
    var l := SortByDuration(media, files);
    i, j := ReportedSource(settings, media, l, Examined(settings, media, l, |l|), p);
    ExaminedMembership(settings, media, l, |l|, i, j);
  }

  /**
   * Completeness of FindDuplicates: on the sorted list, the duration window
   * of l[i] covers every file between i and a duration-equal l[j], so the
   * early break loses no pair; every such pair with matching images is
   * reported.
   */
  lemma ReportsEveryCloseSimilarPair(settings: ComparisonSettings, media: Media, files: seq<VideoRecord>, i: nat, j: nat)
    requires
      var l := SortByDuration(media, files);
      i < j < |l| && DurEq(settings, media, l[i], l[j]) && ImgEq(settings, media, l[i], l[j])
    ensures
      var l := SortByDuration(media, files);
      (l[i], l[j]) in Duplicates(settings, media, files)
  {
    var l := SortByDuration(media, files);
    SortedWindow(settings, media, l, i, j);
    ExaminedMembership(settings, media, l, |l|, i, j);
    ReportedContains(settings, media, l, Examined(settings, media, l, |l|), i, j);
  }

  /** On a list sorted by duration, the window of l[i] reaching l[j] covers every file between them. */
  lemma SortedWindow(settings: ComparisonSettings, media: Media, l: seq<VideoRecord>, i: nat, j: nat)
    requires SortedByDuration(media, l) && i < j < |l| && DurEq(settings, media, l[i], l[j])
    ensures forall k :: i < k <= j ==> DurEq(settings, media, l[i], l[k])
  {
    forall k | i < k <= j
      ensures DurEq(settings, media, l[i], l[k])
    {
      DurationWindowIsInterval(settings, DurationTicks(media, l[i]), DurationTicks(media, l[k]), DurationTicks(media, l[j]));
    }
  }

  /** Once l[i] and l[j] are not duration-equal, no pair (i, k) with k >= j is examined. */
  lemma BreakEndsTheRow(settings: ComparisonSettings, media: Media, l: seq<VideoRecord>, i: nat, j: nat, k: nat)
    requires i < j <= k < |l| && !DurEq(settings, media, l[i], l[j])
    ensures (i, k) !in Examined(settings, media, l, |l|)
  {
    ExaminedMembership(settings, media, l, |l|, i, k);
  }

  lemma RowStep(settings: ComparisonSettings, media: Media, l: seq<VideoRecord>, i: nat, a: nat, b: nat)
    requires i < |l| && a <= b < |l| && DurEq(settings, media, l[i], l[b])
    requires RowPairs(settings, media, l, i, a) == Between(i, a, b) + RowPairs(settings, media, l, i, b)
    ensures RowPairs(settings, media, l, i, a) == Between(i, a, b + 1) + RowPairs(settings, media, l, i, b + 1)
  {
    var rest := RowPairs(settings, media, l, i, b + 1);
    assert RowPairs(settings, media, l, i, b) == [(i, b)] + rest;
    BetweenSnoc(i, a, b);
    AppendAssociates(Between(i, a, b), [(i, b)], rest);
  }

  lemma PrefixTransitive<T>(x: seq<T>, y: seq<T>, z: seq<T>)
    requires x <= y && y <= z
    ensures x <= z
  {
  }

  lemma AppendAssociates<T>(x: seq<T>, y: seq<T>, z: seq<T>)
    ensures x + (y + z) == (x + y) + z
  {
  }

  lemma BetweenSnoc(i: nat, a: nat, b: nat)
    requires a <= b
    ensures Between(i, a, b + 1) == Between(i, a, b) + [(i, b)]
  {
  }

  lemma ReportedSnoc(settings: ComparisonSettings, media: Media, l: seq<VideoRecord>, ps: seq<(nat, nat)>, q: (nat, nat))
    ensures Reported(settings, media, l, ps + [q]) == Reported(settings, media, l, ps)
      + (if q.0 < |l| && q.1 < |l| && ImgEq(settings, media, l[q.0], l[q.1]) then [(l[q.0], l[q.1])] else [])
  {
    assert (ps + [q])[..|ps|] == ps;
  }

  /** One step of CompareRow: when the row examines (i, b) next, it reports it when the images match. */
  lemma RowAdvance(settings: ComparisonSettings, media: Media, l: seq<VideoRecord>, i: nat, b: nat)
    requires i < b < |l|
    ensures Reported(settings, media, l, Between(i, i + 1, b + 1)) == Reported(settings, media, l, Between(i, i + 1, b))
      + (if ImgEq(settings, media, l[i], l[b]) then [(l[i], l[b])] else [])
  {
    BetweenSnoc(i, i + 1, b);
    ReportedSnoc(settings, media, l, Between(i, i + 1, b), (i, b));
  }

  /** A prefix of row `index` extends the pairs of the rows before it to a prefix of the first index + 1 rows. */
  lemma ExaminedAfterRow(settings: ComparisonSettings, media: Media, l: seq<VideoRecord>, index: nat, ps: seq<(nat, nat)>)
    requires index < |l| && ps <= RowPairs(settings, media, l, index, index + 1)
    ensures Examined(settings, media, l, index) + ps <= Examined(settings, media, l, index + 1)
    ensures ps == RowPairs(settings, media, l, index, index + 1) ==> Examined(settings, media, l, index) + ps == Examined(settings, media, l, index + 1)
  {
  }

  /**
   * A row whose polls all answer "not cancelled" adds the whole row to the
   * examined pairs and leaves the rest of the budget to the next row.
   */
  lemma RowCompleted(settings: ComparisonSettings, media: Media, l: seq<VideoRecord>, index: nat, budget: nat,
                     done: seq<(nat, nat)>, within: seq<(nat, nat)>, next: nat, rest: nat)
    requires index + 1 < |l| && 1 + RowPolls(settings, media, l, index) <= budget
    requires within == done + ExaminedWithin(settings, media, l, index, budget)
    requires next == index + 1 + |RowPairs(settings, media, l, index, index + 1)|
    requires rest == budget - 1 - RowPolls(settings, media, l, index)
    ensures within == done + Between(index, index + 1, next) + ExaminedWithin(settings, media, l, index + 1, rest)
    ensures PassPolls(settings, media, l, index) == 1 + RowPolls(settings, media, l, index) + PassPolls(settings, media, l, index + 1)
  {
    var row := RowPairs(settings, media, l, index, index + 1);
    var after := ExaminedWithin(settings, media, l, index + 1, rest);
    RowPairsAreConsecutive(settings, media, l, index, index + 1);
    assert ExaminedWithin(settings, media, l, index, budget) == row + after;
    AppendAssociates(done, row, after);
  }

  /**
   * A row cut short by the poll that sees cancellation ends the examined
   * pairs, and the budget falls short of the polls of the full pass.
   */
  lemma RowCutShort(settings: ComparisonSettings, media: Media, l: seq<VideoRecord>, index: nat, budget: nat,
                    done: seq<(nat, nat)>, within: seq<(nat, nat)>, next: nat)
    requires index + 1 < |l| && 1 <= budget && budget - 1 < RowPolls(settings, media, l, index)
    requires within == done + ExaminedWithin(settings, media, l, index, budget)
    requires next == index + budget
    ensures within == done + Between(index, index + 1, next)
    ensures budget < PassPolls(settings, media, l, index)
  {
  }

  /** Row i examines the positions from j on, one after the other. */
  lemma {:induction false} RowPairsAreConsecutive(settings: ComparisonSettings, media: Media, l: seq<VideoRecord>, i: nat, j: nat)
    requires i < |l|
    ensures RowPairs(settings, media, l, i, j) == Between(i, j, j + |RowPairs(settings, media, l, i, j)|)
    decreases |l| - j
  {
    if j < |l| && DurEq(settings, media, l[i], l[j]) {
      RowPairsAreConsecutive(settings, media, l, i, j + 1);
      BetweenCons(i, j, j + |RowPairs(settings, media, l, i, j)|);
    }
  }

  /**
   * Whatever the budget of polls, the loop examines a prefix of the pairs
   * the full pass examines, and all of them when the budget covers every
   * poll of the full pass.
   */
  lemma {:induction false} ExaminedWithinIsPrefix(settings: ComparisonSettings, media: Media, l: seq<VideoRecord>, row: nat, budget: nat)
    requires row <= |l|
    ensures Examined(settings, media, l, row) + ExaminedWithin(settings, media, l, row, budget) <= Examined(settings, media, l, |l|)
    ensures PassPolls(settings, media, l, row) <= budget ==>
      Examined(settings, media, l, row) + ExaminedWithin(settings, media, l, row, budget) == Examined(settings, media, l, |l|)
    decreases |l| - row
  {
    var before := Examined(settings, media, l, row);
    if row + 1 >= |l| || budget == 0 {
      ExaminedGrows(settings, media, l, row, |l|);
      assert before + [] == before;
      if row + 1 >= |l| && row < |l| {
        assert RowPairs(settings, media, l, row, |l|) == [];
        assert Examined(settings, media, l, |l|) == before + [];
      }
    } else if budget - 1 < RowPolls(settings, media, l, row) {
      RowCutIsPrefix(settings, media, l, row, budget);
    } else {
      var rowPairs := RowPairs(settings, media, l, row, row + 1);
      var rest := ExaminedWithin(settings, media, l, row + 1, budget - 1 - RowPolls(settings, media, l, row));
      ExaminedAfterRow(settings, media, l, row, rowPairs);
      ExaminedWithinIsPrefix(settings, media, l, row + 1, budget - 1 - RowPolls(settings, media, l, row));
      AppendAssociates(before, rowPairs, rest);
    }
  }

  /** A budget that runs out inside a row examines a prefix of the full pass, which it does not cover. */
  lemma RowCutIsPrefix(settings: ComparisonSettings, media: Media, l: seq<VideoRecord>, row: nat, budget: nat)
    requires row + 1 < |l| && 1 <= budget && budget - 1 < RowPolls(settings, media, l, row)
    ensures Examined(settings, media, l, row) + ExaminedWithin(settings, media, l, row, budget) <= Examined(settings, media, l, |l|)
    ensures budget < PassPolls(settings, media, l, row)
  {
    var rowPairs := RowPairs(settings, media, l, row, row + 1);
    var cut := Between(row, row + 1, row + budget);
    assert ExaminedWithin(settings, media, l, row, budget) == cut;
    RowPairsAreConsecutive(settings, media, l, row, row + 1);
    BetweenPrefix(row, row + 1, row + budget, row + 1 + |rowPairs|);
    ExaminedAfterRow(settings, media, l, row, cut);
    ExaminedGrows(settings, media, l, row + 1, |l|);
    PrefixTransitive(Examined(settings, media, l, row) + cut, Examined(settings, media, l, row + 1), Examined(settings, media, l, |l|));
  }

  /**
   * What the nested loop reports within a budget of polls is a prefix of what
   * the full pass reports: all of it when the budget covers every poll, and
   * nothing when not even the first poll answers "not cancelled".
   */
  lemma ReportedWithinIsPrefix(settings: ComparisonSettings, media: Media, l: seq<VideoRecord>, budget: nat)
    ensures Reported(settings, media, l, ExaminedWithin(settings, media, l, 0, budget)) <= AllReported(settings, media, l)
    ensures PassPolls(settings, media, l, 0) <= budget ==>
      Reported(settings, media, l, ExaminedWithin(settings, media, l, 0, budget)) == AllReported(settings, media, l)
    ensures budget == 0 ==> Reported(settings, media, l, ExaminedWithin(settings, media, l, 0, budget)) == []
  {
    var within := ExaminedWithin(settings, media, l, 0, budget);
    ExaminedWithinIsPrefix(settings, media, l, 0, budget);
    assert Examined(settings, media, l, 0) + within == within;
    ReportedPrefix(settings, media, l, within, Examined(settings, media, l, |l|));
  }

  /** A poll at position next of row index comes before the last poll of the row. */
  lemma RowCutAt(settings: ComparisonSettings, media: Media, l: seq<VideoRecord>, index: nat, next: nat)
    requires index + 1 <= next < |l|
    requires RowPairs(settings, media, l, index, index + 1) == Between(index, index + 1, next) + RowPairs(settings, media, l, index, next)
    ensures next - index - 1 < RowPolls(settings, media, l, index)
  {
  }

  /**
   * A row that reaches the end of the list, or a file that is not
   * duration-equal, at position next has examined the pairs before next, and
   * polled once more when it stopped before the end.
   */
  lemma RowEndsAt(settings: ComparisonSettings, media: Media, l: seq<VideoRecord>, index: nat, next: nat)
    requires index + 1 <= next <= |l|
    requires RowPairs(settings, media, l, index, index + 1) == Between(index, index + 1, next) + RowPairs(settings, media, l, index, next)
    requires next == |l| || !DurEq(settings, media, l[index], l[next])
    ensures RowPairs(settings, media, l, index, index + 1) == Between(index, index + 1, next)
    ensures RowPolls(settings, media, l, index) == if next < |l| then next - index else next - index - 1
  {
    assert RowPairs(settings, media, l, index, next) == [];
    assert Between(index, index + 1, next) + [] == Between(index, index + 1, next);
  }

  /**
   * The inner loop of FindDuplicates for row `index`: from index + 1 on,
   * polls the token (stopping once it reports cancellation), breaks at the
   * first file that is not duration-equal to l[index], and reports each
   * pair whose images match. `next` is where the row stopped; the pairs
   * before it are the prefix of the row that was examined.
   */
  method CompareRow(l: seq<VideoRecord>, index: nat, settings: ComparisonSettings, media: Media, token: CancellationToken)
      returns (found: seq<(VideoRecord, VideoRecord)>, next: nat, after: CancellationToken, cancelled: bool)
    requires index < |l|
    ensures cancelled <==> token.Remaining() < RowPolls(settings, media, l, index)
    ensures next == index + 1 + (if cancelled then token.Remaining() else |RowPairs(settings, media, l, index, index + 1)|)
    ensures found == Reported(settings, media, l, Between(index, index + 1, next))
    ensures after == CancellationToken(
      token.polls + (if cancelled then token.Remaining() + 1 else RowPolls(settings, media, l, index)), token.cancelAt)
  {
    found := [];
    after := token;
    cancelled := false;
    next := index + 1;
    while next < |l|
      invariant index + 1 <= next <= |l|
      invariant RowPairs(settings, media, l, index, index + 1) == Between(index, index + 1, next) + RowPairs(settings, media, l, index, next)
      invariant found == Reported(settings, media, l, Between(index, index + 1, next))
      invariant after == CancellationToken(token.polls + (next - index - 1), token.cancelAt)
      invariant next - index - 1 <= token.Remaining()
    {
      cancelled := after.IsCancellationRequested();
      after := after.Next();
      if cancelled {
        RowCutAt(settings, media, l, index, next);
        return;
      }
      if !DurEq(settings, media, l[index], l[next]) {
        break;
      }
      RowStep(settings, media, l, index, index + 1, next);
      RowAdvance(settings, media, l, index, next);
      if ImgEq(settings, media, l[index], l[next]) {
        found := found + [(l[index], l[next])];
      }
      next := next + 1;
    }
    RowEndsAt(settings, media, l, index, next);
  }

  /**
   * FindDuplicates: sorts the records by duration, then runs the nested
   * loop of CompareRows over the sorted list.
   */
  method FindDuplicates(files: seq<VideoRecord>, settings: ComparisonSettings, media: Media, token: CancellationToken)
      returns (found: seq<(VideoRecord, VideoRecord)>, after: CancellationToken, cancelled: bool)
    ensures found <= Duplicates(settings, media, files)
    ensures !cancelled ==> found == Duplicates(settings, media, files)
    ensures cancelled ==> after.IsCancellationRequested()
    ensures token.IsCancellationRequested() ==> found == []
    ensures token.PolledUpTo(after)
    ensures
      var l := SortByDuration(media, files);
      && (cancelled <==> token.Remaining() < PassPolls(settings, media, l, 0))
      && found == Reported(settings, media, l, ExaminedWithin(settings, media, l, 0, token.Remaining()))
      && after.polls == token.polls + (if cancelled then token.Remaining() + 1 else PassPolls(settings, media, l, 0))
  {
    var l := SortByDuration(media, files);
    found, after, cancelled := CompareRows(l, settings, media, token);
    ReportedWithinIsPrefix(settings, media, l, token.Remaining());
  }

  /**
   * The nested loop of FindDuplicates over the list l: for each index but
   * the last, polls the token (returning once it reports cancellation) and
   * compares l[index] with the following files as CompareRow does. Once a
   * poll sees cancellation nothing more is examined, so what is reported is
   * what the polls before it allowed.
   */
  method CompareRows(l: seq<VideoRecord>, settings: ComparisonSettings, media: Media, token: CancellationToken)
      returns (found: seq<(VideoRecord, VideoRecord)>, after: CancellationToken, cancelled: bool)
    ensures found == Reported(settings, media, l, ExaminedWithin(settings, media, l, 0, token.Remaining()))
    ensures after.cancelAt == token.cancelAt
    ensures cancelled ==> token.Remaining() < PassPolls(settings, media, l, 0) && after.polls == token.polls + token.Remaining() + 1
    ensures !cancelled ==> PassPolls(settings, media, l, 0) <= token.Remaining() && after.polls == token.polls + PassPolls(settings, media, l, 0)
  {
    found := [];
    after := token;
    cancelled := false;
    var index := 0;
    ghost var used: nat := 0;
    ghost var done: seq<(nat, nat)> := [];
    ghost var total := PassPolls(settings, media, l, 0);
    ghost var within := ExaminedWithin(settings, media, l, 0, token.Remaining());
    assert within == done + within;
    while index < |l| - 1
      invariant !cancelled
      invariant found == Reported(settings, media, l, done)
      invariant after == CancellationToken(token.polls + used, token.cancelAt)
      invariant used + after.Remaining() == token.Remaining()
      invariant total == used + PassPolls(settings, media, l, index)
      invariant within == done + ExaminedWithin(settings, media, l, index, after.Remaining())
    {
      var rowFound;
      rowFound, after, cancelled, done := PollAndCompareRow(l, index, settings, media, after, done, within);
      found := found + rowFound;
      if cancelled {
        return;
      }
      used := used + 1 + RowPolls(settings, media, l, index);
      index := index + 1;
    }
    assert done + [] == done;
  }

  /**
   * One turn of the outer loop of FindDuplicates: the poll for the row at
   * index, then the row itself. done is what the earlier rows examined and
   * within what the whole budget of the pass examines.
   */
  method PollAndCompareRow(l: seq<VideoRecord>, index: nat, settings: ComparisonSettings, media: Media,
                           token: CancellationToken, ghost done: seq<(nat, nat)>, ghost within: seq<(nat, nat)>)
      returns (found: seq<(VideoRecord, VideoRecord)>, after: CancellationToken, cancelled: bool,
               ghost doneAfter: seq<(nat, nat)>)
    requires index + 1 < |l|
    requires within == done + ExaminedWithin(settings, media, l, index, token.Remaining())
    ensures Reported(settings, media, l, done) + found == Reported(settings, media, l, doneAfter)
    ensures after.cancelAt == token.cancelAt
    ensures cancelled ==>
      && within == doneAfter
      && token.Remaining() < PassPolls(settings, media, l, index)
      && after.polls == token.polls + token.Remaining() + 1
    ensures !cancelled ==>
      && after.polls == token.polls + 1 + RowPolls(settings, media, l, index)
      && after.Remaining() + 1 + RowPolls(settings, media, l, index) == token.Remaining()
      && PassPolls(settings, media, l, index) == 1 + RowPolls(settings, media, l, index) + PassPolls(settings, media, l, index + 1)
      && within == doneAfter + ExaminedWithin(settings, media, l, index + 1, after.Remaining())
  {
    var budget := token.Remaining();
    cancelled := token.IsCancellationRequested();
    after := token.Next();
    found := [];
    doneAfter := done;
    if cancelled {
      assert done + [] == done;
      return;
    }
    var next;
    found, next, after, cancelled := CompareRow(l, index, settings, media, after);
    ghost var row := Between(index, index + 1, next);
    ReportedAppend(settings, media, l, done, row);
    doneAfter := done + row;
    if cancelled {
      RowCutShort(settings, media, l, index, budget, done, within, next);
    } else {
      RowCompleted(settings, media, l, index, budget, done, within, next, after.Remaining());
    }
  }

  // ---------------------------------------------------------------------
  // FindDuplicatesOf

  /**
   * The pairs FindDuplicatesOf reports for the records of `files`, in list
   * order: (ref, f) for each f with another path that is duration-equal to
   * ref (f's duration as the base) and whose images match ref's.
   */
  function Matches(settings: ComparisonSettings, media: Media, files: seq<VideoRecord>, ref: VideoRecord): seq<(VideoRecord, VideoRecord)>
  {
    if files == [] then []
    else
      var f := files[|files| - 1];
      Matches(settings, media, files[..|files| - 1], ref)
        + (if f.filePath != ref.filePath && DurEq(settings, media, f, ref) && ImgEq(settings, media, f, ref) then [(ref, f)] else [])
  }

  lemma {:induction false} MatchesOfPrefix(settings: ComparisonSettings, media: Media, files: seq<VideoRecord>, ref: VideoRecord, i: nat)
    requires i <= |files|
    ensures Matches(settings, media, files[..i], ref) <= Matches(settings, media, files, ref)
    decreases |files| - i
  {
    if i < |files| {
      MatchesOfPrefix(settings, media, files, ref, i + 1);
      assert files[..i + 1][..i] == files[..i];
    } else {
      assert files[..i] == files;
    }
  }

  /**
   * A pair is reported for `ref` exactly when it is (ref, f) for a record f
   * of the list with another path, duration-equal to ref with f's duration
   * as the base, and with images matching ref's. In particular ref is never
   * paired with itself.
   */
  lemma {:induction false} MatchesMembership(settings: ComparisonSettings, media: Media, files: seq<VideoRecord>, ref: VideoRecord, p: (VideoRecord, VideoRecord))
    ensures p in Matches(settings, media, files, ref)
        <==> && p.0 == ref && p.1 in files && p.1.filePath != ref.filePath
             && DurEq(settings, media, p.1, ref) && ImgEq(settings, media, p.1, ref)
    decreases |files|
  {
    if files != [] {
      assert files == files[..|files| - 1] + [files[|files| - 1]];
      MatchesMembership(settings, media, files[..|files| - 1], ref, p);
    }
  }

  /**
   * FindDuplicatesOf: for each record in list order, polls the token
   * (returning once it reports cancellation), skips the record with ref's
   * path, and reports (ref, f) when f is duration-equal to ref and their
   * images match.
   */
  method FindDuplicatesOf(files: seq<VideoRecord>, ref: VideoRecord, settings: ComparisonSettings, media: Media, token: CancellationToken)
      returns (found: seq<(VideoRecord, VideoRecord)>, after: CancellationToken, cancelled: bool)
    ensures found <= Matches(settings, media, files, ref)
    ensures !cancelled ==> found == Matches(settings, media, files, ref)
    ensures cancelled ==> after.IsCancellationRequested()
    ensures token.IsCancellationRequested() ==> found == []
    ensures token.PolledUpTo(after)
    ensures cancelled ==>
      && token.Remaining() < |files|
      && found == Matches(settings, media, files[..token.Remaining()], ref)
      && after.polls == token.polls + token.Remaining() + 1
    ensures !cancelled ==> |files| <= token.Remaining() && after.polls == token.polls + |files|
  {
    found := [];
    after := token;
    cancelled := false;
    var i := 0;
    while i < |files|
      invariant i <= |files| && i <= token.Remaining() && !cancelled
      invariant found == Matches(settings, media, files[..i], ref)
      invariant after == CancellationToken(token.polls + i, token.cancelAt)
    {
      cancelled := after.IsCancellationRequested();
      after := after.Next();
      if cancelled {
        MatchesOfPrefix(settings, media, files, ref, i);
        return;
      }
      var file := files[i];
      assert files[..i + 1][..i] == files[..i];
      if file.filePath == ref.filePath {
      } else if !DurEq(settings, media, file, ref) {
      } else if ImgEq(settings, media, file, ref) {
        found := found + [(ref, file)];
      }
      i := i + 1;
    }
    assert files[..i] == files;
  }

  // ---------------------------------------------------------------------
  // PreloadFiles and the baseline filter

  /** The list after the durations of its first n records have been read. */
  function Resolved(media: Media, files: seq<VideoRecord>, n: nat): (r: seq<VideoRecord>)
    requires n <= |files|
    ensures |r| == |files|
    ensures forall k :: 0 <= k < |files| ==> r[k] == if k < n then Resolve(media, files[k]) else files[k]
  {
    seq(|files|, k requires 0 <= k < |files| => if k < n then Resolve(media, files[k]) else files[k])
  }

  /**
   * Reading durations changes no path and no duration the records yield,
   * keeps the list unique by path, and once every record has been read
   * each one holds its duration.
   */
  lemma ResolvedKeepsRecords(media: Media, files: seq<VideoRecord>, n: nat)
    requires n <= |files|
    ensures var r := Resolved(media, files, n);
      && (forall k :: 0 <= k < |files| ==> r[k].filePath == files[k].filePath && DurationTicks(media, r[k]) == DurationTicks(media, files[k]))
      && PathSet(r) == PathSet(files)
      && (UniqueByPath(files) ==> UniqueByPath(r))
      && (n == |files| ==> forall x :: x in r ==> x.duration.Some?)
  {
    var r := Resolved(media, files, n);
    forall p | p in PathSet(files) ensures p in PathSet(r) {
      var k :| 0 <= k < |files| && files[k].filePath == p;
      assert r[k].filePath == p;
    }
    forall p | p in PathSet(r) ensures p in PathSet(files) {
      var k :| 0 <= k < |r| && r[k].filePath == p;
      assert files[k].filePath == p;
    }
  }

  /**
   * PreloadFiles: for each record in order, counts it, reads its duration,
   * then polls the token and stops once it reports cancellation. `counter`
   * is the number of records whose duration was read.
   */
  method PreloadFiles(files: seq<VideoRecord>, media: Media, token: CancellationToken)
      returns (loaded: seq<VideoRecord>, counter: nat, after: CancellationToken, cancelled: bool)
    ensures counter <= |files| && loaded == Resolved(media, files, counter)
    ensures !cancelled ==> counter == |files|
    ensures cancelled ==> 1 <= counter && after.IsCancellationRequested()
    ensures token.IsCancellationRequested() && files != [] ==> cancelled && counter == 1
    ensures token.PolledUpTo(after)
    ensures after.polls == token.polls + counter
    ensures cancelled ==> token.Remaining() < |files| && counter == token.Remaining() + 1
    ensures !cancelled ==> |files| <= token.Remaining()
  {
    loaded := files;
    counter := 0;
    after := token;
    cancelled := false;
    while counter < |files|
      invariant counter <= |files| && loaded == Resolved(media, files, counter)
      invariant counter <= token.Remaining() && !cancelled
      invariant after == CancellationToken(token.polls + counter, token.cancelAt)
    {
      counter := counter + 1;
      loaded := loaded[counter - 1 := Resolve(media, loaded[counter - 1])];
      cancelled := after.IsCancellationRequested();
      after := after.Next();
      if cancelled {
        break;
      }
    }
  }

  /** One list is the other with some records left out, order kept. */
  predicate IsSubsequence(a: seq<VideoRecord>, b: seq<VideoRecord>)
    decreases |b|
  {
    if a == [] then true
    else if b == [] then false
    else if a[0] == b[0] then IsSubsequence(a[1..], b[1..])
    else IsSubsequence(a, b[1..])
  }

  /**
   * The baseline of ProcessFolder: the records whose duration is not zero,
   * in list order.
   */
  function WithDuration(media: Media, files: seq<VideoRecord>): (r: seq<VideoRecord>)
    ensures forall x :: x in r <==> x in files && DurationTicks(media, x) != 0
    ensures IsSubsequence(r, files)
    ensures UniqueByPath(files) ==> UniqueByPath(r)
    ensures PathSet(r) <= PathSet(files)
  {
    if files == [] then []
    else
      var rest := WithDuration(media, files[1..]);
      assert files == [files[0]] + files[1..];
      PrependByPath(files[0], files[1..]);
      if DurationTicks(media, files[0]) != 0 then
        PrependByPath(files[0], rest);
        assert ([files[0]] + rest)[1..] == rest;
        [files[0]] + rest
      else rest
  }

  // ---------------------------------------------------------------------
  // List.Remove

  /**
   * VideoFiles.Remove(file) with identity by path: drops the first record
   * with the path; a path that is not tracked leaves the list as it is.
   */
  function RemoveByPath(files: seq<VideoRecord>, path: string): (r: seq<VideoRecord>)
    ensures path !in PathSet(files) ==> r == files
    ensures path in PathSet(files) ==> |r| == |files| - 1
    ensures forall x :: x in r ==> x in files
  {
    if files == [] then []
    else if files[0].filePath == path then files[1..]
    else
      var rest := RemoveByPath(files[1..], path);
      assert files == [files[0]] + files[1..];
      PrependByPath(files[0], files[1..]);
      [files[0]] + rest
  }

  /** On a list unique by path, removing a path keeps it unique and drops exactly that path. */
  lemma {:induction false} RemoveByPathKeepsUnique(files: seq<VideoRecord>, path: string)
    requires UniqueByPath(files)
    ensures UniqueByPath(RemoveByPath(files, path))
    ensures PathSet(RemoveByPath(files, path)) == PathSet(files) - {path}
  {
    if files != [] {
      assert files == [files[0]] + files[1..];
      PrependByPath(files[0], files[1..]);
      if files[0].filePath != path {
        var rest := RemoveByPath(files[1..], path);
        RemoveByPathKeepsUnique(files[1..], path);
        PrependByPath(files[0], rest);
      }
    }
  }

  /** Putting a record in front adds its path; the list stays unique when the path is new. */
  lemma PrependByPath(x: VideoRecord, s: seq<VideoRecord>)
    ensures PathSet([x] + s) == {x.filePath} + PathSet(s)
    ensures UniqueByPath([x] + s) <==> UniqueByPath(s) && x.filePath !in PathSet(s)
  {
    var r := [x] + s;
    assert forall y :: y in r <==> y == x || y in s;
    if UniqueByPath(r) {
      forall i, j | 0 <= i < j < |s| ensures s[i].filePath != s[j].filePath {
        assert r[i + 1] == s[i] && r[j + 1] == s[j];
      }
      assert UniqueByPath(s);
      forall y | y in s ensures y.filePath != x.filePath {
        var k :| 0 <= k < |s| && s[k] == y;
        assert r[0] == x && r[k + 1] == s[k];
      }
    }
    if UniqueByPath(s) && x.filePath !in PathSet(s) {
      forall i, j | 0 <= i < j < |r| ensures r[i].filePath != r[j].filePath {
        assert r[j] == s[j - 1];
        if i > 0 {
          assert r[i] == s[i - 1];
        } else {
          assert r[0] == x && s[j - 1] in s && s[j - 1].filePath in PathSet(s);
        }
      }
      assert UniqueByPath(r);
    }
  }

}
