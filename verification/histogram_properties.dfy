/** Properties of the throughput histogram: how its bins tile time, what
    each holds, how many there are, and what the corrected count changes.
    None of these lemmas is inductive; each switches off automatic induction
    because the hypotheses Dafny would add over the song lists only make
    the solver's work heavier. */
module HistogramProperties {
  import opened Wrappers
  import opened Songs
  import opened Sorting
  import opened Throughput
  import opened Histogram

  /** The time-sorted songs: a sorted reordering of the input whose first
      and last creation times are the input's earliest and latest. */
  lemma {:induction false} SortedSongs(songs: seq<Song>) returns (sorted: seq<Song>)
    requires songs != []
    ensures sorted == SortBy(ByTime, songs)
    ensures |sorted| == |songs| && multiset(sorted) == multiset(songs)
    ensures sorted[0].creationTime == EarliestTime(songs)
    ensures Span(sorted) == LatestTime(songs) - EarliestTime(songs)
  {
    sorted := SortBy(ByTime, songs);
    SortByPermutes(ByTime, songs);
    SortByIsSorted(ByTime, songs);
    ReorderingKeepsExtremes(songs, sorted);
    SortedFirstIsEarliest(sorted);
    SortedLastIsLatest(sorted);
  }

  /** The Python code's histogram is `Bins` over a time-sorted reordering of the
      songs, starting at the earliest creation time, with `ceil(span /
      width)` bins; the other histogram lemmas rest on this alone. */
  lemma {:induction false} HistogramIsBins(songs: seq<Song>, b: int, bins: seq<Bin>) returns (sorted: seq<Song>)
    requires CreateHistogram(songs, b) == Success(bins)
    ensures songs != [] && b != 0
    ensures sorted == SortBy(ByTime, songs) && multiset(sorted) == multiset(songs)
    ensures bins == Bins(sorted, EarliestTime(songs), b, NumBins(LatestTime(songs) - EarliestTime(songs), b))
  {
    SourceIsBinsOfSort(songs, b, bins);
    sorted := SortBy(ByTime, songs);
    SortByPermutes(ByTime, songs);
  }

  /** The corrected histogram is `Bins` over the same sorted songs with the
      corrected count. */
  lemma {:induction false} HistogramCoveringIsBins(songs: seq<Song>, b: int, bins: seq<Bin>) returns (sorted: seq<Song>)
    requires CreateHistogramCovering(songs, b) == Success(bins)
    ensures songs != [] && b != 0
    ensures multiset(sorted) == multiset(songs)
    ensures bins == Bins(sorted, EarliestTime(songs), b, NumBinsCovering(LatestTime(songs) - EarliestTime(songs), b))
  {
    CoveringIsBinsOfSort(songs, b, bins);
    sorted := SortBy(ByTime, songs);
    SortByPermutes(ByTime, songs);
  }

  /** The Python code's histogram is `Bins` over the stable time sort of
      the songs. */
  lemma {:induction false} SourceIsBinsOfSort(songs: seq<Song>, b: int, bins: seq<Bin>)
    requires CreateHistogram(songs, b) == Success(bins)
    ensures songs != [] && b != 0
    ensures bins == Bins(SortBy(ByTime, songs), EarliestTime(songs), b,
                         NumBins(LatestTime(songs) - EarliestTime(songs), b))
  {
    var sorted := SortedSongs(songs);
  }

  /** The corrected histogram is `Bins` over the stable time sort of the
      songs, the very list the Python code's histogram cuts. */
  lemma {:induction false} CoveringIsBinsOfSort(songs: seq<Song>, b: int, bins: seq<Bin>)
    requires CreateHistogramCovering(songs, b) == Success(bins)
    ensures songs != [] && b != 0
    ensures bins == Bins(SortBy(ByTime, songs), EarliestTime(songs), b,
                         NumBinsCovering(LatestTime(songs) - EarliestTime(songs), b))
  {
    var sorted := SortedSongs(songs);
  }

  /** Both histograms are `Bins` over the same time-sorted reordering of the
      songs, differing only in the bin count. */
  lemma {:induction false} HistogramsShareSortedSongs(songs: seq<Song>, b: int, source: seq<Bin>, fixed: seq<Bin>)
    returns (sorted: seq<Song>)
    requires CreateHistogram(songs, b) == Success(source)
    requires CreateHistogramCovering(songs, b) == Success(fixed)
    ensures songs != [] && b != 0
    ensures source == Bins(sorted, EarliestTime(songs), b, NumBins(LatestTime(songs) - EarliestTime(songs), b))
    ensures fixed == Bins(sorted, EarliestTime(songs), b, NumBinsCovering(LatestTime(songs) - EarliestTime(songs), b))
  {
    sorted := HistogramIsBins(songs, b, source);
    CoveringIsBinsOfSort(songs, b, fixed);
  }

  /** The time span from the earliest to the latest song is non-negative,
      and every song lies within it. */
  lemma {:induction false} SpanIsNonNegative(songs: seq<Song>)
    requires songs != []
    ensures EarliestTime(songs) <= LatestTime(songs)
    ensures forall x :: x in songs ==> EarliestTime(songs) <= x.creationTime <= LatestTime(songs)
  {
    EarliestTimeIsMinimum(songs);
    LatestTimeIsMaximum(songs);
  }

  // Bins over a time-sorted reordering of the songs.

  /** Over a time-sorted reordering of `songs`, a bin holds exactly the
      songs made in its interval, in creation-time order. */
  lemma {:induction false} BinOfReorderingContents(sorted: seq<Song>, songs: seq<Song>, t0: int, b: int, i: int)
    requires multiset(sorted) == multiset(songs) && SortedBy(ByTime, sorted)
    ensures var bin := BinNumber(sorted, t0, b, i);
            && (forall x :: x in bin.songs <==> x in songs && MadeBetween(bin.startTime, bin.endTime, x))
            && (forall x :: multiset(bin.songs)[x]
                         == if MadeBetween(bin.startTime, bin.endTime, x) then multiset(songs)[x] else 0)
            && SortedBy(ByTime, bin.songs)
  {
    var bin := BinNumber(sorted, t0, b, i);
    SongsMadeBetweenMembers(sorted, bin.startTime, bin.endTime);
    SongsMadeBetweenCountsOfReordering(sorted, songs, bin.startTime, bin.endTime);
    SubsequenceKeepsSorted(ByTime, bin.songs, sorted);
    forall x | x in sorted || x in songs
      ensures x in sorted <==> x in songs
    {
      assert x in sorted <==> x in multiset(songs);
    }
  }

  /** Over a time-sorted reordering of `songs`, each bin holds exactly the
      songs made in its interval, in creation-time order, and its
      throughput is their total length. */
  lemma {:induction false} BinsOfReorderingContents(bins: seq<Bin>, sorted: seq<Song>, songs: seq<Song>, t0: int, b: int, n: nat)
    requires bins == Bins(sorted, t0, b, n)
    requires multiset(sorted) == multiset(songs) && SortedBy(ByTime, sorted)
    ensures HoldsSongsMadeIn(bins, songs)
  {
    forall i | 0 <= i < n
      ensures forall x :: x in bins[i].songs <==> x in songs && MadeBetween(bins[i].startTime, bins[i].endTime, x)
      ensures forall x :: multiset(bins[i].songs)[x]
                       == if MadeBetween(bins[i].startTime, bins[i].endTime, x) then multiset(songs)[x] else 0
      ensures SortedBy(ByTime, bins[i].songs)
    {
      BinOfReorderingContents(sorted, songs, t0, b, i);
    }
  }

  /** Over a reordering of `songs` whose creation times lie in [t0, t1)
      and reach t1, every song is binned exactly when the bins reach past
      t1. */
  lemma {:induction false} BinsKeepEverySongIff(bins: seq<Bin>, sorted: seq<Song>, songs: seq<Song>, t0: int, t1: int, b: int, n: nat)
    requires b > 0 && bins == Bins(sorted, t0, b, n) && multiset(sorted) == multiset(songs)
    requires forall x :: x in songs ==> t0 <= x.creationTime <= t1
    requires exists x :: x in songs && x.creationTime == t1
    ensures EverySongBinned(bins, songs) <==> t1 < t0 + n * b
  {
    if t1 < t0 + n * b {
      forall x | x in songs
        ensures exists i :: 0 <= i < n && x in bins[i].songs
      {
        assert x in multiset(sorted);
        BinsAssignByIndex(bins, sorted, t0, b, n, x);
      }
    } else {
      var y :| y in songs && y.creationTime == t1;
      assert y in multiset(sorted);
      BinsAssignByIndex(bins, sorted, t0, b, n, y);
    }
  }

  /** A song of a reordering made before the end of the last bin lies in
      the bin its offset from `t0` selects and in no other. */
  lemma {:induction false} BinsPlaceSong(bins: seq<Bin>, sorted: seq<Song>, t0: int, b: int, n: nat, x: Song)
    requires b > 0 && bins == Bins(sorted, t0, b, n) && x in sorted && t0 <= x.creationTime < t0 + n * b
    ensures OnlyInBin(bins, x, (x.creationTime - t0) / b)
  {
    BinsAssignByIndex(bins, sorted, t0, b, n, x);
    OffsetIndexBounds(x.creationTime - t0, b, n);
  }

  /** Over a reordering of `songs`, bins starting at the earliest creation
      time have throughputs adding up to the total length of the songs made
      between the start of the first bin and the end of the last. */
  lemma {:induction false} BinsOfReorderingConserveLength(bins: seq<Bin>, sorted: seq<Song>, songs: seq<Song>, b: int, n: nat)
    requires songs != [] && b > 0 && multiset(sorted) == multiset(songs)
    requires bins == Bins(sorted, EarliestTime(songs), b, n)
    ensures TotalThroughput(bins) == TotalLength(SongsMadeBetween(songs, EarliestTime(songs), EarliestTime(songs) + |bins| * b))
  {
    BinsConserveLength(bins, sorted, EarliestTime(songs), b, n);
    SongsMadeBetweenOfReordering(sorted, songs, EarliestTime(songs), EarliestTime(songs) + n * b);
  }

  /** Over a reordering of `songs` whose creation times lie in [t0, t1),
      bins reaching past t1 have throughputs adding up to the total length
      of all the songs. */
  lemma {:induction false} BinsConserveAllLength(bins: seq<Bin>, sorted: seq<Song>, songs: seq<Song>, t0: int, t1: int, b: int, n: nat)
    requires b > 0 && bins == Bins(sorted, t0, b, n) && multiset(sorted) == multiset(songs)
    requires forall x :: x in songs ==> t0 <= x.creationTime <= t1
    requires t1 < t0 + n * b
    ensures TotalThroughput(bins) == TotalLength(songs)
  {
    BinsConserveLength(bins, sorted, t0, b, n);
    SongsMadeBetweenOfCoveredReordering(sorted, songs, t0, t0 + n * b);
  }

  // Properties of the Python code's histogram, stated of the bins it returns.

  /** A negative width gives an empty histogram rather than an error. */
  lemma {:induction false} HistogramOfNegativeWidthIsEmpty(songs: seq<Song>, b: int)
    requires songs != [] && b < 0
    ensures CreateHistogram(songs, b) == Success([])
  {
    var sorted := HistogramIsBins(songs, b, CreateHistogram(songs, b).value);
    SpanIsNonNegative(songs);
    NumBinsBounds(LatestTime(songs) - EarliestTime(songs), b);
  }

  /** There are `ceil(span / width)` bins: the fewest whose total width
      reaches from the earliest to the latest creation time, and none at
      all when every song has the same creation time. */
  lemma {:induction false} HistogramBinCount(songs: seq<Song>, b: int, bins: seq<Bin>)
    requires b > 0 && CreateHistogram(songs, b) == Success(bins)
    ensures songs != []
    ensures var span := LatestTime(songs) - EarliestTime(songs);
            && |bins| * b >= span
            && (|bins| == 0 || (|bins| - 1) * b < span)
            && (|bins| == 0 <==> span == 0)
  {
    var sorted := HistogramIsBins(songs, b, bins);
    SpanIsNonNegative(songs);
    NumBinsBounds(LatestTime(songs) - EarliestTime(songs), b);
  }

  /** The bins tile time from the earliest creation time: bin `i` spans
      [t0 + i * width, t0 + (i + 1) * width), each bin ends where the next
      begins, and none overlap. */
  lemma {:induction false} HistogramBinBounds(songs: seq<Song>, b: int, bins: seq<Bin>)
    requires CreateHistogram(songs, b) == Success(bins)
    ensures songs != [] && Tiled(bins, EarliestTime(songs), b)
  {
    var sorted := HistogramIsBins(songs, b, bins);
    if b < 0 {
      HistogramOfNegativeWidthIsEmpty(songs, b);
    } else {
      BinsTiled(bins, sorted, EarliestTime(songs), b, NumBins(LatestTime(songs) - EarliestTime(songs), b));
    }
  }

  /** Each bin holds exactly the input songs made in its interval, each as
      often as the input lists it, in creation-time order, and its
      throughput is their total length. */
  lemma {:induction false} HistogramBinContents(songs: seq<Song>, b: int, bins: seq<Bin>)
    requires CreateHistogram(songs, b) == Success(bins)
    ensures HoldsSongsMadeIn(bins, songs)
  {
    var sorted := HistogramIsBins(songs, b, bins);
    SortByIsSorted(ByTime, songs);
    BinsOfReorderingContents(bins, sorted, songs, EarliestTime(songs), b, NumBins(LatestTime(songs) - EarliestTime(songs), b));
  }

  /** A song lands in the bin whose index is its offset from the earliest
      creation time divided by the width, and in no other; it lands in some
      bin exactly when it was made before the end of the last bin. */
  lemma {:induction false} HistogramAssignsByIndex(songs: seq<Song>, b: int, bins: seq<Bin>, x: Song)
    requires b > 0 && CreateHistogram(songs, b) == Success(bins) && x in songs
    ensures BinnedByOffset(bins, EarliestTime(songs), b, x)
  {
    var sorted := HistogramIsBins(songs, b, bins);
    EarliestTimeIsMinimum(songs);
    assert x in multiset(sorted);
    BinsAssignByIndex(bins, sorted, EarliestTime(songs), b, NumBins(LatestTime(songs) - EarliestTime(songs), b), x);
  }

  /** The bins' throughputs add up to the total length of the songs made
      before the end of the last bin. */
  lemma {:induction false} HistogramConservesLength(songs: seq<Song>, b: int, bins: seq<Bin>)
    requires b > 0 && CreateHistogram(songs, b) == Success(bins)
    ensures TotalThroughput(bins) == TotalLength(SongsMadeBetween(songs, EarliestTime(songs), EarliestTime(songs) + |bins| * b))
  {
    var sorted := HistogramIsBins(songs, b, bins);
    BinsOfReorderingConserveLength(bins, sorted, songs, b, NumBins(LatestTime(songs) - EarliestTime(songs), b));
  }

  /** Every song is binned exactly when the width does not divide the span
      from the earliest to the latest song: when it does, the latest songs
      fall just past the end of the last bin. */
  lemma {:induction false} HistogramKeepsEverySongIff(songs: seq<Song>, b: int, bins: seq<Bin>)
    requires b > 0 && CreateHistogram(songs, b) == Success(bins)
    ensures songs != []
    ensures EverySongBinned(bins, songs) <==> (LatestTime(songs) - EarliestTime(songs)) % b != 0
  {
    var sorted := HistogramIsBins(songs, b, bins);
    SpanIsNonNegative(songs);
    LatestTimeIsMaximum(songs);
    NumBinsBounds(LatestTime(songs) - EarliestTime(songs), b);
    BinsKeepEverySongIff(bins, sorted, songs, EarliestTime(songs), LatestTime(songs), b,
                         NumBins(LatestTime(songs) - EarliestTime(songs), b));
  }

  /** A single song never appears in the Python code's histogram: its span is
      zero, so no bins are allocated. */
  lemma {:induction false} SingleSongIsLost(x: Song, b: int)
    requires b != 0
    ensures CreateHistogram([x], b) == Success([])
  {
    assert [x][1..] == [];
    assert SortBy(ByTime, [x]) == [x];
    assert Span([x]) == 0;
    assert NumBins(0, b) == 0;
    assert Bins([x], x.creationTime, b, 0) == [];
  }

  // Properties of the corrected histogram.

  /** With a positive width every song of the corrected histogram lands in
      exactly one bin, the one whose index is its offset from the earliest
      creation time divided by the width. */
  lemma {:induction false} CoveringBinsEverySong(songs: seq<Song>, b: int, bins: seq<Bin>, x: Song)
    requires b > 0 && CreateHistogramCovering(songs, b) == Success(bins) && x in songs
    ensures OnlyInBin(bins, x, (x.creationTime - EarliestTime(songs)) / b)
  {
    var sorted := HistogramCoveringIsBins(songs, b, bins);
    SpanIsNonNegative(songs);
    CoveringCountIsFloorPlusOne(LatestTime(songs) - EarliestTime(songs), b);
    assert x in multiset(sorted);
    BinsPlaceSong(bins, sorted, EarliestTime(songs), b, NumBinsCovering(LatestTime(songs) - EarliestTime(songs), b), x);
  }

  /** With a positive width the corrected histogram's throughputs add up to
      the total length of all the songs. */
  lemma {:induction false} CoveringConservesLength(songs: seq<Song>, b: int, bins: seq<Bin>)
    requires b > 0 && CreateHistogramCovering(songs, b) == Success(bins)
    ensures TotalThroughput(bins) == TotalLength(songs)
  {
    var sorted := HistogramCoveringIsBins(songs, b, bins);
    SpanIsNonNegative(songs);
    CoveringCountIsFloorPlusOne(LatestTime(songs) - EarliestTime(songs), b);
    BinsConserveAllLength(bins, sorted, songs, EarliestTime(songs), LatestTime(songs), b,
                          NumBinsCovering(LatestTime(songs) - EarliestTime(songs), b));
  }

  /** The correction changes nothing unless the width divides the span;
      then it appends one bin to the Python code's histogram. A negative width
      still gives no bins. */
  lemma {:induction false} CoveringExtendsSource(songs: seq<Song>, b: int, source: seq<Bin>, fixed: seq<Bin>)
    requires CreateHistogram(songs, b) == Success(source)
    requires CreateHistogramCovering(songs, b) == Success(fixed)
    ensures songs != []
    ensures var span := LatestTime(songs) - EarliestTime(songs);
            && (b < 0 || span % b != 0 ==> fixed == source)
            && (b > 0 && span % b == 0 ==> |fixed| == |source| + 1 && fixed[..|source|] == source)
  {
    var sorted := HistogramsShareSortedSongs(songs, b, source, fixed);
    SpanIsNonNegative(songs);
    if b > 0 {
      CoveringCountVersusSource(LatestTime(songs) - EarliestTime(songs), b);
      BinsPrefix(sorted, EarliestTime(songs), b, NumBins(LatestTime(songs) - EarliestTime(songs), b),
                 NumBinsCovering(LatestTime(songs) - EarliestTime(songs), b));
    }
  }
}
