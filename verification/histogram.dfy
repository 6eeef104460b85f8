/** The throughput histogram: songs sorted by creation time are cut into
    equal half-open time bins starting at the earliest song, and each bin's
    song lengths are summed. */
module Histogram {
  import opened Wrappers
  import opened Songs
  import opened Sorting
  import opened Throughput

  /** The inputs on which the Python code fails instead of returning a
      histogram: no songs (it reads the first and last song) and a bin
      width of zero (it divides by the width). */
  datatype HistogramError = NoSongs | ZeroBinSize

  // Bin counts.

  /** The fewest steps of width `w` that reach `d` from zero: the ceiling
      of `d / w`, or zero when `d` is not positive. */
  function StepsToReach(d: int, w: int): nat
    requires w > 0
    decreases d
  {
    if d <= 0 then 0 else 1 + StepsToReach(d - w, w)
  }

  /** The fewest steps of width `w` that go past `d` from zero. */
  function StepsToPass(d: int, w: int): nat
    requires w > 0
    decreases d + w
  {
    if d < 0 then 0 else 1 + StepsToPass(d - w, w)
  }

  /** The number of bins the Python code allocates for a span of `span` seconds:
      `ceil(span / binSize)`, where a non-positive count gives an empty
      list of bins. A negative width counts the steps of the negated span
      by the negated width, which has the same quotient. */
  function NumBins(span: int, binSize: int): nat
    requires binSize != 0
  {
    if binSize > 0 then StepsToReach(span, binSize) else StepsToReach(-span, -binSize)
  }

  /** The corrected bin count: for a positive width, the fewest bins whose
      total width goes past the span, so that the last bin ends after the
      latest song; a negative width still gives no bins. */
  function NumBinsCovering(span: int, binSize: int): nat
    requires binSize != 0
  {
    if binSize > 0 then StepsToPass(span, binSize) else NumBins(span, binSize)
  }

  /** `ceil(a / b)` for a non-zero divisor, as the Python code's `ceil` of a true
      division computes it, written with Euclidean division. */
  function CeilDiv(a: int, b: int): int
    requires b != 0
  {
    if b > 0 then -((-a) / b) else -(a / (-b))
  }

  /** Multiplying by a positive width keeps order. */
  lemma ScaleMonotone(a: int, c: int, b: int)
    requires a <= c && b > 0
    ensures a * b <= c * b
  {
    assert c * b - a * b == (c - a) * b;
  }

  /** Euclidean division by a positive width has one quotient and one
      remainder. */
  lemma DivisionIsUnique(a: int, b: int, q: int, r: int)
    requires b > 0 && 0 <= r < b && a == q * b + r
    ensures a / b == q && a % b == r
  {
    var q', r' := a / b, a % b;
    assert a == q' * b + r';
    var d := q - q';
    assert d * b == r' - r by {
      assert q * b - q' * b == (q - q') * b;
    }
    if d >= 1 {
      ScaleMonotone(1, d, b);
    } else if d <= -1 {
      ScaleMonotone(d, -1, b);
    }
  }

  /** At most one count `n` of bins reaches `d` with `n - 1` falling short. */
  lemma ReachingCountIsUnique(d: int, w: int, n: int, m: int)
    requires w > 0
    requires (n - 1) * w < d <= n * w && (m - 1) * w < d <= m * w
    ensures n == m
  {
    if n < m {
      ScaleMonotone(n, m - 1, w);
    } else if m < n {
      ScaleMonotone(m, n - 1, w);
    }
  }

  /** At most one count `n` of bins goes past `d` with `n - 1` falling
      short. */
  lemma PassingCountIsUnique(d: int, w: int, n: int, m: int)
    requires w > 0
    requires (n - 1) * w <= d < n * w && (m - 1) * w <= d < m * w
    ensures n == m
  {
    if n < m {
      ScaleMonotone(n, m - 1, w);
    } else if m < n {
      ScaleMonotone(m, n - 1, w);
    }
  }

  /** `StepsToReach(d, w)` steps reach `d` and one fewer do not; there are
      none exactly when `d` is not positive. */
  lemma {:induction false} StepsToReachBounds(d: int, w: int)
    requires w > 0
    ensures var n := StepsToReach(d, w);
            && (n == 0 <==> d <= 0)
            && n * w >= d
            && (n > 0 ==> (n - 1) * w < d)
    decreases d
  {
    if d > 0 {
      StepsToReachBounds(d - w, w);
      var m := StepsToReach(d - w, w);
      assert (m + 1) * w == m * w + w;
    }
  }

  /** `StepsToPass(d, w)` steps go past `d` and one fewer do not; there are
      none exactly when `d` is negative. */
  lemma {:induction false} StepsToPassBounds(d: int, w: int)
    requires w > 0
    ensures var n := StepsToPass(d, w);
            && (n == 0 <==> d < 0)
            && n * w > d
            && (n > 0 ==> (n - 1) * w <= d)
    decreases d + w
  {
    if d >= 0 {
      StepsToPassBounds(d - w, w);
      var m := StepsToPass(d - w, w);
      assert (m + 1) * w == m * w + w;
    }
  }

  /** The ceiling quotient lies within one width above `a`. */
  lemma CeilDivBounds(a: int, b: int)
    requires b > 0
    ensures (CeilDiv(a, b) - 1) * b < a <= CeilDiv(a, b) * b
  {
    var q, d := CeilDiv(a, b), (-a) / b;
    assert -a == d * b + (-a) % b;
    assert q * b == -(d * b);
    assert (q - 1) * b == q * b - b;
  }

  /** The Python code's count is `ceil(span / binSize)` when that is positive
      and zero otherwise, for every span and every non-zero width. */
  lemma NumBinsIsCeiling(span: int, binSize: int)
    requires binSize != 0
    ensures NumBins(span, binSize) == if CeilDiv(span, binSize) > 0 then CeilDiv(span, binSize) else 0
  {
    var d, w := if binSize > 0 then span else -span, if binSize > 0 then binSize else -binSize;
    assert CeilDiv(span, binSize) == CeilDiv(d, w);
    var c := CeilDiv(d, w);
    StepsToReachBounds(d, w);
    CeilDivBounds(d, w);
    if c <= 0 {
      ScaleMonotone(c, 0, w);
    } else {
      ReachingCountIsUnique(d, w, StepsToReach(d, w), c);
    }
  }

  /** With a positive width, the Python code's bins reach exactly to the span
      when the width divides the span. */
  lemma StepsToReachExact(d: int, w: int)
    requires d >= 0 && w > 0
    ensures StepsToReach(d, w) * w == d <==> d % w == 0
  {
    var n := StepsToReach(d, w);
    StepsToReachBounds(d, w);
    if n * w == d {
      DivisionIsUnique(d, w, n, 0);
    }
    if d % w == 0 && d > 0 {
      var q := d / w;
      assert d == q * w + d % w;
      assert (q - 1) * w == q * w - w;
      ReachingCountIsUnique(d, w, n, q);
    }
  }

  /** For a non-negative span and a positive width the Python code's count is
      the fewest bins whose total width reaches the span, zero only for an
      empty span, and their total width equals the span exactly when the
      width divides it. A negative width gives no bins. */
  lemma NumBinsBounds(span: int, binSize: int)
    requires span >= 0 && binSize != 0
    ensures var n := NumBins(span, binSize);
            && (binSize > 0 ==> n * binSize >= span && (n == 0 || (n - 1) * binSize < span))
            && (binSize > 0 ==> (n == 0 <==> span == 0))
            && (binSize > 0 ==> (n * binSize == span <==> span % binSize == 0))
            && (binSize < 0 ==> n == 0)
  {
    if binSize > 0 {
      StepsToReachBounds(span, binSize);
      StepsToReachExact(span, binSize);
    }
  }

  /** For a non-negative span and a positive width the corrected count is
      the number of whole widths in the span plus one: the fewest bins
      whose total width goes past the span. */
  lemma CoveringCountIsFloorPlusOne(span: int, binSize: int)
    requires span >= 0 && binSize > 0
    ensures var n := NumBinsCovering(span, binSize);
            && n == span / binSize + 1
            && n * binSize > span && (n - 1) * binSize <= span
  {
    var n := NumBinsCovering(span, binSize);
    StepsToPassBounds(span, binSize);
    var q := span / binSize;
    assert span == q * binSize + span % binSize;
    assert (q + 1) * binSize == q * binSize + binSize;
    assert (q + 1 - 1) * binSize == q * binSize;
    PassingCountIsUnique(span, binSize, n, q + 1);
  }

  /** For a non-negative span and a positive width the corrected count is
      the Python code's count when the width does not divide the span, and one
      more when it does. */
  lemma CoveringCountVersusSource(span: int, binSize: int)
    requires span >= 0 && binSize > 0
    ensures span % binSize != 0 ==> NumBinsCovering(span, binSize) == NumBins(span, binSize)
    ensures span % binSize == 0 ==> NumBinsCovering(span, binSize) == NumBins(span, binSize) + 1
  {
    var n, m := NumBinsCovering(span, binSize), NumBins(span, binSize);
    StepsToPassBounds(span, binSize);
    StepsToReachBounds(span, binSize);
    StepsToReachExact(span, binSize);
    if span % binSize != 0 {
      PassingCountIsUnique(span, binSize, n, m);
    } else {
      assert (m + 1) * binSize == m * binSize + binSize;
      assert (m + 1 - 1) * binSize == m * binSize;
      PassingCountIsUnique(span, binSize, n, m + 1);
    }
  }

  /** A point at offset `d` from the histogram start lies in bin `i`
      exactly when `i` is `d` divided by the width, rounded down. */
  lemma BinIndexOfOffset(d: int, b: int, i: int)
    requires b > 0
    ensures (i * b <= d < (i + 1) * b) <==> i == d / b
  {
    var q := d / b;
    assert d == q * b + d % b;
    assert (i + 1) * b == i * b + b;
    assert (q + 1) * b == q * b + b;
    if i * b <= d < (i + 1) * b {
      DivisionIsUnique(d, b, i, d - i * b);
    }
  }

  // Bins over a list sorted by creation time.

  /** Bin `i` of a histogram starting at `t0`: the interval
      [t0 + i * width, t0 + (i + 1) * width) and the songs of `sorted` made
      in it. */
  function BinNumber(sorted: seq<Song>, t0: int, binSize: int, i: int): Bin {
    var start, end := t0 + i * binSize, t0 + (i + 1) * binSize;
    BinOf(start, end, SongsMadeBetween(sorted, start, end))
  }

  /** The first `n` bins of width `binSize` starting at `t0`. */
  function Bins(sorted: seq<Song>, t0: int, binSize: int, n: nat): seq<Bin> {
    seq(n, i => BinNumber(sorted, t0, binSize, i))
  }

  /** Bin `i + 1` from `t0` is bin `i` from one width later. */
  lemma BinNumberShift(sorted: seq<Song>, t0: int, b: int, i: int)
    ensures BinNumber(sorted, t0 + b, b, i) == BinNumber(sorted, t0, b, i + 1)
  {
    assert t0 + b + i * b == t0 + (i + 1) * b;
    assert t0 + b + (i + 1) * b == t0 + (i + 2) * b;
  }

  /** Bins from `t0` are the first bin, holding the songs of the first
      width, followed by the bins from one width later. */
  lemma BinsCons(bins: seq<Bin>, sorted: seq<Song>, t0: int, b: int, n: nat)
    requires n > 0 && bins == Bins(sorted, t0, b, n)
    ensures bins[0].throughput == TotalLength(SongsMadeBetween(sorted, t0, t0 + b))
    ensures bins[1..] == Bins(sorted, t0 + b, b, n - 1)
  {
    var rest := Bins(sorted, t0 + b, b, n - 1);
    forall j | 0 <= j < n - 1
      ensures rest[j] == bins[j + 1]
    {
      BinNumberShift(sorted, t0, b, j);
    }
  }

  /** The first `m` of `n` bins are the `m` bins over the same start. */
  lemma BinsPrefix(sorted: seq<Song>, t0: int, b: int, m: nat, n: nat)
    requires m <= n
    ensures Bins(sorted, t0, b, n)[..m] == Bins(sorted, t0, b, m)
  {
  }

  // What a histogram promises, stated of any list of bins.

  /** The bins start at `t0`, each is `b` seconds wide and each ends where
      the next begins, so that they follow each other in time. */
  predicate Tiled(bins: seq<Bin>, t0: int, b: int) {
    && (forall i :: 0 <= i < |bins| ==> bins[i].startTime == t0 + i * b)
    && (forall i :: 0 <= i < |bins| ==> bins[i].endTime - bins[i].startTime == b)
    && (forall i :: 0 < i < |bins| ==> bins[i - 1].endTime == bins[i].startTime)
    && (forall i, j :: 0 <= i < j < |bins| ==> bins[i].endTime <= bins[j].startTime)
  }

  /** Each bin holds exactly the songs of `songs` made in its interval, each
      as often as `songs` lists it, in creation-time order, and its
      throughput is their total length. */
  ghost predicate HoldsSongsMadeIn(bins: seq<Bin>, songs: seq<Song>) {
    && (forall i, x :: 0 <= i < |bins| ==>
          (x in bins[i].songs <==> x in songs && MadeBetween(bins[i].startTime, bins[i].endTime, x)))
    && (forall i, x :: 0 <= i < |bins| ==>
          multiset(bins[i].songs)[x]
          == if MadeBetween(bins[i].startTime, bins[i].endTime, x) then multiset(songs)[x] else 0)
    && (forall i :: 0 <= i < |bins| ==> SortedBy(ByTime, bins[i].songs))
    && (forall i :: 0 <= i < |bins| ==> bins[i].throughput == TotalLength(bins[i].songs))
  }

  /** Song `x` lies in the bin whose index is its offset from `t0` divided
      by the width `b` and in no other, and so lies in some bin exactly
      when it was made before the end of the last one. */
  predicate BinnedByOffset(bins: seq<Bin>, t0: int, b: int, x: Song)
    requires b > 0
  {
    && (forall i :: 0 <= i < |bins| ==> (x in bins[i].songs <==> i == (x.creationTime - t0) / b))
    && ((exists i :: 0 <= i < |bins| && x in bins[i].songs) <==> x.creationTime < t0 + |bins| * b)
  }

  /** Song `x` lies in bin `i` and in no other bin. */
  predicate OnlyInBin(bins: seq<Bin>, x: Song, i: int) {
    && 0 <= i < |bins| && x in bins[i].songs
    && forall j :: 0 <= j < |bins| && x in bins[j].songs ==> j == i
  }

  /** Every song of `songs` lies in some bin. */
  predicate EverySongBinned(bins: seq<Bin>, songs: seq<Song>) {
    forall x :: x in songs ==> exists i :: 0 <= i < |bins| && x in bins[i].songs
  }

  /** With a positive width the bins from `t0` tile time from `t0` on. */
  lemma BinsTiled(bins: seq<Bin>, sorted: seq<Song>, t0: int, b: int, n: nat)
    requires b > 0 && bins == Bins(sorted, t0, b, n)
    ensures Tiled(bins, t0, b)
  {
    forall i | 0 <= i < n
      ensures bins[i].endTime - bins[i].startTime == b
    {
      assert (i + 1) * b == i * b + b;
    }
    forall i | 0 < i < n
      ensures bins[i - 1].endTime == bins[i].startTime
    {
      assert (i - 1 + 1) * b == i * b;
    }
    forall i, j | 0 <= i < j < n
      ensures bins[i].endTime <= bins[j].startTime
    {
      ScaleMonotone(i + 1, j, b);
    }
  }

  /** A song lies in bin `i` exactly when it is one of the songs and `i`
      is its offset from the start divided by the width. */
  lemma BinHoldsSong(sorted: seq<Song>, t0: int, b: int, i: int, x: Song)
    requires b > 0
    ensures x in BinNumber(sorted, t0, b, i).songs <==> x in sorted && i == (x.creationTime - t0) / b
  {
    SongsMadeBetweenHas(sorted, t0 + i * b, t0 + (i + 1) * b, x);
    BinIndexOfOffset(x.creationTime - t0, b, i);
  }

  /** A song made at or after the start lands in the bin whose index is its
      offset divided by the width and in no other, and in some bin exactly
      when it precedes the end of the last bin. */
  lemma BinsAssignByIndex(bins: seq<Bin>, sorted: seq<Song>, t0: int, b: int, n: nat, x: Song)
    requires b > 0 && bins == Bins(sorted, t0, b, n) && x in sorted && t0 <= x.creationTime
    ensures BinnedByOffset(bins, t0, b, x)
  {
    forall i | 0 <= i < n
      ensures x in bins[i].songs <==> i == (x.creationTime - t0) / b
    {
      BinHoldsSong(sorted, t0, b, i, x);
    }
    var q := (x.creationTime - t0) / b;
    OffsetIndexBounds(x.creationTime - t0, b, n);
    if q < n {
      BinHoldsSong(sorted, t0, b, q, x);
      assert x in bins[q].songs;
    }
  }

  /** The bin index of a non-negative offset is non-negative, and below `n`
      exactly when the offset is below `n` widths. */
  lemma OffsetIndexBounds(d: int, b: int, n: int)
    requires d >= 0 && b > 0
    ensures 0 <= d / b
    ensures d / b < n <==> d < n * b
  {
    var q := d / b;
    BinIndexOfOffset(d, b, q);
    if q < n {
      ScaleMonotone(q + 1, n, b);
    } else {
      ScaleMonotone(n, q, b);
    }
    if q < 0 {
      ScaleMonotone(q + 1, 0, b);
    }
  }

  /** The bins' throughputs add up to the length of the songs made between
      the start of the first bin and the end of the last. */
  lemma {:induction false} BinsConserveLength(bins: seq<Bin>, sorted: seq<Song>, t0: int, b: int, n: nat)
    requires b > 0 && bins == Bins(sorted, t0, b, n)
    ensures TotalThroughput(bins) == TotalLength(SongsMadeBetween(sorted, t0, t0 + n * b))
    decreases n
  {
    if n == 0 {
      assert bins == [];
      NoSongsInEmptyInterval(sorted, t0);
    } else {
      BinsCons(bins, sorted, t0, b, n);
      BinsConserveLength(bins[1..], sorted, t0 + b, b, n - 1);
      NextBinsEnd(t0, b, n);
      SongsMadeBetweenSplit(sorted, t0, t0 + b, t0 + n * b);
    }
  }

  /** The bins from one width later end where the original bins end. */
  lemma NextBinsEnd(t0: int, b: int, n: nat)
    requires b > 0 && n > 0
    ensures t0 + b + (n - 1) * b == t0 + n * b
    ensures t0 <= t0 + b <= t0 + n * b
  {
    ScaleMonotone(1, n, b);
  }

  // Earliest and latest creation times.

  /** Earliest creation time among the songs. */
  function EarliestTime(s: seq<Song>): int
    requires s != []
    decreases |s|
  {
    if |s| == 1 then s[0].creationTime
    else
      var rest := EarliestTime(s[1..]);
      if s[0].creationTime <= rest then s[0].creationTime else rest
  }

  /** Latest creation time among the songs. */
  function LatestTime(s: seq<Song>): int
    requires s != []
    decreases |s|
  {
    if |s| == 1 then s[0].creationTime
    else
      var rest := LatestTime(s[1..]);
      if s[0].creationTime >= rest then s[0].creationTime else rest
  }

  /** `EarliestTime` is the creation time of some song and no song is
      earlier. */
  lemma {:induction false} EarliestTimeIsMinimum(s: seq<Song>)
    requires s != []
    ensures forall x :: x in s ==> EarliestTime(s) <= x.creationTime
    ensures exists x :: x in s && x.creationTime == EarliestTime(s)
    decreases |s|
  {
    assert s[0] in s;
    if |s| > 1 {
      EarliestTimeIsMinimum(s[1..]);
      assert forall x :: x in s ==> x == s[0] || x in s[1..];
      var y :| y in s[1..] && y.creationTime == EarliestTime(s[1..]);
      assert y in s;
    }
  }

  /** `LatestTime` is the creation time of some song and no song is later. */
  lemma {:induction false} LatestTimeIsMaximum(s: seq<Song>)
    requires s != []
    ensures forall x :: x in s ==> x.creationTime <= LatestTime(s)
    ensures exists x :: x in s && x.creationTime == LatestTime(s)
    decreases |s|
  {
    assert s[0] in s;
    if |s| > 1 {
      LatestTimeIsMaximum(s[1..]);
      assert forall x :: x in s ==> x == s[0] || x in s[1..];
      var y :| y in s[1..] && y.creationTime == LatestTime(s[1..]);
      assert y in s;
    }
  }

  /** Reorderings have the same earliest and latest creation times. */
  lemma ReorderingKeepsExtremes(a: seq<Song>, b: seq<Song>)
    requires a != [] && multiset(a) == multiset(b)
    ensures b != []
    ensures EarliestTime(a) == EarliestTime(b) && LatestTime(a) == LatestTime(b)
  {
    assert a[0] in multiset(b);
    EarliestTimeIsMinimum(a);
    EarliestTimeIsMinimum(b);
    LatestTimeIsMaximum(a);
    LatestTimeIsMaximum(b);
    var x :| x in a && x.creationTime == EarliestTime(a);
    var y :| y in b && y.creationTime == EarliestTime(b);
    var u :| u in a && u.creationTime == LatestTime(a);
    var v :| v in b && v.creationTime == LatestTime(b);
    assert x in multiset(b) && y in multiset(a) && u in multiset(b) && v in multiset(a);
  }

  /** In a list sorted by creation time the first song is an earliest one. */
  lemma SortedFirstIsEarliest(s: seq<Song>)
    requires s != [] && SortedBy(ByTime, s)
    ensures s[0].creationTime == EarliestTime(s)
  {
    EarliestTimeIsMinimum(s);
    var x :| x in s && x.creationTime == EarliestTime(s);
    var i :| 0 <= i < |s| && s[i] == x;
    assert i == 0 || !Precedes(ByTime, s[i], s[0]);
  }

  /** In a list sorted by creation time the last song is a latest one. */
  lemma SortedLastIsLatest(s: seq<Song>)
    requires s != [] && SortedBy(ByTime, s)
    ensures s[|s| - 1].creationTime == LatestTime(s)
  {
    LatestTimeIsMaximum(s);
    var y :| y in s && y.creationTime == LatestTime(s);
    var j :| 0 <= j < |s| && s[j] == y;
    assert j == |s| - 1 || !Precedes(ByTime, s[|s| - 1], s[j]);
  }

  // The Python code's histogram.

  /** The time from the first to the last song of a list. */
  function Span(s: seq<Song>): int
    requires |s| > 0
  {
    s[|s| - 1].creationTime - s[0].creationTime
  }

  /** The Python code's histogram of `songs` with bins `binSize` seconds wide:
      sort the songs by creation time, then cut the sorted list into bins
      starting at its first song, `ceil(span / binSize)` of them, the span
      running from its first song to its last. */
  function CreateHistogram(songs: seq<Song>, binSize: int): (r: Result<seq<Bin>, HistogramError>)
    ensures r == Failure(NoSongs) <==> songs == []
    ensures r == Failure(ZeroBinSize) <==> songs != [] && binSize == 0
  {
    if |songs| == 0 then Failure(NoSongs)
    else if binSize == 0 then Failure(ZeroBinSize)
    else
      SortByPermutes(ByTime, songs);
      var sorted := SortBy(ByTime, songs);
      Success(Bins(sorted, sorted[0].creationTime, binSize, NumBins(Span(sorted), binSize)))
  }

  /** The corrected histogram: as `CreateHistogram`, but with one bin more
      whenever the width divides the span, so that every song is binned. */
  function CreateHistogramCovering(songs: seq<Song>, binSize: int): (r: Result<seq<Bin>, HistogramError>)
    ensures r == Failure(NoSongs) <==> songs == []
    ensures r == Failure(ZeroBinSize) <==> songs != [] && binSize == 0
  {
    if |songs| == 0 then Failure(NoSongs)
    else if binSize == 0 then Failure(ZeroBinSize)
    else
      SortByPermutes(ByTime, songs);
      var sorted := SortBy(ByTime, songs);
      Success(Bins(sorted, sorted[0].creationTime, binSize, NumBinsCovering(Span(sorted), binSize)))
  }
}
