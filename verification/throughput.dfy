/** One bin of the throughput histogram: a half-open time interval, the
    songs made in it and their summed length. */
module Throughput {
  import opened Songs

  /** One bin: the interval [startTime, endTime) in Unix seconds, the songs
      made in it and their summed length in seconds. */
  datatype Bin = Bin(startTime: int, endTime: int, songs: seq<Song>, throughput: real)

  /** A bin holding `songs`, its throughput being their total length. */
  function BinOf(startTime: int, endTime: int, songs: seq<Song>): Bin {
    Bin(startTime, endTime, songs, TotalLength(songs))
  }

  /** The bin constructor, which sums the lengths in a loop from the first
      song to the last. */
  method NewBin(startTime: int, endTime: int, songs: seq<Song>) returns (b: Bin)
    ensures b == BinOf(startTime, endTime, songs)
    ensures songs == [] ==> b.throughput == 0.0
  {
    var total := 0.0;
    var i := 0;
    while i < |songs|
      invariant 0 <= i <= |songs|
      invariant total == TotalLength(songs[..i])
    {
      assert songs[..i + 1] == songs[..i] + [songs[i]];
      TotalLengthAppend(songs[..i], [songs[i]]);
      total := total + songs[i].length;
      i := i + 1;
    }
    assert songs[..i] == songs;
    b := Bin(startTime, endTime, songs, total);
  }

  /** The Python code's bin membership test: made at or after `startTime` and
      strictly before `endTime`. */
  predicate MadeBetween(startTime: int, endTime: int, song: Song) {
    startTime <= song.creationTime < endTime
  }

  /** Cutting an interval at any point splits its songs between the two
      halves, none falling in both. */
  lemma MadeBetweenSplits(low: int, middle: int, high: int, song: Song)
    requires low <= middle <= high
    ensures MadeBetween(low, high, song) <==> MadeBetween(low, middle, song) || MadeBetween(middle, high, song)
    ensures !(MadeBetween(low, middle, song) && MadeBetween(middle, high, song))
  {
  }

  /** The songs of `s` made in [startTime, endTime), in their order in `s`. */
  function SongsMadeBetween(s: seq<Song>, startTime: int, endTime: int): (r: seq<Song>)
    ensures |r| <= |s|
    decreases |s|
  {
    if |s| == 0 then []
    else if MadeBetween(startTime, endTime, s[0]) then [s[0]] + SongsMadeBetween(s[1..], startTime, endTime)
    else SongsMadeBetween(s[1..], startTime, endTime)
  }

  /** The filter keeps exactly the songs made in the interval, in their
      order in the input. */
  lemma {:induction false} SongsMadeBetweenMembers(s: seq<Song>, startTime: int, endTime: int)
    ensures Subsequence(SongsMadeBetween(s, startTime, endTime), s)
    ensures forall x :: x in SongsMadeBetween(s, startTime, endTime) <==> x in s && MadeBetween(startTime, endTime, x)
    decreases |s|
  {
    if s != [] {
      SongsMadeBetweenMembers(s[1..], startTime, endTime);
      var rest := SongsMadeBetween(s[1..], startTime, endTime);
      HeadTail(s);
      if MadeBetween(startTime, endTime, s[0]) {
        assert ([s[0]] + rest)[1..] == rest;
      } else if rest != [] {
        assert Subsequence(rest, s[1..]);
      }
    }
  }

  /** One song is kept by the filter exactly when it is in the input and
      was made in the interval. */
  lemma SongsMadeBetweenHas(s: seq<Song>, startTime: int, endTime: int, x: Song)
    ensures x in SongsMadeBetween(s, startTime, endTime) <==> x in s && MadeBetween(startTime, endTime, x)
  {
    SongsMadeBetweenMembers(s, startTime, endTime);
  }

  /** A filter that every song passes returns the list unchanged. */
  lemma {:induction false} SongsMadeBetweenOfCovered(s: seq<Song>, startTime: int, endTime: int)
    requires forall x :: x in s ==> MadeBetween(startTime, endTime, x)
    ensures SongsMadeBetween(s, startTime, endTime) == s
    decreases |s|
  {
    if s != [] {
      assert s[0] in s;
      assert forall x :: x in s[1..] ==> x in s;
      SongsMadeBetweenOfCovered(s[1..], startTime, endTime);
      HeadTail(s);
    }
  }

  /** When every song was made in the interval, the filter keeps the whole
      length of any reordering of the songs. */
  lemma SongsMadeBetweenOfCoveredReordering(a: seq<Song>, s: seq<Song>, startTime: int, endTime: int)
    requires multiset(a) == multiset(s)
    requires forall x :: x in s ==> MadeBetween(startTime, endTime, x)
    ensures TotalLength(SongsMadeBetween(a, startTime, endTime)) == TotalLength(s)
  {
    forall x | x in a
      ensures MadeBetween(startTime, endTime, x)
    {
      assert x in multiset(s);
    }
    SongsMadeBetweenOfCovered(a, startTime, endTime);
    TotalLengthOfReordering(a, s);
  }

  /** No song is made in an empty interval. */
  lemma {:induction false} NoSongsInEmptyInterval(s: seq<Song>, t: int)
    ensures SongsMadeBetween(s, t, t) == []
    decreases |s|
  {
    if s != [] {
      NoSongsInEmptyInterval(s[1..], t);
    }
  }

  /** Splitting an interval splits the total length of its songs. */
  lemma {:induction false} SongsMadeBetweenSplit(s: seq<Song>, low: int, middle: int, high: int)
    requires low <= middle <= high
    ensures TotalLength(SongsMadeBetween(s, low, high))
         == TotalLength(SongsMadeBetween(s, low, middle)) + TotalLength(SongsMadeBetween(s, middle, high))
    decreases |s|
  {
    if s != [] {
      SongsMadeBetweenSplit(s[1..], low, middle, high);
    }
  }

  /** The filter keeps each song as often as the input holds it if it was
      made in the interval, and not at all otherwise. */
  lemma {:induction false} SongsMadeBetweenCounts(s: seq<Song>, low: int, high: int, x: Song)
    ensures multiset(SongsMadeBetween(s, low, high))[x]
         == if MadeBetween(low, high, x) then multiset(s)[x] else 0
    decreases |s|
  {
    if s != [] {
      SongsMadeBetweenCounts(s[1..], low, high, x);
      HeadTail(s);
    }
  }

  /** Filtering a reordering of `songs` keeps each song made in the
      interval as often as `songs` lists it, and no other song. */
  lemma SongsMadeBetweenCountsOfReordering(s: seq<Song>, songs: seq<Song>, low: int, high: int)
    requires multiset(s) == multiset(songs)
    ensures forall x :: multiset(SongsMadeBetween(s, low, high))[x]
                     == if MadeBetween(low, high, x) then multiset(songs)[x] else 0
  {
    forall x
      ensures multiset(SongsMadeBetween(s, low, high))[x]
           == if MadeBetween(low, high, x) then multiset(songs)[x] else 0
    {
      SongsMadeBetweenCounts(s, low, high, x);
    }
  }

  /** The songs of an interval weigh the same whichever order the list is in. */
  lemma SongsMadeBetweenOfReordering(a: seq<Song>, b: seq<Song>, low: int, high: int)
    requires multiset(a) == multiset(b)
    ensures TotalLength(SongsMadeBetween(a, low, high)) == TotalLength(SongsMadeBetween(b, low, high))
  {
    var fa, fb := SongsMadeBetween(a, low, high), SongsMadeBetween(b, low, high);
    forall x
      ensures multiset(fa)[x] == multiset(fb)[x]
    {
      SongsMadeBetweenCounts(a, low, high, x);
      SongsMadeBetweenCounts(b, low, high, x);
    }
    assert multiset(fa) == multiset(fb);
    TotalLengthOfReordering(fa, fb);
  }

  /** Sum of the bins' throughputs. */
  function TotalThroughput(bins: seq<Bin>): real
    decreases |bins|
  {
    if |bins| == 0 then 0.0
    else bins[0].throughput + TotalThroughput(bins[1..])
  }
}
