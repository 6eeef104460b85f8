/** The registry builder's timestamp-deduplication loop: of neighbouring
    records with the same creation time only the later-positioned one is
    kept. */
module TimeDedup {
  import opened Songs
  import opened Sorting

  /** A record survives exactly when it is the last one or its successor
      has a different creation time. */
  function DropTimeTies(s: seq<Song>): seq<Song>
    decreases |s|
  {
    if |s| <= 1 then s
    else (if s[0].creationTime == s[1].creationTime then [] else [s[0]]) + DropTimeTies(s[1..])
  }

  /** What is left of the loop's work when records before `i - 1` are
      settled and the scan resumes at record `i - 1`. */
  function PendingTies(r: seq<Song>, i: int): seq<Song>
    requires 1 <= i <= |r|
  {
    r[..i - 1] + DropTimeTies(r[i - 1..])
  }

  /** Deleting record `i - 1` when record `i` has its creation time leaves
      the pending work unchanged. */
  lemma DropTiedStep(r: seq<Song>, i: int)
    requires 1 <= i < |r| && r[i].creationTime == r[i - 1].creationTime
    ensures PendingTies(r[..i - 1] + r[i..], i) == PendingTies(r, i)
  {
    var r' := r[..i - 1] + r[i..];
    assert r[i - 1..] == [r[i - 1]] + r[i..];
    assert ([r[i - 1]] + r[i..])[1..] == r[i..];
    assert r'[..i - 1] == r[..i - 1] && r'[i - 1..] == r[i..];
  }

  /** Moving past a change of creation time settles record `i - 1` and
      leaves the pending work unchanged. */
  lemma KeepUntiedStep(r: seq<Song>, i: int)
    requires 1 <= i < |r| && r[i].creationTime != r[i - 1].creationTime
    ensures PendingTies(r, i + 1) == PendingTies(r, i)
  {
    var settled, current, rest := r[..i - 1], r[i - 1], r[i..];
    assert r[i - 1..] == [current] + rest;
    assert ([current] + rest)[1..] == rest;
    assert DropTimeTies(r[i - 1..]) == [current] + DropTimeTies(rest);
    assert r[..i] == settled + [current];
    AppendIsAssociative(settled, [current], DropTimeTies(rest));
  }

  /** With one record left to scan, the pending work is the list itself. */
  lemma PendingTiesAtEnd(r: seq<Song>)
    requires r != []
    ensures PendingTies(r, |r|) == r
  {
    assert r[|r| - 1..] == [r[|r| - 1]];
    assert r[..|r| - 1] + [r[|r| - 1]] == r;
  }

  /** The loop over `songs`: when a record has its predecessor's creation
      time the predecessor is deleted, otherwise the scan advances. */
  method RemoveEqualTimePredecessors(songs: seq<Song>) returns (r: seq<Song>)
    ensures r == DropTimeTies(songs)
    ensures Subsequence(r, songs)
    ensures SortedBy(ByTime, songs) ==> StrictlyIncreasingTimes(r)
  {
    r := songs;
    var i := 1;
    assert songs[0..] == songs;
    while i < |r|
      invariant 1 <= i
      invariant r == [] <==> songs == []
      invariant r != [] ==> i <= |r| && DropTimeTies(songs) == PendingTies(r, i)
      decreases |r| - i
    {
      if r[i].creationTime == r[i - 1].creationTime {
        DropTiedStep(r, i);
        r := r[..i - 1] + r[i..];
      } else {
        KeepUntiedStep(r, i);
        i := i + 1;
      }
    }
    if r != [] {
      PendingTiesAtEnd(r);
    }
    DropTimeTiesIsSubsequence(songs);
    if SortedBy(ByTime, songs) {
      DropTimeTiesOfSortedIncreases(songs);
    }
  }

  /** The loop only deletes records. */
  lemma {:induction false} DropTimeTiesIsSubsequence(s: seq<Song>)
    ensures Subsequence(DropTimeTies(s), s)
    decreases |s|
  {
    if |s| <= 1 {
      SubsequenceReflexive(s);
    } else {
      DropTimeTiesIsSubsequence(s[1..]);
      var tail := DropTimeTies(s[1..]);
      if s[0].creationTime == s[1].creationTime {
        assert DropTimeTies(s) == tail;
        if tail != [] {
          assert Subsequence(tail, s[1..]);
        }
      } else {
        assert DropTimeTies(s) == [s[0]] + tail;
        assert ([s[0]] + tail)[1..] == tail;
      }
    }
  }

  /** A record in front of a list with strictly increasing times keeps
      them strictly increasing when it is earlier than all of them. */
  lemma ConsKeepsTimesIncreasing(x: Song, t: seq<Song>)
    requires StrictlyIncreasingTimes(t) && forall y :: y in t ==> x.creationTime < y.creationTime
    ensures StrictlyIncreasingTimes([x] + t)
  {
    var r := [x] + t;
    forall i, j | 0 <= i < j < |r| ensures r[i].creationTime < r[j].creationTime {
      assert r[j] == t[j - 1];
      if i > 0 {
        assert r[i] == t[i - 1];
      }
    }
  }

  /** In a list sorted by creation time no record is earlier than the first. */
  lemma SortedHeadIsFirst(s: seq<Song>, y: Song)
    requires SortedBy(ByTime, s) && s != [] && y in s
    ensures s[0].creationTime <= y.creationTime
  {
    var m :| 0 <= m < |s| && s[m] == y;
    assert m == 0 || !Precedes(ByTime, s[m], s[0]);
  }

  /** On a list sorted by creation time the survivors have strictly
      increasing, hence pairwise distinct, creation times. */
  lemma {:induction false} DropTimeTiesOfSortedIncreases(s: seq<Song>)
    requires SortedBy(ByTime, s)
    ensures StrictlyIncreasingTimes(DropTimeTies(s))
    decreases |s|
  {
    if |s| > 1 {
      var x, rest := s[0], s[1..];
      SortedTail(ByTime, s);
      DropTimeTiesOfSortedIncreases(rest);
      var tail := DropTimeTies(rest);
      if x.creationTime != rest[0].creationTime {
        assert DropTimeTies(s) == [x] + tail;
        assert !Precedes(ByTime, s[1], s[0]);
        DropTimeTiesIsSubsequence(rest);
        SubsequenceMembers(tail, rest);
        forall y | y in tail ensures x.creationTime < y.creationTime {
          SortedHeadIsFirst(rest, y);
        }
        ConsKeepsTimesIncreasing(x, tail);
      } else {
        assert DropTimeTies(s) == tail;
      }
    }
  }

  /** Every creation time of the input is still present in the output:
      only records whose time is repeated are dropped. */
  lemma {:induction false} DropTimeTiesKeepsEveryTime(s: seq<Song>, i: int)
    requires 0 <= i < |s|
    ensures exists j :: 0 <= j < |DropTimeTies(s)| && DropTimeTies(s)[j].creationTime == s[i].creationTime
    decreases |s|
  {
    if |s| > 1 {
      var tail := DropTimeTies(s[1..]);
      var keep := if s[0].creationTime == s[1].creationTime then [] else [s[0]];
      assert DropTimeTies(s) == keep + tail;
      if i == 0 && keep == [s[0]] {
        assert DropTimeTies(s)[0] == s[0];
      } else {
        var i' := if i == 0 then 0 else i - 1;
        assert s[1..][i'].creationTime == s[i].creationTime;
        DropTimeTiesKeepsEveryTime(s[1..], i');
        var j :| 0 <= j < |tail| && tail[j].creationTime == s[i].creationTime;
        assert DropTimeTies(s)[|keep| + j] == tail[j];
      }
    } else {
      assert DropTimeTies(s)[0] == s[i];
    }
  }

  /** A record tied in creation time with its successor is dropped, as long
      as no equal record occurs elsewhere in the list. */
  lemma {:induction false} DropTimeTiesDropsTiedPredecessor(s: seq<Song>, i: int)
    requires 0 <= i < |s| - 1 && s[i].creationTime == s[i + 1].creationTime
    requires forall m :: 0 <= m < |s| && m != i ==> s[m] != s[i]
    ensures s[i] !in DropTimeTies(s)
    decreases |s|
  {
    var tail := DropTimeTies(s[1..]);
    DropTimeTiesIsSubsequence(s[1..]);
    SubsequenceMembers(tail, s[1..]);
    if i == 0 {
      assert DropTimeTies(s) == tail;
    } else {
      assert s[1..][i - 1] == s[i];
      DropTimeTiesDropsTiedPredecessor(s[1..], i - 1);
      assert s[0] != s[i];
    }
  }

  /** The last record, and every record whose successor has a different
      creation time, survives. */
  lemma {:induction false} DropTimeTiesKeepsLastOfEachTime(s: seq<Song>, i: int)
    requires 0 <= i < |s|
    requires i == |s| - 1 || s[i].creationTime != s[i + 1].creationTime
    ensures s[i] in DropTimeTies(s)
    decreases |s|
  {
    if |s| > 1 {
      var tail := DropTimeTies(s[1..]);
      var keep := if s[0].creationTime == s[1].creationTime then [] else [s[0]];
      assert DropTimeTies(s) == keep + tail;
      if i > 0 {
        assert s[1..][i - 1] == s[i];
        DropTimeTiesKeepsLastOfEachTime(s[1..], i - 1);
      }
    }
  }

  /** Records whose creation times already strictly increase pass through
      unchanged. */
  lemma {:induction false} DropTimeTiesOfIncreasingIsIdentity(s: seq<Song>)
    requires StrictlyIncreasingTimes(s)
    ensures DropTimeTies(s) == s
    decreases |s|
  {
    if |s| > 1 {
      DropTimeTiesOfIncreasingIsIdentity(s[1..]);
      assert s == [s[0]] + s[1..];
    }
  }
}
