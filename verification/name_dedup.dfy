/** The registry builder's name-deduplication loop: neighbouring records of
    the same song are merged, the strictly earlier one surviving. */
module NameDedup {
  import opened Songs

  /** The loop's work from the point where `kept` is the record currently
      held for its run and `rest` is still unscanned: a record of the same
      song merges into `kept` (the strictly earlier of the two stays, `kept`
      on a tie), and a record of another song settles `kept`. */
  function Collapse(kept: Song, rest: seq<Song>): (r: seq<Song>)
    ensures |r| > 0 && r[0].name == kept.name
    ensures |r| <= |rest| + 1
    decreases |rest|
  {
    if |rest| == 0 then [kept]
    else if SameSong(rest[0], kept) then
      Collapse(if Earlier(rest[0], kept) then rest[0] else kept, rest[1..])
    else
      [kept] + Collapse(rest[0], rest[1..])
  }

  /** What the loop leaves behind for a whole list. */
  function CollapseNames(s: seq<Song>): (r: seq<Song>)
    ensures |r| <= |s|
    ensures r == [] <==> s == []
    ensures |s| <= 1 ==> r == s
  {
    if |s| == 0 then [] else Collapse(s[0], s[1..])
  }

  /** After the merge no two neighbours share a name. */
  lemma {:induction false} CollapseSeparatesNames(kept: Song, rest: seq<Song>)
    ensures AdjacentNamesDistinct(Collapse(kept, rest))
    decreases |rest|
  {
    if rest == [] {
    } else if SameSong(rest[0], kept) {
      CollapseSeparatesNames(if Earlier(rest[0], kept) then rest[0] else kept, rest[1..]);
    } else {
      var tail := Collapse(rest[0], rest[1..]);
      CollapseSeparatesNames(rest[0], rest[1..]);
      var r := [kept] + tail;
      forall i | 0 < i < |r| ensures r[i - 1].name != r[i].name {
        assert r[i] == tail[i - 1];
        if i > 1 {
          assert r[i - 1] == tail[i - 2];
        }
      }
    }
  }

  /** `CollapseNames` leaves no two neighbours with the same name. */
  lemma CollapseNamesSeparatesNames(s: seq<Song>)
    ensures AdjacentNamesDistinct(CollapseNames(s))
  {
    if s != [] {
      CollapseSeparatesNames(s[0], s[1..]);
    }
  }

  /** What is left of the loop's work when record `i - 1` of `r` is the one
      held for its run and records from `i` on are unscanned. */
  function Pending(r: seq<Song>, i: int): seq<Song>
    requires 1 <= i <= |r|
  {
    r[..i - 1] + Collapse(r[i - 1], r[i..])
  }

  /** Deleting the held record `i - 1` when record `i` is a strictly earlier
      record of the same song leaves the pending work unchanged. */
  lemma DropHeldStep(r: seq<Song>, i: int)
    requires 1 <= i < |r| && SameSong(r[i], r[i - 1]) && Earlier(r[i], r[i - 1])
    ensures Pending(r[..i - 1] + r[i..], i) == Pending(r, i)
  {
    var r' := r[..i - 1] + r[i..];
    assert r[i..] == [r[i]] + r[i + 1..];
    assert r'[..i - 1] == r[..i - 1] && r'[i - 1] == r[i] && r'[i..] == r[i + 1..];
  }

  /** Deleting record `i` when it is a record of the held song made no
      earlier leaves the pending work unchanged. */
  lemma DropNextStep(r: seq<Song>, i: int)
    requires 1 <= i < |r| && SameSong(r[i], r[i - 1]) && !Earlier(r[i], r[i - 1])
    ensures Pending(r[..i] + r[i + 1..], i) == Pending(r, i)
  {
    var r' := r[..i] + r[i + 1..];
    assert r[i..] == [r[i]] + r[i + 1..];
    assert r'[..i - 1] == r[..i - 1] && r'[i - 1] == r[i - 1] && r'[i..] == r[i + 1..];
  }

  /** Moving past a change of name settles the held record and leaves the
      pending work unchanged. */
  lemma AdvanceStep(r: seq<Song>, i: int)
    requires 1 <= i < |r| && !SameSong(r[i], r[i - 1])
    ensures Pending(r, i + 1) == Pending(r, i)
  {
    var settled, kept, rest := r[..i - 1], r[i - 1], r[i + 1..];
    assert r[i..] == [r[i]] + rest;
    assert Collapse(kept, r[i..]) == [kept] + Collapse(r[i], rest);
    assert r[..i] == settled + [kept];
    AppendIsAssociative(settled, [kept], Collapse(r[i], rest));
  }

  /** With nothing left to scan, the pending work is the list itself. */
  lemma PendingAtEnd(r: seq<Song>)
    requires r != []
    ensures Pending(r, |r|) == r
  {
    assert r[|r|..] == [];
    assert r[..|r| - 1] + [r[|r| - 1]] == r;
  }

  /** The loop over `songs`: compare each record with its predecessor,
      delete the later-made one of a same-name pair, and advance only past a
      change of name. */
  method RemoveAdjacentNameDuplicates(songs: seq<Song>) returns (r: seq<Song>)
    ensures r == CollapseNames(songs)
    ensures Subsequence(r, songs)
    ensures AdjacentNamesDistinct(r)
  {
    r := songs;
    var i := 1;
    while i < |r|
      invariant 1 <= i
      invariant r == [] <==> songs == []
      invariant r != [] ==> i <= |r| && CollapseNames(songs) == Pending(r, i)
      decreases |r| - i
    {
      if SameSong(r[i], r[i - 1]) {
        if Earlier(r[i], r[i - 1]) {
          DropHeldStep(r, i);
          r := r[..i - 1] + r[i..];
        } else {
          DropNextStep(r, i);
          r := r[..i] + r[i + 1..];
        }
      } else {
        AdvanceStep(r, i);
        i := i + 1;
      }
    }
    if r != [] {
      PendingAtEnd(r);
    }
    CollapseNamesIsSubsequence(songs);
    CollapseNamesSeparatesNames(songs);
  }

  /** Putting one more record after the head of a list keeps every
      subsequence of the list a subsequence. */
  lemma SubsequenceWiden(a: seq<Song>, h: Song, y: Song, t: seq<Song>)
    requires Subsequence(a, [h] + t)
    ensures Subsequence(a, [h, y] + t)
  {
    assert ([h, y] + t)[1..] == [y] + t;
    assert ([h] + t)[1..] == t;
    assert ([y] + t)[1..] == t;
    if a != [] && !(a[0] == h && Subsequence(a[1..], t)) {
      assert Subsequence(a, t);
      assert Subsequence(a, [y] + t);
    } else if a != [] {
      assert Subsequence(a[1..], [y] + t);
    }
  }

  /** The loop only deletes records: what is left is a subsequence of the
      input with every field unchanged. */
  lemma {:induction false} CollapseIsSubsequence(kept: Song, rest: seq<Song>)
    ensures Subsequence(Collapse(kept, rest), [kept] + rest)
    decreases |rest|
  {
    var r := Collapse(kept, rest);
    if rest == [] {
    } else if SameSong(rest[0], kept) {
      assert rest == [rest[0]] + rest[1..];
      if Earlier(rest[0], kept) {
        CollapseIsSubsequence(rest[0], rest[1..]);
        assert ([kept] + rest)[1..] == rest;
      } else {
        CollapseIsSubsequence(kept, rest[1..]);
        SubsequenceWiden(r, kept, rest[0], rest[1..]);
        assert [kept, rest[0]] + rest[1..] == [kept] + rest;
      }
    } else {
      CollapseIsSubsequence(rest[0], rest[1..]);
      assert rest == [rest[0]] + rest[1..];
      assert r == [kept] + Collapse(rest[0], rest[1..]);
      assert ([kept] + rest)[1..] == rest;
    }
  }

  /** `CollapseNames` deletes records and changes none. */
  lemma CollapseNamesIsSubsequence(s: seq<Song>)
    ensures Subsequence(CollapseNames(s), s)
  {
    if s != [] {
      CollapseIsSubsequence(s[0], s[1..]);
      assert [s[0]] + s[1..] == s;
    }
  }

  /** A list whose neighbours already differ in name passes through the
      loop unchanged. */
  lemma {:induction false} CollapseOfDistinctIsIdentity(kept: Song, rest: seq<Song>)
    requires AdjacentNamesDistinct([kept] + rest)
    ensures Collapse(kept, rest) == [kept] + rest
    decreases |rest|
  {
    if rest != [] {
      assert ([kept] + rest)[0] == kept && ([kept] + rest)[1] == rest[0];
      assert AdjacentNamesDistinct([rest[0]] + rest[1..]) by {
        assert [rest[0]] + rest[1..] == rest;
        forall i | 0 < i < |rest| ensures rest[i - 1].name != rest[i].name {
          assert ([kept] + rest)[i] == rest[i - 1] && ([kept] + rest)[i + 1] == rest[i];
        }
      }
      CollapseOfDistinctIsIdentity(rest[0], rest[1..]);
      assert [rest[0]] + rest[1..] == rest;
    }
  }

  /** Whole-list form of the previous lemma. */
  lemma CollapseNamesOfDistinctIsIdentity(s: seq<Song>)
    requires AdjacentNamesDistinct(s)
    ensures CollapseNames(s) == s
  {
    if s != [] {
      assert [s[0]] + s[1..] == s;
      CollapseOfDistinctIsIdentity(s[0], s[1..]);
    }
  }

  // The independent description: one record per maximal same-name run,
  // namely the run's earliest record, the first one among equal times.

  /** Concatenation of a list of runs. */
  function Flatten(runs: seq<seq<Song>>): seq<Song>
  {
    if |runs| == 0 then [] else runs[0] + Flatten(runs[1..])
  }

  /** The maximal runs of neighbouring records that share a name, in order;
      `RunsSpellList`, `RunsAreUniform` and `RunsAreMaximal` state what
      makes them that. */
  function Runs(s: seq<Song>): (runs: seq<seq<Song>>)
    ensures forall i :: 0 <= i < |runs| ==> |runs[i]| > 0
    ensures s != [] ==> |runs| > 0 && runs[0][0] == s[0]
    decreases |s|
  {
    if |s| == 0 then []
    else
      var tail := Runs(s[1..]);
      if |tail| > 0 && SameSong(tail[0][0], s[0]) then
        [[s[0]] + tail[0]] + tail[1..]
      else
        [[s[0]]] + tail
  }

  /** Runs of a list with one more record in front: the record joins the
      first run when it shares that run's name and starts a run otherwise. */
  lemma RunsCons(x: Song, s: seq<Song>)
    ensures Runs([x] + s)
         == if s != [] && SameSong(s[0], x) then [[x] + Runs(s)[0]] + Runs(s)[1..]
            else [[x]] + Runs(s)
  {
    assert ([x] + s)[0] == x && ([x] + s)[1..] == s;
  }

  /** Together the runs spell out the list. */
  lemma {:induction false} RunsSpellList(s: seq<Song>)
    ensures Flatten(Runs(s)) == s
    decreases |s|
  {
    if s != [] {
      var x, rest := s[0], s[1..];
      var tail: seq<seq<Song>> := Runs(rest);
      RunsSpellList(rest);
      RunsCons(x, rest);
      assert s == [x] + rest;
      if rest != [] && SameSong(rest[0], x) {
        FlattenJoin(x, tail);
      } else {
        FlattenCons([x], tail);
      }
    }
  }

  /** Flattening after a record joins the first run. */
  lemma FlattenJoin(x: Song, runs: seq<seq<Song>>)
    requires runs != []
    ensures Flatten([[x] + runs[0]] + runs[1..]) == [x] + Flatten(runs)
  {
    var head, more := runs[0], runs[1..];
    FlattenCons([x] + head, more);
    assert Flatten(runs) == head + Flatten(more);
    AppendIsAssociative([x], head, Flatten(more));
  }

  /** Flattening a list of runs with one more run in front. */
  lemma FlattenCons(run: seq<Song>, runs: seq<seq<Song>>)
    ensures Flatten([run] + runs) == run + Flatten(runs)
  {
    assert ([run] + runs)[0] == run && ([run] + runs)[1..] == runs;
  }

  /** Each run holds records of a single song. */
  lemma {:induction false} RunsAreUniform(s: seq<Song>)
    ensures forall i, j :: 0 <= i < |Runs(s)| && 0 <= j < |Runs(s)[i]| ==> Runs(s)[i][j].name == Runs(s)[i][0].name
    decreases |s|
  {
    if s != [] {
      var x, rest := s[0], s[1..];
      var tail: seq<seq<Song>> := Runs(rest);
      RunsAreUniform(rest);
      RunsCons(x, rest);
      assert s == [x] + rest;
      var runs: seq<seq<Song>> := Runs(s);
      forall i, j | 0 <= i < |runs| && 0 <= j < |runs[i]| ensures runs[i][j].name == runs[i][0].name {
        if rest != [] && SameSong(rest[0], x) {
          if i > 0 {
            assert runs[i] == tail[i];
          } else if j > 0 {
            assert runs[0][j] == tail[0][j - 1];
          }
        } else if i > 0 {
          assert runs[i] == tail[i - 1];
        }
      }
    }
  }

  /** Neighbouring runs belong to different songs, so every run is maximal. */
  lemma {:induction false} RunsAreMaximal(s: seq<Song>)
    ensures forall i :: 0 < i < |Runs(s)| ==> Runs(s)[i - 1][0].name != Runs(s)[i][0].name
    decreases |s|
  {
    if s != [] {
      var x, rest := s[0], s[1..];
      var tail: seq<seq<Song>> := Runs(rest);
      RunsAreMaximal(rest);
      RunsCons(x, rest);
      assert s == [x] + rest;
      var runs: seq<seq<Song>> := Runs(s);
      forall i | 0 < i < |runs| ensures runs[i - 1][0].name != runs[i][0].name {
        if rest != [] && SameSong(rest[0], x) {
          assert runs[i] == tail[i] && runs[i - 1][0].name == tail[i - 1][0].name;
        } else {
          assert runs[i] == tail[i - 1];
          if i > 1 {
            assert runs[i - 1] == tail[i - 2];
          }
        }
      }
    }
  }

  /** Index of the earliest record of a run, the first one if several share
      the earliest creation time. */
  function FirstEarliest(run: seq<Song>): (j: nat)
    requires |run| > 0
    ensures j < |run|
    ensures forall m :: 0 <= m < |run| ==> run[j].creationTime <= run[m].creationTime
    ensures forall m :: 0 <= m < j ==> run[j].creationTime < run[m].creationTime
    decreases |run|
  {
    if |run| == 1 then 0
    else
      var j := FirstEarliest(run[1..]);
      if run[1 + j].creationTime < run[0].creationTime then 1 + j else 0
  }

  /** The record `FirstEarliest` picks. */
  function Earliest(run: seq<Song>): Song
    requires |run| > 0
  {
    run[FirstEarliest(run)]
  }

  /** The earliest record of each run, in run order. */
  function Representatives(runs: seq<seq<Song>>): seq<Song>
    requires forall i :: 0 <= i < |runs| ==> |runs[i]| > 0
  {
    if |runs| == 0 then [] else [Earliest(runs[0])] + Representatives(runs[1..])
  }

  /** Representatives of a list of runs with one more run in front. */
  lemma RepresentativesCons(run: seq<Song>, runs: seq<seq<Song>>)
    requires |run| > 0 && forall i :: 0 <= i < |runs| ==> |runs[i]| > 0
    ensures Representatives([run] + runs) == [Earliest(run)] + Representatives(runs)
  {
    assert ([run] + runs)[0] == run && ([run] + runs)[1..] == runs;
  }

  /** Earliest record of a run with one more record in front. */
  lemma EarliestCons(x: Song, run: seq<Song>)
    requires |run| > 0
    ensures Earliest([x] + run)
         == (if Earlier(Earliest(run), x) then Earliest(run) else x)
  {
    assert ([x] + run)[1..] == run;
  }

  /** Two records at the front of a run may be replaced by the one the loop
      keeps of them: the strictly earlier one, the first on a tie. */
  lemma EarliestMerge(kept: Song, r0: Song, run: seq<Song>)
    ensures Earliest([kept] + ([r0] + run))
         == Earliest([if Earlier(r0, kept) then r0 else kept] + run)
  {
    var next := if Earlier(r0, kept) then r0 else kept;
    EarliestCons(kept, [r0] + run);
    if run == [] {
      assert [r0] + run == [r0];
      assert [next] + run == [next];
    } else {
      EarliestCons(r0, run);
      EarliestCons(next, run);
    }
  }

  /** Merging a record of the held song: the pending work and the run
      description change alike. */
  lemma SameSongRepresentatives(kept: Song, r0: Song, rest: seq<Song>)
    requires SameSong(r0, kept)
    ensures var next := if Earlier(r0, kept) then r0 else kept;
            Representatives(Runs([kept] + ([r0] + rest))) == Representatives(Runs([next] + rest))
  {
    var next := if Earlier(r0, kept) then r0 else kept;
    var t := Runs(rest);
    var joins := rest != [] && SameSong(rest[0], r0);
    var x := if joins then t[0] else [];
    var y := if joins then t[1..] else t;
    RunsCons(r0, rest);
    RunsCons(next, rest);
    if !joins {
      assert [r0] + x == [r0] && [next] + x == [next];
    }
    assert Runs([r0] + rest) == [[r0] + x] + y;
    assert Runs([next] + rest) == [[next] + x] + y;
    RunsCons(kept, [r0] + rest);
    assert ([r0] + rest)[0] == r0;
    assert Runs([kept] + ([r0] + rest)) == [[kept] + ([r0] + x)] + y;
    RepresentativesCons([kept] + ([r0] + x), y);
    RepresentativesCons([next] + x, y);
    EarliestMerge(kept, r0, x);
  }

  /** The loop's reference agrees with the run description from any point
      of the scan. */
  lemma {:induction false} CollapseIsRepresentatives(kept: Song, rest: seq<Song>)
    ensures Collapse(kept, rest) == Representatives(Runs([kept] + rest))
    decreases |rest|
  {
    if rest == [] {
      assert [kept] + rest == [kept];
    } else {
      var r0, more := rest[0], rest[1..];
      assert rest == [r0] + more;
      if !SameSong(r0, kept) {
        CollapseIsRepresentatives(r0, more);
        RunsCons(kept, rest);
        RepresentativesCons([kept], Runs(rest));
      } else {
        var next := if Earlier(r0, kept) then r0 else kept;
        CollapseIsRepresentatives(next, more);
        SameSongRepresentatives(kept, r0, more);
      }
    }
  }

  /** The name-deduplication loop keeps, of every maximal run of neighbouring
      records that share a name, exactly the run's earliest record (the
      first one among equal creation times), and nothing else. */
  lemma NameDedupKeepsEarliestOfEachRun(s: seq<Song>)
    ensures CollapseNames(s) == Representatives(Runs(s))
    ensures |CollapseNames(s)| == |Runs(s)|
    ensures forall i :: 0 <= i < |Runs(s)| ==>
              CollapseNames(s)[i] == Runs(s)[i][FirstEarliest(Runs(s)[i])]
  {
    if s != [] {
      CollapseIsRepresentatives(s[0], s[1..]);
      assert [s[0]] + s[1..] == s;
    }
    RepresentativesIndexed(Runs(s));
  }

  /** Representatives listed by index. */
  lemma {:induction false} RepresentativesIndexed(runs: seq<seq<Song>>)
    requires forall i :: 0 <= i < |runs| ==> |runs[i]| > 0
    ensures |Representatives(runs)| == |runs|
    ensures forall i :: 0 <= i < |runs| ==> Representatives(runs)[i] == Earliest(runs[i])
    decreases |runs|
  {
    if runs != [] {
      RepresentativesIndexed(runs[1..]);
    }
  }
}
