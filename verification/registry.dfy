/** The registry builder: the audio-file test used when scanning folders
    and the pure part of compiling all songs into one registry. */
module Registry {
  import opened Songs
  import opened Sorting
  import opened NameDedup
  import opened TimeDedup

  /** File extensions the scanner accepts, compared case-sensitively. */
  const SupportedAudioExtensions: seq<string> := [".wav", ".mp3"]

  /** `s` ends with `suffix`. */
  predicate EndsWith(s: string, suffix: string) {
    |suffix| <= |s| && s[|s| - |suffix|..] == suffix
  }

  /** The scanner's test for an audio file path: it ends with one of the
      supported extensions. */
  predicate IsAudioFile(path: string) {
    exists ext :: ext in SupportedAudioExtensions && EndsWith(path, ext)
  }

  /** A path is an audio file exactly when one of its suffixes is a
      supported extension. */
  lemma AudioFileIffSupportedSuffix(path: string)
    ensures IsAudioFile(path) <==>
            exists i :: 0 <= i <= |path| && path[i..] in SupportedAudioExtensions
  {
    if IsAudioFile(path) {
      assert path[|path| - 4..] in SupportedAudioExtensions;
    }
    if exists i :: 0 <= i <= |path| && path[i..] in SupportedAudioExtensions {
      var i :| 0 <= i <= |path| && path[i..] in SupportedAudioExtensions;
      assert |path[i..]| == 4;
      assert i == |path| - 4;
    }
  }

  /** Any stem followed by a supported extension is an audio file, and the
      test is case-sensitive. */
  lemma AudioFileOfStem(stem: string, ext: string)
    requires ext in SupportedAudioExtensions
    ensures IsAudioFile(stem + ext)
    ensures !IsAudioFile(stem + ".WAV") && !IsAudioFile(stem + ".MP3")
  {
    assert (stem + ext)[|stem + ext| - 4..] == ext;
    var upper := stem + ".WAV";
    assert upper[|upper| - 4..] == ".WAV";
    var upperMp3 := stem + ".MP3";
    assert upperMp3[|upperMp3| - 4..] == ".MP3";
  }

  /** The registry compiled from the songs found in files and the songs
      found through bookmarks, as the Python code builds it: concatenate, merge
      neighbouring records of the same song, sort stably by creation time,
      then drop records tied in creation time with their successor. */
  function Registry(fileSongs: seq<Song>, bookmarkSongs: seq<Song>): (r: seq<Song>)
    ensures StrictlyIncreasingTimes(r)
    ensures forall x :: x in r ==> x in fileSongs + bookmarkSongs
    ensures |r| <= |fileSongs| + |bookmarkSongs|
    ensures |fileSongs + bookmarkSongs| <= 1 ==> r == fileSongs + bookmarkSongs
  {
    var all := fileSongs + bookmarkSongs;
    var named := CollapseNames(all);
    var sorted := SortBy(ByTime, named);
    SortByIsSorted(ByTime, named);
    SortByPermutes(ByTime, named);
    DropTimeTiesOfSortedIncreases(sorted);
    DropTimeTiesIsSubsequence(sorted);
    SubsequenceMembers(DropTimeTies(sorted), sorted);
    CollapseNamesIsSubsequence(all);
    SubsequenceMembers(named, all);
    assert forall x :: x in sorted ==> x in multiset(named);
    DropTimeTies(sorted)
  }

  /** The Python code's loop-by-loop computation of the registry. */
  method GetAllSongs(fileSongs: seq<Song>, bookmarkSongs: seq<Song>) returns (r: seq<Song>)
    ensures r == Registry(fileSongs, bookmarkSongs)
    ensures StrictlyIncreasingTimes(r)
  {
    var songs := fileSongs + bookmarkSongs;
    songs := RemoveAdjacentNameDuplicates(songs);
    songs := SortBy(ByTime, songs);
    r := RemoveEqualTimePredecessors(songs);
  }

  /** Every creation time that survives the name merge survives into the
      registry; only records sharing a creation time are dropped. */
  lemma RegistryKeepsEveryMergedTime(fileSongs: seq<Song>, bookmarkSongs: seq<Song>, x: Song)
    requires x in CollapseNames(fileSongs + bookmarkSongs)
    ensures exists y :: y in Registry(fileSongs, bookmarkSongs) && y.creationTime == x.creationTime
  {
    var sorted := SortBy(ByTime, CollapseNames(fileSongs + bookmarkSongs));
    SortByPermutes(ByTime, CollapseNames(fileSongs + bookmarkSongs));
    assert x in multiset(sorted);
    var i :| 0 <= i < |sorted| && sorted[i] == x;
    DropTimeTiesKeepsEveryTime(sorted, i);
    var j :| 0 <= j < |DropTimeTies(sorted)| && DropTimeTies(sorted)[j].creationTime == x.creationTime;
    assert DropTimeTies(sorted)[j] in Registry(fileSongs, bookmarkSongs);
  }

  // The name sort at the start of the Python code's pipeline is computed and
  // thrown away, so only neighbouring copies of a song are merged.

  /** Song "A" made at second 1. */
  const FirstA := Song("A", 60.0, 1)
  /** Song "B" made at second 5. */
  const OnlyB := Song("B", 90.0, 5)
  /** A second copy of song "A", made at second 2. */
  const CopyA := Song("A", 30.0, 2)

  /** Merging names in the first compilation changes nothing. */
  lemma FirstMerge()
    ensures CollapseNames([FirstA, OnlyB, CopyA]) == [FirstA, OnlyB, CopyA]
  {
    assert [FirstA, OnlyB, CopyA][1..] == [OnlyB, CopyA];
    assert [OnlyB, CopyA][1..] == [CopyA];
    assert Collapse(OnlyB, [CopyA]) == [OnlyB, CopyA];
  }

  /** Sorting in the first compilation moves the copy forward. */
  lemma FirstSort()
    ensures SortBy(ByTime, [FirstA, OnlyB, CopyA]) == [FirstA, CopyA, OnlyB]
  {
    assert [FirstA, OnlyB, CopyA][1..] == [OnlyB, CopyA];
    assert [OnlyB, CopyA][1..] == [CopyA];
    assert SortBy(ByTime, [CopyA]) == [CopyA];
    assert Insert(ByTime, OnlyB, [CopyA]) == [CopyA, OnlyB];
    assert Insert(ByTime, FirstA, [CopyA, OnlyB]) == [FirstA, CopyA, OnlyB];
  }

  /** The three records have distinct creation times. */
  lemma FirstDrop()
    ensures DropTimeTies([FirstA, CopyA, OnlyB]) == [FirstA, CopyA, OnlyB]
  {
    assert [FirstA, CopyA, OnlyB][1..] == [CopyA, OnlyB];
    assert [CopyA, OnlyB][1..] == [OnlyB];
    assert DropTimeTies([CopyA, OnlyB]) == [CopyA] + [OnlyB];
    assert DropTimeTies([FirstA, CopyA, OnlyB]) == [FirstA] + [CopyA, OnlyB];
  }

  /** The first compilation keeps both copies of "A". */
  lemma FirstCompilationKeepsBothCopies()
    ensures Registry([FirstA, OnlyB], [CopyA]) == [FirstA, CopyA, OnlyB]
  {
    assert [FirstA, OnlyB] + [CopyA] == [FirstA, OnlyB, CopyA];
    FirstMerge();
    FirstSort();
    FirstDrop();
  }

  /** Compiling that registry again merges the two copies. */
  lemma SecondCompilationMergesThem()
    ensures Registry([FirstA, CopyA, OnlyB], []) == [FirstA, OnlyB]
  {
    var r := [FirstA, CopyA, OnlyB];
    assert r + [] == r;
    assert r[1..] == [CopyA, OnlyB] && [CopyA, OnlyB][1..] == [OnlyB];
    assert CollapseNames(r) == [FirstA, OnlyB] by {
      assert Collapse(FirstA, [OnlyB]) == [FirstA, OnlyB];
      assert Collapse(FirstA, [CopyA, OnlyB]) == Collapse(FirstA, [OnlyB]);
    }
    assert SortBy(ByTime, [FirstA, OnlyB]) == [FirstA, OnlyB] by {
      assert [FirstA, OnlyB][1..] == [OnlyB] && [OnlyB][1..] == [];
      assert SortBy(ByTime, [OnlyB]) == [OnlyB];
      assert Insert(ByTime, FirstA, [OnlyB]) == [FirstA, OnlyB];
    }
    assert [FirstA, OnlyB][1..] == [OnlyB];
    assert DropTimeTies([FirstA, OnlyB]) == [FirstA, OnlyB];
  }

  /** Two copies of song "A" separated by song "B" both reach the registry,
      and compiling that registry again merges them: the pipeline as
      written neither makes names unique nor reaches a fixed point. */
  lemma RegistryKeepsSeparatedDuplicates()
    ensures var r := Registry([FirstA, OnlyB], [CopyA]);
            !NamesUnique(r) && Registry(r, []) != r
  {
    FirstCompilationKeepsBothCopies();
    SecondCompilationMergesThem();
    var r := [FirstA, CopyA, OnlyB];
    assert r[0].name == r[1].name;
    assert |Registry(r, [])| == 2;
  }

  /** After a stable sort by name, the name merge leaves no name twice. */
  lemma MergeAfterNameSortHasUniqueNames(all: seq<Song>)
    ensures NamesUnique(CollapseNames(SortBy(ByName, all)))
  {
    var byName := SortBy(ByName, all);
    var named := CollapseNames(byName);
    SortByIsSorted(ByName, all);
    CollapseNamesIsSubsequence(byName);
    CollapseNamesSeparatesNames(byName);
    SubsequenceKeepsSorted(ByName, named, byName);
    SortedDistinctNamesAreUnique(named);
  }

  /** Records in the name-sorted merge come from the input. */
  lemma MergeAfterNameSortKeepsInputRecords(all: seq<Song>)
    ensures forall x :: x in CollapseNames(SortBy(ByName, all)) ==> x in all
  {
    var byName := SortBy(ByName, all);
    SortByPermutes(ByName, all);
    CollapseNamesIsSubsequence(byName);
    SubsequenceMembers(CollapseNames(byName), byName);
    assert forall x :: x in byName ==> x in multiset(all);
  }

  /** The time sort and timestamp merge of a list with unique names keep
      the names unique, make times strictly increasing and only keep
      records of the list. */
  lemma TimeStagesKeepNamesUnique(named: seq<Song>)
    requires NamesUnique(named)
    ensures NamesUnique(DropTimeTies(SortBy(ByTime, named)))
    ensures StrictlyIncreasingTimes(DropTimeTies(SortBy(ByTime, named)))
    ensures forall x :: x in DropTimeTies(SortBy(ByTime, named)) ==> x in named
  {
    var sorted := SortBy(ByTime, named);
    SortByPermutes(ByTime, named);
    PermutationKeepsNamesUnique(named, sorted);
    DropTimeTiesIsSubsequence(sorted);
    SubsequenceKeepsNamesUnique(DropTimeTies(sorted), sorted);
    SortByIsSorted(ByTime, named);
    DropTimeTiesOfSortedIncreases(sorted);
    SubsequenceMembers(DropTimeTies(sorted), sorted);
    assert forall x :: x in sorted ==> x in multiset(named);
  }

  /** The registry with the name sort applied, as the Python code's comment
      intends: every copy of a song is next to the others when the name
      merge runs. */
  function RegistryNameSorted(fileSongs: seq<Song>, bookmarkSongs: seq<Song>): (r: seq<Song>)
    ensures NamesUnique(r)
    ensures StrictlyIncreasingTimes(r)
    ensures forall x :: x in r ==> x in fileSongs + bookmarkSongs
  {
    var all := fileSongs + bookmarkSongs;
    var named := CollapseNames(SortBy(ByName, all));
    MergeAfterNameSortHasUniqueNames(all);
    MergeAfterNameSortKeepsInputRecords(all);
    TimeStagesKeepNamesUnique(named);
    var sorted := SortBy(ByTime, named);
    DropTimeTies(sorted)
  }

  /** Compiling the name-sorted registry again, with nothing new added,
      gives it back unchanged. */
  lemma RegistryNameSortedIsIdempotent(fileSongs: seq<Song>, bookmarkSongs: seq<Song>)
    ensures var r := RegistryNameSorted(fileSongs, bookmarkSongs);
            RegistryNameSorted(r, []) == r
  {
    var r := RegistryNameSorted(fileSongs, bookmarkSongs);
    assert r + [] == r;
    var byName := SortBy(ByName, r);
    SortByPermutes(ByName, r);
    PermutationKeepsNamesUnique(r, byName);
    assert AdjacentNamesDistinct(byName);
    CollapseNamesOfDistinctIsIdentity(byName);
    var sorted := SortBy(ByTime, byName);
    SortByIsSorted(ByTime, byName);
    SortByPermutes(ByTime, byName);
    SortedPermutationIsUnique(sorted, r);
    DropTimeTiesOfIncreasingIsIdentity(r);
  }
}
