# music-analysis in Dafny

This project models the pure core of the music-analysis scripts in Dafny.
The scripts compile a registry of songs made by one composer and plot how much music was made over time.
Two pieces of logic are modelled as the scripts compute them, and the model proves what they actually do.
For both, that falls short of what the code evidently intends: names can repeat in the registry, and the latest songs can drop out of the histogram (see "## Findings").
For each, a corrected variant (`Registry.RegistryNameSorted`, `Histogram.CreateHistogramCovering`) is modelled alongside and proved to meet the intent.

- **The song registry** (`SongCompiler.get_all_songs` and the `Song` record).
  The songs found in audio files and the songs found through browser bookmarks are concatenated.
  Neighbouring records with the same name are merged, keeping the earlier-made one.
  The list is then stably sorted by creation time.
  Finally a record is dropped whenever the next record has the same creation time.
  `Song` equality compares names only, and `Song` ordering compares creation times only.
  The audio-file test on paths is modelled as well.
- **The throughput histogram** (`MusicThroughput`).
  The songs are sorted by creation time.
  They are cut into `ceil((latest - earliest) / width)` half-open bins `[t0 + i*width, t0 + (i+1)*width)` starting at the earliest song.
  Each bin gets the songs made in it, and its throughput is the sum of their lengths.

Modules, one file each:

| file | module | contents |
|---|---|---|
| wrappers.dfy | `Wrappers` | `Result` for operations that fail |
| songs.dfy | `Songs` | the `Song` datatype, its equality and ordering, total length, subsequences |
| sorting.dfy | `Sorting` | stable insertion sort by creation time or by name, with permutation, sortedness and stability |
| name_dedup.dfy | `NameDedup` | the name-merge loop and its reference definition (runs of equal names) |
| time_dedup.dfy | `TimeDedup` | the timestamp-merge loop and its reference definition |
| registry.dfy | `Registry` | the audio-file test, the registry pipeline, and the registry with the intended name sort |
| throughput.dfy | `Throughput` | a bin, the bin-membership test and the interval filter |
| histogram.dfy | `Histogram` | bin counts, bins, the histogram and its corrected form |
| histogram_properties.dfy | `HistogramProperties` | what the histogram promises, stated of the bins it returns |

Modelling choices:

- Creation times and the bin width are whole seconds (`int`).
  The width is given in seconds rather than in days.
  Song lengths are `real`.
- The Python code fails on some inputs:
  - `songs[0]` raises on an empty list;
  - division by a zero width raises.
  The model returns `Failure(NoSongs)` and `Failure(ZeroBinSize)` for these.
  A negative width gives an empty histogram, as in the Python code: a non-positive count makes `[None] * n` empty.
- The two `while` loops that delete list elements in place are methods on sequences.
  Each is proved equal to a recursive reference definition.
  The in-place sort is a function returning the sorted sequence.

## Model

| member | source | states |
|---|---|---|
| Songs.ComparisonsReadOneField | compile.py:93-103 | equality of songs depends on the name alone, and `<` depends on the creation time alone |
| Songs.EarlierIsStrictWeakOrder | compile.py:99-103 | `<` on songs is a strict weak order whose incomparable pairs are exactly the equal creation times, so two records of one song can still be ordered |
| Registry.AudioFileIffSupportedSuffix | compile.py:112-113 | a path is an audio file exactly when some suffix of it is one of the supported extensions |
| Registry.AudioFileOfStem | compile.py:24 | any stem followed by ".wav" or ".mp3" is accepted, while upper-case extensions are not |
| Registry.Registry | compile.py:217-249 | the registry has strictly increasing creation times, holds only input records and is no longer than the input; an input of at most one record comes back unchanged |
| Registry.GetAllSongs | compile.py:221-249 | the loop-by-loop pipeline computes the registry, and its creation times strictly increase |
| Registry.RegistryKeepsEveryMergedTime | compile.py:238-247 | every creation time present after the name merge is still present in the registry |
| Registry.FirstCompilationKeepsBothCopies | compile.py:224-236 | file songs A@1 and B@5 with bookmarked song A@2 give a registry that keeps both copies of A |
| Registry.SecondCompilationMergesThem | compile.py:217-249 | compiling that registry again merges the two copies of A |
| Registry.RegistryKeepsSeparatedDuplicates | compile.py:224-236 | as written, the registry can hold one name twice and is not a fixed point of recompiling |
| Registry.MergeAfterNameSortHasUniqueNames | compile.py:224-236 | after a stable sort by name, the name merge leaves every name at most once |
| Registry.MergeAfterNameSortKeepsInputRecords | compile.py:224-236 | after a sort by name, the name merge keeps only input records |
| Registry.TimeStagesKeepNamesUnique | compile.py:238-247 | the time sort and timestamp merge keep names unique, make times strictly increasing and keep only records of their input |
| Registry.RegistryNameSorted | compile.py:217-249 | the registry with the name sort applied has unique names, strictly increasing creation times and only input records |
| Registry.RegistryNameSortedIsIdempotent | compile.py:217-249 | recompiling the name-sorted registry with nothing new gives it back unchanged |
| NameDedup.CollapseNames | compile.py:227-236 | the name merge is never longer than its input, is empty exactly when the input is, and leaves a list of at most one record alone |
| NameDedup.RemoveAdjacentNameDuplicates | compile.py:228-236 | the deleting loop computes the reference name merge, deletes only, and leaves no two neighbours with one name |
| NameDedup.CollapseNamesSeparatesNames | compile.py:229-236 | after the name merge no two neighbouring records share a name |
| NameDedup.CollapseNamesIsSubsequence | compile.py:229-236 | the name merge only deletes records and changes no field |
| NameDedup.CollapseNamesOfDistinctIsIdentity | compile.py:229-236 | a list whose neighbours already have distinct names passes through unchanged |
| NameDedup.RunsSpellList | compile.py:229-236 | the maximal runs of equal names, joined, give back the list |
| NameDedup.RunsAreUniform | compile.py:229-236 | every record of a run has the run's name |
| NameDedup.RunsAreMaximal | compile.py:229-236 | neighbouring runs have different names |
| NameDedup.FirstEarliest | compile.py:231-234 | picks the first record of a run whose creation time is minimal |
| NameDedup.NameDedupKeepsEarliestOfEachRun | compile.py:230-234 | the name merge keeps one record per run of equal names: the earliest-made, and the earlier-placed one on a tie |
| TimeDedup.RemoveEqualTimePredecessors | compile.py:242-247 | the deleting loop computes the reference timestamp merge, deletes only, and gives strictly increasing times on time-sorted input |
| TimeDedup.DropTimeTiesIsSubsequence | compile.py:242-247 | the timestamp merge only deletes records |
| TimeDedup.DropTimeTiesOfSortedIncreases | compile.py:238-247 | after the time sort, the timestamp merge leaves strictly increasing creation times |
| TimeDedup.DropTimeTiesKeepsEveryTime | compile.py:242-247 | every creation time of the input is still present after the timestamp merge |
| TimeDedup.DropTimeTiesDropsTiedPredecessor | compile.py:244-245 | a record followed by one with the same creation time is dropped |
| TimeDedup.DropTimeTiesKeepsLastOfEachTime | compile.py:243-247 | the last record of each run of equal creation times survives |
| TimeDedup.DropTimeTiesOfIncreasingIsIdentity | compile.py:242-247 | a list with strictly increasing times passes through unchanged |
| Sorting.LexLessTotal | compile.py:225 | any two different names are ordered one way or the other by code-point comparison |
| Sorting.LexLessTransitive | compile.py:225 | the code-point comparison of names is transitive |
| Sorting.KeyOrder | compile.py:225 | ordering by name and ordering by creation time are both strict weak orders whose ties are exactly equal keys |
| Sorting.SortByPermutes | compile.py:238 | the sort returns a reordering of its input |
| Sorting.SortByIsSorted | compile.py:238 | the sort returns a list in key order |
| Sorting.SortIsStable | compile.py:238 | records with equal keys keep their input order |
| Sorting.SortOfSortedIsIdentity | compile.py:238 | a list already in key order is left unchanged |
| Sorting.SortedPermutationIsUnique | compile.py:238 | the only time-sorted reordering of a list with strictly increasing times is that list |
| Sorting.SortedDistinctNamesAreUnique | compile.py:224-236 | in a list sorted by name, distinct neighbouring names mean no name occurs twice |
| Throughput.NewBin | process.py:8-16 | the constructor's summing loop gives the total length of the bin's songs, zero for no songs |
| Throughput.MadeBetweenSplits | process.py:18-23 | cutting a half-open interval puts each song in exactly one half |
| Throughput.SongsMadeBetweenMembers | process.py:42-43 | the filter keeps exactly the songs made in the interval, in input order |
| Throughput.SongsMadeBetweenSplit | process.py:42-43 | splitting an interval splits the total length of its songs |
| Throughput.SongsMadeBetweenOfReordering | process.py:29-43 | the songs of an interval weigh the same whatever the order of the list |
| Throughput.NoSongsInEmptyInterval | process.py:18-23 | no song is made in an empty interval |
| Histogram.NumBinsIsCeiling | process.py:34 | the bin count is the ceiling of span over width, or zero when that is not positive |
| Histogram.NumBinsBounds | process.py:34-36 | for a positive width the count is the fewest bins whose total width reaches the span, zero only for an empty span; a negative width gives no bins |
| Histogram.StepsToReachExact | process.py:34 | the bins end exactly at the span precisely when the width divides it |
| Histogram.CoveringCountIsFloorPlusOne | process.py:34 | the corrected count is the floor of span over width plus one, the fewest bins that go past the span |
| Histogram.CoveringCountVersusSource | process.py:34 | the corrected count equals the Python code's count, except when the width divides the span, where it is one more |
| Histogram.CreateHistogram | process.py:26-47 | the histogram fails with no songs exactly when the input is empty and with a zero width exactly when that is the only fault |
| Histogram.CreateHistogramCovering | process.py:26-47 | the corrected histogram fails on exactly the same inputs |
| Histogram.BinsTiled | process.py:36-40 | bins start at `t0`, are each one width wide and follow each other without gap or overlap |
| Histogram.BinHoldsSong | process.py:38-43 | a song is in bin `i` exactly when `i` is its offset from `t0` divided by the width |
| Histogram.BinsAssignByIndex | process.py:37-45 | a song lies in the bin its offset selects, and in no other |
| Histogram.BinsConserveLength | process.py:36-45 | the bins' throughputs add up to the length of the songs made before the end of the last bin |
| Histogram.EarliestTimeIsMinimum | process.py:32 | the earliest time is at most every creation time and is one of them |
| Histogram.LatestTimeIsMaximum | process.py:33 | the latest time is at least every creation time and is one of them |
| Histogram.SortedFirstIsEarliest | process.py:29-32 | after the sort, the first song has the earliest creation time |
| Histogram.SortedLastIsLatest | process.py:29-33 | after the sort, the last song has the latest creation time |
| HistogramProperties.HistogramIsBins | process.py:26-47 | a histogram is the bins over the time-sorted songs from the earliest time, with the ceiling count |
| HistogramProperties.HistogramOfNegativeWidthIsEmpty | process.py:34-36 | a negative width gives an empty histogram, not an error |
| HistogramProperties.HistogramBinCount | process.py:34-36 | the histogram has the fewest bins covering the span, none when all songs share one time |
| HistogramProperties.HistogramBinBounds | process.py:37-40 | the histogram's bins tile time from the earliest creation time |
| HistogramProperties.HistogramBinContents | process.py:42-45 | each bin holds exactly the input songs made in its interval, each as many times as the input lists it, in time order, and its throughput is their length |
| HistogramProperties.HistogramAssignsByIndex | process.py:37-45 | each song is in the bin its offset selects and no other; it is binned exactly when made before the last bin ends |
| HistogramProperties.HistogramConservesLength | process.py:36-47 | the bins' throughputs add up to the length of the songs made before the last bin ends |
| HistogramProperties.HistogramKeepsEverySongIff | process.py:32-45 | every song is binned exactly when the width does not divide the span |
| HistogramProperties.SingleSongIsLost | process.py:32-36 | a single song gives an empty histogram |
| HistogramProperties.CoveringBinsEverySong | process.py:34-45 | with the corrected count every song lies in exactly one bin, the one its offset selects |
| HistogramProperties.CoveringConservesLength | process.py:34-45 | with the corrected count the bins' throughputs add up to the length of all the songs |
| HistogramProperties.CoveringExtendsSource | process.py:34 | the correction leaves the histogram alone unless the width divides the span; then it appends one bin |

## Left out

- Reading songs from audio files: the directory listing, mutagen metadata and file times. This is file-system I/O, so the registry takes the two song lists as parameters.
- Scraping bookmarked songs with BeautifulSoup and Selenium. This is network and browser I/O.
- `SongFile` and its path-based equality through `samefile`. It depends on the file system.
- `save_songs_json` and all of main.py: JSON, command-line parsing, the clock-dependent filter and plotting.
- `datetime.fromtimestamp`: bin bounds and the membership test compare Unix seconds directly. Local-time conversion is not monotonic across daylight-saving changes, and that is not modelled.
- Floating-point rounding of times, lengths and sums. Times and widths are whole seconds, lengths are exact reals, and the width is given in seconds rather than as a fraction of days.
- Comparisons of a `Song` with objects lacking `name` or `creation_time` (`NotImplemented`): Dafny's types rule them out.
- Histogram.CreateHistogram: the in-place `songs.sort()` also reorders the caller's list; the model returns the bins only.
- The declared return type of `create_histogram` (a tuple) disagrees with the list it returns; the model returns the list.

## Findings

| source | as written | input that shows it | evidently intended | confidence | as-written member | corrected member |
|---|---|---|---|---|---|---|
| compile.py:225 | the name sort's result is discarded, so the name merge only sees records that happen to be neighbours | file songs A@1 and B@5 plus bookmarked song A@2 give a registry with A twice; recompiling it drops one | sort by name before merging, so that every song appears once and recompiling changes nothing | high, not executed | Registry.RegistryKeepsSeparatedDuplicates | Registry.RegistryNameSortedIsIdempotent |
| process.py:34 | `ceil(span / width)` half-open bins end exactly at the latest song when the width divides the span, so the latest songs fall outside every bin | a single song gives no bins; songs at seconds 0 and 10 with width 5 give two bins, and the song at 10 is in neither | `floor(span / width) + 1` bins, so that every song lands in one bin | medium, not executed | HistogramProperties.HistogramKeepsEverySongIff | HistogramProperties.CoveringConservesLength |
