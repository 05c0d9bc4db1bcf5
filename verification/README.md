# Multi-threaded file processor: a Dafny model of the data path

The Java program reads every valid `.txt`, `.csv` and `.json` file of an input
directory. It cuts each file into chunks of at most `chunkSize` lines, each with
a unique id and a 1-based line range. It hands one `DataProcessor` worker per
chunk to a thread pool. Each worker turns every non-blank line into a
`ProcessedData` record. The record's id is `file:lineNumber:hexHash` and its
content is the transformed line (by default: trim, then prefix
`[file:lineNumber] `). The pipeline waits on the workers in submission order
and merges every batch into a `ResultAggregator`. That aggregator can drop
records with repeated ids and sort by id. `DuplicateRemover` and `DataSorter`
offer the same two steps with a choice of key or order.

This project models that path as pure functions over immutable values, one
module per Java class:

| module | file | models |
|---|---|---|
| `Wrappers` | `wrappers.dfy` | `Option` and `Result` (a thrown exception is a `Failure`) |
| `JavaStrings` | `java_strings.dfy` | the JDK string operations the program relies on: `trim`, `isEmpty`, `%d`, `Integer.toHexString`, `String.hashCode`, `String.compareTo` |
| `Chunks` | `chunk.dfy` | `Chunk` |
| `Stats` | `stats.dfy` | `ProcessingStats` |
| `Records` | `processed_data.dfy` | `ProcessedData`: equality, hash code and ordering by id |
| `Transformations` | `transformation.dfy` | `Transformation` and its combinators |
| `FileReader` | `file_reader.dfy` | `readFiles`, `processFile`, `createChunk`, `validateFormat` and the CSV and JSON checks |
| `DataProcessor` | `data_processor.dfy` | `call`, `processChunk`, `generateDataId`, `validateResults` |
| `DuplicateRemover` | `duplicate_remover.dfy` | the three removal strategies |
| `DataSorter` | `data_sorter.dfy` | the five sort strategies and sorting with any comparator |
| `ResultAggregator` | `result_aggregator.dfy` | merging, deduplication by id, sorting, final results, statistics |
| `Pipeline` | `pipeline.dfy` | `ProcessingPipeline.processChunks` |

The model makes these environment-dependent inputs explicit:

- **Clocks.** `System.currentTimeMillis()` is a function parameter. For chunk
  ids, `clock(n)` is the time read when the chunk counter reaches `n`. For
  records, `clock(k)` is the time the `k`-th record of a chunk is stamped with.
  In the pipeline, `clocks(c)` is the clock worker `c` reads.
- **Throwing transformations.** A transformation that throws returns `None`.
- **Future waits.** What `future.get` yields (a batch, the worker's failure, a
  timeout or an interrupt) is decided by the executor. `ProcessChunks`
  therefore takes the sequence of these outcomes as its input.
- **Sequential workers.** The workers are run one after another on the shared
  counters.

Sorting is a stable insertion sort on sequences. Java's `List.sort` is also
stable. The model proves the insertion sort's output sorted, a permutation of
the input, stable, and unchanged by sorting again. It also proves that these
properties leave only one possible output (`DataSorter.StableSortUnique`), so
any stable sort by the same comparator, `List.sort` included, returns the same
list.

## Model

All source paths are under `multi-threaded-file-processor/src/com/fileprocessor/`
and are written out in full in the table.

| member | source | states |
|---|---|---|
| JavaStrings.TrimSpec | multi-threaded-file-processor/src/com/fileprocessor/dataprocessor/Transformation.java:14 | `trim` yields the contiguous slice of the line left after removing every leading and every trailing character at or below space. The result starts and ends with a character above space. It is empty exactly when every character is at or below space. |
| JavaStrings.IsBlankIffTrimEmpty | multi-threaded-file-processor/src/com/fileprocessor/dataprocessor/DataProcessor.java:53 | `line.trim().isEmpty()` holds exactly when every character of the line is at or below space. |
| JavaStrings.TrimIdempotent | multi-threaded-file-processor/src/com/fileprocessor/dataprocessor/Transformation.java:14 | Trimming an already trimmed line changes nothing. |
| JavaStrings.IntToStringRoundTrip | multi-threaded-file-processor/src/com/fileprocessor/filereader/FileReader.java:115-116 | The `%d` rendering of any integer, negative ones included, parses back to that integer. |
| JavaStrings.IntToStringInjective | multi-threaded-file-processor/src/com/fileprocessor/dataprocessor/DataProcessor.java:85 | Different integers render as different `%d` strings. |
| JavaStrings.FromBaseToBase | multi-threaded-file-processor/src/com/fileprocessor/dataprocessor/DataProcessor.java:84 | The digits of a natural number in any base from 2 to 16 read back to that number. |
| JavaStrings.ToHexStringRoundTrip | multi-threaded-file-processor/src/com/fileprocessor/dataprocessor/DataProcessor.java:84 | `Integer.toHexString` of a 32-bit hash is non-empty, uses only hex digits, and reads back in base 16 to the unsigned hash value. |
| JavaStrings.StringHash | multi-threaded-file-processor/src/com/fileprocessor/dataprocessor/DataProcessor.java:84 | `String.hashCode` is a 32-bit value, seen unsigned. |
| JavaStrings.StringHashIsPolynomial | multi-threaded-file-processor/src/com/fileprocessor/dataprocessor/DataProcessor.java:84 | The incremental `h = 31*h + c` hash with 32-bit wrap-around equals the sum of `s[i]*31^(n-1-i)` reduced mod 2^32, which is Java's documented definition. |
| JavaStrings.CompareStringsAntisymmetric | multi-threaded-file-processor/src/com/fileprocessor/model/ProcessedData.java:31-33 | `a.compareTo(b)` is the negation of `b.compareTo(a)`. |
| JavaStrings.CompareStringsZeroIffEqual | multi-threaded-file-processor/src/com/fileprocessor/model/ProcessedData.java:31-33 | `compareTo` returns zero exactly for equal strings. |
| JavaStrings.CompareStringsTransitive | multi-threaded-file-processor/src/com/fileprocessor/model/ProcessedData.java:31-33 | "not after" under `compareTo` is transitive. |
| JavaStrings.CompareStringsIsLexicographic | multi-threaded-file-processor/src/com/fileprocessor/model/ProcessedData.java:31-33 | `compareTo` is negative exactly when the first string is a proper prefix of the second, or is smaller at the first position where they differ. |
| Chunks.ToStringDeterminesRange | multi-threaded-file-processor/src/com/fileprocessor/filereader/Chunk.java:31-34 | Two chunks with the same id and file that render alike cover the same (non-negative) line range. |
| Stats.ApplyAllCounts | multi-threaded-file-processor/src/com/fileprocessor/model/ProcessingStats.java:17-20 | After any sequence of updates, each counter equals its start value plus the number (or sum) of the updates addressed to it. |
| Stats.CountersNeverDecrease | multi-threaded-file-processor/src/com/fileprocessor/model/ProcessingStats.java:17-20 | With non-negative `addRecords` arguments, no counter ever goes down. |
| Records.RecordHash | multi-threaded-file-processor/src/com/fileprocessor/model/ProcessedData.java:26-28 | `Objects.hash(id)` is a 32-bit value. |
| Records.SameRecordIgnoresPayload | multi-threaded-file-processor/src/com/fileprocessor/model/ProcessedData.java:18-23 | `equals` looks only at the id: changing content or timestamp keeps a record equal to itself, and `equals` is symmetric. |
| Records.EqualRecordsHashEqually | multi-threaded-file-processor/src/com/fileprocessor/model/ProcessedData.java:18-28 | Records that are `equals` have the same `hashCode`. |
| Records.CompareRecordsAntisymmetric | multi-threaded-file-processor/src/com/fileprocessor/model/ProcessedData.java:31-33 | Swapping the two records negates `compareTo`. |
| Records.CompareRecordsTransitive | multi-threaded-file-processor/src/com/fileprocessor/model/ProcessedData.java:31-33 | "not after" between records is transitive. |
| Records.CompareRecordsConsistentWithEquals | multi-threaded-file-processor/src/com/fileprocessor/model/ProcessedData.java:18-33 | `compareTo` is zero exactly when `equals` holds. |
| Records.CompareRecordsIsLexicographic | multi-threaded-file-processor/src/com/fileprocessor/model/ProcessedData.java:31-33 | A record comes first exactly when its id is lexicographically smaller. |
| Transformations.TrimTwiceIsTrimOnce | multi-threaded-file-processor/src/com/fileprocessor/dataprocessor/Transformation.java:14 | `TRIM.andThen(TRIM)` behaves as `TRIM`. |
| Transformations.ComposeIsFlippedAndThen | multi-threaded-file-processor/src/com/fileprocessor/dataprocessor/Transformation.java:28-31 | `a.compose(b)` behaves as `b.andThen(a)` on every input. |
| Transformations.AndThenAssociative | multi-threaded-file-processor/src/com/fileprocessor/dataprocessor/Transformation.java:23-26 | Chaining with `andThen` is associative, including when a step throws. |
| Transformations.IdentityIsUnit | multi-threaded-file-processor/src/com/fileprocessor/dataprocessor/Transformation.java:8-26 | `IDENTITY` is a left and right unit of `andThen`. |
| Transformations.DefaultNumbersTrimmedLine | multi-threaded-file-processor/src/com/fileprocessor/dataprocessor/Transformation.java:16-21 | The default transformation never throws. It yields `[file:n] ` followed by the trimmed line, so its output starts with `[file:` and ends with the trimmed line. |
| FileReader.ChunkIdInjective | multi-threaded-file-processor/src/com/fileprocessor/filereader/FileReader.java:114-116 | `chunk-<time>-<counter>` determines both the time and the counter. |
| FileReader.ClockStampInjective | multi-threaded-file-processor/src/com/fileprocessor/filereader/FileReader.java:115-116 | Whatever the clock reads, different counter values give different chunk ids. |
| FileReader.CountedChunkIdsDistinct | multi-threaded-file-processor/src/com/fileprocessor/filereader/FileReader.java:114-116 | Chunks stamped with consecutive counter values have pairwise distinct ids. |
| FileReader.Split | multi-threaded-file-processor/src/com/fileprocessor/filereader/FileReader.java:89-105 | A file yields no chunk exactly when it has no lines. |
| FileReader.SplitPartition | multi-threaded-file-processor/src/com/fileprocessor/filereader/FileReader.java:89-105 | The chunks' lines, concatenated in order, are exactly the file's lines: none lost, duplicated or reordered. |
| FileReader.SplitSizes | multi-threaded-file-processor/src/com/fileprocessor/filereader/FileReader.java:89-105 | Every chunk names the file, holds 1 to `chunkSize` lines and spans exactly its range. Every chunk but the last is full. |
| FileReader.SplitLineNumbers | multi-threaded-file-processor/src/com/fileprocessor/filereader/FileReader.java:82-105 | The first chunk starts at the first line number, each chunk starts right after the previous one ends, and the ranges cover exactly as many numbers as the file has lines. |
| FileReader.SplitIds | multi-threaded-file-processor/src/com/fileprocessor/filereader/FileReader.java:94-116 | The `j`-th chunk of a file takes the `j+1`-th counter value after the counter the file starts at. |
| FileReader.SplitCount | multi-threaded-file-processor/src/com/fileprocessor/filereader/FileReader.java:89-105 | A file of `L` lines gives `ceil(L / chunkSize)` chunks. |
| FileReader.SplitOneLineEach | multi-threaded-file-processor/src/com/fileprocessor/filereader/FileReader.java:93-98 | With `chunkSize` of 1 or less, chunk `i` is exactly line `i`, with matching start and end number. |
| FileReader.CsvAccepted | multi-threaded-file-processor/src/com/fileprocessor/filereader/FileReader.java:152-171 | A CSV file passes exactly when it has a first line holding a character above space. The missing comma only warns. |
| FileReader.JsonAccepted | multi-threaded-file-processor/src/com/fileprocessor/filereader/FileReader.java:176-196 | A JSON file passes exactly when it has a first line that, trimmed, starts with `{` or `[`. |
| FileReader.ProcessFileKeepsLines | multi-threaded-file-processor/src/com/fileprocessor/filereader/FileReader.java:77-109 | `processFile` succeeds exactly when the format check passes. Its chunks then hold the file's lines, in order, with nothing lost or repeated, and their ranges run from line 1 with each chunk starting right after the previous one ends. |
| FileReader.ProcessFileChunkShape | multi-threaded-file-processor/src/com/fileprocessor/filereader/FileReader.java:89-116 | On success every chunk names the file and holds 1 to max(`chunkSize`, 1) lines, and chunk `j` carries the `j+1`-th counter value after the one the file starts at. |
| FileReader.FormatErrorIsAboutTheFile | multi-threaded-file-processor/src/com/fileprocessor/filereader/FileReader.java:77-78 | A format check failure always names the file's own problem, never the "no valid files" error. |
| FileReader.FirstBadFile | multi-threaded-file-processor/src/com/fileprocessor/filereader/FileReader.java:56-65 | This is the index of the first file that fails its check: every earlier one passes. |
| FileReader.ReadFromStats | multi-threaded-file-processor/src/com/fileprocessor/filereader/FileReader.java:55-65 | The loop counts exactly the files before the first one that fails, and touches no other counter. |
| FileReader.ReadFromFails | multi-threaded-file-processor/src/com/fileprocessor/filereader/FileReader.java:55-65 | A file that fails makes the loop throw that file's error. |
| FileReader.ReadFromLines | multi-threaded-file-processor/src/com/fileprocessor/filereader/FileReader.java:55-67 | When every file passes, the returned chunks hold all the files' lines in file order, and the counter advances once per chunk. |
| FileReader.ReadFromIds | multi-threaded-file-processor/src/com/fileprocessor/filereader/FileReader.java:55-65 | When every file passes, the `j`-th chunk overall carries counter value `counter + j + 1`. |
| FileReader.ReadFilesAccepted | multi-threaded-file-processor/src/com/fileprocessor/filereader/FileReader.java:36-72 | Given files whose formats all pass, `readFiles` returns all lines in file order. They are cut into chunks with pairwise distinct ids, and every file is counted. |
| FileReader.ReadFilesFailsIff | multi-threaded-file-processor/src/com/fileprocessor/filereader/FileReader.java:50-65 | `readFiles` fails exactly when there are no valid files or some file fails its format check, and it reports "no valid files" exactly in the first case. |
| FileReader.ReadFilesRejects | multi-threaded-file-processor/src/com/fileprocessor/filereader/FileReader.java:36-72 | A file whose format fails aborts `readFiles` with that file's error, after counting only the files before it. |
| DataProcessor.GenerateDataIdDeterminesNumber | multi-threaded-file-processor/src/com/fileprocessor/dataprocessor/DataProcessor.java:83-86 | Two ids for the same file that are equal carry the same line number and the same line hash. |
| DataProcessor.GeneratedIdNotBlank | multi-threaded-file-processor/src/com/fileprocessor/dataprocessor/DataProcessor.java:83-86 | A generated id is never blank. |
| DataProcessor.NonBlankFromSpec | multi-threaded-file-processor/src/com/fileprocessor/dataprocessor/DataProcessor.java:51-57 | The lines `processChunk` turns into records are exactly the non-blank ones, in ascending order. |
| DataProcessor.ProcessFromNoFailures | multi-threaded-file-processor/src/com/fileprocessor/dataprocessor/DataProcessor.java:47-66 | When the transformation never throws, record `j` comes from the `j`-th non-blank line. Its number is the line's offset from the start, its id is built from that number, and its content is the transformed line. |
| DataProcessor.ProcessChunkNoFailures | multi-threaded-file-processor/src/com/fileprocessor/dataprocessor/DataProcessor.java:47-66 | For a whole chunk whose lines all transform, there is exactly one record per non-blank line, numbered from the chunk's start line, in line order. |
| DataProcessor.EmittedFromOrdered | multi-threaded-file-processor/src/com/fileprocessor/dataprocessor/DataProcessor.java:49-57 | Whatever the transformation, the records' line indices and line numbers both strictly increase, and each number is at most the line's offset from the start. |
| DataProcessor.ProcessFromIds | multi-threaded-file-processor/src/com/fileprocessor/dataprocessor/DataProcessor.java:71-86 | Each record's id is built from the file, the number it was given, and the raw (untransformed) line. Its content is that line transformed at that number. |
| DataProcessor.LineNumberAtCounts | multi-threaded-file-processor/src/com/fileprocessor/dataprocessor/DataProcessor.java:49-62 | The number the loop holds at a line is the start number plus the line's offset, less one for each earlier non-blank line whose transformation threw. |
| DataProcessor.EmittedFromExactly | multi-threaded-file-processor/src/com/fileprocessor/dataprocessor/DataProcessor.java:49-62 | Whatever the transformation, the lines that yield records are exactly the non-blank lines that transform without throwing at the number the loop holds there, and each record carries that number. |
| DataProcessor.ProcessChunkNumbers | multi-threaded-file-processor/src/com/fileprocessor/dataprocessor/DataProcessor.java:47-86 | For a whole chunk and any transformation, the record from non-blank line `p` carries number `startLine + p` less the earlier non-blank lines whose transformation threw. Its id and content are made from that line at that number, and every non-blank line that transforms at its number yields a record. |
| DataProcessor.ProcessChunkIdsDistinct | multi-threaded-file-processor/src/com/fileprocessor/dataprocessor/DataProcessor.java:47-86 | The ids within one chunk's batch are pairwise distinct, whatever the transformation. |
| DataProcessor.ValidateFromSpec | multi-threaded-file-processor/src/com/fileprocessor/dataprocessor/DataProcessor.java:91-108 | `validateResults` passes a batch exactly when no id is blank. A rejection names the chunk. |
| DataProcessor.ProcessChunkValidates | multi-threaded-file-processor/src/com/fileprocessor/dataprocessor/DataProcessor.java:47-108 | Every batch `processChunk` builds passes validation. |
| DataProcessor.FinishCountsOnce | multi-threaded-file-processor/src/com/fileprocessor/dataprocessor/DataProcessor.java:25-42 | Every call is counted exactly once: a success as a processed chunk, leaving the error count alone, and a failure as an error, leaving the chunk count alone. The record total grows by exactly the size of the batch returned, and a rethrown error names the chunk and wraps the cause. |
| DataProcessor.CallSucceeds | multi-threaded-file-processor/src/com/fileprocessor/dataprocessor/DataProcessor.java:25-42 | `call` always returns the processed batch and counts one chunk and its records. |
| DuplicateRemover.SeenIffNotFirst | multi-threaded-file-processor/src/com/fileprocessor/aggregator/DuplicateRemover.java:39-43 | `seen.add(key)` fails exactly when the key occurred at an earlier position. |
| DuplicateRemover.RemoveDuplicatesBy | multi-threaded-file-processor/src/com/fileprocessor/aggregator/DuplicateRemover.java:35-79 | The `HashSet` loop returns exactly the reference result: the first record of each key, in input order. |
| DuplicateRemover.RemoveDuplicates | multi-threaded-file-processor/src/com/fileprocessor/aggregator/DuplicateRemover.java:15-30 | `ID_BASED` keeps the first record per id and `CONTENT_BASED` the first per content. `COMPLETE_MATCH` keeps the first per joined key `id + "|||" + content`, as the source builds it. Empty input gives an empty list. |
| DuplicateRemover.KeepFirstIsSubsequence | multi-threaded-file-processor/src/com/fileprocessor/aggregator/DuplicateRemover.java:35-46 | The output is the input at the ascending first-occurrence positions, and every first-occurrence position is kept. |
| DuplicateRemover.KeepFirstKeysDistinct | multi-threaded-file-processor/src/com/fileprocessor/aggregator/DuplicateRemover.java:35-46 | No key occurs twice in the output. |
| DuplicateRemover.KeepFirstCoversKeys | multi-threaded-file-processor/src/com/fileprocessor/aggregator/DuplicateRemover.java:35-46 | The output has exactly the input's set of keys. |
| DuplicateRemover.KeepFirstOfDistinct | multi-threaded-file-processor/src/com/fileprocessor/aggregator/DuplicateRemover.java:35-46 | A list whose keys are already distinct comes back unchanged. |
| DuplicateRemover.KeepFirstIdempotent | multi-threaded-file-processor/src/com/fileprocessor/aggregator/DuplicateRemover.java:35-46 | Removing duplicates twice is the same as once. |
| DuplicateRemover.KeepFirstLength | multi-threaded-file-processor/src/com/fileprocessor/aggregator/DuplicateRemover.java:35-46 | The output is never longer than the input, and has the same length exactly when no key repeats. |
| DuplicateRemover.SameIdAndContentCollide | multi-threaded-file-processor/src/com/fileprocessor/aggregator/DuplicateRemover.java:67-79 | Records that agree in id and content always collapse under `COMPLETE_MATCH`. |
| DuplicateRemover.CombinedKeyCollision | multi-threaded-file-processor/src/com/fileprocessor/aggregator/DuplicateRemover.java:72 | The joined key also merges records that differ in both id and content, so the second one is dropped (see Findings). |
| DuplicateRemover.CombinedKeepsNoMoreThanPair | multi-threaded-file-processor/src/com/fileprocessor/aggregator/DuplicateRemover.java:67-79 | Every record the joined key keeps is also kept under the (id, content) pair key, so the joined key never keeps more. |
| DuplicateRemover.PairKeyMatchesBoth | multi-threaded-file-processor/src/com/fileprocessor/aggregator/DuplicateRemover.java:64-66 | With the pair key, two records collapse exactly when both id and content agree. |
| DuplicateRemover.RemoveCompleteMatches | multi-threaded-file-processor/src/com/fileprocessor/aggregator/DuplicateRemover.java:67-79 | The corrected `COMPLETE_MATCH` keeps the first record per (id, content) pair. No two kept records agree in both fields. |
| DataSorter.SortPermutes | multi-threaded-file-processor/src/com/fileprocessor/aggregator/DataSorter.java:21-43 | Sorting returns a permutation of the input. |
| DataSorter.SortSorts | multi-threaded-file-processor/src/com/fileprocessor/aggregator/DataSorter.java:21-43 | Under a comparator that meets Java's contract, the output is in order: no element compares after a later one. |
| DataSorter.SortIsStable | multi-threaded-file-processor/src/com/fileprocessor/aggregator/DataSorter.java:21-43 | Elements that compare equal keep their relative order. |
| DataSorter.SortOfSorted | multi-threaded-file-processor/src/com/fileprocessor/aggregator/DataSorter.java:21-43 | An already sorted list comes back unchanged. |
| DataSorter.SortIdempotent | multi-threaded-file-processor/src/com/fileprocessor/aggregator/DataSorter.java:21-43 | Sorting a sorted result again changes nothing. |
| DataSorter.NaturalIsValid | multi-threaded-file-processor/src/com/fileprocessor/aggregator/DataSorter.java:24-25 | Ordering by `compareTo` (by id) meets the comparator contract. |
| DataSorter.TimestampIsValid | multi-threaded-file-processor/src/com/fileprocessor/aggregator/DataSorter.java:27-28 | `comparingLong(getTimestamp)` meets the comparator contract. |
| DataSorter.ContentIsValid | multi-threaded-file-processor/src/com/fileprocessor/aggregator/DataSorter.java:33-34 | `comparing(getContent)` meets the comparator contract. |
| DataSorter.ReversedIsValid | multi-threaded-file-processor/src/com/fileprocessor/aggregator/DataSorter.java:30-37 | `reversed()` of a valid comparator is valid. |
| DataSorter.StrategyIsValid | multi-threaded-file-processor/src/com/fileprocessor/aggregator/DataSorter.java:23-41 | All five built-in strategies give valid comparators. |
| DataSorter.NaturalSortedMeansIdsAscending | multi-threaded-file-processor/src/com/fileprocessor/aggregator/DataSorter.java:24-25 | Sorted in natural order means the ids never descend lexicographically. |
| DataSorter.TimestampSortedMeans | multi-threaded-file-processor/src/com/fileprocessor/aggregator/DataSorter.java:27-32 | Sorted by timestamp means timestamps never decrease (never increase when reversed). |
| DataSorter.ContentSortedMeans | multi-threaded-file-processor/src/com/fileprocessor/aggregator/DataSorter.java:33-34 | Sorted by content, ascending, means exactly that the contents never descend lexicographically. |
| DataSorter.ContentDescSortedMeans | multi-threaded-file-processor/src/com/fileprocessor/aggregator/DataSorter.java:36-37 | Sorted by the reversed content comparator means exactly that the contents never ascend lexicographically. |
| DataSorter.SortWithPermutesSorts | multi-threaded-file-processor/src/com/fileprocessor/aggregator/DataSorter.java:49-57 | Sorting with any valid comparator gives a permutation of the input in comparator order. |
| DataSorter.SortWithStableIdempotent | multi-threaded-file-processor/src/com/fileprocessor/aggregator/DataSorter.java:49-57 | Sorting with any valid comparator is stable, and sorting the result again leaves it unchanged. |
| DataSorter.StableSortUnique | multi-threaded-file-processor/src/com/fileprocessor/aggregator/DataSorter.java:49-57 | Two lists sorted by a valid comparator, in which every class of equal elements appears in the same order, are the same list. |
| DataSorter.SortWithIsTheStableSort | multi-threaded-file-processor/src/com/fileprocessor/aggregator/DataSorter.java:49-57 | Any sorted list that keeps each class of equal elements in input order is exactly what the model's sort returns. |
| DataSorter.SortDataPermutesSorts | multi-threaded-file-processor/src/com/fileprocessor/aggregator/DataSorter.java:16-44 | For each named strategy the result is a permutation of the input in the strategy's order. |
| DataSorter.SortDataStableIdempotent | multi-threaded-file-processor/src/com/fileprocessor/aggregator/DataSorter.java:16-44 | For each named strategy sorting is stable and idempotent. |
| ResultAggregator.Merge | multi-threaded-file-processor/src/com/fileprocessor/aggregator/ResultAggregator.java:31-42 | An empty batch changes nothing. A non-empty one is appended in order and counts one task. |
| ResultAggregator.Clear | multi-threaded-file-processor/src/com/fileprocessor/aggregator/ResultAggregator.java:118-121 | Clearing gives back a fresh aggregator with the same switches. |
| ResultAggregator.MergeAllTotals | multi-threaded-file-processor/src/com/fileprocessor/aggregator/ResultAggregator.java:31-42 | Merging many batches appends their concatenation. The record count grows by their total size, and the task count grows by the number of non-empty batches. |
| ResultAggregator.MergeAfterClear | multi-threaded-file-processor/src/com/fileprocessor/aggregator/ResultAggregator.java:118-121 | After `clear`, the aggregator holds exactly what is merged next. |
| ResultAggregator.PutAllIfAbsentKeepsFirst | multi-threaded-file-processor/src/com/fileprocessor/aggregator/ResultAggregator.java:52-56 | The `putIfAbsent` map has exactly the input's ids as keys, and maps each id to its first record. |
| ResultAggregator.MapValues | multi-threaded-file-processor/src/com/fileprocessor/aggregator/ResultAggregator.java:58 | `values()` lists every value of the map once, in some order. |
| ResultAggregator.RemoveDuplicatesById | multi-threaded-file-processor/src/com/fileprocessor/aggregator/ResultAggregator.java:47-64 | The result holds exactly the first record of each id, one per distinct id, in some order. Empty input gives an empty list. |
| ResultAggregator.KeyCountBound | multi-threaded-file-processor/src/com/fileprocessor/aggregator/ResultAggregator.java:102-108 | There are never more distinct ids than records, and as many exactly when no id repeats. |
| ResultAggregator.SortByIdSpec | multi-threaded-file-processor/src/com/fileprocessor/aggregator/ResultAggregator.java:69-80 | `sortData` returns a permutation with ids in ascending order in which records with equal ids keep their input order. Empty input gives an empty list. |
| ResultAggregator.SortedDistinctIdsAscend | multi-threaded-file-processor/src/com/fileprocessor/aggregator/ResultAggregator.java:85-97 | A sorted list with distinct ids has strictly ascending ids. |
| ResultAggregator.GetFinalResults | multi-threaded-file-processor/src/com/fileprocessor/aggregator/ResultAggregator.java:85-97 | Without dedup the records are kept as a multiset, and with neither switch they are kept as they are. With dedup, exactly the first record per id is kept. With sorting, ids ascend. With sorting alone, the result is exactly the stable sort of the records by id. With both, ids strictly ascend. |
| ResultAggregator.GetAggregationStats | multi-threaded-file-processor/src/com/fileprocessor/aggregator/ResultAggregator.java:102-140 | The unique count is the number of distinct ids with dedup on and the total otherwise. So the duplicate count is never negative, and it is zero exactly when dedup is off or no id repeats. |
| Pipeline.RunWorkers | multi-threaded-file-processor/src/com/fileprocessor/manager/ProcessingPipeline.java:81-85 | One worker is submitted per chunk. |
| Pipeline.RunWorkersOnePerChunk | multi-threaded-file-processor/src/com/fileprocessor/manager/ProcessingPipeline.java:81-85 | Worker `j` returns chunk `j`'s batch. Together the workers count every chunk and every record, and no error and no file. |
| Pipeline.FirstInterrupt | multi-threaded-file-processor/src/com/fileprocessor/manager/ProcessingPipeline.java:91-103 | This is the position of the first interrupted wait: every wait before it is not interrupted. |
| Pipeline.ProcessChunks | multi-threaded-file-processor/src/com/fileprocessor/manager/ProcessingPipeline.java:77-113 | The loop's outcome equals `Collect`: up to the first interrupt, the returned list is the concatenation of the completed batches in submission order, the aggregator has merged exactly those, the completed count is their number, and the timed-out positions are the handles cancelled. The aggregator's list grows by exactly the returned list. |
| Pipeline.Collect | multi-threaded-file-processor/src/com/fileprocessor/manager/ProcessingPipeline.java:77-113 | The completed count never exceeds the number of handles. |
| Pipeline.SkippedWaitContributesNothing | multi-threaded-file-processor/src/com/fileprocessor/manager/ProcessingPipeline.java:104-109 | A failed or timed-out wait adds no batch and does not stop the loop. |
| Pipeline.InterruptEndsCollection | multi-threaded-file-processor/src/com/fileprocessor/manager/ProcessingPipeline.java:100-103 | An interrupt ends the loop: nothing after it is collected. |
| Pipeline.TimedOutIndicesSpec | multi-threaded-file-processor/src/com/fileprocessor/manager/ProcessingPipeline.java:106-109 | The cancelled positions are exactly the timed-out ones, in ascending order. |
| Pipeline.AllDoneCollected | multi-threaded-file-processor/src/com/fileprocessor/manager/ProcessingPipeline.java:91-97 | When every wait completes, every batch is collected in order. |
| Pipeline.AllCompleteCollectsEverything | multi-threaded-file-processor/src/com/fileprocessor/manager/ProcessingPipeline.java:77-113 | When no wait times out or is interrupted, the loop collects every chunk's batch in chunk order. Its record total equals the records the workers counted. |

## Left out

- Directory listing, file existence and readability checks, and `FileValidator.isValidFile`'s name pattern: `ReadFiles` takes the already filtered list of valid files, each as its name and lines. `FileValidator.validateFileFormat`'s extension check is kept as `UnsupportedFormat`.
- I/O failures while reading a file or the directory: files are values, so a read cannot fail.
- Line splitting by `BufferedReader.readLine` and UTF-8 decoding: a file is given as its sequence of lines.
- `System.currentTimeMillis()`: a parameter. `FileReader.ReadFiles` takes `clock(n)`, the time read when the chunk counter reaches `n`. `DataProcessor.ProcessChunk` takes the time for each record. `Pipeline.RunWorkers` takes one clock per worker.
- `FileReader.ReadFilesAccepted`: chunk-id distinctness is proved for an unbounded `nat` counter. `AtomicInteger` wrap-around to negative values is not modelled.
- `DataProcessor.ProcessChunk`: line numbers are unbounded integers, so it does not model `int` overflow past 2^31 - 1 lines.
- `Stats.ApplyAllCounts`: counters are unbounded, so it does not model `AtomicLong` overflow.
- `FileReader.SplitLineNumbers`: `processFile`'s `int` line counters (`lineNumber`, `chunkStartLine`) are unbounded integers, so it does not model their overflow past 2^31 - 1 lines.
- `ResultAggregator.MergeAllTotals`: `processedTasks` is an unbounded integer, so it does not model `AtomicInteger` wrap-around after 2^31 - 1 non-empty batches.
- `JavaStrings.IntToString`: `String.format`'s `%d` is modelled with ASCII digits and an ASCII minus sign, that is, for a default locale that does not localise digits. Chunk ids and record ids under other locales are not modelled.
- Java `null`: lines, ids, contents and batches are never null here. `validateResults`' null-list and null-content checks therefore cannot fire and are not modelled; its blank-id check is.
- `Transformation.UPPERCASE` and `LOWERCASE`: Unicode case mapping is not modelled. File-name lower-casing is modelled for ASCII letters only.
- Characters are Unicode scalar values, not UTF-16 code units. `String.hashCode`, `compareTo` and `trim` agree with Java on text without characters outside the Basic Multilingual Plane.
- Console output: `System.out` progress lines and `System.err` warnings. The CSV missing-comma warning is the predicate `CsvCommaWarning`; it does not change the outcome.
- `FileReader.getFileSize` and `estimateProcessingTime`: floating-point formatting, not part of the data path.
- `ProcessingStats.getProcessingTime` and `startTime`: read the clock.
- The aggregator's `stats` field: stored but never used by the aggregator.
- Concurrency: the thread pool, `ThreadPoolManager`, `ProcessorTask`, and the synchronisation of the shared counters and result list. Workers run one after another. `Pipeline.ProcessChunks` takes the outcome of each `future.get` as input instead of computing it.
- `ResultAggregator.RemoveDuplicatesById`: the order of `ConcurrentHashMap.values()` is unspecified, so the contract fixes the contents (first record per id, once each) but not the order.
- `ResultAggregator.MapValues`: the same unspecified order.
- `ProcessingPipeline.execute`, `printProcessingSummary` and `shutdown`: orchestration and printing. The steps they call are modelled.
- `Main`, `ProcessorConfig` and `ThreadConfig`: configuration parsing. The chunk size and the two aggregator switches are parameters.
- `ChunkProcessingException` and `FileProcessingException`: exceptions become `Failure` values. Only the chunk id of a rethrown error is kept, not the message text.

## Findings

| source | as written | input that shows it | evidently intended | confidence | as-written member | corrected member |
|---|---|---|---|---|---|---|
| multi-threaded-file-processor/src/com/fileprocessor/aggregator/DuplicateRemover.java:72 | `COMPLETE_MATCH` keys a record by one string: the id, a separator S of three vertical bars, then the content | with S as above, a record with id `a`+S+`b` and content `c`, followed by a record with id `a` and content `b`+S+`c`: both give the same key, so the second is dropped although its id and its content both differ | a record is a duplicate only when both its id and its content equal an earlier record's | not executed | DuplicateRemover.CombinedKeyCollision | DuplicateRemover.RemoveCompleteMatches |
