/**
 * `FileReader`: checks each input file's format and cuts its lines into chunks.
 * Directory listing and decoding are outside the model: a file is its name and
 * the sequence of lines `BufferedReader.readLine` would return, and the reader's
 * `AtomicInteger` chunk counter and the clock become parameters.
 */
module FileReader {
  import opened Wrappers
  import opened JavaStrings
  import opened Chunks
  import opened Stats

  datatype SourceFile = SourceFile(name: string, lines: seq<string>)

  /** The `FileProcessingException`s and the extension check's `IllegalArgumentException`. */
  datatype FileError =
    | NoValidFiles
    | UnsupportedFormat(file: string)
    | EmptyCsv(file: string)
    | EmptyJson(file: string)
    | InvalidJson(file: string)

  /** `ProcessorConfig`'s default chunk size. */
  const DEFAULT_CHUNK_SIZE: int := 1000

  // ---------------------------------------------------------------------------
  // chunk ids
  // ---------------------------------------------------------------------------

  /** `String.format("chunk-%d-%d", currentTimeMillis, counter)`. */
  function ChunkId(time: nat, counter: nat): string {
    "chunk-" + NatToString(time) + "-" + NatToString(counter)
  }

  /** The id format can be read back: different counters never give the same id. */
  lemma ChunkIdInjective(t1: nat, c1: nat, t2: nat, c2: nat)
    requires ChunkId(t1, c1) == ChunkId(t2, c2)
    ensures t1 == t2 && c1 == c2
  {
    var x, y := NatToString(t1), NatToString(c1);
    var x', y' := NatToString(t2), NatToString(c2);
    assert ChunkId(t1, c1) == "chunk-" + (x + ['-'] + y);
    assert ChunkId(t2, c2) == "chunk-" + (x' + ['-'] + y');
    assert x + ['-'] + y == x' + ['-'] + y' by {
      assert ("chunk-" + (x + ['-'] + y))[6..] == x + ['-'] + y;
      assert ("chunk-" + (x' + ['-'] + y'))[6..] == x' + ['-'] + y';
    }
    assert forall i :: 0 <= i < |x| ==> IsDigitChar(x[i]);
    assert forall i :: 0 <= i < |x'| ==> IsDigitChar(x'[i]);
    SplitAtSeparator(x, y, x', y', '-');
    IntToStringInjective(t1, t2);
    IntToStringInjective(c1, c2);
  }

  /**
   * The id `createChunk` gives the chunk with a given counter value. Splitting
   * and reading are stated for any such stamp; `readFiles` uses `ClockStamp`.
   */
  type Stamp = nat -> string

  /** `createChunk`'s id: the clock reading at that chunk, then the counter value. */
  function ClockStamp(clock: nat -> nat): Stamp {
    (n: nat) => ChunkId(clock(n), n)
  }

  /** Different counter values give different ids, whatever the clock reads. */
  lemma ClockStampInjective(clock: nat -> nat)
    ensures forall a, b :: ClockStamp(clock)(a) == ClockStamp(clock)(b) ==> a == b
  {
    forall a, b | ClockStamp(clock)(a) == ClockStamp(clock)(b)
      ensures a == b
    {
      ChunkIdInjective(clock(a), a, clock(b), b);
    }
  }

  /** Chunk `i` of the run carries the counter value `counter + i + 1`. */
  ghost predicate CountedFrom(cs: seq<Chunk>, counter: nat, stamp: Stamp) {
    forall i :: 0 <= i < |cs| ==> cs[i].chunkId == stamp(counter + i + 1)
  }

  /** Chunks stamped with consecutive counter values by an injective stamp carry pairwise distinct ids. */
  lemma CountedChunkIdsDistinct(cs: seq<Chunk>, counter: nat, stamp: Stamp)
    requires CountedFrom(cs, counter, stamp)
    requires forall a, b :: stamp(a) == stamp(b) ==> a == b
    ensures forall i, j :: 0 <= i < j < |cs| ==> cs[i].chunkId != cs[j].chunkId
  {
    forall i, j | 0 <= i < j < |cs|
      ensures cs[i].chunkId != cs[j].chunkId
    {
      assert stamp(counter + i + 1) != stamp(counter + j + 1);
    }
  }

  /** Two runs of consecutively stamped chunks, the second picking up where the first stopped. */
  lemma CountedFromAppend(a: seq<Chunk>, b: seq<Chunk>, counter: nat, stamp: Stamp)
    requires CountedFrom(a, counter, stamp) && CountedFrom(b, counter + |a|, stamp)
    ensures CountedFrom(a + b, counter, stamp)
  {
    forall j | 0 <= j < |a + b|
      ensures (a + b)[j].chunkId == stamp(counter + j + 1)
    {
      if j >= |a| {
        assert (a + b)[j] == b[j - |a|];
      }
    }
  }

  // ---------------------------------------------------------------------------
  // splitting one file
  // ---------------------------------------------------------------------------

  /** The lines of a list of chunks, in order. */
  function Flatten(cs: seq<Chunk>): seq<string>
    decreases |cs|
  {
    if |cs| == 0 then [] else cs[0].lines + Flatten(cs[1..])
  }

  lemma {:induction false} FlattenAppend(a: seq<Chunk>, b: seq<Chunk>)
    ensures Flatten(a + b) == Flatten(a) + Flatten(b)
    decreases |a|
  {
    if |a| > 0 {
      assert (a + b)[0] == a[0];
      assert (a + b)[1..] == a[1..] + b;
      FlattenAppend(a[1..], b);
    } else {
      assert a + b == b;
    }
  }

  /**
   * The reader emits a chunk as soon as its buffer holds `chunkSize` lines;
   * since the buffer holds at least one line at that test, a `chunkSize` of 1
   * or less emits every line on its own.
   */
  function LinesPerChunk(chunkSize: int): nat {
    if chunkSize < 1 then 1 else chunkSize
  }

  /**
   * `processFile`'s loop: full chunks of `k` lines, numbered from `start`, then
   * the remainder; `createChunk` stamps each with the next counter value.
   */
  function Split(name: string, lines: seq<string>, k: nat, start: int, counter: nat, stamp: Stamp): (r: seq<Chunk>)
    requires k >= 1
    ensures |r| == 0 <==> |lines| == 0
    decreases |lines|
  {
    if |lines| == 0 then []
    else
      var n := if |lines| < k then |lines| else k;
      var rest := Split(name, lines[n..], k, start + n, counter + 1, stamp);
      [Chunk(stamp(counter + 1), name, lines[..n], start, start + n - 1)] + rest
  }

  /** Concatenating the chunks' lines in order gives back exactly the file's lines. */
  lemma {:induction false} SplitPartition(name: string, lines: seq<string>, k: nat, start: int, counter: nat, stamp: Stamp)
    requires k >= 1
    ensures Flatten(Split(name, lines, k, start, counter, stamp)) == lines
    decreases |lines|
  {
    if |lines| > 0 {
      var n := if |lines| < k then |lines| else k;
      SplitStep(name, lines, k, start, counter, stamp);
      SplitPartition(name, lines[n..], k, start + n, counter + 1, stamp);
      assert lines == lines[..n] + lines[n..];
    }
  }

  /** One step of `Split`: the first chunk, then the split of the remaining lines. */
  lemma SplitStep(name: string, lines: seq<string>, k: nat, start: int, counter: nat, stamp: Stamp)
    requires k >= 1 && |lines| > 0
    ensures var n := if |lines| < k then |lines| else k;
      var r := Split(name, lines, k, start, counter, stamp);
      && r[0] == Chunk(stamp(counter + 1), name, lines[..n], start, start + n - 1)
      && r[1..] == Split(name, lines[n..], k, start + n, counter + 1, stamp)
  {
  }

  /** `Split` as the first chunk prepended to the split of the rest. */
  lemma SplitCons(name: string, lines: seq<string>, k: nat, start: int, counter: nat, stamp: Stamp)
    requires k >= 1 && |lines| > 0
    ensures var n := if |lines| < k then |lines| else k;
      Split(name, lines, k, start, counter, stamp)
      == [Chunk(stamp(counter + 1), name, lines[..n], start, start + n - 1)]
        + Split(name, lines[n..], k, start + n, counter + 1, stamp)
  {
  }

  /** Every chunk is non-empty, spans its line range, and all but the last hold exactly `k` lines. */
  lemma {:induction false} SplitSizes(name: string, lines: seq<string>, k: nat, start: int, counter: nat, stamp: Stamp)
    requires k >= 1
    ensures forall i :: 0 <= i < |Split(name, lines, k, start, counter, stamp)| ==>
      var c := Split(name, lines, k, start, counter, stamp)[i];
      c.WellFormed() && c.sourceFile == name && 1 <= c.Size() <= k
    ensures forall i :: 0 <= i < |Split(name, lines, k, start, counter, stamp)| - 1 ==>
      Split(name, lines, k, start, counter, stamp)[i].Size() == k
    decreases |lines|
  {
    if |lines| > 0 {
      var n := if |lines| < k then |lines| else k;
      var r := Split(name, lines, k, start, counter, stamp);
      var rest := Split(name, lines[n..], k, start + n, counter + 1, stamp);
      SplitStep(name, lines, k, start, counter, stamp);
      SplitSizes(name, lines[n..], k, start + n, counter + 1, stamp);
      forall i | 0 < i < |r|
        ensures r[i] == rest[i - 1]
      {
      }
    }
  }

  /**
   * Chunks that number `count` lines from `start` on: the first starts at
   * `start`, each next one right after its predecessor, and the last ends at
   * line `start + count - 1`.
   */
  ghost predicate Chained(r: seq<Chunk>, start: int, count: int) {
    && (|r| > 0 ==> r[0].startLine == start && r[|r| - 1].endLine == start + count - 1)
    && (forall i :: 0 < i < |r| ==> r[i].startLine == r[i - 1].endLine + 1)
  }

  lemma {:induction false} SplitLineNumbers(name: string, lines: seq<string>, k: nat, start: int, counter: nat, stamp: Stamp)
    requires k >= 1
    ensures Chained(Split(name, lines, k, start, counter, stamp), start, |lines|)
    decreases |lines|
  {
    if |lines| > 0 {
      var n := if |lines| < k then |lines| else k;
      var rest := Split(name, lines[n..], k, start + n, counter + 1, stamp);
      var c := Chunk(stamp(counter + 1), name, lines[..n], start, start + n - 1);
      SplitCons(name, lines, k, start, counter, stamp);
      SplitLineNumbers(name, lines[n..], k, start + n, counter + 1, stamp);
      ChainedCons(Split(name, lines, k, start, counter, stamp), c, rest, |lines| - n);
    }
  }

  /** Prepending a chunk that ends right before a chained list starts keeps the list chained. */
  lemma ChainedCons(r: seq<Chunk>, c: Chunk, rest: seq<Chunk>, count: int)
    requires r == [c] + rest
    requires Chained(rest, c.endLine + 1, count)
    requires |rest| == 0 ==> count == 0
    ensures Chained(r, c.startLine, c.endLine - c.startLine + 1 + count)
  {
  }

  /** Chunk `i` of the file carries the counter value `counter + i + 1`. */
  lemma {:induction false} SplitIds(name: string, lines: seq<string>, k: nat, start: int, counter: nat, stamp: Stamp)
    requires k >= 1
    ensures CountedFrom(Split(name, lines, k, start, counter, stamp), counter, stamp)
    decreases |lines|
  {
    if |lines| > 0 {
      var n := if |lines| < k then |lines| else k;
      var rest := Split(name, lines[n..], k, start + n, counter + 1, stamp);
      var c := Chunk(stamp(counter + 1), name, lines[..n], start, start + n - 1);
      SplitCons(name, lines, k, start, counter, stamp);
      SplitIds(name, lines[n..], k, start + n, counter + 1, stamp);
      CountedCons(Split(name, lines, k, start, counter, stamp), c, rest, counter, stamp);
    }
  }

  /** A chunk stamped with the next counter value, then a run counted from there. */
  lemma CountedCons(r: seq<Chunk>, c: Chunk, rest: seq<Chunk>, counter: nat, stamp: Stamp)
    requires r == [c] + rest
    requires c.chunkId == stamp(counter + 1)
    requires CountedFrom(rest, counter + 1, stamp)
    ensures CountedFrom(r, counter, stamp)
  {
    forall i | 0 < i < |rest| + 1
      ensures ([c] + rest)[i].chunkId == stamp(counter + i + 1)
    {
      assert ([c] + rest)[i] == rest[i - 1];
    }
  }

  /** The number of chunks is `ceil(|lines| / k)`. */
  lemma {:induction false} SplitCount(name: string, lines: seq<string>, k: nat, start: int, counter: nat, stamp: Stamp)
    requires k >= 1
    ensures var r := Split(name, lines, k, start, counter, stamp);
      (|r| - 1) * k < |lines| <= |r| * k
    decreases |lines|
  {
    var r := Split(name, lines, k, start, counter, stamp);
    if |lines| > k {
      var rest := Split(name, lines[k..], k, start + k, counter + 1, stamp);
      SplitCount(name, lines[k..], k, start + k, counter + 1, stamp);
      assert |r| == |rest| + 1;
      assert |r| * k == |rest| * k + k;
      assert (|r| - 1) * k == |rest| * k;
    } else if |lines| > 0 {
      assert |r| == 1;
    }
  }

  /** With `chunkSize` 1 or less, chunk `i` is exactly line `i + 1`. */
  lemma {:induction false} SplitOneLineEach(name: string, lines: seq<string>, start: int, counter: nat, stamp: Stamp)
    ensures var r := Split(name, lines, 1, start, counter, stamp);
      && |r| == |lines|
      && forall i :: 0 <= i < |r| ==> r[i].lines == [lines[i]] && r[i].startLine == start + i && r[i].endLine == start + i
    decreases |lines|
  {
    if |lines| > 0 {
      SplitOneLineEach(name, lines[1..], start + 1, counter + 1, stamp);
      var r := Split(name, lines, 1, start, counter, stamp);
      var rest := Split(name, lines[1..], 1, start + 1, counter + 1, stamp);
      forall i | 0 < i < |r|
        ensures r[i].lines == [lines[i]] && r[i].startLine == start + i && r[i].endLine == start + i
      {
        assert r[i] == rest[i - 1];
        assert lines[1..][i - 1] == lines[i];
      }
    }
  }

  // ---------------------------------------------------------------------------
  // format checks
  // ---------------------------------------------------------------------------

  /** What the first `readLine` returns: nothing for an empty file. */
  function FirstLine(lines: seq<string>): Option<string> {
    if |lines| == 0 then None else Some(lines[0])
  }

  /** `validateCsvFormat`: the first line must exist and not be blank. */
  function CsvError(file: SourceFile): Option<FileError> {
    match FirstLine(file.lines)
    case None => Some(EmptyCsv(file.name))
    case Some(first) => if IsBlank(first) then Some(EmptyCsv(file.name)) else None
  }

  /** `validateCsvFormat` only warns when an accepted first line has no comma. */
  predicate CsvCommaWarning(file: SourceFile) {
    CsvError(file).None? && ',' !in file.lines[0]
  }

  /** `validateJsonFormat`: a non-blank first line starting with `{` or `[` after trimming. */
  function JsonError(file: SourceFile): Option<FileError> {
    match FirstLine(file.lines)
    case None => Some(EmptyJson(file.name))
    case Some(first) =>
      if IsBlank(first) then Some(EmptyJson(file.name))
      else
        var trimmed := Trim(first);
        if !StartsWith(trimmed, "{") && !StartsWith(trimmed, "[") then Some(InvalidJson(file.name))
        else None
  }

  /** `validateFormat`: the extension check, then the CSV or JSON check by lower-cased name. */
  function FormatError(file: SourceFile): Option<FileError> {
    var lower := AsciiLower(file.name);
    if !EndsWith(lower, ".txt") && !EndsWith(lower, ".csv") && !EndsWith(lower, ".json") then
      Some(UnsupportedFormat(file.name))
    else if EndsWith(lower, ".csv") then CsvError(file)
    else if EndsWith(lower, ".json") then JsonError(file)
    else None
  }

  lemma CsvAccepted(file: SourceFile)
    ensures CsvError(file).None? <==> |file.lines| > 0 && exists i :: 0 <= i < |file.lines[0]| && file.lines[0][i] > ' '
  {
  }

  lemma JsonAccepted(file: SourceFile)
    ensures JsonError(file).None? <==>
      |file.lines| > 0 && (StartsWith(Trim(file.lines[0]), "{") || StartsWith(Trim(file.lines[0]), "["))
  {
  }

  /**
   * A per-file format check. `readFiles` uses `FormatError`; the loop below is
   * stated for any check, so its proofs never look inside the format rules.
   */
  type FileCheck = SourceFile -> Option<FileError>

  /** `processFile`: check the format, then split. */
  function ProcessFile(file: SourceFile, check: FileCheck, chunkSize: int, counter: nat, stamp: Stamp): Result<seq<Chunk>, FileError> {
    match check(file)
    case Some(e) => Failure(e)
    case None => Success(Split(file.name, file.lines, LinesPerChunk(chunkSize), 1, counter, stamp))
  }

  /**
   * A file that passes its check comes back whole: its chunks' lines are the
   * file's lines in order, numbered from line 1 without gaps.
   */
  lemma ProcessFileKeepsLines(file: SourceFile, check: FileCheck, chunkSize: int, counter: nat, stamp: Stamp)
    ensures ProcessFile(file, check, chunkSize, counter, stamp).Success? <==> check(file).None?
    ensures check(file).None? ==> Flatten(ProcessFile(file, check, chunkSize, counter, stamp).value) == file.lines
    ensures check(file).None? ==> Chained(ProcessFile(file, check, chunkSize, counter, stamp).value, 1, |file.lines|)
  {
    var k := LinesPerChunk(chunkSize);
    SplitPartition(file.name, file.lines, k, 1, counter, stamp);
    SplitLineNumbers(file.name, file.lines, k, 1, counter, stamp);
  }

  /**
   * Each chunk of a file that passes names the file, holds between one and
   * `chunkSize` lines (one when `chunkSize` is below 1), and chunk `j` is
   * stamped with counter value `counter + j + 1`.
   */
  lemma ProcessFileChunkShape(file: SourceFile, check: FileCheck, chunkSize: int, counter: nat, stamp: Stamp)
    requires check(file).None?
    ensures forall j :: 0 <= j < |ProcessFile(file, check, chunkSize, counter, stamp).value| ==>
      && ProcessFile(file, check, chunkSize, counter, stamp).value[j].sourceFile == file.name
      && 1 <= ProcessFile(file, check, chunkSize, counter, stamp).value[j].Size() <= LinesPerChunk(chunkSize)
    ensures CountedFrom(ProcessFile(file, check, chunkSize, counter, stamp).value, counter, stamp)
  {
    var k := LinesPerChunk(chunkSize);
    var cs := Split(file.name, file.lines, k, 1, counter, stamp);
    assert ProcessFile(file, check, chunkSize, counter, stamp).value == cs;
    SplitSizes(file.name, file.lines, k, 1, counter, stamp);
    SplitIds(file.name, file.lines, k, 1, counter, stamp);
  }

  // ---------------------------------------------------------------------------
  // readFiles
  // ---------------------------------------------------------------------------

  /** What `readFiles` returns or throws, and the counter and stats it leaves behind. */
  datatype ReadOutcome = ReadOutcome(chunks: Result<seq<Chunk>, FileError>, counter: nat, stats: ProcessingStats)

  /** The loop over the valid files from index `i` on: append each file's chunks, count the file. */
  function ReadFrom(files: seq<SourceFile>, i: nat, check: FileCheck, chunkSize: int, counter: nat, stats: ProcessingStats, stamp: Stamp): ReadOutcome
    requires i <= |files|
    decreases |files| - i
  {
    if i == |files| then ReadOutcome(Success([]), counter, stats)
    else
      match ProcessFile(files[i], check, chunkSize, counter, stamp)
      case Failure(e) => ReadOutcome(Failure(e), counter, stats)
      case Success(cs) =>
        var rest := ReadFrom(files, i + 1, check, chunkSize, counter + |cs|, IncrementFilesProcessed(stats), stamp);
        match rest.chunks
        case Failure(_) => rest
        case Success(more) => rest.(chunks := Success(cs + more))
  }

  /** `readFiles` over the already filtered list of valid files. */
  function ReadFiles(validFiles: seq<SourceFile>, chunkSize: int, counter: nat, stats: ProcessingStats, clock: nat -> nat): ReadOutcome {
    if |validFiles| == 0 then ReadOutcome(Failure(NoValidFiles), counter, stats)
    else ReadFrom(validFiles, 0, FormatError, chunkSize, counter, stats, ClockStamp(clock))
  }

  /** The lines of the files from index `i` on, in file order. */
  function LinesFrom(files: seq<SourceFile>, i: nat): seq<string>
    requires i <= |files|
    decreases |files| - i
  {
    if i == |files| then [] else files[i].lines + LinesFrom(files, i + 1)
  }

  /** The index of the first file at or after `i` that fails `check`, or `|files|`. */
  function FirstBadFile(files: seq<SourceFile>, i: nat, check: FileCheck): (j: nat)
    requires i <= |files|
    ensures i <= j <= |files|
    ensures forall m :: i <= m < j ==> check(files[m]).None?
    ensures j < |files| ==> check(files[j]).Some?
    decreases |files| - i
  {
    if i == |files| || check(files[i]).Some? then i else FirstBadFile(files, i + 1, check)
  }

  /** The loop counts exactly the files before the first one that fails its check, and nothing else. */
  lemma {:induction false} ReadFromStats(files: seq<SourceFile>, i: nat, check: FileCheck, chunkSize: int, counter: nat, stats: ProcessingStats, stamp: Stamp)
    requires i <= |files|
    ensures var o := ReadFrom(files, i, check, chunkSize, counter, stats, stamp);
      o.stats == stats.(filesProcessed := stats.filesProcessed + (FirstBadFile(files, i, check) - i))
    decreases |files| - i
  {
    if i < |files| {
      match ProcessFile(files[i], check, chunkSize, counter, stamp)
      case Failure(e) =>
      case Success(cs) =>
        ReadFromStats(files, i + 1, check, chunkSize, counter + |cs|, IncrementFilesProcessed(stats), stamp);
    }
  }

  /** A file that fails its check makes the whole call throw that file's error. */
  lemma {:induction false} ReadFromFails(files: seq<SourceFile>, i: nat, check: FileCheck, chunkSize: int, counter: nat, stats: ProcessingStats, stamp: Stamp)
    requires i <= |files| && FirstBadFile(files, i, check) < |files|
    ensures ReadFrom(files, i, check, chunkSize, counter, stats, stamp).chunks
      == Failure(check(files[FirstBadFile(files, i, check)]).value)
    decreases |files| - i
  {
    match ProcessFile(files[i], check, chunkSize, counter, stamp)
    case Failure(e) =>
    case Success(cs) =>
      ReadFromFails(files, i + 1, check, chunkSize, counter + |cs|, IncrementFilesProcessed(stats), stamp);
  }

  /**
   * When every file passes, the chunks' lines are all the files' lines in
   * order, and the counter advances once per chunk.
   */
  lemma {:induction false} ReadFromLines(files: seq<SourceFile>, i: nat, check: FileCheck, chunkSize: int, counter: nat, stats: ProcessingStats, stamp: Stamp)
    requires i <= |files| && FirstBadFile(files, i, check) == |files|
    ensures var o := ReadFrom(files, i, check, chunkSize, counter, stats, stamp);
      && o.chunks.Success?
      && Flatten(o.chunks.value) == LinesFrom(files, i)
      && o.counter == counter + |o.chunks.value|
    decreases |files| - i
  {
    if i < |files| {
      match ProcessFile(files[i], check, chunkSize, counter, stamp)
      case Failure(e) =>
      case Success(cs) =>
        SplitPartition(files[i].name, files[i].lines, LinesPerChunk(chunkSize), 1, counter, stamp);
        ReadFromLines(files, i + 1, check, chunkSize, counter + |cs|, IncrementFilesProcessed(stats), stamp);
        var rest := ReadFrom(files, i + 1, check, chunkSize, counter + |cs|, IncrementFilesProcessed(stats), stamp);
        FlattenAppend(cs, rest.chunks.value);
    }
  }

  /** When every file passes, chunk `j` of the whole result carries counter value `counter + j + 1`. */
  lemma {:induction false} ReadFromIds(files: seq<SourceFile>, i: nat, check: FileCheck, chunkSize: int, counter: nat, stats: ProcessingStats, stamp: Stamp)
    requires i <= |files| && FirstBadFile(files, i, check) == |files|
    ensures var o := ReadFrom(files, i, check, chunkSize, counter, stats, stamp);
      o.chunks.Success? && CountedFrom(o.chunks.value, counter, stamp)
    decreases |files| - i
  {
    if i < |files| {
      match ProcessFile(files[i], check, chunkSize, counter, stamp)
      case Failure(e) =>
      case Success(cs) =>
        SplitIds(files[i].name, files[i].lines, LinesPerChunk(chunkSize), 1, counter, stamp);
        ReadFromIds(files, i + 1, check, chunkSize, counter + |cs|, IncrementFilesProcessed(stats), stamp);
        var more := ReadFrom(files, i + 1, check, chunkSize, counter + |cs|, IncrementFilesProcessed(stats), stamp).chunks.value;
        CountedFromAppend(cs, more, counter, stamp);
    }
  }

  /**
   * With at least one file and every format accepted, `readFiles` returns all
   * the lines in file order, cut into chunks with pairwise distinct ids, and
   * counts every file.
   */
  lemma ReadFilesAccepted(files: seq<SourceFile>, chunkSize: int, counter: nat, stats: ProcessingStats, clock: nat -> nat)
    requires |files| > 0 && forall i :: 0 <= i < |files| ==> FormatError(files[i]).None?
    ensures var o := ReadFiles(files, chunkSize, counter, stats, clock);
      && o.chunks.Success?
      && Flatten(o.chunks.value) == LinesFrom(files, 0)
      && (forall i, j :: 0 <= i < j < |o.chunks.value| ==> o.chunks.value[i].chunkId != o.chunks.value[j].chunkId)
      && o.counter == counter + |o.chunks.value|
      && o.stats == stats.(filesProcessed := stats.filesProcessed + |files|)
  {
    ReadFromLines(files, 0, FormatError, chunkSize, counter, stats, ClockStamp(clock));
    ReadFromIds(files, 0, FormatError, chunkSize, counter, stats, ClockStamp(clock));
    ReadFromStats(files, 0, FormatError, chunkSize, counter, stats, ClockStamp(clock));
    var o := ReadFiles(files, chunkSize, counter, stats, clock);
    ClockStampInjective(clock);
    CountedChunkIdsDistinct(o.chunks.value, counter, ClockStamp(clock));
  }

  /**
   * A file that fails its format check aborts `readFiles` with that file's
   * error, after counting only the files before it.
   */
  lemma ReadFilesRejects(files: seq<SourceFile>, chunkSize: int, counter: nat, stats: ProcessingStats, clock: nat -> nat)
    requires FirstBadFile(files, 0, FormatError) < |files|
    ensures var o := ReadFiles(files, chunkSize, counter, stats, clock);
      var bad := FirstBadFile(files, 0, FormatError);
      && o.chunks == Failure(FormatError(files[bad]).value)
      && o.stats == stats.(filesProcessed := stats.filesProcessed + bad)
  {
    ReadFromFails(files, 0, FormatError, chunkSize, counter, stats, ClockStamp(clock));
    ReadFromStats(files, 0, FormatError, chunkSize, counter, stats, ClockStamp(clock));
  }

  /** The format check never reports the missing-files error. */
  lemma FormatErrorIsAboutTheFile(file: SourceFile)
    ensures FormatError(file).Some? ==> !FormatError(file).value.NoValidFiles?
  {
  }

  /**
   * `readFiles` throws exactly when there is no valid file or some file fails
   * its format check, and it throws `NoValidFiles` exactly in the first case.
   */
  lemma ReadFilesFailsIff(files: seq<SourceFile>, chunkSize: int, counter: nat, stats: ProcessingStats, clock: nat -> nat)
    ensures ReadFiles(files, chunkSize, counter, stats, clock).chunks.Failure?
      <==> |files| == 0 || FirstBadFile(files, 0, FormatError) < |files|
    ensures ReadFiles(files, chunkSize, counter, stats, clock).chunks == Failure(NoValidFiles) <==> |files| == 0
  {
    if |files| > 0 {
      var bad := FirstBadFile(files, 0, FormatError);
      if bad < |files| {
        ReadFromFails(files, 0, FormatError, chunkSize, counter, stats, ClockStamp(clock));
        FormatErrorIsAboutTheFile(files[bad]);
      } else {
        ReadFromLines(files, 0, FormatError, chunkSize, counter, stats, ClockStamp(clock));
      }
    }
  }
}
