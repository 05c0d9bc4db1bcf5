/**
 * `DataProcessor`: the worker run for one chunk. It skips blank lines,
 * transforms the others, stamps each result with an id derived from the file,
 * the line number and the raw line, validates the batch and updates the
 * shared counters.
 */
module DataProcessor {
  import opened Wrappers
  import opened JavaStrings
  import opened Chunks
  import opened Records
  import opened Transformations
  import opened Stats

  /** A `ChunkProcessingException`: the chunk's id, a message and an optional cause. */
  datatype ChunkError = ChunkError(chunkId: string, message: string, cause: Option<ChunkError>)

  // ---------------------------------------------------------------------------
  // ids
  // ---------------------------------------------------------------------------

  /** `generateDataId`: `String.format("%s:%d:%s", file, lineNumber, toHexString(line.hashCode()))`. */
  function GenerateDataId(file: string, n: int, line: string): string {
    file + ":" + IntToString(n) + ":" + ToHexString(StringHash(line))
  }

  /** `%d` never produces a colon. */
  lemma NoColonInNumber(n: int)
    ensures ':' !in IntToString(n)
  {
    var s := IntToString(n);
    if n < 0 {
      assert s == "-" + NatToString(-n);
      assert forall i :: 1 <= i < |s| ==> s[i] == NatToString(-n)[i - 1];
    }
  }

  /** Within one file the id determines the line number and the raw line's hash. */
  lemma GenerateDataIdDeterminesNumber(file: string, n1: int, l1: string, n2: int, l2: string)
    requires GenerateDataId(file, n1, l1) == GenerateDataId(file, n2, l2)
    ensures n1 == n2 && StringHash(l1) == StringHash(l2)
  {
    var x, y := IntToString(n1), ToHexString(StringHash(l1));
    var x', y' := IntToString(n2), ToHexString(StringHash(l2));
    NoColonInNumber(n1);
    NoColonInNumber(n2);
    SplitAfterPrefix(file + ":", x, y, x', y', ':');
    IntToStringInjective(n1, n2);
    ToHexStringRoundTrip(StringHash(l1));
    ToHexStringRoundTrip(StringHash(l2));
  }

  /** An id is never blank: it contains a colon. */
  lemma GeneratedIdNotBlank(file: string, n: int, line: string)
    ensures !IsBlank(GenerateDataId(file, n, line))
  {
    var id := GenerateDataId(file, n, line);
    assert id[|file|] == ':';
  }

  // ---------------------------------------------------------------------------
  // processChunk
  // ---------------------------------------------------------------------------

  /**
   * The loop of `processChunk` from line index `i` on, with the current line
   * number `n` and `k` records emitted so far; `clock(k)` is the time the
   * `k`-th record is stamped with. A blank line advances the number; a line
   * whose transformation throws is dropped and does not.
   */
  function ProcessFrom(t: Transformation, file: string, lines: seq<string>, i: nat, n: int, clock: nat -> int, k: nat): seq<ProcessedData>
    requires i <= |lines|
    decreases |lines| - i
  {
    if i == |lines| then []
    else if IsBlank(lines[i]) then ProcessFrom(t, file, lines, i + 1, n + 1, clock, k)
    else
      match t(lines[i], n, file)
      case None => ProcessFrom(t, file, lines, i + 1, n, clock, k)
      case Some(content) =>
        [ProcessedData(GenerateDataId(file, n, lines[i]), content, clock(k))]
          + ProcessFrom(t, file, lines, i + 1, n + 1, clock, k + 1)
  }

  /** `processChunk`: numbering starts at the chunk's first line. */
  function ProcessChunk(chunk: Chunk, t: Transformation, clock: nat -> int): seq<ProcessedData> {
    ProcessFrom(t, chunk.sourceFile, chunk.lines, 0, chunk.startLine, clock, 0)
  }

  /** The indices, from `i` on, of the lines that are not blank, in order. */
  function NonBlankFrom(lines: seq<string>, i: nat): seq<nat>
    requires i <= |lines|
    decreases |lines| - i
  {
    if i == |lines| then []
    else if IsBlank(lines[i]) then NonBlankFrom(lines, i + 1)
    else [i] + NonBlankFrom(lines, i + 1)
  }

  lemma {:induction false} NonBlankFromSpec(lines: seq<string>, i: nat)
    requires i <= |lines|
    ensures var idx := NonBlankFrom(lines, i);
      && (forall j :: 0 <= j < |idx| ==> i <= idx[j] < |lines| && !IsBlank(lines[idx[j]]))
      && (forall j, m :: 0 <= j < m < |idx| ==> idx[j] < idx[m])
      && (forall p :: i <= p < |lines| && !IsBlank(lines[p]) ==> p in idx)
    decreases |lines| - i
  {
    if i < |lines| {
      NonBlankFromSpec(lines, i + 1);
    }
  }

  /** How a record's id is made from its file, line number and raw line; the worker uses `GenerateDataId`. */
  type IdMaker = (string, int, string) -> string

  /** The transformation succeeds on every non-blank line at the number it would get with no failures. */
  ghost predicate NeverFails(t: Transformation, file: string, lines: seq<string>, i: nat, n: int) {
    forall p :: i <= p < |lines| && !IsBlank(lines[p]) ==> t(lines[p], n + (p - i), file).Some?
  }

  /** Record `d` is what line `p`, numbered `number`, turns into when stamped at `time`. */
  ghost predicate OneRecordForLine(d: ProcessedData, t: Transformation, mk: IdMaker, file: string, lines: seq<string>, p: int, number: int, time: int) {
    && 0 <= p < |lines|
    && d.id == mk(file, number, lines[p])
    && t(lines[p], number, file) == Some(d.content)
    && d.timestamp == time
  }

  /**
   * `r` holds one record per index in `idx`, in order: the `j`-th comes from
   * line `idx[j]`, numbered `n + (idx[j] - i)` and stamped `clock(k + j)`.
   */
  ghost predicate RecordsForLines(r: seq<ProcessedData>, idx: seq<nat>, t: Transformation, mk: IdMaker, file: string, lines: seq<string>, i: nat, n: int, clock: nat -> int, k: nat) {
    && |r| == |idx|
    && forall j :: 0 <= j < |r| ==> OneRecordForLine(r[j], t, mk, file, lines, idx[j], n + (idx[j] - i), clock(k + j))
  }

  /**
   * With no failing transformation the worker emits one record per non-blank
   * line, in line order: the line at index `p` is numbered `n + (p - i)`, its
   * content is the transformed line and its id comes from the raw line.
   */
  lemma {:induction false} ProcessFromNoFailures(t: Transformation, file: string, lines: seq<string>, i: nat, n: int, clock: nat -> int, k: nat)
    requires i <= |lines| && NeverFails(t, file, lines, i, n)
    ensures RecordsForLines(ProcessFrom(t, file, lines, i, n, clock, k), NonBlankFrom(lines, i), t, GenerateDataId, file, lines, i, n, clock, k)
    decreases |lines| - i
  {
    if i < |lines| {
      assert NeverFails(t, file, lines, i + 1, n + 1);
      if IsBlank(lines[i]) {
        ProcessFromNoFailures(t, file, lines, i + 1, n + 1, clock, k);
        RecordsForLinesShift(ProcessFrom(t, file, lines, i + 1, n + 1, clock, k), NonBlankFrom(lines, i + 1), t, GenerateDataId, file, lines, i, n, clock, k);
      } else {
        ProcessFromNoFailures(t, file, lines, i + 1, n + 1, clock, k + 1);
        var d := ProcessedData(GenerateDataId(file, n, lines[i]), t(lines[i], n, file).value, clock(k));
        assert ProcessFrom(t, file, lines, i, n, clock, k) == [d] + ProcessFrom(t, file, lines, i + 1, n + 1, clock, k + 1);
        RecordsForLinesCons(d, ProcessFrom(t, file, lines, i + 1, n + 1, clock, k + 1), NonBlankFrom(lines, i + 1), t, GenerateDataId, file, lines, i, n, clock, k);
      }
    }
  }

  /** Skipping a blank line: the same records, counted from one line and one number earlier. */
  lemma RecordsForLinesShift(r: seq<ProcessedData>, idx: seq<nat>, t: Transformation, mk: IdMaker, file: string, lines: seq<string>, i: nat, n: int, clock: nat -> int, k: nat)
    requires RecordsForLines(r, idx, t, mk, file, lines, i + 1, n + 1, clock, k)
    ensures RecordsForLines(r, idx, t, mk, file, lines, i, n, clock, k)
  {
    forall j | 0 <= j < |r|
      ensures OneRecordForLine(r[j], t, mk, file, lines, idx[j], n + (idx[j] - i), clock(k + j))
    {
      assert OneRecordForLine(r[j], t, mk, file, lines, idx[j], n + 1 + (idx[j] - (i + 1)), clock(k + j));
    }
  }

  /** Emitting line `i`'s record in front of the records of the lines after it. */
  lemma RecordsForLinesCons(d: ProcessedData, r: seq<ProcessedData>, idx: seq<nat>, t: Transformation, mk: IdMaker, file: string, lines: seq<string>, i: nat, n: int, clock: nat -> int, k: nat)
    requires OneRecordForLine(d, t, mk, file, lines, i, n, clock(k))
    requires RecordsForLines(r, idx, t, mk, file, lines, i + 1, n + 1, clock, k + 1)
    ensures RecordsForLines([d] + r, [i] + idx, t, mk, file, lines, i, n, clock, k)
  {
    var r', idx' := [d] + r, [i] + idx;
    forall j | 0 <= j < |r'|
      ensures OneRecordForLine(r'[j], t, mk, file, lines, idx'[j], n + (idx'[j] - i), clock(k + j))
    {
      if j > 0 {
        assert r'[j] == r[j - 1] && idx'[j] == idx[j - 1];
        assert OneRecordForLine(r[j - 1], t, mk, file, lines, idx[j - 1], n + 1 + (idx[j - 1] - (i + 1)), clock(k + 1 + (j - 1)));
      }
    }
  }

  /** A chunk whose lines all transform: exactly one record per non-blank line, numbered from the chunk's start. */
  lemma ProcessChunkNoFailures(chunk: Chunk, t: Transformation, clock: nat -> int)
    requires NeverFails(t, chunk.sourceFile, chunk.lines, 0, chunk.startLine)
    ensures var r, idx := ProcessChunk(chunk, t, clock), NonBlankFrom(chunk.lines, 0);
      && |r| == |idx|
      && forall j :: 0 <= j < |r| ==>
        && idx[j] < |chunk.lines|
        && r[j].id == GenerateDataId(chunk.sourceFile, chunk.startLine + idx[j], chunk.lines[idx[j]])
        && t(chunk.lines[idx[j]], chunk.startLine + idx[j], chunk.sourceFile) == Some(r[j].content)
  {
    ProcessFromNoFailures(t, chunk.sourceFile, chunk.lines, 0, chunk.startLine, clock, 0);
  }

  /**
   * For any transformation: the line index and the line number of each
   * emitted record. A ghost companion of `ProcessFrom` with the same recursion.
   */
  ghost function EmittedFrom(t: Transformation, file: string, lines: seq<string>, i: nat, n: int): seq<(nat, int)>
    requires i <= |lines|
    decreases |lines| - i
  {
    if i == |lines| then []
    else if IsBlank(lines[i]) then EmittedFrom(t, file, lines, i + 1, n + 1)
    else if t(lines[i], n, file).None? then EmittedFrom(t, file, lines, i + 1, n)
    else [(i, n)] + EmittedFrom(t, file, lines, i + 1, n + 1)
  }

  /** Line indices and numbers of emitted records both strictly increase, and a number never runs ahead of its line. */
  lemma {:induction false} EmittedFromOrdered(t: Transformation, file: string, lines: seq<string>, i: nat, n: int)
    requires i <= |lines|
    ensures forall j :: 0 <= j < |EmittedFrom(t, file, lines, i, n)| ==>
      && i <= EmittedFrom(t, file, lines, i, n)[j].0 < |lines|
      && n <= EmittedFrom(t, file, lines, i, n)[j].1 <= n + (EmittedFrom(t, file, lines, i, n)[j].0 - i)
    ensures forall j, m :: 0 <= j < m < |EmittedFrom(t, file, lines, i, n)| ==>
      EmittedFrom(t, file, lines, i, n)[j].0 < EmittedFrom(t, file, lines, i, n)[m].0
      && EmittedFrom(t, file, lines, i, n)[j].1 < EmittedFrom(t, file, lines, i, n)[m].1
    decreases |lines| - i
  {
    if i < |lines| {
      var e := EmittedFrom(t, file, lines, i, n);
      if IsBlank(lines[i]) {
        EmittedFromOrdered(t, file, lines, i + 1, n + 1);
      } else if t(lines[i], n, file).None? {
        EmittedFromOrdered(t, file, lines, i + 1, n);
      } else {
        EmittedFromOrdered(t, file, lines, i + 1, n + 1);
        var eRest := EmittedFrom(t, file, lines, i + 1, n + 1);
        assert e == [(i, n)] + eRest;
        forall j | 0 <= j < |e|
          ensures i <= e[j].0 < |lines| && n <= e[j].1 <= n + (e[j].0 - i)
        {
          if j > 0 {
            assert e[j] == eRest[j - 1];
          }
        }
        forall j, m | 0 <= j < m < |e|
          ensures e[j].0 < e[m].0 && e[j].1 < e[m].1
        {
          assert e[m] == eRest[m - 1];
          if j > 0 {
            assert e[j] == eRest[j - 1];
          }
        }
      }
    }
  }

  /**
   * The `j`-th record comes from the line and number listed `j`-th in `e`: its
   * id is made from the raw line and that number, its content is the line
   * transformed at that number.
   */
  ghost predicate IdsFrom(r: seq<ProcessedData>, e: seq<(nat, int)>, t: Transformation, mk: IdMaker, file: string, lines: seq<string>) {
    && |r| == |e|
    && forall j :: 0 <= j < |e| ==>
      && e[j].0 < |lines|
      && r[j].id == mk(file, e[j].1, lines[e[j].0])
      && t(lines[e[j].0], e[j].1, file) == Some(r[j].content)
  }

  /** Each record comes from the line and number `EmittedFrom` lists at its position. */
  lemma {:induction false} ProcessFromIds(t: Transformation, file: string, lines: seq<string>, i: nat, n: int, clock: nat -> int, k: nat)
    requires i <= |lines|
    ensures IdsFrom(ProcessFrom(t, file, lines, i, n, clock, k), EmittedFrom(t, file, lines, i, n), t, GenerateDataId, file, lines)
    decreases |lines| - i
  {
    if i < |lines| {
      if IsBlank(lines[i]) {
        ProcessFromIds(t, file, lines, i + 1, n + 1, clock, k);
      } else if t(lines[i], n, file).None? {
        ProcessFromIds(t, file, lines, i + 1, n, clock, k);
      } else {
        ProcessFromIds(t, file, lines, i + 1, n + 1, clock, k + 1);
        var d := ProcessedData(GenerateDataId(file, n, lines[i]), t(lines[i], n, file).value, clock(k));
        assert ProcessFrom(t, file, lines, i, n, clock, k) == [d] + ProcessFrom(t, file, lines, i + 1, n + 1, clock, k + 1);
        assert EmittedFrom(t, file, lines, i, n) == [(i, n)] + EmittedFrom(t, file, lines, i + 1, n + 1);
        IdsFromCons(d, ProcessFrom(t, file, lines, i + 1, n + 1, clock, k + 1), (i, n), EmittedFrom(t, file, lines, i + 1, n + 1), t, GenerateDataId, file, lines);
      }
    }
  }

  lemma IdsFromCons(d: ProcessedData, r: seq<ProcessedData>, x: (nat, int), e: seq<(nat, int)>, t: Transformation, mk: IdMaker, file: string, lines: seq<string>)
    requires IdsFrom(r, e, t, mk, file, lines)
    requires x.0 < |lines| && d.id == mk(file, x.1, lines[x.0]) && t(lines[x.0], x.1, file) == Some(d.content)
    ensures IdsFrom([d] + r, [x] + e, t, mk, file, lines)
  {
    var r', e' := [d] + r, [x] + e;
    forall j | 0 <= j < |e'|
      ensures e'[j].0 < |lines| && r'[j].id == mk(file, e'[j].1, lines[e'[j].0])
      ensures t(lines[e'[j].0], e'[j].1, file) == Some(r'[j].content)
    {
      if j == 0 {
        assert r'[j] == d && e'[j] == x;
      } else {
        var p := j - 1;
        assert r'[j] == r[p] && e'[j] == e[p];
        assert e[p].0 < |lines| && r[p].id == mk(file, e[p].1, lines[e[p].0]);
        assert t(lines[e[p].0], e[p].1, file) == Some(r[p].content);
      }
    }
  }

  // ---------------------------------------------------------------------------
  // the line number the loop carries
  // ---------------------------------------------------------------------------

  /**
   * The value of `lineNumber` when the loop reaches line `p`, starting at line
   * `i` with number `n`: every line before `p` advances it, except a non-blank
   * line whose transformation throws, which skips the `lineNumber++`.
   */
  ghost function LineNumberAt(t: Transformation, file: string, lines: seq<string>, i: nat, n: int, p: nat): int
    requires i <= p <= |lines|
    decreases p - i
  {
    if i == p then n
    else if !IsBlank(lines[i]) && t(lines[i], n, file).None? then LineNumberAt(t, file, lines, i + 1, n, p)
    else LineNumberAt(t, file, lines, i + 1, n + 1, p)
  }

  /** How many lines from `i` up to `p` are non-blank and have their transformation throw. */
  ghost function DroppedBetween(t: Transformation, file: string, lines: seq<string>, i: nat, n: int, p: nat): nat
    requires i <= p <= |lines|
    decreases p - i
  {
    if i == p then 0
    else if !IsBlank(lines[i]) && t(lines[i], n, file).None? then 1 + DroppedBetween(t, file, lines, i + 1, n, p)
    else DroppedBetween(t, file, lines, i + 1, n + 1, p)
  }

  /** The number at line `p` is its offset from the start, less one per dropped line before it. */
  lemma {:induction false} LineNumberAtCounts(t: Transformation, file: string, lines: seq<string>, i: nat, n: int, p: nat)
    requires i <= p <= |lines|
    ensures LineNumberAt(t, file, lines, i, n, p) == n + (p - i) - DroppedBetween(t, file, lines, i, n, p)
    ensures DroppedBetween(t, file, lines, i, n, p) <= p - i
    decreases p - i
  {
    if i < p {
      if !IsBlank(lines[i]) && t(lines[i], n, file).None? {
        LineNumberAtCounts(t, file, lines, i + 1, n, p);
      } else {
        LineNumberAtCounts(t, file, lines, i + 1, n + 1, p);
      }
    }
  }

  /**
   * `EmittedFrom` lists exactly the lines that yield a record: each listed
   * line is non-blank, carries the number the loop holds there, and transforms
   * without throwing at that number; and every such line is listed.
   */
  lemma {:induction false} EmittedFromExactly(t: Transformation, file: string, lines: seq<string>, i: nat, n: int)
    requires i <= |lines|
    ensures forall j :: 0 <= j < |EmittedFrom(t, file, lines, i, n)| ==>
      var p := EmittedFrom(t, file, lines, i, n)[j].0;
      && i <= p < |lines| && !IsBlank(lines[p])
      && EmittedFrom(t, file, lines, i, n)[j].1 == LineNumberAt(t, file, lines, i, n, p)
      && t(lines[p], LineNumberAt(t, file, lines, i, n, p), file).Some?
    ensures forall p :: i <= p < |lines| && !IsBlank(lines[p]) && t(lines[p], LineNumberAt(t, file, lines, i, n, p), file).Some? ==>
      exists j :: 0 <= j < |EmittedFrom(t, file, lines, i, n)| && EmittedFrom(t, file, lines, i, n)[j].0 == p
    decreases |lines| - i
  {
    if i < |lines| {
      var e := EmittedFrom(t, file, lines, i, n);
      var n' := if !IsBlank(lines[i]) && t(lines[i], n, file).None? then n else n + 1;
      var rest := EmittedFrom(t, file, lines, i + 1, n');
      EmittedFromExactly(t, file, lines, i + 1, n');
      assert forall p :: i < p <= |lines| ==> LineNumberAt(t, file, lines, i, n, p) == LineNumberAt(t, file, lines, i + 1, n', p);
      if IsBlank(lines[i]) || t(lines[i], n, file).None? {
        assert e == rest;
      } else {
        assert e == [(i, n)] + rest;
        forall j | 0 < j < |e|
          ensures e[j] == rest[j - 1]
        {
        }
        forall p | i < p < |lines| && !IsBlank(lines[p]) && t(lines[p], LineNumberAt(t, file, lines, i, n, p), file).Some?
          ensures exists j :: 0 <= j < |e| && e[j].0 == p
        {
          var j :| 0 <= j < |rest| && rest[j].0 == p;
          assert e[j + 1].0 == p;
        }
        assert e[0].0 == i;
      }
    }
  }

  /**
   * `processChunk` over a whole chunk, for any transformation: record `j`
   * comes from a non-blank line `p` of the chunk; its number is
   * `startLine + p` less the earlier non-blank lines whose transformation
   * threw; its id and content are made from that line at that number. Every
   * non-blank line that transforms at its number yields a record.
   */
  lemma ProcessChunkNumbers(chunk: Chunk, t: Transformation, clock: nat -> int)
    ensures |ProcessChunk(chunk, t, clock)| == |EmittedFrom(t, chunk.sourceFile, chunk.lines, 0, chunk.startLine)|
    ensures forall j :: 0 <= j < |ProcessChunk(chunk, t, clock)| ==>
      var p := EmittedFrom(t, chunk.sourceFile, chunk.lines, 0, chunk.startLine)[j].0;
      && 0 <= p < |chunk.lines| && !IsBlank(chunk.lines[p])
      && LineNumberAt(t, chunk.sourceFile, chunk.lines, 0, chunk.startLine, p)
         == chunk.startLine + p - DroppedBetween(t, chunk.sourceFile, chunk.lines, 0, chunk.startLine, p)
      && ProcessChunk(chunk, t, clock)[j].id
         == GenerateDataId(chunk.sourceFile, LineNumberAt(t, chunk.sourceFile, chunk.lines, 0, chunk.startLine, p), chunk.lines[p])
      && t(chunk.lines[p], LineNumberAt(t, chunk.sourceFile, chunk.lines, 0, chunk.startLine, p), chunk.sourceFile)
         == Some(ProcessChunk(chunk, t, clock)[j].content)
    ensures forall p ::
      (0 <= p < |chunk.lines| && !IsBlank(chunk.lines[p])
       && t(chunk.lines[p], LineNumberAt(t, chunk.sourceFile, chunk.lines, 0, chunk.startLine, p), chunk.sourceFile).Some?) ==>
      exists j :: 0 <= j < |EmittedFrom(t, chunk.sourceFile, chunk.lines, 0, chunk.startLine)|
        && EmittedFrom(t, chunk.sourceFile, chunk.lines, 0, chunk.startLine)[j].0 == p
  {
    var file, lines, start := chunk.sourceFile, chunk.lines, chunk.startLine;
    ProcessFromIds(t, file, lines, 0, start, clock, 0);
    EmittedFromExactly(t, file, lines, 0, start);
    var e := EmittedFrom(t, file, lines, 0, start);
    forall j | 0 <= j < |e|
      ensures LineNumberAt(t, file, lines, 0, start, e[j].0) == start + e[j].0 - DroppedBetween(t, file, lines, 0, start, e[j].0)
    {
      LineNumberAtCounts(t, file, lines, 0, start, e[j].0);
    }
  }

  /** Ids within one chunk are pairwise distinct, whatever the transformation. */
  lemma ProcessChunkIdsDistinct(chunk: Chunk, t: Transformation, clock: nat -> int)
    ensures var r := ProcessChunk(chunk, t, clock);
      forall j, m :: 0 <= j < m < |r| ==> r[j].id != r[m].id
  {
    var file, lines := chunk.sourceFile, chunk.lines;
    ProcessFromIds(t, file, lines, 0, chunk.startLine, clock, 0);
    EmittedFromOrdered(t, file, lines, 0, chunk.startLine);
    var r := ProcessChunk(chunk, t, clock);
    var e := EmittedFrom(t, file, lines, 0, chunk.startLine);
    forall j, m | 0 <= j < m < |r|
      ensures r[j].id != r[m].id
    {
      if r[j].id == r[m].id {
        GenerateDataIdDeterminesNumber(file, e[j].1, lines[e[j].0], e[m].1, lines[e[m].0]);
      }
    }
  }

  // ---------------------------------------------------------------------------
  // validateResults and call
  // ---------------------------------------------------------------------------

  /** `validateResults` from index `i` on: the first record with a blank id is rejected. */
  function ValidateFrom(chunkId: string, batch: seq<ProcessedData>, i: nat): Option<ChunkError>
    requires i <= |batch|
    decreases |batch| - i
  {
    if i == |batch| then None
    else if IsBlank(batch[i].id) then Some(ChunkError(chunkId, "Processed data must have a valid ID", None))
    else ValidateFrom(chunkId, batch, i + 1)
  }

  function ValidateResults(chunkId: string, batch: seq<ProcessedData>): Option<ChunkError> {
    ValidateFrom(chunkId, batch, 0)
  }

  /** A batch passes exactly when no id is blank; a rejection names the chunk. */
  lemma {:induction false} ValidateFromSpec(chunkId: string, batch: seq<ProcessedData>, i: nat)
    requires i <= |batch|
    ensures var v := ValidateFrom(chunkId, batch, i);
      && (v.None? <==> forall j :: i <= j < |batch| ==> !IsBlank(batch[j].id))
      && (v.Some? ==> v.value.chunkId == chunkId)
    decreases |batch| - i
  {
    if i < |batch| {
      ValidateFromSpec(chunkId, batch, i + 1);
    }
  }

  /** Every batch `processChunk` produces passes validation. */
  lemma ProcessChunkValidates(chunk: Chunk, t: Transformation, clock: nat -> int)
    ensures ValidateResults(chunk.chunkId, ProcessChunk(chunk, t, clock)).None?
  {
    var file, lines := chunk.sourceFile, chunk.lines;
    var r := ProcessChunk(chunk, t, clock);
    ProcessFromIds(t, file, lines, 0, chunk.startLine, clock, 0);
    var e := EmittedFrom(t, file, lines, 0, chunk.startLine);
    forall j | 0 <= j < |r|
      ensures !IsBlank(r[j].id)
    {
      GeneratedIdNotBlank(file, e[j].1, lines[e[j].0]);
    }
    ValidateFromSpec(chunk.chunkId, r, 0);
  }

  /** What `call` returns or throws, and the counters it leaves. */
  datatype CallOutcome = CallOutcome(result: Result<seq<ProcessedData>, ChunkError>, stats: ProcessingStats)

  /** The end of `call`: count a chunk and its records on success, an error otherwise. */
  function Finish(chunk: Chunk, attempt: Result<seq<ProcessedData>, ChunkError>, stats: ProcessingStats): CallOutcome {
    match attempt
    case Success(batch) => CallOutcome(Success(batch), AddRecords(IncrementChunksProcessed(stats), |batch|))
    case Failure(e) => CallOutcome(Failure(ChunkError(chunk.chunkId, "Failed to process chunk", Some(e))), IncrementErrorCount(stats))
  }

  /** `call`: process, validate, then record the outcome. */
  function Call(chunk: Chunk, t: Transformation, clock: nat -> int, stats: ProcessingStats): CallOutcome {
    var batch := ProcessChunk(chunk, t, clock);
    match ValidateResults(chunk.chunkId, batch)
    case Some(e) => Finish(chunk, Failure(e), stats)
    case None => Finish(chunk, Success(batch), stats)
  }

  /**
   * Every call is counted exactly once: as a processed chunk when it returns,
   * as an error when it throws. The record total grows by exactly the size of
   * the batch returned, and a thrown error names the chunk and wraps the cause.
   */
  lemma FinishCountsOnce(chunk: Chunk, attempt: Result<seq<ProcessedData>, ChunkError>, stats: ProcessingStats)
    ensures Finish(chunk, attempt, stats).result.Success? <==> attempt.Success?
    ensures Finish(chunk, attempt, stats).stats.chunksProcessed + Finish(chunk, attempt, stats).stats.errorCount
      == stats.chunksProcessed + stats.errorCount + 1
    ensures Finish(chunk, attempt, stats).stats.totalRecords - stats.totalRecords
      == (if attempt.Success? then |Finish(chunk, attempt, stats).result.value| else 0)
    ensures Finish(chunk, attempt, stats).stats.filesProcessed == stats.filesProcessed
    ensures attempt.Success? ==> Finish(chunk, attempt, stats).stats.errorCount == stats.errorCount
    ensures attempt.Failure? ==> Finish(chunk, attempt, stats).stats.chunksProcessed == stats.chunksProcessed
    ensures attempt.Success? ==> Finish(chunk, attempt, stats).result == attempt
    ensures attempt.Failure? ==>
      && Finish(chunk, attempt, stats).result.error.chunkId == chunk.chunkId
      && Finish(chunk, attempt, stats).result.error.cause == Some(attempt.error)
  {
  }

  /** Since every batch validates, `call` always returns the processed batch and counts it. */
  lemma CallSucceeds(chunk: Chunk, t: Transformation, clock: nat -> int, stats: ProcessingStats)
    ensures var o, batch := Call(chunk, t, clock, stats), ProcessChunk(chunk, t, clock);
      && o.result == Success(batch)
      && o.stats == ProcessingStats(stats.filesProcessed, stats.chunksProcessed + 1,
                                    stats.totalRecords + |batch|, stats.errorCount)
  {
    ProcessChunkValidates(chunk, t, clock);
  }
}
