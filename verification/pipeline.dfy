/**
 * `ProcessingPipeline.processChunks`: submit one worker per chunk, then wait
 * on the handles in submission order, merging every batch that arrives. What
 * a wait yields (a batch, the worker's failure, a timeout or an interrupt) is
 * decided by the executor, so it is an input here.
 */
module Pipeline {
  import opened Wrappers
  import opened Chunks
  import opened Records
  import opened Transformations
  import opened Stats
  import opened DataProcessor
  import opened ResultAggregator

  // ---------------------------------------------------------------------------
  // submission: one worker per chunk, in chunk order
  // ---------------------------------------------------------------------------

  /** What the workers returned, in chunk order, and the shared counters they leave. */
  datatype Workers = Workers(results: seq<Result<seq<ProcessedData>, ChunkError>>, stats: ProcessingStats)

  /**
   * The workers for `chunks[i..]`, each run once in order on the counters the
   * previous one left; `clocks(c)` is the clock worker `c` reads.
   */
  function RunWorkers(chunks: seq<Chunk>, i: nat, t: Transformation, clocks: nat -> nat -> int, stats: ProcessingStats): (w: Workers)
    requires i <= |chunks|
    ensures |w.results| == |chunks| - i
    decreases |chunks| - i
  {
    if i == |chunks| then Workers([], stats)
    else
      var o := Call(chunks[i], t, clocks(i), stats);
      var rest := RunWorkers(chunks, i + 1, t, clocks, o.stats);
      Workers([o.result] + rest.results, rest.stats)
  }

  /** The number of records the workers for `chunks[i..]` produce. */
  function RecordsFrom(chunks: seq<Chunk>, i: nat, t: Transformation, clocks: nat -> nat -> int): nat
    requires i <= |chunks|
    decreases |chunks| - i
  {
    if i == |chunks| then 0
    else |ProcessChunk(chunks[i], t, clocks(i))| + RecordsFrom(chunks, i + 1, t, clocks)
  }

  /**
   * Exactly one worker per chunk, in chunk order, and each returns its chunk's
   * batch; together they count every chunk and every record, and no error or
   * file.
   */
  lemma RunWorkersOnePerChunk(chunks: seq<Chunk>, i: nat, t: Transformation, clocks: nat -> nat -> int, stats: ProcessingStats)
    requires i <= |chunks|
    ensures |RunWorkers(chunks, i, t, clocks, stats).results| == |chunks| - i
    ensures forall j :: 0 <= j < |RunWorkers(chunks, i, t, clocks, stats).results| ==>
      RunWorkers(chunks, i, t, clocks, stats).results[j] == Success(ProcessChunk(chunks[i + j], t, clocks(i + j)))
    ensures RunWorkers(chunks, i, t, clocks, stats).stats == ProcessingStats(
      stats.filesProcessed,
      stats.chunksProcessed + (|chunks| - i),
      stats.totalRecords + RecordsFrom(chunks, i, t, clocks),
      stats.errorCount)
  {
    RunWorkersResults(chunks, i, t, clocks, stats);
    RunWorkersStats(chunks, i, t, clocks, stats);
  }

  lemma {:induction false} RunWorkersResults(chunks: seq<Chunk>, i: nat, t: Transformation, clocks: nat -> nat -> int, stats: ProcessingStats)
    requires i <= |chunks|
    ensures forall j :: 0 <= j < |RunWorkers(chunks, i, t, clocks, stats).results| ==>
      RunWorkers(chunks, i, t, clocks, stats).results[j] == Success(ProcessChunk(chunks[i + j], t, clocks(i + j)))
    decreases |chunks| - i
  {
    if i < |chunks| {
      var o := Call(chunks[i], t, clocks(i), stats);
      CallSucceeds(chunks[i], t, clocks(i), stats);
      RunWorkersResults(chunks, i + 1, t, clocks, o.stats);
      var w, rest := RunWorkers(chunks, i, t, clocks, stats), RunWorkers(chunks, i + 1, t, clocks, o.stats);
      var batch := (c: nat) => if c < |chunks| then Success(ProcessChunk(chunks[c], t, clocks(c))) else Success([]);
      ConsIndexed(w.results, o.result, rest.results, batch, i);
    }
  }

  lemma {:induction false} RunWorkersStats(chunks: seq<Chunk>, i: nat, t: Transformation, clocks: nat -> nat -> int, stats: ProcessingStats)
    requires i <= |chunks|
    ensures RunWorkers(chunks, i, t, clocks, stats).stats == ProcessingStats(
      stats.filesProcessed,
      stats.chunksProcessed + (|chunks| - i),
      stats.totalRecords + RecordsFrom(chunks, i, t, clocks),
      stats.errorCount)
    decreases |chunks| - i
  {
    if i < |chunks| {
      var o := Call(chunks[i], t, clocks(i), stats);
      CallSucceeds(chunks[i], t, clocks(i), stats);
      RunWorkersStats(chunks, i + 1, t, clocks, o.stats);
    }
  }

  /** Prepending the value at position `i` to the values from `i + 1` on gives the values from `i` on. */
  lemma ConsIndexed<T>(w: seq<T>, x: T, rest: seq<T>, f: nat -> T, i: nat)
    requires w == [x] + rest && x == f(i)
    requires forall j :: 0 <= j < |rest| ==> rest[j] == f(i + 1 + j)
    ensures forall j :: 0 <= j < |w| ==> w[j] == f(i + j)
  {
    forall j | 0 < j < |w|
      ensures w[j] == f(i + j)
    {
      assert w[j] == rest[j - 1];
    }
  }

  // ---------------------------------------------------------------------------
  // waiting on the handles
  // ---------------------------------------------------------------------------

  /** What `future.get` does: return a batch, throw the worker's failure, time out, or be interrupted. */
  datatype Outcome = Done(batch: seq<ProcessedData>) | Failed(error: ChunkError) | TimedOut | Interrupted

  /** What the executor lets a wait do. */
  datatype Wait = Completes | TimesOut | Interrupts

  /** A wait that completes yields the worker's result; the others do not see it. */
  function Observe(result: Result<seq<ProcessedData>, ChunkError>, wait: Wait): Outcome {
    match wait
    case TimesOut => TimedOut
    case Interrupts => Interrupted
    case Completes =>
      match result
      case Success(batch) => Done(batch)
      case Failure(e) => Failed(e)
  }

  /** The handle outcomes, one per submitted worker. */
  function ObserveAll(results: seq<Result<seq<ProcessedData>, ChunkError>>, waits: seq<Wait>): (os: seq<Outcome>)
    requires |waits| == |results|
    ensures |os| == |results|
    ensures forall j :: 0 <= j < |os| ==> os[j] == Observe(results[j], waits[j])
  {
    seq(|results|, j requires 0 <= j < |results| => Observe(results[j], waits[j]))
  }

  /** The position of the first interrupted wait at or after `i`, or the end. */
  function FirstInterrupt(os: seq<Outcome>, i: nat): (n: nat)
    requires i <= |os|
    ensures i <= n <= |os|
    ensures n < |os| ==> os[n].Interrupted?
    ensures forall j :: i <= j < n ==> !os[j].Interrupted?
    decreases |os| - i
  {
    if i == |os| then i
    else if os[i].Interrupted? then i
    else FirstInterrupt(os, i + 1)
  }

  /** The batches of the completed waits, in order, including empty ones. */
  function DoneBatches(os: seq<Outcome>): seq<seq<ProcessedData>>
    decreases |os|
  {
    if |os| == 0 then []
    else
      var last := os[|os| - 1];
      DoneBatches(os[..|os| - 1]) + (if last.Done? then [last.batch] else [])
  }

  /** The positions of the waits that timed out, in order. */
  function TimedOutIndices(os: seq<Outcome>): seq<nat>
    decreases |os|
  {
    if |os| == 0 then []
    else
      var last := |os| - 1;
      TimedOutIndices(os[..last]) + (if os[last].TimedOut? then [last] else [])
  }

  /**
   * What the collection loop leaves behind: the returned list, the aggregator,
   * the number of completed waits and the positions of the cancelled handles.
   */
  datatype Collected = Collected(allResults: seq<ProcessedData>, aggregator: Aggregator, completed: nat, cancelled: seq<nat>)

  /**
   * The reference for the collection loop: everything the waits before the
   * first interrupt yield — their batches concatenated and merged, how many
   * completed, and the positions that timed out.
   */
  function Collect(os: seq<Outcome>, agg: Aggregator): (c: Collected)
    ensures c.completed <= |os|
  {
    var seen := os[..FirstInterrupt(os, 0)];
    DoneBatchesAtMost(seen);
    Collected(Concat(DoneBatches(seen)), MergeAll(agg, DoneBatches(seen)), |DoneBatches(seen)|, TimedOutIndices(seen))
  }

  /**
   * The collection loop: waits in submission order; a batch is merged into the
   * aggregator and appended to the result; a failure is skipped; a timeout
   * cancels its handle; an interrupt ends the loop.
   */
  method ProcessChunks(os: seq<Outcome>, agg: Aggregator) returns (c: Collected)
    ensures c == Collect(os, agg)
    ensures c.aggregator.allResults == agg.allResults + c.allResults
  {
    var allResults, aggOut, completed, cancelled := [], agg, 0, [];
    var i := 0;
    while i < |os|
      invariant i <= |os|
      invariant forall j :: 0 <= j < i ==> !os[j].Interrupted?
      invariant allResults == Concat(DoneBatches(os[..i]))
      invariant aggOut == MergeAll(agg, DoneBatches(os[..i]))
      invariant completed == |DoneBatches(os[..i])| <= i
      invariant cancelled == TimedOutIndices(os[..i])
      decreases |os| - i
    {
      if os[i].Interrupted? {
        break;
      }
      PrefixStep(os, i);
      match os[i] {
        case Done(batch) =>
          MergeAllSnoc(agg, DoneBatches(os[..i]), batch);
          ConcatSnoc(DoneBatches(os[..i]), batch);
          aggOut := Merge(aggOut, batch);
          allResults := allResults + batch;
          completed := completed + 1;
        case Failed(_) =>
        case TimedOut =>
          cancelled := cancelled + [i];
      }
      i := i + 1;
    }
    FirstInterruptUnique(os, i);
    MergeAllTotals(agg, DoneBatches(os[..i]));
    c := Collected(allResults, aggOut, completed, cancelled);
  }

  // ---------------------------------------------------------------------------
  // what the loop collects
  // ---------------------------------------------------------------------------

  /** One more wait extends the collected batches and the cancelled positions by its own share. */
  lemma PrefixStep(os: seq<Outcome>, i: nat)
    requires i < |os|
    ensures os[i].Done? ==> DoneBatches(os[..i + 1]) == DoneBatches(os[..i]) + [os[i].batch]
    ensures !os[i].Done? ==> DoneBatches(os[..i + 1]) == DoneBatches(os[..i])
    ensures os[i].TimedOut? ==> TimedOutIndices(os[..i + 1]) == TimedOutIndices(os[..i]) + [i]
    ensures !os[i].TimedOut? ==> TimedOutIndices(os[..i + 1]) == TimedOutIndices(os[..i])
  {
    assert os[..i + 1][..i] == os[..i];
    assert DoneBatches(os[..i]) + [] == DoneBatches(os[..i]);
    assert TimedOutIndices(os[..i]) + [] == TimedOutIndices(os[..i]);
  }

  /** No more batches than waits. */
  lemma {:induction false} DoneBatchesAtMost(os: seq<Outcome>)
    ensures |DoneBatches(os)| <= |os|
    decreases |os|
  {
    if |os| > 0 {
      DoneBatchesAtMost(os[..|os| - 1]);
    }
  }

  lemma {:induction false} DoneBatchesAppend(a: seq<Outcome>, b: seq<Outcome>)
    ensures DoneBatches(a + b) == DoneBatches(a) + DoneBatches(b)
    decreases |b|
  {
    if |b| == 0 {
      assert a + b == a;
    } else {
      var init := b[..|b| - 1];
      DoneBatchesAppend(a, init);
      assert (a + b)[..|a + b| - 1] == a + init;
    }
  }

  /** `FirstInterrupt` from the start is the one position the first interrupt can be at. */
  lemma FirstInterruptUnique(os: seq<Outcome>, n: nat)
    requires n <= |os| && (n < |os| ==> os[n].Interrupted?)
    requires forall j :: 0 <= j < n ==> !os[j].Interrupted?
    ensures FirstInterrupt(os, 0) == n
  {
  }

  /** A failed or timed-out wait contributes no batch and does not stop the loop. */
  lemma SkippedWaitContributesNothing(p: seq<Outcome>, o: Outcome, q: seq<Outcome>)
    requires o.Failed? || o.TimedOut?
    requires forall j :: 0 <= j < |p| ==> !p[j].Interrupted?
    ensures DoneBatches(p + [o] + q) == DoneBatches(p + q)
    ensures FirstInterrupt(p + [o] + q, 0) == FirstInterrupt(p + q, 0) + 1
  {
    SkippedWaitNoBatch(p, o, q);
    SkippedWaitShiftsInterrupt(p, o, q);
  }

  lemma SkippedWaitNoBatch(p: seq<Outcome>, o: Outcome, q: seq<Outcome>)
    requires !o.Done?
    ensures DoneBatches(p + [o] + q) == DoneBatches(p + q)
  {
    DoneBatchesAppend(p + [o], q);
    DoneBatchesAppend(p, [o]);
    DoneBatchesAppend(p, q);
    assert DoneBatches([o]) == DoneBatches([]) + [] by {
      assert [o][..0] == [];
    }
  }

  lemma SkippedWaitShiftsInterrupt(p: seq<Outcome>, o: Outcome, q: seq<Outcome>)
    requires !o.Interrupted?
    requires forall j :: 0 <= j < |p| ==> !p[j].Interrupted?
    ensures FirstInterrupt(p + [o] + q, 0) == FirstInterrupt(p + q, 0) + 1
  {
    var os, rs := p + [o] + q, p + q;
    var m := FirstInterrupt(rs, 0);
    forall j | 0 <= j < |p|
      ensures !rs[j].Interrupted?
    {
      assert rs[j] == p[j];
    }
    assert m >= |p|;
    forall j | 0 <= j < m + 1
      ensures !os[j].Interrupted?
    {
      if j < |p| {
        assert os[j] == p[j];
      } else if j > |p| {
        assert os[j] == rs[j - 1];
      }
    }
    if m < |rs| {
      assert os[m + 1] == rs[m];
    }
    FirstInterruptUnique(os, m + 1);
  }

  /**
   * An interrupt ends the loop: what was collected before it is kept, and the
   * handles after it are never read.
   */
  lemma InterruptEndsCollection(p: seq<Outcome>, q: seq<Outcome>)
    requires forall j :: 0 <= j < |p| ==> !p[j].Interrupted?
    ensures FirstInterrupt(p + [Interrupted] + q, 0) == |p|
    ensures (p + [Interrupted] + q)[..|p|] == p
  {
    var os := p + [Interrupted] + q;
    assert os[|p|] == Interrupted;
    forall j | 0 <= j < |p|
      ensures !os[j].Interrupted?
    {
      assert os[j] == p[j];
    }
    FirstInterruptUnique(os, |p|);
  }

  /** Exactly the timed-out positions are cancelled, in ascending order. */
  lemma {:induction false} TimedOutIndicesSpec(os: seq<Outcome>)
    ensures forall k: nat :: k in TimedOutIndices(os) <==> k < |os| && os[k].TimedOut?
    ensures forall j, m :: 0 <= j < m < |TimedOutIndices(os)| ==> TimedOutIndices(os)[j] < TimedOutIndices(os)[m]
    decreases |os|
  {
    if |os| > 0 {
      var last := |os| - 1;
      var init := os[..last];
      TimedOutIndicesSpec(init);
      assert forall k :: 0 <= k < last ==> init[k] == os[k];
      var r, rInit := TimedOutIndices(os), TimedOutIndices(init);
      assert r == rInit + (if os[last].TimedOut? then [last] else []);
      forall j, m | 0 <= j < m < |r|
        ensures r[j] < r[m]
      {
        if m >= |rInit| {
          assert r[j] == rInit[j] && rInit[j] in rInit;
        }
      }
    }
  }

  /** When every wait completes with a batch, each batch is collected, in order. */
  lemma {:induction false} AllDoneCollected(os: seq<Outcome>)
    requires forall j :: 0 <= j < |os| ==> os[j].Done?
    ensures |DoneBatches(os)| == |os|
    ensures forall j :: 0 <= j < |os| ==> DoneBatches(os)[j] == os[j].batch
    decreases |os|
  {
    if |os| > 0 {
      var init := os[..|os| - 1];
      AllDoneCollected(init);
      assert DoneBatches(os) == DoneBatches(init) + [os[|os| - 1].batch];
    }
  }

  /** Batches listed chunk by chunk hold as many records as the workers produced. */
  lemma {:induction false} BatchesSize(bs: seq<seq<ProcessedData>>, chunks: seq<Chunk>, i: nat, t: Transformation, clocks: nat -> nat -> int)
    requires i <= |chunks| && |bs| == |chunks| - i
    requires forall j :: 0 <= j < |bs| ==> bs[j] == ProcessChunk(chunks[i + j], t, clocks(i + j))
    ensures TotalSize(bs) == RecordsFrom(chunks, i, t, clocks)
    decreases |bs|
  {
    if |bs| > 0 {
      var rest := bs[1..];
      assert forall j :: 0 <= j < |rest| ==> rest[j] == bs[j + 1];
      BatchesSize(rest, chunks, i + 1, t, clocks);
    }
  }

  /** With every worker successful and every wait completing, each handle yields its worker's batch. */
  lemma ObserveAllCompletes(results: seq<Result<seq<ProcessedData>, ChunkError>>, waits: seq<Wait>)
    requires |waits| == |results|
    requires forall j :: 0 <= j < |waits| ==> waits[j] == Completes && results[j].Success?
    ensures forall j :: 0 <= j < |results| ==> ObserveAll(results, waits)[j] == Done(results[j].value)
  {
  }

  /** Handles that all yield a batch: the loop runs to the end and collects every batch, in order. */
  lemma CollectAllDone(os: seq<Outcome>, bs: seq<seq<ProcessedData>>)
    requires |os| == |bs|
    requires forall j :: 0 <= j < |os| ==> os[j] == Done(bs[j])
    ensures FirstInterrupt(os, 0) == |os|
    ensures DoneBatches(os) == bs
  {
    FirstInterruptUnique(os, |os|);
    AllDoneCollected(os);
  }

  /**
   * When no wait times out or is interrupted, every chunk's batch is collected
   * in chunk order: the loop completes every handle, merges every batch, and
   * its record total agrees with the records the workers counted.
   */
  lemma AllCompleteCollectsEverything(chunks: seq<Chunk>, t: Transformation, clocks: nat -> nat -> int, stats: ProcessingStats, waits: seq<Wait>)
    requires |waits| == |chunks|
    requires forall j :: 0 <= j < |waits| ==> waits[j] == Completes
    ensures FirstInterrupt(ObserveAll(RunWorkers(chunks, 0, t, clocks, stats).results, waits), 0) == |chunks|
    ensures |DoneBatches(ObserveAll(RunWorkers(chunks, 0, t, clocks, stats).results, waits))| == |chunks|
    ensures forall j :: 0 <= j < |chunks| ==>
      DoneBatches(ObserveAll(RunWorkers(chunks, 0, t, clocks, stats).results, waits))[j] == ProcessChunk(chunks[j], t, clocks(j))
    ensures |Concat(DoneBatches(ObserveAll(RunWorkers(chunks, 0, t, clocks, stats).results, waits)))|
      == RunWorkers(chunks, 0, t, clocks, stats).stats.totalRecords - stats.totalRecords
  {
    var w := RunWorkers(chunks, 0, t, clocks, stats);
    RunWorkersOnePerChunk(chunks, 0, t, clocks, stats);
    ObserveAllCompletes(w.results, waits);
    var bs := seq(|chunks|, j requires 0 <= j < |chunks| => w.results[j].value);
    CollectAllDone(ObserveAll(w.results, waits), bs);
    BatchesSize(bs, chunks, 0, t, clocks);
    ConcatSize(bs);
  }
}
