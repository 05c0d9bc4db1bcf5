/**
 * `ProcessingStats`: four counters shared by the file reader and the chunk
 * workers. The Java class keeps them in atomics; here each update is a total
 * function from one snapshot to the next.
 */
module Stats {

  datatype ProcessingStats = ProcessingStats(
    filesProcessed: int,
    chunksProcessed: int,
    totalRecords: int,
    errorCount: int)

  /** A freshly constructed register: every counter is 0. */
  const INITIAL: ProcessingStats := ProcessingStats(0, 0, 0, 0)

  function IncrementFilesProcessed(s: ProcessingStats): ProcessingStats {
    s.(filesProcessed := s.filesProcessed + 1)
  }

  function IncrementChunksProcessed(s: ProcessingStats): ProcessingStats {
    s.(chunksProcessed := s.chunksProcessed + 1)
  }

  function AddRecords(s: ProcessingStats, count: int): ProcessingStats {
    s.(totalRecords := s.totalRecords + count)
  }

  function IncrementErrorCount(s: ProcessingStats): ProcessingStats {
    s.(errorCount := s.errorCount + 1)
  }

  /** The four ways a caller can change the register. */
  datatype Update = IncFiles | IncChunks | Add(count: int) | IncErrors

  function Apply(s: ProcessingStats, u: Update): ProcessingStats {
    match u
    case IncFiles => IncrementFilesProcessed(s)
    case IncChunks => IncrementChunksProcessed(s)
    case Add(n) => AddRecords(s, n)
    case IncErrors => IncrementErrorCount(s)
  }

  function ApplyAll(s: ProcessingStats, us: seq<Update>): ProcessingStats
    decreases |us|
  {
    if |us| == 0 then s else ApplyAll(Apply(s, us[0]), us[1..])
  }

  /** How many updates of each kind a history holds, and what the adds sum to. */
  function CountFiles(us: seq<Update>): nat
    decreases |us|
  {
    if |us| == 0 then 0 else (if us[0].IncFiles? then 1 else 0) + CountFiles(us[1..])
  }

  function CountChunks(us: seq<Update>): nat
    decreases |us|
  {
    if |us| == 0 then 0 else (if us[0].IncChunks? then 1 else 0) + CountChunks(us[1..])
  }

  function CountErrors(us: seq<Update>): nat
    decreases |us|
  {
    if |us| == 0 then 0 else (if us[0].IncErrors? then 1 else 0) + CountErrors(us[1..])
  }

  function SumAdded(us: seq<Update>): int
    decreases |us|
  {
    if |us| == 0 then 0 else (if us[0].Add? then us[0].count else 0) + SumAdded(us[1..])
  }

  /** After any history, each counter is its start value plus that history's updates to it. */
  lemma {:induction false} ApplyAllCounts(s: ProcessingStats, us: seq<Update>)
    ensures ApplyAll(s, us).filesProcessed == s.filesProcessed + CountFiles(us)
    ensures ApplyAll(s, us).chunksProcessed == s.chunksProcessed + CountChunks(us)
    ensures ApplyAll(s, us).totalRecords == s.totalRecords + SumAdded(us)
    ensures ApplyAll(s, us).errorCount == s.errorCount + CountErrors(us)
    decreases |us|
  {
    if |us| > 0 {
      ApplyAllCounts(Apply(s, us[0]), us[1..]);
    }
  }

  predicate NoNegativeAdds(us: seq<Update>) {
    forall i :: 0 <= i < |us| ==> (us[i].Add? ==> us[i].count >= 0)
  }

  /** With non-negative `addRecords` arguments no counter ever decreases. */
  lemma {:induction false} CountersNeverDecrease(s: ProcessingStats, us: seq<Update>)
    requires NoNegativeAdds(us)
    ensures var t := ApplyAll(s, us);
      && t.filesProcessed >= s.filesProcessed
      && t.chunksProcessed >= s.chunksProcessed
      && t.totalRecords >= s.totalRecords
      && t.errorCount >= s.errorCount
    decreases |us|
  {
    if |us| > 0 {
      CountersNeverDecrease(Apply(s, us[0]), us[1..]);
    }
  }
}
