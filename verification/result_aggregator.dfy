/**
 * `ResultAggregator`: the accumulated records of all merged batches, the
 * number of non-empty merges, and the two switches that shape the final
 * result (drop repeated ids, sort by id).
 */
module ResultAggregator {
  import opened JavaStrings
  import opened Records
  import opened DuplicateRemover
  import opened DataSorter

  /** The aggregator's state; the shared `ProcessingStats` it is handed is never touched, so it is not kept. */
  datatype Aggregator = Aggregator(
    allResults: seq<ProcessedData>,
    processedTasks: nat,
    removeDuplicates: bool,
    sortData: bool)

  /** The constructor: no records, no tasks. */
  function NewAggregator(removeDuplicates: bool, sortData: bool): (a: Aggregator)
    ensures a.allResults == [] && a.processedTasks == 0
    ensures a.removeDuplicates == removeDuplicates && a.sortData == sortData
  {
    Aggregator([], 0, removeDuplicates, sortData)
  }

  // ---------------------------------------------------------------------------
  // mergeResults and clear
  // ---------------------------------------------------------------------------

  /**
   * `mergeResults`: an empty batch changes nothing; otherwise the batch is
   * appended after the records already held and one more task is counted.
   */
  function Merge(a: Aggregator, batch: seq<ProcessedData>): (r: Aggregator)
    ensures |batch| == 0 ==> r == a
    ensures |batch| > 0 ==>
      && |r.allResults| == |a.allResults| + |batch|
      && r.allResults[..|a.allResults|] == a.allResults
      && r.allResults[|a.allResults|..] == batch
      && r.processedTasks == a.processedTasks + 1
    ensures r.removeDuplicates == a.removeDuplicates && r.sortData == a.sortData
  {
    if |batch| == 0 then a
    else a.(allResults := a.allResults + batch, processedTasks := a.processedTasks + 1)
  }

  /** `clear`: no records and no tasks; the switches stay. */
  function Clear(a: Aggregator): (r: Aggregator)
    ensures r == NewAggregator(a.removeDuplicates, a.sortData)
  {
    a.(allResults := [], processedTasks := 0)
  }

  /** Merging several batches in turn. */
  function MergeAll(a: Aggregator, batches: seq<seq<ProcessedData>>): Aggregator
    decreases |batches|
  {
    if |batches| == 0 then a else MergeAll(Merge(a, batches[0]), batches[1..])
  }

  /** The batches one after the other. */
  function Concat(batches: seq<seq<ProcessedData>>): seq<ProcessedData>
    decreases |batches|
  {
    if |batches| == 0 then [] else batches[0] + Concat(batches[1..])
  }

  /** The sum of the batches' sizes. */
  function TotalSize(batches: seq<seq<ProcessedData>>): nat
    decreases |batches|
  {
    if |batches| == 0 then 0 else |batches[0]| + TotalSize(batches[1..])
  }

  /** How many of the batches are non-empty. */
  function NonEmptyCount(batches: seq<seq<ProcessedData>>): nat
    decreases |batches|
  {
    if |batches| == 0 then 0 else (if |batches[0]| > 0 then 1 else 0) + NonEmptyCount(batches[1..])
  }

  lemma {:induction false} ConcatSize(batches: seq<seq<ProcessedData>>)
    ensures |Concat(batches)| == TotalSize(batches)
    decreases |batches|
  {
    if |batches| > 0 {
      ConcatSize(batches[1..]);
    }
  }

  /**
   * After a run of merges the records are the old ones followed by every
   * batch in order, the record count grew by the sum of the batch sizes, and
   * the task count by the number of non-empty batches.
   */
  lemma {:induction false} MergeAllTotals(a: Aggregator, batches: seq<seq<ProcessedData>>)
    ensures MergeAll(a, batches).allResults == a.allResults + Concat(batches)
    ensures |MergeAll(a, batches).allResults| == |a.allResults| + TotalSize(batches)
    ensures MergeAll(a, batches).processedTasks == a.processedTasks + NonEmptyCount(batches)
    ensures MergeAll(a, batches).removeDuplicates == a.removeDuplicates
    ensures MergeAll(a, batches).sortData == a.sortData
    decreases |batches|
  {
    ConcatSize(batches);
    if |batches| > 0 {
      var b := Merge(a, batches[0]);
      MergeAllTotals(b, batches[1..]);
      assert b.allResults == a.allResults + batches[0];
      assert a.allResults + batches[0] + Concat(batches[1..]) == a.allResults + Concat(batches);
    }
  }

  lemma {:induction false} ConcatSnoc(batches: seq<seq<ProcessedData>>, b: seq<ProcessedData>)
    ensures Concat(batches + [b]) == Concat(batches) + b
    decreases |batches|
  {
    if |batches| == 0 {
      assert Concat([b]) == b + Concat([]);
    } else {
      assert (batches + [b])[1..] == batches[1..] + [b];
      ConcatSnoc(batches[1..], b);
    }
  }

  /** Merging one more batch after a run of merges. */
  lemma {:induction false} MergeAllSnoc(a: Aggregator, batches: seq<seq<ProcessedData>>, b: seq<ProcessedData>)
    ensures MergeAll(a, batches + [b]) == Merge(MergeAll(a, batches), b)
    decreases |batches|
  {
    if |batches| == 0 {
      assert MergeAll(a, [b]) == MergeAll(Merge(a, b), []);
    } else {
      assert (batches + [b])[1..] == batches[1..] + [b];
      MergeAllSnoc(Merge(a, batches[0]), batches[1..], b);
    }
  }

  /** Since the last `clear`, the totals are exactly those of the merges made after it. */
  lemma MergeAfterClear(a: Aggregator, batches: seq<seq<ProcessedData>>)
    ensures MergeAll(Clear(a), batches).allResults == Concat(batches)
    ensures |MergeAll(Clear(a), batches).allResults| == TotalSize(batches)
    ensures MergeAll(Clear(a), batches).processedTasks == NonEmptyCount(batches)
  {
    MergeAllTotals(Clear(a), batches);
  }

  // ---------------------------------------------------------------------------
  // removeDuplicates: putIfAbsent into a hash map, then its values
  // ---------------------------------------------------------------------------

  /** The map after `putIfAbsent(item.getId(), item)` for every item in order. */
  function PutAllIfAbsent(s: seq<ProcessedData>): map<string, ProcessedData>
    decreases |s|
  {
    if |s| == 0 then map[]
    else
      var m, d := PutAllIfAbsent(s[..|s| - 1]), s[|s| - 1];
      if d.id in m then m else m[d.id := d]
  }

  /** Every map entry is keyed by its record's id. */
  ghost predicate KeyedById(m: map<string, ProcessedData>) {
    forall k :: k in m ==> m[k].id == k
  }

  /** The map's keys are exactly the input's ids, each keying a record with that id. */
  lemma {:induction false} PutAllIfAbsentKeys(s: seq<ProcessedData>)
    ensures KeyedById(PutAllIfAbsent(s))
    ensures PutAllIfAbsent(s).Keys == KeySet(s, RecordId)
    decreases |s|
  {
    if |s| > 0 {
      var last := |s| - 1;
      var init := s[..last];
      PutAllIfAbsentKeys(init);
      assert KeySet(s, RecordId) == KeySet(init, RecordId) + {s[last].id} by {
        assert forall j :: 0 <= j < last ==> init[j] == s[j];
      }
    }
  }

  /**
   * The map holds, under each id of the input, the record `ID_BASED`
   * deduplication keeps for it: the first with that id.
   */
  lemma {:induction false} PutAllIfAbsentKeepsFirst(s: seq<ProcessedData>)
    ensures KeyedById(PutAllIfAbsent(s))
    ensures PutAllIfAbsent(s).Keys == KeySet(s, RecordId)
    ensures forall k :: k in PutAllIfAbsent(s) ==> PutAllIfAbsent(s)[k] in KeepFirst(s, RecordId)
    ensures forall x :: x in KeepFirst(s, RecordId) ==> x.id in PutAllIfAbsent(s) && PutAllIfAbsent(s)[x.id] == x
    decreases |s|
  {
    PutAllIfAbsentKeys(s);
    if |s| > 0 {
      var last := |s| - 1;
      var init, d := s[..last], s[last];
      var m := PutAllIfAbsent(init);
      PutAllIfAbsentKeepsFirst(init);
      SeenIffNotFirst(s, last, RecordId);
      assert s[..last] == init;
      if IsFirst(s, last, RecordId) {
        assert PutAllIfAbsent(s) == m[d.id := d];
        assert KeepFirst(s, RecordId) == KeepFirst(init, RecordId) + [d];
      } else {
        assert PutAllIfAbsent(s) == m;
        assert KeepFirst(s, RecordId) == KeepFirst(init, RecordId) + [];
      }
    }
  }

  /** A map's values in whatever order the map yields them. */
  method MapValues(m: map<string, ProcessedData>) returns (vs: seq<ProcessedData>)
    requires KeyedById(m)
    ensures forall j :: 0 <= j < |vs| ==> vs[j].id in m && m[vs[j].id] == vs[j]
    ensures forall j, l :: 0 <= j < l < |vs| ==> vs[j].id != vs[l].id
    ensures forall k :: k in m ==> m[k] in vs
  {
    var keys := m.Keys;
    vs := [];
    while keys != {}
      invariant keys <= m.Keys
      invariant forall j :: 0 <= j < |vs| ==> vs[j].id in m && vs[j].id !in keys && m[vs[j].id] == vs[j]
      invariant forall j, l :: 0 <= j < l < |vs| ==> vs[j].id != vs[l].id
      invariant forall k :: k in m && k !in keys ==> m[k] in vs
      decreases keys
    {
      var k :| k in keys;
      vs := vs + [m[k]];
      keys := keys - {k};
    }
  }

  /**
   * `removeDuplicates`: one record per distinct id, namely that id's first
   * occurrence, in an order the hash map decides. Empty input gives empty.
   */
  method RemoveDuplicatesById(data: seq<ProcessedData>) returns (unique: seq<ProcessedData>)
    ensures KeysDistinct(unique, RecordId)
    ensures forall j :: 0 <= j < |unique| ==> unique[j] in KeepFirst(data, RecordId)
    ensures forall x :: x in KeepFirst(data, RecordId) ==> x in unique
    ensures |unique| == |KeySet(data, RecordId)|
  {
    if |data| == 0 {
      return [];
    }
    var m: map<string, ProcessedData> := map[];
    for i := 0 to |data|
      invariant m == PutAllIfAbsent(data[..i])
    {
      assert data[..i + 1][..i] == data[..i];
      if data[i].id !in m {
        m := m[data[i].id := data[i]];
      }
    }
    assert data[..|data|] == data;
    PutAllIfAbsentKeepsFirst(data);
    unique := MapValues(m);
    forall j | 0 <= j < |unique|
      ensures unique[j] in KeepFirst(data, RecordId)
    {
      assert unique[j] == m[unique[j].id];
    }
    assert KeySet(unique, RecordId) == m.Keys by {
      forall k | k in m
        ensures k in KeySet(unique, RecordId)
      {
        var j :| 0 <= j < |unique| && unique[j] == m[k];
      }
    }
    DistinctKeysCount(unique, RecordId);
  }

  /** A list without repeated keys has as many keys as elements. */
  lemma {:induction false} DistinctKeysCount<K>(s: seq<ProcessedData>, key: ProcessedData -> K)
    requires KeysDistinct(s, key)
    ensures |KeySet(s, key)| == |s|
    decreases |s|
  {
    if |s| > 0 {
      var last := |s| - 1;
      var init := s[..last];
      assert KeysDistinct(init, key);
      DistinctKeysCount(init, key);
      assert KeySet(s, key) == KeySet(init, key) + {key(s[last])} by {
        assert forall j :: 0 <= j < last ==> init[j] == s[j];
      }
      assert key(s[last]) !in KeySet(init, key) by {
        forall j | 0 <= j < last
          ensures key(init[j]) != key(s[last])
        {
          assert init[j] == s[j];
        }
      }
    }
  }

  /** The number of distinct keys never exceeds the length, and equals it exactly when no key repeats. */
  lemma KeyCountBound<K>(s: seq<ProcessedData>, key: ProcessedData -> K)
    ensures |KeySet(s, key)| <= |s|
    ensures |KeySet(s, key)| == |s| <==> KeysDistinct(s, key)
  {
    KeepFirstKeysDistinct(s, key);
    KeepFirstCoversKeys(s, key);
    KeepFirstLength(s, key);
    DistinctKeysCount(KeepFirst(s, key), key);
  }

  // ---------------------------------------------------------------------------
  // sortData
  // ---------------------------------------------------------------------------

  /** `sortData`: `Collections.sort` by natural (id) order on a copy; empty input gives empty. */
  function SortById(data: seq<ProcessedData>): seq<ProcessedData> {
    if |data| == 0 then [] else InsertionSort(data, NATURAL)
  }

  /** The sorted list is a permutation of the input with ids in ascending order; records with equal ids keep their input order. */
  lemma SortByIdSpec(data: seq<ProcessedData>)
    ensures multiset(SortById(data)) == multiset(data)
    ensures Sorted(SortById(data), NATURAL)
    ensures forall i, j :: 0 <= i < j < |SortById(data)| ==> !LexLess(SortById(data)[j].id, SortById(data)[i].id)
    ensures |data| == 0 ==> SortById(data) == []
    ensures forall v :: ClassOf(SortById(data), v, NATURAL) == ClassOf(data, v, NATURAL)
  {
    NaturalIsValid();
    SortWithPermutesSorts(data, NATURAL);
    SortWithStableIdempotent(data, NATURAL);
    assert SortById(data) == SortWith(data, NATURAL);
    NaturalSortedMeansIdsAscending(SortById(data));
  }

  /** An element occurring twice has multiplicity at least two. */
  lemma RepeatCounts(s: seq<ProcessedData>, i: nat, j: nat)
    requires i < j < |s| && s[i] == s[j]
    ensures multiset(s)[s[i]] >= 2
  {
    assert s == s[..j] + [s[j]] + s[j + 1..];
    assert s[i] in multiset(s[..j]) by {
      assert s[..j][i] == s[i];
    }
  }

  /** In a list without repeated ids no record occurs twice. */
  lemma {:induction false} DistinctIdsOccurOnce(s: seq<ProcessedData>, x: ProcessedData)
    requires KeysDistinct(s, RecordId)
    ensures multiset(s)[x] <= 1
    decreases |s|
  {
    if |s| > 0 {
      var rest := s[1..];
      assert s == [s[0]] + rest;
      assert KeysDistinct(rest, RecordId) by {
        forall i, j | 0 <= i < j < |rest|
          ensures RecordId(rest[i]) != RecordId(rest[j])
        {
          assert rest[i] == s[i + 1] && rest[j] == s[j + 1];
        }
      }
      DistinctIdsOccurOnce(rest, x);
      if s[0] == x {
        assert x !in rest by {
          forall q | 0 <= q < |rest|
            ensures rest[q] != x
          {
            assert RecordId(s[0]) != RecordId(s[q + 1]);
          }
        }
      }
    }
  }

  /** Reordering keeps ids distinct. */
  lemma PermutationKeepsIdsDistinct(a: seq<ProcessedData>, b: seq<ProcessedData>)
    requires multiset(a) == multiset(b) && KeysDistinct(a, RecordId)
    ensures KeysDistinct(b, RecordId)
  {
    forall i, j | 0 <= i < j < |b|
      ensures RecordId(b[i]) != RecordId(b[j])
    {
      assert b[i] in multiset(a) && b[j] in multiset(a);
      var p :| 0 <= p < |a| && a[p] == b[i];
      var q :| 0 <= q < |a| && a[q] == b[j];
      if p < q {
        assert RecordId(a[p]) != RecordId(a[q]);
      } else if q < p {
        assert RecordId(a[q]) != RecordId(a[p]);
      } else {
        RepeatCounts(b, i, j);
        DistinctIdsOccurOnce(a, b[i]);
      }
    }
  }

  /** Sorted by id with no id repeated: the ids strictly ascend. */
  lemma SortedDistinctIdsAscend(s: seq<ProcessedData>)
    requires Sorted(s, NATURAL) && KeysDistinct(s, RecordId)
    ensures forall i, j :: 0 <= i < j < |s| ==> LexLess(s[i].id, s[j].id)
  {
    forall i, j | 0 <= i < j < |s|
      ensures LexLess(s[i].id, s[j].id)
    {
      assert RecordId(s[i]) != RecordId(s[j]);
      CompareRecordsConsistentWithEquals(s[i], s[j]);
      CompareRecordsIsLexicographic(s[i], s[j]);
    }
  }

  // ---------------------------------------------------------------------------
  // getFinalResults and getAggregationStats
  // ---------------------------------------------------------------------------

  /**
   * `getFinalResults`: deduplicate (when switched on), then sort (when
   * switched on), working on a copy of the records. With both switches the
   * ids are distinct and strictly ascending.
   */
  method GetFinalResults(a: Aggregator) returns (final: seq<ProcessedData>)
    ensures !a.removeDuplicates ==> multiset(final) == multiset(a.allResults)
    ensures !a.removeDuplicates && !a.sortData ==> final == a.allResults
    ensures a.removeDuplicates ==>
      && KeysDistinct(final, RecordId)
      && (forall j :: 0 <= j < |final| ==> final[j] in KeepFirst(a.allResults, RecordId))
      && (forall x :: x in KeepFirst(a.allResults, RecordId) ==> x in final)
    ensures a.sortData ==> forall i, j :: 0 <= i < j < |final| ==> !LexLess(final[j].id, final[i].id)
    ensures a.removeDuplicates && a.sortData ==> forall i, j :: 0 <= i < j < |final| ==> LexLess(final[i].id, final[j].id)
    ensures a.sortData && !a.removeDuplicates ==> final == SortById(a.allResults)
  {
    final := a.allResults;
    if a.removeDuplicates {
      final := RemoveDuplicatesById(final);
    }
    if a.sortData {
      var before := final;
      final := SortById(before);
      SortByIdSpec(before);
      if a.removeDuplicates {
        PermutationKeepsIdsDistinct(before, final);
        SortedDistinctIdsAscend(final);
        forall x | x in KeepFirst(a.allResults, RecordId)
          ensures x in final
        {
          assert x in multiset(before);
        }
        forall j | 0 <= j < |final|
          ensures final[j] in KeepFirst(a.allResults, RecordId)
        {
          assert final[j] in multiset(before);
        }
      }
    }
  }

  /** `AggregationStats`: records held, tasks merged, and records left after deduplication. */
  datatype AggregationStats = AggregationStats(totalRecords: int, processedTasks: int, uniqueRecords: int)

  function DuplicateCount(s: AggregationStats): int {
    s.totalRecords - s.uniqueRecords
  }

  /**
   * `getAggregationStats`: the unique count is the number of distinct ids when
   * deduplication is on and the total otherwise, so the duplicate count is
   * never negative and is zero exactly when no id repeats (or dedup is off).
   */
  method GetAggregationStats(a: Aggregator) returns (s: AggregationStats)
    ensures s.totalRecords == |a.allResults| && s.processedTasks == a.processedTasks
    ensures a.removeDuplicates ==> s.uniqueRecords == |KeySet(a.allResults, RecordId)|
    ensures !a.removeDuplicates ==> s.uniqueRecords == s.totalRecords
    ensures 0 <= DuplicateCount(s)
    ensures DuplicateCount(s) == 0 <==> !a.removeDuplicates || KeysDistinct(a.allResults, RecordId)
  {
    var unique := |a.allResults|;
    if a.removeDuplicates {
      var u := RemoveDuplicatesById(a.allResults);
      unique := |u|;
      KeyCountBound(a.allResults, RecordId);
    }
    s := AggregationStats(|a.allResults|, a.processedTasks, unique);
  }
}
