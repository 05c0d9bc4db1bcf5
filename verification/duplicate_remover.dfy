/**
 * `DuplicateRemover`: keeps the first record of each key, in input order.
 * The three strategies differ only in the key: the id, the content, or both.
 * For the last the source joins id and content into one string (`CombinedKey`),
 * which `RemoveDuplicates` follows; `CombinedKeyCollision` shows where that key
 * merges records that differ in both fields, and `RemoveCompleteMatches` is the
 * variant keyed by the pair.
 */
module DuplicateRemover {
  import opened Records

  datatype RemovalStrategy = IdBased | ContentBased | CompleteMatch

  const SEPARATOR: string := "|||"

  /** The `COMPLETE_MATCH` key as the source builds it: one concatenated string. */
  function CombinedKey(d: ProcessedData): string {
    d.id + SEPARATOR + d.content
  }

  /** A record's id, the key of `ID_BASED` and of the aggregator's map. */
  function RecordId(d: ProcessedData): string {
    d.id
  }

  /** A record's content, the key of `CONTENT_BASED`. */
  function RecordContent(d: ProcessedData): string {
    d.content
  }

  // ---------------------------------------------------------------------------
  // reference: keep the records whose key has not occurred earlier
  // ---------------------------------------------------------------------------

  /** Position `i` holds the first occurrence of its key. */
  predicate IsFirst<K(==)>(s: seq<ProcessedData>, i: nat, key: ProcessedData -> K)
    requires i < |s|
  {
    forall j :: 0 <= j < i ==> key(s[j]) != key(s[i])
  }

  /** No key occurs twice. */
  predicate KeysDistinct<K(==)>(s: seq<ProcessedData>, key: ProcessedData -> K) {
    forall i, j :: 0 <= i < j < |s| ==> key(s[i]) != key(s[j])
  }

  function KeySet<K(==)>(s: seq<ProcessedData>, key: ProcessedData -> K): set<K> {
    set i | 0 <= i < |s| :: key(s[i])
  }

  /** The records at first-occurrence positions, in input order. */
  function KeepFirst<K(==)>(s: seq<ProcessedData>, key: ProcessedData -> K): seq<ProcessedData>
    decreases |s|
  {
    if |s| == 0 then []
    else
      var last := |s| - 1;
      KeepFirst(s[..last], key) + (if IsFirst(s, last, key) then [s[last]] else [])
  }

  /** The positions `KeepFirst` keeps. */
  function FirstIndices<K(==)>(s: seq<ProcessedData>, key: ProcessedData -> K): seq<nat>
    decreases |s|
  {
    if |s| == 0 then []
    else
      var last := |s| - 1;
      FirstIndices(s[..last], key) + (if IsFirst(s, last, key) then [last] else [])
  }

  /** A prefix's first occurrences are first occurrences of the whole list. */
  lemma IsFirstPrefix<K>(s: seq<ProcessedData>, n: nat, i: nat, key: ProcessedData -> K)
    requires i < n <= |s|
    ensures IsFirst(s[..n], i, key) <==> IsFirst(s, i, key)
  {
    assert forall j :: 0 <= j <= i ==> s[..n][j] == s[j];
  }

  // ---------------------------------------------------------------------------
  // the loop of `removeDuplicatesById` / `ByContent` / `ByCompleteMatch`
  // ---------------------------------------------------------------------------

  /** `HashSet.add` succeeds exactly for a first occurrence. */
  lemma SeenIffNotFirst<K>(s: seq<ProcessedData>, i: nat, key: ProcessedData -> K)
    requires i < |s|
    ensures key(s[i]) in KeySet(s[..i], key) <==> !IsFirst(s, i, key)
  {
    if key(s[i]) in KeySet(s[..i], key) {
      var j :| 0 <= j < i && key(s[..i][j]) == key(s[i]);
      assert key(s[j]) == key(s[i]);
    } else {
      forall j | 0 <= j < i
        ensures key(s[j]) != key(s[i])
      {
        assert key(s[..i][j]) in KeySet(s[..i], key);
      }
    }
  }

  /** One pass with a set of seen keys; returns exactly the reference `KeepFirst`. */
  method RemoveDuplicatesBy<K(==)>(data: seq<ProcessedData>, key: ProcessedData -> K) returns (unique: seq<ProcessedData>)
    ensures unique == KeepFirst(data, key)
  {
    var seen: set<K> := {};
    unique := [];
    for i := 0 to |data|
      invariant seen == KeySet(data[..i], key)
      invariant unique == KeepFirst(data[..i], key)
    {
      var k := key(data[i]);
      SeenIffNotFirst(data, i, key);
      assert data[..i + 1][..i] == data[..i];
      IsFirstPrefix(data, i + 1, i, key);
      if k !in seen {
        seen := seen + {k};
        unique := unique + [data[i]];
      }
      assert KeySet(data[..i + 1], key) == KeySet(data[..i], key) + {k} by {
        assert data[..i + 1][i] == data[i];
        assert forall j :: 0 <= j < i ==> data[..i + 1][j] == data[..i][j];
      }
    }
    assert data[..|data|] == data;
  }

  /**
   * `removeDuplicates(data, strategy)`: empty input gives an empty list;
   * otherwise the strategy's loop, with `COMPLETE_MATCH` keyed by the joined
   * string `id + "|||" + content` as the source builds it.
   */
  method RemoveDuplicates(data: seq<ProcessedData>, strategy: RemovalStrategy) returns (unique: seq<ProcessedData>)
    ensures strategy.IdBased? ==> unique == KeepFirst(data, RecordId)
    ensures strategy.ContentBased? ==> unique == KeepFirst(data, RecordContent)
    ensures strategy.CompleteMatch? ==> unique == KeepFirst(data, CombinedKey)
  {
    if |data| == 0 {
      return [];
    }
    match strategy {
      case IdBased => unique := RemoveDuplicatesBy(data, RecordId);
      case ContentBased => unique := RemoveDuplicatesBy(data, RecordContent);
      case CompleteMatch => unique := RemoveDuplicatesBy(data, CombinedKey);
    }
  }

  // ---------------------------------------------------------------------------
  // properties of the reference
  // ---------------------------------------------------------------------------

  /**
   * The output is the input at the ascending first-occurrence positions, and
   * every first-occurrence position is kept.
   */
  lemma KeepFirstIsSubsequence<K>(s: seq<ProcessedData>, key: ProcessedData -> K)
    ensures var r, idx := KeepFirst(s, key), FirstIndices(s, key);
      && |r| == |idx|
      && (forall j :: 0 <= j < |idx| ==> idx[j] < |s| && r[j] == s[idx[j]] && IsFirst(s, idx[j], key))
      && (forall j, m :: 0 <= j < m < |idx| ==> idx[j] < idx[m])
      && (forall i :: 0 <= i < |s| && IsFirst(s, i, key) ==> i in idx)
  {
    KeepFirstAtIndices(s, key);
    FirstIndicesAscend(s, key);
    FirstIndicesAreFirsts(s, key);
  }

  lemma {:induction false} KeepFirstAtIndices<K>(s: seq<ProcessedData>, key: ProcessedData -> K)
    ensures |KeepFirst(s, key)| == |FirstIndices(s, key)|
    ensures forall j :: 0 <= j < |FirstIndices(s, key)| ==>
      FirstIndices(s, key)[j] < |s| && KeepFirst(s, key)[j] == s[FirstIndices(s, key)[j]]
    decreases |s|
  {
    if |s| > 0 {
      var last := |s| - 1;
      KeepFirstAtIndices(s[..last], key);
    }
  }

  lemma {:induction false} FirstIndicesAscend<K>(s: seq<ProcessedData>, key: ProcessedData -> K)
    ensures forall j :: 0 <= j < |FirstIndices(s, key)| ==> FirstIndices(s, key)[j] < |s|
    ensures forall j, m :: 0 <= j < m < |FirstIndices(s, key)| ==> FirstIndices(s, key)[j] < FirstIndices(s, key)[m]
    decreases |s|
  {
    if |s| > 0 {
      var last := |s| - 1;
      FirstIndicesAscend(s[..last], key);
    }
  }

  lemma {:induction false} FirstIndicesAreFirsts<K>(s: seq<ProcessedData>, key: ProcessedData -> K)
    ensures forall j :: 0 <= j < |FirstIndices(s, key)| ==>
      FirstIndices(s, key)[j] < |s| && IsFirst(s, FirstIndices(s, key)[j], key)
    ensures forall i :: 0 <= i < |s| && IsFirst(s, i, key) ==> i in FirstIndices(s, key)
    decreases |s|
  {
    if |s| > 0 {
      var last := |s| - 1;
      var init := s[..last];
      FirstIndicesAreFirsts(init, key);
      var idx0 := FirstIndices(init, key);
      forall j | 0 <= j < |idx0|
        ensures IsFirst(s, idx0[j], key)
      {
        IsFirstPrefix(s, last, idx0[j], key);
      }
      forall i | 0 <= i < last && IsFirst(s, i, key)
        ensures i in idx0
      {
        IsFirstPrefix(s, last, i, key);
      }
    }
  }

  /** The output never repeats a key. */
  lemma KeepFirstKeysDistinct<K>(s: seq<ProcessedData>, key: ProcessedData -> K)
    ensures KeysDistinct(KeepFirst(s, key), key)
  {
    KeepFirstIsSubsequence(s, key);
    var r, idx := KeepFirst(s, key), FirstIndices(s, key);
    forall j, m | 0 <= j < m < |r|
      ensures key(r[j]) != key(r[m])
    {
      assert idx[j] < idx[m] && IsFirst(s, idx[m], key);
    }
  }

  /** The first occurrence of every key is kept, so every input key is represented. */
  lemma KeepFirstCoversKeys<K>(s: seq<ProcessedData>, key: ProcessedData -> K)
    ensures KeySet(KeepFirst(s, key), key) == KeySet(s, key)
  {
    KeepFirstIsSubsequence(s, key);
    var r, idx := KeepFirst(s, key), FirstIndices(s, key);
    forall k | k in KeySet(s, key)
      ensures k in KeySet(r, key)
    {
      var i :| 0 <= i < |s| && key(s[i]) == k;
      var f := FirstWithKey(s, i, key);
      var j :| 0 <= j < |idx| && idx[j] == f;
      assert key(r[j]) == k;
    }
    forall k | k in KeySet(r, key)
      ensures k in KeySet(s, key)
    {
      var j :| 0 <= j < |r| && key(r[j]) == k;
      assert key(s[idx[j]]) == k;
    }
  }

  /** The earliest position holding the same key as position `i`. */
  lemma FirstWithKey<K>(s: seq<ProcessedData>, i: nat, key: ProcessedData -> K) returns (f: nat)
    requires i < |s|
    ensures f <= i && key(s[f]) == key(s[i]) && IsFirst(s, f, key)
    decreases i
  {
    if IsFirst(s, i, key) {
      f := i;
    } else {
      var j :| 0 <= j < i && key(s[j]) == key(s[i]);
      f := FirstWithKey(s, j, key);
    }
  }

  /** A list without repeated keys is returned unchanged. */
  lemma {:induction false} KeepFirstOfDistinct<K>(s: seq<ProcessedData>, key: ProcessedData -> K)
    requires KeysDistinct(s, key)
    ensures KeepFirst(s, key) == s
    decreases |s|
  {
    if |s| > 0 {
      var last := |s| - 1;
      assert KeysDistinct(s[..last], key);
      KeepFirstOfDistinct(s[..last], key);
      assert s[..last] + [s[last]] == s;
    }
  }

  /** Every strategy is idempotent. */
  lemma KeepFirstIdempotent<K>(s: seq<ProcessedData>, key: ProcessedData -> K)
    ensures KeepFirst(KeepFirst(s, key), key) == KeepFirst(s, key)
  {
    KeepFirstKeysDistinct(s, key);
    KeepFirstOfDistinct(KeepFirst(s, key), key);
  }

  /** The output is never longer than the input, and as long exactly when no key repeats. */
  lemma {:induction false} KeepFirstLength<K>(s: seq<ProcessedData>, key: ProcessedData -> K)
    ensures |KeepFirst(s, key)| <= |s|
    ensures |KeepFirst(s, key)| == |s| <==> KeysDistinct(s, key)
    decreases |s|
  {
    if |s| > 0 {
      var last := |s| - 1;
      var init := s[..last];
      KeepFirstLength(init, key);
      if KeysDistinct(s, key) {
        KeepFirstOfDistinct(s, key);
      }
      if |KeepFirst(s, key)| == |s| {
        assert IsFirst(s, last, key) && |KeepFirst(init, key)| == |init|;
        assert KeysDistinct(s, key) by {
          forall i, j | 0 <= i < j < |s|
            ensures key(s[i]) != key(s[j])
          {
            if j < last {
              assert key(init[i]) != key(init[j]);
            }
          }
        }
      }
    }
  }

  // ---------------------------------------------------------------------------
  // COMPLETE_MATCH and its separator
  // ---------------------------------------------------------------------------

  /** Records equal in both id and content always collapse under `COMPLETE_MATCH`. */
  lemma SameIdAndContentCollide(a: ProcessedData, b: ProcessedData)
    requires a.id == b.id && a.content == b.content
    ensures CombinedKey(a) == CombinedKey(b)
  {
  }

  /**
   * The concatenated key also merges records that differ in both fields: the
   * separator can occur inside an id or a content.
   */
  lemma CombinedKeyCollision()
    ensures var a, b := ProcessedData("a|||b", "c", 0), ProcessedData("a", "b|||c", 0);
      && a.id != b.id && a.content != b.content
      && CombinedKey(a) == CombinedKey(b)
      && KeepFirst([a, b], CombinedKey) == [a]
  {
    var a, b := ProcessedData("a|||b", "c", 0), ProcessedData("a", "b|||c", 0);
    assert CombinedKey(a) == "a|||b|||c" == CombinedKey(b);
    assert !IsFirst([a, b], 1, CombinedKey) by {
      assert [a, b][0] == a && [a, b][1] == b;
    }
    assert [a, b][..1] == [a];
    assert KeepFirst([a], CombinedKey) == [a] by {
      assert [a][..0] == [];
    }
  }

  /** The key `COMPLETE_MATCH` evidently means: the pair of id and content. */
  function PairKey(d: ProcessedData): (string, string) {
    (d.id, d.content)
  }

  /** With the pair key two records collapse exactly when both their ids and their contents agree. */
  lemma PairKeyMatchesBoth(a: ProcessedData, b: ProcessedData)
    ensures PairKey(a) == PairKey(b) <==> a.id == b.id && a.content == b.content
  {
    assert PairKey(a).0 == a.id && PairKey(a).1 == a.content;
    assert PairKey(b).0 == b.id && PairKey(b).1 == b.content;
  }

  /** `COMPLETE_MATCH` with the pair key: keeps `a` and `b` of the collision above apart. */
  method RemoveCompleteMatches(data: seq<ProcessedData>) returns (unique: seq<ProcessedData>)
    ensures unique == KeepFirst(data, PairKey)
    ensures forall i, j :: 0 <= i < j < |unique| ==>
      unique[i].id != unique[j].id || unique[i].content != unique[j].content
  {
    unique := RemoveDuplicatesBy(data, PairKey);
    KeepFirstKeysDistinct(data, PairKey);
  }

  /** Records that agree in both fields agree in the joined key. */
  lemma PairKeyRefinesCombinedKey(a: ProcessedData, b: ProcessedData)
    requires PairKey(a) == PairKey(b)
    ensures CombinedKey(a) == CombinedKey(b)
  {
    assert a.id == PairKey(a).0 == PairKey(b).0 == b.id;
    assert a.content == PairKey(a).1 == PairKey(b).1 == b.content;
  }

  /**
   * The joined key drops at least what the pair key drops: every record it
   * keeps the pair key keeps too, so it never keeps more records.
   */
  lemma {:induction false} CombinedKeepsNoMoreThanPair(s: seq<ProcessedData>)
    ensures forall x :: x in KeepFirst(s, CombinedKey) ==> x in KeepFirst(s, PairKey)
    ensures |KeepFirst(s, CombinedKey)| <= |KeepFirst(s, PairKey)|
    decreases |s|
  {
    if |s| > 0 {
      var last := |s| - 1;
      CombinedKeepsNoMoreThanPair(s[..last]);
      if IsFirst(s, last, CombinedKey) {
        forall j | 0 <= j < last
          ensures PairKey(s[j]) != PairKey(s[last])
        {
          if PairKey(s[j]) == PairKey(s[last]) {
            PairKeyRefinesCombinedKey(s[j], s[last]);
          }
        }
      }
    }
  }
}
