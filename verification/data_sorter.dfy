/**
 * `DataSorter`: copies the list and sorts it with `List.sort`, which is a
 * stable merge sort. Any two stable sorts by the same comparator agree
 * (`StableSortUnique`), so the sort is written here as a stable insertion sort.
 */
module DataSorter {
  import opened JavaStrings
  import opened Records

  /** A `Comparator<ProcessedData>`: negative, zero or positive. */
  type Comparator = (ProcessedData, ProcessedData) -> int

  datatype SortStrategy = NaturalOrder | TimestampAsc | TimestampDesc | ContentAsc | ContentDesc

  function Sign(x: int): int {
    if x < 0 then -1 else if x == 0 then 0 else 1
  }

  /**
   * The `Comparator` contract: swapping the arguments flips the sign, and
   * "not after" is transitive. (Java's third clause, that equal elements
   * compare alike against everything, follows from these two.)
   */
  ghost predicate ValidComparator(cmp: Comparator) {
    && (forall a, b :: Sign(cmp(a, b)) == -Sign(cmp(b, a)))
    && (forall a, b, c :: cmp(a, b) <= 0 && cmp(b, c) <= 0 ==> cmp(a, c) <= 0)
  }

  /** `Long.compare`. */
  function LongCompare(x: int, y: int): int {
    if x < y then -1 else if x == y then 0 else 1
  }

  /** `Comparator.reversed()`. */
  function Reversed(cmp: Comparator): Comparator {
    (a: ProcessedData, b: ProcessedData) => cmp(b, a)
  }

  /** `Collections.sort` on `Comparable` records: `ProcessedData.compareTo`. */
  const NATURAL: Comparator := CompareRecords

  /** `Comparator.comparingLong(ProcessedData::getTimestamp)`. */
  const BY_TIMESTAMP: Comparator := (a: ProcessedData, b: ProcessedData) => LongCompare(a.timestamp, b.timestamp)

  /** `Comparator.comparing(ProcessedData::getContent)`. */
  const BY_CONTENT: Comparator := (a: ProcessedData, b: ProcessedData) => CompareStrings(a.content, b.content)

  function ComparatorOf(strategy: SortStrategy): Comparator {
    match strategy
    case NaturalOrder => NATURAL
    case TimestampAsc => BY_TIMESTAMP
    case TimestampDesc => Reversed(BY_TIMESTAMP)
    case ContentAsc => BY_CONTENT
    case ContentDesc => Reversed(BY_CONTENT)
  }

  // ---------------------------------------------------------------------------
  // the sort
  // ---------------------------------------------------------------------------

  /** Places `x` after every element of the sorted `r` that is not greater than it. */
  function Insert(r: seq<ProcessedData>, x: ProcessedData, cmp: Comparator): seq<ProcessedData>
    decreases |r|
  {
    if |r| == 0 || cmp(r[|r| - 1], x) <= 0 then r + [x]
    else Insert(r[..|r| - 1], x, cmp) + [r[|r| - 1]]
  }

  function InsertionSort(s: seq<ProcessedData>, cmp: Comparator): seq<ProcessedData>
    decreases |s|
  {
    if |s| == 0 then [] else Insert(InsertionSort(s[..|s| - 1], cmp), s[|s| - 1], cmp)
  }

  /** `sortData(data, strategy)`: an empty list is returned as it is. */
  function SortData(data: seq<ProcessedData>, strategy: SortStrategy): seq<ProcessedData> {
    SortWith(data, ComparatorOf(strategy))
  }

  /** `sortData(data, comparator)`. */
  function SortWith(data: seq<ProcessedData>, cmp: Comparator): seq<ProcessedData> {
    if |data| == 0 then data else InsertionSort(data, cmp)
  }

  // ---------------------------------------------------------------------------
  // what "sorted" and "stable" mean
  // ---------------------------------------------------------------------------

  ghost predicate Sorted(s: seq<ProcessedData>, cmp: Comparator) {
    forall i, j :: 0 <= i < j < |s| ==> cmp(s[i], s[j]) <= 0
  }

  /** The elements comparing equal to `v`, in list order. */
  function ClassOf(s: seq<ProcessedData>, v: ProcessedData, cmp: Comparator): seq<ProcessedData>
    decreases |s|
  {
    if |s| == 0 then []
    else ClassOf(s[..|s| - 1], v, cmp) + (if cmp(s[|s| - 1], v) == 0 then [s[|s| - 1]] else [])
  }

  lemma ClassOfAppend(s: seq<ProcessedData>, x: ProcessedData, v: ProcessedData, cmp: Comparator)
    ensures ClassOf(s + [x], v, cmp) == ClassOf(s, v, cmp) + (if cmp(x, v) == 0 then [x] else [])
  {
    assert (s + [x])[..|s|] == s;
  }

  // ---------------------------------------------------------------------------
  // permutation
  // ---------------------------------------------------------------------------

  lemma {:induction false} InsertPermutes(r: seq<ProcessedData>, x: ProcessedData, cmp: Comparator)
    ensures multiset(Insert(r, x, cmp)) == multiset(r) + multiset{x}
    decreases |r|
  {
    if |r| > 0 && cmp(r[|r| - 1], x) > 0 {
      InsertPermutes(r[..|r| - 1], x, cmp);
      assert r == r[..|r| - 1] + [r[|r| - 1]];
    }
  }

  /** The output holds exactly the input's records, each as often. */
  lemma {:induction false} SortPermutes(s: seq<ProcessedData>, cmp: Comparator)
    ensures multiset(InsertionSort(s, cmp)) == multiset(s)
    decreases |s|
  {
    if |s| > 0 {
      SortPermutes(s[..|s| - 1], cmp);
      InsertPermutes(InsertionSort(s[..|s| - 1], cmp), s[|s| - 1], cmp);
      assert s == s[..|s| - 1] + [s[|s| - 1]];
    }
  }

  // ---------------------------------------------------------------------------
  // sortedness
  // ---------------------------------------------------------------------------

  /** Appending an element no smaller than any element keeps a list sorted. */
  lemma SortedSnoc(r: seq<ProcessedData>, x: ProcessedData, cmp: Comparator)
    requires Sorted(r, cmp)
    requires forall i :: 0 <= i < |r| ==> cmp(r[i], x) <= 0
    ensures Sorted(r + [x], cmp)
  {
    var t := r + [x];
    forall i, j | 0 <= i < j < |t|
      ensures cmp(t[i], t[j]) <= 0
    {
      assert t[i] == r[i];
      if j < |r| {
        assert t[j] == r[j];
      }
    }
  }

  /** Everything in `Insert(init, x)` is at most `last` when `init` is and `x` is below `last`. */
  lemma InsertBelow(init: seq<ProcessedData>, x: ProcessedData, last: ProcessedData, cmp: Comparator)
    requires forall i :: 0 <= i < |init| ==> cmp(init[i], last) <= 0
    requires cmp(x, last) <= 0
    ensures forall i :: 0 <= i < |Insert(init, x, cmp)| ==> cmp(Insert(init, x, cmp)[i], last) <= 0
  {
    InsertPermutes(init, x, cmp);
    var ins := Insert(init, x, cmp);
    forall i | 0 <= i < |ins|
      ensures cmp(ins[i], last) <= 0
    {
      assert ins[i] in multiset(init) + multiset{x};
      if ins[i] != x {
        assert ins[i] in init;
      }
    }
  }

  lemma {:induction false} InsertSorted(r: seq<ProcessedData>, x: ProcessedData, cmp: Comparator)
    requires ValidComparator(cmp) && Sorted(r, cmp)
    ensures Sorted(Insert(r, x, cmp), cmp)
    decreases |r|
  {
    if |r| == 0 {
      SortedSnoc(r, x, cmp);
    } else {
      var init, last := r[..|r| - 1], r[|r| - 1];
      assert forall i :: 0 <= i < |init| ==> cmp(init[i], last) <= 0 by {
        assert forall i :: 0 <= i < |init| ==> init[i] == r[i];
      }
      if cmp(last, x) <= 0 {
        assert forall i :: 0 <= i < |r| ==> cmp(r[i], x) <= 0 by {
          assert forall i :: 0 <= i < |init| ==> init[i] == r[i];
        }
        SortedSnoc(r, x, cmp);
      } else {
        assert Sorted(init, cmp);
        InsertSorted(init, x, cmp);
        assert Sign(cmp(x, last)) == -Sign(cmp(last, x));
        InsertBelow(init, x, last, cmp);
        var ins := Insert(init, x, cmp);
        assert forall i :: 0 <= i < |ins| ==> cmp(ins[i], last) <= 0;
        SortedSnoc(ins, last, cmp);
      }
    }
  }

  /** Every pair of records comes out in comparator order. */
  lemma {:induction false} SortSorts(s: seq<ProcessedData>, cmp: Comparator)
    requires ValidComparator(cmp)
    ensures Sorted(InsertionSort(s, cmp), cmp)
    decreases |s|
  {
    if |s| > 0 {
      SortSorts(s[..|s| - 1], cmp);
      InsertSorted(InsertionSort(s[..|s| - 1], cmp), s[|s| - 1], cmp);
    }
  }

  // ---------------------------------------------------------------------------
  // stability
  // ---------------------------------------------------------------------------

  /** An element that compares above `x` is not in `x`'s class. */
  lemma AboveIsOutsideClass(y: ProcessedData, x: ProcessedData, v: ProcessedData, cmp: Comparator)
    requires ValidComparator(cmp) && cmp(y, x) > 0 && cmp(x, v) == 0
    ensures cmp(y, v) != 0
  {
    assert Sign(cmp(v, x)) == -Sign(cmp(x, v));
  }

  lemma {:induction false} InsertKeepsClasses(r: seq<ProcessedData>, x: ProcessedData, v: ProcessedData, cmp: Comparator)
    requires ValidComparator(cmp)
    ensures ClassOf(Insert(r, x, cmp), v, cmp) == ClassOf(r, v, cmp) + (if cmp(x, v) == 0 then [x] else [])
    decreases |r|
  {
    if |r| == 0 || cmp(r[|r| - 1], x) <= 0 {
      ClassOfAppend(r, x, v, cmp);
    } else {
      var init, last := r[..|r| - 1], r[|r| - 1];
      assert Insert(r, x, cmp) == Insert(init, x, cmp) + [last];
      assert ClassOf(r, v, cmp) == ClassOf(init, v, cmp) + (if cmp(last, v) == 0 then [last] else []);
      InsertKeepsClasses(init, x, v, cmp);
      ClassOfAppend(Insert(init, x, cmp), last, v, cmp);
      if cmp(x, v) == 0 {
        AboveIsOutsideClass(last, x, v, cmp);
        assert ClassOf(r, v, cmp) == ClassOf(init, v, cmp);
        assert ClassOf(Insert(r, x, cmp), v, cmp) == ClassOf(init, v, cmp) + [x];
      } else if cmp(last, v) == 0 {
        assert ClassOf(Insert(r, x, cmp), v, cmp) == ClassOf(init, v, cmp) + [last];
      } else {
        assert ClassOf(Insert(r, x, cmp), v, cmp) == ClassOf(init, v, cmp);
      }
    }
  }

  /**
   * Stability: the records of each equivalence class come out in their input
   * order.
   */
  lemma {:induction false} SortIsStable(s: seq<ProcessedData>, v: ProcessedData, cmp: Comparator)
    requires ValidComparator(cmp)
    ensures ClassOf(InsertionSort(s, cmp), v, cmp) == ClassOf(s, v, cmp)
    decreases |s|
  {
    if |s| > 0 {
      SortIsStable(s[..|s| - 1], v, cmp);
      InsertKeepsClasses(InsertionSort(s[..|s| - 1], cmp), s[|s| - 1], v, cmp);
    }
  }

  // ---------------------------------------------------------------------------
  // re-sorting
  // ---------------------------------------------------------------------------

  /** An already sorted list comes back unchanged. */
  lemma {:induction false} SortOfSorted(s: seq<ProcessedData>, cmp: Comparator)
    requires Sorted(s, cmp)
    ensures InsertionSort(s, cmp) == s
    decreases |s|
  {
    if |s| > 0 {
      var init := s[..|s| - 1];
      assert Sorted(init, cmp);
      SortOfSorted(init, cmp);
      assert s == init + [s[|s| - 1]];
    }
  }

  lemma SortIdempotent(s: seq<ProcessedData>, cmp: Comparator)
    requires ValidComparator(cmp)
    ensures InsertionSort(InsertionSort(s, cmp), cmp) == InsertionSort(s, cmp)
  {
    SortSorts(s, cmp);
    SortOfSorted(InsertionSort(s, cmp), cmp);
  }

  // ---------------------------------------------------------------------------
  // the built-in comparators
  // ---------------------------------------------------------------------------

  lemma NaturalIsValid()
    ensures ValidComparator(NATURAL)
  {
    forall a, b
      ensures Sign(NATURAL(a, b)) == -Sign(NATURAL(b, a))
    {
      CompareRecordsAntisymmetric(a, b);
    }
    forall a, b, c | NATURAL(a, b) <= 0 && NATURAL(b, c) <= 0
      ensures NATURAL(a, c) <= 0
    {
      CompareRecordsTransitive(a, b, c);
    }
  }

  lemma TimestampIsValid()
    ensures ValidComparator(BY_TIMESTAMP)
  {
  }

  lemma ContentIsValid()
    ensures ValidComparator(BY_CONTENT)
  {
    forall a, b
      ensures Sign(BY_CONTENT(a, b)) == -Sign(BY_CONTENT(b, a))
    {
      CompareStringsAntisymmetric(a.content, b.content);
    }
    forall a, b, c | BY_CONTENT(a, b) <= 0 && BY_CONTENT(b, c) <= 0
      ensures BY_CONTENT(a, c) <= 0
    {
      CompareStringsTransitive(a.content, b.content, c.content);
    }
  }

  lemma ReversedIsValid(cmp: Comparator)
    requires ValidComparator(cmp)
    ensures ValidComparator(Reversed(cmp))
  {
    forall a, b, c | Reversed(cmp)(a, b) <= 0 && Reversed(cmp)(b, c) <= 0
      ensures Reversed(cmp)(a, c) <= 0
    {
      assert cmp(c, b) <= 0 && cmp(b, a) <= 0;
    }
  }

  lemma StrategyIsValid(strategy: SortStrategy)
    ensures ValidComparator(ComparatorOf(strategy))
  {
    match strategy
    case NaturalOrder => NaturalIsValid();
    case TimestampAsc => TimestampIsValid();
    case TimestampDesc => TimestampIsValid(); ReversedIsValid(BY_TIMESTAMP);
    case ContentAsc => ContentIsValid();
    case ContentDesc => ContentIsValid(); ReversedIsValid(BY_CONTENT);
  }

  /** What sortedness means for each strategy, in terms of the records' fields. */
  lemma NaturalSortedMeansIdsAscending(s: seq<ProcessedData>)
    ensures Sorted(s, NATURAL) <==> forall i, j :: 0 <= i < j < |s| ==> !LexLess(s[j].id, s[i].id)
  {
    forall i, j | 0 <= i < j < |s|
      ensures NATURAL(s[i], s[j]) <= 0 <==> !LexLess(s[j].id, s[i].id)
    {
      CompareRecordsAntisymmetric(s[i], s[j]);
      CompareRecordsIsLexicographic(s[j], s[i]);
    }
  }

  lemma TimestampSortedMeans(s: seq<ProcessedData>)
    ensures Sorted(s, BY_TIMESTAMP) <==> forall i, j :: 0 <= i < j < |s| ==> s[i].timestamp <= s[j].timestamp
    ensures Sorted(s, Reversed(BY_TIMESTAMP)) <==> forall i, j :: 0 <= i < j < |s| ==> s[i].timestamp >= s[j].timestamp
  {
  }

  lemma ContentSortedMeans(s: seq<ProcessedData>)
    ensures Sorted(s, BY_CONTENT) <==> forall i, j :: 0 <= i < j < |s| ==> !LexLess(s[j].content, s[i].content)
  {
    forall i, j | 0 <= i < j < |s|
      ensures BY_CONTENT(s[i], s[j]) <= 0 <==> !LexLess(s[j].content, s[i].content)
    {
      CompareStringsAntisymmetric(s[i].content, s[j].content);
      CompareStringsIsLexicographic(s[j].content, s[i].content);
    }
  }

  lemma ContentDescSortedMeans(s: seq<ProcessedData>)
    ensures Sorted(s, Reversed(BY_CONTENT)) <==> forall i, j :: 0 <= i < j < |s| ==> !LexLess(s[i].content, s[j].content)
  {
    forall i, j | 0 <= i < j < |s|
      ensures BY_CONTENT(s[j], s[i]) <= 0 <==> !LexLess(s[i].content, s[j].content)
    {
      CompareStringsAntisymmetric(s[i].content, s[j].content);
      CompareStringsIsLexicographic(s[i].content, s[j].content);
    }
  }

  // ---------------------------------------------------------------------------
  // the two public overloads
  // ---------------------------------------------------------------------------

  /**
   * `sortData(data, comparator)` with a comparator honouring its contract:
   * the result is a permutation of the input in comparator order.
   */
  lemma SortWithPermutesSorts(data: seq<ProcessedData>, cmp: Comparator)
    requires ValidComparator(cmp)
    ensures multiset(SortWith(data, cmp)) == multiset(data)
    ensures Sorted(SortWith(data, cmp), cmp)
  {
    SortPermutes(data, cmp);
    SortSorts(data, cmp);
  }

  /**
   * `sortData(data, comparator)` is stable (records the comparator ties keep
   * their input order) and sorting its result again changes nothing.
   */
  lemma SortWithStableIdempotent(data: seq<ProcessedData>, cmp: Comparator)
    requires ValidComparator(cmp)
    ensures forall v :: ClassOf(SortWith(data, cmp), v, cmp) == ClassOf(data, v, cmp)
    ensures SortWith(SortWith(data, cmp), cmp) == SortWith(data, cmp)
  {
    forall v
      ensures ClassOf(SortWith(data, cmp), v, cmp) == ClassOf(data, v, cmp)
    {
      SortIsStable(data, v, cmp);
    }
    if |data| > 0 {
      SortIdempotent(data, cmp);
    }
  }

  // ---------------------------------------------------------------------------
  // a stable sort has one possible output
  // ---------------------------------------------------------------------------

  lemma {:induction false} ClassOfMembers(s: seq<ProcessedData>, v: ProcessedData, cmp: Comparator)
    ensures forall x :: x in ClassOf(s, v, cmp) ==> x in s && cmp(x, v) == 0
    decreases |s|
  {
    if |s| > 0 {
      ClassOfMembers(s[..|s| - 1], v, cmp);
      assert forall x :: x in s[..|s| - 1] ==> x in s;
    }
  }

  lemma {:induction false} InOwnClass(s: seq<ProcessedData>, x: ProcessedData, cmp: Comparator)
    requires ValidComparator(cmp)
    requires x in s
    ensures x in ClassOf(s, x, cmp)
    decreases |s|
  {
    assert Sign(cmp(x, x)) == -Sign(cmp(x, x));
    if s[|s| - 1] != x {
      assert s == s[..|s| - 1] + [s[|s| - 1]];
      InOwnClass(s[..|s| - 1], x, cmp);
    }
  }

  /** In a sorted list, no element is after the last one. */
  lemma NotAfterLast(r: seq<ProcessedData>, x: ProcessedData, cmp: Comparator)
    requires ValidComparator(cmp)
    requires Sorted(r, cmp) && x in r
    ensures cmp(x, r[|r| - 1]) <= 0
  {
    var k :| 0 <= k < |r| && r[k] == x;
    if k == |r| - 1 {
      assert Sign(cmp(x, x)) == -Sign(cmp(x, x));
    }
  }

  /** Under a valid comparator every element compares equal to itself. */
  lemma CompareSelf(x: ProcessedData, cmp: Comparator)
    requires ValidComparator(cmp)
    ensures cmp(x, x) == 0
  {
    assert Sign(cmp(x, x)) == -Sign(cmp(x, x));
  }

  /** Elements neither before nor after each other compare equal. */
  lemma NeitherAfter(a: ProcessedData, b: ProcessedData, cmp: Comparator)
    requires ValidComparator(cmp)
    requires cmp(a, b) <= 0 && cmp(b, a) <= 0
    ensures cmp(b, a) == 0
  {
    assert Sign(cmp(a, b)) == -Sign(cmp(b, a));
  }

  /** A last element that compares equal to `v` closes `v`'s class. */
  lemma LastClosesClass(r: seq<ProcessedData>, v: ProcessedData, cmp: Comparator)
    requires |r| > 0 && cmp(r[|r| - 1], v) == 0
    ensures |ClassOf(r, v, cmp)| > 0 && ClassOf(r, v, cmp)[|ClassOf(r, v, cmp)| - 1] == r[|r| - 1]
  {
  }

  /** Two sorted lists with the same classes end in the same element. */
  lemma SameLast(r1: seq<ProcessedData>, r2: seq<ProcessedData>, cmp: Comparator)
    requires ValidComparator(cmp)
    requires Sorted(r1, cmp) && Sorted(r2, cmp) && |r1| > 0 && |r2| > 0
    requires forall v :: ClassOf(r1, v, cmp) == ClassOf(r2, v, cmp)
    ensures r1[|r1| - 1] == r2[|r2| - 1]
  {
    var a, b := r1[|r1| - 1], r2[|r2| - 1];
    InOwnClass(r1, a, cmp);
    ClassOfMembers(r2, a, cmp);
    InOwnClass(r2, b, cmp);
    ClassOfMembers(r1, b, cmp);
    NotAfterLast(r1, b, cmp);
    NotAfterLast(r2, a, cmp);
    NeitherAfter(a, b, cmp);
    CompareSelf(a, cmp);
    // both lists close `a`'s class with their last element
    LastClosesClass(r1, a, cmp);
    LastClosesClass(r2, a, cmp);
    assert ClassOf(r1, a, cmp) == ClassOf(r2, a, cmp);
  }

  /** Dropping the same last element from two lists keeps their classes equal. */
  lemma ClassesOfInits(i1: seq<ProcessedData>, i2: seq<ProcessedData>, a: ProcessedData, cmp: Comparator)
    requires forall v :: ClassOf(i1 + [a], v, cmp) == ClassOf(i2 + [a], v, cmp)
    ensures forall v :: ClassOf(i1, v, cmp) == ClassOf(i2, v, cmp)
  {
    forall v
      ensures ClassOf(i1, v, cmp) == ClassOf(i2, v, cmp)
    {
      var tail := if cmp(a, v) == 0 then [a] else [];
      ClassOfAppend(i1, a, v, cmp);
      ClassOfAppend(i2, a, v, cmp);
      var c1, c2 := ClassOf(i1, v, cmp), ClassOf(i2, v, cmp);
      assert c1 + tail == c2 + tail;
      assert c1 == (c1 + tail)[..|c1|] && c2 == (c2 + tail)[..|c2|];
    }
  }

  /** The empty list is the only one with every class empty. */
  lemma EmptyClasses(r1: seq<ProcessedData>, r2: seq<ProcessedData>, cmp: Comparator)
    requires ValidComparator(cmp)
    requires forall v :: ClassOf(r1, v, cmp) == ClassOf(r2, v, cmp)
    ensures |r1| == 0 <==> |r2| == 0
  {
    if |r1| > 0 {
      InOwnClass(r1, r1[0], cmp);
      ClassOfMembers(r2, r1[0], cmp);
    }
    if |r2| > 0 {
      InOwnClass(r2, r2[0], cmp);
      ClassOfMembers(r1, r2[0], cmp);
    }
  }

  /**
   * Two sorted lists in which every equivalence class appears in the same
   * order are the same list: a stable sort under a valid comparator has
   * exactly one possible output.
   */
  lemma {:induction false} StableSortUnique(r1: seq<ProcessedData>, r2: seq<ProcessedData>, cmp: Comparator)
    requires ValidComparator(cmp)
    requires Sorted(r1, cmp) && Sorted(r2, cmp)
    requires forall v :: ClassOf(r1, v, cmp) == ClassOf(r2, v, cmp)
    ensures r1 == r2
    decreases |r1|
  {
    EmptyClasses(r1, r2, cmp);
    if |r1| > 0 {
      SameLast(r1, r2, cmp);
      var a := r1[|r1| - 1];
      var i1, i2 := r1[..|r1| - 1], r2[..|r2| - 1];
      assert r1 == i1 + [a] && r2 == i2 + [a];
      ClassesOfInits(i1, i2, a, cmp);
      StableSortUnique(i1, i2, cmp);
    }
  }

  /** Any sorted list that keeps every equivalence class of `data` in input order is `SortWith(data, cmp)`. */
  lemma SortWithIsTheStableSort(data: seq<ProcessedData>, r: seq<ProcessedData>, cmp: Comparator)
    requires ValidComparator(cmp)
    requires Sorted(r, cmp)
    requires forall v :: ClassOf(r, v, cmp) == ClassOf(data, v, cmp)
    ensures r == SortWith(data, cmp)
  {
    SortWithPermutesSorts(data, cmp);
    SortWithStableIdempotent(data, cmp);
    StableSortUnique(r, SortWith(data, cmp), cmp);
  }

  /** `sortData(data, strategy)`: a permutation in the strategy's order. */
  lemma SortDataPermutesSorts(data: seq<ProcessedData>, strategy: SortStrategy)
    ensures multiset(SortData(data, strategy)) == multiset(data)
    ensures Sorted(SortData(data, strategy), ComparatorOf(strategy))
  {
    StrategyIsValid(strategy);
    SortWithPermutesSorts(data, ComparatorOf(strategy));
  }

  /** `sortData(data, strategy)`: stable under the strategy, and idempotent. */
  lemma SortDataStableIdempotent(data: seq<ProcessedData>, strategy: SortStrategy)
    ensures forall v :: ClassOf(SortData(data, strategy), v, ComparatorOf(strategy)) == ClassOf(data, v, ComparatorOf(strategy))
    ensures SortData(SortData(data, strategy), strategy) == SortData(data, strategy)
  {
    StrategyIsValid(strategy);
    SortWithStableIdempotent(data, ComparatorOf(strategy));
  }
}
