/**
 * `ProcessedData`: one transformed line. Its identity is its `id` alone:
 * `equals`, `hashCode` and `compareTo` ignore the content and the timestamp.
 */
module Records {
  import opened JavaStrings

  datatype ProcessedData = ProcessedData(id: string, content: string, timestamp: int)

  /** `equals`: same id. */
  predicate SameRecord(a: ProcessedData, b: ProcessedData) {
    a.id == b.id
  }

  /** `hashCode`: `Objects.hash(id)`, i.e. `31 + id.hashCode()` as a 32-bit pattern. */
  function RecordHash(d: ProcessedData): (h: nat)
    ensures h < TWO_TO_32
  {
    (31 + StringHash(d.id)) % TWO_TO_32
  }

  /** `compareTo`: `String.compareTo` on the ids. */
  function CompareRecords(a: ProcessedData, b: ProcessedData): int {
    CompareStrings(a.id, b.id)
  }

  /** Equality is id equality: content and timestamp play no part. */
  lemma SameRecordIgnoresPayload(a: ProcessedData, content: string, timestamp: int)
    ensures SameRecord(a, ProcessedData(a.id, content, timestamp))
    ensures forall b :: SameRecord(a, b) <==> SameRecord(b, a)
  {
  }

  /** Equal records hash equally: the hash depends on the id only. */
  lemma EqualRecordsHashEqually(a: ProcessedData, b: ProcessedData)
    requires SameRecord(a, b)
    ensures RecordHash(a) == RecordHash(b)
  {
  }

  /** `compareTo` flips sign when its arguments are swapped. */
  lemma CompareRecordsAntisymmetric(a: ProcessedData, b: ProcessedData)
    ensures CompareRecords(b, a) == -CompareRecords(a, b)
  {
    CompareStringsAntisymmetric(a.id, b.id);
  }

  lemma CompareRecordsTransitive(a: ProcessedData, b: ProcessedData, c: ProcessedData)
    requires CompareRecords(a, b) <= 0 && CompareRecords(b, c) <= 0
    ensures CompareRecords(a, c) <= 0
  {
    CompareStringsTransitive(a.id, b.id, c.id);
  }

  /** The natural order is consistent with equals. */
  lemma CompareRecordsConsistentWithEquals(a: ProcessedData, b: ProcessedData)
    ensures CompareRecords(a, b) == 0 <==> SameRecord(a, b)
  {
    CompareStringsZeroIffEqual(a.id, b.id);
  }

  /** The natural order puts `a` first exactly when its id is lexicographically smaller. */
  lemma CompareRecordsIsLexicographic(a: ProcessedData, b: ProcessedData)
    ensures CompareRecords(a, b) < 0 <==> LexLess(a.id, b.id)
  {
    CompareStringsIsLexicographic(a.id, b.id);
  }
}
