/**
 * `Chunk`: an immutable slice of one source file's lines. The Java class copies
 * the line list on the way in and on the way out; as a Dafny value a chunk
 * cannot be changed after construction, so its getters are the datatype's
 * fields.
 */
module Chunks {
  import opened JavaStrings

  datatype Chunk = Chunk(
    chunkId: string,
    sourceFile: string,
    lines: seq<string>,
    startLine: int,
    endLine: int)
  {
    /** `getSize`: the number of stored lines. */
    function Size(): nat {
      |lines|
    }

    /** The chunk's 1-based, inclusive line range spans exactly its lines. */
    predicate WellFormed() {
      endLine - startLine + 1 == |lines|
    }

    /** `toString`: `Chunk[<id>] from <file> [lines <start>-<end>]`. */
    function ToString(): string {
      "Chunk[" + chunkId + "] from " + sourceFile + " [lines "
        + IntToString(startLine) + "-" + IntToString(endLine) + "]"
    }
  }

  /**
   * The rendering keeps the line range recoverable: two chunks of one id and
   * file that print alike cover the same (non-negative) lines.
   */
  lemma ToStringDeterminesRange(c: Chunk, d: Chunk)
    requires c.chunkId == d.chunkId && c.sourceFile == d.sourceFile
    requires c.startLine >= 0 && c.endLine >= 0 && d.startLine >= 0 && d.endLine >= 0
    requires c.ToString() == d.ToString()
    ensures c.startLine == d.startLine && c.endLine == d.endLine
  {
    var head := "Chunk[" + c.chunkId + "] from " + c.sourceFile + " [lines ";
    var x, y := IntToString(c.startLine), IntToString(c.endLine);
    var x', y' := IntToString(d.startLine), IntToString(d.endLine);
    DropLast(head + x + "-" + y, head + x' + "-" + y', ']');
    NoSignInNatural(c.startLine);
    NoSignInNatural(d.startLine);
    SplitAfterPrefix(head, x, y, x', y', '-');
    IntToStringInjective(c.startLine, d.startLine);
    IntToStringInjective(c.endLine, d.endLine);
  }
}
