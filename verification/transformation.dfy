/**
 * `Transformation`: a line rewriter `(line, lineNumber, sourceFile) -> String`.
 * A Java transformation may throw; here it returns `None` instead.
 */
module Transformations {
  import opened Wrappers
  import opened JavaStrings

  type Transformation = (string, int, string) -> Option<string>

  /** `IDENTITY`: the line unchanged. */
  const IDENTITY: Transformation := (line: string, n: int, file: string) => Some(line)

  /** `TRIM`: `line.trim()`. */
  const TRIM: Transformation := (line: string, n: int, file: string) => Some(Trim(line))

  /** `ADD_LINE_NUMBER`: `String.format("[%s:%d] %s", sourceFile, lineNumber, line)`. */
  function NumberedLine(line: string, n: int, file: string): string {
    "[" + file + ":" + IntToString(n) + "] " + line
  }

  const ADD_LINE_NUMBER: Transformation :=
    (line: string, n: int, file: string) => Some(NumberedLine(line, n, file))

  /**
   * `a.andThen(after)`: run `a`, then feed its output to `after` with the same
   * line number and file. A throw in either stage makes the whole call throw.
   */
  function AndThen(a: Transformation, after: Transformation): Transformation {
    (line: string, n: int, file: string) =>
      match a(line, n, file)
      case None => None
      case Some(x) => after(x, n, file)
  }

  /** `a.compose(before)`: run `before`, then `a`. */
  function Compose(a: Transformation, before: Transformation): Transformation {
    (line: string, n: int, file: string) =>
      match before(line, n, file)
      case None => None
      case Some(x) => a(x, n, file)
  }

  /** `createDefaultTransformation`: `TRIM.andThen(ADD_LINE_NUMBER)`. */
  const DEFAULT: Transformation := AndThen(TRIM, ADD_LINE_NUMBER)

  /** Two transformations that agree on every input. */
  ghost predicate SameEverywhere(f: Transformation, g: Transformation) {
    forall line, n, file :: f(line, n, file) == g(line, n, file)
  }

  /** `TRIM` is idempotent. */
  lemma TrimTwiceIsTrimOnce(line: string, n: int, file: string)
    ensures AndThen(TRIM, TRIM)(line, n, file) == TRIM(line, n, file)
  {
    TrimIdempotent(line);
  }

  /** `a.compose(b)` is `b.andThen(a)`. */
  lemma ComposeIsFlippedAndThen(a: Transformation, b: Transformation)
    ensures SameEverywhere(Compose(a, b), AndThen(b, a))
  {
  }

  lemma AndThenAssociative(a: Transformation, b: Transformation, c: Transformation)
    ensures SameEverywhere(AndThen(AndThen(a, b), c), AndThen(a, AndThen(b, c)))
  {
  }

  /** `IDENTITY` is a unit on both sides of `andThen`. */
  lemma IdentityIsUnit(a: Transformation)
    ensures SameEverywhere(AndThen(IDENTITY, a), a)
    ensures SameEverywhere(AndThen(a, IDENTITY), a)
  {
  }

  /**
   * The default transformation numbers the trimmed line, so its output always
   * begins with `"[" + file + ":"` and ends with the trimmed line.
   */
  lemma DefaultNumbersTrimmedLine(line: string, n: int, file: string)
    ensures DEFAULT(line, n, file) == Some(NumberedLine(Trim(line), n, file))
    ensures StartsWith(DEFAULT(line, n, file).value, "[" + file + ":")
    ensures EndsWith(DEFAULT(line, n, file).value, Trim(line))
  {
    var out := NumberedLine(Trim(line), n, file);
    assert out == ("[" + file + ":") + (IntToString(n) + "] " + Trim(line));
    assert out == ("[" + file + ":" + IntToString(n) + "] ") + Trim(line);
  }
}
