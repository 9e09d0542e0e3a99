/**
 * What `array_process` computes: every match of the quoted-literal pattern
 * in a string, each search resuming after the previous match, joined with
 * ", ".
 */
module LiteralSpans {
  import opened Patterns

  /** The text `array_process` returns when it finds no literal. */
  const NOT_AVAILABLE := "Not available"

  /** ", " before each literal matched from `from` on, all concatenated. */
  function SeparatedFrom(s: string, from: nat): (r: string)
    requires from <= |s|
    decreases |s| - from
  {
    match FindQuoted(s, from)
    case None => ""
    case Some((a, c)) => ", " + s[a..c + 1] + SeparatedFrom(s, c + 1)
  }

  /**
   * Every matched literal, quotes included, in order and separated by ", ";
   * "Not available" when there is none.
   */
  function AllLiterals(s: string): string
  {
    match FindQuoted(s, 0)
    case None => NOT_AVAILABLE
    case Some((a, c)) => s[a..c + 1] + SeparatedFrom(s, c + 1)
  }
}
