/**
 * `array_process`, which joins every quoted literal of a string with ", ",
 * and what its result means.
 */
module ArrayJoin {
  import opened Text
  import opened Patterns
  import opened LiteralSpans

  /** Text that starts with a quote is not "Not available", and keeps its quote when extended. */
  lemma QuotePrefix(x: string, y: string)
    requires |x| >= 1 && IsQuote(x[0])
    ensures x != NOT_AVAILABLE && |x + y| >= 1 && IsQuote((x + y)[0]) && x + y != NOT_AVAILABLE
  {
    assert (x + y)[0] == x[0];
    assert NOT_AVAILABLE[0] == 'N';
  }

  /** "Not available" is the result exactly when the string holds no literal. */
  lemma AllLiteralsAvailable(s: string)
    ensures AllLiterals(s) == NOT_AVAILABLE <==> FindQuoted(s, 0).None?
  {
    if FindQuoted(s, 0).Some? {
      var (a, c) := FindQuoted(s, 0).value;
      assert s[a..c + 1][0] == s[a];
      QuotePrefix(s[a..c + 1], SeparatedFrom(s, c + 1));
    }
  }

  /** The output after taking literal `m`: the literal alone at first, then appended after ", ". */
  function Appended(output: string, m: string): string
  {
    if output == NOT_AVAILABLE then m else output + ", " + m
  }

  /**
   * The output the loop of `array_process` ends with when it is at `from`
   * holding `output`: each further match is taken in turn.
   */
  function FoldFrom(arr: string, output: string, from: nat): string
    requires from <= |arr|
    decreases |arr| - from
  {
    match FindQuoted(arr, from)
    case None => output
    case Some((a, c)) => FoldFrom(arr, Appended(output, arr[a..c + 1]), c + 1)
  }

  /** Regrouping a concatenation of four parts. */
  lemma Regroup(x: string, y: string, z: string, w: string)
    ensures x + ((y + z) + w) == ((x + y) + z) + w
  {
  }

  /** Once a literal has been taken, the loop appends ", " and each further literal. */
  lemma {:induction false} FoldSeparated(arr: string, output: string, from: nat)
    requires from <= |arr| && |output| >= 1 && IsQuote(output[0])
    ensures FoldFrom(arr, output, from) == output + SeparatedFrom(arr, from)
    decreases |arr| - from
  {
    match FindQuoted(arr, from)
    case None =>
      assert output + "" == output;
    case Some((a, c)) =>
      var m := arr[a..c + 1];
      QuotePrefix(output, ", " + m);
      assert output + ", " + m == output + (", " + m);
      FoldSeparated(arr, output + ", " + m, c + 1);
      Regroup(output, ", ", m, SeparatedFrom(arr, c + 1));
  }

  /** Run from the start, the loop yields every literal joined with ", ", or "Not available". */
  lemma FoldJoins(arr: string)
    ensures FoldFrom(arr, NOT_AVAILABLE, 0) == AllLiterals(arr)
  {
    match FindQuoted(arr, 0)
    case None =>
    case Some((a, c)) =>
      assert arr[a..c + 1][0] == arr[a];
      FoldSeparated(arr, arr[a..c + 1], c + 1);
  }

  /** One step of the loop of `array_process`: take `m` into the output. */
  method Extend(output: string, m: string) returns (r: string)
    ensures r == Appended(output, m)
  {
    if output == NOT_AVAILABLE {
      r := m;
    } else {
      r := output + ", " + m;
    }
  }

  /**
   * `array_process`: every match of the quoted-literal pattern, each search
   * resuming after the previous match, taken into the output in turn.
   */
  method ArrayProcess(arr: string) returns (output: string)
    ensures output == FoldFrom(arr, NOT_AVAILABLE, 0)
  {
    output := NOT_AVAILABLE;
    var from := 0;
    var next := FindQuoted(arr, 0);
    while next.Some?
      invariant from <= |arr| && next == FindQuoted(arr, from)
      invariant FoldFrom(arr, output, from) == FoldFrom(arr, NOT_AVAILABLE, 0)
      decreases |arr| - from
    {
      var (a, c) := next.value;
      output := Extend(output, arr[a..c + 1]);
      from := c + 1;
      next := FindQuoted(arr, from);
    }
  }
}
