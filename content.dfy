/**
 * Post-processing of an extracted string literal: `ju_content_process`,
 * which drops the delimiting double quotes and every backslash but keeps
 * the length of its input.
 */
module Content {
  import opened Text
  import opened Patterns

  /**
   * Whether `ju_content_process` copies the character at `i`: a double quote
   * at the first or the last index is dropped, and so is every backslash.
   */
  predicate Kept(input: string, i: nat)
    requires i < |input|
  {
    !(input[i] == '"' && (i == 0 || i == |input| - 1)) && input[i] != '\\'
  }

  /** The copied characters among the first `n` of `input`, in order. */
  function StrippedPrefix(input: string, n: nat): (r: string)
    requires n <= |input|
    ensures |r| <= n
  {
    if n == 0 then []
    else StrippedPrefix(input, n - 1) + (if Kept(input, n - 1) then [input[n - 1]] else [])
  }

  /** All copied characters of `input`. */
  function Stripped(input: string): string
  {
    StrippedPrefix(input, |input|)
  }

  /**
   * The string `ju_content_process` returns: the whole `char[]` of the
   * input's length, so the copied characters followed by NULs.
   */
  function Processed(input: string): (r: string)
  {
    Stripped(input) + Nuls(|input| - |Stripped(input)|)
  }

  /** `ju_content_process`. */
  method ContentProcess(input: string) returns (r: string)
    ensures |r| == |input|
    ensures r == Processed(input)
  {
    var output := new char[|input|](_ => '\0');
    var i, j := 0, 0;
    while i < |input|
      invariant 0 <= j <= i <= |input|
      invariant output[..j] == StrippedPrefix(input, i)
      invariant forall k :: j <= k < output.Length ==> output[k] == '\0'
    {
      if input[i] == '"' && (i == 0 || i == |input| - 1) {
        // the delimiting quotes are skipped
      } else if input[i] == '\\' {
        // every backslash is skipped
      } else {
        output[j] := input[i];
        j := j + 1;
      }
      i := i + 1;
    }
    r := output[..];
    assert r == output[..j] + output[j..];
    assert output[j..] == Nuls(|input| - j);
  }

  /** No backslash survives. */
  lemma {:induction false} StrippedPrefixNoBackslash(input: string, n: nat)
    requires n <= |input|
    ensures forall k :: 0 <= k < |StrippedPrefix(input, n)| ==> StrippedPrefix(input, n)[k] != '\\'
  {
    if n > 0 { StrippedPrefixNoBackslash(input, n - 1); }
  }

  /** The processed string holds no backslash, only NULs after the copied part. */
  lemma ProcessedShape(input: string)
    ensures |Processed(input)| == |input|
    ensures forall k :: 0 <= k < |input| ==> Processed(input)[k] != '\\'
    ensures forall k :: |Stripped(input)| <= k < |input| ==> Processed(input)[k] == '\0'
  {
    StrippedPrefixNoBackslash(input, |input|);
  }

  /**
   * Inside a literal free of backslashes, every character after the opening
   * quote and before the last index is copied.
   */
  lemma {:induction false} StrippedInterior(input: string, n: nat)
    requires 1 <= n <= |input| - 1 && input[0] == '"'
    requires forall k :: 0 <= k < |input| ==> input[k] != '\\'
    ensures StrippedPrefix(input, n) == input[1..n]
  {
    if n > 1 {
      StrippedInterior(input, n - 1);
      assert input[1..n] == input[1..n - 1] + [input[n - 1]];
    }
  }

  /**
   * A double-quoted literal free of backslashes loses exactly its two
   * delimiting quotes; quotes inside it are kept.
   */
  lemma StrippedPlainLiteral(input: string)
    requires |input| >= 2 && input[0] == '"' && input[|input| - 1] == '"'
    requires forall k :: 0 <= k < |input| ==> input[k] != '\\'
    ensures Stripped(input) == input[1..|input| - 1]
  {
    StrippedInterior(input, |input| - 1);
    assert StrippedPrefix(input, |input|) == StrippedPrefix(input, |input| - 1);
  }

  /** The escaped quote of `"a\"b"` survives, and the result is NUL-padded. */
  lemma EscapedQuoteProcessed()
    ensures Processed("\"a\\\"b\"") == "a\"b" + Nuls(3)
  {
    var s := "\"a\\\"b\"";
    assert StrippedPrefix(s, 1) == [];
    assert StrippedPrefix(s, 2) == "a";
    assert StrippedPrefix(s, 3) == "a";
    assert StrippedPrefix(s, 4) == "a\"";
    assert StrippedPrefix(s, 5) == "a\"b";
    assert Stripped(s) == "a\"b";
  }
}
