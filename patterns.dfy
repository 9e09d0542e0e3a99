/**
 * Hand-written scanners for the three fixed regular expressions of
 * JsonUtils.java, each with the leftmost-match semantics of
 * `Matcher.find()`:
 *   - `-?[1-9]\d*|0` (numbers, line 207),
 *   - `true|false` (booleans, lines 172 and 455),
 *   - the quoted-literal pattern of lines 236 and 516: a single- or
 *     double-quoted literal whose body is a run of characters other than a
 *     backslash and that quote, or an escape `\b \t \n \f \r \" \' \\`, an
 *     octal escape `[0-3]?[0-7]{1,2}` or `\uXXXX`.
 */
module Patterns {
  import opened Text

  // ---------------------------------------------------------------- numbers

  predicate IsDigit(c: char) { '0' <= c <= '9' }
  predicate IsNonZeroDigit(c: char) { '1' <= c <= '9' }

  /** End of the maximal run of digits starting at `i` (`\d*`, greedy). */
  function DigitRun(w: string, i: nat): (r: nat)
    requires i <= |w|
    ensures i <= r <= |w|
    ensures forall k :: i <= k < r ==> IsDigit(w[k])
    ensures r < |w| ==> !IsDigit(w[r])
    decreases |w| - i
  {
    if i < |w| && IsDigit(w[i]) then DigitRun(w, i + 1) else i
  }

  /**
   * End (exclusive) of the match of `-?[1-9]\d*|0` that starts exactly at
   * `j`, if there is one. The first alternative is tried first, with the
   * sign taken when it can be; `0` is tried only when it fails.
   */
  function NumMatchAt(w: string, j: nat): Option<nat>
    requires j <= |w|
  {
    if j + 1 < |w| && w[j] == '-' && IsNonZeroDigit(w[j + 1]) then Some(DigitRun(w, j + 2))
    else if j < |w| && IsNonZeroDigit(w[j]) then Some(DigitRun(w, j + 1))
    else if j < |w| && w[j] == '0' then Some(j + 1)
    else None
  }

  /** The leftmost number match at or after `from`, as (start, end). */
  function FindNum(w: string, from: nat): (r: Option<(nat, nat)>)
    requires from <= |w|
    ensures r.Some? ==> from <= r.value.0 <= |w| && NumMatchAt(w, r.value.0) == Some(r.value.1)
    ensures forall j: nat :: from <= j <= |w| && (r.Some? ==> j < r.value.0) ==> NumMatchAt(w, j).None?
    decreases |w| - from
  {
    match NumMatchAt(w, from)
    case Some(e) => Some((from, e))
    case None => if from == |w| then None else FindNum(w, from + 1)
  }

  /**
   * A number token as the pattern admits it: exactly `0`, or an optional
   * minus, a non-zero digit and further digits.
   */
  predicate IsNumToken(m: string)
  {
    m == "0" ||
    (|m| >= 1 && IsNonZeroDigit(m[0]) && forall k :: 1 <= k < |m| ==> IsDigit(m[k])) ||
    (|m| >= 2 && m[0] == '-' && IsNonZeroDigit(m[1]) && forall k :: 2 <= k < |m| ==> IsDigit(m[k]))
  }

  /**
   * The text matched at the leftmost position is a number token; a token
   * that does not start with `0` takes every following digit; and no
   * earlier position starts a number.
   */
  lemma {:induction false} FindNumToken(w: string)
    requires FindNum(w, 0).Some?
    ensures var (a, b) := FindNum(w, 0).value;
      a < b <= |w| && IsNumToken(w[a..b]) &&
      (w[a..b] != "0" ==> b == |w| || !IsDigit(w[b])) &&
      forall j :: 0 <= j < a ==> NumMatchAt(w, j).None?
  {
    var (a, b) := FindNum(w, 0).value;
    var m := w[a..b];
    if a + 1 < |w| && w[a] == '-' && IsNonZeroDigit(w[a + 1]) {
      assert m[0] == '-' && m[1] == w[a + 1];
      assert forall k :: 2 <= k < |m| ==> m[k] == w[a + k];
    } else if a < |w| && IsNonZeroDigit(w[a]) {
      assert m[0] == w[a];
      assert forall k :: 1 <= k < |m| ==> m[k] == w[a + k];
    } else {
      assert m == [w[a]];
    }
  }

  /** A leading zero is not rejected: from `01` the match is `0`. */
  lemma LeadingZeroMatchesZero()
    ensures FindNum("01", 0) == Some((0, 1))
  {
    assert NumMatchAt("01", 0) == Some(1);
  }

  // --------------------------------------------------------------- booleans

  /**
   * The leftmost position at or after `from` where `true` or `false`
   * occurs, with the word found (`(true|false)`).
   */
  function FindBoolWord(w: string, from: nat): (r: Option<(nat, string)>)
    requires from <= |w|
    ensures r.Some? ==> from <= r.value.0 && (r.value.1 == "true" || r.value.1 == "false") &&
                        OccursAt(w, r.value.1, r.value.0)
    ensures forall j: nat :: from <= j && (r.Some? ==> j < r.value.0) ==>
              !OccursAt(w, "true", j) && !OccursAt(w, "false", j)
    decreases |w| - from
  {
    if OccursAt(w, "true", from) then Some((from, "true"))
    else if OccursAt(w, "false", from) then Some((from, "false"))
    else if from == |w| then None
    else FindBoolWord(w, from + 1)
  }

  // --------------------------------------------------------- quoted literals

  predicate IsQuote(c: char) { c == '\'' || c == '"' }
  predicate IsSimpleEscape(c: char) {
    c == 'b' || c == 't' || c == 'n' || c == 'f' || c == 'r' || c == '"' || c == '\'' || c == '\\'
  }
  predicate IsOctal(c: char) { '0' <= c <= '7' }
  predicate IsHex(c: char) { '0' <= c <= '9' || 'a' <= c <= 'f' || 'A' <= c <= 'F' }

  /** `\u` at `pos` followed by four hexadecimal digits. */
  predicate IsUnicodeEscape(s: string, pos: nat)
  {
    pos + 5 < |s| && s[pos + 1] == 'u' &&
    IsHex(s[pos + 2]) && IsHex(s[pos + 3]) && IsHex(s[pos + 4]) && IsHex(s[pos + 5])
  }

  /**
   * Width of the escape whose backslash is at `pos`: two for a simple or an
   * octal escape (the digits after the first octal digit are ordinary body
   * characters either way), six for `\uXXXX`. A backslash that begins no
   * valid escape gives none.
   */
  function EscapeWidth(s: string, pos: nat): (w: Option<nat>)
    requires pos < |s|
    ensures w.Some? ==> 2 <= w.value && pos + w.value <= |s|
  {
    if pos + 1 < |s| && (IsSimpleEscape(s[pos + 1]) || IsOctal(s[pos + 1])) then Some(2)
    else if IsUnicodeEscape(s, pos) then Some(6)
    else None
  }

  /**
   * Index of the quote `q` that closes a literal whose body goes on at
   * `pos`: characters other than a backslash are consumed until `q` turns
   * up. No closing quote, or a backslash that begins no valid escape, means
   * no match here.
   */
  function LiteralEnd(s: string, q: char, pos: nat): (r: Option<nat>)
    requires pos <= |s|
    ensures r.Some? ==> pos <= r.value < |s| && s[r.value] == q
    decreases |s| - pos, 1
  {
    if pos == |s| then None
    else if s[pos] == q then Some(pos)
    else if s[pos] != '\\' then LiteralEnd(s, q, pos + 1)
    else EscapeEnd(s, q, pos)
  }

  /** `LiteralEnd` past the escape whose backslash is at `pos`. */
  function EscapeEnd(s: string, q: char, pos: nat): (r: Option<nat>)
    requires pos < |s|
    ensures r.Some? ==> pos < r.value < |s| && s[r.value] == q
    decreases |s| - pos, 0
  {
    match EscapeWidth(s, pos)
    case None => None
    case Some(w) => LiteralEnd(s, q, pos + w)
  }

  /** Index of the closing quote of a literal that opens at `j`. */
  function QuotedAt(s: string, j: nat): (r: Option<nat>)
    requires j < |s|
    ensures r.Some? ==> IsQuote(s[j]) && j < r.value < |s| && s[r.value] == s[j]
  {
    if IsQuote(s[j]) then LiteralEnd(s, s[j], j + 1) else None
  }

  /** The leftmost quoted literal at or after `from`, as (open, close) indices. */
  function FindQuoted(s: string, from: nat): (r: Option<(nat, nat)>)
    requires from <= |s|
    ensures r.Some? ==>
      from <= r.value.0 < r.value.1 < |s| && IsQuote(s[r.value.0]) && s[r.value.1] == s[r.value.0]
    decreases |s| - from
  {
    if from == |s| then None
    else match QuotedAt(s, from)
      case Some(c) => Some((from, c))
      case None => FindQuoted(s, from + 1)
  }

  /** The match found is a literal that opens and closes where it says. */
  lemma {:induction false} FindQuotedMatch(s: string, from: nat)
    requires from <= |s| && FindQuoted(s, from).Some?
    ensures QuotedAt(s, FindQuoted(s, from).value.0) == Some(FindQuoted(s, from).value.1)
    decreases |s| - from
  {
    if QuotedAt(s, from).None? { FindQuotedMatch(s, from + 1); }
  }

  /** No literal opens before the one found. */
  lemma {:induction false} FindQuotedLeftmost(s: string, from: nat, j: nat)
    requires from <= j < |s|
    requires FindQuoted(s, from).Some? ==> j < FindQuoted(s, from).value.0
    ensures QuotedAt(s, j).None?
    decreases |s| - from
  {
    if from < j { FindQuotedLeftmost(s, from + 1, j); }
  }

  /** An escape is as wide in a suffix of the string as in the string. */
  lemma EscapeWidthShift(s: string, d: nat, pos: nat)
    requires d <= pos < |s|
    ensures EscapeWidth(s[d..], pos - d) == EscapeWidth(s, pos)
  {
  }

  /**
   * Scanning a literal body in the suffix `s[d..]` finds the same closing
   * quote as in `s`, `d` positions earlier.
   */
  lemma {:induction false} LiteralEndShift(s: string, q: char, d: nat, pos: nat)
    requires d <= pos <= |s|
    ensures LiteralEnd(s[d..], q, pos - d).Some? <==> LiteralEnd(s, q, pos).Some?
    ensures LiteralEnd(s, q, pos).Some? ==>
              LiteralEnd(s[d..], q, pos - d).value == LiteralEnd(s, q, pos).value - d
    decreases |s| - pos, 1
  {
    if pos < |s| && s[pos] != q {
      if s[pos] != '\\' {
        LiteralEndShift(s, q, d, pos + 1);
      } else {
        EscapeEndShift(s, q, d, pos);
      }
    }
  }

  /** `EscapeEnd` in the suffix `s[d..]`, likewise. */
  lemma {:induction false} EscapeEndShift(s: string, q: char, d: nat, pos: nat)
    requires d <= pos < |s|
    ensures EscapeEnd(s[d..], q, pos - d).Some? <==> EscapeEnd(s, q, pos).Some?
    ensures EscapeEnd(s, q, pos).Some? ==>
              EscapeEnd(s[d..], q, pos - d).value == EscapeEnd(s, q, pos).value - d
    decreases |s| - pos, 0
  {
    EscapeWidthShift(s, d, pos);
    if EscapeWidth(s, pos).Some? {
      LiteralEndShift(s, q, d, pos + EscapeWidth(s, pos).value);
    }
  }

  /** A literal opening at `j` opens at `j - d` in the suffix `s[d..]` and closes `d` earlier. */
  lemma QuotedAtShift(s: string, d: nat, j: nat)
    requires d <= j < |s|
    ensures QuotedAt(s[d..], j - d).Some? <==> QuotedAt(s, j).Some?
    ensures QuotedAt(s, j).Some? ==> QuotedAt(s[d..], j - d).value == QuotedAt(s, j).value - d
  {
    if IsQuote(s[j]) {
      LiteralEndShift(s, s[j], d, j + 1);
    }
  }

  /**
   * When no quote stands between `from` and a literal opening at `a`, the
   * search from `from` returns that literal.
   */
  lemma {:induction false} FindQuotedSkip(s: string, from: nat, a: nat)
    requires from <= a < |s| && QuotedAt(s, a).Some?
    requires forall j :: from <= j < a ==> !IsQuote(s[j])
    ensures FindQuoted(s, from) == Some((a, QuotedAt(s, a).value))
    decreases a - from
  {
    if from < a {
      FindQuotedSkip(s, from + 1, a);
    }
  }

  /**
   * Inside a matched literal, every quote of the literal's own kind is
   * escaped: the character before it is a backslash.
   */
  lemma {:induction false} LiteralEndEscapedQuotes(s: string, q: char, pos: nat, k: nat)
    requires IsQuote(q) && pos <= |s| && LiteralEnd(s, q, pos).Some?
    requires pos <= k < LiteralEnd(s, q, pos).value && s[k] == q
    ensures pos < k && s[k - 1] == '\\'
    decreases |s| - pos
  {
    if s[pos] != '\\' {
      if k > pos { LiteralEndEscapedQuotes(s, q, pos + 1, k); }
    } else {
      var w := EscapeWidth(s, pos).value;
      if k >= pos + w { LiteralEndEscapedQuotes(s, q, pos + w, k); }
    }
  }

  /**
   * A literal with no backslash and no inner quote of its kind is matched
   * exactly up to its closing quote.
   */
  lemma {:induction false} PlainLiteral(s: string, q: char, pos: nat, c: nat)
    requires pos <= c < |s| && s[c] == q
    requires forall k :: pos <= k < c ==> s[k] != q && s[k] != '\\'
    ensures LiteralEnd(s, q, pos) == Some(c)
    decreases c - pos
  {
    if pos < c { PlainLiteral(s, q, pos + 1, c); }
  }

  /** The escaped quote of `"a\"b"` does not end the literal. */
  lemma EscapedQuoteLiteral()
    ensures QuotedAt("\"a\\\"b\"", 0) == Some(5)
  {
    var s := "\"a\\\"b\"";
    assert LiteralEnd(s, '"', 5) == Some(5);
    assert LiteralEnd(s, '"', 4) == Some(5);
    assert LiteralEnd(s, '"', 2) == Some(5);
  }
}
