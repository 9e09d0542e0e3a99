/**
 * What each kind of JSON element ends up holding: the value of `je_len`
 * after `je_len_calc` and of `je_content` after `je_val_extract`, for the
 * five element classes `bool_elem`, `num_elem`, `string_elem`, `arr_elem`
 * and `obj_elem`. Every element starts its work at `je_start`, the offset of
 * the opening quote of its key, not at the value.
 */
module ElementSpec {
  import opened Text
  import opened Patterns
  import opened Brackets
  import opened Content
  import opened Classifier

  /** The five element classes (the runtime class of a `JElem`). */
  datatype ElemKind = BoolElem | NumElem | StringElem | ArrElem | ObjElem

  /** The text stored when a value cannot be extracted. */
  const INVALID := "Input string is invalid"

  /** Java's `Integer.MAX_VALUE`, the "not found" index of `bool_elem`. */
  const INT_MAX: int := 0x7fff_ffff

  /**
   * The `je_type` each class sets in its constructor. `obj_elem` sets
   * `JT_ARRAY`, not `JT_OBJ`.
   */
  function KindType(k: ElemKind): ElemType
  {
    match k
    case BoolElem => Bool
    case NumElem => Num
    case StringElem => String
    case ArrElem => Array
    case ObjElem => Array
  }

  /** The class `json_elem_create` instantiates for a type; none for `JT_INVAL`. */
  function KindFor(t: ElemType): Option<ElemKind>
  {
    match t
    case Obj => Some(ObjElem)
    case Array => Some(ArrElem)
    case String => Some(StringElem)
    case Num => Some(NumElem)
    case Bool => Some(BoolElem)
    case Inval => None
  }

  /** Offset of a search result, or `Integer.MAX_VALUE` when nothing was found. */
  function IndexOrMax(r: Option<nat>): int
  {
    if r.Some? then r.value else INT_MAX
  }

  // ------------------------------------------------------------- bool_elem

  /**
   * `bool_elem.je_val_extract`: from the key on, up to (but not including)
   * the document's last character, find the first comma and the first
   * newline; if neither is there the value is invalid, otherwise the first
   * `true` or `false` before the nearer of the two is the value.
   */
  function BoolContent(parent: string, start: nat): string
    requires start < |parent|
  {
    match Terminator(parent[start..|parent| - 1])
    case None => INVALID
    case Some(minIdx) => WordOrInvalid(parent[start..start + minIdx])
  }

  /**
   * The offset in `w` of the nearer of the first comma and the first
   * newline, as `Math.min` of the two `Integer.MAX_VALUE`-defaulted
   * indices; none when the two are equal, that is when neither is found.
   */
  function Terminator(w: string): (r: Option<nat>)
    ensures r.Some? ==> r.value <= |w|
  {
    var commaIdx := IndexOrMax(Find(w, ',', 0));
    var nextLineIdx := IndexOrMax(Find(w, '\n', 0));
    if nextLineIdx == commaIdx then None
    else Some(if commaIdx < nextLineIdx then commaIdx else nextLineIdx)
  }

  /** The first `true` or `false` in `v`, or the invalid marker. */
  function WordOrInvalid(v: string): (r: string)
  {
    match FindBoolWord(v, 0)
    case Some((_, word)) => word
    case None => INVALID
  }

  /**
   * The boolean content is `true`, `false` or the invalid marker, and it is
   * the invalid marker when the searched range holds neither a comma nor a
   * newline.
   */
  lemma BoolContentShape(parent: string, start: nat)
    requires start < |parent|
    ensures var r := BoolContent(parent, start);
      r == "true" || r == "false" || r == INVALID
    ensures (forall j :: start <= j < |parent| - 1 ==> parent[j] != ',' && parent[j] != '\n') ==>
      BoolContent(parent, start) == INVALID
  {
    var w := parent[start..|parent| - 1];
    if forall j :: start <= j < |parent| - 1 ==> parent[j] != ',' && parent[j] != '\n' {
      assert forall j :: 0 <= j < |w| ==> w[j] == parent[start + j];
    }
  }

  /**
   * With a comma or newline at `u` and neither before it, the nearer
   * terminator is at `u`. Java strings are at most `Integer.MAX_VALUE`
   * long, so no index found equals the sentinel.
   */
  lemma TerminatorAt(w: string, u: nat)
    requires u < |w| <= INT_MAX && (w[u] == ',' || w[u] == '\n')
    requires forall j :: 0 <= j < u ==> w[j] != ',' && w[j] != '\n'
    ensures Terminator(w) == Some(u)
  {
    if w[u] == ',' {
      assert Find(w, ',', 0) == Some(u);
    } else {
      assert Find(w, '\n', 0) == Some(u);
    }
  }

  /**
   * The word search yields the leftmost `true` or `false` in `v`, or the
   * invalid marker exactly when neither occurs.
   */
  lemma WordOrInvalidLeftmost(v: string)
    ensures var r := WordOrInvalid(v);
      (r == INVALID && forall i :: 0 <= i <= |v| ==> !OccursAt(v, "true", i) && !OccursAt(v, "false", i)) ||
      exists i ::
        0 <= i <= |v| && (r == "true" || r == "false") && OccursAt(v, r, i) &&
        forall j :: 0 <= j < i ==> !OccursAt(v, "true", j) && !OccursAt(v, "false", j)
  {
    if FindBoolWord(v, 0).Some? {
      var (i, word) := FindBoolWord(v, 0).value;
      assert i + |word| <= |v|;
    }
  }

  /**
   * When the first comma or newline from the key on is at `t`, the boolean
   * content is the leftmost `true` or `false` lying wholly before `t`, or
   * the invalid marker when there is none.
   */
  lemma BoolContentBeforeTerminator(parent: string, start: nat, t: nat)
    requires start <= t < |parent| - 1 && |parent| <= INT_MAX
    requires parent[t] == ',' || parent[t] == '\n'
    requires forall j :: start <= j < t ==> parent[j] != ',' && parent[j] != '\n'
    ensures var v := parent[start..t];
      var r := BoolContent(parent, start);
      (r == INVALID && forall i :: 0 <= i <= |v| ==> !OccursAt(v, "true", i) && !OccursAt(v, "false", i)) ||
      exists i ::
        0 <= i <= |v| && (r == "true" || r == "false") && OccursAt(v, r, i) &&
        forall j :: 0 <= j < i ==> !OccursAt(v, "true", j) && !OccursAt(v, "false", j)
  {
    var w := parent[start..|parent| - 1];
    forall j | 0 <= j < t - start
      ensures w[j] != ',' && w[j] != '\n'
    {
      assert w[j] == parent[start + j];
    }
    assert w[t - start] == parent[t];
    TerminatorAt(w, t - start);
    assert BoolContent(parent, start) == WordOrInvalid(parent[start..t]);
    WordOrInvalidLeftmost(parent[start..t]);
  }

  /**
   * The search range starts at the key's opening quote, so a key that
   * spells `true` is found before the value: `{"true":false,` yields `true`.
   */
  lemma BoolKeyShadowsValue()
    ensures BoolContent("{\"true\":false,}", 1) == "true"
  {
    var s := "{\"true\":false,}";
    var w := s[1..|s| - 1];
    assert Find(w, ',', 0) == Some(12) by {
      assert w[12] == ',';
      assert forall j :: 0 <= j < 12 ==> w[j] != ',';
    }
    assert Find(w, '\n', 0) == None;
    var v := s[1..13];
    assert v == "\"true\":false";
    assert v[1..5] == "true";
    assert FindBoolWord(v, 1) == Some((1, "true"));
  }

  // -------------------------------------------------------------- num_elem

  /**
   * `num_elem.je_val_extract`: the first match of `-?[1-9]\d*|0` from the
   * key on, up to (but not including) the document's last character.
   */
  function NumContent(parent: string, start: nat): string
    requires start < |parent|
  {
    var w := parent[start..|parent| - 1];
    match FindNum(w, 0)
    case Some((a, b)) => w[a..b]
    case None => INVALID
  }

  /**
   * The numeric content is a number token (an integer without exponent or
   * fraction, `0` or without leading zero) or the invalid marker, the
   * latter exactly when the range holds no digit.
   */
  lemma NumContentShape(parent: string, start: nat)
    requires start < |parent|
    ensures NumContent(parent, start) == INVALID || IsNumToken(NumContent(parent, start))
    ensures NumContent(parent, start) == INVALID <==>
      forall j :: start <= j < |parent| - 1 ==> !IsDigit(parent[j])
  {
    var w := parent[start..|parent| - 1];
    if FindNum(w, 0).Some? {
      FindNumToken(w);
      var (a, b) := FindNum(w, 0).value;
      assert w[a..b][0] == w[a];
      assert w[a..b] != INVALID by { assert INVALID[0] == 'I'; }
      if w[a] == '-' {
        assert w[a + 1] == parent[start + a + 1] && IsDigit(w[a + 1]);
      } else {
        assert w[a] == parent[start + a] && IsDigit(w[a]);
      }
    } else {
      forall j | start <= j < |parent| - 1
        ensures !IsDigit(parent[j])
      {
        assert w[j - start] == parent[j];
        assert NumMatchAt(w, j - start).None?;
      }
    }
  }

  // ----------------------------------------------------------- string_elem

  /**
   * `string_elem.je_val_extract`: from the first colon at or after the key,
   * the first quoted literal, passed through `ju_content_process`.
   */
  function StringContent(parent: string, start: nat): string
    requires start <= |parent|
  {
    match Find(parent, ':', start)
    case None => INVALID
    case Some(colon) =>
      var rest := parent[colon..];
      match FindQuoted(rest, 0)
      case Some((a, b)) => Processed(rest[a..b + 1])
      case None => INVALID
  }

  /**
   * The string content is the leftmost quoted literal from the first colon
   * at or after the key, processed; it is the invalid marker when there is
   * no such colon or no literal after it.
   */
  lemma StringContentLiteral(parent: string, start: nat)
    requires start <= |parent|
    ensures var r := StringContent(parent, start);
      match Find(parent, ':', start)
      case None => r == INVALID
      case Some(colon) =>
        var rest := parent[colon..];
        (r == INVALID && forall j :: 0 <= j < |rest| ==> QuotedAt(rest, j).None?) ||
        exists a ::
          0 <= a < |rest| && QuotedAt(rest, a).Some? &&
          (forall j :: 0 <= j < a ==> QuotedAt(rest, j).None?) &&
          r == Processed(rest[a..QuotedAt(rest, a).value + 1])
  {
    if Find(parent, ':', start).Some? {
      var colon := Find(parent, ':', start).value;
      var rest := parent[colon..];
      if FindQuoted(rest, 0).None? {
        forall j | 0 <= j < |rest|
          ensures QuotedAt(rest, j).None?
        {
          FindQuotedLeftmost(rest, 0, j);
        }
      } else {
        var a := FindQuoted(rest, 0).value.0;
        FindQuotedMatch(rest, 0);
        forall j | 0 <= j < a
          ensures QuotedAt(rest, j).None?
        {
          FindQuotedLeftmost(rest, 0, j);
        }
      }
    }
  }

  /**
   * A processed string literal is as long as the literal, quotes included,
   * and free of backslashes.
   */
  lemma StringContentShape(parent: string, start: nat)
    requires start <= |parent|
    ensures var r := StringContent(parent, start);
      r == INVALID ||
      ((exists lit :: |lit| >= 2 && IsQuote(lit[0]) && r == Processed(lit) && |r| == |lit|) &&
       (forall k :: 0 <= k < |r| ==> r[k] != '\\'))
  {
    if StringContent(parent, start) != INVALID {
      var colon := Find(parent, ':', start).value;
      var rest := parent[colon..];
      var (a, b) := FindQuoted(rest, 0).value;
      var lit := rest[a..b + 1];
      ProcessedShape(lit);
    }
  }

  /**
   * A colon that is the first at or after the key, followed by characters
   * that are not quotes and then by a literal that closes, makes the string
   * content exactly that literal, processed.
   */
  lemma StringContentAt(parent: string, start: nat, colon: nat, p: nat)
    requires start <= colon < p < |parent| && parent[colon] == ':'
    requires forall j :: start <= j < colon ==> parent[j] != ':'
    requires forall j :: colon < j < p ==> !IsQuote(parent[j])
    requires QuotedAt(parent, p).Some?
    ensures StringContent(parent, start) == Processed(parent[p..QuotedAt(parent, p).value + 1])
  {
    var rest := parent[colon..];
    var c := QuotedAt(parent, p).value;
    QuotedAtShift(parent, colon, p);
    FindQuotedSkip(rest, 0, p - colon);
    assert rest[p - colon..c - colon + 1] == parent[p..c + 1];
  }

  // ------------------------------------------------ arr_elem and obj_elem

  /**
   * `arr_elem.je_len_calc`: the characters from the key to the closing
   * bracket, or -1 when there is no `[` or it is never closed.
   */
  function ArrLen(parent: string, start: nat): int
    requires start <= |parent|
  {
    match BracketScan(parent, '[', ']', start)
    case NoOpen => -1
    case Unbalanced => -1
    case Matched(_, c) => c - start + 1
  }

  /**
   * `obj_elem.je_len_calc`: likewise with braces, except that an unclosed
   * `{` leaves the length as it was (`prior`).
   */
  function ObjLen(parent: string, start: nat, prior: int): int
    requires start <= |parent|
  {
    match BracketScan(parent, '{', '}', start)
    case NoOpen => -1
    case Unbalanced => prior
    case Matched(_, c) => c - start + 1
  }

  /**
   * The slice `je_val_extract` of `arr_elem`/`obj_elem` takes needs no
   * exception: from the first `open` at or after the key to `start + len`.
   */
  predicate SliceDefined(parent: string, start: nat, open: char, len: int)
    requires start <= |parent|
  {
    match Find(parent, open, start)
    case None => true
    case Some(o) => o <= start + len <= |parent|
  }

  /**
   * `je_val_extract` of `arr_elem`/`obj_elem`: the text from the first
   * `open` at or after the key to `start + len`; with no `open` the content
   * stays as it was (`prior`).
   */
  function BracketContent(parent: string, start: nat, open: char, len: int, prior: Option<string>): Option<string>
    requires start <= |parent| && SliceDefined(parent, start, open, len)
  {
    match Find(parent, open, start)
    case None => prior
    case Some(o) => Some(parent[o..start + len])
  }

  // ------------------------------------------------------- per-kind views

  /** `je_len` after `je_len_calc`, from its value `prior` before. */
  function CalculatedLen(k: ElemKind, parent: string, start: nat, prior: int): int
    requires start <= |parent|
  {
    match k
    case ArrElem => ArrLen(parent, start)
    case ObjElem => ObjLen(parent, start, prior)
    case _ => prior
  }

  /** What `je_val_extract` needs not to throw, given the current `je_len`. */
  predicate ExtractDefined(k: ElemKind, parent: string, start: nat, len: int)
  {
    match k
    case BoolElem => start < |parent|
    case NumElem => start < |parent|
    case StringElem => start <= |parent|
    case ArrElem => start <= |parent| && SliceDefined(parent, start, '[', len)
    case ObjElem => start <= |parent| && SliceDefined(parent, start, '{', len)
  }

  /** `je_content` after `je_val_extract`, from its value `prior` before. */
  function ExtractedContent(k: ElemKind, parent: string, start: nat, len: int, prior: Option<string>): Option<string>
    requires ExtractDefined(k, parent, start, len)
  {
    match k
    case BoolElem => Some(BoolContent(parent, start))
    case NumElem => Some(NumContent(parent, start))
    case StringElem => Some(StringContent(parent, start))
    case ArrElem => BracketContent(parent, start, '[', len, prior)
    case ObjElem => BracketContent(parent, start, '{', len, prior)
  }

  /**
   * What constructing an element needs not to throw: the bool and number
   * searches take the range from the key to the document's last index,
   * which may be empty but must not run backwards, and an unclosed `[` or
   * `{` makes the slice of `je_val_extract` run backwards.
   */
  predicate ElemDefined(k: ElemKind, parent: string, start: nat)
  {
    match k
    case BoolElem => start < |parent|
    case NumElem => start < |parent|
    case StringElem => start <= |parent|
    case ArrElem => start <= |parent| && !BracketScan(parent, '[', ']', start).Unbalanced?
    case ObjElem => start <= |parent| && !BracketScan(parent, '{', '}', start).Unbalanced?
  }

  /** `je_len` of a freshly constructed element (Java starts the field at 0). */
  function ElemLen(k: ElemKind, parent: string, start: nat): int
    requires start <= |parent|
  {
    CalculatedLen(k, parent, start, 0)
  }

  /**
   * The length calculation of a well-defined element leaves a slice that
   * `je_val_extract` can take.
   */
  lemma ElemDefinedExtracts(k: ElemKind, parent: string, start: nat)
    requires ElemDefined(k, parent, start)
    ensures ExtractDefined(k, parent, start, ElemLen(k, parent, start))
  {
  }

  /** `je_content` of a freshly constructed element (Java starts the field at null). */
  function ElemContent(k: ElemKind, parent: string, start: nat): (r: Option<string>)
    requires ElemDefined(k, parent, start)
  {
    ElemDefinedExtracts(k, parent, start);
    ExtractedContent(k, parent, start, ElemLen(k, parent, start), None)
  }

  /**
   * A constructed array or object element holds exactly the bracketed text
   * the scan found, from the first opening bracket after the key to its
   * matching close; with no opening bracket it holds null and length -1.
   */
  lemma ElemContentBracketed(k: ElemKind, parent: string, start: nat)
    requires k == ArrElem || k == ObjElem
    requires ElemDefined(k, parent, start)
    ensures var open := if k == ArrElem then '[' else '{';
      var close := if k == ArrElem then ']' else '}';
      match BracketScan(parent, open, close, start)
      case Matched(o, c) =>
        ElemContent(k, parent, start) == Some(parent[o..c + 1]) && ElemLen(k, parent, start) == c - start + 1
      case _ => ElemContent(k, parent, start) == None && ElemLen(k, parent, start) == -1
  {
  }
}
