/**
 * Type classification (`elem_type_identify`, `is_bool`, `is_num`): after
 * the first key token, skip spaces and tabs (only those: a newline is not
 * skipped) and classify the value by the first remaining character.
 */
module Classifier {
  import opened Text
  import opened KeyLocator

  /** `JElemType`. */
  datatype ElemType = Obj | Array | String | Num | Bool | Inval

  /** The two characters the whitespace loop passes over. */
  predicate IsBlank(c: char)
  {
    c == ' ' || c == '\t'
  }

  /** First index at or after `i` that is not a space or a tab (or `|s|`). */
  function SkipBlanks(s: string, i: nat): (r: nat)
    requires i <= |s|
    ensures i <= r <= |s|
    ensures forall m :: i <= m < r ==> IsBlank(s[m])
    ensures r < |s| ==> !IsBlank(s[r])
    decreases |s| - i
  {
    if i < |s| && IsBlank(s[i]) then SkipBlanks(s, i + 1) else i
  }

  /** Any index with only blanks before it and a non-blank at it is where skipping stops. */
  lemma {:induction false} SkipBlanksUnique(s: string, i: nat, p: nat)
    requires i <= p < |s| && !IsBlank(s[p])
    requires forall m :: i <= m < p ==> IsBlank(s[m])
    ensures SkipBlanks(s, i) == p
    decreases p - i
  {
    if i < p { SkipBlanksUnique(s, i + 1, p); }
  }

  /** `is_bool`: `true` or `false` occurs in the five characters from `i`. */
  function IsBool(json: string, i: nat): bool
    requires i + 5 <= |json|
  {
    var w := json[i..i + 5];
    IndexOf(w, "true").Some? || IndexOf(w, "false").Some?
  }

  /** The window of `is_bool` holds `true` at offset 0 or 1, or `false` at offset 0. */
  lemma IsBoolWindow(json: string, i: nat)
    requires i + 5 <= |json|
    ensures IsBool(json, i) <==>
      OccursAt(json, "true", i) || OccursAt(json, "true", i + 1) || OccursAt(json, "false", i)
  {
    var w := json[i..i + 5];
    assert w[0..4] == json[i..i + 4];
    assert w[1..5] == json[i + 1..i + 5];
    assert w[0..5] == json[i..i + 5];
    if IndexOf(w, "true").Some? {
      var j := IndexOf(w, "true").value;
      assert j == 0 || j == 1;
    }
    if OccursAt(json, "true", i) { assert OccursAt(w, "true", 0); }
    if OccursAt(json, "true", i + 1) { assert OccursAt(w, "true", 1); }
    if OccursAt(json, "false", i) { assert OccursAt(w, "false", 0); }
  }

  /** `is_num`: a minus sign or a decimal digit. */
  predicate IsNum(json: string, i: nat)
    requires i < |json|
  {
    json[i] == '-' || ('0' <= json[i] <= '9')
  }

  /**
   * What `elem_type_identify` needs not to throw: skipping blanks must stop
   * inside the document (at its end the loop condition reads one character
   * past it), and `is_bool` reads five characters from there whenever the
   * character is not `{`, `[` or `"`.
   */
  predicate IdentifyDefined(json: string, name: string)
    requires NoRegexMeta(name)
  {
    match FindKey(json, name)
    case None => true
    case Some(k) =>
      var p := SkipBlanks(json, k + |KeyToken(name)|);
      p < |json| && (json[p] != '{' && json[p] != '[' && json[p] != '"' ==> p + 5 <= |json|)
  }

  /** The if-chain of `elem_type_identify`, applied at position `p`. */
  function ClassifyAt(json: string, p: nat): ElemType
    requires p < |json|
    requires json[p] != '{' && json[p] != '[' && json[p] != '"' ==> p + 5 <= |json|
  {
    if json[p] == '{' then Obj
    else if json[p] == '[' then Array
    else if json[p] == '"' then String
    else if IsBool(json, p) then Bool
    else if IsNum(json, p) then Num
    else Inval
  }

  /** The classification of the value after the first key token. */
  function Classify(json: string, name: string): ElemType
    requires NoRegexMeta(name) && IdentifyDefined(json, name)
  {
    match FindKey(json, name)
    case None => Inval
    case Some(k) => ClassifyAt(json, SkipBlanks(json, k + |KeyToken(name)|))
  }

  /** `elem_type_identify`. */
  method ElemTypeIdentify(json: string, name: string) returns (t: ElemType)
    requires NoRegexMeta(name) && IdentifyDefined(json, name)
    ensures !IsValidMember(json, name) ==> t == Inval
    ensures t == Classify(json, name)
  {
    var found := FindKey(json, name);
    if found.None? {
      return Inval;
    }
    var i := found.value + |KeyToken(name)|;
    ghost var p := SkipBlanks(json, i);
    // The condition groups as in the source: (i < length && c == ' ') || c == '\t'.
    while (i < |json| && json[i] == ' ') || json[i] == '\t'
      invariant found.value + |KeyToken(name)| <= i <= p < |json|
      invariant SkipBlanks(json, i) == p
      decreases |json| - i
    {
      i := i + 1;
    }
    if json[i] == '{' {
      t := Obj;
    } else if json[i] == '[' {
      t := Array;
    } else if json[i] == '"' {
      t := String;
    } else if IsBool(json, i) {
      t := Bool;
    } else if IsNum(json, i) {
      t := Num;
    } else {
      t := Inval;
    }
  }

  /**
   * The classification is decided by the first character after the key
   * token that is neither a space nor a tab.
   */
  lemma ClassifyAtFirstSignificant(json: string, name: string, p: nat)
    requires NoRegexMeta(name) && IdentifyDefined(json, name) && IsValidMember(json, name)
    requires FindKey(json, name).value + |KeyToken(name)| <= p < |json| && !IsBlank(json[p])
    requires forall m :: FindKey(json, name).value + |KeyToken(name)| <= m < p ==> IsBlank(json[m])
    ensures json[p] != '{' && json[p] != '[' && json[p] != '"' ==> p + 5 <= |json|
    ensures Classify(json, name) == ClassifyAt(json, p)
  {
    SkipBlanksUnique(json, FindKey(json, name).value + |KeyToken(name)|, p);
  }

  /**
   * A newline right after the colon is not skipped: the value is Bool when
   * the five characters from the newline hold `true` or `false`, and
   * Invalid otherwise.
   */
  lemma NewlineNotSkipped(json: string, name: string)
    requires NoRegexMeta(name) && IdentifyDefined(json, name) && IsValidMember(json, name)
    requires FindKey(json, name).value + |KeyToken(name)| < |json|
    requires json[FindKey(json, name).value + |KeyToken(name)|] == '\n'
    ensures var e := FindKey(json, name).value + |KeyToken(name)|;
      e + 5 <= |json| &&
      Classify(json, name) == (if IsBool(json, e) then Bool else Inval)
  {
    var e := FindKey(json, name).value + |KeyToken(name)|;
    SkipBlanksUnique(json, e, e);
  }

  /** Bool is tested before Num: `1true` is a boolean, `-1` a number. */
  lemma BoolBeforeNum()
    ensures ClassifyAt("1true", 0) == Bool
    ensures ClassifyAt("-1,  ", 0) == Num
  {
    IsBoolWindow("1true", 0);
    IsBoolWindow("-1,  ", 0);
  }
}
