/**
 * The public entry points `json_elem_create` and `obj_fetch`, and what a
 * fetch returns for each type of value.
 */
module Fetch {
  import opened Text
  import opened Patterns
  import opened KeyLocator
  import opened Classifier
  import opened Brackets
  import opened Content
  import opened ElementSpec
  import opened Elements

  /**
   * What `obj_fetch` needs not to throw: classification must not run off
   * the end, and the element created for the classified type must not.
   */
  predicate FetchDefined(json: string, name: string)
    requires NoRegexMeta(name)
  {
    IdentifyDefined(json, name) &&
    match FindKey(json, name)
    case None => true
    case Some(k) =>
      var kind := KindFor(Classify(json, name));
      kind.Some? ==> ElemDefined(kind.value, json, k)
  }

  /** The value `obj_fetch` returns; `None` is null. */
  function FetchResult(json: string, name: string): Option<string>
    requires NoRegexMeta(name) && FetchDefined(json, name)
  {
    match KindFor(Classify(json, name))
    case None => None
    case Some(kind) => ElemContent(kind, json, FindKey(json, name).value)
  }

  /**
   * `json_elem_create`: the element of the class matching `objType`,
   * started at the first key token; null for `JT_INVAL`.
   */
  method JsonElemCreate(json: string, objName: string, objType: ElemType) returns (obj: JElem?)
    requires NoRegexMeta(objName) && IsValidMember(json, objName)
    requires KindFor(objType).Some? ==> ElemDefined(KindFor(objType).value, json, FindKey(json, objName).value)
    ensures obj == null <==> objType == Inval
    ensures obj != null ==>
      (fresh(obj) &&
       obj.kind == KindFor(objType).value && obj.start == FindKey(json, objName).value &&
       obj.name == objName && obj.parent == json &&
       obj.elemType == KindType(obj.kind) && (objType == Obj ==> obj.elemType == Array) &&
       obj.len == ElemLen(obj.kind, json, obj.start) &&
       obj.content == ElemContent(obj.kind, json, obj.start))
  {
    var found := FindKey(json, objName);
    var start := found.value;
    match objType {
      case Bool => obj := new JElem(BoolElem, start, objName, json);
      case Num => obj := new JElem(NumElem, start, objName, json);
      case String => obj := new JElem(StringElem, start, objName, json);
      case Array => obj := new JElem(ArrElem, start, objName, json);
      case Obj => obj := new JElem(ObjElem, start, objName, json);
      case Inval => obj := null;
    }
  }

  /** `obj_fetch`. */
  method ObjFetch(json: string, objName: string) returns (r: Option<string>)
    requires NoRegexMeta(objName) && FetchDefined(json, objName)
    ensures r == FetchResult(json, objName)
  {
    var objType := ElemTypeIdentify(json, objName);
    if objType == Inval {
      return None;
    }
    var obj := JsonElemCreate(json, objName, objType);
    if obj == null {
      return None;
    }
    return obj.content;
  }

  // ------------------------------------------------------------ properties

  /** Position of the first character after the key that is not a space or a tab. */
  function ValueStart(json: string, name: string): (p: nat)
    requires NoRegexMeta(name) && IsValidMember(json, name)
    ensures FindKey(json, name).value + |KeyToken(name)| <= p <= |json|
  {
    SkipBlanks(json, FindKey(json, name).value + |KeyToken(name)|)
  }

  /**
   * Nothing between the key's opening quote and the value is a bracket, so
   * the bracket scan from the key starts at the value.
   */
  lemma FirstBracketIsValue(json: string, name: string, open: char)
    requires NoRegexMeta(name) && IsValidMember(json, name)
    requires open == '[' || open == '{'
    requires ValueStart(json, name) < |json| && json[ValueStart(json, name)] == open
    ensures Find(json, open, FindKey(json, name).value) == Some(ValueStart(json, name))
  {
    var k := FindKey(json, name).value;
    var p := ValueStart(json, name);
    forall j | k <= j < p
      ensures json[j] != open
    {
      if j < k + |KeyToken(name)| {
        KeyTokenHasNoBracket(json, name, k, j);
      }
    }
  }

  /** A fetch returns null exactly when the value is classified as invalid. */
  lemma FetchNullIffInvalid(json: string, name: string)
    requires NoRegexMeta(name) && FetchDefined(json, name)
    ensures FetchResult(json, name).None? <==> Classify(json, name) == Inval
  {
    var t := Classify(json, name);
    if t == Array || t == Obj {
      var open := if t == Array then '[' else '{';
      var close := if t == Array then ']' else '}';
      FirstBracketIsValue(json, name, open);
      var k := FindKey(json, name).value;
      ElemContentBracketed(KindFor(t).value, json, k);
    }
  }

  /** An absent key gives null. */
  lemma FetchAbsentKey(json: string, name: string)
    requires NoRegexMeta(name) && FetchDefined(json, name)
    requires forall k: nat :: !OccursAt(json, KeyToken(name), k)
    ensures FetchResult(json, name) == None
  {
  }

  /**
   * An array or object value is returned as the text from its opening
   * bracket to the matching close, brackets included; the brackets in
   * between balance, whether or not they stand inside quoted strings.
   */
  lemma FetchBracketed(json: string, name: string)
    requires NoRegexMeta(name) && FetchDefined(json, name)
    requires Classify(json, name) == Array || Classify(json, name) == Obj
    ensures var open := if Classify(json, name) == Array then '[' else '{';
      var close := if Classify(json, name) == Array then ']' else '}';
      var p := ValueStart(json, name);
      BracketScan(json, open, close, FindKey(json, name).value).Matched? &&
      var c := BracketScan(json, open, close, FindKey(json, name).value).close;
      p < c < |json| && json[p] == open && json[c] == close &&
      FetchResult(json, name) == Some(json[p..c + 1]) &&
      Balance(json[p..c + 1], open, close) == 0
  {
    var t := Classify(json, name);
    var open := if t == Array then '[' else '{';
    var close := if t == Array then ']' else '}';
    var k := FindKey(json, name).value;
    FirstBracketIsValue(json, name, open);
    ElemContentBracketed(KindFor(t).value, json, k);
    ScanBalanced(json, open, close, k);
  }

  /** A boolean value is fetched as `true`, `false` or the invalid marker. */
  lemma FetchBool(json: string, name: string)
    requires NoRegexMeta(name) && FetchDefined(json, name)
    requires Classify(json, name) == Bool
    ensures var r := FetchResult(json, name);
      r == Some("true") || r == Some("false") || r == Some(INVALID)
  {
    BoolContentShape(json, FindKey(json, name).value);
  }

  /** A number value is fetched as a number token or the invalid marker. */
  lemma FetchNum(json: string, name: string)
    requires NoRegexMeta(name) && FetchDefined(json, name)
    requires Classify(json, name) == Num
    ensures FetchResult(json, name).Some?
    ensures FetchResult(json, name).value == INVALID || IsNumToken(FetchResult(json, name).value)
  {
    NumContentShape(json, FindKey(json, name).value);
  }

  /**
   * A string value is fetched without backslashes and NUL-padded to the
   * length of the literal it came from, or as the invalid marker.
   */
  lemma FetchString(json: string, name: string)
    requires NoRegexMeta(name) && FetchDefined(json, name)
    requires Classify(json, name) == String
    ensures var r := FetchResult(json, name).value;
      r == INVALID ||
      ((exists lit :: |lit| >= 2 && IsQuote(lit[0]) && r == Processed(lit) && |r| == |lit|) &&
       (forall k :: 0 <= k < |r| ==> r[k] != '\\'))
  {
    StringContentShape(json, FindKey(json, name).value);
  }

  /**
   * For a name without a colon, a string value whose literal closes is
   * fetched as exactly that literal, from its opening quote to its closing
   * quote, processed.
   */
  lemma FetchStringValue(json: string, name: string)
    requires NoRegexMeta(name) && FetchDefined(json, name)
    requires forall i :: 0 <= i < |name| ==> name[i] != ':'
    requires Classify(json, name) == String
    requires QuotedAt(json, ValueStart(json, name)).Some?
    ensures var p := ValueStart(json, name);
      FetchResult(json, name) == Some(Processed(json[p..QuotedAt(json, p).value + 1]))
  {
    var k := FindKey(json, name).value;
    var colon := k + |KeyToken(name)| - 1;
    var p := ValueStart(json, name);
    KeyTokenColon(json, name, k);
    StringContentAt(json, k, colon, p);
  }
}
