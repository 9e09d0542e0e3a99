/**
 * Key location: the search for the token `"<name>":` that `is_valid_member`,
 * `elem_type_identify` and `json_elem_create` each compile as a regular
 * expression. For a field name without regular-expression metacharacters
 * the pattern is the literal token, so the search is a literal substring
 * search whose first match wins, wherever in the document it lies.
 */
module KeyLocator {
  import opened Text

  /** Characters that are special in a Java regular expression outside a class. */
  predicate IsRegexMeta(c: char)
  {
    c in {'\\', '^', '$', '.', '|', '?', '*', '+', '(', ')', '[', ']', '{', '}'}
  }

  /** The field name is matched literally by the compiled key pattern. */
  predicate NoRegexMeta(name: string)
  {
    forall i :: 0 <= i < |name| ==> !IsRegexMeta(name[i])
  }

  /** The key token: quote, name, quote, colon, nothing in between. */
  function KeyToken(name: string): string
  {
    "\"" + name + "\":"
  }

  /** Offset of the opening quote of the first key token (`matcher.start()`). */
  function FindKey(json: string, name: string): (r: Option<nat>)
    requires NoRegexMeta(name)
    ensures r.Some? ==> OccursAt(json, KeyToken(name), r.value)
    ensures r.Some? ==> forall j: nat :: j < r.value ==> !OccursAt(json, KeyToken(name), j)
    ensures r.None? <==> forall j: nat :: !OccursAt(json, KeyToken(name), j)
  {
    IndexOf(json, KeyToken(name))
  }

  /** `is_valid_member`: the key token occurs somewhere in the document. */
  function IsValidMember(json: string, name: string): (found: bool)
    requires NoRegexMeta(name)
    ensures found <==> exists k: nat :: OccursAt(json, KeyToken(name), k)
  {
    FindKey(json, name).Some?
  }

  /**
   * No character of the key token is an opening bracket, so a scan for `[`
   * or `{` that starts at the key passes over the whole token.
   */
  lemma {:induction false} KeyTokenHasNoBracket(json: string, name: string, k: nat, j: nat)
    requires NoRegexMeta(name)
    requires OccursAt(json, KeyToken(name), k)
    requires k <= j < k + |KeyToken(name)|
    ensures json[j] != '[' && json[j] != '{'
  {
    var t := KeyToken(name);
    assert json[j] == t[j - k];
    if 1 <= j - k < 1 + |name| {
      assert t[j - k] == name[j - k - 1];
      assert !IsRegexMeta(name[j - k - 1]);
    }
  }

  /**
   * For a name without a colon, the first colon at or after the key's
   * opening quote is the token's own, its last character.
   */
  lemma KeyTokenColon(json: string, name: string, k: nat)
    requires OccursAt(json, KeyToken(name), k)
    requires forall i :: 0 <= i < |name| ==> name[i] != ':'
    ensures Find(json, ':', k) == Some(k + |KeyToken(name)| - 1)
  {
    var t := KeyToken(name);
    var colon := k + |t| - 1;
    forall j | k <= j < colon
      ensures json[j] != ':'
    {
      assert json[j] == t[j - k];
      if 1 <= j - k < 1 + |name| {
        assert t[j - k] == name[j - k - 1];
      }
    }
    assert json[colon] == t[|t| - 1];
  }
}
