/**
 * `JElem` and its five subclasses as one class whose `kind` is the runtime
 * class: the constructor records the key's offset, the field name and the
 * parent document, sets the type, then runs `je_len_calc` and
 * `je_val_extract`, each dispatching on the kind.
 */
module Elements {
  import opened Text
  import opened Patterns
  import opened Brackets
  import opened Content
  import opened Classifier
  import opened ElementSpec

  class JElem {
    /** The subclass the element was created as. */
    const kind: ElemKind
    /** `je_type`. */
    var elemType: ElemType
    /** `je_content`; `None` is Java's null. */
    var content: Option<string>
    /** `je_name`: the field name in the parent object. */
    const name: string
    /** `je_parent`: the whole document. */
    const parent: string
    /** `je_start`: offset of the opening quote of the key in `parent`. */
    const start: nat
    /** `je_len`. */
    var len: int

    /**
     * The constructors of the five subclasses: `je_len` and `je_content`
     * start at Java's defaults, 0 and null.
     */
    constructor (kind: ElemKind, objStart: nat, name: string, parent: string)
      requires ElemDefined(kind, parent, objStart)
      ensures this.kind == kind && start == objStart && this.name == name && this.parent == parent
      ensures elemType == KindType(kind)
      ensures len == ElemLen(kind, parent, objStart)
      ensures content == ElemContent(kind, parent, objStart)
    {
      this.kind := kind;
      this.parent := parent;
      this.start := objStart;
      this.name := name;
      elemType := KindType(kind);
      len := 0;
      content := None;
      new;
      LenCalc();
      ValExtract();
    }

    /** `je_len_calc`: a no-op except for arrays and objects. */
    method LenCalc()
      requires start <= |parent|
      modifies this`len
      ensures len == CalculatedLen(kind, parent, start, old(len))
    {
      match kind {
        case ArrElem =>
          var scan := ScanBrackets(parent, '[', ']', start);
          match scan {
            case NoOpen => len := -1;
            case Unbalanced => len := -1;
            case Matched(_, c) => len := c - start + 1;
          }
        case ObjElem =>
          var scan := ScanBrackets(parent, '{', '}', start);
          match scan {
            case NoOpen => len := -1;
            case Unbalanced =>
            case Matched(_, c) => len := c - start + 1;
          }
        case _ =>
      }
    }

    /** `je_val_extract` of the current kind. */
    method ValExtract()
      requires ExtractDefined(kind, parent, start, len)
      modifies this`content
      ensures content == ExtractedContent(kind, parent, start, len, old(content))
    {
      match kind {
        case BoolElem => content := Some(BoolContent(parent, start));
        case NumElem => content := Some(NumContent(parent, start));
        case StringElem => StringValExtract();
        case ArrElem =>
          var found := Find(parent, '[', start);
          if found.Some? {
            content := Some(parent[found.value..start + len]);
          }
        case ObjElem =>
          var found := Find(parent, '{', start);
          if found.Some? {
            content := Some(parent[found.value..start + len]);
          }
      }
    }

    /**
     * `string_elem.je_val_extract`: walk to the colon after the key, then
     * take the first quoted literal after it.
     */
    method StringValExtract()
      requires start <= |parent|
      modifies this`content
      ensures content == Some(StringContent(parent, start))
    {
      var i := start;
      while i < |parent| && parent[i] != ':'
        invariant start <= i <= |parent|
        invariant forall j :: start <= j < i ==> parent[j] != ':'
      {
        i := i + 1;
      }
      if i < |parent| {
        var colon := i;
        var rest := parent[colon..];
        var found := FindQuoted(rest, 0);
        if found.Some? {
          var (a, b) := found.value;
          var processed := ContentProcess(rest[a..b + 1]);
          content := Some(processed);
          return;
        }
      }
      content := Some(INVALID);
    }
  }
}
