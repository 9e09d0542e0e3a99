# JsonUtils: a verified model of a single-pass JSON field extractor

`JsonUtils.java` fetches one named field from a JSON document given as text,
without parsing the document. `obj_fetch(json, name)` works in four steps:

1. It finds the first occurrence of the key token `"name":`.
2. It classifies the value by the first character after the token that is
   not a space or a tab (`elem_type_identify`, `is_bool`, `is_num`).
3. It builds an element of the matching class (`json_elem_create`), starting
   at the offset of the key's opening quote. Every class extracts the content
   (`je_val_extract`). Only the array and object classes compute a length
   (`je_len_calc`); the bool, number and string classes have empty
   `je_len_calc` bodies, so their `je_len` stays 0.
4. It returns that content, or null.

String values pass through `ju_content_process`. `array_process` joins
every quoted literal of a string with `", "`.

The Dafny project models that core file by file:

| module | file | what it models |
|---|---|---|
| `Text` | text.dfy | `Option` (Java's null), literal substring search, character search, NUL padding |
| `KeyLocator` | key_locator.dfy | the key token, its first occurrence, `is_valid_member` |
| `Classifier` | classifier.dfy | `JElemType`, the whitespace loop, `is_bool`, `is_num`, `elem_type_identify` |
| `Patterns` | patterns.dfy | scanners with `Matcher.find()` leftmost semantics for the three fixed regular expressions: numbers, the two boolean words, quoted literals |
| `Brackets` | brackets.dfy | the two loops of the array and object `je_len_calc`, and what a successful scan means |
| `Content` | content.dfy | `ju_content_process` as the array-filling loop of the source |
| `ElementSpec` | element_spec.dfy | what `je_len` and `je_content` end up holding for each element class |
| `Elements` | elements.dfy | the `JElem` class: its constructor, `je_len_calc` and `je_val_extract` |
| `Fetch` | fetch.dfy | `json_elem_create`, `obj_fetch` and what a fetch returns for each value type |
| `LiteralSpans` | literal_spans.dfy | a declarative statement of `array_process`'s result: the literals joined, or "Not available" |
| `ArrayJoin` | array_join.dfy | the loop of `array_process`, proved equal to that statement |

The Java `JElem` hierarchy (an abstract class and five subclasses) becomes
one class, `Elements.JElem`. Its constant `kind` records the subclass, and
`LenCalc` and `ValExtract` dispatch on it. The fields the source assigns
after construction (`je_type`, `je_len`, `je_content`) are mutable fields.
The others are constants. Loops in the source are loops in the model:
- the whitespace loop of `elem_type_identify`;
- the bracket loops;
- the colon search of `string_elem`;
- the `char[]` filling of `ju_content_process`;
- the accumulation of `array_process`.

Each of these methods is proved against a specification function, and the
properties are proved as lemmas about that function.

The model follows the code, including where it departs from a
conventional JSON parser:
- Only spaces and tabs are skipped before the value; a newline is not.
- `is_bool` accepts `true` or `false` anywhere in a five-character window,
  so `1true` is a boolean.
- Brackets inside quoted strings count toward the bracket depth.
- Numbers have no fraction or exponent, and `01` yields `0`.
- `ju_content_process` removes every backslash rather than resolving the
  escape, and pads the result with NULs to the input's length.
- Failures are the stored text "Input string is invalid", a length of -1,
  an untouched length, or null. None of them is a typed error.
- Every element's extraction starts at the key's opening quote, so a key
  spelled `true` is found before the value. Two scans start later: the
  blank-skipping of `elem_type_identify` starts right after the key token,
  and the literal search of `string_elem` starts at the first colon.
- `obj_elem` records the array type.
- When the value's own literal does not match (no closing quote, or an
  invalid escape), the literal search goes on, and a later literal, possibly
  from another field, is returned.

## Model

| member | source | states |
|---|---|---|
| `Text.IndexOfFrom` | JsonUtils.java:447-450 | the result is the leftmost occurrence of the pattern at or after the start; no earlier position matches, and none at all when absent |
| `Text.Find` | JsonUtils.java:150-165 | the result is the leftmost index holding the character; every index before it, or every index when absent, holds another |
| `KeyLocator.FindKey` | JsonUtils.java:470-474 | the key token occurs at the result, at no earlier offset, and is absent exactly when the result is none |
| `KeyLocator.IsValidMember` | JsonUtils.java:441-451 | true exactly when the key token `"name":` occurs somewhere in the document |
| `KeyLocator.KeyToken` | JsonUtils.java:447 | the search string: the name between double quotes, then a colon, with no blank allowed before the colon; `KeyTokenHasNoBracket` and `KeyTokenColon` state what scans from the key see in it |
| `KeyLocator.KeyTokenHasNoBracket` | JsonUtils.java:326-331 | no character of the key token is `[` or `{`, for a name without regular-expression metacharacters |
| `KeyLocator.KeyTokenColon` | JsonUtils.java:242-246 | for a name without a colon, the colon loop from the key's opening quote stops at the token's own colon |
| `Classifier.SkipBlanks` | JsonUtils.java:477-481 | the result is the first index at or after the start that is not a space or a tab; everything skipped is a space or a tab |
| `Classifier.SkipBlanksUnique` | JsonUtils.java:477-481 | any index preceded only by blanks and holding a non-blank is where skipping stops |
| `Classifier.IsBoolWindow` | JsonUtils.java:453-458 | `is_bool` holds exactly when `true` starts at offset 0 or 1 or `false` at offset 0 of the five-character window |
| `Classifier.IsBool` | JsonUtils.java:453-458 | `is_bool`: `true` or `false` occurs in the five characters from the index; `IsBoolWindow` states where |
| `Classifier.IsNum` | JsonUtils.java:460-464 | `is_num`: the character is a minus sign or a decimal digit |
| `Classifier.ClassifyAt` | JsonUtils.java:484-495 | the if-chain in the source's order: `{`, `[`, `"`, then `is_bool`, then `is_num`, otherwise invalid |
| `Classifier.Classify` | JsonUtils.java:470-495 | invalid when the key is absent, otherwise the if-chain at the first non-blank after the key token; `ElemTypeIdentify` computes it |
| `Classifier.ElemTypeIdentify` | JsonUtils.java:466-497 | the loop, with its condition grouped as the source's operator precedence groups it, yields the classification of the first non-blank character after the key; an absent key gives `JT_INVAL` |
| `Classifier.ClassifyAtFirstSignificant` | JsonUtils.java:482-495 | the type is decided by the first character after the key token that is neither a space nor a tab, and `is_bool`'s window fits there |
| `Classifier.NewlineNotSkipped` | JsonUtils.java:478-479 | a newline right after the colon is not skipped: the value is then Bool if the window from the newline holds `true`/`false`, otherwise Invalid |
| `Classifier.BoolBeforeNum` | JsonUtils.java:490-493 | the Bool test comes before the Num test: `1true` is Bool, `-1` is Num |
| `Patterns.DigitRun` | JsonUtils.java:207 | `\d*` is greedy: every character up to the result is a digit and the one at the result is not |
| `Patterns.NumMatchAt` | JsonUtils.java:207 | the end of the number-pattern match that starts exactly at an index: the signed alternative first, `0` only when it fails; `FindNum` and `FindNumToken` state its leftmost use |
| `Patterns.FindNum` | JsonUtils.java:207-212 | the result is a match of the number pattern (an optional minus, a non-zero digit and digits; or `0`) at the leftmost position where one starts; no earlier position starts one |
| `Patterns.FindNumToken` | JsonUtils.java:207-212 | the matched text is a number token (`0`, or an optional minus, a non-zero digit and digits); a token other than `0` takes every following digit |
| `Patterns.LeadingZeroMatchesZero` | JsonUtils.java:207 | `01` is not rejected: the match is `0` |
| `Patterns.FindBoolWord` | JsonUtils.java:172-177 | the result is `true` or `false` occurring at the leftmost position where either occurs |
| `Patterns.EscapeWidth` | JsonUtils.java:236 | a valid escape spans at least two characters and stays inside the string |
| `Patterns.LiteralEnd` | JsonUtils.java:236 | the closing index found holds the opening quote's character and lies at or after the body's start |
| `Patterns.EscapeEnd` | JsonUtils.java:236 | past an escape, the closing index found lies beyond the backslash and holds the quote |
| `Patterns.QuotedAt` | JsonUtils.java:236 | a literal opens only at a quote and closes at a later quote of the same kind |
| `Patterns.FindQuoted` | JsonUtils.java:247-248 | the match found opens at or after the start with `'` or `"` and closes with the same quote; `FindQuotedLeftmost` proves it is the leftmost |
| `Patterns.FindQuotedMatch` | JsonUtils.java:236 | the span returned is a literal at its opening index |
| `Patterns.FindQuotedLeftmost` | JsonUtils.java:247-248 | no literal opens before the one found, and none at all when nothing is found |
| `Patterns.FindQuotedSkip` | JsonUtils.java:247-248 | when no quote stands between the start and a literal that closes, the search returns exactly that literal |
| `Patterns.LiteralEndShift` | JsonUtils.java:240-248 | scanning a literal body in a suffix of the string finds the same closing quote, shifted by the suffix's offset, and fails exactly when the scan in the whole string fails |
| `Patterns.EscapeEndShift` | JsonUtils.java:240-248 | past an escape, the scan in a suffix agrees with the scan in the whole string, shifted by the suffix's offset |
| `Patterns.QuotedAtShift` | JsonUtils.java:236 | a literal opening at an index opens at the shifted index of a suffix and closes at the shifted closing index, as the match on `substring(colon_idx, length)` does |
| `Patterns.LiteralEndEscapedQuotes` | JsonUtils.java:236 | every quote of the literal's kind inside a match is escaped: a backslash precedes it |
| `Patterns.PlainLiteral` | JsonUtils.java:236 | a body with no backslash and no quote of its kind ends exactly at the next such quote |
| `Patterns.EscapedQuoteLiteral` | JsonUtils.java:236 | in `"a\"b"` the escaped quote does not end the literal; the final quote does |
| `Brackets.MatchClose` | JsonUtils.java:296-311 | the index where the depth first returns to zero lies inside the string |
| `Brackets.BracketScan` | JsonUtils.java:283-317 | the outcome of the two scans: no opening bracket at or after the start, an opening bracket whose depth never returns to zero, or the first opening bracket and the index where its depth first returns to zero; `ScanBrackets` proves the loops compute it and `ScanBalanced`/`ScanUnbalanced` characterise each outcome |
| `Brackets.ScanBrackets` | JsonUtils.java:283-317 | the two loops of `je_len_calc` compute exactly the bracket scan: no opening bracket, an opening bracket never closed (`ScanUnbalanced`), or the opening bracket and its match (`ScanBalanced`) |
| `Brackets.MatchCloseDepth` | JsonUtils.java:298-311 | where the depth first returns to zero the character is the closing bracket, the count up to it cancels the starting depth, and before it the depth stays positive |
| `Brackets.ScanBalanced` | JsonUtils.java:283-317 | a matched span runs from the first opening bracket after the start to a closing bracket; it balances, and every non-empty proper prefix has more opening than closing brackets |
| `Brackets.MatchCloseNone` | JsonUtils.java:298-315 | when the depth never returns to zero, it stays positive at every index up to the end of the string |
| `Brackets.ScanUnbalanced` | JsonUtils.java:283-315 | an unbalanced scan found the first opening bracket after the start, and from it to every later index, the end included, opening brackets outnumber closing ones |
| `Brackets.BracketInStringCounts` | JsonUtils.java:299-302 | a closing brace inside a quoted string ends the scan of `{"a":"}"}` at index 6 |
| `Content.Kept` | JsonUtils.java:109-119 | whether the loop copies the character at an index: not when it is a double quote at the first or the last index, not when it is a backslash, otherwise yes |
| `Content.Stripped` | JsonUtils.java:107-120 | the characters the loop copies, in order, from the whole input; `StrippedPrefixNoBackslash` and `StrippedPlainLiteral` state what they are |
| `Content.Processed` | JsonUtils.java:103-121 | the returned string: the copied characters followed by NULs up to the input's length, since the `char[]` is never trimmed; `ContentProcess` proves the loop computes it and `ProcessedShape` states its shape |
| `Content.StrippedPrefix` | JsonUtils.java:109-119 | the characters copied from a prefix are never more than the prefix |
| `Content.ContentProcess` | JsonUtils.java:103-121 | the result has the input's length: the copied characters (every character except backslashes, and double quotes at the first or last index), then NULs |
| `Content.StrippedPrefixNoBackslash` | JsonUtils.java:115-116 | no backslash is ever copied |
| `Content.ProcessedShape` | JsonUtils.java:107-120 | the processed string has the input's length, holds no backslash, and is NUL after the copied part |
| `Content.StrippedPlainLiteral` | JsonUtils.java:110-113 | a double-quoted literal without backslashes loses exactly its two delimiting quotes |
| `Content.EscapedQuoteProcessed` | JsonUtils.java:111-118 | `"a\"b"` becomes `a"b` followed by three NULs |
| `ElementSpec.BoolContent` | JsonUtils.java:137-181 | `bool_elem.je_val_extract`: invalid when the first comma and first newline are both absent, otherwise the first `true`/`false` before the nearer one; `BoolContentShape` states its possible values and `BoolContentBeforeTerminator` which word it is |
| `ElementSpec.BoolContentShape` | JsonUtils.java:150-180 | bool content is `true`, `false` or the invalid marker, and is the invalid marker when the range holds neither a comma nor a newline |
| `ElementSpec.Terminator` | JsonUtils.java:150-170 | the offset, within the searched range, of the nearer of the first comma and the first newline, none when both searches return `Integer.MAX_VALUE`; `TerminatorAt` states which offset it is |
| `ElementSpec.TerminatorAt` | JsonUtils.java:150-170 | when the first comma or newline of the range is at `u`, the terminator is `u` |
| `ElementSpec.WordOrInvalid` | JsonUtils.java:172-180 | the word search over the text before the terminator: the first `true`/`false` match or the invalid marker; `WordOrInvalidLeftmost` states which |
| `ElementSpec.WordOrInvalidLeftmost` | JsonUtils.java:172-180 | the result is the invalid marker exactly when neither word occurs in the text, otherwise a word occurring at a position before which neither word occurs |
| `ElementSpec.BoolContentBeforeTerminator` | JsonUtils.java:150-180 | with the first comma or newline after the key at `t` (before the last character), the bool content is the leftmost `true`/`false` lying wholly between the key and `t`, or the invalid marker exactly when there is none |
| `ElementSpec.BoolKeyShadowsValue` | JsonUtils.java:150-177 | the search starts at the key, so in `{"true":false,` the key's `true` is returned |
| `ElementSpec.NumContent` | JsonUtils.java:198-215 | `num_elem.je_val_extract`: the leftmost number match from the key up to the document's last character, or the invalid marker; `NumContentShape` states its shape |
| `ElementSpec.NumContentShape` | JsonUtils.java:198-215 | numeric content is a number token or the invalid marker, the latter exactly when the range holds no digit |
| `ElementSpec.StringContent` | JsonUtils.java:231-255 | `string_elem.je_val_extract`: the first literal from the first colon at or after the key, processed, or the invalid marker; `StringContentLiteral`, `StringContentShape` and `FetchStringValue` state what it yields |
| `ElementSpec.StringContentLiteral` | JsonUtils.java:240-254 | string content is the leftmost literal opening after the first colon at or after the key, processed; it is the invalid marker when there is no colon or no literal after it |
| `ElementSpec.StringContentShape` | JsonUtils.java:240-254 | string content is the invalid marker, or the processing of a text that opens with a quote: as long as that text and free of backslashes |
| `ElementSpec.StringContentAt` | JsonUtils.java:240-254 | after the first colon from the key, characters that are not quotes and then a literal that closes, the string content is exactly that literal, processed |
| `ElementSpec.KindType` | JsonUtils.java:127 | the `je_type` each constructor records (lines 127, 188, 221, 265, 342): bool, number, string, array, and array again for `obj_elem`; `Elements.JElem.constructor` and `Fetch.JsonElemCreate` state it of the built element |
| `ElementSpec.KindFor` | JsonUtils.java:413-437 | the class the switch instantiates for each type, none for `JT_INVAL`; `Fetch.JsonElemCreate` states the element built from it |
| `ElementSpec.IndexOrMax` | JsonUtils.java:150-165 | a search result's offset, or `Integer.MAX_VALUE` when the character is absent, as `min_idx` is seeded |
| `ElementSpec.ArrLen` | JsonUtils.java:270-318 | `arr_elem.je_len_calc`: -1 with no `[` or an unclosed one, otherwise the length from the key to the matching `]`; `ScanBalanced` and `ScanUnbalanced` characterise the two cases |
| `ElementSpec.ObjLen` | JsonUtils.java:348-379 | `obj_elem.je_len_calc`: as for arrays with braces, except that an unclosed `{` leaves the length unchanged |
| `ElementSpec.BracketContent` | JsonUtils.java:320-334 | `je_val_extract` of `arr_elem` (and of `obj_elem`, 381-393): the text from the first opening bracket to `je_start + je_len`, or the content unchanged without one |
| `ElementSpec.CalculatedLen` | JsonUtils.java:270-318 | `je_len` after `je_len_calc`: the bracket scan for `arr_elem` and for `obj_elem` (348-379); unchanged for the bool, number and string classes, whose `je_len_calc` bodies are empty (132-135, 193-196, 226-229); `Elements.JElem.LenCalc` proves the method computes it |
| `ElementSpec.ExtractedContent` | JsonUtils.java:320-334 | `je_content` after `je_val_extract` for each class: the bool, number and string searches, and the bracketed slice for arrays and objects (381-393); `Elements.JElem.ValExtract` proves the method computes it |
| `ElementSpec.ElemLen` | JsonUtils.java:124-129 | the length a freshly constructed element holds: `je_len_calc` run from the initial 0, so 0 for bool, number and string elements; `ElemDefinedExtracts` shows it lets `je_val_extract` take its slice |
| `ElementSpec.ElemContent` | JsonUtils.java:123-130 | the content a freshly constructed element holds, extraction run after the length calculation; `ElemContentBracketed` states it for arrays and objects |
| `ElementSpec.ElemDefinedExtracts` | JsonUtils.java:326-331 | for an element that can be built, the length left by `je_len_calc` gives a slice `je_val_extract` can take |
| `ElementSpec.ElemContentBracketed` | JsonUtils.java:270-393 | a built array or object element holds the text from the first opening bracket to its match, with length up to the close; without an opening bracket it holds null with length -1 |
| `Elements.JElem.constructor` | JsonUtils.java:62-67 | the new element records kind, start, name and parent; its type, length and content are those of its class |
| `Elements.JElem.LenCalc` | JsonUtils.java:270-318 | `je_len` becomes the class's calculated length: the bracket scan for arrays and objects (an unclosed `{` leaves it unchanged), no change otherwise |
| `Elements.JElem.ValExtract` | JsonUtils.java:320-334 | `je_content` becomes the class's extracted content; the slice of arrays and objects runs from the first opening bracket to `je_start + je_len` |
| `Elements.JElem.StringValExtract` | JsonUtils.java:231-255 | the colon loop and the literal search store the processed first literal after the first colon, or the invalid marker |
| `Fetch.JsonElemCreate` | JsonUtils.java:396-439 | null exactly for `JT_INVAL`; otherwise a fresh element of the matching class at the key's offset, typed Array for objects |
| `Fetch.FetchResult` | JsonUtils.java:499-510 | what `obj_fetch` returns: null for an invalid type, otherwise the content of the element of the classified kind at the key; `ObjFetch` computes it |
| `Fetch.ObjFetch` | JsonUtils.java:499-510 | the result is the content of the element of the classified type, or null |
| `Fetch.ValueStart` | JsonUtils.java:477-481 | the value starts after the key token, within the document |
| `Fetch.FirstBracketIsValue` | JsonUtils.java:283-287 | when the value opens with a bracket, the first such bracket from the key is the value's own |
| `Fetch.FetchNullIffInvalid` | JsonUtils.java:503-509 | a fetch returns null exactly when the value is classified as invalid |
| `Fetch.FetchAbsentKey` | JsonUtils.java:474-475 | an absent key gives null |
| `Fetch.FetchBracketed` | JsonUtils.java:326-331 | an array or object value is fetched as the text from its opening bracket to the matching close, which balances |
| `Fetch.FetchBool` | JsonUtils.java:150-179 | a boolean value is fetched as `true`, `false` or the invalid marker |
| `Fetch.FetchNum` | JsonUtils.java:207-214 | a number value is fetched as a number token or the invalid marker |
| `Fetch.FetchString` | JsonUtils.java:240-253 | a string value is fetched as the invalid marker, or as the processing of a text opening with a quote, as long as that text and free of backslashes |
| `Fetch.FetchStringValue` | JsonUtils.java:240-253 | for a name without a colon, a string value whose literal closes is fetched as exactly that literal, from its opening to its closing quote, processed |
| `ArrayJoin.ArrayProcess` | JsonUtils.java:514-528 | the loop's output is what taking each successive match in turn yields, from "Not available" |
| `LiteralSpans.AllLiterals` | JsonUtils.java:514-528 | the reference result of `array_process`: every literal matched in turn, quotes included, separated by `", "`, or "Not available"; `FoldJoins` ties the loop to it |
| `ArrayJoin.FoldJoins` | JsonUtils.java:519-527 | taking the matches in turn yields every literal, in order, separated by `", "`, or "Not available" when there is none |
| `ArrayJoin.FoldSeparated` | JsonUtils.java:521-526 | once a literal has been taken, each later match is appended after `", "` |
| `ArrayJoin.AllLiteralsAvailable` | JsonUtils.java:519-527 | the joined result is "Not available" exactly when the string holds no literal |
| `ArrayJoin.Appended` | JsonUtils.java:522-525 | one iteration's update: the match replaces "Not available", otherwise it is appended after `", "` |
| `ArrayJoin.Extend` | JsonUtils.java:522-525 | the if/else of the loop body yields the update `Appended` defines |
| `ArrayJoin.FoldFrom` | JsonUtils.java:521-526 | the output the loop ends with from a given position and output: each further match taken in turn until `find()` fails; `FoldJoins` and `FoldSeparated` state what it holds |

## Left out

- `main` (file reading, argument checks) and every `System.out.println` diagnostic are I/O and are not modelled.
- The general Java regular-expression engine is not modelled. The key pattern `"name":` is a literal substring search, so every entry point requires `NoRegexMeta(name)`: the name contains no regular-expression metacharacter.
- The three fixed patterns are hand-written scanners with the leftmost-match semantics of `Matcher.find()`. For the quoted-literal pattern that scanner is deterministic. A backslash can only begin an escape, and a quote of the literal's kind can be consumed only by an escape, so backtracking cannot move the end of a match. An invalid escape fails the match that starts there. That equivalence with the regex engine is argued, not proved.
- Crashes of out-of-range `charAt`/`substring` are preconditions, not exceptions:
  - `IdentifyDefined`: the whitespace loop reads `charAt(length)` when only blanks follow the key, and `is_bool` reads five characters.
  - `ElemDefined`/`ExtractDefined`: the bool and number searches take `substring(je_start, length() - 1)`, which needs `je_start <= length() - 1` (the range may be empty), and an unclosed bracket makes the slice of `je_val_extract` run backwards.
- `Classifier.ElemTypeIdentify`: the branch `i == json.length()` is dead under `IdentifyDefined`, so the method has no such branch.
- `Fetch.JsonElemCreate`: the Java `assert found` is its precondition `IsValidMember`.
- Java `int` arithmetic is unbounded here. This is sound because every offset is below the document's length, and `je_start + min_idx` of `bool_elem` is never computed with `Integer.MAX_VALUE`: equal sentinels return the invalid marker first. The argument relies on Java strings holding at most `Integer.MAX_VALUE` characters. Strings in the model are unbounded: if more than 2^31-1 characters lay between `je_start` and the last character, a found comma or newline could sit at offset `Integer.MAX_VALUE` and be taken for the not-found sentinel in `BoolContent`.
- The abstract class `JElem` and its subclasses are one class with a `kind` constant, because the model has no subclassing. Virtual dispatch is a `match` on `kind`.
- A Java `char` is a UTF-16 code unit, while a Dafny `char` is a Unicode scalar value. Offsets agree for text inside the Basic Multilingual Plane; text outside it is not modelled, and strings holding lone surrogates cannot be represented.
- `Fetch.FetchStringValue`: states the exact value only for a name without a colon. A colon inside the name stops the colon loop within the key token; `ElementSpec.StringContentLiteral` still describes that result from the first colon.
