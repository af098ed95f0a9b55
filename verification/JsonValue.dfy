/** The trees cJSON holds. Numbers are exact decimals `mantissa * 10^exponent`; a child
    list is a sequence (module ChildList shows that the linked list is one). */
module JsonValue {
  import opened Bytes
  import opened Decimals

  /** CJSON_NESTING_LIMIT */
  const NESTING_LIMIT: nat := 1000

  datatype Value =
    | Null
    | Bool(b: bool)
    | Number(mantissa: int, exponent: int)
    | String(text: bytes)
    | Array(elements: seq<Value>)
    | Object(members: seq<Member>)

  datatype Member = Member(key: bytes, val: Value)

  const NULL_TEXT: bytes := [110, 117, 108, 108]
  const FALSE_TEXT: bytes := [102, 97, 108, 115, 101]
  const TRUE_TEXT: bytes := [116, 114, 117, 101]

  /** `s` is the text in ASCII. */
  predicate Ascii(s: bytes, text: string) { |s| == |text| && forall i :: 0 <= i < |s| ==> s[i] as char == text[i] }

  lemma KeywordsSpelled()
    ensures Ascii(NULL_TEXT, "null") && Ascii(FALSE_TEXT, "false") && Ascii(TRUE_TEXT, "true")
    ensures Ascii([LBRACKET, RBRACKET, LBRACE, RBRACE, COMMA, COLON, QUOTE, BACKSLASH, MINUS, POINT], "[]{},:\"\\-.")
  {}
}
