/** What cJSON's parser computes, as functions of the buffer, the offset and the depth.
    A failure keeps the offset and the depth it leaves behind. */
module JsonReader {
  import opened Bytes
  import opened Decimals
  import opened Utf16
  import opened JsonValue

  datatype Parse<+T> =
    | Parsed(value: T, off: nat)
    | Rejected(off: nat, depth: nat)

  /** The first index from `i` on with a byte above 32, or the length. */
  function SpaceEnd(c: bytes, i: nat): (j: nat)
    requires i <= |c|
    ensures i <= j <= |c|
    ensures forall k :: i <= k < j ==> c[k] <= SPACE
    ensures j < |c| ==> c[j] > SPACE
    decreases |c| - i
  {
    if i < |c| && c[i] <= SPACE then SpaceEnd(c, i + 1) else i
  }

  /** buffer_skip_whitespace: one step back when the buffer ran out. */
  function SkipSpace(c: bytes, off: nat): (r: nat)
    requires off <= |c|
    ensures off <= r <= |c|
    ensures off < |c| ==> r < |c|
  {
    if off >= |c| then off
    else
      var j := SpaceEnd(c, off);
      if j == |c| then j - 1 else j
  }

  /** The sizing pass of parse_string: the quote that closes the string, walking over every
      backslash together with the byte after it. */
  function CloseQuote(c: bytes, i: nat): (r: Option<nat>)
    ensures r.Some? ==> i <= r.value < |c| && c[r.value] == QUOTE
    decreases |c| - i
  {
    if i >= |c| then None
    else if c[i] == QUOTE then Some(i)
    else if c[i] == BACKSLASH then
      if i + 1 >= |c| then None else CloseQuote(c, i + 2)
    else CloseQuote(c, i + 1)
  }

  datatype Unescaped = Text(text: bytes) | BadEscape(at: nat)

  /** The byte a two-character escape stands for. */
  function SimpleEscape(b: byte): Option<byte> {
    if b == 98 then Some(8)
    else if b == 102 then Some(12)
    else if b == 110 then Some(10)
    else if b == 114 then Some(13)
    else if b == 116 then Some(9)
    else if b == QUOTE || b == BACKSLASH || b == SLASH then Some(b)
    else None
  }

  /** The two-character escapes of section 7 of RFC 8259: eight letters, and the byte each stands for. */
  lemma SimpleEscapes(b: byte)
    ensures SimpleEscape(b).Some? <==> b as char in "\"\\/bfnrt"
    ensures SimpleEscape(0x22) == Some(0x22) && SimpleEscape(0x5C) == Some(0x5C) && SimpleEscape(0x2F) == Some(0x2F)
    ensures SimpleEscape(0x62) == Some(0x08) && SimpleEscape(0x66) == Some(0x0C) && SimpleEscape(0x6E) == Some(0x0A)
    ensures SimpleEscape(0x72) == Some(0x0D) && SimpleEscape(0x74) == Some(0x09)
  {}

  /** The decoding pass of parse_string from `p`, with `out` decoded already. */
  function Unescape(c: bytes, p: nat, end: nat, out: bytes): (r: Unescaped)
    requires end < |c|
    ensures r.BadEscape? ==> p <= r.at < end
    decreases end - p
  {
    if p >= end then Text(out)
    else if c[p] != BACKSLASH then Unescape(c, p + 1, end, out + [c[p]])
    else if c[p + 1] == LETTER_U then
      match ReadLiteral(c, p, end)
      case None => BadEscape(p)
      case Some(l) => Unescape(c, p + l.length, end, out + l.utf8)
    else
      match SimpleEscape(c[p + 1])
      case None => BadEscape(p)
      case Some(b) => Unescape(c, p + 2, end, out + [b])
  }

  /** parse_string. The value is a C string, so a decoded NUL ends it. */
  function ReadString(c: bytes, off: nat, depth: nat): (r: Parse<bytes>)
    requires off < |c|
    ensures r.Parsed? ==> off < r.off <= |c| && NulFree(r.value)
    ensures r.Rejected? ==> off < r.off <= |c| && r.depth == depth
  {
    if c[off] != QUOTE then Rejected(off + 1, depth)
    else
      match CloseQuote(c, off + 1)
      case None => Rejected(off + 1, depth)
      case Some(end) =>
        match Unescape(c, off + 1, end, [])
        case BadEscape(at) => Rejected(at, depth)
        case Text(text) => Parsed(CString(text), end + 1)
  }

  /** parse_number */
  function ReadNumber(c: bytes, off: nat, depth: nat): (r: Parse<Value>)
    requires off <= |c|
    ensures r.Parsed? ==> off < r.off <= |c|
    ensures r.Rejected? ==> r.off == off && r.depth == depth
  {
    var n := Strtod(c[off..NumberRun(c, off)]);
    if n.used == 0 then Rejected(off, depth)
    else Parsed(Number(n.mantissa, n.exponent), off + n.used)
  }

  /** Where a parse ends: past where it began on success, inside the buffer always; the
      nesting depth only ever grows on the way to a failure. */
  ghost predicate EndsWell<T>(c: bytes, off: nat, depth: nat, r: Parse<T>) {
    match r
    case Parsed(_, o) => off < o <= |c|
    case Rejected(o, d) => off <= o <= |c| && depth <= d
  }

  /** parse_value */
  function ReadValue(c: bytes, off: nat, depth: nat): (r: Parse<Value>)
    requires off <= |c|
    ensures EndsWell(c, off, depth, r)
    decreases |c| - off, 3
  {
    if At(c, off, NULL_TEXT) then Parsed(Null, off + 4)
    else if At(c, off, FALSE_TEXT) then Parsed(Bool(false), off + 5)
    else if At(c, off, TRUE_TEXT) then Parsed(Bool(true), off + 4)
    else if off < |c| && c[off] == QUOTE then
      match ReadString(c, off, depth)
      case Parsed(s, o) => Parsed(String(s), o)
      case Rejected(o, d) => Rejected(o, d)
    else if off < |c| && (c[off] == MINUS || IsDigit(c[off])) then ReadNumber(c, off, depth)
    else if off < |c| && c[off] == LBRACKET then ReadArray(c, off, depth)
    else if off < |c| && c[off] == LBRACE then ReadObject(c, off, depth)
    else Rejected(off, depth)
  }

  /** parse_array, before its loop */
  function ReadArray(c: bytes, off: nat, depth: nat): (r: Parse<Value>)
    requires off < |c| && c[off] == LBRACKET
    ensures EndsWell(c, off, depth, r)
    decreases |c| - off, 2
  {
    if depth >= NESTING_LIMIT then Rejected(off, depth)
    else
      var p := SkipSpace(c, off + 1);
      if p < |c| && c[p] == RBRACKET then Parsed(Array([]), p + 1)
      else if p >= |c| then Rejected(p - 1, depth + 1)
      else ReadElements(c, p - 1, depth + 1, [])
  }

  /** The loop of parse_array: `q` is the bracket or comma before the next element (or one
      byte before that element), `done` the elements read so far. */
  function ReadElements(c: bytes, q: nat, depth: nat, done: seq<Value>): (r: Parse<Value>)
    requires q < |c|
    ensures EndsWell(c, q, depth, r)
    decreases |c| - q, 1
  {
    match ReadValue(c, SkipSpace(c, q + 1), depth)
    case Rejected(o, d) => Rejected(o, d)
    case Parsed(v, o) =>
      var p := SkipSpace(c, o);
      if p < |c| && c[p] == COMMA then ReadElements(c, p, depth, done + [v])
      else if p < |c| && c[p] == RBRACKET then Parsed(Array(done + [v]), p + 1)
      else Rejected(p, depth)
  }

  /** parse_object, before its loop */
  function ReadObject(c: bytes, off: nat, depth: nat): (r: Parse<Value>)
    requires off < |c| && c[off] == LBRACE
    ensures EndsWell(c, off, depth, r)
    decreases |c| - off, 2
  {
    if depth >= NESTING_LIMIT then Rejected(off, depth)
    else
      var p := SkipSpace(c, off + 1);
      if p < |c| && c[p] == RBRACE then Parsed(Object([]), p + 1)
      else if p >= |c| then Rejected(p - 1, depth + 1)
      else ReadMembers(c, p - 1, depth + 1, [])
  }

  /** The loop of parse_object. */
  function ReadMembers(c: bytes, q: nat, depth: nat, done: seq<Member>): (r: Parse<Value>)
    requires q < |c|
    ensures EndsWell(c, q, depth, r)
    decreases |c| - q, 1
  {
    match ReadMember(c, q, depth)
    case Rejected(o, d) => Rejected(o, d)
    case Parsed(m, p) =>
      if p < |c| && c[p] == COMMA then ReadMembers(c, p, depth, done + [m])
      else if p < |c| && c[p] == RBRACE then Parsed(Object(done + [m]), p + 1)
      else Rejected(p, depth)
  }

  /** One turn of that loop, with the white space after the value. */
  function ReadMember(c: bytes, q: nat, depth: nat): (r: Parse<Member>)
    requires q < |c|
    ensures EndsWell(c, q, depth, r)
    decreases |c| - q, 0
  {
    if q + 1 >= |c| then Rejected(q, depth)
    else
      match ReadString(c, SkipSpace(c, q + 1), depth)
      case Rejected(o, d) => Rejected(o, d)
      case Parsed(key, o) =>
        var p := SkipSpace(c, o);
        if p >= |c| || c[p] != COLON then Rejected(p, depth)
        else
          match ReadValue(c, SkipSpace(c, p + 1), depth)
          case Rejected(o2, d) => Rejected(o2, d)
          case Parsed(v, o2) => Parsed(Member(key, v), SkipSpace(c, o2))
  }

  /** skip_utf8_bom */
  function SkipBom(c: bytes): (off: nat)
    ensures off <= |c|
  {
    if |c| > 4 && c[..3] == [0xEF, 0xBB, 0xBF] then 3 else 0
  }

  /** cJSON_ParseWithLengthOpts: the value and the end of its text, or the error position. */
  function ReadDocument(c: bytes, requireNul: bool): (r: Parse<Value>)
    ensures match r
            case Parsed(_, o) => 0 < o <= |c| && (requireNul ==> o < |c| && c[o] == 0)
            case Rejected(o, _) => c != [] ==> o < |c|
  {
    if c == [] then Rejected(0, 0)
    else
      match ReadValue(c, SkipSpace(c, SkipBom(c)), 0)
      case Rejected(o, d) => Rejected(if o < |c| then o else |c| - 1, d)
      case Parsed(v, o) =>
        if !requireNul then Parsed(v, o)
        else
          var p := SkipSpace(c, o);
          if p < |c| && c[p] == 0 then Parsed(v, p)
          else Rejected(if p < |c| then p else |c| - 1, 0)
  }
}
