/** cJSON's parser as it runs: one buffer whose offset and depth every step moves. Each
    method leaves exactly what its JsonReader function says. */
module JsonParser {
  import opened Bytes
  import opened Decimals
  import opened Utf16
  import opened JsonValue
  import opened JsonReader

  /** How many escape pairs the sizing pass meets between `i` and `e`. */
  ghost function Pairs(c: bytes, i: nat, e: nat): nat
    requires e <= |c|
    decreases e - i
  {
    if i >= e then 0
    else if c[i] == BACKSLASH then 1 + Pairs(c, i + 2, e)
    else Pairs(c, i + 1, e)
  }

  /** Walks the sizing pass on from `w` to the first position at or past `p`. */
  lemma {:induction false} WalkOn(c: bytes, w: nat, p: nat, end: nat) returns (w': nat, pairs: nat)
    requires CloseQuote(c, w) == Some(end) && end < |c|
    requires p <= end
    ensures w <= w' <= end && p <= w' && (w' == w || w' <= p + 1)
    ensures CloseQuote(c, w') == Some(end)
    ensures Pairs(c, w, end) == pairs + Pairs(c, w', end)
    ensures w + 2 * pairs <= w'
    decreases end - w
  {
    if p <= w {
      w', pairs := w, 0;
    } else if c[w] == BACKSLASH {
      w', pairs := WalkOn(c, w + 2, p, end);
      pairs := pairs + 1;
    } else {
      w', pairs := WalkOn(c, w + 1, p, end);
    }
  }

  lemma {:induction false} PairsBound(c: bytes, i: nat, e: nat)
    requires i <= e <= |c|
    ensures Pairs(c, i, e) <= e - i
    decreases e - i
  {
    if i < e {
      if c[i] == BACKSLASH {
        if i + 2 <= e {
          PairsBound(c, i + 2, e);
        }
      } else {
        PairsBound(c, i + 1, e);
      }
    }
  }
  /** The walk of the sizing pass, seen from the decoding position `p`: at `p` itself, or
      one further when `p` is the second byte of a pair. A bad literal can leave the two
      passes out of step like this. */
  ghost predicate InStep(c: bytes, p: nat, w: nat, end: nat) {
    && end < |c| && p <= end + 1 && w <= end && CloseQuote(c, w) == Some(end)
    && (w == p || w == p + 1 || (p == end + 1 && w == end))
  }

  /** The decoding pass moves on by `step` bytes: the pairs the walk meets on the way are
      few enough for what is decoded from them. */
  lemma StepWalk(c: bytes, p: nat, w: nat, end: nat, step: nat) returns (w': nat, pairs: nat)
    requires InStep(c, p, w, end) && p < end
    requires step == 1 || step == 2 || step == 6 || step == 12
    requires step == 1 ==> c[p] != BACKSLASH
    requires step == 2 ==> c[p] == BACKSLASH
    requires step > 2 ==> p + step <= end
    ensures InStep(c, p + step, w', end)
    ensures Pairs(c, w, end) == pairs + Pairs(c, w', end)
    ensures pairs <= if step == 1 then 0 else if step == 2 then 1 else step / 2
  {
    if step == 1 {
      w', pairs := if w == p then p + 1 else w, 0;
    } else if p + step <= end {
      w', pairs := WalkOn(c, w, p + step, end);
    } else {
      w', pairs := w, 0;
    }
  }

  /** There is room for one more byte, whatever is left of the string. */
  lemma RoomLeft(c: bytes, start: nat, p: nat, w: nat, end: nat, pairs: nat, length: nat)
    requires start <= p && InStep(c, p, w, end)
    requires Pairs(c, start, end) == pairs + Pairs(c, w, end)
    requires length + pairs <= p - start
    ensures length <= end + 1 - start - Pairs(c, start, end)
  {
    PairsBound(c, w, end);
  }

  class ParseBuffer {
    const content: bytes
    var offset: nat
    var depth: nat

    constructor (text: bytes)
      ensures content == text && offset == 0 && depth == 0
    {
      content, offset, depth := text, 0, 0;
    }

    ghost predicate Valid()
      reads this
    {
      offset <= |content|
    }

    /** The state after a parse is what `r` says, and the item is its value. */
    ghost predicate Leaves<T>(r: Parse<T>, ok: bool, item: T, oldDepth: nat)
      reads this
    {
      match r
      case Parsed(v, o) => ok && item == v && offset == o && depth == oldDepth
      case Rejected(o, d) => !ok && offset == o && depth == d
    }

    /** buffer_skip_whitespace */
    method SkipWhitespace()
      requires Valid()
      modifies `offset
      ensures Valid() && offset == SkipSpace(content, old(offset))
    {
      if offset >= |content| {
        return;
      }
      while offset < |content| && content[offset] <= SPACE
        invariant old(offset) <= offset <= |content|
        invariant SpaceEnd(content, offset) == SpaceEnd(content, old(offset))
      {
        offset := offset + 1;
      }
      if offset == |content| {
        offset := offset - 1;
      }
    }

    /** parse_number. The scanned characters go to `strtod`. */
    method ParseNumber() returns (ok: bool, item: Value)
      requires Valid()
      modifies `offset
      ensures Valid() && Leaves(ReadNumber(content, old(offset), depth), ok, item, old(depth))
    {
      var i := 0;
      while offset + i < |content| && IsNumberChar(content[offset + i])
        invariant offset + i <= |content|
        invariant NumberRun(content, offset + i) == NumberRun(content, offset)
      {
        i := i + 1;
      }
      var number := Strtod(content[offset..offset + i]);
      if number.used == 0 {
        return false, Null;
      }
      offset := offset + number.used;
      return true, Number(number.mantissa, number.exponent);
    }

    /** The sizing pass of parse_string: where the string ends and how many bytes to
        allocate before the terminator. */
    method SizeString() returns (found: bool, end: nat, allocation: nat)
      requires offset < |content|
      ensures found <==> CloseQuote(content, offset + 1).Some?
      ensures found ==> CloseQuote(content, offset + 1) == Some(end)
      ensures found ==> allocation == end - offset - Pairs(content, offset + 1, end)
    {
      var start := offset + 1;
      var skipped := 0;
      end := start;
      found, allocation := false, 0;
      ghost var close := CloseQuote(content, start);
      while end < |content| && content[end] != QUOTE
        invariant start <= end
        invariant CloseQuote(content, end) == close
        invariant close.Some? ==>
            end <= close.value && Pairs(content, start, close.value) == skipped + Pairs(content, end, close.value)
        decreases |content| - end
      {
        if content[end] == BACKSLASH {
          if end + 1 >= |content| {
            return;
          }
          skipped := skipped + 1;
          end := end + 1;
        }
        end := end + 1;
      }
      if end >= |content| {
        return;
      }
      found := true;
      PairsBound(content, start, end);
      allocation := end - offset - skipped;
    }

    /** The decoding pass of parse_string never outruns what the sizing pass allocated:
        `output` is exactly that long, and every write is inside it. */
    method DecodeString(end: nat, output: array<byte>) returns (ok: bool, at: nat, length: nat)
      requires offset < |content|
      requires CloseQuote(content, offset + 1) == Some(end)
      requires output.Length == end - offset - Pairs(content, offset + 1, end) + 1
      modifies output
      ensures match Unescape(content, offset + 1, end, [])
              case Text(text) => ok && length < output.Length && output[..length] == text && output[length] == 0
              case BadEscape(p) => !ok && at == p
    {
      hide ReadLiteral, SimpleEscape, CloseQuote, Pairs;
      var p: nat := offset + 1;
      ghost var start: nat, w: nat, pairs: nat := p, p, 0;
      length, at := 0, p;
      assert start <= end;
      RoomLeft(content, start, p, w, end, pairs, length);
      while p < end
        invariant start <= p && length < output.Length
        invariant InStep(content, p, w, end)
        invariant Pairs(content, start, end) == pairs + Pairs(content, w, end)
        invariant length + pairs <= p - start
        invariant Unescape(content, p, end, output[..length]) == Unescape(content, start, end, [])
      {
        ghost var done := output[..length];
        var step: nat;
        if content[p] != BACKSLASH {
          output[length] := content[p];
          length, step := length + 1, 1;
          assert output[..length] == done + [content[p]];
          w, pairs := AdvancePairs(start, p, w, end, step, pairs, length);
        } else if content[p + 1] == LETTER_U {
          ghost var literal := ReadLiteral(content, p, end);
          if literal.Some? {
            w, pairs := AdvancePairs(start, p, w, end, literal.value.length, pairs, length + |literal.value.utf8|);
          }
          step, length := Utf16LiteralToUtf8(content, p, end, output, length);
          if step == 0 {
            return false, p, length;
          }
          assert output[..length] == done + literal.value.utf8;
        } else {
          var escaped := SimpleEscape(content[p + 1]);
          if escaped.None? {
            return false, p, length;
          }
          output[length] := escaped.value;
          length, step := length + 1, 2;
          assert output[..length] == done + [escaped.value];
          w, pairs := AdvancePairs(start, p, w, end, step, pairs, length);
        }
        p := p + step;
      }
      output[length] := 0;
      ok := true;
    }

    /** One turn of that loop keeps the count: `length'` is the length after it. */
    lemma AdvancePairs(start: nat, p: nat, w: nat, end: nat, step: nat, pairs: nat, length': nat)
        returns (w': nat, pairs': nat)
      requires start <= p < end && InStep(content, p, w, end)
      requires Pairs(content, start, end) == pairs + Pairs(content, w, end)
      requires step == 1 || step == 2 || step == 6 || step == 12
      requires step == 1 ==> content[p] != BACKSLASH
      requires step == 2 ==> content[p] == BACKSLASH
      requires step > 2 ==> p + step <= end
      requires length' + pairs <= p - start + if step <= 2 then 1 else if step == 6 then 3 else 4
      ensures InStep(content, p + step, w', end)
      ensures Pairs(content, start, end) == pairs' + Pairs(content, w', end)
      ensures length' + pairs' <= p + step - start
      ensures length' <= end + 1 - start - Pairs(content, start, end)
    {
      var more;
      w', more := StepWalk(content, p, w, end, step);
      pairs' := pairs + more;
      RoomLeft(content, start, p + step, w', end, pairs', length');
    }

    /** parse_string */
    method ParseString() returns (ok: bool, text: bytes)
      requires offset < |content|
      modifies `offset
      ensures Valid() && Leaves(ReadString(content, old(offset), depth), ok, text, old(depth))
    {
      if content[offset] != QUOTE {
        offset := offset + 1;
        return false, [];
      }
      var found, end, allocation := SizeString();
      if !found {
        offset := offset + 1;
        return false, [];
      }
      PairsBound(content, offset + 1, end);
      var output := new byte[allocation + 1];
      var decoded, at, length := DecodeString(end, output);
      if !decoded {
        offset := at;
        return false, [];
      }
      offset := end + 1;
      CStringOfPrefix(output[..], length);
      return true, CString(output[..]);
    }

    /** parse_value */
    method ParseValue() returns (ok: bool, item: Value)
      requires Valid()
      modifies this
      ensures Valid() && Leaves(ReadValue(content, old(offset), old(depth)), ok, item, old(depth))
      decreases |content| - offset, 3
    {
      hide ReadString, ReadNumber, ReadArray, ReadObject, ReadElements, ReadMembers, ReadMember;
      if At(content, offset, NULL_TEXT) {
        offset := offset + 4;
        return true, Null;
      }
      if At(content, offset, FALSE_TEXT) {
        offset := offset + 5;
        return true, Bool(false);
      }
      if At(content, offset, TRUE_TEXT) {
        offset := offset + 4;
        return true, Bool(true);
      }
      if offset < |content| && content[offset] == QUOTE {
        var text;
        ok, text := ParseString();
        return ok, String(text);
      }
      if offset < |content| && (content[offset] == MINUS || IsDigit(content[offset])) {
        ok, item := ParseNumber();
        return;
      }
      if offset < |content| && content[offset] == LBRACKET {
        ok, item := ParseArray();
        return;
      }
      if offset < |content| && content[offset] == LBRACE {
        ok, item := ParseObject();
        return;
      }
      return false, Null;
    }

    /** parse_array */
    method ParseArray() returns (ok: bool, item: Value)
      requires offset < |content| && content[offset] == LBRACKET
      modifies this
      ensures Valid() && Leaves(ReadArray(content, old(offset), old(depth)), ok, item, old(depth))
      decreases |content| - offset, 2
    {
      hide ReadValue, ReadElements, ReadMembers, ReadMember, SkipSpace;
      ok, item := false, Null;
      if depth >= NESTING_LIMIT {
        return;
      }
      depth := depth + 1;
      offset := offset + 1;
      SkipWhitespace();
      var children: seq<Value> := [];
      if !(offset < |content| && content[offset] == RBRACKET) {
        offset := offset - 1;
        if offset + 1 >= |content| {
          return;
        }
        ok, children := ParseElements();
        if !ok {
          return;
        }
      }
      depth := depth - 1;
      offset := offset + 1;
      return true, Array(children);
    }

    /** The loop of parse_array, from the byte before the first element. */
    method ParseElements() returns (ok: bool, children: seq<Value>)
      requires offset < |content|
      modifies this
      ensures Valid()
      ensures match ReadElements(content, old(offset), old(depth), [])
              case Parsed(v, o) => ok && v == Array(children) && o == offset + 1 && depth == old(depth)
              case Rejected(o, d) => !ok && offset == o && depth == d
      decreases |content| - offset, 1
    {
      hide ReadValue, ReadArray, ReadObject, ReadMember, ReadMembers, SkipSpace;
      ghost var all := ReadElements(content, offset, depth, []);
      children := [];
      var more := true;
      while more
        invariant depth == old(depth) && old(offset) <= offset <= |content|
        invariant if more then offset < |content| && ReadElements(content, offset, depth, children) == all
                  else if offset < |content| && content[offset] == RBRACKET then
                    all == Parsed(Array(children), offset + 1)
                  else all == Rejected(offset, depth)
        decreases more, |content| - offset
      {
        offset := offset + 1;
        SkipWhitespace();
        var parsed, child := ParseValue();
        if !parsed {
          return false, children;
        }
        children := children + [child];
        SkipWhitespace();
        more := offset < |content| && content[offset] == COMMA;
      }
      ok := offset < |content| && content[offset] == RBRACKET;
    }

    /** parse_object */
    method ParseObject() returns (ok: bool, item: Value)
      requires offset < |content| && content[offset] == LBRACE
      modifies this
      ensures Valid() && Leaves(ReadObject(content, old(offset), old(depth)), ok, item, old(depth))
      decreases |content| - offset, 2
    {
      hide ReadValue, ReadElements, ReadMembers, ReadMember, SkipSpace;
      ok, item := false, Null;
      if depth >= NESTING_LIMIT {
        return;
      }
      depth := depth + 1;
      offset := offset + 1;
      SkipWhitespace();
      var children: seq<Member> := [];
      if !(offset < |content| && content[offset] == RBRACE) {
        offset := offset - 1;
        if offset + 1 >= |content| {
          return;
        }
        ok, children := ParseMembers();
        if !ok {
          return;
        }
      }
      depth := depth - 1;
      offset := offset + 1;
      return true, Object(children);
    }

    /** The loop of parse_object, from the byte before the first member. */
    method ParseMembers() returns (ok: bool, children: seq<Member>)
      requires offset < |content|
      modifies this
      ensures Valid()
      ensures match ReadMembers(content, old(offset), old(depth), [])
              case Parsed(v, o) => ok && v == Object(children) && o == offset + 1 && depth == old(depth)
              case Rejected(o, d) => !ok && offset == o && depth == d
      decreases |content| - offset, 1
    {
      hide ReadValue, ReadArray, ReadObject, ReadMember, ReadElements, SkipSpace;
      ghost var all := ReadMembers(content, offset, depth, []);
      children := [];
      var more := true;
      while more
        invariant depth == old(depth) && old(offset) <= offset <= |content|
        invariant if more then offset < |content| && ReadMembers(content, offset, depth, children) == all
                  else if offset < |content| && content[offset] == RBRACE then
                    all == Parsed(Object(children), offset + 1)
                  else all == Rejected(offset, depth)
        decreases more, |content| - offset
      {
        var parsed, child := ParseMember();
        if !parsed {
          return false, children;
        }
        children := children + [child];
        more := offset < |content| && content[offset] == COMMA;
      }
      ok := offset < |content| && content[offset] == RBRACE;
    }

    /** The body of parse_object's loop: name, colon, value. */
    method ParseMember() returns (ok: bool, member: Member)
      requires offset < |content|
      modifies this
      ensures Valid() && Leaves(ReadMember(content, old(offset), old(depth)), ok, member, old(depth))
      decreases |content| - offset, 0
    {
      hide ReadValue, ReadArray, ReadObject, ReadElements, ReadMembers, ReadString, SkipSpace;
      ok, member := false, Member([], Null);
      if offset + 1 >= |content| {
        return;
      }
      offset := offset + 1;
      SkipWhitespace();
      var named, key := ParseString();
      if !named {
        return;
      }
      SkipWhitespace();
      if offset >= |content| || content[offset] != COLON {
        return;
      }
      offset := offset + 1;
      SkipWhitespace();
      var parsed, val := ParseValue();
      if !parsed {
        return;
      }
      SkipWhitespace();
      return true, Member(key, val);
    }
  }

  /** cJSON_ParseWithLengthOpts: the value and where its text ends, or the error position. */
  method ParseDocument(text: bytes, requireNul: bool) returns (ok: bool, item: Value, end: nat)
    ensures match ReadDocument(text, requireNul)
            case Parsed(v, o) => ok && item == v && end == o
            case Rejected(o, _) => !ok && end == o
  {
    ok, item, end := false, Null, 0;
    if text == [] {
      return;
    }
    var buffer := new ParseBuffer(text);
    if |text| > 4 && text[..3] == [0xEF, 0xBB, 0xBF] {
      buffer.offset := buffer.offset + 3;
    }
    buffer.SkipWhitespace();
    ok, item := buffer.ParseValue();
    if ok && requireNul {
      buffer.SkipWhitespace();
      ok := buffer.offset < |text| && text[buffer.offset] == 0;
    }
    end := buffer.offset;
    if !ok && end >= |text| {
      end := |text| - 1;
    }
  }
}
