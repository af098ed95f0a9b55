/** cJSON's printer as it runs: into one buffer that `ensure` grows, with an offset that
    `update_offset` recovers from the terminator. A successful print leaves exactly the
    text of module JsonText behind what was there, terminated; and it succeeds exactly when
    the nesting and the buffer limit allow. */
module JsonPrinter {
  import opened Bytes
  import opened Decimals
  import opened JsonValue
  import opened JsonSyntax
  import opened JsonText

  lemma IntTextLength(m: int)
    requires IsInt32(m)
    ensures |IntText(m)| <= 11 && NulFree(IntText(m)) && IntText(m) != []
  {
    assert Power10(3) == 1000;
    assert Power10(6) == 1000 * Power10(3);
    assert Power10(9) == 1000 * Power10(6);
    assert Power10(10) == 10 * Power10(9);
    DigitsLength(if m < 0 then -m else m, 10);
  }

  lemma {:induction false} EscapeNulFree(s: bytes)
    requires NulFree(s)
    ensures NulFree(EscapeText(s))
  {
    if s != [] {
      EscapeNulFree(s[1..]);
    }
  }

  lemma {:induction false} TextNulFree(v: Value, fmt: bool, depth: nat)
    requires Printable(v)
    ensures NulFree(Text(v, fmt, depth)) && Text(v, fmt, depth) != []
    decreases v, 1
  {
    hide IntText, EscapeText, ElementsText, MembersText;
    match v
    case Number(m, _) => IntTextLength(m);
    case String(s) => EscapeNulFree(s);
    case Array(es) => ElementsNulFree(es, fmt, depth + 1);
    case Object(ms) => MembersNulFree(ms, fmt, depth + 1);
    case _ =>
  }

  lemma {:induction false} ElementsNulFree(es: seq<Value>, fmt: bool, depth: nat)
    requires AllPrintable(es)
    ensures NulFree(ElementsText(es, fmt, depth))
    decreases es, 0
  {
    hide Text, Printable;
    if es != [] {
      TextNulFree(es[0], fmt, depth);
      ElementsNulFree(es[1..], fmt, depth);
    }
  }

  lemma {:induction false} MembersNulFree(ms: seq<Member>, fmt: bool, depth: nat)
    requires AllMembersPrintable(ms)
    ensures NulFree(MembersText(ms, fmt, depth))
    decreases ms, 0
  {
    hide Text, Printable, MemberText;
    if ms != [] {
      MemberNulFree(ms[0], fmt, depth, |ms| == 1);
      MembersNulFree(ms[1..], fmt, depth);
    }
  }

  lemma {:induction false} MemberNulFree(m: Member, fmt: bool, depth: nat, last: bool)
    requires NulFree(m.key) && Printable(m.val)
    ensures NulFree(MemberText(m, fmt, depth, last))
    decreases m, 0
  {
    hide Text, Printable, EscapeText;
    EscapeNulFree(m.key);
    TextNulFree(m.val, fmt, depth);
  }

  class PrintBuffer {
    var buffer: array<byte>
    var offset: nat
    var depth: nat
    const noalloc: bool
    const format: bool
    /** How long the buffer can get: its fixed length, or INT_MAX. */
    ghost const limit: nat
    /** The end of what the last `ensure` granted. */
    ghost var reserved: nat

    ghost predicate Valid()
      reads this
    {
      && (offset == 0 || offset < buffer.Length) && depth <= NESTING_LIMIT
      && buffer.Length <= limit <= INT_MAX
      && limit == (if noalloc then buffer.Length else INT_MAX)
      && reserved <= buffer.Length
    }

    /** The buffer of print(): 256 bytes, growing. */
    constructor Growing(fmt: bool)
      ensures Valid() && fresh(buffer) && buffer.Length == 256 && !noalloc && format == fmt && offset == depth == 0
    {
      buffer := new byte[256];
      offset, depth, noalloc, format, limit, reserved := 0, 0, false, fmt, INT_MAX, 0;
    }

    /** The buffer of cJSON_PrintPreallocated. */
    constructor Preallocated(memory: array<byte>, fmt: bool)
      requires memory.Length <= INT_MAX
      ensures Valid() && buffer == memory && noalloc && format == fmt && offset == depth == 0
    {
      buffer := memory;
      offset, depth, noalloc, format, limit, reserved := 0, 0, true, fmt, memory.Length, 0;
    }

    /** `s` is what the buffer holds as a C string, and the offset is on its way to its end. */
    ghost predicate Holds(s: bytes)
      reads `offset, `buffer, buffer
    {
      offset <= |s| < buffer.Length && buffer[..|s|] == s && buffer[|s|] == 0
    }

    /** ensure. The buffer keeps everything before the offset. */
    method Ensure(needed: nat) returns (ok: bool)
      requires Valid()
      modifies `buffer, `reserved
      ensures Valid()
      ensures ok <==> offset + needed + 1 <= limit
      ensures ok ==> offset < buffer.Length && reserved == offset + needed < buffer.Length
      ensures buffer == old(buffer) || (!noalloc && fresh(buffer))
      ensures buffer[..offset] == old(buffer[..offset])
    {
      reserved := 0;
      if buffer.Length > 0 && offset >= buffer.Length {
        return false;
      }
      if needed > INT_MAX {
        return false;
      }
      var total := needed + offset + 1;
      if total <= buffer.Length {
        reserved := offset + needed;
        return true;
      }
      if noalloc {
        return false;
      }
      var newSize;
      if total > INT_MAX / 2 {
        if total <= INT_MAX {
          newSize := INT_MAX;
        } else {
          return false;
        }
      } else {
        newSize := total * 2;
      }
      var newBuffer := new byte[newSize];
      forall i | 0 <= i < buffer.Length {
        newBuffer[i] := buffer[i];
      }
      buffer := newBuffer;
      reserved := offset + needed;
      return true;
    }

    /** A write through the pointer `ensure` returned; never past what it granted. */
    method Put(at: nat, b: byte)
      requires Valid() && offset <= at < reserved
      modifies buffer
      ensures buffer[..] == old(buffer[..])[at := b]
    {
      buffer[at] := b;
    }

    /** `strcpy`, `memcpy` and character by character writes of known bytes. */
    method PutAll(at: nat, s: bytes)
      requires Valid() && offset <= at && at + |s| <= reserved
      modifies buffer
      ensures buffer[..at + |s|] == old(buffer[..at]) + s
    {
      for i := 0 to |s|
        invariant buffer[..at + i] == old(buffer[..at]) + s[..i]
      {
        Put(at + i, s[i]);
        assert buffer[..at + (i + 1)] == buffer[..at + i] + [s[i]];
      }
    }

    /** The same, and the terminator. */
    method PutTerminated(at: nat, s: bytes)
      requires Valid() && offset <= at && at + |s| < reserved
      modifies buffer
      ensures buffer[..at + |s|] == old(buffer[..at]) + s
      ensures buffer[at + |s|] == 0
    {
      PutAll(at, s);
      Put(at + |s|, 0);
      assert buffer[..at + |s|] == buffer[..][..at + |s|];
    }

    /** update_offset: `strlen` from the offset on. */
    method UpdateOffset(ghost s: bytes)
      requires Valid() && Holds(s)
      requires forall i :: offset <= i < |s| ==> s[i] != 0
      modifies `offset
      ensures Valid() && offset == |s| && Holds(s)
    {
      var length := 0;
      assert forall i :: offset <= i < |s| ==> buffer[i] == s[i] != 0;
      while buffer[offset + length] != 0
        invariant offset + length <= |s|
        decreases |s| - length
      {
        length := length + 1;
      }
      offset := offset + length;
    }

    /** A text of `length` bytes from `start` on, its terminator and one byte to spare. */
    ghost predicate Fits(start: nat, length: nat) { start + length + 2 <= limit }

    // ----- strings and numbers -----

    /** The first pass of print_string_ptr: how many bytes escaping adds. */
    method CountEscapes(input: bytes) returns (escapes: nat)
      ensures |EscapeText(input)| == |input| + escapes
    {
      escapes := 0;
      for i := 0 to |input|
        invariant |EscapeText(input[..i])| == i + escapes
      {
        EscapeNext(input, i);
        var b := input[i];
        if b == QUOTE || b == BACKSLASH || b == 8 || b == 12 || b == 10 || b == 13 || b == 9 {
          escapes := escapes + 1;
        } else if b < 32 {
          escapes := escapes + 5;
        }
      }
      assert input[..|input|] == input;
    }

    /** One character of the second pass. `sprintf` writes its terminator too. */
    method PutEscape(b: byte, at: nat) returns (end: nat)
      requires Valid() && offset < at && at + |EscapeByte(b)| + 1 <= reserved
      modifies buffer
      ensures end == at + |EscapeByte(b)|
      ensures buffer[..end] == old(buffer[..at]) + EscapeByte(b)
    {
      hide EscapeByte, EscapeLetter, HexDigit;
      EscapeCases(b);
      if b > 31 && b != QUOTE && b != BACKSLASH {
        PutAll(at, [b]);
        end := at + 1;
      } else if EscapeLetter(b).Some? {
        PutAll(at, [BACKSLASH, EscapeLetter(b).value]);
        end := at + 2;
      } else {
        var hex := [LETTER_U, 48, 48, HexDigit(b / 16), HexDigit(b % 16)];
        PutAll(at, [BACKSLASH]);
        PutTerminated(at + 1, hex);
        end := at + 6;
      }
    }

    /** The second pass of print_string_ptr, behind the opening quote. */
    method PutEscaped(input: bytes, at: nat) returns (end: nat)
      requires Valid() && offset < at && at + |EscapeText(input)| + 2 <= reserved
      modifies buffer
      ensures end == at + |EscapeText(input)|
      ensures buffer[..end] == old(buffer[..at]) + EscapeText(input)
    {
      hide EscapeByte, EscapeText;
      end := at;
      EscapeNothing();
      for i := 0 to |input|
        invariant end == at + |EscapeText(input[..i])| <= at + |EscapeText(input)|
        invariant buffer[..end] == old(buffer[..at]) + EscapeText(input[..i])
      {
        EscapeNext(input, i);
        end := PutEscape(input[i], end);
      }
      assert input[..|input|] == input;
    }

    /** print_string_ptr */
    method PrintString(input: bytes) returns (ok: bool)
      requires Valid() && NulFree(input)
      modifies this, buffer
      ensures Valid() && (buffer == old(buffer) || (!noalloc && fresh(buffer)))
      ensures depth == old(depth) && offset == old(offset)
      ensures ok <==> Fits(old(offset), |StringText(input)|)
      ensures ok ==> Holds(old(buffer[..offset]) + StringText(input))
    {
      hide StringText, EscapeText, NulFree;
      StringLength(input);
      var escapes := CountEscapes(input);
      var outputLength := |input| + escapes;
      ok := Ensure(outputLength + 3);
      if ok {
        PutQuoted(input, escapes);
      }
    }

    /** The writes of print_string_ptr. */
    method PutQuoted(input: bytes, escapes: nat)
      requires Valid() && |EscapeText(input)| == |input| + escapes
      requires offset + |EscapeText(input)| + 3 <= reserved
      modifies buffer
      ensures Holds(old(buffer[..offset]) + StringText(input))
    {
      hide EscapeText;
      ghost var start := buffer[..offset];
      var outputLength := |input| + escapes;
      PutAll(offset, [QUOTE]);
      if escapes == 0 {
        NothingEscaped(input);
        PutAll(offset + 1, input);
      } else {
        var end := PutEscaped(input, offset + 1);
      }
      ghost var body := buffer[..offset + 1 + outputLength];
      PutTerminated(offset + outputLength + 1, [QUOTE]);
      assert start + StringText(input) == body + [QUOTE];
    }

    /** print_number on an integer; the digits go through a 26 byte buffer. */
    method PrintNumber(m: int) returns (ok: bool)
      requires Valid() && IsInt32(m)
      modifies this, buffer
      ensures Valid() && (buffer == old(buffer) || (!noalloc && fresh(buffer))) && depth == old(depth)
      ensures ok <==> Fits(old(offset), |IntText(m)|)
      ensures ok ==> Holds(old(buffer[..offset]) + IntText(m)) && old(offset) <= offset
      ensures |IntText(m)| <= 11
    {
      hide IntText;
      var digits := IntText(m);
      IntTextLength(m);
      if |digits| > 25 {
        return false;
      }
      ok := Ensure(|digits| + 1);
      if ok {
        PutTerminated(offset, digits);
        offset := offset + |digits|;
      }
    }

    /** `null`, `false` and `true` */
    method PrintWord(word: bytes) returns (ok: bool)
      requires Valid() && word != []
      modifies this, buffer
      ensures Valid() && (buffer == old(buffer) || (!noalloc && fresh(buffer)))
      ensures depth == old(depth) && offset == old(offset)
      ensures ok <==> Fits(old(offset), |word|)
      ensures ok ==> Holds(old(buffer[..offset]) + word)
    {
      ok := Ensure(|word| + 1);
      if ok {
        PutTerminated(offset, word);
      }
    }

    // ----- values, arrays and objects -----

    /** print_value: the text of `item`, exactly when nesting and buffer limit allow it. */
    method PrintValue(item: Value) returns (ok: bool)
      requires Valid() && Printable(item)
      modifies this, buffer
      ensures Valid() && (buffer == old(buffer) || (!noalloc && fresh(buffer)))
      ensures ok <==> old(depth) + Height(item) <= NESTING_LIMIT && Fits(old(offset), |Text(item, format, old(depth))|)
      ensures ok ==> depth == old(depth) && old(offset) <= offset
      ensures ok ==> Holds(old(buffer[..offset]) + Text(item, format, old(depth)))
      decreases item, 3
    {
      hide IntText, StringText, ElementsText, MembersText, NulFree, AllPrintable, AllMembersPrintable,
        ElementsHeight, MembersHeight, Holds;
      match item
      case Null => ok := PrintWord(NULL_TEXT);
      case Bool(b) => ok := PrintWord(if b then TRUE_TEXT else FALSE_TEXT);
      case Number(m, _) => ok := PrintNumber(m);
      case String(s) => ok := PrintString(s);
      case Array(es) => ok := PrintArray(item);
      case Object(ms) => ok := PrintObject(item);
    }

    /** What is printed so far, up to the offset. */
    ghost predicate Filled(s: bytes)
      reads `offset, `buffer, buffer
    {
      offset == |s| < buffer.Length && buffer[..offset] == s
    }

    /** Bytes known in advance, after an `ensure` for `needed` bytes: the offset moves past them. */
    method Advance(s: bytes, needed: nat, ghost pre: bytes) returns (ok: bool)
      requires Valid() && |s| <= needed && offset == |pre| <= buffer.Length && buffer[..offset] == pre
      modifies this, buffer
      ensures Valid() && (buffer == old(buffer) || (!noalloc && fresh(buffer))) && depth == old(depth)
      ensures ok <==> old(offset) + needed + 1 <= limit
      ensures ok ==> Filled(pre + s) && reserved == old(offset) + needed
    {
      ok := Ensure(needed);
      if ok {
        PutAll(offset, s);
        offset := offset + |s|;
      }
    }

    /** print_array */
    method PrintArray(item: Value) returns (ok: bool)
      requires Valid() && item.Array? && Printable(item)
      modifies this, buffer
      ensures Valid() && (buffer == old(buffer) || (!noalloc && fresh(buffer)))
      ensures ok <==> old(depth) + Height(item) <= NESTING_LIMIT && Fits(old(offset), |Text(item, format, old(depth))|)
      ensures ok ==> depth == old(depth) && old(offset) <= offset
      ensures ok ==> Holds(old(buffer[..offset]) + Text(item, format, old(depth)))
      decreases item, 2
    {
      hide Text, Height, Printable, ElementsText, ElementsHeight, AllPrintable, Holds;
      ArrayIs(item, format, depth);
      if depth >= NESTING_LIMIT {
        return false;
      }
      ghost var pre, body := buffer[..offset], ElementsText(item.elements, format, depth + 1);
      ok := Advance([LBRACKET], 1, pre);
      if !ok {
        return;
      }
      depth := depth + 1;
      ok := PrintElements(item.elements, pre + [LBRACKET]);
      if !ok {
        return;
      }
      ok := Close([RBRACKET], 2, pre + [LBRACKET] + body);
      depth := depth - 1;
      assert pre + [LBRACKET] + body + [RBRACKET] == pre + Text(item, format, depth);
    }

    /** The closing bracket or brace, with what stands before it; the offset stays. */
    method Close(s: bytes, needed: nat, ghost pre: bytes) returns (ok: bool)
      requires Valid() && |s| < needed && Filled(pre)
      modifies this, buffer
      ensures Valid() && (buffer == old(buffer) || (!noalloc && fresh(buffer))) && depth == old(depth)
          && offset == old(offset)
      ensures ok <==> offset + needed + 1 <= limit
      ensures ok ==> Holds(pre + s)
    {
      ok := Ensure(needed);
      if ok {
        PutTerminated(offset, s);
      }
    }

    /** The loop of print_array. */
    method PrintElements(es: seq<Value>, ghost pre: bytes) returns (ok: bool)
      requires Valid() && AllPrintable(es) && Filled(pre)
      modifies this, buffer
      ensures Valid() && (buffer == old(buffer) || (!noalloc && fresh(buffer)))
      ensures ok <==> (&& old(depth) + ElementsHeight(es) <= NESTING_LIMIT
                       && (es != [] ==> Fits(|pre|, |ElementsText(es, format, old(depth))|)))
      ensures ok ==> depth == old(depth) && Filled(pre + ElementsText(es, format, depth))
      decreases es, 1
    {
      hide ElementsText, ElementsHeight, AllPrintable, ElementText, Height;
      ok := true;
      ghost var done, height := [], 0;
      ElementsEnd(es, format, depth);
      assert pre + [] == pre;
      for i := 0 to |es|
        invariant Valid() && (buffer == old(buffer) || (!noalloc && fresh(buffer))) && depth == old(depth)
        invariant AllPrintable(es[i..]) && Filled(pre + done)
        invariant ElementsText(es, format, depth) == done + ElementsText(es[i..], format, depth)
        invariant ElementsHeight(es) == Max(height, ElementsHeight(es[i..])) && depth + height <= NESTING_LIMIT
        invariant i == 0 || Fits(|pre|, |done|)
      {
        ElementsNext(es, i, format, depth);
        ghost var text := ElementText(es[i], format, depth, i + 1 == |es|);
        assert pre + done + text == pre + (done + text);
        ok := PrintElement(es[i], i + 1 == |es|, pre + done);
        if !ok {
          return;
        }
        done := done + text;
        height := Max(height, Height(es[i]));
      }
    }

    /** One turn of that loop. */
    method PrintElement(v: Value, last: bool, ghost pre: bytes) returns (ok: bool)
      requires Valid() && Printable(v) && Filled(pre)
      modifies this, buffer
      ensures Valid() && (buffer == old(buffer) || (!noalloc && fresh(buffer)))
      ensures ok <==> old(depth) + Height(v) <= NESTING_LIMIT && Fits(|pre|, |ElementText(v, format, old(depth), last)|)
      ensures ok ==> depth == old(depth) && Filled(pre + ElementText(v, format, depth, last))
      decreases v, 5
    {
      hide Text, Height, Printable;
      ok := PrintAndAdvance(v, pre);
      if ok && !last {
        ghost var text := pre + Text(v, format, depth);
        var separator := [COMMA] + When(format, [SPACE]);
        ok := Advance(separator, |separator| + 1, text);
        if ok {
          Terminate(text + separator);
          assert text + separator == pre + ElementText(v, format, depth, last);
        }
      }
    }

    /** print_object */
    method PrintObject(item: Value) returns (ok: bool)
      requires Valid() && item.Object? && Printable(item)
      modifies this, buffer
      ensures Valid() && (buffer == old(buffer) || (!noalloc && fresh(buffer)))
      ensures ok <==> old(depth) + Height(item) <= NESTING_LIMIT && Fits(old(offset), |Text(item, format, old(depth))|)
      ensures ok ==> depth == old(depth) && old(offset) <= offset
      ensures ok ==> Holds(old(buffer[..offset]) + Text(item, format, old(depth)))
      decreases item, 2
    {
      hide Text, Height, Printable, MembersText, MembersHeight, AllMembersPrintable, Holds, OpenText, CloseText;
      ObjectIs(item, format, depth);
      if depth >= NESTING_LIMIT {
        return false;
      }
      ghost var pre, body := buffer[..offset], MembersText(item.members, format, depth + 1);
      var open, close := OpenText(format), CloseText(format, depth);
      ok := Advance(open, |open| + 1, pre);
      if !ok {
        return;
      }
      depth := depth + 1;
      ok := PrintMembers(item.members, pre + open);
      if !ok {
        return;
      }
      ok := Close(close, if format then depth + 1 else 2, pre + open + body);
      depth := depth - 1;
      assert pre + open + body + close == pre + Text(item, format, depth);
    }

    /** The loop of print_object. */
    method PrintMembers(ms: seq<Member>, ghost pre: bytes) returns (ok: bool)
      requires Valid() && AllMembersPrintable(ms) && Filled(pre)
      modifies this, buffer
      ensures Valid() && (buffer == old(buffer) || (!noalloc && fresh(buffer)))
      ensures ok <==> (&& old(depth) + MembersHeight(ms) <= NESTING_LIMIT
                       && (ms != [] ==> Fits(|pre|, |MembersText(ms, format, old(depth))|)))
      ensures ok ==> depth == old(depth) && Filled(pre + MembersText(ms, format, depth))
      decreases ms, 1
    {
      hide MembersText, MembersHeight, AllMembersPrintable, MemberText, Height, NulFree, Printable;
      ok := true;
      ghost var done, height := [], 0;
      MembersEnd(ms, format, depth);
      assert pre + [] == pre;
      for i := 0 to |ms|
        invariant Valid() && (buffer == old(buffer) || (!noalloc && fresh(buffer))) && depth == old(depth)
        invariant AllMembersPrintable(ms[i..]) && Filled(pre + done)
        invariant MembersText(ms, format, depth) == done + MembersText(ms[i..], format, depth)
        invariant MembersHeight(ms) == Max(height, MembersHeight(ms[i..])) && depth + height <= NESTING_LIMIT
        invariant i == 0 || Fits(|pre|, |done|)
      {
        MembersNext(ms, i, format, depth);
        ghost var text := MemberText(ms[i], format, depth, i + 1 == |ms|);
        assert pre + done + text == pre + (done + text);
        ok := PrintMember(ms[i], i + 1 == |ms|, pre + done);
        if !ok {
          return;
        }
        done := done + text;
        height := Max(height, Height(ms[i].val));
      }
    }

    /** One turn of that loop: indent, key, colon, value, comma and newline. */
    method PrintMember(m: Member, last: bool, ghost pre: bytes) returns (ok: bool)
      requires Valid() && NulFree(m.key) && Printable(m.val) && Filled(pre)
      modifies this, buffer
      ensures Valid() && (buffer == old(buffer) || (!noalloc && fresh(buffer)))
      ensures ok <==>
        old(depth) + Height(m.val) <= NESTING_LIMIT && Fits(|pre|, |MemberText(m, format, old(depth), last)|)
      ensures ok ==> depth == old(depth) && Filled(pre + MemberText(m, format, depth, last))
      decreases m, 4
    {
      hide Text, Height, Printable, NulFree, Valid, Holds, KeyText, MemberText;
      MemberIs(m, format, depth, last);
      ok := PrintKey(m.key, pre);
      if !ok {
        return;
      }
      ghost var key := pre + KeyText(m.key, format, depth);
      ok := PrintAndAdvance(m.val, key);
      if !ok {
        return;
      }
      ghost var text := key + Text(m.val, format, depth);
      var separator := (if last then [] else [COMMA]) + When(format, [NEWLINE]);
      ok := Advance(separator, |separator| + 1, text);
      if ok {
        Terminate(text + separator);
        assert text + separator == pre + MemberText(m, format, depth, last);
      }
    }

    /** The terminator behind what was just written. */
    method Terminate(ghost s: bytes)
      requires Valid() && Filled(s) && offset < reserved
      modifies buffer
      ensures Valid() && Filled(s)
    {
      PutTerminated(offset, []);
    }

    /** print_value, then update_offset. */
    method PrintAndAdvance(v: Value, ghost pre: bytes) returns (ok: bool)
      requires Valid() && Printable(v) && Filled(pre)
      modifies this, buffer
      ensures Valid() && (buffer == old(buffer) || (!noalloc && fresh(buffer)))
      ensures ok <==> old(depth) + Height(v) <= NESTING_LIMIT && Fits(|pre|, |Text(v, format, old(depth))|)
      ensures ok ==> depth == old(depth) && Filled(pre + Text(v, format, depth)) && Holds(pre + Text(v, format, depth))
      decreases v, 4
    {
      hide Text, Height, Printable;
      TextNulFree(v, format, depth);
      ok := PrintValue(v);
      if ok {
        ghost var text := pre + Text(v, format, depth);
        assert forall i :: |pre| <= i < |text| ==> text[i] == Text(v, format, depth)[i - |pre|];
        UpdateOffset(text);
      }
    }

    /** The indent, the key and the colon. */
    method PrintKey(key: bytes, ghost pre: bytes) returns (ok: bool)
      requires Valid() && NulFree(key) && Filled(pre)
      modifies this, buffer
      ensures Valid() && (buffer == old(buffer) || (!noalloc && fresh(buffer))) && depth == old(depth)
      ensures ok <==> |pre| + |KeyText(key, format, depth)| + 1 <= limit
      ensures ok ==> Filled(pre + KeyText(key, format, depth))
    {
      hide StringText, Tabs, Filled, Holds, NulFree;
      ghost var tabs := When(format, Tabs(depth));
      assert pre + [] == pre;
      ok := true;
      if format {
        FilledIs(pre);
        ok := Advance(Tabs(depth), depth, pre);
        if !ok {
          return;
        }
      }
      ok := PrintStringAndAdvance(key, pre + tabs);
      if !ok {
        return;
      }
      ghost var text := pre + tabs + StringText(key);
      FilledIs(text);
      var colon := [COLON] + When(format, [TAB]);
      ok := Advance(colon, |colon|, text);
      assert text + colon == pre + KeyText(key, format, depth);
    }

    lemma FilledIs(s: bytes)
      requires Filled(s)
      ensures offset == |s| < buffer.Length && buffer[..offset] == s
    {}

    /** print_string_ptr, then update_offset. */
    method PrintStringAndAdvance(s: bytes, ghost pre: bytes) returns (ok: bool)
      requires Valid() && NulFree(s) && Filled(pre)
      modifies this, buffer
      ensures Valid() && (buffer == old(buffer) || (!noalloc && fresh(buffer))) && depth == old(depth)
      ensures ok <==> Fits(|pre|, |StringText(s)|)
      ensures ok ==> Filled(pre + StringText(s))
    {
      hide StringText;
      StringNulFree(s);
      ok := PrintString(s);
      if ok {
        ghost var text := pre + StringText(s);
        assert forall i :: |pre| <= i < |text| ==> text[i] == StringText(s)[i - |pre|];
        UpdateOffset(text);
      }
    }
  }

  lemma StringLength(s: bytes)
    ensures |StringText(s)| == |EscapeText(s)| + 2
  {}

  lemma EscapeCases(b: byte)
    ensures b > 31 && b != QUOTE && b != BACKSLASH ==> EscapeByte(b) == [b]
    ensures !(b > 31 && b != QUOTE && b != BACKSLASH) && EscapeLetter(b).Some? ==>
        EscapeByte(b) == [BACKSLASH, EscapeLetter(b).value]
    ensures !(b > 31 && b != QUOTE && b != BACKSLASH) && EscapeLetter(b).None? ==>
              EscapeByte(b) == [BACKSLASH] + [LETTER_U, 48, 48, HexDigit(b / 16), HexDigit(b % 16)]
  {}

  /** One element and what separates it from the next. */
  function ElementText(v: Value, fmt: bool, depth: nat, last: bool): bytes {
    Text(v, fmt, depth) + if last then [] else [COMMA] + When(fmt, [SPACE])
  }

  lemma ElementsNext(es: seq<Value>, i: nat, fmt: bool, depth: nat)
    requires i < |es|
    ensures ElementsText(es[i..], fmt, depth)
        == ElementText(es[i], fmt, depth, i + 1 == |es|) + ElementsText(es[i + 1..], fmt, depth)
    ensures ElementsHeight(es[i..]) == Max(Height(es[i]), ElementsHeight(es[i + 1..]))
    ensures AllPrintable(es[i..]) <==> Printable(es[i]) && AllPrintable(es[i + 1..])
  {}

  lemma ElementsEnd(es: seq<Value>, fmt: bool, depth: nat)
    ensures es[0..] == es && es[|es|..] == []
    ensures ElementsText(es[|es|..], fmt, depth) == [] && ElementsHeight(es[|es|..]) == 0
  {}

  lemma ArrayIs(v: Value, fmt: bool, depth: nat)
    requires v.Array?
    ensures Text(v, fmt, depth) == [LBRACKET] + ElementsText(v.elements, fmt, depth + 1) + [RBRACKET]
    ensures Height(v) == 1 + ElementsHeight(v.elements) && (Printable(v) <==> AllPrintable(v.elements))
    ensures v.elements == [] ==> ElementsText(v.elements, fmt, depth + 1) == [] && ElementsHeight(v.elements) == 0
  {}

  function OpenText(fmt: bool): bytes { [LBRACE] + When(fmt, [NEWLINE]) }

  function CloseText(fmt: bool, depth: nat): bytes { When(fmt, Tabs(depth)) + [RBRACE] }

  lemma ObjectIs(v: Value, fmt: bool, depth: nat)
    requires v.Object?
    ensures Text(v, fmt, depth) == OpenText(fmt) + MembersText(v.members, fmt, depth + 1) + CloseText(fmt, depth)
    ensures |OpenText(fmt)| == (if fmt then 2 else 1) && |CloseText(fmt, depth)| == (if fmt then depth + 1 else 1)
    ensures Height(v) == 1 + MembersHeight(v.members) && (Printable(v) <==> AllMembersPrintable(v.members))
    ensures v.members == [] ==> MembersText(v.members, fmt, depth + 1) == [] && MembersHeight(v.members) == 0
  {}

  /** What print_object writes before a value. */
  function KeyText(key: bytes, fmt: bool, depth: nat): bytes {
    When(fmt, Tabs(depth)) + StringText(key) + ([COLON] + When(fmt, [TAB]))
  }

  lemma MemberIs(m: Member, fmt: bool, depth: nat, last: bool)
    ensures MemberText(m, fmt, depth, last)
         == KeyText(m.key, fmt, depth) + Text(m.val, fmt, depth)
             + ((if last then [] else [COMMA]) + When(fmt, [NEWLINE]))
  {
    hide Text, StringText, Tabs;
  }

  lemma StringNulFree(s: bytes)
    requires NulFree(s)
    ensures NulFree(StringText(s))
  {
    EscapeNulFree(s);
  }

  lemma MembersNext(ms: seq<Member>, i: nat, fmt: bool, depth: nat)
    requires i < |ms|
    ensures MembersText(ms[i..], fmt, depth)
        == MemberText(ms[i], fmt, depth, i + 1 == |ms|) + MembersText(ms[i + 1..], fmt, depth)
    ensures MembersHeight(ms[i..]) == Max(Height(ms[i].val), MembersHeight(ms[i + 1..]))
    ensures AllMembersPrintable(ms[i..])
        <==> NulFree(ms[i].key) && Printable(ms[i].val) && AllMembersPrintable(ms[i + 1..])
  {}

  lemma MembersEnd(ms: seq<Member>, fmt: bool, depth: nat)
    ensures ms[0..] == ms && ms[|ms|..] == []
    ensures MembersText(ms[|ms|..], fmt, depth) == [] && MembersHeight(ms[|ms|..]) == 0
  {}

  lemma EscapeNothing()
    ensures EscapeText([]) == []
  {}

  lemma {:induction false} EscapeSplit(s: bytes, i: nat)
    requires i <= |s|
    ensures EscapeText(s) == EscapeText(s[..i]) + EscapeText(s[i..])
  {
    hide EscapeByte;
    if i == 0 {
      assert s[0..] == s;
    } else {
      EscapeSplit(s[1..], i - 1);
      assert s[..i][0] == s[0];
      assert s[1..][..i - 1] == s[..i][1..];
      assert s[1..][i - 1..] == s[i..];
    }
  }

  /** Escaping one more byte adds its escape, and stays within the whole. */
  lemma EscapeNext(s: bytes, i: nat)
    requires i < |s|
    ensures EscapeText(s[..i + 1]) == EscapeText(s[..i]) + EscapeByte(s[i])
    ensures |EscapeText(s[..i + 1])| <= |EscapeText(s)|
  {
    EscapeSplit(s[..i + 1], i);
    assert s[..i + 1][..i] == s[..i];
    assert s[..i + 1][i..] == [s[i]];
    assert EscapeText([s[i]]) == EscapeByte(s[i]);
    EscapeSplit(s, i + 1);
  }

  lemma {:induction false} NothingEscaped(s: bytes)
    requires |EscapeText(s)| == |s|
    ensures EscapeText(s) == s
  {
    if s != [] {
      EscapeGrows(s[1..]);
      NothingEscaped(s[1..]);
    }
  }

  lemma {:induction false} EscapeGrows(s: bytes)
    ensures |EscapeText(s)| >= |s|
  {
    if s != [] {
      EscapeGrows(s[1..]);
    }
  }

  /** print(): a fresh buffer of 256 bytes, trimmed to the text and its terminator. */
  method Print(item: Value, fmt: bool) returns (ok: bool, printed: bytes)
    requires Printable(item)
    ensures ok <==> Height(item) <= NESTING_LIMIT && |Text(item, fmt, 0)| + 2 <= INT_MAX
    ensures ok ==> printed == Text(item, fmt, 0) + [0]
  {
    hide Text, Height, Printable;
    var p := new PrintBuffer.Growing(fmt);
    printed := [];
    assert p.buffer[..p.offset] == [];
    ok := p.PrintAndAdvance(item, []);
    if ok {
      assert [] + Text(item, fmt, 0) == Text(item, fmt, 0);
      printed := p.buffer[..p.offset + 1];
    }
  }

  /** cJSON_PrintPreallocated: the same text into the caller's memory, never beyond it. */
  method PrintPreallocated(item: Value, memory: array<byte>, fmt: bool) returns (ok: bool)
    requires Printable(item) && memory.Length <= INT_MAX
    modifies memory
    ensures ok <==> Height(item) <= NESTING_LIMIT && |Text(item, fmt, 0)| + 2 <= memory.Length
    ensures ok ==> memory[..|Text(item, fmt, 0)| + 1] == Text(item, fmt, 0) + [0]
  {
    hide Text, Height, Printable;
    var p := new PrintBuffer.Preallocated(memory, fmt);
    assert p.buffer[..p.offset] == [];
    ok := p.PrintValue(item);
    assert [] + Text(item, fmt, 0) == Text(item, fmt, 0);
  }
}
