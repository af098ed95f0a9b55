/** Values: parse_value reads a text of the grammar if and only if its surrogate escapes are paired
    and it nests no deeper than allowed; and then as its meaning, stopping right behind it. */
module JsonGrammar {
  import opened Bytes
  import opened Decimals
  import opened JsonValue
  import opened JsonReader
  import opened JsonSyntax
  import opened JsonStrings
  import opened JsonNumbers

  /** What decides whether a text of the grammar is read. */
  predicate Admitted(s: Syntax, depth: nat) { AllPaired(s) && depth + Nesting(s) <= 1000 }

  /** What a value's text begins with, which is never white space. */
  predicate Opens(s: Syntax, b: byte) {
    match s
    case NullSyntax => b == 110
    case BoolSyntax(v) => b == if v then 116 else 102
    case NumberSyntax(_) => b == MINUS || IsDigit(b)
    case StringSyntax(_) => b == QUOTE
    case ArraySyntax(_, _) => b == LBRACKET
    case ObjectSyntax(_, _) => b == LBRACE
  }

  lemma FirstByteOf(s: Syntax)
    requires Good(s)
    ensures Render(s) != [] && Opens(s, Render(s)[0]) && Render(s)[0] > SPACE
  {}

  lemma Keywords(c: bytes, off: nat)
    ensures At(c, off, NULL_TEXT) ==> c[off] == 110
    ensures At(c, off, FALSE_TEXT) ==> c[off] == 102
    ensures At(c, off, TRUE_TEXT) ==> c[off] == 116
  {}

  lemma GoodParts(s: Syntax)
    requires Good(s)
    ensures s.ArraySyntax? ==> IsBlank(s.blank) && GoodItems(s.items)
    ensures s.ObjectSyntax? ==> IsBlank(s.blank) && GoodEntries(s.entries)
  {}

  /** From the byte before a value's first byte there is no white space to skip. */
  lemma StepsBack(c: bytes, p: nat)
    requires p < |c| && c[p] > SPACE
    ensures SkipSpace(c, p) == p
  {}

  lemma ValueOpens(c: bytes, p: nat, s: Syntax)
    requires Good(s) && At(c, p, Render(s))
    ensures p < |c| && Opens(s, c[p]) && c[p] > SPACE
  {
    hide Render, Good;
    FirstByteOf(s);
    AtFirst(c, p, Render(s));
  }

  /** A value inside an array or object is followed by white space, a comma or a bracket. */
  lemma FollowedWell(c: bytes, s: Syntax, end: nat, after: bytes, next: nat)
    requires At(c, end, after) && IsBlank(after) && next == end + |after|
    requires next < |c| && (c[next] == COMMA || c[next] == RBRACKET || c[next] == RBRACE)
    ensures Stops(c, s, end) && SkipSpace(c, end) == next
  {
    hide At, SkipSpace;
    if after != [] {
      AtFirst(c, end, after);
    }
    SkipsBlank(c, end, after, next);
  }

  lemma CommaAt(c: bytes, p: nat, before: bytes, text: bytes)
    requires At(c, p, [COMMA] + (before + text))
    ensures p < |c| && c[p] == COMMA && At(c, p + 1, before) && At(c, p + 1 + |before|, text)
  {
    hide At;
    AtConcat(c, p, [COMMA], before + text);
    AtConcat(c, p + 1, before, text);
    AtByte(c, p, COMMA);
  }

  lemma {:induction false} ReadsSyntax(c: bytes, off: nat, depth: nat, s: Syntax)
    requires Good(s) && At(c, off, Render(s)) && Stops(c, s, off + |Render(s)|) && depth <= NESTING_LIMIT
    ensures if Admitted(s, depth) then ReadValue(c, off, depth) == Parsed(Meaning(s), off + |Render(s)|)
            else ReadValue(c, off, depth).Rejected?
    decreases s, 3
  {
    hide ReadString, ReadNumber, ReadArray, ReadObject, ReadElements, ReadMembers, ReadMember, RenderItems,
      RenderEntries, RenderString, RenderNumeral, StringMeaning, GoodUnits, GoodNumeral, GoodItems, GoodEntries,
      NumeralMantissa, NumeralExponent, ItemsMeaning, EntriesMeaning, ItemsNesting, EntriesNesting, Paired,
      ItemsPaired, EntriesPaired, At;
    FirstByteOf(s);
    AtFirst(c, off, Render(s));
    Keywords(c, off);
    match s
    case NullSyntax =>
    case BoolSyntax(b) =>
    case NumberSyntax(n) => ReadsNumeral(c, off, depth, n);
    case StringSyntax(us) => ReadsString(c, off, depth, us);
    case ArraySyntax(_, _) => ReadsArray(c, off, depth, s);
    case ObjectSyntax(_, _) => ReadsObject(c, off, depth, s);
  }

  // ----- arrays -----

  lemma {:induction false} ReadsArray(c: bytes, off: nat, depth: nat, s: Syntax)
    requires s.ArraySyntax? && Good(s) && At(c, off, Render(s)) && off < |c| && c[off] == LBRACKET
    requires depth <= NESTING_LIMIT
    ensures if Admitted(s, depth) then ReadArray(c, off, depth) == Parsed(Meaning(s), off + |Render(s)|)
            else ReadArray(c, off, depth).Rejected?
    decreases s, 2
  {
    hide ReadElements, SkipSpace, RenderItems, Good, At, ItemsPaired, ItemsNesting, ItemsMeaning;
    GoodParts(s);
    NoItems();
    if s.items == [] {
      AtConcat(c, off, [LBRACKET], s.blank + [RBRACKET]);
      AtConcat(c, off + 1, s.blank, [RBRACKET]);
      AtByte(c, off + 1 + |s.blank|, RBRACKET);
      SkipsBlank(c, off + 1, s.blank, off + 1 + |s.blank|);
    } else if depth < NESTING_LIMIT {
      var before, text := s.items[0].before, RenderItems(s.items);
      AtConcat(c, off, [LBRACKET], before + text);
      AtConcat(c, off + 1, before, text);
      var p := off + 1 + |before|;
      ItemsOpen(c, p, s.items);
      SkipsBlank(c, off + 1, before, p);
      StepsBack(c, p);
      ReadsItems(c, p - 1, p, depth + 1, s.items, []);
      assert [] + ItemsMeaning(s.items) == ItemsMeaning(s.items);
    }
  }

  lemma NoItems()
    ensures GoodItems([]) && ItemsPaired([]) && ItemsMeaning([]) == [] && ItemsNesting([]) == 0
  {}

  /** What follows the first item and its white space. */
  function ItemsTail(items: seq<Item>): bytes
    requires items != []
  {
    if |items| == 1 then [RBRACKET] else [COMMA] + (items[1].before + RenderItems(items[1..]))
  }

  lemma {:induction false} ItemsParts(items: seq<Item>)
    requires items != [] && GoodItems(items)
    ensures RenderItems(items) == Render(items[0].val) + items[0].after + ItemsTail(items)
    ensures Good(items[0].val) && IsBlank(items[0].before) && IsBlank(items[0].after) && GoodItems(items[1..])
    ensures |items| > 1 ==> IsBlank(items[1].before)
    ensures ItemsMeaning(items) == [Meaning(items[0].val)] + ItemsMeaning(items[1..])
    ensures ItemsNesting(items) == Max(Nesting(items[0].val), ItemsNesting(items[1..]))
    ensures ItemsPaired(items) <==> AllPaired(items[0].val) && ItemsPaired(items[1..])
  {
    hide Render, Good, IsBlank, Meaning, Nesting, AllPaired;
    if |items| > 1 {
      var before, text := items[1].before, RenderItems(items[1..]);
      assert [COMMA] + before + text == [COMMA] + (before + text);
    }
  }

  lemma ItemsOpen(c: bytes, p: nat, items: seq<Item>)
    requires items != [] && GoodItems(items) && At(c, p, RenderItems(items))
    ensures p < |c| && Opens(items[0].val, c[p]) && c[p] > SPACE && c[p] != RBRACKET
    ensures var end := p + |Render(items[0].val)|;
      At(c, p, Render(items[0].val)) && At(c, end, items[0].after) && At(c, end + |items[0].after|, ItemsTail(items))
  {
    hide Render, RenderItems, Good, GoodItems, IsBlank, At, ItemsTail;
    var first, after := Render(items[0].val), items[0].after;
    ItemsParts(items);
    AtConcat(c, p, first + after, ItemsTail(items));
    AtConcat(c, p, first, after);
    ValueOpens(c, p, items[0].val);
  }

  /** What stands after the first of some items and its white space. */
  lemma {:induction false} TailStands(c: bytes, next: nat, items: seq<Item>)
    requires items != [] && GoodItems(items) && At(c, next, ItemsTail(items))
    ensures next < |c|
    ensures if |items| == 1 then c[next] == RBRACKET && |ItemsTail(items)| == 1
            else
              var rest := next + 1 + |items[1].before|;
              && c[next] == COMMA && SkipSpace(c, next + 1) == rest && At(c, rest, RenderItems(items[1..]))
              && next + |ItemsTail(items)| == rest + |RenderItems(items[1..])|
  {
    hide SkipSpace, Render, RenderItems, Good, GoodItems, IsBlank, At, Meaning, ItemsMeaning, Nesting, ItemsNesting,
      AllPaired, ItemsPaired;
    if |items| == 1 {
      AtByte(c, next, RBRACKET);
    } else {
      var before, text := items[1].before, RenderItems(items[1..]);
      ItemsParts(items);
      CommaAt(c, next, before, text);
      ItemsOpen(c, next + 1 + |before|, items[1..]);
      SkipsBlank(c, next + 1, before, next + 1 + |before|);
    }
  }

  /** What stands after the first of some items. */
  lemma {:induction false} AfterItem(c: bytes, p: nat, items: seq<Item>)
    requires items != [] && GoodItems(items) && At(c, p, RenderItems(items))
    ensures var v := items[0].val;
      var end := p + |Render(v)|;
      var next := end + |items[0].after|;
      && At(c, p, Render(v)) && Stops(c, v, end) && SkipSpace(c, end) == next && next < |c|
      && (if |items| == 1 then c[next] == RBRACKET && next + 1 == p + |RenderItems(items)|
          else
            var rest := next + 1 + |items[1].before|;
            && c[next] == COMMA && SkipSpace(c, next + 1) == rest && At(c, rest, RenderItems(items[1..]))
            && p + |RenderItems(items)| == rest + |RenderItems(items[1..])|)
  {
    hide SkipSpace, Render, RenderItems, Good, GoodItems, IsBlank, At, Stops, Meaning, ItemsMeaning, Nesting,
      ItemsNesting, AllPaired, ItemsPaired, ItemsTail;
    var v, after := items[0].val, items[0].after;
    ItemsParts(items);
    ItemsOpen(c, p, items);
    var end := p + |Render(v)|;
    TailStands(c, end + |after|, items);
    FollowedWell(c, v, end, after, end + |after|);
  }

  /** One turn of the loop of parse_array. */
  lemma {:induction false} ElementRead(c: bytes, q: nat, depth: nat, done: seq<Value>, v: Value, o: nat, p: nat)
    requires q < |c| && ReadValue(c, SkipSpace(c, q + 1), depth) == Parsed(v, o) && p == SkipSpace(c, o) && p < |c|
    ensures c[p] == COMMA ==> ReadElements(c, q, depth, done) == ReadElements(c, p, depth, done + [v])
    ensures c[p] == RBRACKET ==> ReadElements(c, q, depth, done) == Parsed(Array(done + [v]), p + 1)
  {
    hide ReadValue, SkipSpace;
  }

  lemma {:induction false} ElementRejected(c: bytes, q: nat, depth: nat, done: seq<Value>)
    requires q < |c| && ReadValue(c, SkipSpace(c, q + 1), depth).Rejected?
    ensures ReadElements(c, q, depth, done).Rejected?
  {
    hide ReadValue, SkipSpace;
  }

  lemma {:induction false} ReadsItems(c: bytes, q: nat, p: nat, depth: nat, items: seq<Item>, done: seq<Value>)
    requires items != [] && GoodItems(items) && depth <= NESTING_LIMIT
    requires q < |c| && q + 1 <= p && SkipSpace(c, q + 1) == p && At(c, p, RenderItems(items))
    ensures if ItemsPaired(items) && depth + ItemsNesting(items) <= NESTING_LIMIT
            then ReadElements(c, q, depth, done)
              == Parsed(Array(done + ItemsMeaning(items)), p + |RenderItems(items)|)
            else ReadElements(c, q, depth, done).Rejected?
    decreases items, 0
  {
    hide ReadValue, ReadElements, SkipSpace, Render, RenderItems, Meaning, ItemsMeaning, Nesting, ItemsNesting, Good,
      GoodItems, At, Stops, IsBlank, AllPaired, ItemsPaired;
    var v := items[0].val;
    ItemsParts(items);
    AfterItem(c, p, items);
    var next := p + |Render(v)| + |items[0].after|;
    ReadsSyntax(c, p, depth, v);
    NoItems();
    if !Admitted(v, depth) {
      ElementRejected(c, q, depth, done);
    } else {
      ElementRead(c, q, depth, done, Meaning(v), p + |Render(v)|, next);
    }
    if |items| == 1 {
      assert items[1..] == [];
      assert ItemsMeaning(items) == [Meaning(v)];
    } else if Admitted(v, depth) {
      ReadsItems(c, next, next + 1 + |items[1].before|, depth, items[1..], done + [Meaning(v)]);
      Regroup(done, [Meaning(v)], ItemsMeaning(items[1..]));
    }
  }

  // ----- objects -----

  lemma {:induction false} ReadsObject(c: bytes, off: nat, depth: nat, s: Syntax)
    requires s.ObjectSyntax? && Good(s) && At(c, off, Render(s)) && off < |c| && c[off] == LBRACE
    requires depth <= NESTING_LIMIT
    ensures if Admitted(s, depth) then ReadObject(c, off, depth) == Parsed(Meaning(s), off + |Render(s)|)
            else ReadObject(c, off, depth).Rejected?
    decreases s, 2
  {
    hide ReadMembers, SkipSpace, RenderEntries, Good, At, EntriesPaired, EntriesNesting, EntriesMeaning, GoodEntries,
      IsBlank, RenderEntry, EntriesTail;
    GoodParts(s);
    NoEntries();
    if s.entries == [] {
      AtConcat(c, off, [LBRACE], s.blank + [RBRACE]);
      AtConcat(c, off + 1, s.blank, [RBRACE]);
      AtByte(c, off + 1 + |s.blank|, RBRACE);
      SkipsBlank(c, off + 1, s.blank, off + 1 + |s.blank|);
    } else if depth < NESTING_LIMIT {
      var before, text := s.entries[0].before, RenderEntries(s.entries);
      AtConcat(c, off, [LBRACE], before + text);
      AtConcat(c, off + 1, before, text);
      var p := off + 1 + |before|;
      EntriesOpen(c, p, s.entries);
      BlankBefore(s.entries);
      SkipsBlank(c, off + 1, before, p);
      StepsBack(c, p);
      ReadsEntries(c, p - 1, p, depth + 1, s.entries, []);
      assert [] + EntriesMeaning(s.entries) == EntriesMeaning(s.entries);
    }
  }

  lemma NoEntries()
    ensures GoodEntries([]) && EntriesPaired([]) && EntriesMeaning([]) == [] && EntriesNesting([]) == 0
  {}

  /** What follows the first entry. */
  function EntriesTail(es: seq<Entry>): bytes
    requires es != []
  {
    if |es| == 1 then [RBRACE] else [COMMA] + (es[1].before + RenderEntries(es[1..]))
  }

  lemma {:induction false} EntriesParts(es: seq<Entry>)
    requires es != [] && GoodEntries(es)
    ensures RenderEntries(es) == RenderEntry(es[0]) + EntriesTail(es)
    ensures GoodEntry(es[0]) && IsBlank(es[0].before) && GoodEntries(es[1..])
    ensures |es| > 1 ==> IsBlank(es[1].before)
    ensures EntriesMeaning(es) == [EntryMeaning(es[0])] + EntriesMeaning(es[1..])
    ensures EntriesNesting(es) == Max(Nesting(es[0].val), EntriesNesting(es[1..]))
    ensures EntriesPaired(es) <==> Paired(es[0].key) && AllPaired(es[0].val) && EntriesPaired(es[1..])
  {
    hide RenderEntry, Good, GoodUnits, IsBlank, Meaning, StringMeaning, Nesting, AllPaired, Paired;
    if |es| > 1 {
      var before, text := es[1].before, RenderEntries(es[1..]);
      assert [COMMA] + before + text == [COMMA] + (before + text);
    }
  }

  lemma BlankBefore(es: seq<Entry>)
    requires es != [] && GoodEntries(es)
    ensures IsBlank(es[0].before)
  {}

  lemma EntriesOpen(c: bytes, p: nat, es: seq<Entry>)
    requires es != [] && GoodEntries(es) && At(c, p, RenderEntries(es))
    ensures p < |c| && c[p] == QUOTE && At(c, p, RenderEntry(es[0]))
    ensures At(c, p + |RenderEntry(es[0])|, EntriesTail(es))
  {
    hide Render, RenderUnits, RenderEntries, EntriesTail, At, AllPaired, Paired;
    EntriesParts(es);
    AtConcat(c, p, RenderEntry(es[0]), EntriesTail(es));
    AtFirst(c, p, RenderEntry(es[0]));
  }

  /** Where the parts of an entry lie. */
  lemma EntryParts(c: bytes, p: nat, e: Entry)
    requires At(c, p, RenderEntry(e))
    ensures var colon := p + |RenderString(e.key)| + |e.afterKey|;
      var start := colon + 1 + |e.beforeVal|;
      var end := start + |Render(e.val)|;
      && At(c, p, RenderString(e.key)) && At(c, p + |RenderString(e.key)|, e.afterKey) && At(c, colon, [COLON])
      && At(c, colon + 1, e.beforeVal) && At(c, start, Render(e.val)) && At(c, end, e.after)
      && end + |e.after| == p + |RenderEntry(e)|
  {
    hide Render, RenderString, At;
    var key, val := RenderString(e.key), Render(e.val);
    AtConcat(c, p, key + e.afterKey + [COLON] + e.beforeVal + val, e.after);
    AtConcat(c, p, key + e.afterKey + [COLON] + e.beforeVal, val);
    AtConcat(c, p, key + e.afterKey + [COLON], e.beforeVal);
    AtConcat(c, p, key + e.afterKey, [COLON]);
    AtConcat(c, p, key, e.afterKey);
  }

  /** One turn of the loop of parse_object. */
  lemma {:induction false} ReadsEntry(c: bytes, q: nat, p: nat, depth: nat, e: Entry)
    requires GoodEntry(e) && depth <= NESTING_LIMIT
    requires q + 1 < |c| && SkipSpace(c, q + 1) == p && q + 1 <= p && At(c, p, RenderEntry(e))
    requires var next := p + |RenderEntry(e)|; next < |c| && (c[next] == COMMA || c[next] == RBRACE)
    ensures if Paired(e.key) && Admitted(e.val, depth)
            then ReadMember(c, q, depth) == Parsed(EntryMeaning(e), p + |RenderEntry(e)|)
            else ReadMember(c, q, depth).Rejected?
    decreases e, 0
  {
    hide ReadValue, ReadString, SkipSpace, RenderEntry, Render, RenderString, Meaning, StringMeaning, Good, GoodUnits,
      Nesting, At, AllPaired, Paired;
    EntryParts(c, p, e);
    var nameEnd := p + |RenderString(e.key)|;
    var colon := nameEnd + |e.afterKey|;
    var start := colon + 1 + |e.beforeVal|;
    var end := start + |Render(e.val)|;
    AtByte(c, colon, COLON);
    ReadsString(c, p, depth, e.key);
    SkipsBlank(c, nameEnd, e.afterKey, colon);
    ValueOpens(c, start, e.val);
    SkipsBlank(c, colon + 1, e.beforeVal, start);
    FollowedWell(c, e.val, end, e.after, end + |e.after|);
    ReadsSyntax(c, start, depth, e.val);
  }

  /** What stands behind the first of some entries. */
  lemma {:induction false} NextStands(c: bytes, next: nat, es: seq<Entry>)
    requires es != [] && GoodEntries(es) && At(c, next, EntriesTail(es))
    ensures next < |c|
    ensures if |es| == 1 then c[next] == RBRACE && |EntriesTail(es)| == 1
            else
              var rest := next + 1 + |es[1].before|;
              && c[next] == COMMA && SkipSpace(c, next + 1) == rest && At(c, rest, RenderEntries(es[1..]))
              && rest < |c| && next + |EntriesTail(es)| == rest + |RenderEntries(es[1..])|
  {
    hide SkipSpace, RenderEntry, RenderEntries, GoodEntry, GoodEntries, IsBlank, At, EntryMeaning, EntriesMeaning,
      Nesting, EntriesNesting, AllPaired, Paired, EntriesPaired;
    if |es| == 1 {
      AtByte(c, next, RBRACE);
    } else {
      var before, text := es[1].before, RenderEntries(es[1..]);
      EntriesParts(es);
      CommaAt(c, next, before, text);
      EntriesOpen(c, next + 1 + |before|, es[1..]);
      SkipsBlank(c, next + 1, before, next + 1 + |before|);
    }
  }

  /** What stands after the first of some entries. */
  lemma {:induction false} AfterEntry(c: bytes, p: nat, es: seq<Entry>)
    requires es != [] && GoodEntries(es) && At(c, p, RenderEntries(es))
    ensures var next := p + |RenderEntry(es[0])|;
      && p < |c| && At(c, p, RenderEntry(es[0])) && next < |c|
      && (if |es| == 1 then c[next] == RBRACE && next + 1 == p + |RenderEntries(es)|
          else
            var rest := next + 1 + |es[1].before|;
            && c[next] == COMMA && SkipSpace(c, next + 1) == rest && At(c, rest, RenderEntries(es[1..]))
            && rest < |c| && p + |RenderEntries(es)| == rest + |RenderEntries(es[1..])|)
  {
    hide SkipSpace, RenderEntry, RenderEntries, GoodEntry, GoodEntries, IsBlank, At, EntryMeaning, EntriesMeaning,
      Nesting, EntriesNesting, AllPaired, Paired, EntriesPaired, EntriesTail;
    EntriesParts(es);
    EntriesOpen(c, p, es);
    NextStands(c, p + |RenderEntry(es[0])|, es);
  }

  /** What the loop of parse_object makes of one turn. */
  lemma {:induction false} MemberRead(c: bytes, q: nat, depth: nat, done: seq<Member>, entry: Member, p: nat)
    requires q < |c| && ReadMember(c, q, depth) == Parsed(entry, p) && p < |c|
    ensures c[p] == COMMA ==> ReadMembers(c, q, depth, done) == ReadMembers(c, p, depth, done + [entry])
    ensures c[p] == RBRACE ==> ReadMembers(c, q, depth, done) == Parsed(Object(done + [entry]), p + 1)
  {
    hide ReadMember;
  }

  lemma {:induction false} MemberRejected(c: bytes, q: nat, depth: nat, done: seq<Member>)
    requires q < |c| && ReadMember(c, q, depth).Rejected?
    ensures ReadMembers(c, q, depth, done).Rejected?
  {
    hide ReadMember;
  }

  lemma {:induction false} ReadsEntries(c: bytes, q: nat, p: nat, depth: nat, es: seq<Entry>, done: seq<Member>)
    requires es != [] && GoodEntries(es) && depth <= NESTING_LIMIT
    requires q + 1 < |c| && q + 1 <= p && SkipSpace(c, q + 1) == p && At(c, p, RenderEntries(es))
    ensures if EntriesPaired(es) && depth + EntriesNesting(es) <= NESTING_LIMIT
            then ReadMembers(c, q, depth, done)
              == Parsed(Object(done + EntriesMeaning(es)), p + |RenderEntries(es)|)
            else ReadMembers(c, q, depth, done).Rejected?
    decreases es, 0
  {
    hide ReadMember, ReadMembers, SkipSpace, RenderEntry, RenderEntries, EntryMeaning, EntriesMeaning, Nesting,
      EntriesNesting, GoodEntry, GoodEntries, IsBlank, At, AllPaired, Paired, EntriesPaired;
    EntriesParts(es);
    AfterEntry(c, p, es);
    var next := p + |RenderEntry(es[0])|;
    var member := EntryMeaning(es[0]);
    ReadsEntry(c, q, p, depth, es[0]);
    NoEntries();
    if Paired(es[0].key) && Admitted(es[0].val, depth) {
      MemberRead(c, q, depth, done, member, next);
    } else {
      MemberRejected(c, q, depth, done);
    }
    if |es| == 1 {
      assert es[1..] == [];
      assert EntriesMeaning(es) == [member];
    } else if Paired(es[0].key) && Admitted(es[0].val, depth) {
      ReadsEntries(c, next, next + 1 + |es[1].before|, depth, es[1..], done + [member]);
      Regroup(done, [member], EntriesMeaning(es[1..]));
    }
  }

  // ----- documents -----

  /** A document whose value starts behind `m` bytes and some blanks. */
  lemma ReadsFrom(c: bytes, m: nat, before: bytes, s: Syntax)
    requires IsBlank(before) && Good(s) && SkipBom(c) == m
    requires At(c, m, before) && At(c, m + |before|, Render(s)) && Stops(c, s, m + |before| + |Render(s)|)
    ensures if Admitted(s, 0) then ReadDocument(c, false) == Parsed(Meaning(s), m + |before| + |Render(s)|)
            else ReadDocument(c, false).Rejected?
  {
    hide Render, Meaning, Good, ReadValue, SkipSpace, Admitted, SkipBom, At, Stops, IsBlank;
    ValueOpens(c, m + |before|, s);
    SkipsBlank(c, m, before, m + |before|);
    ReadsSyntax(c, m + |before|, 0, s);
  }

  /** A byte order mark, or none. */
  function Mark(marked: bool): bytes { if marked then [0xEF, 0xBB, 0xBF] else [] }

  /** A whole document: blanks, one value, and whatever follows it. A byte order mark in front is
      skipped if and only if two more bytes follow it, the terminator included. */
  lemma ReadsDocument(marked: bool, before: bytes, s: Syntax, rest: bytes)
    requires IsBlank(before) && Good(s) && Stops(Render(s) + rest, s, |Render(s)|)
    ensures var c := Mark(marked) + before + Render(s) + rest;
      if (marked && |c| <= 4) || !Admitted(s, 0) then ReadDocument(c, false).Rejected?
      else ReadDocument(c, false) == Parsed(Meaning(s), |Mark(marked)| + |before| + |Render(s)|)
  {
    hide Render, Meaning, Good, ReadDocument, Admitted, At, SkipBom, IsBlank, Stops;
    var mark, c := Mark(marked), Mark(marked) + before + Render(s) + rest;
    DocumentParts(mark, before, Render(s), rest);
    FirstByteOf(s);
    assert marked ==> c[0] == 0xEF;
    if marked && |c| <= 4 {
      MarkRejected(c);
    } else {
      FirstOf(before, Render(s), rest);
      assert c == mark + (before + Render(s) + rest);
      SkipsMark(marked, c, before + Render(s) + rest);
      assert c == (mark + before) + (Render(s) + rest);
      StopsBehind(mark + before, Render(s) + rest, s, |Render(s)|);
      ReadsFrom(c, |mark|, before, s);
    }
  }

  /** What stands in front does not matter to where a numeral ends. */
  lemma StopsBehind(front: bytes, c: bytes, s: Syntax, end: nat)
    requires Stops(c, s, end)
    ensures Stops(front + c, s, |front| + end)
  {
    assert forall i :: 0 <= i < |c| ==> (front + c)[|front| + i] == c[i];
  }

  lemma DocumentParts(mark: bytes, before: bytes, text: bytes, rest: bytes)
    ensures var c := mark + before + text + rest; At(c, |mark|, before) && At(c, |mark| + |before|, text)
  {
    hide At;
    var c := mark + before + text + rest;
    AtWhole(c);
    AtConcat(c, 0, mark + before + text, rest);
    AtConcat(c, 0, mark + before, text);
    AtConcat(c, 0, mark, before);
  }

  lemma AtWhole(c: bytes)
    ensures At(c, 0, c)
  {}

  lemma FirstOf(before: bytes, text: bytes, rest: bytes)
    requires IsBlank(before) && text != [] && SPACE < text[0] < 0xEF
    ensures var c := before + text + rest; c != [] && c[0] < 0xEF
  {}

  lemma SkipsMark(marked: bool, c: bytes, text: bytes)
    requires c == Mark(marked) + text && (if marked then |c| > 4 else text != [] && text[0] < 0xEF)
    ensures SkipBom(c) == |Mark(marked)|
  {
    if |c| > 4 {
      assert c[..3][0] == c[0];
      assert marked ==> c[..3] == Mark(marked);
    }
  }

  lemma MarkRejected(c: bytes)
    requires 0 < |c| <= 4 && c[0] == 0xEF
    ensures ReadDocument(c, false).Rejected?
  {
    StepsBack(c, 0);
    Keywords(c, 0);
  }
}
