/** Which names survive the way from the server's text to the client: exactly those without a quote
    and without a backslash, because the server writes names unescaped. */
module StockNames {
  import opened Bytes
  import opened Decimals
  import opened Utf16
  import opened JsonValue
  import opened JsonReader
  import opened JsonSyntax
  import opened JsonStrings
  import opened JsonGrammar
  import opened JsonStandard
  import opened JsonLookup
  import opened StockListing
  import opened StockJson
  import opened StockClient

  // ----- a string never grows when it is read -----

  /** Every escape is longer than what it stands for. Behind `k - p` bytes that are none, a backslash
      that does not end the string costs at least one. */
  lemma {:induction false} Shrinks(c: bytes, p: nat, k: nat, end: nat, out: bytes)
    requires p <= k <= end < |c| && Unescape(c, p, end, out).Text?
    requires forall i :: p <= i < k ==> c[i] != BACKSLASH
    ensures |Unescape(c, p, end, out).text| <= |out| + (end - p)
    ensures k + 1 < end && c[k] == BACKSLASH ==> |Unescape(c, p, end, out).text| < |out| + (end - p)
    decreases end - p
  {
    hide ReadLiteral, Unescape, SimpleEscape;
    if p == end {
      UnescapesNothing(c, end, out);
    } else {
      UnescapeStep(c, p, end, out);
      if c[p] != BACKSLASH {
        Shrinks(c, p + 1, if k > p then k else p + 1, end, out + [c[p]]);
      } else if c[p + 1] == LETTER_U {
        var l := ReadLiteral(c, p, end).value;
        Shrinks(c, p + l.length, p + l.length, end, out + l.utf8);
      } else if p + 2 <= end {
        Shrinks(c, p + 2, p + 2, end, out + [SimpleEscape(c[p + 1]).value]);
      } else {
        PastEnd(c, p + 2, end, out + [SimpleEscape(c[p + 1]).value]);
      }
    }
  }

  lemma PastEnd(c: bytes, p: nat, end: nat, out: bytes)
    requires end < p && end < |c|
    ensures Unescape(c, p, end, out) == Text(out)
  {}

  // ----- a name with a quote or a backslash -----

  lemma {:induction false} FirstSpecial(s: bytes, n: nat) returns (k: nat)
    requires n <= |s| && !Unquoted(s) && forall i :: 0 <= i < n ==> s[i] != QUOTE && s[i] != BACKSLASH
    ensures k < |s| && (s[k] == QUOTE || s[k] == BACKSLASH)
    ensures forall i :: 0 <= i < k ==> s[i] != QUOTE && s[i] != BACKSLASH
    decreases |s| - n
  {
    if s[n] == QUOTE || s[n] == BACKSLASH {
      k := n;
    } else {
      k := FirstSpecial(s, n + 1);
    }
  }

  lemma {:induction false} WalksPlain(c: bytes, p: nat, k: nat)
    requires p <= k <= |c| && forall i :: p <= i < k ==> c[i] != QUOTE && c[i] != BACKSLASH
    ensures CloseQuote(c, p) == CloseQuote(c, k)
    decreases k - p
  {
    if p < k {
      WalksPlain(c, p + 1, k);
    }
  }

  /** The sizing pass stops at the quote behind the name, or before it, or steps over it. */
  lemma {:induction false} WalksPast(c: bytes, p: nat, quote: nat)
    requires p <= quote < |c| && c[quote] == QUOTE && CloseQuote(c, p).Some?
    ensures CloseQuote(c, p).value <= quote || CloseQuote(c, p) == CloseQuote(c, quote + 1)
    decreases quote - p
  {
    if p < quote {
      if c[p] == BACKSLASH {
        if p + 2 <= quote {
          WalksPast(c, p + 2, quote);
        }
      } else if c[p] != QUOTE {
        WalksPast(c, p + 1, quote);
      }
    }
  }

  /** Such a name is read as a shorter string, or what is read runs over its closing quote into the
      next name, where no comma follows. */
  lemma BadName(c: bytes, p: nat, depth: nat, name: bytes)
    requires At(c, p, [QUOTE] + (name + BEHIND)) && !Unquoted(name)
    ensures p < |c|
    ensures ReadString(c, p, depth).Parsed? ==>
      var Parsed(x, o) := ReadString(c, p, depth);
      |x| < |name| || (o < |c| && c[o] == 112)
  {
    hide Unescape, CloseQuote, CString;
    var quote := p + 1 + |name|;
    NameParts(c, p, name);
    var k := FirstSpecial(name, 0);
    if ReadString(c, p, depth).Parsed? {
      var end := CloseQuote(c, p + 1).value;
      WalksPlain(c, p + 1, p + 1 + k);
      WalksPast(c, p + 1, quote);
      if end <= quote {
        SpecialCloses(c, p + 1 + k);
        Shrinks(c, p + 1, if end < p + 1 + k then end else p + 1 + k, end, []);
      } else {
        NextQuote(c, quote);
      }
    }
  }

  lemma NameParts(c: bytes, p: nat, name: bytes)
    requires At(c, p, [QUOTE] + (name + BEHIND))
    ensures var quote := p + 1 + |name|;
      && p < quote && quote + 3 < |c| && c[p] == QUOTE && c[quote] == QUOTE && c[quote + 1] == COMMA
      && c[quote + 2] == QUOTE && c[quote + 3] == 112
    ensures forall i :: 0 <= i < |name| ==> c[p + 1 + i] == name[i]
  {
    var quote := p + 1 + |name|;
    AtConcat(c, p, [QUOTE], name + BEHIND);
    AtConcat(c, p + 1, name, BEHIND);
    AtBytes(c, p + 1, name);
    AtBytes(c, quote, BEHIND);
    AtByte(c, p, QUOTE);
    assert BEHIND[0] == QUOTE && BEHIND[1] == COMMA && BEHIND[2] == QUOTE && BEHIND[3] == 112;
  }

  lemma SpecialCloses(c: bytes, k: nat)
    requires k < |c|
    ensures c[k] == QUOTE ==> CloseQuote(c, k) == Some(k)
    ensures c[k] == BACKSLASH && CloseQuote(c, k).Some? ==> CloseQuote(c, k).value >= k + 2
  {}

  lemma NextQuote(c: bytes, quote: nat)
    requires quote + 2 < |c| && c[quote + 1] == COMMA && c[quote + 2] == QUOTE
    ensures CloseQuote(c, quote + 1) == Some(quote + 2)
  {}

  // ----- a product with such a name -----

  /** What the loop of parse_object has read it keeps. */
  lemma {:induction false} MembersGrow(c: bytes, q: nat, depth: nat, done: seq<Member>)
    requires q < |c| && ReadMembers(c, q, depth, done).Parsed?
    ensures ReadMember(c, q, depth).Parsed?
    ensures var m, v := ReadMember(c, q, depth).value, ReadMembers(c, q, depth, done).value;
      v.Object? && done + [m] <= v.members
    ensures var o := ReadMember(c, q, depth).off; o < |c| && (c[o] == COMMA || c[o] == RBRACE)
    decreases |c| - q
  {
    hide ReadMember;
    var Parsed(m, p) := ReadMember(c, q, depth);
    if c[p] == COMMA {
      MembersGrow(c, p, depth, done + [m]);
    }
  }

  /** A field with a number is read as it was written. */
  lemma IntFieldRead(c: bytes, q: nat, depth: nat, key: bytes, n: int, done: seq<Member>)
    requires NulFree(key) && Unquoted(key) && Visible(key) && IsInt32(n) && depth <= NESTING_LIMIT
    requires q < |c| && At(c, q + 1, Field(key, IntText(n)) + [COMMA])
    ensures var next := q + 1 + |Field(key, IntText(n))|;
      && next < |c| && ReadMembers(c, q, depth, done) == ReadMembers(c, next, depth, done + [Member(key, Number(n, 0))])
  {
    hide ReadMembers, ReadMember, Good, GoodUnits, AllPaired, Paired, Render, RenderString, Meaning, StringMeaning,
      Nesting, Strict, StrictUnits, IntSyntax, IntText, At, Unquoted, Visible, SkipSpace;
    var e, text := FieldEntry(key, IntSyntax(n)), Field(key, IntText(n));
    IntSyntaxIs(n);
    PlainUnitsAre(key);
    assert RenderEntry(e) == text;
    AtConcat(c, q + 1, text, [COMMA]);
    AtByte(c, q + 1 + |text|, COMMA);
    AtFirst(c, q + 1, text);
    StepsBack(c, q + 1);
    ReadsEntry(c, q, q + 1, depth, e);
    MemberRead(c, q, depth, done, Member(key, Number(n, 0)), q + 1 + |text|);
  }

  /** A field with such a name is not. */
  lemma NameFieldRead(c: bytes, q: nat, depth: nat, name: bytes)
    requires !Unquoted(name) && q < |c| && At(c, q + 1, Field(NAME, []) + ([QUOTE] + (name + BEHIND)))
    ensures ReadMember(c, q, depth).Parsed? ==>
      var Parsed(m, o) := ReadMember(c, q, depth);
      && m.key == NAME && m.val.String? && NulFree(m.val.text)
      && (|m.val.text| < |name| || (o < |c| && c[o] == 112))
  {
    hide ReadString, At, Unquoted, Visible, SkipSpace, RenderString, StringMeaning, GoodUnits, Paired, PlainUnits,
      StrictUnits;
    KeysPlain();
    PlainUnitsAre(NAME);
    var us := PlainUnits(NAME);
    var value := q + 1 + |RenderString(us)| + 1;
    assert Field(NAME, []) == RenderString(us) + [COLON];
    AtConcat(c, q + 1, RenderString(us) + [COLON], [QUOTE] + (name + BEHIND));
    AtConcat(c, q + 1, RenderString(us), [COLON]);
    AtByte(c, value - 1, COLON);
    AtFirst(c, value, [QUOTE] + (name + BEHIND));
    AtFirst(c, q + 1, RenderString(us));
    StepsBack(c, q + 1);
    StepsBack(c, value - 1);
    StepsBack(c, value);
    ReadsString(c, q + 1, depth, us);
    BadName(c, value, depth, name);
    StringRead(c, value, depth);
    if ReadString(c, value, depth).Parsed? {
      var o := ReadString(c, value, depth).off;
      if o < |c| && c[o] == 112 {
        StepsBack(c, o);
      }
    }
  }

  lemma StringRead(c: bytes, p: nat, depth: nat)
    requires p < |c| && c[p] == QUOTE
    ensures var r := ReadString(c, p, depth);
      if r.Parsed? then ReadValue(c, p, depth) == Parsed(String(r.value), r.off) else ReadValue(c, p, depth).Rejected?
  {
    hide ReadString, ReadNumber, ReadArray, ReadObject, At;
    Keywords(c, p);
  }

  /** The third member of an object is the first one called `name`. */
  lemma NameLooked(v: Value, slot: Value, item: Value, m: Member)
    requires v.Object? && m.key == NAME && [Member(SLOT_ID, slot), Member(ITEM_ID, item), m] <= v.members
    ensures Lookup(v, NAME) == Some(m.val)
  {
    hide SameName, CString;
    var ms := v.members;
    assert ms[0] == Member(SLOT_ID, slot) && ms[1] == Member(ITEM_ID, item) && ms[2] == m;
    KeysDiffer();
    SameNameReflexive(NAME);
    FirstNamedAt(ms, NAME, 2);
    assert ms[2..][0] == ms[2];
  }

  /** Where the fields of a product lie. */
  lemma FieldsLie(c: bytes, p: nat, product: Product)
    requires At(c, p, ProductText(product))
    ensures var slot := p + 1 + |Field(SLOT_ID, IntText(product.slotId))|;
      var item := slot + 1 + |Field(ITEM_ID, IntText(product.itemId))|;
      && p + 1 < |c| && c[p] == LBRACE && c[p + 1] == QUOTE
      && At(c, p + 1, Field(SLOT_ID, IntText(product.slotId)) + [COMMA])
      && At(c, slot + 1, Field(ITEM_ID, IntText(product.itemId)) + [COMMA])
      && At(c, item + 1, Field(NAME, []) + ([QUOTE] + (product.name + BEHIND)))
  {
    hide At, IntText, ProductText;
    var rest := NameStands(product);
    var slot, item := Field(SLOT_ID, IntText(product.slotId)), Field(ITEM_ID, IntText(product.itemId));
    var name := [QUOTE] + (product.name + BEHIND);
    assert ProductText(product) == [LBRACE] + (slot + [COMMA]) + (item + [COMMA]) + (Field(NAME, []) + name) + rest;
    AtConcat(c, p, [LBRACE] + (slot + [COMMA]) + (item + [COMMA]) + (Field(NAME, []) + name), rest);
    AtConcat(c, p, [LBRACE] + (slot + [COMMA]) + (item + [COMMA]), Field(NAME, []) + name);
    AtConcat(c, p, [LBRACE] + (slot + [COMMA]), item + [COMMA]);
    AtConcat(c, p, [LBRACE], slot + [COMMA]);
    AtByte(c, p, LBRACE);
    AtFirst(c, p + 1, slot + [COMMA]);
  }

  /** The client gets another name out of such a product, if anything. */
  lemma BadProduct(c: bytes, p: nat, depth: nat, product: Product)
    requires Held(product) && !Unquoted(product.name) && depth < NESTING_LIMIT && At(c, p, ProductText(product))
    ensures p < |c| && ReadValue(c, p, depth).Parsed? ==> ProductOf(ReadValue(c, p, depth).value).name != product.name
  {
    hide At, ProductText, Unquoted, Visible, ReadMembers, ReadMember, Lookup, Field, IntText, SkipSpace, CString;
    FieldsLie(c, p, product);
    var slot := p + 1 + |Field(SLOT_ID, IntText(product.slotId))|;
    var item := slot + 1 + |Field(ITEM_ID, IntText(product.itemId))|;
    var m1, m2 := Member(SLOT_ID, Number(product.slotId, 0)), Member(ITEM_ID, Number(product.itemId, 0));
    KeysPlain();
    IntFieldRead(c, p, depth + 1, SLOT_ID, product.slotId, []);
    IntFieldRead(c, slot, depth + 1, ITEM_ID, product.itemId, [] + [m1]);
    NameFieldRead(c, item, depth + 1, product.name);
    ObjectOpens(c, p, depth);
    if ReadValue(c, p, depth).Parsed? {
      var v := ReadValue(c, p, depth).value;
      MembersGrow(c, item, depth + 1, [] + [m1] + [m2]);
      var m := ReadMember(c, item, depth + 1).value;
      assert [] + [m1] + [m2] + [m] == [m1, m2, m];
      NameLooked(v, m1.val, m2.val, m);
      CStringOfNulFree(m.val.text);
    }
  }

  lemma ObjectOpens(c: bytes, p: nat, depth: nat)
    requires p + 1 < |c| && c[p] == LBRACE && c[p + 1] == QUOTE && depth < NESTING_LIMIT
    ensures ReadValue(c, p, depth) == ReadMembers(c, p, depth + 1, [])
  {
    hide ReadMembers, ReadString, ReadNumber, ReadArray, SkipSpace, At;
    Keywords(c, p);
    StepsBack(c, p + 1);
  }

  // ----- the list -----

  /** What the loop of parse_array has read it keeps. */
  lemma {:induction false} ElementsGrow(c: bytes, q: nat, depth: nat, done: seq<Value>)
    requires q < |c| && ReadElements(c, q, depth, done).Parsed?
    ensures var p := SkipSpace(c, q + 1);
      && ReadValue(c, p, depth).Parsed? && ReadElements(c, q, depth, done).value.Array?
      && done + [ReadValue(c, p, depth).value] <= ReadElements(c, q, depth, done).value.elements
    decreases |c| - q
  {
    hide ReadValue, SkipSpace;
    var Parsed(v, o) := ReadValue(c, SkipSpace(c, q + 1), depth);
    var p := SkipSpace(c, o);
    if c[p] == COMMA {
      ElementsGrow(c, p, depth, done + [v]);
    }
  }

  /** The products from the i-th on, behind the bracket or the comma at `q`. */
  predicate Follow(c: bytes, q: nat, products: seq<Product>, i: nat)
    requires i < |products|
  {
    q < |c| && At(c, q + 1, ProductText(products[i]) + (Listed(products, i + 1) + [RBRACKET]))
  }

  lemma ProductRead(c: bytes, q: nat, products: seq<Product>, i: nat, done: seq<Value>)
    requires i + 1 < |products| && Follow(c, q, products, i) && Held(products[i]) && Unquoted(products[i].name)
    ensures var next := q + 1 + |ProductText(products[i])|;
      && Follow(c, next, products, i + 1)
      && ReadElements(c, q, 1, done) == ReadElements(c, next, 1, done + [Object(ProductMembers(products[i]))])
  {
    hide At, Held, Unquoted, Visible, Strict, AllPaired, Good, Render, Meaning, Nesting, ProductText, ProductMembers,
      ProductSyntax, ReadElements, ReadValue, SkipSpace, Listed;
    var s, text := ProductSyntax(products[i]), ProductText(products[i]);
    var next := q + 1 + |text|;
    ProductIs(products[i]);
    NextListed(products, i);
    AtConcat(c, q + 1, text, Listed(products, i + 1) + [RBRACKET]);
    var more := ProductText(products[i + 1]) + (Listed(products, i + 2) + [RBRACKET]);
    AtConcat(c, next, [COMMA], more);
    AtByte(c, next, COMMA);
    OpensObject(c, q + 1, products[i]);
    StepsBack(c, q + 1);
    StepsBack(c, next);
    ReadsSyntax(c, q + 1, 1, s);
    ElementRead(c, q, 1, done, Object(ProductMembers(products[i])), next, next);
  }

  lemma NextListed(products: seq<Product>, i: nat)
    requires i + 1 < |products|
    ensures Listed(products, i + 1) + [RBRACKET]
         == [COMMA] + (ProductText(products[i + 1]) + (Listed(products, i + 2) + [RBRACKET]))
  {
    hide ProductText;
    var text, rest := ProductText(products[i + 1]), Listed(products, i + 2);
    assert Listed(products, i + 1) == [COMMA] + text + rest;
    assert ([COMMA] + text + rest) + [RBRACKET] == [COMMA] + (text + (rest + [RBRACKET]));
  }

  lemma OpensObject(c: bytes, p: nat, product: Product)
    requires At(c, p, ProductText(product))
    ensures p < |c| && c[p] == LBRACE && ProductSyntax(product).ObjectSyntax?
  {
    hide At;
    AtFirst(c, p, ProductText(product));
  }

  /** The k-th product is the first whose name does not survive. */
  lemma {:induction false} BadListed(c: bytes, q: nat, products: seq<Product>, i: nat, k: nat, done: seq<Value>)
    requires AllHeld(products) && i <= k < |products| && |done| == i && Follow(c, q, products, i)
    requires !Unquoted(products[k].name) && forall j :: 0 <= j < k ==> Unquoted(products[j].name)
    ensures ReadElements(c, q, 1, done).Parsed? ==>
      var v := ReadElements(c, q, 1, done).value;
      v.Array? && k < |v.elements| && ProductOf(v.elements[k]).name != products[k].name
    decreases k - i
  {
    hide At, Held, Unquoted, ProductText, ReadElements, ReadValue, SkipSpace, Listed, ProductOf, ProductMembers;
    if i == k {
      AtConcat(c, q + 1, ProductText(products[i]), Listed(products, i + 1) + [RBRACKET]);
      OpensObject(c, q + 1, products[i]);
      StepsBack(c, q + 1);
      BadProduct(c, q + 1, 1, products[i]);
      if ReadElements(c, q, 1, done).Parsed? {
        ElementsGrow(c, q, 1, done);
      }
    } else {
      ProductRead(c, q, products, i, done);
      BadListed(c, q + 1 + |ProductText(products[i])|, products, i + 1, k,
                done + [Object(ProductMembers(products[i]))]);
    }
  }

  lemma {:induction false} FirstQuoted(products: seq<Product>, n: nat) returns (k: nat)
    requires n <= |products| && forall j :: 0 <= j < n ==> Unquoted(products[j].name)
    requires !AllUnquoted(products)
    ensures k < |products| && !Unquoted(products[k].name) && forall j :: 0 <= j < k ==> Unquoted(products[j].name)
    decreases |products| - n
  {
    hide Unquoted;
    if !Unquoted(products[n].name) {
      k := n;
    } else {
      k := FirstQuoted(products, n + 1);
    }
  }

  lemma ArrayOpens(c: bytes)
    requires 1 < |c| && c[0] == LBRACKET && c[1] == LBRACE
    ensures ReadDocument(c, false).Parsed? ==> ReadDocument(c, false) == ReadElements(c, 0, 1, [])
  {
    hide ReadElements, ReadString, ReadNumber, ReadObject, SkipSpace, At;
    Keywords(c, 0);
    StepsBack(c, 0);
    StepsBack(c, 1);
    assert |c| > 4 ==> c[..3][0] == c[0];
    assert ReadValue(c, 0, 0) == ReadArray(c, 0, 0) == ReadElements(c, 0, 1, []);
  }

  /** A name with a quote or a backslash does not come back. */
  lemma NameLost(products: seq<Product>)
    requires AllHeld(products) && !AllUnquoted(products)
    ensures StockRead(StockText(products)) != Some(products)
  {
    hide ReadDocument, Listed, Held, Unquoted, ReadElements, ProductText, ProductOf, CString;
    var text := StockText(products);
    var c := text + [0];
    StockTextNulFree(products);
    CStringOfNulFree(text);
    var k := FirstQuoted(products, 0);
    FirstListed(products);
    AtWhole(text + [0]);
    var more := ProductText(products[0]) + (Listed(products, 1) + [RBRACKET]);
    AtConcat(c, 0, text, [0]);
    AtConcat(c, 0, [LBRACKET], more);
    AtByte(c, 0, LBRACKET);
    AtConcat(c, 1, ProductText(products[0]), Listed(products, 1) + [RBRACKET]);
    OpensObject(c, 1, products[0]);
    ArrayOpens(c);
    BadListed(c, 0, products, 0, k, []);
  }

  lemma FirstListed(products: seq<Product>)
    requires products != []
    ensures StockText(products) == [LBRACKET] + (ProductText(products[0]) + (Listed(products, 1) + [RBRACKET]))
  {
    hide ProductText;
    var text, rest := ProductText(products[0]), Listed(products, 1);
    assert Listed(products, 0) == text + rest;
    assert [LBRACKET] + (text + rest) + [RBRACKET] == [LBRACKET] + (text + (rest + [RBRACKET]));
  }

  /** The client reads the server's text back as the same products in the same order if and only if
      no name holds a quote or a backslash. */
  lemma StockRoundTrip(products: seq<Product>)
    requires AllHeld(products)
    ensures StockRead(StockText(products)) == Some(products) <==> AllUnquoted(products)
  {
    hide StockRead, StockText, AllHeld, AllUnquoted;
    if AllUnquoted(products) {
      StockBack(products);
    } else {
      NameLost(products);
    }
  }

  /** The whole way: what the server writes into its buffer, the client takes out of it. */
  method ListAndRead(products: seq<Product>) returns (received: Option<seq<Product>>)
    requires AllHeld(products) && |StockText(products)| < BodySize(products)
    ensures received == StockRead(StockText(products))
    ensures received == Some(products) <==> AllUnquoted(products)
  {
    hide StockText, StockRead, AllHeld, AllUnquoted, CString;
    var body := StockBody(products);
    var data := body[..];
    received := GetStock(data);
    SameList(data, products);
    StockRoundTrip(products);
  }

  /** Reading stops at the first NUL. */
  lemma SameList(data: bytes, products: seq<Product>)
    requires CString(data) == StockText(products)
    ensures StockRead(data) == StockRead(StockText(products))
  {
    hide StockText;
    CStringTwice(data);
  }

  lemma CStringTwice(s: bytes)
    ensures CString(CString(s)) == CString(s)
  {}
}
