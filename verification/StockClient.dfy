/** The client's reading of the stock list. */
module StockClient {
  import opened Bytes
  import opened Decimals
  import opened JsonValue
  import opened JsonReader
  import opened JsonSyntax
  import opened JsonGrammar
  import opened JsonStandard
  import opened JsonExact
  import opened JsonLookup
  import JsonParser
  import opened StockListing
  import opened StockJson

  function IntOf(v: Option<Value>): int {
    if v.Some? && v.value.Number? then ValueInt(v.value.mantissa, v.value.exponent) else 0
  }

  /** `strncpy` into the name field of a cleared record. */
  function NameOf(v: Option<Value>): bytes {
    if v.Some? && v.value.String? then
      var name := CString(v.value.text);
      if |name| < NAME_FIELD then name else name[..NAME_FIELD - 1]
    else []
  }

  /** What one element of the list is read as, whatever it is. */
  function ProductOf(el: Value): Product {
    Product(IntOf(Lookup(el, SLOT_ID)), IntOf(Lookup(el, ITEM_ID)), NameOf(Lookup(el, NAME)),
            IntOf(Lookup(el, PRICE_GR)), IntOf(Lookup(el, STOCK_QTY)))
  }

  function ProductsOf(elements: seq<Value>): (r: seq<Product>)
    ensures |r| == |elements| && forall i :: 0 <= i < |r| ==> r[i] == ProductOf(elements[i])
  {
    seq(|elements|, i requires 0 <= i < |elements| => ProductOf(elements[i]))
  }

  /** The products in a response body, or None for API_ERR_PARSE. */
  function StockRead(data: bytes): Option<seq<Product>> {
    match ReadDocument(CString(data) + [0], false)
    case Rejected(_, _) => None
    case Parsed(v, _) => if v.Array? then Some(ProductsOf(v.elements)) else None
  }

  /** The body of api_get_stock's loop. */
  method ReadProduct(el: Value) returns (p: Product)
    ensures p == ProductOf(el)
  {
    var slot := GetObjectItem(el, SLOT_ID);
    var item := GetObjectItem(el, ITEM_ID);
    var name := GetObjectItem(el, NAME);
    var price := GetObjectItem(el, PRICE_GR);
    var qty := GetObjectItem(el, STOCK_QTY);
    p := Product(IntOf(slot), IntOf(item), NameOf(name), IntOf(price), IntOf(qty));
  }

  /** api_get_stock, from its parse on */
  method GetStock(data: bytes) returns (products: Option<seq<Product>>)
    ensures products == StockRead(data)
  {
    hide ReadDocument, ProductOf;
    var ok, root, _ := JsonParser.ParseDocument(CString(data) + [0], false);
    if !ok || !root.Array? {
      return None;
    }
    var arr: seq<Product> := [];
    for i := 0 to |root.elements|
      invariant arr == ProductsOf(root.elements[..i])
    {
      var p := ReadProduct(root.elements[i]);
      assert root.elements[..i + 1] == root.elements[..i] + [root.elements[i]];
      arr := arr + [p];
    }
    assert root.elements[..|root.elements|] == root.elements;
    return Some(arr);
  }

  // ----- what a response means -----

  /** The number under a key: of the first member of that name, when it is one, and 0 otherwise. */
  ghost predicate IntAt(el: Value, key: bytes, n: int) {
    && (forall i: nat :: NumberAt(el, key, i) ==>
          n == ValueInt(el.members[i].val.mantissa, el.members[i].val.exponent))
    && ((forall i: nat :: !NumberAt(el, key, i)) ==> n == 0)
  }

  predicate NumberAt(el: Value, key: bytes, i: nat) { IsFirst(el, key, i) && el.members[i].val.Number? }

  /** The text under a key, cut to the 63 bytes that fit its field; none otherwise. */
  ghost predicate TextAt(el: Value, key: bytes, t: bytes) {
    && (forall i: nat :: StringAt(el, key, i) ==> Cut(CString(el.members[i].val.text), t))
    && ((forall i: nat :: !StringAt(el, key, i)) ==> t == [])
  }

  predicate StringAt(el: Value, key: bytes, i: nat) { IsFirst(el, key, i) && el.members[i].val.String? }

  /** `t` is as much of `s` as 63 bytes hold. */
  predicate Cut(s: bytes, t: bytes) { t <= s && |t| <= 63 && (|t| < 63 ==> t == s) }

  /** One record holds what one element of the list says. */
  ghost predicate RecordOf(p: Product, el: Value) {
    && IntAt(el, SLOT_ID, p.slotId) && IntAt(el, ITEM_ID, p.itemId) && TextAt(el, NAME, p.name)
    && IntAt(el, PRICE_GR, p.priceGr) && IntAt(el, STOCK_QTY, p.stockQty)
  }

  lemma IntRead(el: Value, key: bytes)
    ensures IntAt(el, key, IntOf(Lookup(el, key)))
  {
    hide Lookup, SameName, CString, ValueInt;
    JsonLookup.LookupIs(el, key);
    if Lookup(el, key).Some? {
      var i: nat :| IsFirst(el, key, i);
      assert NumberAt(el, key, i) <==> Lookup(el, key).value.Number?;
    }
  }

  lemma TextRead(el: Value, key: bytes)
    ensures TextAt(el, key, NameOf(Lookup(el, key)))
  {
    hide Lookup, SameName, CString;
    JsonLookup.LookupIs(el, key);
    if Lookup(el, key).Some? {
      var i: nat :| IsFirst(el, key, i);
      assert StringAt(el, key, i) <==> Lookup(el, key).value.String?;
    }
  }

  lemma RecordRead(el: Value)
    ensures RecordOf(ProductOf(el), el)
  {
    hide IntAt, TextAt, IntOf, NameOf, Lookup;
    IntRead(el, SLOT_ID);
    IntRead(el, ITEM_ID);
    TextRead(el, NAME);
    IntRead(el, PRICE_GR);
    IntRead(el, STOCK_QTY);
  }

  /** A text of the grammar that means an array stands in the response, behind the mark and white space. */
  ghost predicate HoldsArray(data: bytes, elements: seq<Value>) {
    exists before, s, end :: Holds(CString(data) + [0], before, s, Array(elements), end)
  }

  /** The client reports a parse error exactly when no such text stands there, and otherwise one record
      for each element of the array. */
  lemma StockReadIs(data: bytes)
    ensures StockRead(data).None? <==> !exists elements :: HoldsArray(data, elements)
    ensures forall elements :: HoldsArray(data, elements) ==>
              && StockRead(data).Some? && |StockRead(data).value| == |elements|
              && forall i :: 0 <= i < |elements| ==> RecordOf(StockRead(data).value[i], elements[i])
  {
    hide ReadDocument, Holds, ProductOf, RecordOf, CString;
    var c := CString(data) + [0];
    forall elements | HoldsArray(data, elements)
        ensures ReadDocument(c, false).Parsed? && ReadDocument(c, false).value == Array(elements) {
      var before, s, end :| Holds(c, before, s, Array(elements), end);
      HoldsRead(c, before, s, Array(elements), end);
    }
    if ReadDocument(c, false).Parsed? {
      var before, s := SoundDocument(c);
      var v := ReadDocument(c, false).value;
      if v.Array? {
        assert HoldsArray(data, v.elements);
        forall i | 0 <= i < |v.elements| ensures RecordOf(ProductOf(v.elements[i]), v.elements[i]) {
          RecordRead(v.elements[i]);
        }
      }
    }
  }

  // ----- server to client -----

  lemma KeysDiffer()
    ensures CString(SLOT_ID) == SLOT_ID && CString(ITEM_ID) == ITEM_ID && CString(NAME) == NAME
    ensures CString(PRICE_GR) == PRICE_GR && CString(STOCK_QTY) == STOCK_QTY
    ensures !SameName(ITEM_ID, SLOT_ID)
    ensures !SameName(NAME, SLOT_ID) && !SameName(NAME, ITEM_ID)
    ensures !SameName(PRICE_GR, SLOT_ID) && !SameName(PRICE_GR, ITEM_ID) && !SameName(PRICE_GR, NAME)
    ensures !SameName(STOCK_QTY, SLOT_ID) && !SameName(STOCK_QTY, ITEM_ID) && !SameName(STOCK_QTY, NAME)
    ensures !SameName(STOCK_QTY, PRICE_GR)
  {
    hide CString;
    CStringOfNulFree(SLOT_ID);
    CStringOfNulFree(ITEM_ID);
    CStringOfNulFree(NAME);
    CStringOfNulFree(PRICE_GR);
    CStringOfNulFree(STOCK_QTY);
    assert Lower(ITEM_ID[0]) != Lower(SLOT_ID[0]);
  }

  lemma SameNameReflexive(a: bytes)
    ensures SameName(a, a)
  {}

  /** Each key finds its own member. */
  lemma MemberFound(p: Product, i: nat)
    requires i < 5
    ensures var m := ProductMembers(p)[i]; Lookup(Object(ProductMembers(p)), m.key) == Some(m.val)
  {
    hide SameName, CString;
    KeysDiffer();
    var ms := ProductMembers(p);
    SameNameReflexive(ms[i].key);
    FirstNamedAt(ms, ms[i].key, i);
    assert ms[i..][0] == ms[i];
  }

  lemma ProductBack(p: Product)
    requires Held(p)
    ensures ProductOf(Object(ProductMembers(p))) == p
  {
    hide Lookup, ValueInt;
    MemberFound(p, 0);
    MemberFound(p, 1);
    MemberFound(p, 2);
    MemberFound(p, 3);
    MemberFound(p, 4);
    CStringOfNulFree(p.name);
  }

  /** Names without quote or backslash: the client reads the server's text back as the same products
      in the same order. */
  lemma StockBack(products: seq<Product>)
    requires AllHeld(products) && AllUnquoted(products)
    ensures StockRead(StockText(products)) == Some(products)
  {
    hide ReadDocument, StockText, StockSyntax, Render, Good, AllPaired, Strict, Meaning, Nesting, ProductOf,
      ProductMembers;
    var text := StockText(products);
    StockTextIs(products);
    StockTextNulFree(products);
    CStringOfNulFree(text);
    assert [] + [] + Render(StockSyntax(products)) + [0] == text + [0];
    ReadsDocument(false, [], StockSyntax(products), [0]);
    forall i | 0 <= i < |products| ensures ProductOf(StockValues(products)[i]) == products[i] {
      ProductBack(products[i]);
    }
    assert ProductsOf(StockValues(products)) == products;
  }
}
