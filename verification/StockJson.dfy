/** The stock list as a text of the grammar: what it means, and when it is JSON. */
module StockJson {
  import opened Bytes
  import opened Decimals
  import opened JsonValue
  import opened JsonSyntax
  import opened JsonGrammar
  import opened JsonExact
  import opened JsonStandard
  import opened JsonText
  import opened StockListing

  function PlainUnits(s: bytes): (r: seq<Unit>)
    ensures |r| == |s| && forall i :: 0 <= i < |s| ==> r[i] == Plain(s[i])
  {
    seq(|s|, i requires 0 <= i < |s| => Plain(s[i]))
  }

  function FieldEntry(key: bytes, val: Syntax): Entry { Entry([], PlainUnits(key), [], [], val, []) }

  function IntSyntax(n: int): Syntax { NumberSyntax(NumeralOf(n)) }

  function ProductEntries(p: Product): seq<Entry> {
    [FieldEntry(SLOT_ID, IntSyntax(p.slotId))] + ([FieldEntry(ITEM_ID, IntSyntax(p.itemId))]
    + ([FieldEntry(NAME, StringSyntax(PlainUnits(p.name)))] + ([FieldEntry(PRICE_GR, IntSyntax(p.priceGr))]
    + [FieldEntry(STOCK_QTY, IntSyntax(p.stockQty))])))
  }

  function ProductMembers(p: Product): seq<Member> {
    [Member(SLOT_ID, Number(p.slotId, 0)), Member(ITEM_ID, Number(p.itemId, 0)), Member(NAME, String(p.name)),
     Member(PRICE_GR, Number(p.priceGr, 0)), Member(STOCK_QTY, Number(p.stockQty, 0))]
  }

  lemma {:induction false} PlainText(s: bytes)
    ensures RenderUnits(PlainUnits(s)) == s
  {
    if s != [] {
      PlainText(s[1..]);
      assert PlainUnits(s)[1..] == PlainUnits(s[1..]);
    }
  }

  lemma {:induction false} UnquotedUnclosed(s: bytes)
    requires Unquoted(s)
    ensures Unclosed(s)
  {
    if s != [] {
      UnquotedUnclosed(s[1..]);
    }
  }

  lemma {:induction false} PlainMeaning(s: bytes)
    requires Unquoted(s)
    ensures GoodPieces(PlainUnits(s)) && UnitsMeaning(PlainUnits(s)) == s
  {
    if s != [] {
      PlainMeaning(s[1..]);
      assert PlainUnits(s)[1..] == PlainUnits(s[1..]);
    }
  }

  lemma PlainUnitsAre(s: bytes)
    requires NulFree(s) && Unquoted(s)
    ensures var us := PlainUnits(s);
      GoodUnits(us) && Paired(us) && RenderString(us) == [QUOTE] + s + [QUOTE] && StringMeaning(us) == s
    ensures Visible(s) ==> StrictUnits(PlainUnits(s))
  {
    hide UnitsMeaning, RenderUnits, Unclosed, GoodPieces;
    PlainText(s);
    UnquotedUnclosed(s);
    PlainMeaning(s);
    NoSurrogates(PlainUnits(s));
    CStringOfNulFree(s);
  }

  lemma KeysPlain()
    ensures forall key <- [SLOT_ID, ITEM_ID, NAME, PRICE_GR, STOCK_QTY] ::
              NulFree(key) && Unquoted(key) && Visible(key)
  {}

  /** `s` is a text of the grammar, spelled `t`, that means `v`. */
  predicate Writes(s: Syntax, t: bytes, v: Value) {
    Good(s) && AllPaired(s) && Render(s) == t && Meaning(s) == v
  }

  lemma IntSyntaxIs(n: int)
    requires IsInt32(n)
    ensures Writes(IntSyntax(n), IntText(n), Number(n, 0)) && Strict(IntSyntax(n)) && Nesting(IntSyntax(n)) == 0
  {
    NumeralOfIs(n);
  }

  lemma NameSyntaxIs(s: bytes)
    requires NulFree(s) && Unquoted(s)
    ensures var v := StringSyntax(PlainUnits(s));
      Writes(v, [QUOTE] + s + [QUOTE], String(s)) && Nesting(v) == 0 && (Visible(s) ==> Strict(v))
  {
    hide RenderString, StringMeaning, GoodUnits, StrictUnits, Paired;
    PlainUnitsAre(s);
  }

  // ----- one product -----

  /** Entries of an object, from the first name on. */
  predicate WritesFields(es: seq<Entry>, t: bytes, ms: seq<Member>) {
    && GoodEntries(es) && EntriesPaired(es) && EntriesMeaning(es) == ms && EntriesNesting(es) == 0
    && (if es == [] then t == [] else es[0].before == [] && t == RenderEntries(es))
  }

  /** One more field in front of the rest of an object. */
  lemma FieldsAre(key: bytes, s: Syntax, text: bytes, v: Value, es: seq<Entry>, t: bytes, ms: seq<Member>)
    requires NulFree(key) && Unquoted(key) && Visible(key) && Nesting(s) == 0
    requires Writes(s, text, v) && WritesFields(es, t, ms)
    ensures var all := [FieldEntry(key, s)] + es;
      && WritesFields(all, Field(key, text) + (if es == [] then [RBRACE] else [COMMA] + t), [Member(key, v)] + ms)
      && (Strict(s) && StrictEntries(es) ==> StrictEntries(all))
  {
    hide Good, Strict, AllPaired, Render, Meaning, Nesting, RenderString, StringMeaning, StrictUnits, GoodUnits, Paired,
      Visible;
    PlainUnitsAre(key);
    var e := FieldEntry(key, s);
    EntriesCons(e, es);
    assert RenderEntry(e) == Field(key, text);
    assert es != [] ==> [COMMA] + es[0].before == [COMMA];
    assert ([e] + es)[1..] == es;
  }

  function ProductSyntax(p: Product): Syntax { ObjectSyntax([], ProductEntries(p)) }

  lemma EntriesAre(p: Product)
    requires Held(p) && Unquoted(p.name)
    ensures var es := ProductEntries(p);
      && es != [] && GoodEntries(es) && EntriesPaired(es) && EntriesMeaning(es) == ProductMembers(p)
      && EntriesNesting(es) == 0 && es[0].before == [] && [LBRACE] + RenderEntries(es) == ProductText(p)
      && (Visible(p.name) ==> StrictEntries(es))
  {
    hide GoodEntries, StrictEntries, EntriesPaired, RenderEntries, EntriesMeaning, EntriesNesting, Good, Strict,
      AllPaired, Render, Meaning, Nesting, IntText, Unquoted, Visible, FieldEntry, IntSyntax, PlainUnits, Field,
      Writes, WritesFields;
    KeysPlain();
    IntSyntaxIs(p.slotId);
    IntSyntaxIs(p.itemId);
    IntSyntaxIs(p.priceGr);
    IntSyntaxIs(p.stockQty);
    NameSyntaxIs(p.name);
    NoFields();
    var qty := [FieldEntry(STOCK_QTY, IntSyntax(p.stockQty))];
    var qtyText := Field(STOCK_QTY, IntText(p.stockQty)) + [RBRACE];
    var ms := ProductMembers(p);
    assert qty + [] == qty && ms[4..] == [ms[4]] + [];
    FieldsAre(STOCK_QTY, IntSyntax(p.stockQty), IntText(p.stockQty), Number(p.stockQty, 0), [], [], []);
    var price := [FieldEntry(PRICE_GR, IntSyntax(p.priceGr))] + qty;
    var priceText := Field(PRICE_GR, IntText(p.priceGr)) + ([COMMA] + qtyText);
    assert ms[3..] == [ms[3]] + ms[4..];
    FieldsAre(PRICE_GR, IntSyntax(p.priceGr), IntText(p.priceGr), Number(p.priceGr, 0), qty, qtyText, ms[4..]);
    var name := [FieldEntry(NAME, StringSyntax(PlainUnits(p.name)))] + price;
    var nameText := Field(NAME, [QUOTE] + p.name + [QUOTE]) + ([COMMA] + priceText);
    assert ms[2..] == [ms[2]] + ms[3..];
    FieldsAre(NAME, StringSyntax(PlainUnits(p.name)), [QUOTE] + p.name + [QUOTE], String(p.name), price, priceText,
              ms[3..]);
    var item := [FieldEntry(ITEM_ID, IntSyntax(p.itemId))] + name;
    var itemText := Field(ITEM_ID, IntText(p.itemId)) + ([COMMA] + nameText);
    assert ms[1..] == [ms[1]] + ms[2..];
    FieldsAre(ITEM_ID, IntSyntax(p.itemId), IntText(p.itemId), Number(p.itemId, 0), name, nameText, ms[2..]);
    assert ms == [ms[0]] + ms[1..];
    FieldsAre(SLOT_ID, IntSyntax(p.slotId), IntText(p.slotId), Number(p.slotId, 0), item, itemText, ms[1..]);
    assert ProductEntries(p) == [FieldEntry(SLOT_ID, IntSyntax(p.slotId))] + item;
    FieldsWritten(ProductEntries(p), Field(SLOT_ID, IntText(p.slotId)) + ([COMMA] + itemText), ms);
    ProductTextIs(p, qtyText, priceText, nameText, itemText);
  }

  lemma FieldsWritten(es: seq<Entry>, t: bytes, ms: seq<Member>)
    requires es != [] && WritesFields(es, t, ms)
    ensures GoodEntries(es) && EntriesPaired(es) && EntriesMeaning(es) == ms && EntriesNesting(es) == 0
    ensures es[0].before == [] && RenderEntries(es) == t
  {}

  lemma NoFields()
    ensures WritesFields([], [], []) && StrictEntries([])
  {}

  lemma ProductTextIs(p: Product, qty: bytes, price: bytes, name: bytes, item: bytes)
    requires qty == Field(STOCK_QTY, IntText(p.stockQty)) + [RBRACE]
    requires price == Field(PRICE_GR, IntText(p.priceGr)) + ([COMMA] + qty)
    requires name == Field(NAME, [QUOTE] + p.name + [QUOTE]) + ([COMMA] + price)
    requires item == Field(ITEM_ID, IntText(p.itemId)) + ([COMMA] + name)
    ensures ProductText(p) == [LBRACE] + (Field(SLOT_ID, IntText(p.slotId)) + ([COMMA] + item))
  {
    hide Field, IntText;
    var a := [LBRACE] + Field(SLOT_ID, IntText(p.slotId));
    var b := a + [COMMA] + Field(ITEM_ID, IntText(p.itemId));
    var c := b + [COMMA] + Field(NAME, [QUOTE] + p.name + [QUOTE]);
    var d := c + [COMMA] + Field(PRICE_GR, IntText(p.priceGr));
    assert d + [COMMA] + Field(STOCK_QTY, IntText(p.stockQty)) + [RBRACE] == d + ([COMMA] + qty);
    assert d + ([COMMA] + qty) == c + ([COMMA] + price);
    assert c + ([COMMA] + price) == b + ([COMMA] + name);
    assert b + ([COMMA] + name) == a + ([COMMA] + item);
  }

  lemma ProductIs(p: Product)
    requires Held(p) && Unquoted(p.name)
    ensures var s := ProductSyntax(p);
      Writes(s, ProductText(p), Object(ProductMembers(p))) && Nesting(s) == 1 && (Visible(p.name) ==> Strict(s))
  {
    hide GoodEntries, StrictEntries, EntriesPaired, RenderEntries, EntriesMeaning, EntriesNesting, ProductText,
      ProductMembers, Held, Unquoted, Visible;
    EntriesAre(p);
    var es := ProductEntries(p);
    assert [] + RenderEntries(es) == RenderEntries(es);
  }

  // ----- the list -----

  /** The products from the i-th on, as items of the array. */
  function StockItems(products: seq<Product>, i: nat): (r: seq<Item>)
    requires i <= |products|
    ensures r == [] <==> i == |products|
    decreases |products| - i
  {
    if i == |products| then [] else [Item([], ProductSyntax(products[i]), [])] + StockItems(products, i + 1)
  }

  function StockValues(products: seq<Product>): (r: seq<Value>)
    ensures |r| == |products| && forall i :: 0 <= i < |r| ==> r[i] == Object(ProductMembers(products[i]))
  {
    seq(|products|, i requires 0 <= i < |products| => Object(ProductMembers(products[i])))
  }

  /** One more value in front of the rest of an array. */
  lemma ItemCons(s: Syntax, text: bytes, v: Value, items: seq<Item>)
    requires Writes(s, text, v) && GoodItems(items) && ItemsPaired(items) && (items != [] ==> items[0].before == [])
    ensures var all := [Item([], s, [])] + items;
      && GoodItems(all) && ItemsPaired(all) && all[0].before == []
      && RenderItems(all) == text + (if items == [] then [RBRACKET] else [COMMA] + RenderItems(items))
      && ItemsMeaning(all) == [v] + ItemsMeaning(items)
      && ItemsNesting(all) == Max(Nesting(s), ItemsNesting(items))
      && (Strict(s) && StrictItems(items) ==> StrictItems(all))
  {
    hide Good, Strict, AllPaired, Render, Meaning, Nesting;
    var all := [Item([], s, [])] + items;
    ItemsCons(Item([], s, []), items);
    assert items != [] ==> [COMMA] + items[0].before == [COMMA];
    assert all[1..] == items;
  }

  lemma {:induction false} ItemsAre(products: seq<Product>, i: nat)
    requires AllHeld(products) && AllUnquoted(products) && i < |products|
    ensures var items := StockItems(products, i);
      && GoodItems(items) && ItemsPaired(items) && items[0].before == [] && ItemsNesting(items) <= 1
      && (if i > 0 then [COMMA] else []) + RenderItems(items) == Listed(products, i) + [RBRACKET]
      && ItemsMeaning(items) == StockValues(products)[i..]
      && (AllVisible(products) ==> StrictItems(items))
    decreases |products| - i
  {
    hide Writes, Strict, Nesting, ProductText, ProductMembers, ProductSyntax, Held, GoodItems, StrictItems, ItemsPaired,
      RenderItems, ItemsMeaning, ItemsNesting, Unquoted, Visible;
    var s, rest := ProductSyntax(products[i]), StockItems(products, i + 1);
    ProductIs(products[i]);
    NoItems();
    NoStrictItems();
    if i + 1 < |products| {
      ItemsAre(products, i + 1);
    }
    ItemCons(s, ProductText(products[i]), Object(ProductMembers(products[i])), rest);
    var comma: bytes, text := if i > 0 then [COMMA] else [], ProductText(products[i]);
    Regroup(comma + text, Listed(products, i + 1), [RBRACKET]);
    Regroup(comma, text, Listed(products, i + 1) + [RBRACKET]);
    assert i + 1 == |products| ==> Listed(products, i + 1) + [RBRACKET] == [RBRACKET];
    SplitAt(StockValues(products), i);
  }

  lemma NoStrictItems()
    ensures StrictItems([])
  {}

  lemma SplitAt<T>(s: seq<T>, i: nat)
    requires i < |s|
    ensures s[i..] == [s[i]] + s[i + 1..]
  {}

  function StockSyntax(products: seq<Product>): Syntax { ArraySyntax([], StockItems(products, 0)) }

  /** Names without quote or backslash: the text means the list of the products. */
  lemma StockTextIs(products: seq<Product>)
    requires AllHeld(products) && AllUnquoted(products)
    ensures var s := StockSyntax(products);
      && Writes(s, StockText(products), Array(StockValues(products))) && Nesting(s) <= 2
      && (AllVisible(products) ==> Strict(s))
  {
    hide GoodItems, StrictItems, ItemsPaired, RenderItems, ItemsMeaning, ItemsNesting, ProductText, AllHeld,
      AllUnquoted, AllVisible;
    NoItems();
    NoStrictItems();
    if products != [] {
      ItemsAre(products, 0);
      assert StockValues(products)[0..] == StockValues(products);
      var items := StockItems(products, 0);
      assert [] + RenderItems(items) == RenderItems(items);
    }
  }

  // ----- when it is JSON -----

  lemma ScanLost(s: bytes)
    ensures Scan(Lost, s) == Lost
    decreases |s|
  {}

  lemma {:induction false} ScanName(s: bytes)
    requires Unquoted(s)
    ensures Scan(Inside, s) == if Visible(s) then Inside else Lost
  {
    if s != [] {
      if s[0] >= SPACE {
        ScanName(s[1..]);
        assert Visible(s) <==> Visible(s[1..]) by {
          assert s == [s[0]] + s[1..];
        }
      } else {
        ScanLost(s[1..]);
      }
    }
  }

  lemma LevelInt(n: int)
    ensures Level(IntText(n))
  {
    hide Scan;
    ScanOutside(IntText(n));
  }

  lemma LevelField(key: bytes, text: bytes)
    requires NulFree(key) && Unquoted(key) && Visible(key) && Level(text)
    ensures Level(Field(key, text))
  {
    hide Level, StrictUnits, RenderString, Visible, Unquoted, PlainUnits;
    var us := PlainUnits(key);
    PlainUnitsAre(key);
    LevelString(us);
    LevelOutside([COLON]);
    LevelConcat(RenderString(us), [COLON]);
    LevelConcat(RenderString(us) + [COLON], text);
    assert RenderString(us) + [COLON] == [QUOTE] + key + [QUOTE, COLON];
  }

  /** What stands before a product's name, and behind it. */
  function BeforeName(p: Product): bytes {
    [LBRACE] + Field(SLOT_ID, IntText(p.slotId)) + [COMMA] + Field(ITEM_ID, IntText(p.itemId)) + [COMMA]
    + Field(NAME, [])
  }

  /** What the server writes behind a name: its closing quote, a comma and the next key. */
  const BEHIND: bytes := [QUOTE, COMMA, QUOTE, 112]

  lemma NameStands(p: Product) returns (rest: bytes)
    ensures ProductText(p) == BeforeName(p) + ([QUOTE] + (p.name + (BEHIND + rest)))
  {
    hide IntText, Field;
    var price := PriceField(IntText(p.priceGr));
    var quantity := [COMMA] + Field(STOCK_QTY, IntText(p.stockQty)) + [RBRACE];
    rest := price + quantity;
    NameField([QUOTE] + p.name + [QUOTE]);
    var before, field := BeforeName(p), Field(PRICE_GR, IntText(p.priceGr));
    Reordered(before, [QUOTE], p.name, [COMMA], field, quantity, BEHIND, price);
    assert ProductText(p) == before + ([QUOTE] + p.name + [QUOTE]) + [COMMA] + field + quantity;
  }

  lemma NameField(text: bytes)
    ensures Field(NAME, text) == Field(NAME, []) + text
  {}

  lemma Reordered(before: bytes, q: bytes, name: bytes, comma: bytes, field: bytes, rest: bytes, behind: bytes,
                  price: bytes)
    requires q + comma + field == behind + price
    ensures before + (q + name + q) + comma + field + rest == before + (q + (name + (behind + (price + rest))))
  {
    assert before + (q + name + q) + comma + field + rest == before + (q + (name + ((q + comma + field) + rest)));
  }

  lemma PriceField(text: bytes) returns (rest: bytes)
    ensures [QUOTE] + [COMMA] + Field(PRICE_GR, text) == BEHIND + rest
  {
    rest := PRICE_GR[1..] + [QUOTE, COLON] + text;
    assert PRICE_GR == [112] + PRICE_GR[1..];
  }

  lemma LevelBeforeName(p: Product)
    ensures Level(BeforeName(p))
  {
    hide Level, Field, IntText, NulFree, Unquoted, Visible;
    KeysPlain();
    LevelInt(p.slotId);
    LevelInt(p.itemId);
    LevelOutside([]);
    LevelOutside([LBRACE]);
    LevelOutside([COMMA]);
    var slot, item, name := Field(SLOT_ID, IntText(p.slotId)), Field(ITEM_ID, IntText(p.itemId)), Field(NAME, []);
    LevelField(SLOT_ID, IntText(p.slotId));
    LevelField(ITEM_ID, IntText(p.itemId));
    LevelField(NAME, []);
    LevelConcat([LBRACE], slot);
    LevelConcat([LBRACE] + slot, [COMMA]);
    LevelConcat([LBRACE] + slot + [COMMA], item);
    LevelConcat([LBRACE] + slot + [COMMA] + item, [COMMA]);
    LevelConcat([LBRACE] + slot + [COMMA] + item + [COMMA], name);
  }

  lemma ScanProduct(p: Product)
    requires Unquoted(p.name) && !Visible(p.name)
    ensures Scan(Outside, ProductText(p)) == Lost
  {
    hide Scan, ProductText, BeforeName, Unquoted, Visible;
    var rest := NameStands(p);
    LevelBeforeName(p);
    assert Scan(Outside, BeforeName(p)) == Outside;
    ScanConcat(Outside, BeforeName(p), [QUOTE] + (p.name + (BEHIND + rest)));
    ScanConcat(Outside, [QUOTE], p.name + (BEHIND + rest));
    ScanByte(Outside, QUOTE);
    ScanConcat(Inside, p.name, BEHIND + rest);
    ScanName(p.name);
    ScanLost(BEHIND + rest);
  }

  /** A control byte in the k-th name is met in a string. */
  lemma {:induction false} ScanListed(products: seq<Product>, i: nat, k: nat)
    requires AllHeld(products) && AllUnquoted(products) && i <= k < |products|
    requires !Visible(products[k].name) && forall j :: 0 <= j < k ==> Visible(products[j].name)
    ensures Scan(Outside, Listed(products, i)) == Lost
    decreases k - i
  {
    hide Scan, ProductText, ProductSyntax, Held, Unquoted, Visible, Writes, Strict;
    var comma: bytes, text, rest := if i > 0 then [COMMA] else [], ProductText(products[i]), Listed(products, i + 1);
    LevelOutside(comma);
    assert Scan(Outside, comma) == Outside;
    ScanConcat(Outside, comma + text, rest);
    ScanConcat(Outside, comma, text);
    if i == k {
      ScanProduct(products[i]);
      ScanLost(rest);
    } else {
      ProductIs(products[i]);
      ProductLevel(products[i]);
      ScanListed(products, i + 1, k);
    }
  }

  lemma ProductLevel(p: Product)
    requires Held(p) && Unquoted(p.name) && Visible(p.name)
    ensures Scan(Outside, ProductText(p)) == Outside
  {
    hide Scan, ProductText, ProductSyntax, Held, Unquoted, Visible, Strict;
    ProductIs(p);
    LevelSyntax(ProductSyntax(p));
  }

  lemma {:induction false} FirstHidden(products: seq<Product>, n: nat) returns (k: nat)
    requires n <= |products| && forall j :: 0 <= j < n ==> Visible(products[j].name)
    requires !AllVisible(products)
    ensures k < |products| && !Visible(products[k].name) && forall j :: 0 <= j < k ==> Visible(products[j].name)
    decreases |products| - n
  {
    hide Visible;
    if !Visible(products[n].name) {
      k := n;
    } else {
      k := FirstHidden(products, n + 1);
    }
  }

  /** The server's text is a JSON text of RFC 8259 if and only if no name holds a control byte. */
  lemma StockIsJson(products: seq<Product>)
    requires AllHeld(products) && AllUnquoted(products)
    ensures IsJson(StockText(products)) <==> AllVisible(products)
  {
    hide IsJson, Scan, Listed, AllHeld, AllUnquoted, AllVisible, StockSyntax, Strict;
    var text := StockText(products);
    if AllVisible(products) {
      StockTextIs(products);
      WrittenIsJson(StockSyntax(products), text);
    } else {
      var k := FirstHidden(products, 0);
      ScanListed(products, 0, k);
      LevelOutside([LBRACKET]);
      ScanConcat(Outside, [LBRACKET] + Listed(products, 0), [RBRACKET]);
      ScanConcat(Outside, [LBRACKET], Listed(products, 0));
      ScanLost([RBRACKET]);
      assert !Level(text);
      if IsJson(text) {
        JsonIsLevel(text);
      }
    }
  }

  lemma WrittenIsJson(s: Syntax, text: bytes)
    requires Strict(s) && Render(s) == text
    ensures IsJson(text)
  {
    hide Strict, Render;
    assert [] + Render(s) + [] == text;
    assert IsDocument(text, [], s, []);
  }
}
