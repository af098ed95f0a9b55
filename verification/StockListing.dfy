/** The stock list: the text the server writes by hand, and the buffer it writes it into. */
module StockListing {
  import opened Bytes
  import opened Decimals
  import JsonValue

  datatype Product = Product(slotId: int, itemId: int, name: bytes, priceGr: int, stockQty: int)

  /** MAX_NAME_LEN of the server, and the size of the client's name field. */
  const MAX_NAME_LEN: nat := 50
  const NAME_FIELD: nat := 64

  const SLOT_ID: bytes := [115, 108, 111, 116, 95, 105, 100]            // slot_id
  const ITEM_ID: bytes := [105, 116, 101, 109, 95, 105, 100]            // item_id
  const NAME: bytes := [110, 97, 109, 101]                              // name
  const PRICE_GR: bytes := [112, 114, 105, 99, 101, 95, 103, 114]       // price_gr
  const STOCK_QTY: bytes := [115, 116, 111, 99, 107, 95, 113, 116, 121] // stock_qty

  lemma KeysSpelled()
    ensures JsonValue.Ascii(SLOT_ID, "slot_id") && JsonValue.Ascii(ITEM_ID, "item_id") && JsonValue.Ascii(NAME, "name")
    ensures JsonValue.Ascii(PRICE_GR, "price_gr") && JsonValue.Ascii(STOCK_QTY, "stock_qty")
  {}

  /** A row the server can hold. */
  predicate Held(p: Product) {
    && IsInt32(p.slotId) && IsInt32(p.itemId) && IsInt32(p.priceGr) && IsInt32(p.stockQty)
    && |p.name| < MAX_NAME_LEN && NulFree(p.name)
  }

  predicate AllHeld(products: seq<Product>) { forall i :: 0 <= i < |products| ==> Held(products[i]) }

  /** Neither quote nor backslash. */
  predicate Unquoted(s: bytes) { forall i :: 0 <= i < |s| ==> s[i] != QUOTE && s[i] != BACKSLASH }

  /** No control bytes. */
  predicate Visible(s: bytes) { forall i :: 0 <= i < |s| ==> s[i] >= SPACE }

  predicate AllUnquoted(products: seq<Product>) { forall i :: 0 <= i < |products| ==> Unquoted(products[i].name) }
  predicate AllVisible(products: seq<Product>) { forall i :: 0 <= i < |products| ==> Visible(products[i].name) }

  // ----- the text -----

  function Field(key: bytes, text: bytes): bytes { [QUOTE] + key + [QUOTE, COLON] + text }

  /** One product under the format of handle_get_stock. */
  function ProductText(p: Product): bytes {
    [LBRACE] + Field(SLOT_ID, IntText(p.slotId)) + [COMMA] + Field(ITEM_ID, IntText(p.itemId)) + [COMMA]
    + Field(NAME, [QUOTE] + p.name + [QUOTE]) + [COMMA] + Field(PRICE_GR, IntText(p.priceGr)) + [COMMA]
    + Field(STOCK_QTY, IntText(p.stockQty)) + [RBRACE]
  }

  /** The products from the i-th on, each but the first behind a comma. */
  function Listed(products: seq<Product>, i: nat): bytes
    requires i <= |products|
    decreases |products| - i
  {
    if i == |products| then []
    else (if i > 0 then [COMMA] else []) + ProductText(products[i]) + Listed(products, i + 1)
  }

  function StockText(products: seq<Product>): bytes { [LBRACKET] + Listed(products, 0) + [RBRACKET] }

  // ----- the loop that writes the text -----

  lemma IntTextNulFree(n: int)
    ensures NulFree(IntText(n))
  {}

  lemma ProductTextNulFree(p: Product)
    requires Held(p)
    ensures NulFree(ProductText(p))
  {
    hide IntText, CString;
    IntTextNulFree(p.slotId);
    IntTextNulFree(p.itemId);
    IntTextNulFree(p.priceGr);
    IntTextNulFree(p.stockQty);
  }

  lemma {:induction false} ListedNulFree(products: seq<Product>, i: nat)
    requires AllHeld(products) && i <= |products|
    ensures NulFree(Listed(products, i))
    decreases |products| - i
  {
    hide ProductText;
    if i < |products| {
      ProductTextNulFree(products[i]);
      ListedNulFree(products, i + 1);
    }
  }

  lemma StockTextNulFree(products: seq<Product>)
    requires AllHeld(products)
    ensures NulFree(StockText(products))
  {
    hide Listed;
    ListedNulFree(products, 0);
  }

  /** `sprintf` into the rest of a buffer: the text and its NUL; the length of the text. */
  method Sprintf(body: array<byte>, pos: nat, text: bytes) returns (n: nat)
    requires pos + |text| < body.Length
    modifies body
    ensures n == |text|
    ensures body[..pos + n] == old(body[..pos]) + text && body[pos + n] == 0
  {
    for i := 0 to |text|
      invariant body[..pos] == old(body[..pos]) && body[pos..pos + i] == text[..i]
    {
      body[pos + i] := text[i];
    }
    body[pos + |text|] := 0;
    n := |text|;
    assert body[..pos + n] == body[..pos] + body[pos..pos + n];
  }

  /** The space handle_get_stock sets aside for its text. */
  function BodySize(products: seq<Product>): nat { |products| * 128 + 8 }

  /** handle_get_stock, from its `malloc` to its last `sprintf` */
  method StockBody(products: seq<Product>) returns (body: array<byte>)
    requires AllHeld(products) && |StockText(products)| < BodySize(products)
    ensures fresh(body) && body.Length == BodySize(products)
    ensures CString(body[..]) == StockText(products)
  {
    hide ProductText, AllHeld;
    body := new byte[|products| * 128 + 8];
    var pos: nat := 0;
    var n := Sprintf(body, pos, [LBRACKET]);
    pos := pos + n;
    for i := 0 to |products|
      invariant pos < body.Length && body[..pos] + Listed(products, i) + [RBRACKET] == StockText(products)
    {
      var comma, text := if i > 0 then [COMMA] else [], ProductText(products[i]);
      assert Listed(products, i) == comma + text + Listed(products, i + 1);
      ghost var before := body[..pos];
      assert before + Listed(products, i) + [RBRACKET]
          == before + (comma + text) + Listed(products, i + 1) + [RBRACKET];
      n := Sprintf(body, pos, comma + text);
      pos := pos + n;
    }
    n := Sprintf(body, pos, [RBRACKET]);
    Terminated(products, body[..], pos + n);
  }

  lemma Terminated(products: seq<Product>, buffer: bytes, end: nat)
    requires AllHeld(products) && end < |buffer| && buffer[..end] == StockText(products) && buffer[end] == 0
    ensures CString(buffer) == StockText(products)
  {
    hide StockText;
    StockTextNulFree(products);
    CStringOfPrefix(buffer, end);
    CStringOfNulFree(buffer[..end]);
  }

  // ----- when it fits -----

  /** The bytes of a product's own: its name and the digits and signs of its four numbers. */
  function Ink(p: Product): nat {
    |p.name| + |IntText(p.slotId)| + |IntText(p.itemId)| + |IntText(p.priceGr)| + |IntText(p.stockQty)|
  }

  function TotalInk(products: seq<Product>, i: nat): nat
    requires i <= |products|
    decreases |products| - i
  {
    if i == |products| then 0 else Ink(products[i]) + TotalInk(products, i + 1)
  }

  lemma ProductLength(p: Product)
    ensures |ProductText(p)| == 58 + Ink(p)
  {
    hide IntText;
  }

  lemma {:induction false} ListedLength(products: seq<Product>, i: nat)
    requires i <= |products|
    ensures |Listed(products, i)|
         == (|products| - i) * 59 + TotalInk(products, i) - if i == 0 < |products| then 1 else 0
    decreases |products| - i
  {
    hide ProductText, Ink;
    if i < |products| {
      ProductLength(products[i]);
      ListedLength(products, i + 1);
    }
  }

  /** The text fits its buffer if and only if names and numbers take, all told, less than 69 bytes
      a product and 7 more. */
  lemma FitsExactly(products: seq<Product>)
    ensures |StockText(products)| < BodySize(products) <==> TotalInk(products, 0) < |products| * 69 + 7
  {
    hide Listed;
    ListedLength(products, 0);
  }

  /** So it fits when no product takes more than 69, which is a text of 127 bytes. */
  lemma ListedFits(products: seq<Product>)
    requires forall j :: 0 <= j < |products| ==> |ProductText(products[j])| < 128
    ensures |StockText(products)| < BodySize(products)
  {
    hide ProductText, StockText, TotalInk, Ink;
    forall j | 0 <= j < |products| ensures Ink(products[j]) <= 69 {
      ProductLength(products[j]);
    }
    FitsExactly(products);
    InkBound(products, 0);
  }

  lemma {:induction false} InkBound(products: seq<Product>, i: nat)
    requires i <= |products| && forall j :: 0 <= j < |products| ==> Ink(products[j]) <= 69
    ensures TotalInk(products, i) <= (|products| - i) * 69
    decreases |products| - i
  {
    hide Ink;
    if i < |products| {
      InkBound(products, i + 1);
    }
  }

  /** Two rows with 49-byte names, two-digit ids and ten-digit prices and quantities do not fit. */
  lemma TwoWideRows()
    ensures var name := seq(49, _ => 97);
            var products := [Product(55, 29, name, INT_MAX, INT_MAX), Product(56, 30, name, INT_MAX, INT_MAX)];
            AllHeld(products) && AllUnquoted(products) && |StockText(products)| >= BodySize(products)
  {
    var name := seq(49, _ => 97);
    var products := [Product(55, 29, name, INT_MAX, INT_MAX), Product(56, 30, name, INT_MAX, INT_MAX)];
    FitsExactly(products);
    TenDigits();
    assert TotalInk(products, 2) == 0;
    assert TotalInk(products, 1) == Ink(products[1]);
  }

  lemma TenDigits()
    ensures |IntText(INT_MAX)| == 10 && |IntText(55)| == |IntText(56)| == |IntText(29)| == |IntText(30)| == 2
  {
    Tenfold(2, 1);
    Tenfold(21, 4);
    Tenfold(214, 7);
    Tenfold(2147, 4);
    Tenfold(21474, 8);
    Tenfold(214748, 3);
    Tenfold(2147483, 6);
    Tenfold(21474836, 4);
    Tenfold(214748364, 7);
  }

  lemma Tenfold(n: nat, d: nat)
    requires n > 0 && d < 10
    ensures |Digits(n * 10 + d)| == |Digits(n)| + 1
  {}
}
