/** What the keys ask of the server and what they change, read off the view and the answers: one
    condition for each call and for each part of the view. */
module AppCalls {
  import opened Bytes
  import opened Decimals
  import opened KeySequence
  import opened RowNavigation
  import opened Money
  import opened StockListing
  import opened AppView
  import opened AppRuns

  /** The server is up and no prompt is open. */
  predicate Browsing(v: View) { !v.serverDown && v.pending == NoPrompt }

  /** A prompt is open, and Enter confirms it. */
  predicate Confirming(v: View, key: int, prompt: Prompt) {
    !v.serverDown && v.pending == prompt && prompt != NoPrompt && key in {10, 13, 343}
  }

  /** The call that the key makes. */
  function CallOf(v: View, key: int): Option<Request> { Sent(Fed(v, key), key) }

  // ----- which call goes out -----

  /** A purchase goes out exactly when Enter or the space bar is pressed while browsing, on a product of
      that slot that is in stock and that the balance reaches. */
  lemma PurchaseSent(v: View, key: int, slot: int)
    ensures CallOf(v, key) == Some(Purchase(slot)) <==>
      && Browsing(v) && key in {10, 13, 343, 32} && v.selected < |v.products|
      && v.products[v.selected].slotId == slot && v.products[v.selected].stockQty > 0
      && v.products[v.selected].priceGr <= v.balance
  {
    hide Completes, ParsedMoney, ParsedCount;
  }

  lemma CashOutSent(v: View, key: int)
    ensures CallOf(v, key) == Some(CashOut) <==> Browsing(v) && key == 'c' as int
  {
    hide Completes, ParsedMoney, ParsedCount;
  }

  lemma DepositSent(v: View, key: int, gr: int)
    ensures CallOf(v, key) == Some(Deposit(gr)) <==>
      Confirming(v, key, DepositPrompt) && gr > 0 && ParsedMoney(v.buffer) == Some(gr)
  {
    hide Completes, ParsedMoney, ParsedCount;
  }

  /** A restock names the slot of the selected product, and the quantity typed. */
  lemma RestockSent(v: View, key: int, slot: int, qty: int)
    ensures CallOf(v, key) == Some(Restock(slot, qty)) <==>
      && Confirming(v, key, RestockPrompt) && v.selected < |v.products| && v.products[v.selected].slotId == slot
      && ParsedCount(v.buffer) == Some(qty)
  {
    hide Completes, ParsedMoney, ParsedCount;
  }

  /** A price update names the item of the selected product, and the amount typed. */
  lemma PriceSent(v: View, key: int, item: int, gr: int)
    ensures CallOf(v, key) == Some(SetPrice(item, gr)) <==>
      && Confirming(v, key, PricePrompt) && v.selected < |v.products| && v.products[v.selected].itemId == item
      && gr > 0 && ParsedMoney(v.buffer) == Some(gr)
  {
    hide Completes, ParsedMoney, ParsedCount;
  }

  // ----- what is typed is what is asked for -----

  lemma AdminKey(v: View, key: int, a: Answers)
    requires Browsing(v) && v.admin && v.products != [] && (key == 's' as int || key == 'p' as int)
    ensures Handled(v, key, a)
         == Fed(v, key).(pending := if key == 's' as int then RestockPrompt else PricePrompt, buffer := [])
  {
    hide Completes;
    NotLast(v, key);
  }

  /** `p`, an amount as it is printed, and Enter ask for that price for the item of the product on which
      the prompt was opened. */
  lemma PriceTyped(first: Answers, events: seq<Event>, gr: nat, a: Answers)
    requires var v := Run(first, events); Browsing(v) && v.admin && v.products != []
    requires 0 < gr <= INT_MAX
    ensures var v, w := Run(first, events), Run(first, events + [Event('p' as int, a)] + Typed(MoneyText(gr), a));
      v.selected < |v.products| && CallOf(w, KEY_ENTER) == Some(SetPrice(v.products[v.selected].itemId, gr))
  {
    hide Run, Handled, Sent, MoneyText, ParsedMoney, Fed, CallOf;
    var v, begun := Run(first, events), events + [Event('p' as int, a)];
    RunShape(first, events);
    RunSnoc(first, events, 'p' as int, a);
    AdminKey(v, 'p' as int, a);
    FedIs(v, 'p' as int);
    MoneyFits(gr);
    AmountTyped(first, begun, MoneyText(gr), a);
    MoneyRoundTrip(gr);
    assert [] + MoneyText(gr) == MoneyText(gr);
    PriceSent(Run(first, begun + Typed(MoneyText(gr), a)), KEY_ENTER, v.products[v.selected].itemId, gr);
  }

  lemma CountText(qty: nat)
    requires 0 < qty <= INT_MAX
    ensures AmountText(IntText(qty)) && |IntText(qty)| < PROMPT_BUF_LEN && ParsedCount(IntText(qty)) == Some(qty)
  {
    assert Power10(5) == 100000 && Power10(10) == 100000 * Power10(5);
    DigitsLength(qty, 10);
  }

  /** `s`, a quantity in digits, and Enter ask for that restock of the slot of the product on which the
      prompt was opened. */
  lemma RestockTyped(first: Answers, events: seq<Event>, qty: nat, a: Answers)
    requires var v := Run(first, events); Browsing(v) && v.admin && v.products != []
    requires 0 < qty <= INT_MAX
    ensures var v, w := Run(first, events), Run(first, events + [Event('s' as int, a)] + Typed(IntText(qty), a));
      v.selected < |v.products| && CallOf(w, KEY_ENTER) == Some(Restock(v.products[v.selected].slotId, qty))
  {
    hide Run, Handled, Sent, IntText, ParsedCount, Fed, CallOf;
    var v, begun := Run(first, events), events + [Event('s' as int, a)];
    RunShape(first, events);
    RunSnoc(first, events, 's' as int, a);
    AdminKey(v, 's' as int, a);
    FedIs(v, 's' as int);
    CountText(qty);
    AmountTyped(first, begun, IntText(qty), a);
    assert [] + IntText(qty) == IntText(qty);
    RestockSent(Run(first, begun + Typed(IntText(qty), a)), KEY_ENTER, v.products[v.selected].slotId, qty);
  }

  // ----- what the answers change -----

  /** When the stock list and the balance are asked for again: on `r`, on `R` too while the server is
      down, behind every confirmed prompt and every call that the server has answered, except behind a
      cash-out that it has refused. */
  predicate Refreshes(v: View, key: int, a: Answers) {
    if v.serverDown then key == 'r' as int || key == 'R' as int
    else if v.pending != NoPrompt then
      key in {10, 13, 343} && (CallOf(v, key).Some? ==> !a.call.Network?)
    else
      key == 'r' as int
      || match CallOf(v, key)
         case None => false
         case Some(r) => if r.CashOut? then a.call.Fine? else !a.call.Network?
  }

  lemma NoCashOut(v: View)
    ensures Bought(v).Some? ==> Bought(v).value.Purchase?
  {}

  /** The view shows the list last answered ... */
  lemma ListShown(v: View, key: int, a: Answers)
    ensures Handled(v, key, a).products == if Refreshes(v, key, a) && a.stock.Fine? then a.products else v.products
  {
    hide Completes, Bought, Confirmed, Landing, Across, Clamped;
    NoCashOut(Fed(v, key));
  }

  /** ... and the balance. */
  lemma BalanceShown(v: View, key: int, a: Answers)
    ensures Handled(v, key, a).balance == if Refreshes(v, key, a) && a.balance.Fine? then a.balanceGr else v.balance
  {
    hide Completes, Bought, Confirmed, Landing, Across, Clamped;
    NoCashOut(Fed(v, key));
  }

  /** The server counts as down exactly when the last call or refresh has not reached it. */
  lemma ServerDown(v: View, key: int, a: Answers)
    ensures Handled(v, key, a).serverDown <==>
      if Refreshes(v, key, a) then a.stock.Network? || a.balance.Network?
      else v.serverDown || (CallOf(v, key).Some? && a.call.Network?)
  {
    hide Completes, Bought, Confirmed, Landing, Across, Clamped;
    NoCashOut(Fed(v, key));
  }

  lemma Quits(v: View, key: int, a: Answers)
    ensures Handled(v, key, a).running <==>
      && v.running && !(key == 'q' as int && (v.serverDown || v.pending == NoPrompt))
      && !(key == 'Q' as int && v.serverDown)
  {
    hide Completes, ParsedMoney, ParsedCount, Landing, Across, Clamped;
  }

  // ----- prompts -----

  /** A prompt opens on `d`, and with the admin keys unlocked and a product selected on `s` and `p`; it
      closes on Escape and Enter. */
  lemma PromptAfter(v: View, key: int, a: Answers)
    ensures Handled(v, key, a).pending
         == if v.serverDown then v.pending
            else if v.pending != NoPrompt then if key in {27, 10, 13, 343} then NoPrompt else v.pending
            else if key == 'd' as int then DepositPrompt
            else if key == 's' as int && v.admin && v.products != [] then RestockPrompt
            else if key == 'p' as int && v.admin && v.products != [] then PricePrompt
            else NoPrompt
  {
    hide Completes, ParsedMoney, ParsedCount, Landing, Across, Clamped, Sent;
    if key != 'a' as int {
      NotLast(v, key);
    }
  }

  /** Digits and points are typed until fifteen are there, and erased from the end. */
  lemma TextAfter(v: View, key: int, a: Answers)
    requires Shape(v)
    ensures Handled(v, key, a).buffer
         == if v.serverDown || v.pending == NoPrompt || key in {27, 10, 13, 343} then []
            else if key in {263, 127, 8} then
              if v.buffer == [] then [] else v.buffer[..|v.buffer| - 1]
            else if (48 <= key <= 57 || key == 46) && |v.buffer| < 15 then v.buffer + [key]
            else v.buffer
  {
    hide Completes, ParsedMoney, ParsedCount, Landing, Across, Clamped, Sent, AmountText;
  }

  // ----- the selection -----

  /** The arrow keys move the selection while browsing; a new list keeps it, or its last product. */
  lemma SelectedAfter(v: View, key: int, a: Answers)
    requires Shape(v) && v.products != []
    ensures var w, n := Handled(v, key, a).selected, |v.products|;
      if Browsing(v) && key in {260, 261} then w == (v.selected + n + if key == 260 then -1 else 1) % n
      else if Browsing(v) && key in {258, 259} then
        w == v.selected || Moves(Slots(v.products), v.selected, if key == 259 then -1 else 1, w)
      else if Refreshes(v, key, a) && a.stock.Fine? then
        w == if v.selected < |a.products| then v.selected else if a.products == [] then 0 else |a.products| - 1
      else w == v.selected
  {
    hide Completes, Bought, Confirmed, Landing, AmountText, Moves;
    NoCashOut(Fed(v, key));
    Wraps(v.selected + 1, |v.products|);
    Wraps(v.selected - 1, |v.products|);
  }

  // ----- the admin flag and the start -----

  /** The flag toggles with every up, up, down, down, left, right, left, right, b, a, whatever the mode, and
      Escape clears it while browsing. */
  lemma AdminAfterKey(v: View, key: int, a: Answers)
    ensures var w := Handled(v, key, a);
      var typed := |w.keys| >= 10 && w.keys[|w.keys| - 10..] == [259, 259, 258, 258, 260, 261, 260, 261, 98, 97];
      && w.keys == v.keys + [key]
      && w.admin == if Browsing(v) && key == 27 then false else v.admin != typed
  {
    hide Handled;
    HandledAdmin(v, key, a);
  }

  /** It starts browsing, locked, with what the first answers bring. */
  lemma Starts(first: Answers)
    ensures var v := Run(first, []);
      && v.keys == [] && !v.admin && v.running && v.pending == NoPrompt && v.buffer == [] && v.selected == 0
      && v.products == (if first.stock.Fine? then first.products else [])
      && v.balance == (if first.balance.Fine? then first.balanceGr else 0)
      && (v.serverDown <==> first.stock.Network? || first.balance.Network?)
  {}
}
