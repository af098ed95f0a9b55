/** What a key does to the text interface, as a function of the view before it and of what the
    server answers. */
module AppView {
  import opened Bytes
  import opened KeySequence
  import opened RowNavigation
  import opened Money
  import opened StockListing

  const KEY_BACKSPACE := 263
  const KEY_ENTER := 343

  /** PROMPT_BUF_LEN */
  const PROMPT_BUF_LEN: nat := 16

  /** The action a prompt is open for; `NoPrompt` is browsing. */
  datatype Prompt = NoPrompt | DepositPrompt | RestockPrompt | PricePrompt

  /** api_status_t */
  datatype Status = Fine | Network | Http | Garbled

  /** What the calls that one key can make would answer: the call itself, and the stock list and the
      balance that a refresh asks for. */
  datatype Answers = Answers(call: Status, stock: Status, products: seq<Product>, balance: Status, balanceGr: int)

  /** A call that is not a refresh. */
  datatype Request =
    | Purchase(slotId: int)
    | CashOut
    | Deposit(gr: int)
    | Restock(slotId: int, qty: int)
    | SetPrice(itemId: int, gr: int)

  /** `keys` are all keys so far, `buffer` is the text typed into the prompt. */
  datatype View = View(keys: seq<int>, admin: bool, running: bool, serverDown: bool, pending: Prompt, buffer: bytes,
                       products: seq<Product>, selected: nat, balance: int)

  const BLANK := View([], false, true, false, NoPrompt, [], [], 0, 0)

  function Slots(products: seq<Product>): (r: seq<int>)
    ensures |r| == |products| && forall i :: 0 <= i < |r| ==> r[i] == products[i].slotId
  {
    seq(|products|, i requires 0 <= i < |products| => products[i].slotId)
  }

  /** What can come from the network: api_get_stock stores C ints. */
  predicate Real(a: Answers) { forall i :: 0 <= i < |a.products| ==> IsInt32(a.products[i].slotId) }

  // ----- one key -----

  predicate IsEnter(key: int) { key == 10 || key == 13 || key == KEY_ENTER }
  predicate IsErase(key: int) { key == KEY_BACKSPACE || key == 127 || key == 8 }
  predicate IsAmountChar(key: int) { 48 <= key <= 57 || key == 46 }

  /** app_refresh */
  function Refreshed(v: View, a: Answers): View {
    var w := if a.stock.Fine? then v.(products := a.products, selected := Clamped(v.selected, |a.products|)) else v;
    w.(balance := if a.balance.Fine? then a.balanceGr else v.balance,
       serverDown := a.stock.Network? || a.balance.Network?)
  }

  function Clamped(selected: nat, count: nat): nat {
    if selected < count then selected else if count == 0 then 0 else count - 1
  }

  /** open_prompt */
  function Opened(v: View, prompt: Prompt): View {
    if v.products == [] && prompt != DepositPrompt then v else v.(pending := prompt, buffer := [])
  }

  /** The call that do_buy makes, if any. */
  function Bought(v: View): Option<Request> {
    if v.selected >= |v.products| then None
    else
      var p := v.products[v.selected];
      if p.stockQty <= 0 || v.balance < p.priceGr then None else Some(Purchase(p.slotId))
  }

  /** The call that confirm_prompt makes, if any. */
  function Confirmed(v: View): Option<Request> {
    if v.pending.NoPrompt? || (!v.pending.DepositPrompt? && v.selected >= |v.products|) then None
    else if v.pending.RestockPrompt? then
      match ParsedCount(v.buffer)
      case None => None
      case Some(q) => Some(Restock(v.products[v.selected].slotId, q))
    else
      match ParsedMoney(v.buffer)
      case None => None
      case Some(gr) =>
        if gr == 0 then None
        else if v.pending.DepositPrompt? then Some(Deposit(gr))
        else Some(SetPrice(v.products[v.selected].itemId, gr))
  }

  /** A call that is followed by a refresh unless the server cannot be reached. */
  function Called(v: View, a: Answers): View {
    if a.call.Network? then v.(serverDown := true) else Refreshed(v, a)
  }

  /** feed_konami */
  function Fed(v: View, key: int): View {
    v.(keys := v.keys + [key], admin := v.admin != Completes(v.keys + [key]))
  }

  /** The place a press of Up or Down moves to. */
  ghost function Landing(slots: seq<int>, selected: nat, dir: int): (n: nat)
    ensures n == selected || Moves(slots, selected, dir, n)
    ensures (exists i: nat :: Moves(slots, selected, dir, i)) ==> Moves(slots, selected, dir, n)
  {
    if exists i: nat :: Moves(slots, selected, dir, i) then
      var i: nat :| Moves(slots, selected, dir, i);
      i
    else selected
  }

  function Across(count: nat, selected: nat, dir: int): nat {
    if count == 0 then selected
    else if dir == 1 then (if selected + 1 == count then 0 else selected + 1)
    else if selected == 0 then count - 1
    else selected - 1
  }

  /** The key in the browsing view. */
  ghost function Browsed(v: View, key: int, a: Answers): View {
    if key == KEY_LEFT then v.(selected := Across(|v.products|, v.selected, -1))
    else if key == KEY_RIGHT then v.(selected := Across(|v.products|, v.selected, 1))
    else if key == KEY_UP then v.(selected := Landing(Slots(v.products), v.selected, -1))
    else if key == KEY_DOWN then v.(selected := Landing(Slots(v.products), v.selected, 1))
    else if IsEnter(key) || key == ' ' as int then if Bought(v).Some? then Called(v, a) else v
    else if key == 'd' as int then Opened(v, DepositPrompt)
    else if key == 'c' as int then if a.call.Http? || a.call.Garbled? then v else Called(v, a)
    else if key == 'r' as int then Refreshed(v, a)
    else if key == 'q' as int then v.(running := false)
    else if key == 's' as int && v.admin then Opened(v, RestockPrompt)
    else if key == 'p' as int && v.admin then Opened(v, PricePrompt)
    else if key == ESCAPE then v.(admin := false)
    else v
  }

  /** The key in an open prompt. */
  function Prompted(v: View, key: int, a: Answers): View {
    if key == ESCAPE then v.(pending := NoPrompt, buffer := [])
    else if IsEnter(key) then
      var w := v.(pending := NoPrompt, buffer := []);
      if Confirmed(v).Some? then Called(w, a) else Refreshed(w, a)
    else if IsErase(key) then v.(buffer := if v.buffer == [] then [] else v.buffer[..|v.buffer| - 1])
    else if IsAmountChar(key) && |v.buffer| < PROMPT_BUF_LEN - 1 then v.(buffer := v.buffer + [key])
    else v
  }

  /** The key while the server cannot be reached. */
  function Waited(v: View, key: int, a: Answers): View {
    if key == 'r' as int || key == 'R' as int then Refreshed(v, a)
    else if key == 'q' as int || key == 'Q' as int then v.(running := false)
    else v
  }

  /** app_handle_key */
  ghost function Handled(v: View, key: int, a: Answers): View {
    var w := Fed(v, key);
    if w.serverDown then Waited(w, key, a)
    else if w.pending != NoPrompt then Prompted(w, key, a)
    else Browsed(w, key, a)
  }

  /** The call the key makes, before the server's answer is known. */
  function Sent(v: View, key: int): Option<Request> {
    if v.serverDown then None
    else if v.pending != NoPrompt then if IsEnter(key) then Confirmed(v) else None
    else if IsEnter(key) || key == ' ' as int then Bought(v)
    else if key == 'c' as int then Some(CashOut)
    else None
  }

  // ----- runs -----

  datatype Event = Event(key: int, answers: Answers)

  /** app_init with what its refresh was answered, and then some keys. */
  ghost function Run(first: Answers, events: seq<Event>): View {
    if events == [] then Refreshed(BLANK, first)
    else
      var last := events[|events| - 1];
      Handled(Run(first, events[..|events| - 1]), last.key, last.answers)
  }

  lemma RunSnoc(first: Answers, events: seq<Event>, key: int, a: Answers)
    ensures Run(first, events + [Event(key, a)]) == Handled(Run(first, events), key, a)
  {
    hide Handled;
    assert (events + [Event(key, a)])[..|events|] == events;
  }
}
