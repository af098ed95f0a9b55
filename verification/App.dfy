/** The text interface's state as it is updated in place, key by key. */
module App {
  import opened Bytes
  import opened KeySequence
  import opened RowNavigation
  import opened Money
  import opened StockListing
  import opened AppView

  lemma TextAppended(buffer: bytes, b: byte)
    requires b != 0 && |CString(buffer)| + 1 < |buffer|
    ensures var l := |CString(buffer)|; CString(buffer[l := b][l + 1 := 0]) == CString(buffer) + [b]
  {
    var text := CString(buffer);
    var after := buffer[|text| := b][|text| + 1 := 0];
    CStringOfPrefix(after, |text| + 1);
    assert after[..|text| + 1] == text + [b];
    CStringOfNulFree(text + [b]);
  }

  lemma TextCut(buffer: bytes, l: nat)
    requires l <= |CString(buffer)| < |buffer|
    ensures CString(buffer[l := 0]) == CString(buffer)[..l]
  {
    var text := CString(buffer);
    var after := buffer[l := 0];
    CStringOfPrefix(after, l);
    assert after[..l] == text[..l];
    CStringOfNulFree(text[..l]);
  }

  lemma NoText(buffer: bytes)
    requires buffer != [] && buffer[0] == 0
    ensures CString(buffer) == []
  {}

  class App {
    const konami: array<int>
    var konamiPos: nat
    /** `products` by their slots, and the selected index. */
    const grid: Grid
    var products: seq<Product>
    var balanceGr: int
    var admin: bool
    var running: bool
    var serverDown: bool
    /** MODE_PROMPT */
    var prompting: bool
    var pending: Prompt
    const promptBuf: array<byte>
    /** Every key so far. */
    ghost var keys: seq<int>
    /** The number of keys up to the last occurrence of the sequence. */
    ghost var since: nat

    ghost predicate Window(keys: seq<int>)
      reads `konamiPos, `since, konami
    {
      konami.Length == 10 && konamiPos <= 10 && Holds(keys, since, konami[..konamiPos])
    }

    ghost predicate Valid()
      reads this, konami, grid, promptBuf
    {
      && Window(keys) && grid.Valid() && grid.slots == Slots(products)
      && promptBuf.Length == PROMPT_BUF_LEN && |CString(promptBuf[..])| < PROMPT_BUF_LEN
      && (prompting <==> pending != NoPrompt)
    }

    /** The state as a value. */
    ghost function State(): View
      reads this, grid, promptBuf
    {
      View(keys, admin, running, serverDown, pending, CString(promptBuf[..]), products, grid.selected, balanceGr)
    }

    /** app_init */
    constructor (a: Answers)
      requires Real(a)
      ensures Valid() && State() == Refreshed(BLANK, a)
      ensures fresh(konami) && fresh(grid) && fresh(promptBuf)
    {
      konami := new int[10];
      grid := new Grid.Empty();
      promptBuf := new byte[PROMPT_BUF_LEN](_ => 0);
      konamiPos, admin, running, serverDown, prompting, pending := 0, false, true, false, false, NoPrompt;
      products, balanceGr, keys, since := [], 0, [], 0;
      new;
      hide CString, Refreshed;
      NoText(promptBuf[..]);
      assert Slots([]) == [];
      assert State() == BLANK;
      Refresh(a);
    }

    /** app_refresh */
    method Refresh(a: Answers)
      requires Valid() && Real(a)
      modifies `products, `balanceGr, `serverDown, grid
      ensures Valid() && State() == Refreshed(old(State()), a)
    {
      hide CString, Window;
      serverDown := false;
      if a.stock.Fine? {
        products := a.products;
        grid.Refresh(Slots(a.products));
      } else {
        SetStatus(a.stock);
      }
      if a.balance.Fine? {
        balanceGr := a.balanceGr;
      } else {
        SetStatus(a.balance);
      }
    }

    /** set_status, but for its message */
    method SetStatus(status: Status)
      modifies `serverDown
      ensures serverDown == (old(serverDown) || status.Network?)
    {
      if status.Network? {
        serverDown := true;
      }
    }

    /** The window of feed_konami after one more key. */
    method Shift(key: int)
      requires konami.Length == 10 && konamiPos <= 10
      modifies konami, `konamiPos
      ensures konamiPos == if old(konamiPos) < 10 then old(konamiPos) + 1 else 10
      ensures konami[..konamiPos] == Slide(old(konami[..konamiPos]), key)
    {
      if konamiPos < 10 {
        konami[konamiPos] := key;
        konamiPos := konamiPos + 1;
      } else {
        forall i | 0 <= i < 9 {
          konami[i] := konami[i + 1];
        }
        konami[9] := key;
      }
    }

    /** feed_konami */
    method FeedKonami(key: int)
      requires Window(keys)
      modifies konami, `konamiPos, `admin, `since, `keys
      ensures Window(keys) && keys == old(keys) + [key]
      ensures admin == (old(admin) != Completes(keys))
    {
      hide Completes, Slide, Holds;
      WindowSees(keys, since, konami[..konamiPos], key);
      Shift(key);
      assert konami[..10] == konami[..];
      keys := keys + [key];
      if konamiPos == 10 && konami[..] == SEQUENCE {
        admin := !admin;
        konamiPos := 0;
        since := |keys|;
      }
    }

    /** `strlen` of the prompt's text */
    method TextLength() returns (l: nat)
      requires |CString(promptBuf[..])| < promptBuf.Length
      ensures l == |CString(promptBuf[..])|
    {
      var text := CString(promptBuf[..]);
      l := 0;
      while promptBuf[l] != 0
        invariant l <= |text|
        decreases |text| - l
      {
        l := l + 1;
      }
    }

    /** `prompt_buf[l] = '\0'` */
    method CutText(l: nat)
      requires promptBuf.Length == PROMPT_BUF_LEN && l <= |CString(promptBuf[..])| < PROMPT_BUF_LEN
      modifies promptBuf
      ensures CString(promptBuf[..]) == old(CString(promptBuf[..]))[..l]
    {
      hide CString;
      TextCut(promptBuf[..], l);
      promptBuf[l] := 0;
      assert promptBuf[..] == old(promptBuf[..])[l := 0];
    }

    /** One more character at the end of the text. */
    method AppendText(l: nat, b: byte)
      requires promptBuf.Length == PROMPT_BUF_LEN && l == |CString(promptBuf[..])| < PROMPT_BUF_LEN - 1 && b != 0
      modifies promptBuf
      ensures CString(promptBuf[..]) == old(CString(promptBuf[..])) + [b]
    {
      hide CString;
      TextAppended(promptBuf[..], b);
      promptBuf[l] := b;
      promptBuf[l + 1] := 0;
      assert promptBuf[..] == old(promptBuf[..])[l := b][l + 1 := 0];
    }

    /** open_prompt */
    method OpenPrompt(action: Prompt)
      requires Valid() && action != NoPrompt
      modifies `prompting, `pending, promptBuf
      ensures Valid() && State() == Opened(old(State()), action)
    {
      hide CString, Window;
      if products == [] && action != DepositPrompt {
        return;
      }
      prompting := true;
      pending := action;
      CutText(0);
    }

    /** do_buy */
    method DoBuy(a: Answers) returns (sent: Option<Request>)
      requires Valid() && Real(a)
      modifies `products, `balanceGr, `serverDown, grid
      ensures Valid() && sent == Bought(old(State()))
      ensures State() == if sent.Some? then Called(old(State()), a) else old(State())
    {
      hide CString, Window, Refreshed;
      sent := None;
      if products == [] {
        return;
      }
      var p := products[grid.selected];
      if p.stockQty <= 0 {
        return;
      }
      if balanceGr < p.priceGr {
        return;
      }
      sent := Some(Purchase(p.slotId));
      if a.call.Network? {
        serverDown := true;
        return;
      }
      Refresh(a);
    }

    /** do_cashout */
    method DoCashout(a: Answers)
      requires Valid() && Real(a)
      modifies `products, `balanceGr, `serverDown, grid
      ensures Valid()
      ensures State() == if a.call.Http? || a.call.Garbled? then old(State()) else Called(old(State()), a)
    {
      hide CString, Window, Refreshed;
      if a.call.Fine? {
        Refresh(a);
      } else if a.call.Network? {
        serverDown := true;
      }
    }

    /** The call of confirm_prompt. */
    method ConfirmedCall() returns (sent: Option<Request>)
      requires Valid() && prompting
      ensures sent == Confirmed(State())
    {
      hide ParsedMoney, ParsedCount;
      var l := TextLength();
      var text := promptBuf[..l];
      assert text == CString(promptBuf[..]);
      sent := None;
      if pending == DepositPrompt {
        var gr := ParseZlToGr(text);
        if gr > 0 {
          sent := Some(Deposit(gr));
        }
      } else if pending == RestockPrompt && products != [] {
        var q := ParsePosInt(text);
        if q >= 0 {
          sent := Some(Restock(products[grid.selected].slotId, q));
        }
      } else if pending == PricePrompt && products != [] {
        var gr := ParseZlToGr(text);
        if gr > 0 {
          sent := Some(SetPrice(products[grid.selected].itemId, gr));
        }
      }
    }

    /** confirm_prompt */
    method ConfirmPrompt(a: Answers) returns (sent: Option<Request>)
      requires Valid() && Real(a) && prompting && !serverDown
      modifies this, grid, promptBuf
      ensures Valid() && sent == Confirmed(old(State()))
      ensures var w := old(State()).(pending := NoPrompt, buffer := []);
        State() == if sent.Some? then Called(w, a) else Refreshed(w, a)
    {
      hide Confirmed, CString, Window;
      sent := ConfirmedCall();
      if sent.Some? && a.call.Network? {
        serverDown := true;
      }
      prompting := false;
      pending := NoPrompt;
      CutText(0);
      if !serverDown {
        Refresh(a);
      }
    }

    /** A key in an open prompt. */
    method HandlePrompt(key: int, a: Answers) returns (sent: Option<Request>)
      requires Valid() && Real(a) && prompting && !serverDown
      modifies this, grid, promptBuf
      ensures Valid() && sent == Sent(old(State()), key) && State() == Prompted(old(State()), key, a)
    {
      hide Confirmed, Refreshed, Called, CString, Window;
      sent := None;
      if key == ESCAPE {
        prompting := false;
        pending := NoPrompt;
        CutText(0);
      } else if IsEnter(key) {
        sent := ConfirmPrompt(a);
      } else if IsErase(key) {
        var l := TextLength();
        if l > 0 {
          CutText(l - 1);
        }
      } else {
        var l := TextLength();
        if IsAmountChar(key) && l < PROMPT_BUF_LEN - 1 {
          AppendText(l, key);
        }
      }
    }

    /** An arrow key. */
    method Navigate(key: int)
      requires Valid() && key in {KEY_LEFT, KEY_RIGHT, KEY_UP, KEY_DOWN}
      modifies grid
      ensures Valid()
      ensures State() == old(State()).(selected :=
        if key == KEY_LEFT then Across(|products|, old(grid.selected), -1)
        else if key == KEY_RIGHT then Across(|products|, old(grid.selected), 1)
        else Landing(Slots(products), old(grid.selected), if key == KEY_UP then -1 else 1))
    {
      hide Moves, CString;
      ghost var from := grid.selected;
      if key == KEY_LEFT {
        grid.MoveHorizontal(-1);
      } else if key == KEY_RIGHT {
        grid.MoveHorizontal(1);
      } else {
        var dir := if key == KEY_UP then -1 else 1;
        grid.MoveVertical(dir);
        LandsThere(grid.slots, from, dir, grid.selected);
      }
    }

    /** A key in the browsing view. */
    method HandleBrowse(key: int, a: Answers) returns (sent: Option<Request>)
      requires Valid() && Real(a) && !prompting && !serverDown
      modifies this, grid, promptBuf
      ensures Valid() && sent == Sent(old(State()), key) && State() == Browsed(old(State()), key, a)
    {
      hide Bought, Refreshed, Called, Landing, Across, Opened, CString, Window;
      sent := None;
      if key == KEY_LEFT || key == KEY_RIGHT || key == KEY_UP || key == KEY_DOWN {
        Navigate(key);
      } else if IsEnter(key) || key == ' ' as int {
        sent := DoBuy(a);
      } else if key == 'd' as int {
        OpenPrompt(DepositPrompt);
      } else if key == 'c' as int {
        sent := Some(CashOut);
        DoCashout(a);
      } else if key == 'r' as int {
        Refresh(a);
      } else if key == 'q' as int {
        running := false;
      } else if key == 's' as int {
        if admin {
          OpenPrompt(RestockPrompt);
        }
      } else if key == 'p' as int {
        if admin {
          OpenPrompt(PricePrompt);
        }
      } else if key == ESCAPE {
        if admin {
          admin := false;
        }
      }
    }

    /** app_handle_key: the view it leaves, and the call it makes. */
    method HandleKey(key: int, a: Answers) returns (sent: Option<Request>)
      requires Valid() && Real(a)
      modifies this, konami, grid, promptBuf
      ensures Valid() && State() == Handled(old(State()), key, a)
      ensures sent == Sent(Fed(old(State()), key), key)
    {
      hide Browsed, Prompted, Refreshed, Completes, Window, CString;
      FeedKonami(key);
      sent := None;
      if serverDown {
        if key == 'r' as int || key == 'R' as int {
          Refresh(a);
        } else if key == 'q' as int || key == 'Q' as int {
          running := false;
        }
        return;
      }
      if prompting {
        sent := HandlePrompt(key, a);
        return;
      }
      sent := HandleBrowse(key, a);
    }
  }

  lemma LandsThere(slots: seq<int>, from: nat, dir: int, to: nat)
    requires IsDirection(dir) && (if slots == [] then to == from else Moves(slots, from, dir, to))
    ensures Landing(slots, from, dir) == to
  {
    if slots != [] {
      MovesOnce(slots, from, dir, to, Landing(slots, from, dir));
    }
  }
}
