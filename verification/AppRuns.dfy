/** What holds in every run of the text interface. */
module AppRuns {
  import opened Bytes
  import opened Decimals
  import opened KeySequence
  import opened RowNavigation
  import opened Money
  import opened AppView

  // ----- every view -----

  predicate AmountText(s: bytes) { forall i :: 0 <= i < |s| ==> IsAmountChar(s[i]) }

  /** A prompt is never open while the server cannot be reached, nor one for a product that is gone;
      what is typed fits the buffer, and the selection is on a product. */
  predicate Shape(v: View) {
    && (v.pending != NoPrompt ==> !v.serverDown && (v.pending != DepositPrompt ==> v.products != []))
    && (v.pending == NoPrompt ==> v.buffer == []) && |v.buffer| < PROMPT_BUF_LEN && AmountText(v.buffer)
    && (v.products != [] ==> v.selected < |v.products|)
  }

  lemma RefreshedShape(v: View, a: Answers)
    requires Shape(v) && v.pending == NoPrompt
    ensures Shape(Refreshed(v, a)) && Refreshed(v, a).pending == NoPrompt
  {}

  lemma LandsInside(v: View, dir: int)
    requires Shape(v)
    ensures v.products != [] ==> Landing(Slots(v.products), v.selected, dir) < |v.products|
  {
    hide Lands, Nearest;
  }

  lemma BrowsedShape(v: View, key: int, a: Answers)
    requires Shape(v) && v.pending == NoPrompt && !v.serverDown
    ensures Shape(Browsed(v, key, a))
  {
    hide Shape, Refreshed, Bought, Landing, Opened, Called, Across;
    RefreshedShape(v, a);
    CalledShape(v, a);
    OpenedShape(v);
    SelectedShape(v);
    FlagsShape(v);
  }

  lemma CalledShape(v: View, a: Answers)
    requires Shape(v) && v.pending == NoPrompt
    ensures Shape(Called(v, a))
  {
    hide Refreshed, AmountText;
    RefreshedShape(v, a);
  }

  lemma OpenedShape(v: View)
    requires Shape(v) && !v.serverDown
    ensures forall p <- [DepositPrompt, RestockPrompt, PricePrompt] :: Shape(Opened(v, p))
  {}

  lemma SelectedShape(v: View)
    requires Shape(v)
    ensures forall dir <- [-1, 1] :: Shape(v.(selected := Across(|v.products|, v.selected, dir)))
                                     && Shape(v.(selected := Landing(Slots(v.products), v.selected, dir)))
  {
    hide Landing, AmountText;
    LandsInside(v, -1);
    LandsInside(v, 1);
  }

  lemma FlagsShape(v: View)
    requires Shape(v)
    ensures Shape(v.(running := false)) && Shape(v.(admin := false))
  {
    hide AmountText;
  }

  lemma PromptedShape(v: View, key: int, a: Answers)
    requires Shape(v) && v.pending != NoPrompt
    ensures Shape(Prompted(v, key, a))
  {
    hide Refreshed, Confirmed;
    RefreshedShape(v.(pending := NoPrompt, buffer := []), a);
  }

  lemma HandledShape(v: View, key: int, a: Answers)
    requires Shape(v)
    ensures Shape(Handled(v, key, a))
  {
    hide Refreshed, Browsed, Prompted, Completes;
    var w := Fed(v, key);
    assert Shape(w);
    if w.serverDown {
      RefreshedShape(w, a);
    } else if w.pending != NoPrompt {
      PromptedShape(w, key, a);
    } else {
      BrowsedShape(w, key, a);
    }
  }

  /** In particular the server is never down behind an open prompt. */
  lemma {:induction false} RunShape(first: Answers, events: seq<Event>)
    ensures Shape(Run(first, events))
    decreases |events|
  {
    hide Shape, Handled, Refreshed;
    if events == [] {
      BlankShape();
      RefreshedShape(BLANK, first);
    } else {
      var last := events[|events| - 1];
      RunShape(first, events[..|events| - 1]);
      HandledShape(Run(first, events[..|events| - 1]), last.key, last.answers);
    }
  }

  lemma BlankShape()
    ensures Shape(BLANK) && BLANK.pending == NoPrompt
  {}

  // ----- the admin keys -----

  /** Each key with whether it came to the browsing view, by the views of the run. */
  ghost function Presses(first: Answers, events: seq<Event>): (r: seq<Press>)
    ensures |r| == |events|
  {
    if events == [] then []
    else
      var before, v := events[..|events| - 1], Run(first, events[..|events| - 1]);
      Presses(first, before) + [Press(events[|events| - 1].key, !v.serverDown && v.pending == NoPrompt)]
  }

  /** What a key does to the admin flag. */
  lemma HandledAdmin(v: View, key: int, a: Answers)
    ensures var w := Handled(v, key, a);
      && w.keys == v.keys + [key]
      && w.admin == (!(key == ESCAPE && !v.serverDown && v.pending == NoPrompt) && v.admin != Completes(w.keys))
  {
    hide Completes, Refreshed, Bought, Confirmed, Landing;
    Untouched(a);
  }

  /** A refresh leaves the keys, the admin flag and the prompt alone. */
  lemma Untouched(a: Answers)
    ensures forall v :: var w := Refreshed(v, a); w.keys == v.keys && w.admin == v.admin && w.pending == v.pending
  {}

  /** The admin flag is what the keys and the modes they met say, and the modes follow from the keys
      and the answers. */
  lemma {:induction false} AdminIs(first: Answers, events: seq<Event>)
    ensures Run(first, events).admin == AdminAfter(Presses(first, events))
    ensures Run(first, events).keys == Keys(Presses(first, events))
    decreases |events|
  {
    hide Handled, AdminAfter, Keys, Completes, Refreshed;
    if events == [] {
      NoPresses();
      BlankAdmin(first);
    } else {
      var before, last := events[..|events| - 1], events[|events| - 1];
      var v := Run(first, before);
      AdminIs(first, before);
      AdminSnoc(Presses(first, before), Press(last.key, !v.serverDown && v.pending == NoPrompt));
      HandledAdmin(v, last.key, last.answers);
    }
  }

  lemma NoPresses()
    ensures AdminAfter([]) == false && Keys([]) == []
  {}

  lemma BlankAdmin(first: Answers)
    ensures !Refreshed(BLANK, first).admin && Refreshed(BLANK, first).keys == []
  {}

  // ----- admin prompts -----

  predicate IsAdminPrompt(p: Prompt) { p == RestockPrompt || p == PricePrompt }

  /** The prompt `p` was opened by the n-th key with the admin keys unlocked, and has been open since. */
  ghost predicate OpenSince(first: Answers, events: seq<Event>, n: nat, p: Prompt) {
    && n < |events| && Fed(Run(first, events[..n]), events[n].key).admin
    && Run(first, events[..n]).pending == NoPrompt
    && forall k :: n < k <= |events| ==> Run(first, events[..k]).pending == p
  }

  /** How a key leads to an open admin prompt: it was open, or the key opens it. */
  lemma PromptComes(v: View, key: int, a: Answers)
    requires IsAdminPrompt(Handled(v, key, a).pending)
    ensures v.pending == Handled(v, key, a).pending || (v.pending == NoPrompt && Fed(v, key).admin)
    ensures v.pending != NoPrompt ==> key != ESCAPE || v.serverDown
    ensures v.pending == NoPrompt ==> key != ESCAPE
  {
    hide Completes, Refreshed, Bought, Confirmed, Landing;
    Untouched(a);
  }

  /** An admin prompt is only ever opened while the admin keys are unlocked ... */
  lemma {:induction false} AdminPrompt(first: Answers, events: seq<Event>) returns (n: nat)
    requires IsAdminPrompt(Run(first, events).pending)
    ensures OpenSince(first, events, n, Run(first, events).pending)
    decreases |events|
  {
    hide Handled, Refreshed, Fed;
    n := 0;
    if events == [] {
      BlankShape();
      Untouched(first);
      assert false;
    } else {
      var before, last := events[..|events| - 1], events[|events| - 1];
      var u, v := Run(first, before), Run(first, events);
      PromptComes(u, last.key, last.answers);
      assert events[..|events|] == events;
      if u.pending == NoPrompt {
        n := |events| - 1;
      } else {
        n := AdminPrompt(first, before);
        Since(first, events, n, v.pending);
      }
    }
  }

  lemma Since(first: Answers, events: seq<Event>, n: nat, p: Prompt)
    requires events != [] && OpenSince(first, events[..|events| - 1], n, p) && Run(first, events).pending == p
    ensures OpenSince(first, events, n, p)
  {
    hide Run, Fed;
    var before := events[..|events| - 1];
    assert before[..n] == events[..n];
    forall k | n < k <= |events| ensures Run(first, events[..k]).pending == p {
      if k < |events| {
        assert before[..k] == events[..k];
      } else {
        assert events[..k] == events;
      }
    }
  }

  lemma HitsSnoc(keys: seq<int>, key: int)
    ensures Hits(keys + [key]) == Hits(keys) + if Completes(keys + [key]) then 1 else 0
  {
    hide Completes;
    assert (keys + [key])[..|keys|] == keys;
  }

  /** ... and from then on they are unlocked exactly while the sequence has been typed into it an even
      number of times. */
  lemma {:induction false} PromptParity(first: Answers, events: seq<Event>, n: nat, p: Prompt)
    requires IsAdminPrompt(p) && OpenSince(first, events, n, p)
    ensures Hits(Run(first, events).keys) >= Hits(Run(first, events[..n + 1]).keys)
    ensures Run(first, events).admin
        <==> (Hits(Run(first, events).keys) - Hits(Run(first, events[..n + 1]).keys)) % 2 == 0
    decreases |events|
  {
    hide Handled, Hits, Completes, Fed;
    var before, last := events[..|events| - 1], events[|events| - 1];
    var u := Run(first, before);
    assert events[..|events|] == events;
    PromptComes(u, last.key, last.answers);
    HandledAdmin(u, last.key, last.answers);
    HitsSnoc(u.keys, last.key);
    if n + 1 < |events| {
      Shorter(first, events, n, p);
      PromptParity(first, before, n, p);
      assert before[..n + 1] == events[..n + 1];
    } else {
      FedAdmin(u, last.key);
    }
  }

  lemma FedAdmin(v: View, key: int)
    ensures Fed(v, key).admin == (v.admin != Completes(v.keys + [key]))
  {}

  lemma Shorter(first: Answers, events: seq<Event>, n: nat, p: Prompt)
    requires OpenSince(first, events, n, p) && n + 1 < |events|
    ensures OpenSince(first, events[..|events| - 1], n, p) && Run(first, events[..|events| - 1]).pending == p
  {
    hide Run, Fed;
    var before := events[..|events| - 1];
    assert before[..n] == events[..n];
    forall k | n < k <= |before| ensures Run(first, before[..k]).pending == p {
      assert before[..k] == events[..k];
    }
    assert before[..|before|] == before;
  }

  predicate IsAdminRequest(r: Request) { r.Restock? || r.SetPrice? }

  lemma AdminSent(v: View, key: int)
    requires Sent(v, key).Some? && IsAdminRequest(Sent(v, key).value)
    ensures IsAdminPrompt(v.pending)
  {}

  /** Every restock or price request comes from a prompt that was opened with the admin keys
      unlocked. They still are when it goes out if and only if the sequence has been typed into the
      prompt an even number of times. */
  lemma AdminRequest(first: Answers, events: seq<Event>, key: int) returns (n: nat)
    requires var w := Fed(Run(first, events), key); Sent(w, key).Some? && IsAdminRequest(Sent(w, key).value)
    ensures var w := Fed(Run(first, events), key);
      && OpenSince(first, events, n, w.pending)
      && (w.admin <==> (Hits(w.keys) - Hits(Run(first, events[..n + 1]).keys)) % 2 == 0)
  {
    hide Run, Sent, Hits, Completes, OpenSince;
    var v := Run(first, events);
    AdminSent(Fed(v, key), key);
    n := AdminPrompt(first, events);
    InRange(first, events, n, v.pending);
    PromptParity(first, events, n, v.pending);
    HitsSnoc(v.keys, key);
  }

  lemma InRange(first: Answers, events: seq<Event>, n: nat, p: Prompt)
    requires OpenSince(first, events, n, p)
    ensures n < |events|
  {}

  // ----- typing -----

  /** Some keys, each with the same answers. */
  function Typed(keys: seq<int>, a: Answers): (r: seq<Event>)
    ensures |r| == |keys| && forall i :: 0 <= i < |r| ==> r[i] == Event(keys[i], a)
  {
    if keys == [] then [] else Typed(keys[..|keys| - 1], a) + [Event(keys[|keys| - 1], a)]
  }

  /** Keys that neither open nor close a prompt nor call the server. */
  predicate IsIdle(key: int) {
    key in {KEY_LEFT, KEY_RIGHT, KEY_UP, KEY_DOWN, 'a' as int, 'b' as int}
  }

  predicate AllIdle(keys: seq<int>) { forall i :: 0 <= i < |keys| ==> IsIdle(keys[i]) }

  /** Same mode, same prompt, same products. */
  predicate SameMode(v: View, w: View) {
    w.serverDown == v.serverDown && w.pending == v.pending && w.buffer == v.buffer && w.products == v.products
  }

  lemma IdleHandled(v: View, key: int, a: Answers)
    requires IsIdle(key) && !v.serverDown
    ensures SameMode(v, Handled(v, key, a)) && Handled(v, key, a).keys == v.keys + [key]
  {
    hide Completes, Refreshed, Bought, Confirmed, Landing, Across;
  }

  lemma {:induction false} IdleTyped(first: Answers, events: seq<Event>, keys: seq<int>, a: Answers)
    requires AllIdle(keys) && !Run(first, events).serverDown
    ensures var v, w := Run(first, events), Run(first, events + Typed(keys, a));
      SameMode(v, w) && w.keys == v.keys + keys
    decreases |keys|
  {
    hide Run, Handled, IsIdle;
    if keys == [] {
      assert events + Typed(keys, a) == events;
    } else {
      var before, last := keys[..|keys| - 1], keys[|keys| - 1];
      IdleTyped(first, events, before, a);
      var done := events + Typed(before, a);
      assert events + Typed(keys, a) == done + [Event(last, a)];
      RunSnoc(first, done, last, a);
      IdleHandled(Run(first, done), last, a);
      assert before + [last] == keys;
    }
  }

  lemma {:induction false} AmountTyped(first: Answers, events: seq<Event>, text: bytes, a: Answers)
    requires AmountText(text) && !Run(first, events).serverDown && Run(first, events).pending != NoPrompt
    requires |Run(first, events).buffer| + |text| < PROMPT_BUF_LEN
    ensures var v, w := Run(first, events), Run(first, events + Typed(text, a));
      !w.serverDown && w.pending == v.pending && w.buffer == v.buffer + text && w.products == v.products
      && w.selected == v.selected
    decreases |text|
  {
    hide Run, Handled, IsAmountChar;
    if text == [] {
      assert events + Typed(text, a) == events;
    } else {
      var before, last := text[..|text| - 1], text[|text| - 1];
      AmountTyped(first, events, before, a);
      var done := events + Typed(before, a);
      assert events + Typed(text, a) == done + [Event(last, a)];
      RunSnoc(first, done, last, a);
      AmountHandled(Run(first, done), last, a);
      assert before + [last] == text;
    }
  }

  lemma AmountHandled(v: View, key: byte, a: Answers)
    requires IsAmountChar(key) && !v.serverDown && v.pending != NoPrompt && |v.buffer| + 1 < PROMPT_BUF_LEN
    ensures Handled(v, key, a) == Fed(v, key).(buffer := v.buffer + [key])
  {
    hide Completes;
  }

  /** The digits of an amount that a C int can hold fit the prompt. */
  lemma MoneyFits(gr: nat)
    requires gr <= INT_MAX
    ensures AmountText(MoneyText(gr)) && |MoneyText(gr)| < PROMPT_BUF_LEN
  {
    DigitsLength(gr / 100, 8);
    assert |TwoDigits(gr % 100)| == 2 by {
      DigitsLength(gr % 100, 2);
    }
  }

  lemma DepositKey(v: View, a: Answers)
    requires !v.serverDown && v.pending == NoPrompt
    ensures var w := Handled(v, 'd' as int, a); !w.serverDown && w.pending == DepositPrompt && w.buffer == []
  {
    hide Completes;
  }

  lemma EnterSends(v: View, gr: nat)
    requires !v.serverDown && v.pending == DepositPrompt && ParsedMoney(v.buffer) == Some(gr) && gr > 0
    ensures Sent(Fed(v, KEY_ENTER), KEY_ENTER) == Some(Deposit(gr))
  {
    hide Completes, ParsedMoney;
  }

  /** `d`, an amount as app_fmt_money prints it, and Enter ask for a deposit of just that amount. */
  lemma DepositTyped(first: Answers, events: seq<Event>, gr: nat, a: Answers)
    requires 0 < gr <= INT_MAX && !Run(first, events).serverDown && Run(first, events).pending == NoPrompt
    ensures var v := Run(first, events + [Event('d' as int, a)] + Typed(MoneyText(gr), a));
      Sent(Fed(v, KEY_ENTER), KEY_ENTER) == Some(Deposit(gr))
  {
    hide Run, Handled, Sent, MoneyText, ParsedMoney;
    var begun := events + [Event('d' as int, a)];
    RunSnoc(first, events, 'd' as int, a);
    DepositKey(Run(first, events), a);
    MoneyFits(gr);
    AmountTyped(first, begun, MoneyText(gr), a);
    MoneyRoundTrip(gr);
    assert [] + MoneyText(gr) == MoneyText(gr);
    EnterSends(Run(first, begun + Typed(MoneyText(gr), a)), gr);
  }

  // ----- a request with the admin keys locked -----

  /** No key is a locking Escape when none is an Escape. */
  lemma {:induction false} NoLocks(first: Answers, events: seq<Event>)
    requires forall i :: 0 <= i < |events| ==> events[i].key != ESCAPE
    ensures forall i :: 0 <= i < |events| ==> !Locks(Presses(first, events)[i])
    decreases |events|
  {
    hide Run;
    if events != [] {
      NoLocks(first, events[..|events| - 1]);
    }
  }

  lemma AdminByHits(first: Answers, events: seq<Event>)
    requires forall i :: 0 <= i < |events| ==> events[i].key != ESCAPE
    ensures Run(first, events).admin <==> Hits(Run(first, events).keys) % 2 == 1
  {
    hide Run, Hits, AdminAfter, Locks;
    NoLocks(first, events);
    AdminIs(first, events);
    AdminParity(Presses(first, events));
  }

  lemma {:induction false} FewKeys(keys: seq<int>)
    requires |keys| < 10
    ensures Hits(keys) == 0
  {
    if keys != [] {
      FewKeys(keys[..|keys| - 1]);
    }
  }

  /** Right behind an occurrence there is none for nine keys. */
  lemma {:induction false} HitsQuiet(keys: seq<int>, more: seq<int>)
    requires Completes(keys) && |more| < 10
    ensures Hits(keys + more) == Hits(keys)
    decreases |more|
  {
    hide Hits, Completes;
    if more == [] {
      assert keys + more == keys;
    } else {
      var before, last := more[..|more| - 1], more[|more| - 1];
      HitsQuiet(keys, before);
      HitsSnoc(keys + before, last);
      assert keys + before + [last] == keys + more && (keys + more)[..|keys|] == keys;
      if Completes(keys + more) {
        NoOverlap(keys + more, |keys|);
      }
    }
  }

  /** The sequence, another key, and the sequence again. */
  lemma TwoHits(key: int)
    requires key != KEY_UP
    ensures Hits(SEQUENCE) == 1 && Hits(SEQUENCE + [key]) == 1 && Hits(SEQUENCE + [key] + SEQUENCE) == 2
  {
    hide Hits;
    TenKeys();
    var head, nine := SEQUENCE[..9], [key] + SEQUENCE[..8];
    assert head + ['a' as int] == SEQUENCE && SEQUENCE[..8] + ['b' as int] == SEQUENCE[..9];
    FewKeys(head);
    assert Completes(SEQUENCE);
    HitsSnoc(head, 'a' as int);
    HitsQuiet(SEQUENCE, [key]);
    HitsQuiet(SEQUENCE, nine);
    var all := SEQUENCE + [key] + SEQUENCE;
    assert all == SEQUENCE + nine + ['b' as int] + ['a' as int];
    HitsSnoc(SEQUENCE + nine, 'b' as int);
    HitsSnoc(SEQUENCE + nine + ['b' as int], 'a' as int);
    assert all[|all| - 10..] == SEQUENCE;
    assert (SEQUENCE + nine + ['b' as int])[10..][0] == key;
  }

  lemma RestockKey(v: View, a: Answers)
    requires !v.serverDown && v.pending == NoPrompt && v.admin && v.products != []
    ensures Handled(v, 's' as int, a) == Fed(v, 's' as int).(pending := RestockPrompt, buffer := [])
  {
    hide Completes;
    NotLast(v, 's' as int);
  }

  lemma OneSends(v: View)
    requires !v.serverDown && v.pending == RestockPrompt && v.buffer == [49] && v.selected < |v.products|
    ensures Sent(Fed(v, KEY_ENTER), KEY_ENTER) == Some(Restock(v.products[v.selected].slotId, 1))
  {
    hide Completes;
    assert [49][..0] == [];
    assert DigitsValue([49]) == 1;
  }

  lemma AllStocked(a: Answers)
    requires a.stock.Fine? && a.balance.Fine?
    ensures var v := Run(a, []); v.products == a.products && !v.serverDown && v.pending == NoPrompt && v.keys == []
  {}

  lemma SequenceIdle()
    ensures AllIdle(SEQUENCE) && forall i :: 0 <= i < |SEQUENCE| ==> SEQUENCE[i] != ESCAPE
  {}

  /** Unlock, open the restock prompt, and type the sequence into it. */
  lemma LockedPrompt(a: Answers) returns (events: seq<Event>)
    requires a.stock.Fine? && a.balance.Fine? && |a.products| == 1
    ensures var v := Run(a, events);
      !v.admin && !v.serverDown && v.pending == RestockPrompt && v.buffer == [] && v.products == a.products
  {
    hide Run, Handled, Hits, Completes, SEQUENCE, Fed;
    SequenceIdle();
    TwoHits('s' as int);
    AllStocked(a);
    var once := Typed(SEQUENCE, a);
    IdleTyped(a, [], SEQUENCE, a);
    assert [] + once == once && [] + SEQUENCE == SEQUENCE;
    AdminByHits(a, once);
    RestockKey(Run(a, once), a);
    RunSnoc(a, once, 's' as int, a);
    var begun := once + [Event('s' as int, a)];
    FedIs(Run(a, once), 's' as int);
    IdleTyped(a, begun, SEQUENCE, a);
    events := begun + Typed(SEQUENCE, a);
    AdminByHits(a, events);
  }

  /** For instance: unlock, open the restock prompt, type the sequence into it, which locks the admin
      keys again, then `1` and Enter. The restock is asked for all the same. */
  lemma LockedRequest(a: Answers) returns (events: seq<Event>)
    requires a.stock.Fine? && a.balance.Fine? && |a.products| == 1
    ensures var v := Fed(Run(a, events), KEY_ENTER);
      !v.admin && Sent(v, KEY_ENTER) == Some(Restock(a.products[0].slotId, 1))
  {
    hide Run, Handled, Sent, Completes, Fed;
    var prompted := LockedPrompt(a);
    events := prompted + [Event(49, a)];
    AmountHandled(Run(a, prompted), 49, a);
    FedIs(Run(a, prompted), 49);
    RunSnoc(a, prompted, 49, a);
    NotLast(Run(a, prompted), 49);
    RunShape(a, events);
    OneSends(Run(a, events));
    NotLast(Run(a, events), KEY_ENTER);
  }

  lemma FedIs(v: View, key: int)
    ensures Fed(v, key) == v.(keys := v.keys + [key], admin := v.admin != Completes(v.keys + [key]))
  {}

  lemma NotLast(v: View, key: int)
    requires key != 'a' as int
    ensures Fed(v, key).admin == v.admin
  {
    var keys := v.keys + [key];
    assert |keys| >= 10 ==> keys[|keys| - 10..][9] == key;
  }
}
