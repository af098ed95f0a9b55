/** The laws of module LedgerLaws over whole runs, from the data init.sql seeds. */
module LedgerTheorems {
  import opened Bytes
  import opened LedgerTables
  import opened LedgerRuns
  import opened LedgerLaws

  /** The one cash-out that a CHECK rejects: the balance, cut to 32 bits, reads as negative. */
  predicate ReadsNegative(call: Call, db: Db) {
    call.CashOut? && call.user in db.users && ColumnInt(db.users[call.user]) < 0
  }

  lemma CallAccepted(call: Call, db: Db)
    requires RowsOk(db) && !Refused(call)
    ensures Accepted(call, First(call), db) <==> !ReadsNegative(call, db)
  {
    hide RowsOk, Rest, Accepted, ColumnInt, Restocked, Bought, Withdrawn, Deposited, CanBuy, UpsertFingerprint;
    match call
    case Deposit(user, amount) => DepositIs(user, amount, db);
    case Restock(slot, qty) => RestockIs(slot, qty, db);
    case Purchase(user, slot) => PurchaseIs(user, slot, db);
    case Lookup(fingerprint) => LookupIs(fingerprint, db);
    case CashOut(user) => CashOutIs(user, db);
  }

  /** A committed call keeps the rows and the stock, and raises the excess of one user exactly when
      it is a cash-out of a balance beyond a C int. */
  lemma CallKeeps(call: Call, db: Db) returns (user: int, more: nat)
    requires RowsOk(db) && Commits(call, db)
    ensures Keeps(db, Serial(call, db).1, user, more) && (more == 0 <==> Narrow(call, db))
  {
    hide RowsOk, Keeps, Rest, ColumnInt, Accepted, Restocked, Bought, Withdrawn, Deposited, CanBuy, BalanceLaw,
      UpsertFingerprint;
    match call
    case Deposit(u, amount) =>
      DepositIs(u, amount, db);
      DepositKeeps(u, amount, db);
      return u, 0;
    case Restock(slot, qty) =>
      RestockIs(slot, qty, db);
      RestockKeeps(slot, qty, db);
      return 0, 0;
    case Purchase(u, slot) =>
      PurchaseIs(u, slot, db);
      PurchaseKeeps(u, slot, db);
      return u, 0;
    case Lookup(fingerprint) =>
      LookupIs(fingerprint, db);
      LookupKeeps(fingerprint, db);
      return 0, 0;
    case CashOut(u) =>
      CashOutIs(u, db);
      CashOutKeeps(u, db);
      return u, db.users[u] - ColumnInt(db.users[u]);
  }

  /** No committed cash-out of the log met a balance beyond a C int. */
  ghost predicate NarrowLog(seed: Db, log: seq<Entry>) {
    forall k :: 0 <= k < |log| && log[k].Committed? ==> Narrow(log[k].call, Replay(seed, log[..k]))
  }

  lemma NarrowSnoc(seed: Db, log: seq<Entry>, e: Entry)
    ensures NarrowLog(seed, log + [e]) <==> NarrowLog(seed, log) && (e.Committed? ==> Narrow(e.call, Replay(seed, log)))
  {
    hide Narrow, Replay;
    var longer := log + [e];
    assert longer[|log|] == e && longer[..|log|] == log;
    assert forall k :: 0 <= k < |log| ==> longer[k] == log[k] && longer[..k] == log[..k];
  }

  /** Along any commit order rows and stock stay in order, no excess ever falls, and all of them
      stay what they were exactly when every cash-out met a balance within a C int. */
  lemma {:induction false} ReplayKeeps(seed: Db, log: seq<Entry>)
    requires RowsOk(seed) && Replays(seed, log)
    ensures var d := Replay(seed, log);
      && RowsOk(d) && (StockLaw(seed) ==> StockLaw(d))
      && (forall u :: Excess(d, u) >= Excess(seed, u))
      && (NarrowLog(seed, log) <==> forall u :: Excess(d, u) == Excess(seed, u))
    decreases |log|
  {
    hide RowsOk, StockLaw, Serial, Narrow, NarrowLog, Rest, SetPrice, Excess, Commits;
    if log == [] {
      NarrowNothing(seed);
    } else {
      var rest, last := log[..|log| - 1], log[|log| - 1];
      assert log == rest + [last];
      ReplayKeeps(seed, rest);
      NarrowSnoc(seed, rest, last);
      match last
      case Committed(_, call, _) =>
        var user, more := CallKeeps(call, Replay(seed, rest));
        assert Excess(Replay(seed, log), user) == Excess(Replay(seed, rest), user) + more;
      case Priced(item, price) => SetPriceKeeps(Replay(seed, rest), item, price);
    }
  }

  lemma NarrowNothing(seed: Db)
    ensures NarrowLog(seed, []) && Replay(seed, []) == seed
  {}

  /** In every committed state of every run, whatever interleaves and whatever fails: balances are
      non-negative, the stock is non-negative and equals the stock log, removals are purchases,
      prices are positive; and each balance is the sum of its user's transactions if and only if
      no committed cash-out met a balance beyond a C int. */
  lemma BooksBalance(seed: Db, events: seq<Event>)
    requires Sound(seed)
    ensures var s := Run(Initial(seed), events);
      && RowsOk(Durable(s)) && StockLaw(Durable(s))
      && (BalanceLaw(Durable(s)) <==> NarrowLog(seed, s.log))
  {
    hide RowsOk, StockLaw, Excess, NarrowLog, Replay, Replays, Logged, OneOwner, Run;
    Serialisable(seed, events);
    ReplayKeeps(seed, Run(Initial(seed), events).log);
  }

  // ----- no statement is rejected -----

  lemma {:induction false} AcceptedCommutes(call: Call, pc: Pc, db: Db, item: int, price: int)
    requires Fits(call, pc) && !pc.Begin? && !pc.Finished? && pc != First(call)
    ensures Accepted(call, pc, SetPrice(db, item, price)) <==> Accepted(call, pc, db)
    decreases Rank(pc)
  {
    hide SetPrice, Rest, Execute;
    if InBody(pc) {
      ExecuteCommutes(call, pc, db, item, price);
      ExecuteAdvances(call, pc, db);
      var r := Execute(call, pc, db);
      if r.Some? {
        AcceptedCommutes(call, r.value.pc, r.value.db, item, price);
      }
    }
  }

  lemma ExecuteCommutes(call: Call, pc: Pc, db: Db, item: int, price: int)
    requires InBody(pc) && Fits(call, pc) && pc != First(call)
    ensures Execute(call, pc, SetPrice(db, item, price))
         == match Execute(call, pc, db)
            case None => None
            case Some(r) => Some(Ran(r.pc, SetPrice(r.db, item, price)))
  {}

  /** What a cash-out still carries is what the column read when it began. */
  predicate Carries(call: Call, pc: Pc, seen: Db) {
    pc.ZeroBalance? || pc.LogWithdrawal? ==>
      call.CashOut? && call.user in seen.users && pc.balance == ColumnInt(seen.users[call.user])
  }

  /** A transaction whose statements were all going to be accepted still has only such
      statements ahead. */
  ghost predicate StillAccepted(s: State) {
    s.tx.Some? && s.tx.value.owner in s.jobs ==>
      var Job(call, pc) := s.jobs[s.tx.value.owner];
      && (Fits(call, pc) && InTransaction(pc) && InBody(pc) && Accepted(call, First(call), Seen(s.tx.value)) ==>
          Accepted(call, pc, s.db))
      && Carries(call, pc, Seen(s.tx.value))
  }

  lemma AcceptedKeeps(seed: Db, s: State, e: Event)
    requires Inv(seed, s) && StillAccepted(s)
    ensures StillAccepted(Next(s, e))
  {
    hide AdvanceJob, RepriceNow, Rest, Accepted, Execute, Replays, Replay, First, Seen, SetPrice;
    match e
    case Start(id, call) => StartAccepted(s, id, call);
    case Reprice(item, price, fault) =>
      if price > 0 && !fault {
        RepriceAccepted(seed, s, item, price);
      }
    case Advance(id, fault) =>
      if id in s.jobs {
        AdvanceAccepted(seed, s, id, fault);
      }
  }

  lemma StartAccepted(s: State, id: nat, call: Call)
    requires OneOwner(s) && StillAccepted(s)
    ensures StillAccepted(Next(s, Start(id, call)))
  {
    hide Accepted, First, Seen, Refused, Carries;
  }

  lemma RepriceAccepted(seed: Db, s: State, item: cint, price: cint)
    requires Inv(seed, s) && StillAccepted(s)
    ensures StillAccepted(RepriceNow(s, item, price))
  {
    hide Rest, Accepted, Execute, Replays, Replay, Refused, First, Seen, SetPrice, AllPriced, Carries;
    if s.tx.Some? {
      var Job(call, pc) := s.jobs[s.tx.value.owner];
      FirstFits(call);
      CarriesNothing(call, Seen(RepriceNow(s, item, price).tx.value));
      SeenUnfolds(RepriceNow(s, item, price).tx.value);
      SeenUnfolds(s.tx.value);
      if pc == First(call) {
        SerialIsReplay(s.tx.value.before, Priced(item, price), s.tx.value.saved);
      } else {
        AcceptedCommutes(call, pc, s.db, item, price);
      }
    }
  }

  lemma AdvanceAccepted(seed: Db, s: State, id: nat, fault: bool)
    requires Inv(seed, s) && StillAccepted(s) && id in s.jobs
    ensures StillAccepted(AdvanceJob(s, id, fault))
  {
    hide Rest, Accepted, Execute, Replays, Replay, Refused, First, Seen, Move, SetPrice, AllPriced, Carries;
    var Job(call, pc) := s.jobs[id];
    FirstFits(call);
    if s.tx.None? {
      if pc.Begin? {
        SeenNothing(Tx(id, s.db, [], []));
        CarriesNothing(call, s.db);
      }
    } else if InBody(pc) && !fault {
      AcceptedMove(call, pc, s.db);
      if s.tx.value.owner == id {
        CarriesOn(call, pc, s.db, Seen(s.tx.value));
      }
    } else {
      EndCarries(call, Seen(s.tx.value));
    }
  }

  lemma CarriesNothing(call: Call, seen: Db)
    ensures Carries(call, First(call), seen)
  {}

  lemma EndCarries(call: Call, seen: Db)
    ensures forall o :: Carries(call, Rollback(o), seen)
  {}

  lemma CarriesOn(call: Call, pc: Pc, db: Db, seen: Db)
    requires InBody(pc) && Fits(call, pc) && Carries(call, pc, seen) && (pc == First(call) ==> db == seen)
    ensures Carries(call, Move(call, pc, db).pc, seen)
  {}

  lemma SeenUnfolds(tx: Tx)
    ensures Seen(tx) == Replay(tx.saved, tx.before)
  {}

  lemma SeenNothing(tx: Tx)
    requires tx.before == []
    ensures Seen(tx) == tx.saved
  {}

  lemma AcceptedMove(call: Call, pc: Pc, db: Db)
    requires InBody(pc) && Fits(call, pc)
    ensures Fits(call, Move(call, pc, db).pc)
    ensures Accepted(call, pc, db) ==>
        Execute(call, pc, db).Some? && Accepted(call, Move(call, pc, db).pc, Move(call, pc, db).db)
  {}

  lemma {:induction false} RunAccepted(seed: Db, events: seq<Event>)
    ensures StillAccepted(Run(Initial(seed), events))
    decreases |events|
  {
    hide Inv, StillAccepted;
    if events == [] {
      assert StillAccepted(Initial(seed)) by { InitialAccepted(seed); }
    } else {
      var before := events[..|events| - 1];
      RunKeeps(seed, before);
      RunAccepted(seed, before);
      AcceptedKeeps(seed, Run(Initial(seed), before), events[|events| - 1]);
    }
  }

  lemma InitialAccepted(seed: Db)
    ensures StillAccepted(Initial(seed))
  {}

  lemma {:induction false} PricedKeeps(db: Db, log: seq<Entry>)
    requires RowsOk(db) && AllPriced(log)
    ensures RowsOk(Replay(db, log)) && Replay(db, log).users == db.users
    decreases |log|
  {
    hide RowsOk, StockLaw, Excess;
    if log != [] {
      PricedKeeps(db, log[..|log| - 1]);
      SetPriceKeeps(Replay(db, log[..|log| - 1]), log[|log| - 1].item, log[|log| - 1].price);
    }
  }

  /** In every reachable state, a CHECK or a foreign key rejects the next statement of the open
      transaction if and only if it is the log row of a cash-out whose balance, cut to 32 bits, was
      read as negative. */
  lemma NothingRejected(seed: Db, events: seq<Event>)
    requires var s := Run(Initial(seed), events);
      Sound(seed) && s.tx.Some? && s.tx.value.owner in s.jobs && InBody(s.jobs[s.tx.value.owner].pc)
    ensures var s := Run(Initial(seed), events);
      var Job(call, pc) := s.jobs[s.tx.value.owner];
      Fits(call, pc) && (Execute(call, pc, s.db).None? <==> pc.LogWithdrawal? && pc.balance < 0)
  {
    hide RowsOk, StockLaw, BalanceLaw, NarrowLog, Run, Rest, Execute, Accepted, Move, Replays, Replay, First,
      AllPriced, ColumnInt;
    var s := Run(Initial(seed), events);
    var tx := s.tx.value;
    var Job(call, pc) := s.jobs[tx.owner];
    RunKeeps(seed, events);
    RunAccepted(seed, events);
    BooksBalance(seed, events);
    PricedKeeps(tx.saved, tx.before);
    CallAccepted(call, Seen(tx));
    NextAccepted(call, pc, s.db);
  }

  lemma NextAccepted(call: Call, pc: Pc, db: Db)
    requires InBody(pc) && Fits(call, pc)
    ensures Accepted(call, pc, db) ==> Execute(call, pc, db).Some?
    ensures call.CashOut? && !pc.LogWithdrawal? ==> Execute(call, pc, db).Some?
    ensures pc.LogWithdrawal? && pc.balance < 0 ==> Execute(call, pc, db).None?
  {}

  // ----- init.sql -----

  /** One line of the machine: slot, price and quantity; the item ids count from 1. */
  datatype Row = Row(slot: int, price: int, quantity: int)

  const ROW_A: seq<Row> :=
      [Row(11, 500, 18), Row(12, 500, 18), Row(13, 500, 18), Row(14, 400, 20), Row(15, 500, 15), Row(16, 550, 12)]
  const ROW_B: seq<Row> :=
      [Row(21, 350, 24), Row(22, 650, 12), Row(23, 600, 12), Row(24, 500, 15), Row(25, 650, 10), Row(26, 800, 10)]
  const ROW_C: seq<Row> :=
      [Row(31, 500, 15), Row(32, 550, 15), Row(33, 400, 18), Row(34, 400, 18), Row(35, 450, 15), Row(36, 500, 15)]
  const ROW_D: seq<Row> :=
      [Row(41, 450, 20), Row(42, 400, 20), Row(43, 550, 18), Row(44, 500, 15), Row(45, 450, 18), Row(46, 550, 18)]
  const ROW_E: seq<Row> :=
      [Row(51, 650, 12), Row(52, 1000, 10), Row(53, 650, 12), Row(54, 600, 12), Row(55, 650, 10), Row(56, 500, 15)]
  const SEED_ROWS: seq<Row> := ROW_A + ROW_B + ROW_C + ROW_D + ROW_E

  function SeedDb(rows: seq<Row>): Db {
    if rows == [] then Db(map[], map[], 0, map[], map[], [], [])
    else
      var n, db, row := |rows|, SeedDb(rows[..|rows| - 1]), rows[|rows| - 1];
      db.(items := db.items[n := row.price], stock := db.stock[row.slot := Slot(n, row.quantity)],
          stockLogs := db.stockLogs + [StockLog(n, Addition, row.quantity)])
  }

  predicate GoodRow(row: Row) { 0 < row.price <= INT_MAX && row.quantity > 0 }

  /** Slots ascend, so no two rows share one. */
  predicate GoodRows(rows: seq<Row>) {
    && |rows| <= INT_MAX
    && (forall i :: 0 <= i < |rows| ==> GoodRow(rows[i]))
    && (forall i, j :: 0 <= i < j < |rows| ==> rows[i].slot < rows[j].slot)
  }

  lemma {:induction false} SeedIsSound(rows: seq<Row>)
    requires GoodRows(rows)
    ensures Sound(SeedDb(rows))
    ensures forall i :: i in SeedDb(rows).items ==> 1 <= i <= |rows|
    ensures forall k :: k in SeedDb(rows).stock ==> rows != [] && k <= rows[|rows| - 1].slot
    decreases |rows|
  {
    hide InSlots, ChangeOf, AmountFor, PurchasesOf, RemovalsOf, Sound;
    if rows == [] {
      EmptyIsSound();
    } else {
      SeedIsSound(rows[..|rows| - 1]);
      AddRowKeeps(SeedDb(rows[..|rows| - 1]), |rows|, rows[|rows| - 1]);
    }
  }

  lemma AddRowKeeps(db: Db, n: nat, row: Row)
    requires Sound(db) && GoodRow(row) && n !in db.items && 0 < n <= INT_MAX && row.slot !in db.stock
    ensures Sound(db.(items := db.items[n := row.price], stock := db.stock[row.slot := Slot(n, row.quantity)],
                      stockLogs := db.stockLogs + [StockLog(n, Addition, row.quantity)]))
  {
    hide InSlots, ChangeOf, AmountFor, PurchasesOf, RemovalsOf;
    var d := db.(items := db.items[n := row.price], stock := db.stock[row.slot := Slot(n, row.quantity)],
                 stockLogs := db.stockLogs + [StockLog(n, Addition, row.quantity)]);
    forall i ensures InSlots(d.stock, i) == InSlots(db.stock, i) + if i == n then row.quantity else 0 {
      InSlotsPick(d.stock, i, row.slot);
      assert d.stock - {row.slot} == db.stock;
    }
    BooksAfter(db, d, 0, 0, 0, n, row.quantity);
  }

  lemma EmptyIsSound()
    ensures Sound(SeedDb([]))
  {}

  lemma SeedRowsAreGood()
    ensures GoodRows(SEED_ROWS)
  {
    hide SEED_ROWS, ROW_A, ROW_B, ROW_C, ROW_D, ROW_E;
    MachineRows();
    Stacked(ROW_A, ROW_B, 11, 21);
    Stacked(ROW_A + ROW_B, ROW_C, 11, 31);
    Stacked(ROW_A + ROW_B + ROW_C, ROW_D, 11, 41);
    Stacked(ROW_A + ROW_B + ROW_C + ROW_D, ROW_E, 11, 51);
    SeedRowsAre();
  }

  /** Rows whose slots lie between two numbers. */
  predicate Within(rows: seq<Row>, low: int, high: int) {
    GoodRows(rows) && forall i :: 0 <= i < |rows| ==> low <= rows[i].slot < high
  }

  lemma Stacked(a: seq<Row>, b: seq<Row>, low: int, mid: int)
    requires low <= mid && Within(a, low, mid) && Within(b, mid, mid + 10) && |a| + |b| <= INT_MAX
    ensures Within(a + b, low, mid + 10)
  {}

  lemma MachineRows()
    ensures |ROW_A| == |ROW_B| == |ROW_C| == |ROW_D| == |ROW_E| == 6
    ensures Within(ROW_A, 11, 21) && Within(ROW_B, 21, 31) && Within(ROW_C, 31, 41) && Within(ROW_D, 41, 51)
        && Within(ROW_E, 51, 61)
  {
    SixRows(ROW_A, 11);
    SixRows(ROW_B, 21);
    SixRows(ROW_C, 31);
    SixRows(ROW_D, 41);
    SixRows(ROW_E, 51);
  }

  lemma SixRows(rows: seq<Row>, base: int)
    requires |rows| == 6
    requires rows[0].slot == base && rows[1].slot == base + 1 && rows[2].slot == base + 2
    requires rows[3].slot == base + 3 && rows[4].slot == base + 4 && rows[5].slot == base + 5
    requires GoodRow(rows[0]) && GoodRow(rows[1]) && GoodRow(rows[2]) && GoodRow(rows[3]) && GoodRow(rows[4])
        && GoodRow(rows[5])
    ensures Within(rows, base, base + 10)
  {}

  lemma SeedRowsAre()
    ensures SEED_ROWS == ROW_A + ROW_B + ROW_C + ROW_D + ROW_E
  {}

  /** The theorem from init.sql on. */
  lemma SeededBooksBalance(events: seq<Event>)
    ensures var seed := SeedDb(SEED_ROWS);
      var s := Run(Initial(seed), events);
      && RowsOk(Durable(s)) && StockLaw(Durable(s))
      && (BalanceLaw(Durable(s)) <==> NarrowLog(seed, s.log))
  {
    hide Sound, RowsOk, StockLaw, BalanceLaw, SeedDb, Run, NarrowLog;
    SeedRowsAreGood();
    SeedIsSound(SEED_ROWS);
    BooksBalance(SeedDb(SEED_ROWS), events);
  }
}
