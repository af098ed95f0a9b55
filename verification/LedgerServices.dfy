/** The services as they run on the connection: one statement after the other, a rollback on
    every failure. Any statement may fail: `fault(k)` is the k-th one of a call, its
    sqlite3_prepare_v2 included. */
module LedgerServices {
  import opened Bytes
  import opened LedgerTables
  import opened LedgerRuns

  /** What is left of a call inside its transaction, when nobody interferes: its outcome and
      the tables it leaves. */
  ghost function Alone(call: Call, pc: Pc, db: Db, saved: Db, fault: nat -> bool, k: nat): (Outcome, Db)
    requires Fits(call, pc) && !pc.Begin? && !pc.Finished?
    decreases Rank(pc)
  {
    if InBody(pc) then
      if fault(k) then (Failed, saved)
      else
        var r := Move(call, pc, db);
        Alone(call, r.pc, r.db, saved, fault, k + 1)
    else if pc.Commit? && !fault(k) then (pc.outcome, db)
    else (if pc.Commit? then Failed else pc.outcome, saved)
  }

  lemma AloneAt(call: Call, pc: Pc, db: Db, saved: Db, fault: nat -> bool, k: nat)
    requires Fits(call, pc) && InBody(pc)
    ensures match Execute(call, pc, db)
            case None => Alone(call, pc, db, saved, fault, k) == (Failed, saved)
            case Some(r) =>
              && Fits(call, r.pc) && !r.pc.Begin? && !r.pc.Finished?
              && Alone(call, pc, db, saved, fault, k)
                 == if fault(k) then (Failed, saved) else Alone(call, r.pc, r.db, saved, fault, k + 1)
  {
    hide Execute;
    ExecuteAdvances(call, pc, db);
  }

  lemma AloneEnds(call: Call, pc: Pc, db: Db, saved: Db, fault: nat -> bool, k: nat)
    requires pc.Commit? || pc.Rollback?
    ensures Alone(call, pc, db, saved, fault, k)
         == if pc.Commit? && !fault(k) then (pc.outcome, db) else (if pc.Commit? then Failed else pc.outcome, saved)
  {}

  /** A position that only writes. */
  ghost function Written(call: Call, d: Option<Db>, next: Pc, saved: Db, fault: nat -> bool, k: nat): (Outcome, Db)
    requires Fits(call, next) && !next.Begin? && !next.Finished?
  {
    if fault(k) || d.None? then (Failed, saved) else Alone(call, next, d.value, saved, fault, k + 1)
  }

  lemma DepositAlone(user: cint, amount: cint, db: Db, saved: Db, fault: nat -> bool, k: nat)
    ensures var call := Deposit(user, amount);
      && Alone(call, Credit, db, saved, fault, k)
          == Written(call, UpsertBalance(db, user, amount), LogDeposit, saved, fault, k)
      && Alone(call, LogDeposit, db, saved, fault, k)
      == Written(call, InsertTransaction(db, Transaction(DepositRow, user, None, None, amount)), Commit(Succeeded),
                 saved, fault, k)
  {
    hide Alone, ColumnInt, UpsertBalance, InsertTransaction;
    AloneAt(Deposit(user, amount), Credit, db, saved, fault, k);
    AloneAt(Deposit(user, amount), LogDeposit, db, saved, fault, k);
  }

  lemma PayOutAlone(user: cint, balance: cint, db: Db, saved: Db, fault: nat -> bool, k: nat)
    ensures var call := CashOut(user);
      && Alone(call, ZeroBalance(balance), db, saved, fault, k)
      == Written(call, SetBalance(db, user, 0), LogWithdrawal(balance), saved, fault, k)
      && Alone(call, LogWithdrawal(balance), db, saved, fault, k)
      == Written(call, InsertTransaction(db, Transaction(WithdrawalRow, user, None, None, -(balance as int))),
                 Commit(Refunded(balance)), saved, fault, k)
  {
    hide Alone, ColumnInt, SetBalance, InsertTransaction;
    AloneAt(CashOut(user), ZeroBalance(balance), db, saved, fault, k);
    AloneAt(CashOut(user), LogWithdrawal(balance), db, saved, fault, k);
  }

  lemma RestockAlone(slot: cint, qty: cint, db: Db, saved: Db, fault: nat -> bool, k: nat)
    ensures var call := Restock(slot, qty);
      Alone(call, Replenish, db, saved, fault, k) == Written(call, AddToStock(db, slot, qty), FindSlot, saved, fault, k)
  {
    hide Alone, ColumnInt, AddToStock;
    AloneAt(Restock(slot, qty), Replenish, db, saved, fault, k);
  }

  class Connection {
    var users: map<int, int>
    var fingerprints: map<string, int>
    var lastUser: int
    var items: map<int, int>
    var stock: map<int, Slot>
    var transactions: seq<Transaction>
    var stockLogs: seq<StockLog>
    /** The tables at BEGIN while a transaction is open. */
    var saved: Option<Db>

    function Tables(): Db
      reads this
    {
      Db(users, fingerprints, lastUser, items, stock, transactions, stockLogs)
    }

    constructor (db: Db)
      ensures Tables() == db && saved.None?
    {
      users, fingerprints, lastUser, items := db.users, db.fingerprints, db.lastUser, db.items;
      stock, transactions, stockLogs, saved := db.stock, db.transactions, db.stockLogs, None;
    }

    // ----- statements -----

    /** `BEGIN IMMEDIATE TRANSACTION` fails inside a transaction. */
    method BeginTransaction(fault: bool) returns (ok: bool)
      modifies `saved
      ensures ok <==> !fault && old(saved).None?
      ensures saved == if ok then Some(Tables()) else old(saved)
    {
      if fault || saved.Some? {
        return false;
      }
      saved := Some(Tables());
      return true;
    }

    method CommitTransaction(fault: bool) returns (ok: bool)
      modifies `saved
      ensures ok <==> !fault && old(saved).Some?
      ensures saved == if ok then None else old(saved)
    {
      if fault || saved.None? {
        return false;
      }
      saved := None;
      return true;
    }

    method RollbackTransaction()
      modifies this
      ensures saved.None? && Tables() == if old(saved).Some? then old(saved).value else old(Tables())
    {
      if saved.Some? {
        var db := saved.value;
        users, fingerprints, lastUser, items := db.users, db.fingerprints, db.lastUser, db.items;
        stock, transactions, stockLogs, saved := db.stock, db.transactions, db.stockLogs, None;
      }
    }

    /** A write either does what its function says or, failing or rejected, nothing. */
    ghost predicate Wrote(before: Db, result: Option<Db>, fault: bool, ok: bool)
      reads this
    {
      && (ok <==> !fault && result.Some?)
      && Tables() == if ok then result.value else before
    }

    method UpdateBalance(user: int, balance: int, fault: bool) returns (ok: bool)
      modifies `users
      ensures Wrote(old(Tables()), SetBalance(old(Tables()), user, balance), fault, ok)
    {
      if fault || (user in users && balance < 0) {
        return false;
      }
      if user in users {
        users := users[user := balance];
      }
      return true;
    }

    method AddBalance(user: int, amount: int, fault: bool) returns (ok: bool)
      modifies `users
      ensures Wrote(old(Tables()), AddToBalance(old(Tables()), user, amount), fault, ok)
    {
      ok := UpdateBalance(user, if user in users then users[user] + amount else 0, fault);
    }

    method InsertOrAddBalance(user: int, amount: int, fault: bool) returns (ok: bool)
      modifies `users, `lastUser
      ensures Wrote(old(Tables()), UpsertBalance(old(Tables()), user, amount), fault, ok)
    {
      if user in users {
        ok := AddBalance(user, amount, fault);
        return;
      }
      if fault || amount < 0 {
        return false;
      }
      users := users[user := amount];
      if user > lastUser {
        lastUser := user;
      }
      return true;
    }

    method AddStock(slot: int, change: int, fault: bool) returns (ok: bool)
      modifies `stock
      ensures Wrote(old(Tables()), AddToStock(old(Tables()), slot, change), fault, ok)
    {
      if fault || (slot in stock && stock[slot].quantity + change < 0) {
        return false;
      }
      if slot in stock {
        stock := stock[slot := stock[slot].(quantity := stock[slot].quantity + change)];
      }
      return true;
    }

    method LogTransaction(t: Transaction, fault: bool) returns (ok: bool)
      modifies `transactions
      ensures Wrote(old(Tables()), InsertTransaction(old(Tables()), t), fault, ok)
    {
      if fault || !TransactionCheck(t) || t.user !in users || (t.item.Some? && t.item.value !in items) {
        return false;
      }
      transactions := transactions + [t];
      return true;
    }

    /** db_log_stock_change: find the slot's item, then log the change under it. */
    method LogStockChange(slot: int, kind: ChangeKind, change: int, faultFind: bool, faultLog: bool) returns (ok: bool)
      modifies `stockLogs
      ensures Wrote(old(Tables()),
                    if slot in stock
                    then InsertStockLog(old(Tables()), StockLog(ColumnInt(stock[slot].item), kind, change))
                    else None,
                    faultFind || faultLog, ok)
    {
      if faultFind || slot !in stock {
        return false;
      }
      var l := StockLog(ColumnInt(stock[slot].item), kind, change);
      if faultLog || !StockLogCheck(l) || l.item !in items {
        return false;
      }
      stockLogs := stockLogs + [l];
      return true;
    }

    // ----- services -----

    /** What every service promises: nothing while somebody else's transaction is open, and
        otherwise what the call does alone, with the transaction closed again. */
    ghost predicate Ran(call: Call, fault: nat -> bool, before: Db, open: Option<Db>, outcome: Outcome)
      reads this
    {
      if Refused(call) || fault(0) || open.Some? then outcome == Failed && Tables() == before && saved == open
      else saved.None? && (outcome, Tables()) == Alone(call, First(call), before, before, fault, 1)
    }

    /** COMMIT, and ROLLBACK when it fails. */
    method EndCall(result: Outcome, fault: nat -> bool, k: nat, ghost call: Call, ghost db: Db)
        returns (outcome: Outcome)
      requires saved == Some(db)
      modifies this
      ensures saved.None? && (outcome, Tables()) == Alone(call, Commit(result), old(Tables()), db, fault, k)
    {
      AloneEnds(call, Commit(result), Tables(), db, fault, k);
      var ok := CommitTransaction(fault(k));
      if ok {
        return result;
      }
      RollbackTransaction();
      return Failed;
    }

    /** balance_deposit */
    method BalanceDeposit(user: cint, amount: cint, fault: nat -> bool) returns (outcome: Outcome)
      modifies this
      ensures Ran(Deposit(user, amount), fault, old(Tables()), old(saved), outcome)
      ensures old(saved).Some? ==> outcome == Failed && Tables() == old(Tables()) && saved == old(saved)
    {
      hide Alone, ColumnInt, Execute, Rank, UpsertFingerprint, AddToBalance, SetBalance, AddToStock,
        InsertTransaction, InsertStockLog, UpsertBalance;
      ghost var call, db := Deposit(user, amount), Tables();
      if amount <= 0 {
        return Failed;
      }
      var ok := BeginTransaction(fault(0));
      if !ok {
        return Failed;
      }
      DepositAlone(user, amount, db, db, fault, 1);
      ok := InsertOrAddBalance(user, amount, fault(1));
      if !ok {
        RollbackTransaction();
        return Failed;
      }
      DepositAlone(user, amount, Tables(), db, fault, 2);
      ok := LogTransaction(Transaction(DepositRow, user, None, None, amount), fault(2));
      if !ok {
        RollbackTransaction();
        return Failed;
      }
      outcome := EndCall(Succeeded, fault, 3, call, db);
    }

    /** balance_reset */
    method BalanceReset(user: cint, fault: nat -> bool) returns (outcome: Outcome)
      modifies this
      ensures Ran(CashOut(user), fault, old(Tables()), old(saved), outcome)
      ensures old(saved).Some? ==> outcome == Failed && Tables() == old(Tables()) && saved == old(saved)
    {
      hide Alone, ColumnInt, UpsertFingerprint, AddToBalance, SetBalance, AddToStock, InsertTransaction,
        InsertStockLog, UpsertBalance;
      ghost var call, db := CashOut(user), Tables();
      var ok := BeginTransaction(fault(0));
      if !ok {
        return Failed;
      }
      AloneAt(call, SelectRefund, db, db, fault, 1);
      if fault(1) {
        RollbackTransaction();
        return Failed;
      }
      if user !in users {
        AloneEnds(call, Rollback(NotFound), db, db, fault, 2);
        RollbackTransaction();
        return NotFound;
      }
      var balance := ColumnInt(users[user]);
      if balance == 0 {
        AloneEnds(call, Rollback(Refunded(0)), db, db, fault, 2);
        RollbackTransaction();
        return Refunded(0);
      }
      outcome := PayOut(user, balance, fault, db);
    }

    /** The writes of balance_reset. */
    method PayOut(user: cint, balance: cint, fault: nat -> bool, ghost db: Db) returns (outcome: Outcome)
      requires saved == Some(db)
      modifies this
      ensures saved.None?
          && (outcome, Tables()) == Alone(CashOut(user), ZeroBalance(balance), old(Tables()), db, fault, 2)
    {
      hide Alone, ColumnInt, Execute, Rank, UpsertFingerprint, AddToBalance, SetBalance, AddToStock,
        InsertTransaction, InsertStockLog, UpsertBalance;
      ghost var call := CashOut(user);
      var ok;
      PayOutAlone(user, balance, Tables(), db, fault, 2);
      ok := UpdateBalance(user, 0, fault(2));
      if !ok {
        RollbackTransaction();
        return Failed;
      }
      PayOutAlone(user, balance, Tables(), db, fault, 3);
      ok := LogTransaction(Transaction(WithdrawalRow, user, None, None, -(balance as int)), fault(3));
      if !ok {
        RollbackTransaction();
        return Failed;
      }
      outcome := EndCall(Refunded(balance), fault, 4, call, db);
    }

    /** product_restock */
    method ProductRestock(slot: cint, qty: cint, fault: nat -> bool) returns (outcome: Outcome)
      modifies this
      ensures Ran(Restock(slot, qty), fault, old(Tables()), old(saved), outcome)
      ensures old(saved).Some? ==> outcome == Failed && Tables() == old(Tables()) && saved == old(saved)
    {
      hide Alone, ColumnInt, Execute, Rank, UpsertFingerprint, AddToBalance, SetBalance, AddToStock,
        InsertTransaction, InsertStockLog, UpsertBalance;
      ghost var call, db := Restock(slot, qty), Tables();
      if qty <= 0 {
        return Failed;
      }
      var ok := BeginTransaction(fault(0));
      if !ok {
        return Failed;
      }
      RestockAlone(slot, qty, db, db, fault, 1);
      ok := AddStock(slot, qty, fault(1));
      if !ok {
        RollbackTransaction();
        return Failed;
      }
      LogAlone(call, Tables(), db, fault, 2);
      ok := LogStockChange(slot, Addition, qty, fault(2), fault(3));
      if !ok {
        RollbackTransaction();
        return Failed;
      }
      outcome := EndCall(Succeeded, fault, 4, call, db);
    }

    /** orders_purchase */
    method OrdersPurchase(user: cint, slot: cint, fault: nat -> bool) returns (outcome: Outcome)
      modifies this
      ensures Ran(Purchase(user, slot), fault, old(Tables()), old(saved), outcome)
      ensures old(saved).Some? ==> outcome == Failed && Tables() == old(Tables()) && saved == old(saved)
    {
      hide Alone, ColumnInt, UpsertFingerprint, AddToBalance, SetBalance, AddToStock, InsertTransaction,
        InsertStockLog, UpsertBalance;
      ghost var call, db := Purchase(user, slot), Tables();
      var ok := BeginTransaction(fault(0));
      if !ok {
        return Failed;
      }
      AloneAt(call, SelectItem, db, db, fault, 1);
      if fault(1) || slot !in stock || stock[slot].item !in items {
        AloneEnds(call, Rollback(Failed), db, db, fault, 2);
        RollbackTransaction();
        return Failed;
      }
      var item, price, quantity := ColumnInt(stock[slot].item), ColumnInt(items[stock[slot].item]),
          ColumnInt(stock[slot].quantity);
      if quantity <= 0 {
        AloneEnds(call, Rollback(Failed), db, db, fault, 2);
        RollbackTransaction();
        return Failed;
      }
      AloneAt(call, SelectBalance(item, price), db, db, fault, 2);
      if fault(2) || user !in users {
        AloneEnds(call, Rollback(Failed), db, db, fault, 3);
        RollbackTransaction();
        return Failed;
      }
      var balance := ColumnInt(users[user]);
      if balance < price {
        AloneEnds(call, Rollback(Failed), db, db, fault, 3);
        RollbackTransaction();
        return Failed;
      }
      outcome := FinishPurchase(user, slot, item, price, fault, db);
    }

    /** The writes of orders_purchase, from the debit on. */
    method FinishPurchase(user: cint, slot: cint, item: cint, price: cint, fault: nat -> bool, ghost db: Db)
        returns (outcome: Outcome)
      requires saved == Some(db)
      modifies this
      ensures saved.None?
          && (outcome, Tables()) == Alone(Purchase(user, slot), Debit(item, price), old(Tables()), db, fault, 3)
    {
      hide Alone, ColumnInt, UpsertFingerprint, AddToBalance, SetBalance, AddToStock, InsertTransaction,
        InsertStockLog, UpsertBalance;
      ghost var call := Purchase(user, slot);
      AloneAt(call, Debit(item, price), Tables(), db, fault, 3);
      var ok := AddBalance(user, -(price as int), fault(3));
      if !ok {
        RollbackTransaction();
        return Failed;
      }
      AloneAt(call, Decrement(item, price), Tables(), db, fault, 4);
      ok := AddStock(slot, -1, fault(4));
      if !ok {
        RollbackTransaction();
        return Failed;
      }
      outcome := LogAndCommit(user, slot, item, price, fault, db);
    }

    /** The two log rows of orders_purchase, and its COMMIT. */
    method LogAndCommit(user: cint, slot: cint, item: cint, price: cint, fault: nat -> bool, ghost db: Db)
        returns (outcome: Outcome)
      requires saved == Some(db)
      modifies this
      ensures saved.None?
          && (outcome, Tables()) == Alone(Purchase(user, slot), LogPurchase(item, price), old(Tables()), db, fault, 5)
    {
      hide Alone, ColumnInt, UpsertFingerprint, AddToBalance, SetBalance, AddToStock, InsertTransaction,
        InsertStockLog, UpsertBalance;
      ghost var call := Purchase(user, slot);
      var ok;
      AloneAt(call, LogPurchase(item, price), Tables(), db, fault, 5);
      ok := LogTransaction(Transaction(PurchaseRow, user, Some(item), Some(1), -(price as int)), fault(5));
      if !ok {
        RollbackTransaction();
        return Failed;
      }
      LogAlone(call, Tables(), db, fault, 6);
      ok := LogStockChange(slot, Removal, -1, fault(6), fault(7));
      if !ok {
        RollbackTransaction();
        return Failed;
      }
      outcome := EndCall(Succeeded, fault, 8, call, db);
    }

    /** users_lookup */
    method UsersLookup(fingerprint: string, fault: nat -> bool) returns (outcome: Outcome)
      modifies this
      ensures Ran(Lookup(fingerprint), fault, old(Tables()), old(saved), outcome)
      ensures old(saved).Some? ==> outcome == Failed && Tables() == old(Tables()) && saved == old(saved)
    {
      hide Alone, ColumnInt, UpsertFingerprint, AddToBalance, SetBalance, AddToStock, InsertTransaction,
        InsertStockLog, UpsertBalance;
      ghost var call, db := Lookup(fingerprint), Tables();
      var ok := BeginTransaction(fault(0));
      if !ok {
        return Failed;
      }
      AloneAt(call, FindUser, db, db, fault, 1);
      if fault(1) {
        RollbackTransaction();
        return Failed;
      }
      var user := UpsertUser(fingerprint);
      outcome := EndCall(Found(ColumnInt(user)), fault, 2, call, db);
    }

    /** The upsert of users_lookup. */
    method UpsertUser(fingerprint: string) returns (user: int)
      modifies `users, `fingerprints, `lastUser
      ensures (Tables(), user) == UpsertFingerprint(old(Tables()), fingerprint)
    {
      if fingerprint in fingerprints {
        user := fingerprints[fingerprint];
      } else {
        user := lastUser + 1;
        users, fingerprints, lastUser := users[user := 0], fingerprints[fingerprint := user], user;
      }
    }

    /** product_update_price: no transaction of its own. */
    method ProductUpdatePrice(item: cint, price: cint, fault: bool) returns (ok: bool)
      modifies `items
      ensures ok <==> price > 0 && !fault
      ensures Tables() == if ok then SetPrice(old(Tables()), item, price) else old(Tables())
      ensures items == if ok && item in old(items) then old(items)[item := price] else old(items)
    {
      if price <= 0 || fault {
        return false;
      }
      if item in items {
        items := items[item := price];
      }
      return true;
    }
  }

  /** The two statements of db_log_stock_change. */
  lemma LogAlone(call: Call, db: Db, saved: Db, fault: nat -> bool, k: nat)
    requires call.Purchase? || call.Restock?
    ensures Alone(call, FindSlot, db, saved, fault, k) ==
      if fault(k) || fault(k + 1) || call.slot !in db.stock then (Failed, saved)
      else match InsertStockLog(db, StockRow(call, ColumnInt(db.stock[call.slot].item)))
           case None => (Failed, saved)
           case Some(d) => Alone(call, Commit(Succeeded), d, saved, fault, k + 2)
  {
    hide Alone, ColumnInt;
    AloneAt(call, FindSlot, db, saved, fault, k);
    if call.slot in db.stock {
      AloneAt(call, LogStock(ColumnInt(db.stock[call.slot].item)), db, saved, fault, k + 1);
    } else {
      AloneEnds(call, Rollback(Failed), db, saved, fault, k + 1);
    }
  }

  /** The statements a call has left when none fails, its COMMIT included. */
  function Left(call: Call, pc: Pc, db: Db): (n: nat)
    requires Fits(call, pc) && !pc.Begin? && !pc.Finished?
    decreases Rank(pc)
  {
    if InBody(pc) then
      var r := Move(call, pc, db);
      1 + Left(call, r.pc, r.db)
    else if pc.Commit? then 1 else 0
  }

  /** All or nothing: when none of its statements fails, a call leaves what it does and replies so;
      when one does, whichever it is, the tables are as they were and the call failed. */
  lemma {:induction false} AllOrNothing(call: Call, pc: Pc, db: Db, saved: Db, fault: nat -> bool, k: nat)
    requires Fits(call, pc) && !pc.Begin? && !pc.Finished?
    ensures Alone(call, pc, db, saved, fault, k)
         == if forall j :: k <= j < k + Left(call, pc, db) ==> !fault(j)
            then (Rest(call, pc, db).pc.outcome, if Rest(call, pc, db).pc.Commit? then Rest(call, pc, db).db else saved)
            else (Failed, saved)
    decreases Rank(pc)
  {
    hide Execute;
    if InBody(pc) {
      ExecuteAdvances(call, pc, db);
      var r := Move(call, pc, db);
      AllOrNothing(call, r.pc, r.db, saved, fault, k + 1);
      var n := Left(call, r.pc, r.db);
      assert (forall j :: k <= j < k + 1 + n ==> !fault(j))
          <==> !fault(k) && forall j :: k + 1 <= j < k + 1 + n ==> !fault(j);
    }
  }

  // ----- the same calls as jobs of module LedgerRuns -----

  /** Steps a job still takes, at most. */
  function Turns(pc: Pc): nat {
    if pc.Begin? then 20
    else if InBody(pc) then 2 + Rank(pc)
    else if pc.Commit? then 2
    else if pc.Rollback? then 1
    else 0
  }

  /** Job `id` takes all its remaining steps in a row. */
  ghost function Drive(s: State, id: nat, fault: nat -> bool, k: nat): State
    requires id in s.jobs
    decreases Turns(s.jobs[id].pc)
  {
    if s.jobs[id].pc.Finished? then s
    else
      TurnTaken(s, id, fault(k));
      Drive(AdvanceJob(s, id, fault(k)), id, fault, k + 1)
  }

  lemma TurnTaken(s: State, id: nat, fault: bool)
    requires id in s.jobs && !s.jobs[id].pc.Finished?
    ensures id in AdvanceJob(s, id, fault).jobs && AdvanceJob(s, id, fault).jobs[id].call == s.jobs[id].call
    ensures Turns(AdvanceJob(s, id, fault).jobs[id].pc) < Turns(s.jobs[id].pc)
  {
    hide Execute;
    assert Rank(First(s.jobs[id].call)) <= 8;
  }

  /** A job that nobody interrupts does exactly what its service method does. */
  lemma {:induction false} DrivenAlone(s: State, id: nat, fault: nat -> bool, k: nat)
    requires id in s.jobs && InTransaction(s.jobs[id].pc) && Fits(s.jobs[id].call, s.jobs[id].pc)
    requires s.tx.Some? && s.tx.value.owner == id
    ensures var Job(call, pc), s' := s.jobs[id], Drive(s, id, fault, k);
      && id in s'.jobs && s'.jobs[id].pc.Finished? && s'.tx.None?
      && (s'.jobs[id].pc.outcome, s'.db) == Alone(call, pc, s.db, s.tx.value.saved, fault, k)
    decreases Turns(s.jobs[id].pc)
  {
    hide Execute, Move;
    var Job(call, pc) := s.jobs[id];
    var next := AdvanceJob(s, id, fault(k));
    TurnTaken(s, id, fault(k));
    if InBody(pc) {
      MoveFits(call, pc, s.db);
      DrivenAlone(next, id, fault, k + 1);
      if fault(k) {
        AloneEnds(call, Rollback(Failed), s.db, s.tx.value.saved, fault, k + 1);
      }
    } else if pc.Commit? && fault(k) {
      DrivenAlone(next, id, fault, k + 1);
      AloneEnds(call, Rollback(Failed), s.db, s.tx.value.saved, fault, k + 1);
    } else {
      assert next.jobs[id].pc.Finished?;
      assert Drive(next, id, fault, k + 1) == next;
    }
  }

  lemma MoveFits(call: Call, pc: Pc, db: Db)
    requires InBody(pc) && Fits(call, pc)
    ensures var r := Move(call, pc, db); Fits(call, r.pc) && InTransaction(r.pc)
  {}

  /** So does a whole call that is handed to a worker and that nobody interrupts: it fails at once when
      it is refused or another transaction is open, and does what the call does alone otherwise. */
  lemma DrivenService(s: State, id: nat, call: Call, fault: nat -> bool)
    requires id !in s.jobs
    ensures var s1 := Next(s, Start(id, call));
      && id in s1.jobs
      && var t := Drive(s1, id, fault, 0);
         && id in t.jobs && t.jobs[id].pc.Finished?
         && if Refused(call) || fault(0) || s.tx.Some?
            then t.jobs[id].pc == Finished(Failed, false) && t.db == s.db && t.tx == s.tx && t.log == s.log
            else t.tx.None? && (t.jobs[id].pc.outcome, t.db) == Alone(call, First(call), s.db, s.db, fault, 1)
  {
    hide Execute, Move, Alone, First, Drive, Refused;
    var s1 := Next(s, Start(id, call));
    DriveFrom(s1, id, fault, 0);
    if !Refused(call) {
      var s2 := AdvanceJob(s1, id, fault(0));
      DriveFrom(s2, id, fault, 1);
      if !fault(0) && s.tx.None? {
        FirstRuns(call);
        DrivenAlone(s2, id, fault, 1);
      }
    }
  }

  lemma DriveFrom(s: State, id: nat, fault: nat -> bool, k: nat)
    requires id in s.jobs
    ensures s.jobs[id].pc.Finished? ==> Drive(s, id, fault, k) == s
    ensures !s.jobs[id].pc.Finished? ==>
      id in AdvanceJob(s, id, fault(k)).jobs
      && Drive(s, id, fault, k) == Drive(AdvanceJob(s, id, fault(k)), id, fault, k + 1)
  {
    hide AdvanceJob, Turns;
    if !s.jobs[id].pc.Finished? {
      TurnTaken(s, id, fault(k));
    }
  }

  lemma FirstRuns(call: Call)
    ensures Fits(call, First(call)) && InTransaction(First(call)) && InBody(First(call))
  {}

  /** And a price update among the jobs does what the service method does. */
  lemma DrivenPrice(s: State, item: cint, price: cint, fault: bool)
    ensures var t := Next(s, Reprice(item, price, fault));
      && t.db == (if price > 0 && !fault && item in s.db.items then s.db.(items := s.db.items[item := price])
                  else s.db)
      && t.jobs == s.jobs && (t.tx.Some? <==> s.tx.Some?)
  {}
}
