/** The books balance: in every committed state each balance is the sum of its user's
    transactions, the slots of an item add up to its stock log, and removals are purchases. */
module LedgerLaws {
  import opened Bytes
  import opened LedgerTables
  import opened LedgerRuns

  // ----- sums over the tables -----

  function AmountFor(ts: seq<Transaction>, user: int): int {
    if ts == [] then 0
    else AmountFor(ts[..|ts| - 1], user) + if ts[|ts| - 1].user == user then ts[|ts| - 1].amount else 0
  }

  function PurchasesOf(ts: seq<Transaction>, item: int): int {
    if ts == [] then 0
    else PurchasesOf(ts[..|ts| - 1], item)
         + if ts[|ts| - 1].kind.PurchaseRow? && ts[|ts| - 1].item == Some(item) then 1 else 0
  }

  function ChangeOf(ls: seq<StockLog>, item: int): int {
    if ls == [] then 0
    else ChangeOf(ls[..|ls| - 1], item) + if ls[|ls| - 1].item == item then ls[|ls| - 1].change else 0
  }

  function RemovalsOf(ls: seq<StockLog>, item: int): int {
    if ls == [] then 0
    else RemovalsOf(ls[..|ls| - 1], item) + if ls[|ls| - 1].item == item && ls[|ls| - 1].kind.Removal? then 1 else 0
  }

  function InSlot(row: Slot, item: int): int { if row.item == item then row.quantity else 0 }

  ghost function InSlots(stock: map<int, Slot>, item: int): int
    decreases |stock|
  {
    if !exists slot :: slot in stock then 0
    else
      var slot :| slot in stock;
      InSlot(stock[slot], item) + InSlots(stock - {slot}, item)
  }

  lemma {:induction false} InSlotsPick(stock: map<int, Slot>, item: int, slot: int)
    requires slot in stock
    ensures InSlots(stock, item) == InSlot(stock[slot], item) + InSlots(stock - {slot}, item)
    decreases |stock|
  {
    var first :| first in stock && InSlots(stock, item) == InSlot(stock[first], item) + InSlots(stock - {first}, item);
    if first != slot {
      InSlotsPick(stock - {first}, item, slot);
      InSlotsPick(stock - {slot}, item, first);
      assert stock - {first} - {slot} == stock - {slot} - {first};
    }
  }

  lemma InSlotsUpdate(stock: map<int, Slot>, item: int, slot: int, row: Slot)
    requires slot in stock
    ensures InSlots(stock[slot := row], item) == InSlots(stock, item) - InSlot(stock[slot], item) + InSlot(row, item)
  {
    InSlotsPick(stock, item, slot);
    InSlotsPick(stock[slot := row], item, slot);
    assert stock[slot := row] - {slot} == stock - {slot};
  }

  lemma SumsOfSnoc(ts: seq<Transaction>, t: Transaction, ls: seq<StockLog>, l: StockLog, user: int, item: int)
    ensures AmountFor(ts + [t], user) == AmountFor(ts, user) + if t.user == user then t.amount else 0
    ensures PurchasesOf(ts + [t], item)
         == PurchasesOf(ts, item) + if t.kind.PurchaseRow? && t.item == Some(item) then 1 else 0
    ensures ChangeOf(ls + [l], item) == ChangeOf(ls, item) + if l.item == item then l.change else 0
    ensures RemovalsOf(ls + [l], item) == RemovalsOf(ls, item) + if l.item == item && l.kind.Removal? then 1 else 0
  {}

  // ----- the laws -----

  function BalanceOf(db: Db, user: int): int { if user in db.users then db.users[user] else 0 }

  /** How much more a user's transactions say than the balance does. */
  function Excess(db: Db, user: int): int { AmountFor(db.transactions, user) - BalanceOf(db, user) }

  /** Each user's balance is the sum of that user's transaction amounts. */
  ghost predicate BalanceLaw(db: Db) { forall user :: Excess(db, user) == 0 }

  /** Each item's slots add up to what its stock log says, and it was removed as often as
      it was bought. */
  ghost predicate StockLaw(db: Db) {
    forall item :: InSlots(db.stock, item) == ChangeOf(db.stockLogs, item)
                   && RemovalsOf(db.stockLogs, item) == PurchasesOf(db.transactions, item)
  }

  /** What the CHECK clauses and foreign keys ask of every row, prices above zero, and ids
      and prices that fit a C int. */
  ghost predicate RowsOk(db: Db) {
    && (forall u :: u in db.users ==> 0 <= db.users[u] && u <= db.lastUser)
    && (forall f :: f in db.fingerprints ==> db.fingerprints[f] in db.users)
    && (forall i :: i in db.items ==> IsInt32(i) && 0 < db.items[i] <= INT_MAX)
    && (forall k :: k in db.stock ==> db.stock[k].item in db.items && db.stock[k].quantity >= 0)
    && (forall n :: 0 <= n < |db.transactions| ==>
          var t := db.transactions[n];
          TransactionCheck(t) && t.user in db.users && (t.item.Some? ==> t.item.value in db.items))
    && (forall n :: 0 <= n < |db.stockLogs| ==> StockLogCheck(db.stockLogs[n]) && db.stockLogs[n].item in db.items)
  }

  ghost predicate Sound(db: Db) { RowsOk(db) && BalanceLaw(db) && StockLaw(db) }

  /** No statement from `pc` on is rejected by a CHECK or a foreign key. */
  predicate Accepted(call: Call, pc: Pc, db: Db)
    requires Fits(call, pc)
    decreases Rank(pc)
  {
    if !InBody(pc) then true
    else
      ExecuteAdvances(call, pc, db);
      match Execute(call, pc, db)
      case None => false
      case Some(r) => Accepted(call, r.pc, r.db)
  }

  /** The one arithmetic limit: a cash-out reads the balance as a C int. */
  predicate Narrow(call: Call, db: Db) {
    call.CashOut? && call.user in db.users ==> db.users[call.user] <= INT_MAX
  }

  lemma StepTo(call: Call, pc: Pc, db: Db, pc': Pc, db': Db)
    requires InBody(pc) && Fits(call, pc) && Execute(call, pc, db) == Some(Ran(pc', db'))
    ensures Fits(call, pc') && !pc'.Begin? && !pc'.Finished?
    ensures Rest(call, pc, db) == Rest(call, pc', db')
    ensures Accepted(call, pc, db) <==> Accepted(call, pc', db')
  {
    hide Execute;
    ExecuteAdvances(call, pc, db);
  }

  lemma StopsAt(call: Call, pc: Pc, db: Db)
    requires pc.Commit? || pc.Rollback?
    ensures Rest(call, pc, db) == Ran(pc, db) && Accepted(call, pc, db)
  {}

  lemma UserRow(db: Db, user: int)
    requires RowsOk(db)
    ensures user in db.users ==> 0 <= db.users[user] && user <= db.lastUser
  {}

  // ----- one call at a time -----

  function Deposited(db: Db, user: int, amount: int): Db {
    db.(users := db.users[user := BalanceOf(db, user) + amount],
        lastUser := if user > db.lastUser then user else db.lastUser,
        transactions := db.transactions + [Transaction(DepositRow, user, None, None, amount)])
  }

  /** A deposit adds to the balance, making the user when there is none. */
  lemma DepositIs(user: cint, amount: cint, db: Db)
    requires RowsOk(db) && amount > 0
    ensures var call := Deposit(user, amount);
      && Accepted(call, First(call), db)
      && Rest(call, First(call), db) == Ran(Commit(Succeeded), Deposited(db, user, amount))
  {
    hide BalanceLaw, StockLaw, RowsOk, Rest, Accepted, Move;
    var call := Deposit(user, amount);
    UserRow(db, user);
    var d2 := Deposited(db, user, amount);
    var d1 := d2.(transactions := db.transactions);
    StepTo(call, Credit, db, LogDeposit, d1);
    StepTo(call, LogDeposit, d1, Commit(Succeeded), d2);
    StopsAt(call, Commit(Succeeded), d2);
  }

  lemma DepositKeeps(user: cint, amount: cint, db: Db)
    requires RowsOk(db) && amount > 0
    ensures Keeps(db, Deposited(db, user, amount), user, 0)
  {
    hide InSlots, ChangeOf, AmountFor, PurchasesOf, RemovalsOf, Excess, StockLaw;
    BooksAfter(db, Deposited(db, user, amount), user, amount, amount, 0, 0);
  }

  /** Rows and stock stay in order, and the excess of one user goes up by `more`. */
  ghost predicate Keeps(db: Db, d: Db, user: int, more: int) {
    && RowsOk(d) && (StockLaw(db) ==> StockLaw(d))
    && (forall u :: Excess(d, u) == Excess(db, u) + if u == user then more else 0)
  }

  /** The books after at most one more row in each log: enough to compare what was added. */
  lemma BooksAfter(db: Db, d: Db, user: int, amount: int, paid: int, item: int, change: int)
    requires amount == 0 ==> d.transactions == db.transactions
    requires amount != 0 ==> exists t :: d.transactions == db.transactions + [t] && t.user == user && t.amount == amount
                                         && (t.kind.PurchaseRow? <==> change < 0)
                                         && (change < 0 ==> t.item == Some(item))
    requires change == 0 ==> d.stockLogs == db.stockLogs
    requires change != 0 ==> exists l :: d.stockLogs == db.stockLogs + [l] && l.item == item && l.change == change
                                         && (l.kind.Removal? <==> change < 0)
    requires change < 0 ==> amount != 0
    requires forall u :: BalanceOf(d, u) == BalanceOf(db, u) + if u == user then paid else 0
    requires forall i :: InSlots(d.stock, i) == InSlots(db.stock, i) + if i == item then change else 0
    ensures forall u :: Excess(d, u) == Excess(db, u) + if u == user then amount - paid else 0
    ensures StockLaw(db) ==> StockLaw(d)
  {
    hide InSlots, ChangeOf, AmountFor, PurchasesOf, RemovalsOf, BalanceOf;
    var anyT, anyL := Transaction(DepositRow, 0, None, None, 0), StockLog(0, Addition, 0);
    var t :| amount != 0 ==> d.transactions == db.transactions + [t] && t.user == user && t.amount == amount
                             && (t.kind.PurchaseRow? <==> change < 0) && (change < 0 ==> t.item == Some(item));
    var l :| change != 0 ==> d.stockLogs == db.stockLogs + [l] && l.item == item && l.change == change
                             && (l.kind.Removal? <==> change < 0);
    forall u ensures Excess(d, u) == Excess(db, u) + if u == user then amount - paid else 0 {
      SumsOfSnoc(db.transactions, t, db.stockLogs, l, u, 0);
    }
    if StockLaw(db) {
      forall i ensures InSlots(d.stock, i) == ChangeOf(d.stockLogs, i)
          && RemovalsOf(d.stockLogs, i) == PurchasesOf(d.transactions, i) {
        SumsOfSnoc(db.transactions, t, db.stockLogs, l, 0, i);
      }
    }
  }

  function Withdrawn(db: Db, user: int, logged: int): Db
    requires user in db.users
  {
    db.(users := db.users[user := 0],
        transactions := db.transactions + [Transaction(WithdrawalRow, user, None, None, -logged)])
  }

  /** A cash-out pays out and logs the balance as the column reads it. A user without a row,
      and nothing to pay, end in a rollback; a negative reading is rejected by the CHECK. */
  lemma CashOutIs(user: cint, db: Db)
    requires RowsOk(db)
    ensures var call, r := CashOut(user), Rest(CashOut(user), SelectRefund, db);
      if user !in db.users then r == Ran(Rollback(NotFound), db) && Accepted(call, SelectRefund, db)
      else
        var refund := ColumnInt(db.users[user]);
        if refund == 0 then r == Ran(Rollback(Refunded(0)), db) && Accepted(call, SelectRefund, db)
        else if refund > 0 then
          r == Ran(Commit(Refunded(refund)), Withdrawn(db, user, refund)) && Accepted(call, SelectRefund, db)
        else r.pc == Rollback(Failed) && !Accepted(call, SelectRefund, db)
  {
    hide BalanceLaw, StockLaw, RowsOk, Rest, Accepted, ColumnInt;
    var call := CashOut(user);
    if user !in db.users {
      StepTo(call, SelectRefund, db, Rollback(NotFound), db);
      StopsAt(call, Rollback(NotFound), db);
    } else {
      var refund := ColumnInt(db.users[user]);
      if refund == 0 {
        StepTo(call, SelectRefund, db, Rollback(Refunded(0)), db);
        StopsAt(call, Rollback(Refunded(0)), db);
      } else {
        var d2 := Withdrawn(db, user, refund);
        var d1 := d2.(transactions := db.transactions);
        StepTo(call, SelectRefund, db, ZeroBalance(refund), db);
        StepTo(call, ZeroBalance(refund), db, LogWithdrawal(refund), d1);
        if refund > 0 {
          StepTo(call, LogWithdrawal(refund), d1, Commit(Refunded(refund)), d2);
          StopsAt(call, Commit(Refunded(refund)), d2);
        } else {
          RejectedAt(call, LogWithdrawal(refund), d1);
        }
      }
    }
  }

  lemma RejectedAt(call: Call, pc: Pc, db: Db)
    requires InBody(pc) && Fits(call, pc) && Execute(call, pc, db).None?
    ensures Rest(call, pc, db) == Ran(Rollback(Failed), db) && !Accepted(call, pc, db)
  {}

  /** A committed cash-out logs less than the balance it zeroes exactly when that balance does
      not fit a C int; then the user's transactions say too much. */
  lemma CashOutKeeps(user: cint, db: Db)
    requires RowsOk(db) && user in db.users && ColumnInt(db.users[user]) > 0
    ensures var refund := ColumnInt(db.users[user]);
      && Keeps(db, Withdrawn(db, user, refund), user, db.users[user] - refund)
      && db.users[user] >= refund && (db.users[user] == refund <==> db.users[user] <= INT_MAX)
      && (BalanceLaw(db) ==> (BalanceLaw(Withdrawn(db, user, refund)) <==> db.users[user] <= INT_MAX))
  {
    hide InSlots, ChangeOf, AmountFor, PurchasesOf, RemovalsOf, Excess, StockLaw, ColumnInt;
    var refund: int := ColumnInt(db.users[user]);
    ColumnIntBound(db.users[user]);
    var d := Withdrawn(db, user, refund);
    BooksAfter(db, d, user, -refund, -db.users[user], 0, 0);
    assert Excess(d, user) == Excess(db, user) + db.users[user] - refund;
  }

  lemma ColumnIntBound(n: int)
    requires n >= 0
    ensures ColumnInt(n) <= n && (ColumnInt(n) == n <==> n <= INT_MAX)
  {}

  /** For instance: with 2^32 + 5 grosze a cash-out pays 5, zeroes the balance and commits. */
  lemma CashOutTruncates(user: cint, db: Db)
    requires RowsOk(db) && BalanceLaw(db) && user in db.users && db.users[user] == 0x1_0000_0005
    ensures Commits(CashOut(user), db) && Serial(CashOut(user), db) == (Refunded(5), Withdrawn(db, user, 5))
    ensures !BalanceLaw(Withdrawn(db, user, 5))
  {
    hide Rest, RowsOk, BalanceLaw, Keeps;
    assert ColumnInt(db.users[user]) == 5;
    CashOutIs(user, db);
    CashOutKeeps(user, db);
  }

  /** And of a balance that the column reads as negative, nothing can be cashed out. */
  lemma CashOutRejected(user: cint, db: Db)
    requires RowsOk(db) && user in db.users && db.users[user] == 0x8000_0005
    ensures !Commits(CashOut(user), db) && Serial(CashOut(user), db) == (Failed, db)
  {
    hide Rest, RowsOk;
    assert ColumnInt(db.users[user]) == -0x7FFF_FFFB;
    CashOutIs(user, db);
  }

  function Restocked(db: Db, slot: int, qty: int): Db
    requires slot in db.stock
  {
    var row := db.stock[slot];
    db.(stock := db.stock[slot := row.(quantity := row.quantity + qty)],
        stockLogs := db.stockLogs + [StockLog(row.item, Addition, qty)])
  }

  /** A restock of a missing slot updates nothing, finds no slot to log, and rolls back. */
  lemma RestockIs(slot: cint, qty: cint, db: Db)
    requires RowsOk(db) && qty > 0
    ensures var call, r := Restock(slot, qty), Rest(Restock(slot, qty), Replenish, db);
      && Accepted(call, Replenish, db)
      && r == if slot in db.stock then Ran(Commit(Succeeded), Restocked(db, slot, qty)) else Ran(Rollback(Failed), db)
  {
    hide BalanceLaw, StockLaw, RowsOk, Rest, Accepted;
    var call := Restock(slot, qty);
    SlotRow(db, slot);
    if slot in db.stock {
      var d2 := Restocked(db, slot, qty);
      var d1 := d2.(stockLogs := db.stockLogs);
      StepTo(call, Replenish, db, FindSlot, d1);
      StepTo(call, FindSlot, d1, LogStock(db.stock[slot].item), d1);
      StepTo(call, LogStock(db.stock[slot].item), d1, Commit(Succeeded), d2);
      StopsAt(call, Commit(Succeeded), d2);
    } else {
      StepTo(call, Replenish, db, FindSlot, db);
      StepTo(call, FindSlot, db, Rollback(Failed), db);
      StopsAt(call, Rollback(Failed), db);
    }
  }

  lemma SlotRow(db: Db, slot: int)
    requires RowsOk(db)
    ensures slot in db.stock ==>
      var row := db.stock[slot];
      row.quantity >= 0 && row.item in db.items && IsInt32(row.item) && 0 < db.items[row.item] <= INT_MAX
  {}

  lemma RestockKeeps(slot: cint, qty: cint, db: Db)
    requires RowsOk(db) && qty > 0 && slot in db.stock
    ensures Keeps(db, Restocked(db, slot, qty), 0, 0)
  {
    hide InSlots, ChangeOf, AmountFor, PurchasesOf, RemovalsOf, Excess, StockLaw;
    var row := db.stock[slot];
    var d := Restocked(db, slot, qty);
    forall i ensures InSlots(d.stock, i) == InSlots(db.stock, i) + if i == row.item then qty else 0 {
      InSlotsUpdate(db.stock, i, slot, d.stock[slot]);
    }
    BooksAfter(db, d, 0, 0, 0, row.item, qty);
  }

  function Bought(db: Db, user: int, slot: int): Db
    requires user in db.users && slot in db.stock && db.stock[slot].item in db.items
  {
    var row := db.stock[slot];
    var price := db.items[row.item];
    db.(users := db.users[user := db.users[user] - price],
        stock := db.stock[slot := row.(quantity := row.quantity - 1)],
        transactions := db.transactions + [Transaction(PurchaseRow, user, Some(row.item), Some(1), -price)],
        stockLogs := db.stockLogs + [StockLog(row.item, Removal, -1)])
  }

  /** When a purchase goes through: slot and user exist, and quantity and balance, read as C
      ints, suffice. */
  predicate CanBuy(db: Db, user: int, slot: int) {
    && slot in db.stock && db.stock[slot].item in db.items && ColumnInt(db.stock[slot].quantity) > 0
    && user in db.users && ColumnInt(db.users[user]) >= db.items[db.stock[slot].item]
  }

  /** A purchase moves one price and one piece, and logs both; otherwise it rolls back. */
  lemma PurchaseIs(user: cint, slot: cint, db: Db)
    requires RowsOk(db)
    ensures var call, r := Purchase(user, slot), Rest(Purchase(user, slot), SelectItem, db);
      && Accepted(call, SelectItem, db)
      && r == if CanBuy(db, user, slot) then Ran(Commit(Succeeded), Bought(db, user, slot))
              else Ran(Rollback(Failed), db)
  {
    hide BalanceLaw, StockLaw, RowsOk, Rest, Accepted, ColumnInt;
    var call := Purchase(user, slot);
    SlotRow(db, slot);
    if slot !in db.stock || ColumnInt(db.stock[slot].quantity) <= 0 {
      StepTo(call, SelectItem, db, Rollback(Failed), db);
      StopsAt(call, Rollback(Failed), db);
    } else {
      var item, price := db.stock[slot].item, db.items[db.stock[slot].item];
      assert ColumnInt(item) == item && ColumnInt(price) == price;
      StepTo(call, SelectItem, db, SelectBalance(item, price), db);
      if user !in db.users || ColumnInt(db.users[user]) < price {
        StepTo(call, SelectBalance(item, price), db, Rollback(Failed), db);
        StopsAt(call, Rollback(Failed), db);
      } else {
        StepTo(call, SelectBalance(item, price), db, Debit(item, price), db);
        PurchaseWrites(user, slot, db);
      }
    }
  }

  /** The four writes of a purchase that passed its checks. */
  lemma PurchaseWrites(user: cint, slot: cint, db: Db)
    requires RowsOk(db) && CanBuy(db, user, slot)
    ensures var call := Purchase(user, slot);
      var item, price := db.stock[slot].item, db.items[db.stock[slot].item];
      && IsInt32(item) && IsInt32(price)
      && Accepted(call, Debit(item, price), db)
      && Rest(call, Debit(item, price), db) == Ran(Commit(Succeeded), Bought(db, user, slot))
  {
    hide RowsOk, Rest, Accepted, ColumnInt;
    var call := Purchase(user, slot);
    SlotRow(db, slot);
    UserRow(db, user);
    ColumnIntBound(db.users[user]);
    ColumnIntBound(db.stock[slot].quantity);
    var item, price := db.stock[slot].item, db.items[db.stock[slot].item];
    var d4 := Bought(db, user, slot);
    var d3 := d4.(stockLogs := db.stockLogs);
    var d2 := d3.(transactions := db.transactions);
    var d1 := d2.(stock := db.stock);
    StepTo(call, Debit(item, price), db, Decrement(item, price), d1);
    StepTo(call, Decrement(item, price), d1, LogPurchase(item, price), d2);
    StepTo(call, LogPurchase(item, price), d2, FindSlot, d3);
    StepTo(call, FindSlot, d3, LogStock(item), d3);
    StepTo(call, LogStock(item), d3, Commit(Succeeded), d4);
    StopsAt(call, Commit(Succeeded), d4);
  }

  lemma PurchaseKeeps(user: cint, slot: cint, db: Db)
    requires RowsOk(db) && CanBuy(db, user, slot)
    ensures Keeps(db, Bought(db, user, slot), user, 0)
  {
    hide InSlots, ChangeOf, AmountFor, PurchasesOf, RemovalsOf, ColumnInt, Excess, StockLaw;
    var row := db.stock[slot];
    var price := db.items[row.item];
    var d := Bought(db, user, slot);
    ColumnIntBound(db.users[user]);
    ColumnIntBound(row.quantity);
    forall i ensures InSlots(d.stock, i) == InSlots(db.stock, i) + if i == row.item then -1 else 0 {
      InSlotsUpdate(db.stock, i, slot, d.stock[slot]);
    }
    BooksAfter(db, d, user, -price, -price, row.item, -1);
  }

  /** A lookup commits, and finds the user of the fingerprint, which stays that user's; a new one
      is nobody's before and has nothing in the account. */
  lemma LookupIs(fingerprint: string, db: Db)
    requires RowsOk(db)
    ensures var call, (d, user) := Lookup(fingerprint), UpsertFingerprint(db, fingerprint);
      && Accepted(call, FindUser, db)
      && Rest(call, FindUser, db) == Ran(Commit(Found(ColumnInt(user))), d)
      && fingerprint in d.fingerprints && d.fingerprints[fingerprint] == user && user in d.users
      && UpsertFingerprint(d, fingerprint) == (d, user)
      && (if fingerprint in db.fingerprints then d == db else user !in db.users && d.users[user] == 0)
  {}

  lemma LookupKeeps(fingerprint: string, db: Db)
    requires RowsOk(db)
    ensures Keeps(db, UpsertFingerprint(db, fingerprint).0, 0, 0)
  {
    hide InSlots, ChangeOf, AmountFor, PurchasesOf, RemovalsOf, Excess, StockLaw;
    BooksAfter(db, UpsertFingerprint(db, fingerprint).0, 0, 0, 0, 0, 0);
  }

  lemma SetPriceKeeps(db: Db, item: int, price: int)
    requires RowsOk(db) && 0 < price <= INT_MAX
    ensures Keeps(db, SetPrice(db, item, price), 0, 0)
  {
    hide InSlots, ChangeOf, AmountFor, PurchasesOf, RemovalsOf, Excess, StockLaw;
    BooksAfter(db, SetPrice(db, item, price), 0, 0, 0, 0, 0);
  }

  // ----- whole calls -----

  /** sqlite3_column_int keeps the low 32 bits. */
  lemma ColumnIntIs(n: int)
    ensures (n - ColumnInt(n)) % 0x1_0000_0000 == 0
  {
    if !IsInt32(n) {
      var m := n + 0x8000_0000;
      assert n - ColumnInt(n) == m - m % 0x1_0000_0000 == 0x1_0000_0000 * (m / 0x1_0000_0000);
    }
  }

  /** A purchase by itself goes through exactly when the slot has a piece and the user the money, both
      read as C ints. Then it moves the item's price and one piece, logs both and nothing else. */
  lemma PurchaseReplies(user: cint, slot: cint, db: Db)
    requires RowsOk(db)
    ensures var (outcome, d) := Serial(Purchase(user, slot), db);
      if && slot in db.stock && ColumnInt(db.stock[slot].quantity) > 0
         && user in db.users && ColumnInt(db.users[user]) >= db.items[db.stock[slot].item]
      then
        var Slot(item, quantity) := db.stock[slot];
        var price := db.items[item];
        && outcome == Succeeded && Commits(Purchase(user, slot), db)
        && d == db.(users := db.users[user := db.users[user] - price],
                    stock := db.stock[slot := Slot(item, quantity - 1)],
                    transactions := db.transactions + [Transaction(PurchaseRow, user, Some(item), Some(1), -price)],
                    stockLogs := db.stockLogs + [StockLog(item, Removal, -1)])
      else outcome == Failed && d == db && !Commits(Purchase(user, slot), db)
  {
    hide Rest, Accepted, ColumnInt;
    PurchaseIs(user, slot, db);
  }

  /** A deposit by itself fails exactly when the amount is not positive. */
  lemma DepositReplies(user: cint, amount: cint, db: Db)
    requires RowsOk(db)
    ensures var (outcome, d) := Serial(Deposit(user, amount), db);
      if amount > 0 then
        && outcome == Succeeded && Commits(Deposit(user, amount), db)
        && d == db.(users := db.users[user := (if user in db.users then db.users[user] else 0) + amount],
                    lastUser := if user > db.lastUser then user else db.lastUser,
                    transactions := db.transactions + [Transaction(DepositRow, user, None, None, amount)])
      else outcome == Failed && d == db && !Commits(Deposit(user, amount), db)
  {
    hide RowsOk, Rest, Accepted;
    if amount > 0 {
      DepositIs(user, amount, db);
    }
  }

  /** A cash-out by itself pays what the column reads, when that is positive. */
  lemma CashOutReplies(user: cint, db: Db)
    requires RowsOk(db)
    ensures var (outcome, d) := Serial(CashOut(user), db);
      if user !in db.users then outcome == NotFound && d == db && !Commits(CashOut(user), db)
      else
        var refund := ColumnInt(db.users[user]);
        if refund > 0 then
          && outcome == Refunded(refund) && Commits(CashOut(user), db)
          && d == db.(users := db.users[user := 0],
                      transactions := db.transactions
                          + [Transaction(WithdrawalRow, user, None, None, -(refund as int))])
        else outcome == (if refund == 0 then Refunded(0) else Failed) && d == db && !Commits(CashOut(user), db)
  {
    hide RowsOk, Rest, Accepted, ColumnInt;
    CashOutIs(user, db);
  }

  /** A restock by itself fails exactly when the quantity is not positive or the slot is missing. */
  lemma RestockReplies(slot: cint, qty: cint, db: Db)
    requires RowsOk(db)
    ensures var (outcome, d) := Serial(Restock(slot, qty), db);
      if qty > 0 && slot in db.stock then
        var Slot(item, quantity) := db.stock[slot];
        && outcome == Succeeded && Commits(Restock(slot, qty), db)
        && d == db.(stock := db.stock[slot := Slot(item, quantity + qty)],
                    stockLogs := db.stockLogs + [StockLog(item, Addition, qty)])
      else outcome == Failed && d == db && !Commits(Restock(slot, qty), db)
  {
    hide RowsOk, Rest, Accepted;
    if qty > 0 {
      RestockIs(slot, qty, db);
    }
  }

  /** A lookup by itself never fails: a known fingerprint is its user's, a new one the next user's. */
  lemma LookupReplies(fingerprint: string, db: Db)
    requires RowsOk(db)
    ensures var (outcome, d) := Serial(Lookup(fingerprint), db);
      && Commits(Lookup(fingerprint), db)
      && (if fingerprint in db.fingerprints then outcome == Found(ColumnInt(db.fingerprints[fingerprint])) && d == db
          else
            var user := db.lastUser + 1;
            && outcome == Found(ColumnInt(user))
            && d == db.(users := db.users[user := 0], fingerprints := db.fingerprints[fingerprint := user],
                        lastUser := user))
  {
    hide RowsOk, Rest, Accepted, ColumnInt;
    LookupIs(fingerprint, db);
  }

  /** A price update sets the price of that item, of no other one, and nothing else. */
  lemma SetPriceIs(db: Db, item: int, price: int)
    ensures var d := SetPrice(db, item, price);
      && d == db.(items := d.items) && d.items.Keys == db.items.Keys
      && forall i :: i in db.items ==> d.items[i] == if i == item then price else db.items[i]
  {}

  /** A row of `transactions` is taken exactly when user and item are known and its columns fit its type. */
  lemma TransactionTaken(db: Db, t: Transaction)
    ensures InsertTransaction(db, t).Some? <==>
      && t.user in db.users && (t.item == None || t.item.value in db.items)
      && (if t.kind.DepositRow? || t.kind.WithdrawalRow? then t.item == None && t.quantity == None
          else t.item != None && t.quantity != None && t.quantity.value > 0)
      && (if t.kind.PurchaseRow? || t.kind.WithdrawalRow? then t.amount < 0 else t.amount > 0)
    ensures InsertTransaction(db, t).Some? ==>
      InsertTransaction(db, t).value == db.(transactions := db.transactions + [t])
  {}

  /** And one of `stock_logs` when the item is known and the sign of the change fits its type. */
  lemma StockLogTaken(db: Db, l: StockLog)
    ensures InsertStockLog(db, l).Some?
        <==> l.item in db.items && if l.kind.Addition? then l.change > 0 else l.change < 0
    ensures InsertStockLog(db, l).Some? ==> InsertStockLog(db, l).value == db.(stockLogs := db.stockLogs + [l])
  {}

  /** No balance and no quantity goes below zero, and no other row changes. */
  lemma RowsUpdated(db: Db, id: int, change: int)
    ensures AddToBalance(db, id, change)
         == if id !in db.users then Some(db)
            else if db.users[id] + change < 0 then None
            else Some(db.(users := db.users[id := db.users[id] + change]))
    ensures AddToStock(db, id, change)
         == if id !in db.stock then Some(db)
            else if db.stock[id].quantity + change < 0 then None
            else Some(db.(stock := db.stock[id := Slot(db.stock[id].item, db.stock[id].quantity + change)]))
  {}
}
