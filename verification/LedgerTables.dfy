/** The tables of init.sql, the SQL statements the services issue on them, and the services
    as programs that issue one statement after the other. */
module LedgerTables {
  import opened Bytes

  /** A C int: what the callers pass, and what sqlite3_bind_int takes. */
  type cint = n: int | IsInt32(n)

  datatype Slot = Slot(item: int, quantity: int)

  datatype TransactionKind = PurchaseRow | DepositRow | WithdrawalRow | RefundRow

  datatype Transaction = Transaction(kind: TransactionKind, user: int, item: Option<int>, quantity: Option<int>,
                                     amount: int)

  datatype ChangeKind = Addition | Removal

  datatype StockLog = StockLog(item: int, kind: ChangeKind, change: int)

  /** `users` holds the balances, `fingerprints` is the unique index on users, `items` holds
      the prices; `lastUser` is the autoincrement counter. */
  datatype Db = Db(
    users: map<int, int>,
    fingerprints: map<string, int>,
    lastUser: int,
    items: map<int, int>,
    stock: map<int, Slot>,
    transactions: seq<Transaction>,
    stockLogs: seq<StockLog>)

  /** sqlite3_column_int: the low 32 bits. */
  function ColumnInt(n: int): (r: cint)
    ensures IsInt32(n) ==> r == n
  {
    if IsInt32(n) then n else (n + 0x8000_0000) % 0x1_0000_0000 - 0x8000_0000
  }

  // ----- statements: None when a CHECK or a foreign key rejects them -----

  function InsertTransaction(db: Db, t: Transaction): Option<Db> {
    if TransactionCheck(t) && t.user in db.users && (t.item.Some? ==> t.item.value in db.items)
    then Some(db.(transactions := db.transactions + [t]))
    else None
  }

  predicate TransactionCheck(t: Transaction) {
    match t.kind
    case PurchaseRow => t.item.Some? && t.quantity.Some? && t.quantity.value > 0 && t.amount < 0
    case DepositRow => t.item.None? && t.quantity.None? && t.amount > 0
    case WithdrawalRow => t.item.None? && t.quantity.None? && t.amount < 0
    case RefundRow => t.item.Some? && t.quantity.Some? && t.quantity.value > 0 && t.amount > 0
  }

  function InsertStockLog(db: Db, l: StockLog): Option<Db> {
    if StockLogCheck(l) && l.item in db.items then Some(db.(stockLogs := db.stockLogs + [l])) else None
  }

  predicate StockLogCheck(l: StockLog) {
    match l.kind
    case Addition => l.change > 0
    case Removal => l.change < 0
  }

  /** `UPDATE users SET balance = ...`: no row, no change. */
  function SetBalance(db: Db, user: int, balance: int): Option<Db> {
    if user !in db.users then Some(db)
    else if balance < 0 then None
    else Some(db.(users := db.users[user := balance]))
  }

  function AddToBalance(db: Db, user: int, amount: int): Option<Db> {
    SetBalance(db, user, if user in db.users then db.users[user] + amount else 0)
  }

  /** `INSERT INTO users (user_id, balance) ... ON CONFLICT DO UPDATE SET balance = balance + ...` */
  function UpsertBalance(db: Db, user: int, amount: int): Option<Db> {
    if user in db.users then AddToBalance(db, user, amount)
    else if amount < 0 then None
    else Some(db.(users := db.users[user := amount], lastUser := if user > db.lastUser then user else db.lastUser))
  }

  /** `INSERT INTO users (fingerprint) ... ON CONFLICT DO UPDATE ... RETURNING user_id` */
  function UpsertFingerprint(db: Db, fingerprint: string): (Db, int) {
    if fingerprint in db.fingerprints then (db, db.fingerprints[fingerprint])
    else
      var id := db.lastUser + 1;
      (db.(users := db.users[id := 0], fingerprints := db.fingerprints[fingerprint := id], lastUser := id), id)
  }

  function AddToStock(db: Db, slot: int, change: int): Option<Db> {
    if slot !in db.stock then Some(db)
    else
      var row := db.stock[slot];
      if row.quantity + change < 0 then None
      else Some(db.(stock := db.stock[slot := row.(quantity := row.quantity + change)]))
  }

  function SetPrice(db: Db, item: int, price: int): Db {
    if item in db.items then db.(items := db.items[item := price]) else db
  }

  // ----- the services -----

  datatype Call =
    | Purchase(user: cint, slot: cint)
    | Deposit(user: cint, amount: cint)
    | CashOut(user: cint)
    | Restock(slot: cint, qty: cint)
    | Lookup(fingerprint: string)

  datatype Outcome = Failed | Succeeded | NotFound | Refunded(amount: int) | Found(user: int)

  /** The next statement of a call. After `Begin`: the statements of its transaction; then
      `Commit` or `Rollback`; `Finished` tells whether it committed. */
  datatype Pc =
    | Begin
    | SelectItem
    | SelectBalance(item: cint, price: cint)
    | Debit(item: cint, price: cint)
    | Decrement(item: cint, price: cint)
    | LogPurchase(item: cint, price: cint)
    | Credit
    | LogDeposit
    | SelectRefund
    | ZeroBalance(balance: cint)
    | LogWithdrawal(balance: cint)
    | Replenish
    | FindSlot
    | LogStock(item: cint)
    | FindUser
    | Commit(outcome: Outcome)
    | Rollback(outcome: Outcome)
    | Finished(outcome: Outcome, committed: bool)

  /** Calls that fail before they touch the database. */
  predicate Refused(call: Call) {
    match call
    case Deposit(_, amount) => amount <= 0
    case Restock(_, qty) => qty <= 0
    case _ => false
  }

  function First(call: Call): Pc {
    match call
    case Purchase(_, _) => SelectItem
    case Deposit(_, _) => Credit
    case CashOut(_) => SelectRefund
    case Restock(_, _) => Replenish
    case Lookup(_) => FindUser
  }

  /** What `db_log_stock_change` logs for a purchase or a restock. */
  function StockRow(call: Call, item: int): StockLog {
    if call.Restock? then StockLog(item, Addition, call.qty) else StockLog(item, Removal, -1)
  }

  /** Some when the statement at `pc` ran; None when a constraint rejected it. */
  datatype Ran = Ran(pc: Pc, db: Db)

  function Then(db: Option<Db>, pc: Pc): Option<Ran> {
    match db
    case None => None
    case Some(d) => Some(Ran(pc, d))
  }

  /** The statements of a transaction; the other positions have none. */
  predicate InBody(pc: Pc) {
    !pc.Begin? && !pc.Commit? && !pc.Rollback? && !pc.Finished?
  }

  function Execute(call: Call, pc: Pc, db: Db): Option<Ran>
    requires InBody(pc) && Fits(call, pc)
  {
    match pc
    case SelectItem =>
      if call.slot in db.stock && db.stock[call.slot].item in db.items then
        var row := db.stock[call.slot];
        var item, price, quantity := ColumnInt(row.item), ColumnInt(db.items[row.item]), ColumnInt(row.quantity);
        Some(Ran(if quantity <= 0 then Rollback(Failed) else SelectBalance(item, price), db))
      else Some(Ran(Rollback(Failed), db))
    case SelectBalance(item, price) =>
      if call.user !in db.users || ColumnInt(db.users[call.user]) < price then Some(Ran(Rollback(Failed), db))
      else Some(Ran(Debit(item, price), db))
    case Debit(item, price) => Then(AddToBalance(db, call.user, -(price as int)), Decrement(item, price))
    case Decrement(item, price) => Then(AddToStock(db, call.slot, -1), LogPurchase(item, price))
    case LogPurchase(item, price) =>
      Then(InsertTransaction(db, Transaction(PurchaseRow, call.user, Some(item), Some(1), -(price as int))), FindSlot)
    case Credit => Then(UpsertBalance(db, call.user, call.amount), LogDeposit)
    case LogDeposit => Then(InsertTransaction(db, Transaction(DepositRow, call.user, None, None, call.amount)),
                            Commit(Succeeded))
    case SelectRefund =>
      if call.user !in db.users then Some(Ran(Rollback(NotFound), db))
      else
        var balance := ColumnInt(db.users[call.user]);
        Some(Ran(if balance == 0 then Rollback(Refunded(0)) else ZeroBalance(balance), db))
    case ZeroBalance(balance) => Then(SetBalance(db, call.user, 0), LogWithdrawal(balance))
    case LogWithdrawal(balance) =>
      Then(InsertTransaction(db, Transaction(WithdrawalRow, call.user, None, None, -(balance as int))),
           Commit(Refunded(balance)))
    case Replenish => Then(AddToStock(db, call.slot, call.qty), FindSlot)
    case FindSlot =>
      Some(Ran(if call.slot in db.stock then LogStock(ColumnInt(db.stock[call.slot].item)) else Rollback(Failed), db))
    case LogStock(item) => Then(InsertStockLog(db, StockRow(call, item)), Commit(Succeeded))
    case FindUser =>
      var (d, user) := UpsertFingerprint(db, call.fingerprint);
      Some(Ran(Commit(Found(ColumnInt(user))), d))
  }

  /** Which positions belong to which call. */
  predicate Fits(call: Call, pc: Pc) {
    match pc
    case SelectItem => call.Purchase?
    case SelectBalance(_, _) => call.Purchase?
    case Debit(_, _) => call.Purchase?
    case Decrement(_, _) => call.Purchase?
    case LogPurchase(_, _) => call.Purchase?
    case Credit => call.Deposit?
    case LogDeposit => call.Deposit?
    case SelectRefund => call.CashOut?
    case ZeroBalance(_) => call.CashOut?
    case LogWithdrawal(_) => call.CashOut?
    case Replenish => call.Restock?
    case FindSlot => call.Purchase? || call.Restock?
    case LogStock(_) => call.Purchase? || call.Restock?
    case FindUser => call.Lookup?
    case _ => true
  }

  /** Statements still to come, at most. */
  function Rank(pc: Pc): nat {
    match pc
    case SelectItem => 8
    case SelectBalance(_, _) => 7
    case Debit(_, _) => 6
    case Decrement(_, _) => 5
    case LogPurchase(_, _) => 4
    case Replenish => 3
    case FindSlot => 2
    case LogStock(_) => 1
    case Credit => 2
    case LogDeposit => 1
    case SelectRefund => 3
    case ZeroBalance(_) => 2
    case LogWithdrawal(_) => 1
    case FindUser => 1
    case _ => 0
  }

  lemma ExecuteAdvances(call: Call, pc: Pc, db: Db)
    requires InBody(pc) && Fits(call, pc)
    ensures var r := Execute(call, pc, db);
      r.Some? ==>
        && Fits(call, r.value.pc) && Rank(r.value.pc) < Rank(pc) && !r.value.pc.Begin? && !r.value.pc.Finished?
        && r.value.pc != First(call)
  {}

  /** A position of a running transaction, with the tables as they stand there. A rejected
      statement sends the call to its rollback. */
  function Move(call: Call, pc: Pc, db: Db): (r: Ran)
    requires InBody(pc) && Fits(call, pc)
    ensures Fits(call, r.pc) && Rank(r.pc) < Rank(pc) && !r.pc.Begin? && !r.pc.Finished?
  {
    ExecuteAdvances(call, pc, db);
    match Execute(call, pc, db)
    case None => Ran(Rollback(Failed), db)
    case Some(r) => r
  }

  /** The rest of a transaction when nothing fails and nobody interferes: it ends at
      `Commit` or `Rollback`. */
  function Rest(call: Call, pc: Pc, db: Db): (r: Ran)
    requires Fits(call, pc) && !pc.Begin? && !pc.Finished?
    ensures r.pc.Commit? || r.pc.Rollback?
    decreases Rank(pc)
  {
    if InBody(pc) then
      var next := Move(call, pc, db);
      Rest(call, next.pc, next.db)
    else Ran(pc, db)
  }

  /** A whole call by itself, on tables nobody else touches. */
  function Serial(call: Call, db: Db): (r: (Outcome, Db)) {
    if Refused(call) then (Failed, db)
    else
      var r := Rest(call, First(call), db);
      if r.pc.Commit? then (r.pc.outcome, r.db) else (r.pc.outcome, db)
  }

  predicate Commits(call: Call, db: Db) {
    !Refused(call) && Rest(call, First(call), db).pc.Commit?
  }
}
