/** All workers on one shared connection: calls interleave one SQL statement at a time, any
    statement may fail, and price updates land anywhere because they open no transaction.
    Every run is serialisable in commit order. */
module LedgerRuns {
  import opened Bytes
  import opened LedgerTables

  datatype Job = Job(call: Call, pc: Pc)

  /** What happened to the committed tables, in order. */
  datatype Entry =
    | Committed(id: nat, call: Call, outcome: Outcome)
    | Priced(item: cint, price: cint)

  /** The open transaction: the tables to roll back to, and as history who began it and
      which price updates landed before and after its first statement. */
  datatype Tx = Tx(owner: nat, saved: Db, before: seq<Entry>, after: seq<Entry>)

  /** `db` is what every statement on the connection reads and writes; `log` is history. */
  datatype State = State(db: Db, tx: Option<Tx>, jobs: map<nat, Job>, log: seq<Entry>)

  function Initial(seed: Db): State { State(seed, None, map[], []) }

  /** `Start` hands a call to a worker; `Advance` lets it issue its next statement, which
      fails when `fault`; `Reprice` is product_update_price, one statement of its own. */
  datatype Event =
    | Start(id: nat, call: Call)
    | Advance(id: nat, fault: bool)
    | Reprice(item: cint, price: cint, fault: bool)

  function Next(s: State, e: Event): State {
    match e
    case Start(id, call) =>
      if id in s.jobs then s
      else s.(jobs := s.jobs[id := Job(call, if Refused(call) then Finished(Failed, false) else Begin)])
    case Advance(id, fault) =>
      if id !in s.jobs then s else AdvanceJob(s, id, fault)
    case Reprice(item, price, fault) =>
      if price <= 0 || fault then s else RepriceNow(s, item, price)
  }

  function At(s: State, id: nat, pc: Pc): map<nat, Job>
    requires id in s.jobs
  {
    s.jobs[id := s.jobs[id].(pc := pc)]
  }

  function AdvanceJob(s: State, id: nat, fault: bool): State
    requires id in s.jobs
  {
    var Job(call, pc) := s.jobs[id];
    match pc
    case Finished(_, _) => s
    case Begin =>
      if fault || s.tx.Some? then s.(jobs := At(s, id, Finished(Failed, false)))
      else s.(tx := Some(Tx(id, s.db, [], [])), jobs := At(s, id, First(call)))
    case Commit(outcome) =>
      if fault || s.tx.None? then s.(jobs := At(s, id, Rollback(Failed)))
      else s.(tx := None, jobs := At(s, id, Finished(outcome, true)),
              log := s.log + s.tx.value.before + [Committed(id, call, outcome)] + s.tx.value.after)
    case Rollback(outcome) =>
      s.(db := if s.tx.Some? then s.tx.value.saved else s.db, tx := None, jobs := At(s, id, Finished(outcome, false)))
    case _ =>
      if fault || !Fits(call, pc) then s.(jobs := At(s, id, Rollback(Failed)))
      else
        var r := Move(call, pc, s.db);
        s.(db := r.db, jobs := At(s, id, r.pc))
  }

  function RepriceNow(s: State, item: cint, price: cint): State {
    var db, entry := SetPrice(s.db, item, price), Priced(item, price);
    match s.tx
    case None => s.(db := db, log := s.log + [entry])
    case Some(tx) =>
      if tx.owner in s.jobs && s.jobs[tx.owner].pc == First(s.jobs[tx.owner].call)
      then s.(db := db, tx := Some(tx.(before := tx.before + [entry])))
      else s.(db := db, tx := Some(tx.(after := tx.after + [entry])))
  }

  function Run(s: State, events: seq<Event>): State
    decreases |events|
  {
    if events == [] then s
    else Next(Run(s, events[..|events| - 1]), events[|events| - 1])
  }

  /** The tables that survive if every open transaction is rolled back. */
  function Durable(s: State): Db {
    if s.tx.Some? then s.tx.value.saved else s.db
  }

  // ----- the serial reading of a log -----

  function Replay(db: Db, log: seq<Entry>): Db
    decreases |log|
  {
    if log == [] then db else Apply(Replay(db, log[..|log| - 1]), log[|log| - 1])
  }

  function Apply(db: Db, e: Entry): Db {
    match e
    case Committed(_, call, _) => Serial(call, db).1
    case Priced(item, price) => SetPrice(db, item, price)
  }

  /** Run one at a time, every call of the log commits, with the outcome it reported. */
  predicate Replays(db: Db, log: seq<Entry>)
    decreases |log|
  {
    log == [] ||
    (var rest := log[..|log| - 1];
     && Replays(db, rest)
     && match log[|log| - 1]
        case Committed(_, call, outcome) =>
          var r := Replay(db, rest);
          Commits(call, r) && Serial(call, r).0 == outcome
        case Priced(_, price) => price > 0)
  }

  /** Only price updates. */
  predicate AllPriced(log: seq<Entry>) { forall i :: 0 <= i < |log| ==> log[i].Priced? && log[i].price > 0 }

  // ----- price updates commute with everything but the first statement -----

  lemma SerialIsReplay(log: seq<Entry>, e: Entry, db: Db)
    ensures Replay(db, log + [e]) == Apply(Replay(db, log), e)
  {}

  lemma {:induction false} ReplayConcat(db: Db, a: seq<Entry>, b: seq<Entry>)
    ensures Replay(db, a + b) == Replay(Replay(db, a), b)
    decreases |b|
  {
    if b == [] {
      assert a + b == a;
    } else {
      var rest, last := b[..|b| - 1], b[|b| - 1];
      ReplayConcat(db, a, rest);
      assert a + b == (a + rest) + [last];
      SerialIsReplay(a + rest, last, db);
    }
  }

  lemma {:induction false} ReplaysConcat(db: Db, a: seq<Entry>, b: seq<Entry>)
    requires Replays(db, a) && AllPriced(b)
    ensures Replays(db, a + b)
    decreases |b|
  {
    if b == [] {
      assert a + b == a;
    } else {
      ReplaysConcat(db, a, b[..|b| - 1]);
      assert (a + b)[..|a + b| - 1] == a + b[..|b| - 1];
    }
  }

  /** Past its first statement a call no longer reads prices. */
  lemma MoveCommutes(call: Call, pc: Pc, db: Db, item: int, price: int)
    requires InBody(pc) && Fits(call, pc) && pc != First(call)
    ensures Move(call, pc, SetPrice(db, item, price))
         == Move(call, pc, db).(db := SetPrice(Move(call, pc, db).db, item, price))
  {}

  lemma {:induction false} RestCommutes(call: Call, pc: Pc, db: Db, item: int, price: int)
    requires Fits(call, pc) && !pc.Begin? && !pc.Finished? && pc != First(call)
    ensures Rest(call, pc, SetPrice(db, item, price))
         == Rest(call, pc, db).(db := SetPrice(Rest(call, pc, db).db, item, price))
    decreases Rank(pc)
  {
    if InBody(pc) {
      MoveCommutes(call, pc, db, item, price);
      MoveLeavesFirst(call, pc, db);
      var next := Move(call, pc, db);
      RestCommutes(call, next.pc, next.db, item, price);
    }
  }

  lemma MoveLeavesFirst(call: Call, pc: Pc, db: Db)
    requires InBody(pc) && Fits(call, pc)
    ensures Move(call, pc, db).pc != First(call) && !Move(call, pc, db).pc.Finished?
  {}

  // ----- what every step keeps -----

  predicate InTransaction(pc: Pc) { !pc.Begin? && !pc.Finished? }

  /** A call is inside its transaction exactly when it owns the open one. */
  ghost predicate OneOwner(s: State) {
    && (forall id :: id in s.jobs ==> (InTransaction(s.jobs[id].pc) <==> s.tx.Some? && s.tx.value.owner == id))
    && (s.tx.Some? ==> s.tx.value.owner in s.jobs)
  }

  ghost predicate InPlace(s: State) {
    forall id :: id in s.jobs ==>
      && Fits(s.jobs[id].call, s.jobs[id].pc)
      && (!s.jobs[id].pc.Finished? ==> !Refused(s.jobs[id].call))
  }

  /** The tables a call saw first: the durable ones with the early price updates. */
  function Seen(tx: Tx): Db { Replay(tx.saved, tx.before) }

  /** Where the owner's transaction is heading: to what the whole call makes of the tables
      it saw first, under the late price updates. A rollback that reports anything but a failure
      is what the whole call comes to. */
  ghost predicate OnTrack(call: Call, pc: Pc, tx: Tx, db: Db)
    requires Fits(call, pc) && InTransaction(pc)
  {
    && AllPriced(tx.before) && AllPriced(tx.after)
    && (pc == First(call) ==> tx.after == [] && db == Seen(tx))
    && (pc.Rollback? && pc.outcome != Failed ==> Rest(call, First(call), Seen(tx)).pc == pc)
    && (!pc.Rollback? ==>
          var whole := Rest(call, First(call), Seen(tx));
          Rest(call, pc, db) == whole.(db := Replay(whole.db, tx.after)))
  }

  /** Every committed call is in the log once, and nothing else is. */
  ghost predicate Logged(s: State) {
    && (forall k :: 0 <= k < |s.log| && s.log[k].Committed? ==>
          s.log[k].id in s.jobs && s.jobs[s.log[k].id] == Job(s.log[k].call, Finished(s.log[k].outcome, true)))
    && (forall id :: id in s.jobs && s.jobs[id].pc.Finished? && s.jobs[id].pc.committed ==>
          exists k :: 0 <= k < |s.log| && s.log[k] == Committed(id, s.jobs[id].call, s.jobs[id].pc.outcome))
    && (forall i, j :: 0 <= i < j < |s.log| && s.log[i].Committed? && s.log[j].Committed? ==>
        s.log[i].id != s.log[j].id)
  }

  ghost predicate Inv(seed: Db, s: State) {
    && Replay(seed, s.log) == Durable(s) && Replays(seed, s.log)
    && OneOwner(s) && InPlace(s)
    && (s.tx.Some? ==> OnTrack(s.jobs[s.tx.value.owner].call, s.jobs[s.tx.value.owner].pc, s.tx.value, s.db))
  }

  lemma BeginKeeps(seed: Db, s: State, id: nat)
    requires Inv(seed, s) && id in s.jobs && s.jobs[id].pc.Begin? && s.tx.None?
    ensures Inv(seed, AdvanceJob(s, id, false))
  {
    hide Rest, Move, Execute, Replays, Refused;
    var call := s.jobs[id].call;
    var tx := Tx(id, s.db, [], []);
    FirstFits(call);
    ReplayNothing(s.db);
    ReplayNothing(Rest(call, First(call), s.db).db);
  }

  lemma FirstFits(call: Call)
    ensures Fits(call, First(call)) && InBody(First(call)) && InTransaction(First(call)) && !First(call).Rollback?
  {}

  lemma ReplayNothing(db: Db)
    ensures Replay(db, []) == db && AllPriced([])
  {}

  lemma CommitKeeps(seed: Db, s: State, id: nat)
    requires Inv(seed, s) && id in s.jobs && s.jobs[id].pc.Commit?
    ensures Inv(seed, AdvanceJob(s, id, false))
    ensures s.tx.Some? && AdvanceJob(s, id, false).db == s.db
  {
    hide Rest, Move, Execute, Replays, Replay, Apply, Refused, First;
    var Job(call, pc) := s.jobs[id];
    var tx := s.tx.value;
    var entry := Committed(id, call, pc.outcome);
    assert tx.owner == id;
    FirstFits(call);
    RestAtEnd(call, pc, s.db);
    ReplaysConcat(seed, s.log, tx.before);
    ReplayConcat(seed, s.log, tx.before);
    assert Replay(seed, s.log + tx.before) == Seen(tx);
    CommittedEntry(seed, s.log + tx.before, entry);
    ReplaysConcat(seed, s.log + tx.before + [entry], tx.after);
    ReplayConcat(seed, s.log + tx.before + [entry], tx.after);
  }

  lemma RestAtEnd(call: Call, pc: Pc, db: Db)
    requires pc.Commit? || pc.Rollback?
    ensures Rest(call, pc, db) == Ran(pc, db)
  {}

  lemma CommittedEntry(seed: Db, log: seq<Entry>, e: Entry)
    requires Replays(seed, log) && e.Committed? && !Refused(e.call)
    requires Rest(e.call, First(e.call), Replay(seed, log)).pc == Commit(e.outcome)
    ensures Replays(seed, log + [e])
    ensures Replay(seed, log + [e]) == Rest(e.call, First(e.call), Replay(seed, log)).db
  {}

  lemma MoveKeeps(seed: Db, s: State, id: nat)
    requires Inv(seed, s) && id in s.jobs && InBody(s.jobs[id].pc)
    ensures Inv(seed, AdvanceJob(s, id, false))
  {
    hide Move, Execute, Replays, Replay, Refused, First;
    var Job(call, pc) := s.jobs[id];
    FirstFits(call);
    MoveLeavesFirst(call, pc, s.db);
    assert s.tx.value.owner == id;
    assert Rest(call, pc, s.db) == Rest(call, Move(call, pc, s.db).pc, Move(call, pc, s.db).db);
  }

  /** A failed statement and a failed COMMIT leave the transaction open, to be rolled back. */
  lemma FaultKeeps(seed: Db, s: State, id: nat)
    requires Inv(seed, s) && id in s.jobs && (InBody(s.jobs[id].pc) || s.jobs[id].pc.Commit?)
    ensures Inv(seed, AdvanceJob(s, id, true))
  {
    hide Rest, Move, Execute, Replays, Replay, Refused, First, Seen, AllPriced;
    FirstFits(s.jobs[id].call);
  }

  lemma RollbackKeeps(seed: Db, s: State, id: nat, fault: bool)
    requires Inv(seed, s) && id in s.jobs && s.jobs[id].pc.Rollback?
    ensures Inv(seed, AdvanceJob(s, id, fault))
  {
    hide Rest, Move, Execute, Replays, Replay, Refused, First, OnTrack;
  }

  /** A failed BEGIN, and a call that is over. */
  lemma NothingKeeps(seed: Db, s: State, id: nat, fault: bool)
    requires Inv(seed, s) && id in s.jobs
    requires s.jobs[id].pc.Finished? || (s.jobs[id].pc.Begin? && (fault || s.tx.Some?))
    ensures Inv(seed, AdvanceJob(s, id, fault))
  {
    hide Rest, Move, Execute, Replays, Replay, Refused, First, OnTrack;
  }

  lemma AllPricedSnoc(log: seq<Entry>, e: Entry)
    requires AllPriced(log) && e.Priced? && e.price > 0
    ensures AllPriced(log + [e])
  {}

  lemma RepriceKeeps(seed: Db, s: State, item: cint, price: cint)
    requires Inv(seed, s) && price > 0
    ensures Inv(seed, RepriceNow(s, item, price))
  {
    hide Rest, Move, Execute, Replays, Replay, AllPriced, Refused, First, SetPrice;
    var entry := Priced(item, price);
    if s.tx.None? {
      PricedEntry(seed, s.log, entry);
    } else {
      var tx := s.tx.value;
      var Job(call, pc) := s.jobs[tx.owner];
      FirstFits(call);
      if pc == First(call) {
        AllPricedSnoc(tx.before, entry);
        SerialIsReplay(tx.before, entry, tx.saved);
        ReplayNothing(Rest(call, pc, SetPrice(s.db, item, price)).db);
      } else if !pc.Rollback? {
        AllPricedSnoc(tx.after, entry);
        RestCommutes(call, pc, s.db, item, price);
        SerialIsReplay(tx.after, entry, Rest(call, First(call), Seen(tx)).db);
      } else {
        AllPricedSnoc(tx.after, entry);
      }
    }
  }

  lemma PricedEntry(seed: Db, log: seq<Entry>, e: Entry)
    requires Replays(seed, log) && e.Priced? && e.price > 0
    ensures Replays(seed, log + [e]) && Replay(seed, log + [e]) == SetPrice(Replay(seed, log), e.item, e.price)
  {}

  lemma NextKeeps(seed: Db, s: State, e: Event)
    requires Inv(seed, s)
    ensures Inv(seed, Next(s, e))
  {
    hide Inv, AdvanceJob, RepriceNow;
    match e
    case Start(id, call) => StartKeeps(seed, s, id, call);
    case Reprice(item, price, fault) =>
      if price > 0 && !fault {
        RepriceKeeps(seed, s, item, price);
      }
    case Advance(id, fault) =>
      if id in s.jobs {
        var pc := s.jobs[id].pc;
        if pc.Rollback? {
          RollbackKeeps(seed, s, id, fault);
        } else if pc.Finished? || (pc.Begin? && (fault || s.tx.Some?)) {
          NothingKeeps(seed, s, id, fault);
        } else if fault {
          FaultKeeps(seed, s, id);
        } else if pc.Begin? {
          BeginKeeps(seed, s, id);
        } else if pc.Commit? {
          CommitKeeps(seed, s, id);
        } else {
          MoveKeeps(seed, s, id);
        }
      }
  }

  lemma StartKeeps(seed: Db, s: State, id: nat, call: Call)
    requires Inv(seed, s)
    ensures Inv(seed, Next(s, Start(id, call)))
  {
    hide Rest, Replays, Replay, Refused;
  }

  lemma {:induction false} RunKeeps(seed: Db, events: seq<Event>)
    ensures Inv(seed, Run(Initial(seed), events))
    decreases |events|
  {
    hide Inv;
    if events == [] {
      InitialInv(seed);
    } else {
      RunKeeps(seed, events[..|events| - 1]);
      NextKeeps(seed, Run(Initial(seed), events[..|events| - 1]), events[|events| - 1]);
    }
  }

  lemma InitialInv(seed: Db)
    ensures Inv(seed, Initial(seed)) && Logged(Initial(seed))
  {}

  // ----- the log -----

  lemma LoggedKeeps(seed: Db, s: State, e: Event)
    requires Inv(seed, s) && Logged(s)
    ensures Logged(Next(s, e))
  {
    hide Rest, Move, Execute, Replays, Replay, Refused, First, Seen, SetPrice, Fits;
    var s' := Next(s, e);
    if e.Advance? && e.id in s.jobs {
      FirstFits(s.jobs[e.id].call);
      if InBody(s.jobs[e.id].pc) {
        MoveLeavesFirst(s.jobs[e.id].call, s.jobs[e.id].pc, s.db);
      }
    }
    if e.Advance? && e.id in s.jobs && s.jobs[e.id].pc.Commit? && !e.fault {
      CommitLogs(seed, s, e.id);
    } else if s'.log == s.log {
      SameLog(s, s', if e.Reprice? then 0 else e.id);
    } else {
      PricedLogs(s, s');
    }
  }

  /** Steps that leave the log alone do not touch a committed call either. */
  lemma SameLog(s: State, s': State, id: nat)
    requires Logged(s) && s'.log == s.log
    requires forall j :: j in s.jobs ==> j in s'.jobs && (j != id ==> s'.jobs[j] == s.jobs[j])
    requires forall j :: j in s'.jobs && j != id ==> j in s.jobs
    requires id in s.jobs && s.jobs[id].pc.Finished? ==> s'.jobs[id] == s.jobs[id]
    requires id in s'.jobs && s'.jobs[id].pc.Finished? && s'.jobs[id].pc.committed ==>
        id in s.jobs && s'.jobs[id] == s.jobs[id]
    ensures Logged(s')
  {}

  lemma PricedLogs(s: State, s': State)
    requires Logged(s) && s'.jobs == s.jobs
    requires |s'.log| == |s.log| + 1 && s'.log[..|s.log|] == s.log && s'.log[|s.log|].Priced?
    ensures Logged(s')
  {
    forall id | id in s'.jobs && s'.jobs[id].pc.Finished? && s'.jobs[id].pc.committed
      ensures exists k :: 0 <= k < |s'.log| && s'.log[k] == Committed(id, s'.jobs[id].call, s'.jobs[id].pc.outcome)
    {
      var k :| 0 <= k < |s.log| && s.log[k] == Committed(id, s.jobs[id].call, s.jobs[id].pc.outcome);
      assert s'.log[k] == s.log[k];
    }
    assert forall k :: 0 <= k < |s.log| ==> s'.log[k] == s.log[k];
  }

  lemma CommitLogs(seed: Db, s: State, id: nat)
    requires Inv(seed, s) && Logged(s) && id in s.jobs && s.jobs[id].pc.Commit?
    ensures Logged(AdvanceJob(s, id, false))
  {
    hide Rest, Move, Execute, Replays, Replay, Refused, First, Seen, Fits;
    var s' := AdvanceJob(s, id, false);
    var tx := s.tx.value;
    var n := |s.log| + |tx.before|;
    assert s'.log[n] == Committed(id, s.jobs[id].call, s.jobs[id].pc.outcome);
    assert forall k :: 0 <= k < |s.log| ==> s'.log[k] == s.log[k];
    assert forall k :: |s.log| <= k < |s'.log| && k != n ==> s'.log[k].Priced?;
    forall j | j in s'.jobs && s'.jobs[j].pc.Finished? && s'.jobs[j].pc.committed
      ensures exists k :: 0 <= k < |s'.log| && s'.log[k] == Committed(j, s'.jobs[j].call, s'.jobs[j].pc.outcome)
    {
      if j != id {
        var k :| 0 <= k < |s.log| && s.log[k] == Committed(j, s.jobs[j].call, s.jobs[j].pc.outcome);
        assert s'.log[k] == s.log[k];
      }
    }
  }

  lemma {:induction false} RunLogs(seed: Db, events: seq<Event>)
    ensures Logged(Run(Initial(seed), events))
    decreases |events|
  {
    hide Inv, Logged;
    if events == [] {
      InitialInv(seed);
    } else {
      var before := events[..|events| - 1];
      RunKeeps(seed, before);
      RunLogs(seed, before);
      LoggedKeeps(seed, Run(Initial(seed), before), events[|events| - 1]);
    }
  }

  // ----- the theorems -----

  /** Whatever the interleaving and whatever fails: what is committed, tables and outcomes,
      is what the committed calls (and the price updates that survived) make one at a time
      in commit order, from the seed. A call that did not commit is not among them. */
  lemma Serialisable(seed: Db, events: seq<Event>)
    ensures var s := Run(Initial(seed), events);
      && Durable(s) == Replay(seed, s.log) && Replays(seed, s.log)
      && Logged(s) && OneOwner(s)
  {
    hide Replay, Replays, Logged, OneOwner;
    RunKeeps(seed, events);
    RunLogs(seed, events);
  }

  /** Only the owner's own COMMIT or ROLLBACK ends a transaction. */
  lemma OnlyOwnerEnds(seed: Db, events: seq<Event>, e: Event)
    ensures var s := Run(Initial(seed), events);
      s.tx.Some? && Next(s, e).tx != s.tx && !e.Reprice? ==>
        e.Advance? && e.id == s.tx.value.owner && Next(s, e).tx.None? && Next(s, e).jobs[e.id].pc.Finished?
  {
    hide Rest, Move, Execute, Replays, Replay, Refused, First, Seen, SetPrice;
    RunKeeps(seed, events);
  }

  /** The reply of job `id` is that of the whole call on the tables it saw first. */
  ghost predicate RepliedAs(s: State, id: nat, pc: Pc)
    requires id in s.jobs && pc.Finished?
  {
    && s.tx.Some? && s.tx.value.owner == id
    && Serial(s.jobs[id].call, Seen(s.tx.value)).0 == pc.outcome
    && (pc.committed <==> Commits(s.jobs[id].call, Seen(s.tx.value)))
  }

  lemma RepliesAt(seed: Db, s: State, id: nat, fault: bool)
    requires Inv(seed, s) && id in s.jobs && !s.jobs[id].pc.Finished?
    ensures var pc := AdvanceJob(s, id, fault).jobs[id].pc;
      pc.Finished? && pc.outcome != Failed ==> RepliedAs(s, id, pc)
  {
    hide Rest, Move, Execute, Replays, Replay, First, Seen, AllPriced, Refused;
    var Job(call, pc) := s.jobs[id];
    FirstFits(call);
    if pc.Commit? && !fault && s.tx.Some? {
      RestAtEnd(call, pc, s.db);
      assert Rest(call, First(call), Seen(s.tx.value)).pc == pc;
    } else if pc.Rollback? && pc.outcome != Failed {
      assert Rest(call, First(call), Seen(s.tx.value)).pc == pc;
    }
  }

  /** Whatever the interleaving: a call that ends without a failure replies what it would have
      replied alone on the tables it saw first, and commits exactly when it would have then. */
  lemma RepliesRight(seed: Db, events: seq<Event>, id: nat, fault: bool)
    requires var s := Run(Initial(seed), events); id in s.jobs && !s.jobs[id].pc.Finished?
    ensures var s := Run(Initial(seed), events);
      var pc := Next(s, Advance(id, fault)).jobs[id].pc;
      pc.Finished? && pc.outcome != Failed ==> RepliedAs(s, id, pc)
  {
    hide Run, Inv, AdvanceJob, RepliedAs;
    RunKeeps(seed, events);
    JobsStay(Run(Initial(seed), events), id, fault);
    RepliesAt(seed, Run(Initial(seed), events), id, fault);
  }

  lemma JobsStay(s: State, id: nat, fault: bool)
    requires id in s.jobs
    ensures id in AdvanceJob(s, id, fault).jobs
  {
    hide Move;
  }

  /** A price update that landed inside somebody's transaction reported success at once, yet
      it lasts exactly when that transaction commits. */
  lemma RepriceFate(seed: Db, events: seq<Event>, e: Event, entry: Entry)
    requires var s := Run(Initial(seed), events);
      s.tx.Some? && entry in s.tx.value.before + s.tx.value.after && Next(s, e).tx.None?
    ensures var s, s' := Run(Initial(seed), events), Next(Run(Initial(seed), events), e);
      var owner := s.tx.value.owner;
      && owner in s'.jobs && s'.jobs[owner].pc.Finished?
      && if s'.jobs[owner].pc.committed then entry in s'.log
         else s'.log == s.log && s'.db == s.tx.value.saved
  {
    hide Rest, Move, Execute, Replays, Replay, Refused, First, Seen, SetPrice, Run;
    RunKeeps(seed, events);
    var s := Run(Initial(seed), events);
    var s' := Next(s, e);
    if s'.jobs[e.id].pc.committed {
      assert forall x :: x in s.tx.value.before || x in s.tx.value.after ==> x in s'.log;
    }
  }

  /** For instance: an update between a lookup's BEGIN and its failing statement is gone. */
  lemma PriceUpdateLost(seed: Db, item: cint, price: cint)
    requires item in seed.items && seed.items[item] != price && price > 0
    ensures var events := [Start(0, Lookup("f")), Advance(0, false)] + [Reprice(item, price, false)];
      && Run(Initial(seed), events).db == SetPrice(seed, item, price) != seed
      && Run(Initial(seed), events + [Advance(0, true)] + [Advance(0, false)]).db == seed
      && Run(Initial(seed), events + [Advance(0, true)] + [Advance(0, false)]).tx.None?
  {
    hide Run, Move, Rest, Execute, AdvanceJob, RepriceNow;
    var s0 := Initial(seed);
    var s2 := LookupBegun(seed);
    var begun := [Start(0, Lookup("f")), Advance(0, false)];
    RunSnoc(s0, begun, Reprice(item, price, false));
    var events := begun + [Reprice(item, price, false)];
    RunSnoc(s0, events, Advance(0, true));
    RunSnoc(s0, events + [Advance(0, true)], Advance(0, false));
    var s3 := LookupRepriced(seed, s2, item, price);
  }

  lemma LookupBegun(seed: Db) returns (s: State)
    ensures s == Run(Initial(seed), [Start(0, Lookup("f")), Advance(0, false)])
    ensures s == State(seed, Some(Tx(0, seed, [], [])), map[0 := Job(Lookup("f"), FindUser)], [])
  {
    hide Move, Rest, Execute;
    var s0, call := Initial(seed), Lookup("f");
    RunNothing(s0);
    RunSnoc(s0, [], Start(0, call));
    RunSnoc(s0, [Start(0, call)], Advance(0, false));
    assert [] + [Start(0, call)] == [Start(0, call)];
    assert [Start(0, call)] + [Advance(0, false)] == [Start(0, call), Advance(0, false)];
    var s1 := Next(s0, Start(0, call));
    s := Next(s1, Advance(0, false));
    assert s1.jobs == map[0 := Job(call, Begin)];
    assert s.jobs == map[0 := Job(call, FindUser)];
  }

  lemma LookupRepriced(seed: Db, s: State, item: cint, price: cint) returns (s3: State)
    requires s == State(seed, Some(Tx(0, seed, [], [])), map[0 := Job(Lookup("f"), FindUser)], [])
    requires price > 0 && item in seed.items && seed.items[item] != price
    ensures s3 == Next(s, Reprice(item, price, false)) && s3.db == SetPrice(seed, item, price) != seed
    ensures var s5 := Next(Next(s3, Advance(0, true)), Advance(0, false)); s5.db == seed && s5.tx.None?
  {
    hide Move, Rest, Execute;
    s3 := Next(s, Reprice(item, price, false));
    assert SetPrice(seed, item, price).items[item] == price;
    assert Next(s3, Advance(0, true)).jobs[0].pc == Rollback(Failed);
  }

  lemma RunNothing(s: State)
    ensures Run(s, []) == s
  {}

  lemma RunSnoc(s: State, events: seq<Event>, e: Event)
    ensures Run(s, events + [e]) == Next(Run(s, events), e)
  {}
}
