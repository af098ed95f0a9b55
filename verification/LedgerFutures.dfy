/** What can still follow a run: every serial order of calls is a run, a price update lasts in
    every continuation exactly when no transaction was open, and the seed leads to a cash-out
    that breaks the books. */
module LedgerFutures {
  import opened Bytes
  import opened LedgerTables
  import opened LedgerRuns
  import opened LedgerLaws
  import opened LedgerTheorems

  // ----- continuations -----

  lemma NextLogGrows(s: State, e: Event)
    ensures s.log <= Next(s, e).log
  {
    hide Move;
  }

  lemma {:induction false} LogGrows(s: State, events: seq<Event>, more: seq<Event>)
    ensures Run(s, events).log <= Run(s, events + more).log
    decreases |more|
  {
    hide Next;
    if more == [] {
      assert events + more == events;
    } else {
      var rest, last := more[..|more| - 1], more[|more| - 1];
      LogGrows(s, events, rest);
      assert events + more == (events + rest) + [last];
      RunSnoc(s, events + rest, last);
      NextLogGrows(Run(s, events + rest), last);
    }
  }

  // ----- price updates -----

  /** However the run goes on: once no transaction is open, the update is in the commit order. */
  ghost predicate Lasts(seed: Db, events: seq<Event>, item: cint, price: cint) {
    forall more ::
      var s, t := Run(Initial(seed), events), Run(Initial(seed), events + [Reprice(item, price, false)] + more);
      t.tx.None? ==> s.log <= t.log && Priced(item, price) in t.log[|s.log|..]
  }

  /** The owner of the open transaction can fail and roll back at once. */
  lemma GivesUp(seed: Db, events: seq<Event>) returns (more: seq<Event>)
    requires Run(Initial(seed), events).tx.Some?
    ensures var s, t := Run(Initial(seed), events), Run(Initial(seed), events + more);
      t.tx.None? && t.log == s.log && t.db == s.tx.value.saved
  {
    hide Rest, Move, Replays, Replay, Refused, First, Seen, Run;
    RunKeeps(seed, events);
    var s := Run(Initial(seed), events);
    var owner := s.tx.value.owner;
    if s.jobs[owner].pc.Rollback? {
      more := [Advance(owner, false)];
      RunSnoc(Initial(seed), events, Advance(owner, false));
    } else {
      more := [Advance(owner, true)] + [Advance(owner, false)];
      RunSnoc(Initial(seed), events, Advance(owner, true));
      RunSnoc(Initial(seed), events + [Advance(owner, true)], Advance(owner, false));
      assert events + more == events + [Advance(owner, true)] + [Advance(owner, false)];
    }
  }

  /** A price update lasts, whatever follows, if and only if no transaction is open when it is
      issued. */
  lemma PriceLasts(seed: Db, events: seq<Event>, item: cint, price: cint)
    requires price > 0
    ensures Lasts(seed, events, item, price) <==> Run(Initial(seed), events).tx.None?
  {
    hide Run, SetPrice;
    var s := Run(Initial(seed), events);
    var issued := events + [Reprice(item, price, false)];
    RunSnoc(Initial(seed), events, Reprice(item, price, false));
    if s.tx.None? {
      forall more ensures s.log + [Priced(item, price)] <= Run(Initial(seed), issued + more).log {
        LogGrows(Initial(seed), issued, more);
      }
      forall more
        ensures s.log <= Run(Initial(seed), issued + more).log
        ensures Priced(item, price) in Run(Initial(seed), issued + more).log[|s.log|..]
      {
        var log := Run(Initial(seed), issued + more).log;
        assert s.log + [Priced(item, price)] <= log;
        assert log[|s.log|..][0] == Priced(item, price);
      }
    } else {
      var more := GivesUp(seed, issued);
      assert Run(Initial(seed), issued + more).log == s.log;
    }
  }

  // ----- every serial order is a run -----

  lemma {:induction false} RunsOut(seed: Db, events: seq<Event>, id: nat) returns (more: seq<Event>)
    requires var s := Run(Initial(seed), events);
      && id in s.jobs && s.tx.Some? && s.tx.value.owner == id
      && InTransaction(s.jobs[id].pc) && Fits(s.jobs[id].call, s.jobs[id].pc)
    ensures var s, t := Run(Initial(seed), events), Run(Initial(seed), events + more);
      var Job(call, pc) := s.jobs[id];
      var r := Rest(call, pc, s.db);
      && t.tx.None? && t.db == (if r.pc.Commit? then r.db else s.tx.value.saved)
      && t.jobs == s.jobs[id := Job(call, Finished(r.pc.outcome, r.pc.Commit?))]
    decreases var pc := Run(Initial(seed), events).jobs[id].pc; if InBody(pc) then 1 + Rank(pc) else 0
  {
    hide Run, Move;
    var s := Run(Initial(seed), events);
    var step := Advance(id, false);
    RunSnoc(Initial(seed), events, step);
    more := [step];
    if InBody(s.jobs[id].pc) {
      var rest := RunsOut(seed, events + [step], id);
      more := [step] + rest;
      assert events + more == events + [step] + rest;
    }
  }

  lemma RunCall(seed: Db, events: seq<Event>, id: nat, call: Call) returns (more: seq<Event>)
    requires var s := Run(Initial(seed), events); s.tx.None? && id !in s.jobs
    ensures var s, t := Run(Initial(seed), events), Run(Initial(seed), events + more);
      && t.tx.None? && t.db == Serial(call, s.db).1
      && t.jobs == s.jobs[id := Job(call, Finished(Serial(call, s.db).0, Commits(call, s.db)))]
  {
    hide Run, Move, Rest, Refused, First;
    var s := Run(Initial(seed), events);
    RunSnoc(Initial(seed), events, Start(id, call));
    more := [Start(id, call)];
    if !Refused(call) {
      var begun := events + [Start(id, call)];
      RunSnoc(Initial(seed), begun, Advance(id, false));
      FirstFits(call);
      var rest := RunsOut(seed, begun + [Advance(id, false)], id);
      more := more + [Advance(id, false)] + rest;
      assert events + more == begun + [Advance(id, false)] + rest;
    }
  }

  function SerialAll(db: Db, calls: seq<Call>): Db
    decreases |calls|
  {
    if calls == [] then db else Serial(calls[|calls| - 1], SerialAll(db, calls[..|calls| - 1])).1
  }

  /** Any calls, one at a time in any order, are a run: so the runs are no fewer than the serial
      orders they are equal to. */
  lemma {:induction false} SerialOrderRuns(seed: Db, calls: seq<Call>) returns (events: seq<Event>)
    ensures var t := Run(Initial(seed), events);
      t.tx.None? && t.db == SerialAll(seed, calls) && forall id :: id in t.jobs ==> id < |calls|
    decreases |calls|
  {
    hide Serial;
    events := [];
    if calls != [] {
      events := SerialOrderRuns(seed, calls[..|calls| - 1]);
      var more := RunCall(seed, events, |calls| - 1, calls[|calls| - 1]);
      events := events + more;
    }
  }

  // ----- the limit of the books is reached -----

  lemma {:induction false} SeedHasNoUsers(rows: seq<Row>)
    ensures SeedDb(rows).users == map[]
  {
    if rows != [] {
      SeedHasNoUsers(rows[..|rows| - 1]);
    }
  }

  lemma SerialAllSnoc(db: Db, calls: seq<Call>, call: Call)
    ensures SerialAll(db, calls + [call]) == Serial(call, SerialAll(db, calls)).1
  {
    hide Serial;
    assert (calls + [call])[..|calls|] == calls;
  }

  /** A deposit, run alone on good tables. */
  lemma Pays(db: Db, calls: seq<Call>, user: cint, amount: cint)
    requires amount > 0 && RowsOk(SerialAll(db, calls)) && BalanceLaw(SerialAll(db, calls))
    ensures var before, after := SerialAll(db, calls), SerialAll(db, calls + [Deposit(user, amount)]);
      RowsOk(after) && BalanceLaw(after) && user in after.users && after.users[user] == BalanceOf(before, user) + amount
  {
    hide SerialAll, RowsOk, StockLaw, Excess, Rest;
    var before := SerialAll(db, calls);
    SerialAllSnoc(db, calls, Deposit(user, amount));
    DepositIs(user, amount, before);
    DepositKeeps(user, amount, before);
  }

  /** From the rows of init.sql, three deposits and a cash-out break the books: of 2^32 + 5 grosze
      it pays 5. */
  lemma TruncationReached() returns (events: seq<Event>)
    ensures var s := Run(Initial(SeedDb(SEED_ROWS)), events);
      s.tx.None? && !BalanceLaw(Durable(s)) && 3 in s.jobs && s.jobs[3] == Job(CashOut(1), Finished(Refunded(5), true))
  {
    hide Run, SeedDb, SerialAll, RowsOk, BalanceLaw, StockLaw, Serial, Commits, SEED_ROWS;
    var seed := SeedDb(SEED_ROWS);
    SeedRowsAreGood();
    SeedIsSound(SEED_ROWS);
    SeedHasNoUsers(SEED_ROWS);
    SerialNothing(seed);
    var one, two, three := [Deposit(1, INT_MAX)], [Deposit(1, INT_MAX), Deposit(1, INT_MAX)],
                           [Deposit(1, INT_MAX), Deposit(1, INT_MAX), Deposit(1, 7)];
    assert [] + [Deposit(1, INT_MAX)] == one && one + [Deposit(1, INT_MAX)] == two && two + [Deposit(1, 7)] == three;
    Pays(seed, [], 1, INT_MAX);
    Pays(seed, one, 1, INT_MAX);
    Pays(seed, two, 1, 7);
    CashOutTruncates(1, SerialAll(seed, three));
    events := SerialOrderRuns(seed, three);
    var more := RunCall(seed, events, 3, CashOut(1));
    events := events + more;
  }

  /** And two deposits put the balance where the log statement of a cash-out is rejected: the call fails
      and the money stays. */
  lemma RejectionReached() returns (events: seq<Event>)
    ensures var s := Run(Initial(SeedDb(SEED_ROWS)), events);
      && s.tx.None? && 2 in s.jobs && s.jobs[2] == Job(CashOut(1), Finished(Failed, false))
      && 1 in s.db.users && s.db.users[1] == 0x8000_0005
  {
    hide Run, SeedDb, SerialAll, RowsOk, BalanceLaw, StockLaw, Serial, Commits, SEED_ROWS;
    var seed := SeedDb(SEED_ROWS);
    SeedRowsAreGood();
    SeedIsSound(SEED_ROWS);
    SeedHasNoUsers(SEED_ROWS);
    SerialNothing(seed);
    var one, two := [Deposit(1, INT_MAX)], [Deposit(1, INT_MAX), Deposit(1, 6)];
    assert [] + [Deposit(1, INT_MAX)] == one && one + [Deposit(1, 6)] == two;
    Pays(seed, [], 1, INT_MAX);
    Pays(seed, one, 1, 6);
    CashOutRejected(1, SerialAll(seed, two));
    events := SerialOrderRuns(seed, two);
    var more := RunCall(seed, events, 2, CashOut(1));
    events := events + more;
  }

  lemma SerialNothing(db: Db)
    ensures SerialAll(db, []) == db
  {}
}
