/**
 When balances agree with the ledger at rest, whatever overlaps: exactly when operations that share an account move
 nothing on it.
 */
module EconomyAgreement {
  import opened Prelude
  import opened Economy
  import opened EconomySerial
  import opened EconomyLedger
  import opened EconomyOverlap

  /** Two different operations, both passing their first checks, move nothing on an account they share. */
  ghost predicate Harmless(ops: seq<Op>) {
    forall i, j, k | 0 <= i < |ops| && 0 <= j < |ops| && i != j && WellFormed(ops[i]) && WellFormed(ops[j])
      && k in Keys(ops[i]) && k in Keys(ops[j]) :: Effect(ops[i], k) == 0
  }

  // ---------- the invariant ----------

  predicate Holds(db: Db, k: Key, balance: int) { k in db.accounts && db.accounts[k] == balance }

  /** What the process carries is what its accounts still hold. */
  predicate Fresh(db: Db, p: Proc) {
    var op := p.op;
    match p.phase
    case Start => true
    case Creating => true
    case ReadingTo(b) => op.Transfer? && Holds(db, From(op), b)
    case CreatingTo(b) => op.Transfer? && Holds(db, From(op), b)
    case Checking(b) => op.DailyBonus? && Holds(db, From(op), b)
    case Writing(nb) => !op.Transfer? && Holds(db, From(op), nb - Delta(op))
    case WritingBoth(nf, nt) => op.Transfer? && Holds(db, From(op), nf + op.amount) && Holds(db, To(op), nt - op.amount)
    case Logging => !op.Transfer? && From(op) in db.accounts
    case Done(_) => true
  }

  /** The process has written this account and not yet recorded it. */
  predicate Owes(p: Proc, k: Key) { p.phase.Logging? && From(p.op) == k }

  function Recorded(db: Db, k: Key): int { SignedSum(Ledger(db.log, k)) }

  /** The balance is what is recorded, and what one process has written and not yet recorded. */
  ghost predicate Settled(s: Sys, k: Key) {
    && (forall i | 0 <= i < |s.procs| && Owes(s.procs[i], k) && Delta(s.procs[i].op) != 0 ::
          BalanceOrZero(s.db, k) == Recorded(s.db, k) + Delta(s.procs[i].op))
    && ((forall i | 0 <= i < |s.procs| && Owes(s.procs[i], k) :: Delta(s.procs[i].op) == 0) ==>
          BalanceOrZero(s.db, k) == Recorded(s.db, k))
  }

  ghost predicate Apart(s: Sys) {
    forall i, j, k | 0 <= i < |s.procs| && 0 <= j < |s.procs| && i != j
      && WellFormed(s.procs[i].op) && WellFormed(s.procs[j].op)
      && k in Keys(s.procs[i].op) && k in Keys(s.procs[j].op) :: Effect(s.procs[i].op, k) == 0
  }

  ghost predicate Steady(s: Sys) {
    && Apart(s) && FlightsWellFormed(s)
    && (forall i | 0 <= i < |s.procs| :: Fresh(s.db, s.procs[i]))
    && (forall k: Key :: Settled(s, k))
  }

  /** Accounts of other processes are as they were. */
  lemma FreshKept(db: Db, db': Db, p: Proc)
    requires Fresh(db, p)
    requires forall k | k in Keys(p.op) && k in db.accounts :: Holds(db', k, db.accounts[k])
    ensures Fresh(db', p)
  {
  }

  // ---------- what one call does ----------

  predicate ReadsOnly(phase: Phase) {
    phase.Start? || phase.Creating? || phase.ReadingTo? || phase.CreatingTo? || phase.Checking?
  }

  /** A call before the write moves no balance, and carries on what it has seen. */
  lemma ReadStep(db: Db, p: Proc, now: int)
    requires Fresh(db, p) && ReadsOnly(p.phase)
    ensures var r := Step(db, p.op, p.phase, now);
            && Fresh(r.0, Proc(p.op, r.1, p.times + [now])) && !r.1.Logging? && r.0.log == db.log
            && (forall k | k in db.accounts :: Holds(r.0, k, db.accounts[k]))
            && (forall k: Key :: BalanceOrZero(r.0, k) == BalanceOrZero(db, k))
  {
  }

  /** A call that writes or records moves each account's balance, and what is recorded of it, by the effect or not. */
  lemma WriteStep(db: Db, p: Proc, now: int)
    requires Fresh(db, p) && p.phase.Writing?
    ensures var r := Step(db, p.op, p.phase, now);
            && r.1 == Logging && r.0.log == db.log && From(p.op) in r.0.accounts
            && forall k: Key :: BalanceOrZero(r.0, k) == BalanceOrZero(db, k) + Effect(p.op, k)
  {
  }

  lemma {:induction false} RecordStep(db: Db, p: Proc, now: int)
    requires Fresh(db, p) && WellFormed(p.op) && (p.phase.Logging? || p.phase.WritingBoth?)
    ensures var r := Step(db, p.op, p.phase, now);
            && r.1 == Done(true)
            && (forall k: Key :: Recorded(r.0, k) == Recorded(db, k) + Effect(p.op, k))
            && (forall k: Key :: BalanceOrZero(r.0, k) ==
                  BalanceOrZero(db, k) + if p.phase.Logging? then 0 else Effect(p.op, k))
  {
    forall k: Key ensures SignedSum(Ledger(db.log + Rows(p.op, now), k)) == Recorded(db, k) + Effect(p.op, k) {
      LedgerAppend(db.log, Rows(p.op, now), k);
      SignedSumAppend(Ledger(db.log, k), Ledger(Rows(p.op, now), k));
      RowsSum(p.op, now, k);
    }
  }

  /** No call loses an account, and it changes only balances it has an effect on. */
  lemma StepHolds(db: Db, p: Proc, now: int)
    requires Fresh(db, p) && !p.phase.Done?
    ensures var db' := Step(db, p.op, p.phase, now).0;
            forall k | k in db.accounts :: k in db'.accounts && (Effect(p.op, k) == 0 ==> Holds(db', k, db.accounts[k]))
  {
  }

  lemma NoEffectElsewhere(op: Op, k: Key)
    requires k !in Keys(op)
    ensures Effect(op, k) == 0
  {
  }

  lemma {:induction false} OthersFresh(s: Sys, e: Event, j: nat)
    requires Steady(s) && e.pid < |s.procs| && !s.procs[e.pid].phase.Done? && j < |s.procs| && j != e.pid
    ensures Fresh(Exec(s, e).db, s.procs[j])
  {
    var p, q := s.procs[e.pid], s.procs[j];
    var db' := Step(s.db, p.op, p.phase, e.now).0;
    StepHolds(s.db, p, e.now);
    if InFlight(q) {
      if p.phase.Start? {
        StartHolds(s.db, p.op, e.now);
      }
      forall k | k in Keys(q.op) && k in s.db.accounts ensures Holds(db', k, s.db.accounts[k]) {
        if !p.phase.Start? {
          if k !in Keys(p.op) { NoEffectElsewhere(p.op, k); }
          assert Effect(p.op, k) == 0;
        }
      }
      FreshKept(s.db, db', q);
    }
  }

  lemma StartHolds(db: Db, op: Op, now: int)
    ensures Step(db, op, Start, now).0 == db
  {
  }

  // ---------- every call keeps the invariant ----------

  lemma {:induction false} ReadKeepsSettled(s: Sys, e: Event, k: Key)
    requires Steady(s) && e.pid < |s.procs| && ReadsOnly(s.procs[e.pid].phase)
    ensures Settled(Exec(s, e), k)
  {
    var p, s' := s.procs[e.pid], Exec(s, e);
    ReadStep(s.db, p, e.now);
    assert Settled(s, k);
    assert forall i | 0 <= i < |s.procs| :: Owes(s'.procs[i], k) <==> Owes(s.procs[i], k);
    assert forall i | 0 <= i < |s.procs| :: s'.procs[i].op == s.procs[i].op;
  }

  /** Any other process that owes on an account of this one moves nothing there, and neither does this one. */
  lemma {:induction false} OthersOweNothing(s: Sys, pid: nat, j: nat, k: Key)
    requires Steady(s) && pid < |s.procs| && j < |s.procs| && j != pid
    requires InFlight(s.procs[pid]) && k in Keys(s.procs[pid].op) && Owes(s.procs[j], k)
    ensures Delta(s.procs[j].op) == 0 && Effect(s.procs[pid].op, k) == 0
  {
    assert InFlight(s.procs[j]) && k in Keys(s.procs[j].op);
    assert Effect(s.procs[j].op, k) == 0;
  }

  lemma {:induction false} WriteKeepsSettled(s: Sys, e: Event, k: Key)
    requires Steady(s) && e.pid < |s.procs| && s.procs[e.pid].phase.Writing?
    ensures Settled(Exec(s, e), k)
  {
    var p, s' := s.procs[e.pid], Exec(s, e);
    WriteStep(s.db, p, e.now);
    assert Settled(s, k);
    assert forall i | 0 <= i < |s.procs| && i != e.pid :: s'.procs[i] == s.procs[i];
    assert Owes(s'.procs[e.pid], k) <==> From(p.op) == k;
    if From(p.op) == k {
      forall j | 0 <= j < |s.procs| && Owes(s.procs[j], k) ensures j != e.pid && Delta(s.procs[j].op) == 0 {
        OthersOweNothing(s, e.pid, j, k);
      }
      assert BalanceOrZero(s'.db, k) == Recorded(s'.db, k) + Delta(p.op);
    }
  }

  lemma {:induction false} RecordKeepsSettled(s: Sys, e: Event, k: Key)
    requires Steady(s) && e.pid < |s.procs| && s.procs[e.pid].phase.Logging?
    ensures Settled(Exec(s, e), k)
  {
    var p, s' := s.procs[e.pid], Exec(s, e);
    RecordStep(s.db, p, e.now);
    assert Settled(s, k);
    assert forall i | 0 <= i < |s.procs| && i != e.pid :: s'.procs[i] == s.procs[i];
    assert !Owes(s'.procs[e.pid], k);
    if From(p.op) == k {
      assert Owes(s.procs[e.pid], k) && Effect(p.op, k) == Delta(p.op);
      forall j | 0 <= j < |s.procs| && j != e.pid && Owes(s.procs[j], k)
        ensures Delta(s.procs[j].op) == 0 && Delta(p.op) == 0
      {
        OthersOweNothing(s, e.pid, j, k);
      }
      assert BalanceOrZero(s.db, k) == Recorded(s.db, k) + Delta(p.op);
    }
  }

  lemma {:induction false} TransferKeepsSettled(s: Sys, e: Event, k: Key)
    requires Steady(s) && e.pid < |s.procs| && s.procs[e.pid].phase.WritingBoth?
    ensures Settled(Exec(s, e), k)
  {
    var p, s' := s.procs[e.pid], Exec(s, e);
    RecordStep(s.db, p, e.now);
    assert Settled(s, k);
    assert forall i | 0 <= i < |s.procs| && i != e.pid :: s'.procs[i] == s.procs[i];
    assert !Owes(s'.procs[e.pid], k) && !Owes(s.procs[e.pid], k);
  }

  lemma {:induction false} StepperFresh(s: Sys, e: Event)
    requires Steady(s) && e.pid < |s.procs| && !s.procs[e.pid].phase.Done?
    ensures Fresh(Exec(s, e).db, Exec(s, e).procs[e.pid])
  {
    var p := s.procs[e.pid];
    assert Fresh(s.db, p);
    if ReadsOnly(p.phase) {
      ReadStep(s.db, p, e.now);
    } else if p.phase.Writing? {
      WriteStep(s.db, p, e.now);
    } else {
      RecordStep(s.db, p, e.now);
    }
  }

  lemma {:induction false} ExecSteady(s: Sys, e: Event)
    requires Steady(s)
    ensures Steady(Exec(s, e))
  {
    ExecFlights(s, e);
    if e.pid < |s.procs| && !s.procs[e.pid].phase.Done? {
      var phase := s.procs[e.pid].phase;
      StepperFresh(s, e);
      forall j | 0 <= j < |s.procs| && j != e.pid ensures Fresh(Exec(s, e).db, Exec(s, e).procs[j]) {
        OthersFresh(s, e, j);
      }
      forall k: Key ensures Settled(Exec(s, e), k) {
        if ReadsOnly(phase) {
          ReadKeepsSettled(s, e, k);
        } else if phase.Writing? {
          WriteKeepsSettled(s, e, k);
        } else if phase.Logging? {
          RecordKeepsSettled(s, e, k);
        } else {
          TransferKeepsSettled(s, e, k);
        }
      }
      assert forall i | 0 <= i < |s.procs| :: Exec(s, e).procs[i].op == s.procs[i].op;
    }
  }

  lemma {:induction false} RunSteady(db0: Db, ops: seq<Op>, events: seq<Event>)
    requires Agrees(db0) && Harmless(ops)
    ensures Steady(Run(Initial(db0, ops), events))
    decreases |events|
  {
    if events == [] {
      var s := Initial(db0, ops);
      forall k: Key ensures Settled(s, k) {
        assert BalanceOrZero(db0, k) == SignedSum(Ledger(db0.log, k));
      }
    } else {
      RunSteady(db0, ops, events[..|events| - 1]);
      ExecSteady(Run(Initial(db0, ops), events[..|events| - 1]), events[|events| - 1]);
    }
  }

  // ---------- exactly when ----------

  /** From this table, balances agree with the ledger whenever an interleaving has come to rest. */
  ghost predicate AgreesAtRest(db0: Db, ops: seq<Op>) {
    forall events: seq<Event> | Quiet(Run(Initial(db0, ops), events)) :: Agrees(Run(Initial(db0, ops), events).db)
  }

  lemma {:induction false} HarmlessAgrees(db0: Db, ops: seq<Op>)
    requires Agrees(db0) && Harmless(ops)
    ensures AgreesAtRest(db0, ops)
  {
    forall events: seq<Event> | Quiet(Run(Initial(db0, ops), events))
      ensures Agrees(Run(Initial(db0, ops), events).db)
    {
      var s := Run(Initial(db0, ops), events);
      RunSteady(db0, ops, events);
      forall k: Key ensures BalanceOrZero(s.db, k) == SignedSum(Ledger(s.db.log, k)) {
        assert Settled(s, k);
        assert forall i | 0 <= i < |s.procs| :: !Owes(s.procs[i], k);
      }
    }
  }

  lemma {:induction false} TwoRows(log: seq<Tx>, a: Op, b: Op, k: Key)
    requires WellFormed(a) && WellFormed(b)
    ensures SignedSum(Ledger(log + Rows(a, 0) + Rows(b, 0), k))
            == SignedSum(Ledger(log, k)) + Effect(a, k) + Effect(b, k)
  {
    LedgerAppend(log, Rows(a, 0), k);
    LedgerAppend(log + Rows(a, 0), Rows(b, 0), k);
    SignedSumAppend(Ledger(log, k), Ledger(Rows(a, 0), k));
    SignedSumAppend(Ledger(log + Rows(a, 0), k), Ledger(Rows(b, 0), k));
    RowsSum(a, 0, k);
    RowsSum(b, 0, k);
  }

  /** Two operations that overlap on an account which the first changes leave its balance short of its ledger. */
  lemma {:induction false} OverlapDisagrees(db0: Db, ops: seq<Op>, i: nat, j: nat, k: Key)
    requires i < |ops| && j < |ops| && i != j && CanRun(db0, ops[i]) && CanRun(db0, ops[j]) && Agrees(db0)
    requires k in Keys(ops[i]) && k in Keys(ops[j]) && Effect(ops[i], k) != 0
    ensures !AgreesAtRest(db0, ops)
  {
    LostBalance(db0, ops, i, j, k);
    TwoRows(db0.log, ops[i], ops[j], k);
    var s := Run(Initial(db0, ops), Overlap(ops, i, j));
    assert BalanceOrZero(db0, k) == SignedSum(Ledger(db0.log, k));
    assert BalanceOrZero(s.db, k) != SignedSum(Ledger(s.db.log, k));
  }

  /**
   Balances agree with the ledger at rest in every interleaving if and only if operations that share an account move
   nothing on it: from every table that agrees, and just as well from every one that some history leaves behind.
   */
  lemma {:induction false} AgreementExactly(ops: seq<Op>)
    ensures (forall db0: Db | Agrees(db0) :: AgreesAtRest(db0, ops)) <==> Harmless(ops)
    ensures (forall setup: seq<Finished> :: AgreesAtRest(Atomically(NO_ACCOUNTS, setup), ops)) <==> Harmless(ops)
  {
    forall setup: seq<Finished> ensures Agrees(Atomically(NO_ACCOUNTS, setup)) {
      assert forall k: Key :: Ledger([], k) == [];
      assert Agrees(NO_ACCOUNTS);
      AtomicallyAgrees(NO_ACCOUNTS, setup);
    }
    if Harmless(ops) {
      forall db0: Db | Agrees(db0) ensures AgreesAtRest(db0, ops) {
        HarmlessAgrees(db0, ops);
      }
    } else {
      var i, j, k :| 0 <= i < |ops| && 0 <= j < |ops| && i != j && WellFormed(ops[i]) && WellFormed(ops[j])
        && k in Keys(ops[i]) && k in Keys(ops[j]) && Effect(ops[i], k) != 0;
      var db0 := Atomically(NO_ACCOUNTS, FundingFor(ops[i], ops[j]));
      FundedForBoth(ops[i], ops[j]);
      OverlapDisagrees(db0, ops, i, j, k);
    }
  }
}
