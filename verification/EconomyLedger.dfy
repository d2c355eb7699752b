/**
 What holds of balances and of the ledger: non-negative balances and paired transfers under every
 interleaving, and balances that agree with the ledger under every isolated one.
 */
module EconomyLedger {
  import opened Prelude
  import opened Economy
  import opened EconomySerial

  // ---------- balances never go below zero ----------

  ghost predicate NonNegative(db: Db) {
    forall k | k in db.accounts :: db.accounts[k] >= 0
  }

  /** Every amount handed to `purchaseCurrency` is non-negative; the service does not check it. */
  predicate Careful(ops: seq<Op>) {
    forall i | 0 <= i < |ops| && ops[i].PurchaseCurrency? :: ops[i].amount >= 0
  }

  /** The values an operation carries between its calls are themselves non-negative. */
  predicate CarriesNonNegative(p: Proc) {
    && (InFlight(p) ==> WellFormed(p.op))
    && match p.phase
       case ReadingTo(b) => b >= 0
       case CreatingTo(b) => b >= 0
       case Checking(b) => b >= 0
       case Writing(nb) => nb >= 0
       case WritingBoth(nf, nt) => nf >= 0 && nt >= 0
       case _ => true
  }

  lemma {:induction false} StepNonNegative(db: Db, p: Proc, now: int)
    requires NonNegative(db) && CarriesNonNegative(p)
    requires p.op.PurchaseCurrency? ==> p.op.amount >= 0
    ensures var (db', phase) := Step(db, p.op, p.phase, now);
            NonNegative(db') && CarriesNonNegative(Proc(p.op, phase, p.times + [now]))
  {
  }

  lemma {:induction false} RunNonNegative(db0: Db, ops: seq<Op>, events: seq<Event>)
    requires NonNegative(db0) && Careful(ops)
    ensures var s := Run(Initial(db0, ops), events);
            && NonNegative(s.db)
            && |s.procs| == |ops|
            && (forall i | 0 <= i < |ops| :: s.procs[i].op == ops[i] && CarriesNonNegative(s.procs[i]))
    decreases |events|
  {
    if events != [] {
      var before, e := events[..|events| - 1], events[|events| - 1];
      RunNonNegative(db0, ops, before);
      var s := Run(Initial(db0, ops), before);
      if e.pid < |s.procs| && !s.procs[e.pid].phase.Done? {
        StepNonNegative(s.db, s.procs[e.pid], e.now);
      }
    }
  }

  /** An unchecked negative purchase, alone on a new account, leaves a negative balance. */
  lemma {:induction false} NegativePurchase(ops: seq<Op>, pid: nat)
    requires pid < |ops| && ops[pid].PurchaseCurrency? && ops[pid].amount < 0
    ensures !NonNegative(Run(Initial(Db(map[], []), ops), [Event(pid, 0)] + [Event(pid, 0)] + [Event(pid, 0)]).db)
  {
    var s0, e, op := Initial(Db(map[], []), ops), Event(pid, 0), ops[pid];
    RunOneMore(s0, [], e);
    assert [] + [e] == [e];
    RunOneMore(s0, [e], e);
    RunOneMore(s0, [e] + [e], e);
    var s2 := Run(s0, [e] + [e]);
    assert s2.procs[pid].phase == Writing(op.amount);
    var s3 := Run(s0, [e] + [e] + [e]);
    assert op.key in s3.db.accounts && s3.db.accounts[op.key] == op.amount;
  }

  /** Balances stay non-negative in every interleaving exactly when every purchased amount is non-negative. */
  lemma {:induction false} NonNegativeExactly(ops: seq<Op>)
    ensures (forall db0: Db, events: seq<Event> | NonNegative(db0) :: NonNegative(Run(Initial(db0, ops), events).db))
            <==> Careful(ops)
  {
    if Careful(ops) {
      forall db0: Db, events: seq<Event> | NonNegative(db0)
        ensures NonNegative(Run(Initial(db0, ops), events).db)
      {
        RunNonNegative(db0, ops, events);
      }
    } else {
      var pid :| 0 <= pid < |ops| && ops[pid].PurchaseCurrency? && ops[pid].amount < 0;
      NegativePurchase(ops, pid);
      assert NonNegative(Db(map[], []));
    }
  }

  // ---------- transfers come in pairs ----------

  /** Row `i + 1` is the receiving side of row `i`: same amount and time, each naming the other's account. */
  predicate Matched(log: seq<Tx>, i: int)
  {
    && 0 <= i && i + 1 < |log|
    && log[i].peer.Some?
    && log[i].kind == TRANSFER_OUT
    && log[i + 1] == Tx(log[i].peer.value, TRANSFER_IN, log[i].amount, Some(log[i].account), log[i].createdAt)
    && log[i].account != log[i + 1].account
    && log[i].account.currency == log[i + 1].account.currency
    && log[i].amount > 0
  }

  /** Every outgoing transfer row is followed by its incoming row, and every incoming one follows its outgoing row. */
  ghost predicate Paired(log: seq<Tx>) {
    forall i | 0 <= i < |log| ::
      && (log[i].kind == TRANSFER_OUT ==> Matched(log, i))
      && (log[i].kind == TRANSFER_IN ==> Matched(log, i - 1))
  }

  lemma {:induction false} AppendPaired(log: seq<Tx>, op: Op, now: int)
    requires Paired(log) && WellFormed(op)
    ensures Paired(log + Rows(op, now))
  {
    var log' := log + Rows(op, now);
    forall i | 0 <= i < |log'|
      ensures log'[i].kind == TRANSFER_OUT ==> Matched(log', i)
      ensures log'[i].kind == TRANSFER_IN ==> Matched(log', i - 1)
    {
      if i < |log| {
        assert log'[i] == log[i];
        assert log[i].kind == TRANSFER_OUT ==> Matched(log, i);
        assert log[i].kind == TRANSFER_IN ==> Matched(log, i - 1);
        assert Matched(log, i) ==> Matched(log', i);
      }
    }
  }

  /** Both rows of a transfer appear together or not at all, in every interleaving. */
  lemma {:induction false} RunPaired(db0: Db, ops: seq<Op>, events: seq<Event>)
    requires Paired(db0.log)
    ensures var s := Run(Initial(db0, ops), events);
            Paired(s.db.log) && forall i | 0 <= i < |s.procs| && InFlight(s.procs[i]) :: WellFormed(s.procs[i].op)
    decreases |events|
  {
    if events != [] {
      var before, e := events[..|events| - 1], events[|events| - 1];
      RunPaired(db0, ops, before);
      var s := Run(Initial(db0, ops), before);
      if e.pid < |s.procs| && InFlight(s.procs[e.pid]) {
        AppendPaired(s.db.log, s.procs[e.pid].op, e.now);
      }
    }
  }

  // ---------- balances agree with the ledger ----------

  function Signed(tx: Tx): int {
    match tx.kind
    case WITHDRAWAL => -tx.amount
    case TRANSFER_OUT => -tx.amount
    case SHOP_PURCHASE => -tx.amount
    case _ => tx.amount
  }

  function SignedSum(rows: seq<Tx>): int {
    if rows == [] then 0 else SignedSum(rows[..|rows| - 1]) + Signed(rows[|rows| - 1])
  }

  function BalanceOrZero(db: Db, k: Key): int {
    if k in db.accounts then db.accounts[k] else 0
  }

  /** Every balance is the signed sum of its account's transactions. */
  ghost predicate Agrees(db: Db) {
    forall k: Key :: BalanceOrZero(db, k) == SignedSum(Ledger(db.log, k))
  }

  lemma {:induction false} SignedSumAppend(a: seq<Tx>, b: seq<Tx>)
    ensures SignedSum(a + b) == SignedSum(a) + SignedSum(b)
  {
    if b == [] {
      assert a + b == a;
    } else {
      assert (a + b)[..|a + b| - 1] == a + b[..|b| - 1];
      SignedSumAppend(a, b[..|b| - 1]);
    }
  }

  /** What a completed operation does to one account. */
  function Effect(op: Op, k: Key): int {
    if k == From(op) then Delta(op) else if op.Transfer? && k == To(op) then op.amount else 0
  }

  lemma {:induction false} LedgerSingle(tx: Tx, k: Key)
    ensures SignedSum(Ledger([tx], k)) == if tx.account == k then Signed(tx) else 0
  {
    assert [tx][..0] == [];
    assert Ledger([tx], k) == if tx.account == k then [tx] else [];
  }

  lemma {:induction false} PairSum(sent: Tx, received: Tx, k: Key)
    ensures SignedSum(Ledger([sent, received], k)) ==
            (if sent.account == k then Signed(sent) else 0) + (if received.account == k then Signed(received) else 0)
  {
    assert [sent, received] == [sent] + [received];
    LedgerAppend([sent], [received], k);
    SignedSumAppend(Ledger([sent], k), Ledger([received], k));
    LedgerSingle(sent, k);
    LedgerSingle(received, k);
  }

  /** An operation's rows add up, account by account, to what it does. */
  lemma {:induction false} RowsSum(op: Op, now: int, k: Key)
    requires WellFormed(op)
    ensures SignedSum(Ledger(Rows(op, now), k)) == Effect(op, k)
  {
    if op.Transfer? {
      var sent := Tx(From(op), TRANSFER_OUT, op.amount, Some(To(op)), now);
      var received := Tx(To(op), TRANSFER_IN, op.amount, Some(From(op)), now);
      assert Rows(op, now) == [sent, received];
      PairSum(sent, received, k);
    } else {
      var tx := Tx(From(op), KindOf(op), Amount(op), None, now);
      assert Rows(op, now) == [tx];
      assert Signed(tx) == Delta(op);
      LedgerSingle(tx, k);
    }
  }

  /** The atomic action moves each balance by its effect and appends its rows, or does neither. */
  lemma {:induction false} ApplyEffect(db: Db, op: Op, check: int, stamp: int, k: Key)
    ensures var r := Apply(db, op, check, stamp);
            && BalanceOrZero(r.0, k) == BalanceOrZero(db, k) + (if r.1 then Effect(op, k) else 0)
            && r.0.log == (if r.1 then db.log + Rows(op, stamp) else db.log)
            && (r.1 ==> WellFormed(op))
  {
  }

  /** The atomic action keeps every balance equal to the signed sum of its ledger. */
  lemma {:induction false} ApplyAgrees(db: Db, op: Op, check: int, stamp: int)
    requires Agrees(db)
    ensures Agrees(Apply(db, op, check, stamp).0)
  {
    var r := Apply(db, op, check, stamp);
    var db', ok := r.0, r.1;
    forall k: Key ensures BalanceOrZero(db', k) == SignedSum(Ledger(db'.log, k)) {
      ApplyEffect(db, op, check, stamp, k);
      assert BalanceOrZero(db, k) == SignedSum(Ledger(db.log, k));
      if ok {
        LedgerAppend(db.log, Rows(op, stamp), k);
        SignedSumAppend(Ledger(db.log, k), Ledger(Rows(op, stamp), k));
        RowsSum(op, stamp, k);
      }
    }
  }

  // ---------- each currency is conserved ----------

  /** The sum of all balances in one currency. */
  ghost function Total(accounts: map<Key, int>, currency: string): int
    decreases |accounts|
  {
    if accounts == map[] then 0 else
      var k :| k in accounts;
      Share(k, accounts[k], currency) + Total(accounts - {k}, currency)
  }

  function Share(k: Key, amount: int, currency: string): int {
    if k.currency == currency then amount else 0
  }

  /** What the outside world put into a currency, by one row; a transfer row puts in nothing. */
  function Inflow(tx: Tx, currency: string): int {
    if tx.account.currency != currency || tx.kind.TRANSFER_OUT? || tx.kind.TRANSFER_IN? then 0 else Signed(tx)
  }

  /** Deposits, purchases and bonuses of a currency, less withdrawals and shop purchases. */
  function NetInflow(log: seq<Tx>, currency: string): int {
    if log == [] then 0 else NetInflow(log[..|log| - 1], currency) + Inflow(log[|log| - 1], currency)
  }

  ghost predicate Conserves(db: Db) {
    forall currency: string :: Total(db.accounts, currency) == NetInflow(db.log, currency)
  }

  lemma {:induction false} TotalPicks(accounts: map<Key, int>, currency: string, k: Key)
    requires k in accounts
    ensures Total(accounts, currency) == Share(k, accounts[k], currency) + Total(accounts - {k}, currency)
    decreases |accounts|
  {
    var x :| x in accounts &&
      Total(accounts, currency) == Share(x, accounts[x], currency) + Total(accounts - {x}, currency);
    if x != k {
      TotalPicks(accounts - {x}, currency, k);
      TotalPicks(accounts - {k}, currency, x);
      assert accounts - {x} - {k} == accounts - {k} - {x};
    }
  }

  lemma {:induction false} TotalUpdate(accounts: map<Key, int>, currency: string, k: Key, v: int)
    ensures Total(accounts[k := v], currency) ==
            Total(accounts, currency) + Share(k, v - (if k in accounts then accounts[k] else 0), currency)
  {
    TotalPicks(accounts[k := v], currency, k);
    assert accounts[k := v] - {k} == accounts - {k};
    if k in accounts {
      TotalPicks(accounts, currency, k);
    } else {
      assert accounts - {k} == accounts;
    }
  }

  lemma {:induction false} NetInflowAppend(a: seq<Tx>, b: seq<Tx>, currency: string)
    ensures NetInflow(a + b, currency) == NetInflow(a, currency) + NetInflow(b, currency)
  {
    if b == [] {
      assert a + b == a;
    } else {
      assert (a + b)[..|a + b| - 1] == a + b[..|b| - 1];
      NetInflowAppend(a, b[..|b| - 1], currency);
    }
  }

  lemma {:induction false} RowsInflow(op: Op, now: int, currency: string)
    ensures NetInflow(Rows(op, now), currency) == if op.Transfer? then 0 else Share(From(op), Delta(op), currency)
  {
    var rows := Rows(op, now);
    if op.Transfer? {
      assert rows[..1][..0] == [];
      assert NetInflow(rows[..1], currency) == 0;
    } else {
      assert rows[..0] == [];
    }
  }

  lemma {:induction false} EnsureTotal(db: Db, k: Key, currency: string)
    ensures Total(Ensure(db, k).accounts, currency) == Total(db.accounts, currency)
  {
    TotalUpdate(db.accounts, currency, k, 0);
  }

  lemma {:induction false} SingleConserves(db: Db, op: Op, check: int, stamp: int, currency: string)
    requires !op.Transfer? && Total(db.accounts, currency) == NetInflow(db.log, currency)
    ensures var d := Apply(db, op, check, stamp).0; Total(d.accounts, currency) == NetInflow(d.log, currency)
  {
    var d := Ensure(db, From(op));
    EnsureTotal(db, From(op), currency);
    TotalUpdate(d.accounts, currency, From(op), d.accounts[From(op)] + Delta(op));
    NetInflowAppend(db.log, Rows(op, stamp), currency);
    RowsInflow(op, stamp, currency);
  }

  /** Moving an amount between two accounts of one currency changes no total. */
  lemma {:induction false} MoveKeepsTotals(accounts: map<Key, int>, k: Key, k': Key, amount: int, currency: string)
    requires k in accounts && k' in accounts && k != k' && k.currency == k'.currency
    ensures Total(accounts[k := accounts[k] - amount][k' := accounts[k'] + amount], currency) ==
              Total(accounts, currency)
  {
    TotalUpdate(accounts, currency, k, accounts[k] - amount);
    TotalUpdate(accounts[k := accounts[k] - amount], currency, k', accounts[k'] + amount);
  }

  lemma {:induction false} TransferConserves(db: Db, op: Op, check: int, stamp: int, currency: string)
    requires op.Transfer? && Total(db.accounts, currency) == NetInflow(db.log, currency)
    ensures var d := Apply(db, op, check, stamp).0; Total(d.accounts, currency) == NetInflow(d.log, currency)
  {
    if WellFormed(op) {
      var k, k' := From(op), To(op);
      EnsureTotal(db, k, currency);
      EnsureTotal(Ensure(db, k), k', currency);
      MoveKeepsTotals(Ensure(Ensure(db, k), k').accounts, k, k', op.amount, currency);
      NetInflowAppend(db.log, Rows(op, stamp), currency);
      RowsInflow(op, stamp, currency);
    }
  }

  /** The atomic action adds to each currency's total exactly what its rows say came in. */
  lemma {:induction false} ApplyConserves(db: Db, op: Op, check: int, stamp: int)
    requires Conserves(db)
    ensures Conserves(Apply(db, op, check, stamp).0)
  {
    var d := Apply(db, op, check, stamp).0;
    forall currency: string ensures Total(d.accounts, currency) == NetInflow(d.log, currency) {
      if op.Transfer? {
        TransferConserves(db, op, check, stamp, currency);
      } else {
        SingleConserves(db, op, check, stamp, currency);
      }
    }
  }

  // ---------- over whole runs ----------

  lemma {:induction false} AtomicallyAgrees(db0: Db, finished: seq<Finished>)
    requires Agrees(db0)
    ensures Agrees(Atomically(db0, finished))
    decreases |finished|
  {
    if finished != [] {
      var before, f := finished[..|finished| - 1], finished[|finished| - 1];
      AtomicallyAgrees(db0, before);
      ApplyAgrees(Atomically(db0, before), f.op, CheckTime(Atomically(db0, before), f.op, f.times), StampTime(f.times));
    }
  }

  lemma {:induction false} AtomicallyConserves(db0: Db, finished: seq<Finished>)
    requires Conserves(db0)
    ensures Conserves(Atomically(db0, finished))
    decreases |finished|
  {
    if finished != [] {
      var before, f := finished[..|finished| - 1], finished[|finished| - 1];
      AtomicallyConserves(db0, before);
      ApplyConserves(Atomically(db0, before), f.op, CheckTime(Atomically(db0, before), f.op, f.times),
          StampTime(f.times));
    }
  }

  lemma {:induction false} LedgerCounts(log: seq<Tx>, tx: Tx)
    ensures multiset(log)[tx] == multiset(Ledger(log, tx.account))[tx]
  {
    if log != [] {
      var rest := log[..|log| - 1];
      assert log == rest + [log[|log| - 1]];
      LedgerCounts(rest, tx);
    }
  }

  /** Tables with equal ledgers hold the same rows. */
  lemma {:induction false} SameLedgersSameRows(a: seq<Tx>, b: seq<Tx>)
    requires forall k: Key :: Ledger(a, k) == Ledger(b, k)
    ensures multiset(a) == multiset(b)
  {
    forall tx: Tx ensures multiset(a)[tx] == multiset(b)[tx] {
      LedgerCounts(a, tx);
      LedgerCounts(b, tx);
    }
  }

  lemma {:induction false} NetInflowWithout(b: seq<Tx>, i: nat, currency: string)
    requires i < |b|
    ensures NetInflow(b, currency) == NetInflow(b[..i] + b[i + 1..], currency) + Inflow(b[i], currency)
    ensures multiset(b[..i] + b[i + 1..]) == multiset(b) - multiset{b[i]}
  {
    assert b == (b[..i] + [b[i]]) + b[i + 1..];
    NetInflowAppend(b[..i], b[i + 1..], currency);
    NetInflowAppend(b[..i] + [b[i]], b[i + 1..], currency);
    assert (b[..i] + [b[i]])[..i] == b[..i];
  }

  /** Net inflow does not depend on the order of the rows. */
  lemma {:induction false} NetInflowOfRows(a: seq<Tx>, b: seq<Tx>, currency: string)
    requires multiset(a) == multiset(b)
    ensures NetInflow(a, currency) == NetInflow(b, currency)
    decreases |a|
  {
    assert |a| == |multiset(a)| == |multiset(b)| == |b|;
    if a != [] {
      var last := |a| - 1;
      assert a[last] in multiset(b);
      var i :| 0 <= i < |b| && b[i] == a[last];
      NetInflowWithout(b, i, currency);
      NetInflowWithout(a, last, currency);
      NetInflowOfRows(a[..last] + a[last + 1..], b[..i] + b[i + 1..], currency);
    }
  }

  /**
   Ledger agreement, in every isolated interleaving and at every moment of it: the balance of an
   account that no operation in flight holds is the signed sum of that account's transactions.
   */
  lemma {:induction false} LedgerAgreement(db0: Db, ops: seq<Op>, events: seq<Event>)
    requires Agrees(db0) && IsolatedRun(Initial(db0, ops), events)
    ensures var s := Run(Initial(db0, ops), events);
            forall k: Key | Free(s, k) :: BalanceOrZero(s.db, k) == SignedSum(Ledger(s.db.log, k))
  {
    var s := Run(Initial(db0, ops), events);
    var serial := Atomically(db0, s.finished);
    Serializable(db0, ops, events);
    AtomicallyAgrees(db0, s.finished);
    forall k: Key | Free(s, k) ensures BalanceOrZero(s.db, k) == SignedSum(Ledger(s.db.log, k)) {
      assert ViewOf(s.db, k) == ViewOf(serial, k);
      assert BalanceOrZero(serial, k) == SignedSum(Ledger(serial.log, k));
    }
  }

  /**
   Conservation, once an isolated interleaving has come to rest: each currency's total is what its
   deposits, purchases and bonuses brought in less its withdrawals and shop purchases.
   */
  lemma {:induction false} Conservation(db0: Db, ops: seq<Op>, events: seq<Event>)
    requires Conserves(db0)
    requires IsolatedRun(Initial(db0, ops), events) && Quiet(Run(Initial(db0, ops), events))
    ensures Conserves(Run(Initial(db0, ops), events).db)
  {
    var s := Run(Initial(db0, ops), events);
    var serial := Atomically(db0, s.finished);
    SerializableAtRest(db0, ops, events);
    AtomicallyConserves(db0, s.finished);
    SameLedgersSameRows(s.db.log, serial.log);
    forall currency: string ensures Total(s.db.accounts, currency) == NetInflow(s.db.log, currency) {
      NetInflowOfRows(s.db.log, serial.log, currency);
    }
  }
}
