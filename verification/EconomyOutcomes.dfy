/**
 When an operation succeeds and what it then does, told in amounts, balances and past calls alone: first on one table,
 then over whole histories, where the past calls and their outcomes decide every later outcome.
 */
module EconomyOutcomes {
  import opened Prelude
  import opened Economy
  import opened EconomySerial
  import opened EconomyLedger
  import opened EconomyBonus
  import opened EconomyOverlap

  // ---------- on one table ----------

  /** Each of these moments is at least 24 hours before `now`. */
  ghost predicate DayPassed(ts: seq<int>, now: int) {
    forall t | t in ts :: now - t >= 86_400_000
  }

  /** Whether an operation goes through, its bonus being checked at `check`. */
  ghost predicate Succeeds(db: Db, op: Op, check: int) {
    match op
    case Deposit(_, amount) => 0 < amount
    case Withdraw(k, amount) => 0 < amount <= BalanceOrZero(db, k)
    case Transfer(a, b, currency, amount) => a != b && 0 < amount <= BalanceOrZero(db, Key(a, currency))
    case PurchaseCurrency(_, _) => true
    case DailyBonus(k) => DayPassed(BonusTimes(Ledger(db.log, k)), check)
    case ShopPurchase(k, price) => price <= BalanceOrZero(db, k)
  }

  /** What an operation that goes through adds to the balance of an account. */
  function Moved(op: Op, k: Key): int {
    match op
    case Deposit(x, amount) => if k == x then amount else 0
    case Withdraw(x, amount) => if k == x then -amount else 0
    case Transfer(a, b, currency, amount) =>
      if k == Key(a, currency) then -amount else if k == Key(b, currency) then amount else 0
    case PurchaseCurrency(x, amount) => if k == x then amount else 0
    case DailyBonus(x) => if k == x then 10_000 else 0
    case ShopPurchase(x, price) => if k == x then -price else 0
  }

  /** The transactions it leaves, stamped at `now`. */
  function Noted(op: Op, now: int): seq<Tx> {
    match op
    case Deposit(k, amount) => [Tx(k, DEPOSIT, amount, None, now)]
    case Withdraw(k, amount) => [Tx(k, WITHDRAWAL, amount, None, now)]
    case Transfer(a, b, currency, amount) =>
      [Tx(Key(a, currency), TRANSFER_OUT, amount, Some(Key(b, currency)), now),
       Tx(Key(b, currency), TRANSFER_IN, amount, Some(Key(a, currency)), now)]
    case PurchaseCurrency(k, amount) => [Tx(k, PURCHASE, amount, None, now)]
    case DailyBonus(k) => [Tx(k, DAILY_BONUS, 10_000, None, now)]
    case ShopPurchase(k, price) => [Tx(k, SHOP_PURCHASE, price, None, now)]
  }

  lemma {:induction false} ClaimedExactly(rows: seq<Tx>, now: int)
    ensures Claimed(rows, now) <==> !DayPassed(BonusTimes(rows), now)
  {
    LastBonusIsLatest(rows);
  }

  /** An operation goes through exactly when its amounts and the balances say so, and a bonus exactly when a day old. */
  lemma {:induction false} SucceedsExactly(db: Db, op: Op, check: int, stamp: int)
    ensures Apply(db, op, check, stamp).1 <==> Succeeds(db, op, check)
  {
    if op.DailyBonus? {
      ClaimedExactly(Ledger(db.log, op.key), check);
    }
  }

  lemma {:induction false} NotedIsRows(op: Op, now: int)
    ensures Noted(op, now) == Rows(op, now)
  {
  }

  /** It then moves exactly its amount, on its own accounts, and leaves its transactions; otherwise it does neither. */
  lemma {:induction false} MovesExactly(db: Db, op: Op, check: int, stamp: int, k: Key)
    ensures var (d, ok) := Apply(db, op, check, stamp);
            && BalanceOrZero(d, k) == BalanceOrZero(db, k) + (if ok then Moved(op, k) else 0)
            && d.log == db.log + (if ok then Noted(op, stamp) else [])
  {
    ApplyEffect(db, op, check, stamp, k);
    NotedIsRows(op, stamp);
  }

  // ---------- over histories ----------

  /** What past operations, those that went through, leave of an account that began at nothing. */
  function Net(past: seq<Finished>, k: Key): int {
    if past == [] then 0 else
      var f := past[|past| - 1];
      Net(past[..|past| - 1], k) + if f.ok then Moved(f.op, k) else 0
  }

  function StampedAt(times: seq<int>): int { if times == [] then 0 else times[|times| - 1] }

  /** When the account was paid a bonus. */
  function PaidAt(past: seq<Finished>, k: Key): seq<int> {
    if past == [] then [] else
      var f := past[|past| - 1];
      PaidAt(past[..|past| - 1], k) + if f.ok && f.op == DailyBonus(k) then [StampedAt(f.times)] else []
  }

  /** The operation gets as far as looking the account up, and so creates it if need be. */
  predicate Opens(op: Op, k: Key) {
    match op
    case Deposit(x, amount) => 0 < amount && k == x
    case Withdraw(x, amount) => 0 < amount && k == x
    case Transfer(a, b, currency, amount) => 0 < amount && a != b && k in {Key(a, currency), Key(b, currency)}
    case PurchaseCurrency(x, _) => k == x
    case DailyBonus(x) => k == x
    case ShopPurchase(x, _) => k == x
  }

  predicate Opened(past: seq<Finished>, k: Key) { exists m :: 0 <= m < |past| && Opens(past[m].op, k) }

  /** A bonus is checked at the second call, or at the third when the account must first be created. */
  function CheckedAt(past: seq<Finished>, k: Key, times: seq<int>): int {
    var i := if Opened(past, k) then 1 else 2;
    if i < |times| then times[i] else 0
  }

  /** Whether an operation goes through after these past operations. */
  ghost predicate GoesThrough(past: seq<Finished>, op: Op, times: seq<int>) {
    match op
    case Deposit(_, amount) => 0 < amount
    case Withdraw(k, amount) => 0 < amount <= Net(past, k)
    case Transfer(a, b, currency, amount) => a != b && 0 < amount <= Net(past, Key(a, currency))
    case PurchaseCurrency(_, _) => true
    case DailyBonus(k) => DayPassed(PaidAt(past, k), CheckedAt(past, k, times))
    case ShopPurchase(k, price) => price <= Net(past, k)
  }

  ghost predicate OutcomesFollow(finished: seq<Finished>) {
    forall n | 0 <= n < |finished| ::
      finished[n].ok <==> GoesThrough(finished[..n], finished[n].op, finished[n].times)
  }

  /** The table after a history is what the history says. */
  ghost predicate Tells(finished: seq<Finished>, k: Key) {
    var db := Atomically(NO_ACCOUNTS, finished);
    && (k in db.accounts <==> Opened(finished, k))
    && BalanceOrZero(db, k) == Net(finished, k)
    && BonusTimes(Ledger(db.log, k)) == PaidAt(finished, k)
  }

  lemma {:induction false} OpenedOneMore(past: seq<Finished>, f: Finished, k: Key)
    ensures Opened(past + [f], k) <==> Opened(past, k) || Opens(f.op, k)
  {
    var all := past + [f];
    if Opened(past, k) {
      var m :| 0 <= m < |past| && Opens(past[m].op, k);
      assert all[m] == past[m];
    }
    if Opens(f.op, k) {
      assert all[|past|] == f;
    }
  }

  lemma {:induction false} ApplyOpens(db: Db, op: Op, check: int, stamp: int, k: Key)
    ensures k in Apply(db, op, check, stamp).0.accounts <==> k in db.accounts || Opens(op, k)
  {
  }

  lemma {:induction false} PaidOneMore(db: Db, op: Op, check: int, stamp: int, k: Key)
    ensures var (d, ok) := Apply(db, op, check, stamp);
            BonusTimes(Ledger(d.log, k)) ==
            BonusTimes(Ledger(db.log, k)) + if ok && op == DailyBonus(k) then [stamp] else []
  {
    ApplyEffect(db, op, check, stamp, k);
    if Apply(db, op, check, stamp).1 {
      LedgerAppend(db.log, Rows(op, stamp), k);
      BonusTimesAppend(Ledger(db.log, k), Ledger(Rows(op, stamp), k));
      RowsBonus(op, stamp, k);
    }
  }

  lemma HistoryOneMore(past: seq<Finished>, f: Finished, k: Key)
    ensures var d := Atomically(NO_ACCOUNTS, past);
            Atomically(NO_ACCOUNTS, past + [f]) == Apply(d, f.op, CheckTime(d, f.op, f.times), StampTime(f.times)).0
    ensures Net(past + [f], k) == Net(past, k) + if f.ok then Moved(f.op, k) else 0
    ensures PaidAt(past + [f], k) ==
            PaidAt(past, k) + if f.ok && f.op == DailyBonus(k) then [StampedAt(f.times)] else []
  {
    assert (past + [f])[..|past|] == past;
  }

  /** One atomic action on a table of which the past tells, seen from one account. */
  lemma {:induction false} ApplyTells(db: Db, past: seq<Finished>, f: Finished, check: int, k: Key)
    requires k in db.accounts <==> Opened(past, k)
    requires BalanceOrZero(db, k) == Net(past, k) && BonusTimes(Ledger(db.log, k)) == PaidAt(past, k)
    requires Apply(db, f.op, check, StampTime(f.times)).1 == f.ok
    ensures var d, all := Apply(db, f.op, check, StampTime(f.times)).0, past + [f];
            && (k in d.accounts <==> Opened(all, k))
            && BalanceOrZero(d, k) == Net(all, k) && BonusTimes(Ledger(d.log, k)) == PaidAt(all, k)
  {
    HistoryOneMore(past, f, k);
    ApplyOpens(db, f.op, check, StampTime(f.times), k);
    OpenedOneMore(past, f, k);
    MovesExactly(db, f.op, check, StampTime(f.times), k);
    PaidOneMore(db, f.op, check, StampTime(f.times), k);
  }

  lemma {:induction false} TellsOneMore(past: seq<Finished>, f: Finished, k: Key)
    requires Tells(past, k)
    requires var d := Atomically(NO_ACCOUNTS, past);
             Apply(d, f.op, CheckTime(d, f.op, f.times), StampTime(f.times)).1 == f.ok
    ensures Tells(past + [f], k)
  {
    var d := Atomically(NO_ACCOUNTS, past);
    HistoryOneMore(past, f, k);
    ApplyTells(d, past, f, CheckTime(d, f.op, f.times), k);
  }

  /** On a table that the past tells of, the outcome is the one the past tells. */
  lemma {:induction false} OutcomeTold(past: seq<Finished>, op: Op, times: seq<int>)
    requires forall k: Key :: Tells(past, k)
    ensures var d := Atomically(NO_ACCOUNTS, past);
            Apply(d, op, CheckTime(d, op, times), StampTime(times)).1 <==> GoesThrough(past, op, times)
  {
    var d := Atomically(NO_ACCOUNTS, past);
    SucceedsExactly(d, op, CheckTime(d, op, times), StampTime(times));
    assert Tells(past, From(op));
  }

  lemma {:induction false} PrefixSame(finished: seq<Finished>, n: nat)
    requires n <= |finished| && SameOutcomes(NO_ACCOUNTS, finished)
    ensures SameOutcomes(NO_ACCOUNTS, finished[..n])
  {
    forall m | 0 <= m < n
      ensures var d, f := Atomically(NO_ACCOUNTS, finished[..n][..m]), finished[..n][m];
              Apply(d, f.op, CheckTime(d, f.op, f.times), StampTime(f.times)).1 == f.ok
    {
      assert finished[..n][..m] == finished[..m];
    }
  }

  lemma {:induction false} HistoryTells(finished: seq<Finished>)
    requires SameOutcomes(NO_ACCOUNTS, finished)
    ensures forall k: Key :: Tells(finished, k)
  {
    if finished == [] {
      assert forall k: Key :: Ledger([], k) == [];
    } else {
      var n := |finished| - 1;
      PrefixSame(finished, n);
      HistoryTells(finished[..n]);
      assert finished == finished[..n] + [finished[n]];
      forall k: Key ensures Tells(finished, k) {
        TellsOneMore(finished[..n], finished[n], k);
      }
    }
  }

  lemma {:induction false} FollowingIsSame(finished: seq<Finished>, n: nat)
    requires n <= |finished| && OutcomesFollow(finished)
    ensures SameOutcomes(NO_ACCOUNTS, finished[..n])
    decreases n, 0
  {
    forall m | 0 <= m < n
      ensures var d, f := Atomically(NO_ACCOUNTS, finished[..n][..m]), finished[..n][m];
              Apply(d, f.op, CheckTime(d, f.op, f.times), StampTime(f.times)).1 == f.ok
    {
      FollowingOne(finished, m);
      assert finished[..n][..m] == finished[..m] && finished[..n][m] == finished[m];
    }
  }

  lemma {:induction false} FollowingOne(finished: seq<Finished>, m: nat)
    requires m < |finished| && OutcomesFollow(finished)
    ensures var d, f := Atomically(NO_ACCOUNTS, finished[..m]), finished[m];
            Apply(d, f.op, CheckTime(d, f.op, f.times), StampTime(f.times)).1 == f.ok
    decreases m, 1
  {
    FollowingIsSame(finished, m);
    HistoryTells(finished[..m]);
    OutcomeTold(finished[..m], finished[m].op, finished[m].times);
  }

  /**
   Run one at a time from empty tables, operations have exactly the outcomes that the amounts of the earlier ones that
   went through call for.
   */
  lemma {:induction false} OutcomesExactly(finished: seq<Finished>)
    ensures SameOutcomes(NO_ACCOUNTS, finished) <==> OutcomesFollow(finished)
  {
    if SameOutcomes(NO_ACCOUNTS, finished) {
      forall n | 0 <= n < |finished|
        ensures finished[n].ok <==> GoesThrough(finished[..n], finished[n].op, finished[n].times)
      {
        PrefixSame(finished, n);
        HistoryTells(finished[..n]);
        OutcomeTold(finished[..n], finished[n].op, finished[n].times);
      }
    }
    if OutcomesFollow(finished) {
      FollowingIsSame(finished, |finished|);
      assert finished[..|finished|] == finished;
    }
  }

  /**
   And so in every interleaving in which operations in flight share no account: each outcome follows from those of the
   operations that ended before, and each account not in use holds what those that went through have left there.
   */
  lemma {:induction false} InterleavedOutcomes(ops: seq<Op>, events: seq<Event>)
    requires IsolatedRun(Initial(NO_ACCOUNTS, ops), events)
    ensures var s := Run(Initial(NO_ACCOUNTS, ops), events);
            && OutcomesFollow(s.finished)
            && forall k: Key | Free(s, k) :: BalanceOrZero(s.db, k) == Net(s.finished, k)
  {
    var s := Run(Initial(NO_ACCOUNTS, ops), events);
    Serializable(NO_ACCOUNTS, ops, events);
    OutcomesExactly(s.finished);
    HistoryTells(s.finished);
    forall k: Key | Free(s, k) ensures BalanceOrZero(s.db, k) == Net(s.finished, k) {
      assert Tells(s.finished, k);
      assert ViewOf(s.db, k) == ViewOf(Atomically(NO_ACCOUNTS, s.finished), k);
    }
  }
}
