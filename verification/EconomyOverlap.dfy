/**
 What happens when operations in flight share an account: each operation overwrites what the other wrote after it
 had read. So an economy is serializable exactly when its operations share no account.
 */
module EconomyOverlap {
  import opened Prelude
  import opened Economy
  import opened EconomySerial
  import opened EconomyLedger
  import opened EconomyBonus

  /** The system ended as some one-at-a-time run of its finished operations would have. */
  ghost predicate Equivalent(db0: Db, s: Sys) {
    && SameOutcomes(db0, s.finished)
    && forall k: Key | Free(s, k) :: ViewOf(s.db, k) == ViewOf(Atomically(db0, s.finished), k)
  }

  ghost predicate Share(a: Op, b: Op) { exists k :: k in Keys(a) && k in Keys(b) }

  /** No two operations that pass their first checks share an account. */
  ghost predicate Separate(ops: seq<Op>) {
    forall i, j | 0 <= i < |ops| && 0 <= j < |ops| && i != j && WellFormed(ops[i]) && WellFormed(ops[j]) ::
      !Share(ops[i], ops[j])
  }

  // ---------- one operation up to its write, and from there to its end ----------

  /** Run alone from here, with every clock reading zero, the operation succeeds without creating an account. */
  predicate CanRun(db: Db, op: Op) {
    && WellFormed(op) && Keys(op) <= db.accounts.Keys && Affordable(op, db.accounts[From(op)])
    && (op.DailyBonus? ==> !Claimed(Ledger(db.log, From(op)), 0))
  }

  /** How many calls the operation makes before it writes a balance, and from there on. */
  function Reads(op: Op): nat { if op.Transfer? || op.DailyBonus? then 2 else 1 }

  function Writes(op: Op): nat { if op.Transfer? then 1 else 2 }

  /** The operation about to write what it has computed from `db`. */
  function Ready(db: Db, op: Op): Phase
    requires Keys(op) <= db.accounts.Keys
  {
    if op.Transfer? then WritingBoth(db.accounts[From(op)] - op.amount, db.accounts[To(op)] + op.amount)
    else Writing(db.accounts[From(op)] + Delta(op))
  }

  /** The balances after the operation has written what it computed from `db`. */
  function Overwritten(accounts: map<Key, int>, db: Db, op: Op): map<Key, int>
    requires Keys(op) <= db.accounts.Keys
  {
    if op.Transfer? then
      accounts[From(op) := db.accounts[From(op)] - op.amount][To(op) := db.accounts[To(op)] + op.amount]
    else accounts[From(op) := db.accounts[From(op)] + Delta(op)]
  }

  function Zeros(n: nat): (s: seq<int>)
    ensures |s| == n && forall i | 0 <= i < n :: s[i] == 0
  {
    if n == 0 then [] else Zeros(n - 1) + [0]
  }

  function Calls(pid: nat, n: nat): seq<Event> {
    if n == 0 then [] else Calls(pid, n - 1) + [Event(pid, 0)]
  }

  lemma {:induction false} RunCalls(s: Sys, pid: nat, n: nat)
    requires n > 0
    ensures Run(s, Calls(pid, n)) == Exec(Run(s, Calls(pid, n - 1)), Event(pid, 0))
  {
    RunOneMore(s, Calls(pid, n - 1), Event(pid, 0));
  }

  /** One call of one process, unless it has ended. */
  lemma {:induction false} OneCall(s: Sys, pid: nat, p: Proc)
    requires pid < |s.procs| && s.procs[pid] == p && !p.phase.Done?
    ensures var r := Step(s.db, p.op, p.phase, 0);
            Exec(s, Event(pid, 0)) ==
            Sys(r.0, s.procs[pid := Proc(p.op, r.1, p.times + [0])],
                if r.1.Done? then s.finished + [Finished(pid, p.op, p.times + [0], r.1.ok)] else s.finished)
  {
  }

  /** The reading steps on their own. */
  lemma StepsToReady(db: Db, op: Op)
    requires CanRun(db, op)
    ensures var first := Step(db, op, Start, 0);
            && first.0 == db
            && if Reads(op) == 1 then first.1 == Ready(db, op)
               else !first.1.Done? && Step(db, op, first.1, 0) == (db, Ready(db, op))
  {
  }

  lemma {:induction false} FewCalls(s: Sys, pid: nat)
    ensures Run(s, Calls(pid, 1)) == Exec(s, Event(pid, 0))
    ensures Run(s, Calls(pid, 2)) == Exec(Exec(s, Event(pid, 0)), Event(pid, 0))
  {
    RunCalls(s, pid, 1);
    RunCalls(s, pid, 2);
  }

  lemma {:induction false} ReadsReach(s: Sys, pid: nat, op: Op)
    requires pid < |s.procs| && s.procs[pid] == Proc(op, Start, []) && CanRun(s.db, op)
    ensures Run(s, Calls(pid, Reads(op))) ==
            Sys(s.db, s.procs[pid := Proc(op, Ready(s.db, op), Zeros(Reads(op)))], s.finished)
  {
    StepsToReady(s.db, op);
    FewCalls(s, pid);
    OneCall(s, pid, Proc(op, Start, []));
    assert [] + [0] == Zeros(1);
    if Reads(op) == 2 {
      SecondRead(s, pid, op, Step(s.db, op, Start, 0).1);
    }
  }

  lemma {:induction false} SecondRead(s: Sys, pid: nat, op: Op, phase: Phase)
    requires pid < |s.procs| && CanRun(s.db, op) && !phase.Done? && Step(s.db, op, phase, 0) == (s.db, Ready(s.db, op))
    ensures Exec(Sys(s.db, s.procs[pid := Proc(op, phase, Zeros(1))], s.finished), Event(pid, 0)) ==
            Sys(s.db, s.procs[pid := Proc(op, Ready(s.db, op), Zeros(2))], s.finished)
  {
    var s1 := Sys(s.db, s.procs[pid := Proc(op, phase, Zeros(1))], s.finished);
    OneCall(s1, pid, Proc(op, phase, Zeros(1)));
    assert Zeros(1) + [0] == Zeros(2);
    assert s1.procs[pid := Proc(op, Ready(s.db, op), Zeros(2))] == s.procs[pid := Proc(op, Ready(s.db, op), Zeros(2))];
  }

  /** The writing steps on their own. */
  lemma StepsToDone(db: Db, op: Op, was: Db)
    requires Keys(op) <= was.accounts.Keys && Keys(op) <= db.accounts.Keys
    ensures var after := Db(Overwritten(db.accounts, was, op), db.log + Rows(op, 0));
            var first := Step(db, op, Ready(was, op), 0);
            if Writes(op) == 1 then first == (after, Done(true))
            else first.1 == Logging && Step(first.0, op, Logging, 0) == (after, Done(true))
  {
  }

  /** The system once process `pid` has written and ended. */
  function AfterWrites(s: Sys, pid: nat, op: Op, was: Db): Sys
    requires pid < |s.procs| && Keys(op) <= was.accounts.Keys
  {
    var times := Zeros(Reads(op) + Writes(op));
    Sys(Db(Overwritten(s.db.accounts, was, op), s.db.log + Rows(op, 0)),
        s.procs[pid := Proc(op, Done(true), times)], s.finished + [Finished(pid, op, times, true)])
  }

  lemma {:induction false} TransferFinishes(s: Sys, pid: nat, op: Op, was: Db)
    requires op.Transfer? && Keys(op) <= was.accounts.Keys && Keys(op) <= s.db.accounts.Keys
    requires pid < |s.procs| && s.procs[pid] == Proc(op, Ready(was, op), Zeros(2))
    ensures Run(s, Calls(pid, 1)) == AfterWrites(s, pid, op, was)
  {
    StepsToDone(s.db, op, was);
    FewCalls(s, pid);
    OneCall(s, pid, Proc(op, Ready(was, op), Zeros(2)));
    assert Zeros(2) + [0] == Zeros(3);
  }

  lemma {:induction false} SingleFinishes(s: Sys, pid: nat, op: Op, was: Db)
    requires !op.Transfer? && Keys(op) <= was.accounts.Keys && Keys(op) <= s.db.accounts.Keys
    requires pid < |s.procs| && s.procs[pid] == Proc(op, Ready(was, op), Zeros(Reads(op)))
    ensures Run(s, Calls(pid, 2)) == AfterWrites(s, pid, op, was)
  {
    StepsToDone(s.db, op, was);
    FewCalls(s, pid);
    var r := Reads(op);
    var logging, last := Proc(op, Logging, Zeros(r + 1)), Proc(op, Done(true), Zeros(r + 2));
    OneCall(s, pid, Proc(op, Ready(was, op), Zeros(r)));
    assert Zeros(r) + [0] == Zeros(r + 1) && Zeros(r + 1) + [0] == Zeros(r + 2);
    var s1 := Sys(Step(s.db, op, Ready(was, op), 0).0, s.procs[pid := logging], s.finished);
    assert Exec(s, Event(pid, 0)) == s1;
    OneCall(s1, pid, logging);
    assert s1.procs[pid := last] == s.procs[pid := last];
  }

  lemma {:induction false} WritesFinish(s: Sys, pid: nat, op: Op, was: Db)
    requires Keys(op) <= was.accounts.Keys && Keys(op) <= s.db.accounts.Keys
    requires pid < |s.procs| && s.procs[pid] == Proc(op, Ready(was, op), Zeros(Reads(op)))
    ensures Run(s, Calls(pid, Writes(op))) == AfterWrites(s, pid, op, was)
  {
    if op.Transfer? {
      TransferFinishes(s, pid, op, was);
    } else {
      SingleFinishes(s, pid, op, was);
    }
  }

  // ---------- the lost update ----------

  /** Both operations read; then the first writes and ends, then the second. */
  function Overlap(ops: seq<Op>, i: nat, j: nat): seq<Event>
    requires i < |ops| && j < |ops|
  {
    Calls(i, Reads(ops[i])) + Calls(j, Reads(ops[j])) + Calls(i, Writes(ops[i])) + Calls(j, Writes(ops[j]))
  }

  function Ended(ops: seq<Op>, i: nat): Finished
    requires i < |ops|
  {
    Finished(i, ops[i], Zeros(Reads(ops[i]) + Writes(ops[i])), true)
  }

  /** After both have read. */
  function BothReady(db0: Db, ops: seq<Op>, i: nat, j: nat): seq<Proc>
    requires i < |ops| && j < |ops| && Keys(ops[i]) <= db0.accounts.Keys && Keys(ops[j]) <= db0.accounts.Keys
  {
    Initial(db0, ops).procs[i := Proc(ops[i], Ready(db0, ops[i]), Zeros(Reads(ops[i])))]
                           [j := Proc(ops[j], Ready(db0, ops[j]), Zeros(Reads(ops[j])))]
  }

  lemma {:induction false} OverlapReads(db0: Db, ops: seq<Op>, i: nat, j: nat)
    requires i < |ops| && j < |ops| && i != j && CanRun(db0, ops[i]) && CanRun(db0, ops[j])
    ensures Run(Initial(db0, ops), Calls(i, Reads(ops[i])) + Calls(j, Reads(ops[j])))
            == Sys(db0, BothReady(db0, ops, i, j), [])
  {
    var s0 := Initial(db0, ops);
    RunAppend(s0, Calls(i, Reads(ops[i])), Calls(j, Reads(ops[j])));
    ReadsReach(s0, i, ops[i]);
    ReadsReach(Run(s0, Calls(i, Reads(ops[i]))), j, ops[j]);
  }

  lemma {:induction false} OverlapWrites(db0: Db, s: Sys, i: nat, a: Op, j: nat, b: Op)
    requires Keys(a) <= db0.accounts.Keys && Keys(b) <= db0.accounts.Keys && s.db == db0
    requires i < |s.procs| && j < |s.procs| && i != j
    requires s.procs[i] == Proc(a, Ready(db0, a), Zeros(Reads(a)))
    requires s.procs[j] == Proc(b, Ready(db0, b), Zeros(Reads(b)))
    ensures Run(s, Calls(i, Writes(a)) + Calls(j, Writes(b))) == AfterWrites(AfterWrites(s, i, a, db0), j, b, db0)
  {
    RunAppend(s, Calls(i, Writes(a)), Calls(j, Writes(b)));
    WritesFinish(s, i, a, db0);
    WritesFinish(AfterWrites(s, i, a, db0), j, b, db0);
  }

  lemma {:induction false} OverlapRun(db0: Db, ops: seq<Op>, i: nat, j: nat)
    requires i < |ops| && j < |ops| && i != j && CanRun(db0, ops[i]) && CanRun(db0, ops[j])
    ensures var s2 := Sys(db0, BothReady(db0, ops, i, j), []);
            Run(Initial(db0, ops), Overlap(ops, i, j)) == AfterWrites(AfterWrites(s2, i, ops[i], db0), j, ops[j], db0)
  {
    var first := Calls(i, Reads(ops[i])) + Calls(j, Reads(ops[j]));
    var wa, wb := Calls(i, Writes(ops[i])), Calls(j, Writes(ops[j]));
    assert Overlap(ops, i, j) == first + (wa + wb);
    RunAppend(Initial(db0, ops), first, wa + wb);
    OverlapReads(db0, ops, i, j);
    OverlapWrites(db0, Sys(db0, BothReady(db0, ops, i, j), []), i, ops[i], j, ops[j]);
  }

  lemma {:induction false} OverlapEnds(db0: Db, ops: seq<Op>, i: nat, j: nat)
    requires i < |ops| && j < |ops| && i != j && CanRun(db0, ops[i]) && CanRun(db0, ops[j])
    ensures var s := Run(Initial(db0, ops), Overlap(ops, i, j));
            && s.finished == [Ended(ops, i), Ended(ops, j)] && Quiet(s)
            && s.db == Db(Overwritten(Overwritten(db0.accounts, db0, ops[i]), db0, ops[j]),
                          db0.log + Rows(ops[i], 0) + Rows(ops[j], 0))
  {
    OverlapRun(db0, ops, i, j);
  }

  /** The balance of a shared account shows the second operation only. */
  lemma OverwrittenBalance(db: Db, a: Op, b: Op, k: Key)
    requires WellFormed(a) && WellFormed(b) && k in Keys(b)
    requires Keys(a) <= db.accounts.Keys && Keys(b) <= db.accounts.Keys
    ensures var accounts := Overwritten(Overwritten(db.accounts, db, a), db, b);
            k in accounts && accounts[k] == db.accounts[k] + Effect(b, k)
  {
  }

  /** Run one after the other, two operations that both succeed add up. */
  lemma {:induction false} SerialBalance(db0: Db, f: Finished, g: Finished, k: Key)
    requires f.ok && g.ok && SameOutcomes(db0, [f, g])
    ensures BalanceOrZero(Atomically(db0, [f, g]), k) == BalanceOrZero(db0, k) + Effect(f.op, k) + Effect(g.op, k)
  {
    var d := Atomically(db0, [f]);
    assert [f, g][..1] == [f] && [f, g][..0] == [] && [f][..0] == [];
    assert [f, g][0] == f && [f, g][1] == g;
    ApplyEffect(db0, f.op, CheckTime(db0, f.op, f.times), StampTime(f.times), k);
    ApplyEffect(d, g.op, CheckTime(d, g.op, g.times), StampTime(g.times), k);
  }

  /** Two balances of one account that differ tell two runs apart. */
  lemma BalanceTellsApart(db0: Db, s: Sys, k: Key, shown: int, due: int)
    requires Quiet(s) && ViewOf(s.db, k).balance == Some(shown) && shown != due
    requires SameOutcomes(db0, s.finished) ==> BalanceOrZero(Atomically(db0, s.finished), k) == due
    ensures !Equivalent(db0, s)
  {
    assert Free(s, k);
    assert SameOutcomes(db0, s.finished) ==> ViewOf(Atomically(db0, s.finished), k).balance != Some(shown);
  }

  lemma {:induction false} LostBalance(db0: Db, ops: seq<Op>, i: nat, j: nat, k: Key)
    requires i < |ops| && j < |ops| && i != j && CanRun(db0, ops[i]) && CanRun(db0, ops[j]) && k in Keys(ops[j])
    ensures var s := Run(Initial(db0, ops), Overlap(ops, i, j));
            && s.finished == [Ended(ops, i), Ended(ops, j)] && Quiet(s)
            && s.db.log == db0.log + Rows(ops[i], 0) + Rows(ops[j], 0)
            && ViewOf(s.db, k).balance == Some(db0.accounts[k] + Effect(ops[j], k))
  {
    OverlapEnds(db0, ops, i, j);
    OverwrittenBalance(db0, ops[i], ops[j], k);
  }

  /**
   Any two operations that share an account, both able to run, the first of which changes it: when both read before
   either writes, both report success and both leave their rows, and the account's balance shows the second alone. A
   one-at-a-time run in which both succeed would show both.
   */
  lemma {:induction false} LostUpdate(db0: Db, ops: seq<Op>, i: nat, j: nat, k: Key)
    requires i < |ops| && j < |ops| && i != j && CanRun(db0, ops[i]) && CanRun(db0, ops[j])
    requires k in Keys(ops[i]) && k in Keys(ops[j]) && Effect(ops[i], k) != 0
    ensures var s := Run(Initial(db0, ops), Overlap(ops, i, j));
            && s.finished == [Ended(ops, i), Ended(ops, j)] && Ended(ops, i).ok && Ended(ops, j).ok && Quiet(s)
            && s.db.log == db0.log + Rows(ops[i], 0) + Rows(ops[j], 0)
            && ViewOf(s.db, k).balance == Some(db0.accounts[k] + Effect(ops[j], k))
            && (SameOutcomes(db0, s.finished) ==>
                  BalanceOrZero(Atomically(db0, s.finished), k)
                  == db0.accounts[k] + Effect(ops[i], k) + Effect(ops[j], k))
            && !Equivalent(db0, s)
  {
    LostBalance(db0, ops, i, j, k);
    var shown, f, g := db0.accounts[k] + Effect(ops[j], k), Ended(ops, i), Ended(ops, j);
    if SameOutcomes(db0, [f, g]) {
      SerialBalance(db0, f, g, k);
    }
    BalanceTellsApart(db0, Run(Initial(db0, ops), Overlap(ops, i, j)), k, shown, shown + Effect(ops[i], k));
  }

  lemma {:induction false} DepositsLost(db0: Db, ops: seq<Op>, i: nat, j: nat, k: Key, amount: int)
    requires i < |ops| && j < |ops| && i != j && ops[i] == ops[j] == Deposit(k, amount) && amount > 0
    requires k in db0.accounts && db0.accounts[k] == 0
    ensures var s := Run(Initial(db0, ops), Overlap(ops, i, j));
            && s.finished == [Ended(ops, i), Ended(ops, j)] && s.finished[0].ok && s.finished[1].ok && Quiet(s)
            && SameOutcomes(db0, s.finished)
            && ViewOf(s.db, k).balance == Some(amount)
            && BalanceOrZero(Atomically(db0, s.finished), k) == 2 * amount
  {
    assert CanRun(db0, ops[i]);
    LostUpdate(db0, ops, i, j, k);
    DepositsSucceed(db0, [Ended(ops, i), Ended(ops, j)]);
  }

  /** Two deposits of one amount, for instance, leave one amount where one after the other they leave two. */
  lemma {:induction false} TwoDeposits(k: Key, amount: int)
    requires amount > 0
    ensures var db0, ops := Db(map[k := 0], []), [Deposit(k, amount), Deposit(k, amount)];
            var s := Run(Initial(db0, ops), Overlap(ops, 0, 1));
            && s.finished == [Ended(ops, 0), Ended(ops, 1)] && s.finished[0].ok && s.finished[1].ok && Quiet(s)
            && SameOutcomes(db0, s.finished)
            && ViewOf(s.db, k).balance == Some(amount)
            && BalanceOrZero(Atomically(db0, s.finished), k) == 2 * amount
  {
    var db0, ops := Db(map[k := 0], []), [Deposit(k, amount), Deposit(k, amount)];
    DepositsLost(db0, ops, 0, 1, k, amount);
  }

  lemma {:induction false} DepositsSucceed(db0: Db, finished: seq<Finished>)
    requires forall n | 0 <= n < |finished| :: finished[n].op.Deposit? && finished[n].op.amount > 0 && finished[n].ok
    ensures SameOutcomes(db0, finished)
  {
  }

  // ---------- the collision of two operations that move nothing ----------

  lemma MovesNothing(op: Op, k: Key)
    requires WellFormed(op) && k in Keys(op) && Effect(op, k) == 0
    ensures (op == PurchaseCurrency(k, 0) || op == ShopPurchase(k, 0)) && From(op) == k
  {
  }

  /** The first two calls of such an operation on a table without its account, and on one where it has appeared. */
  lemma CreatingSteps(op: Op, k: Key)
    requires op == PurchaseCurrency(k, 0) || op == ShopPurchase(k, 0)
    ensures var without, with_ := Db(map[], []), Db(map[k := 0], []);
            && Step(without, op, Start, 0) == (without, Creating)
            && Step(without, op, Creating, 0) == (with_, Writing(0))
            && Step(with_, op, Creating, 0) == (with_, Done(false))
            && Apply(without, op, 0, 0).1
  {
    assert map[][k := 0] == map[k := 0];
  }

  lemma {:induction false} BothFindItMissing(ops: seq<Op>, i: nat, j: nat, k: Key)
    requires i < |ops| && j < |ops| && i != j
    requires ops[i] == PurchaseCurrency(k, 0) || ops[i] == ShopPurchase(k, 0)
    requires ops[j] == PurchaseCurrency(k, 0) || ops[j] == ShopPurchase(k, 0)
    ensures var s := Run(Initial(Db(map[], []), ops), [Event(i, 0)] + [Event(j, 0)]);
            && s.db == Db(map[], []) && s.finished == [] && |s.procs| == |ops|
            && s.procs[i] == Proc(ops[i], Creating, [0]) && s.procs[j] == Proc(ops[j], Creating, [0])
  {
    var e, s0 := [Event(i, 0)], Initial(Db(map[], []), ops);
    CreatingSteps(ops[i], k);
    CreatingSteps(ops[j], k);
    assert [] + [0] == [0] && [] + e == e;
    RunOneMore(s0, [], Event(i, 0));
    OneCall(s0, i, Proc(ops[i], Start, []));
    var s1 := Run(s0, e);
    assert s1 == s0.(procs := s0.procs[i := Proc(ops[i], Creating, [0])]);
    RunOneMore(s0, e, Event(j, 0));
    OneCall(s1, j, Proc(ops[j], Start, []));
  }

  /** Both find the account missing; the second to create it fails. */
  lemma {:induction false} CreationFails(ops: seq<Op>, i: nat, j: nat, k: Key)
    requires i < |ops| && j < |ops| && i != j
    requires ops[i] == PurchaseCurrency(k, 0) || ops[i] == ShopPurchase(k, 0)
    requires ops[j] == PurchaseCurrency(k, 0) || ops[j] == ShopPurchase(k, 0)
    ensures var s := Run(Initial(Db(map[], []), ops), [Event(i, 0)] + [Event(j, 0)] + [Event(i, 0)] + [Event(j, 0)]);
            s.finished == [Finished(j, ops[j], [0, 0], false)]
  {
    var e, f, s0 := [Event(i, 0)], [Event(j, 0)], Initial(Db(map[], []), ops);
    BothFindItMissing(ops, i, j, k);
    CreatingSteps(ops[i], k);
    CreatingSteps(ops[j], k);
    RunOneMore(s0, e + f, Event(i, 0));
    OneCall(Run(s0, e + f), i, Proc(ops[i], Creating, [0]));
    RunOneMore(s0, e + f + e, Event(j, 0));
    OneCall(Run(s0, e + f + e), j, Proc(ops[j], Creating, [0]));
    assert [0] + [0] == [0, 0];
  }

  /** The second to create the account fails, which alone it would not. */
  lemma {:induction false} CreationCollides(ops: seq<Op>, i: nat, j: nat, k: Key)
    requires i < |ops| && j < |ops| && i != j && WellFormed(ops[i]) && WellFormed(ops[j])
    requires k in Keys(ops[i]) && k in Keys(ops[j]) && Effect(ops[i], k) == 0 == Effect(ops[j], k)
    ensures var db0 := Db(map[], []);
            var s := Run(Initial(db0, ops), [Event(i, 0)] + [Event(j, 0)] + [Event(i, 0)] + [Event(j, 0)]);
            && |s.finished| == 1 && s.finished[0].op == ops[j] && !s.finished[0].ok && Apply(db0, ops[j], 0, 0).1
            && !Equivalent(db0, s)
  {
    MovesNothing(ops[i], k);
    MovesNothing(ops[j], k);
    CreationFails(ops, i, j, k);
    CreatingSteps(ops[j], k);
    var f := Finished(j, ops[j], [0, 0], false);
    assert [f][..0] == [] && Atomically(Db(map[], []), []) == Db(map[], []);
    assert !SameOutcomes(Db(map[], []), [f]) by {
      assert [f][0] == f;
    }
  }

  // ---------- tables the service can reach ----------

  const NO_ACCOUNTS := Db(map[], [])

  /** One deposit of the amount on each account, one after the other. */
  function Funding(keys: seq<Key>, amount: int): seq<Finished> {
    if keys == [] then [] else
      Funding(keys[..|keys| - 1], amount) + [Finished(0, Deposit(keys[|keys| - 1], amount), Zeros(3), true)]
  }

  ghost predicate Funded(db: Db, keys: seq<Key>, amount: int) {
    && (forall k | k in keys :: k in db.accounts)
    && (forall k | k in db.accounts :: db.accounts[k] >= amount)
    && (forall k: Key :: BonusTimes(Ledger(db.log, k)) == [])
  }

  lemma {:induction false} DepositFunds(db: Db, keys: seq<Key>, k: Key, amount: int)
    requires Funded(db, keys, amount) && amount > 0
    ensures Funded(Apply(db, Deposit(k, amount), 0, 0).0, keys + [k], amount)
  {
    var op := Deposit(k, amount);
    var db' := Apply(db, op, 0, 0).0;
    forall x: Key ensures BonusTimes(Ledger(db'.log, x)) == [] {
      AppendBonus(db.log, op, 0, x);
    }
  }

  lemma {:induction false} FundingFunds(keys: seq<Key>, amount: int)
    requires amount > 0
    ensures Funded(Atomically(NO_ACCOUNTS, Funding(keys, amount)), keys, amount)
  {
    if keys != [] {
      var n := |keys| - 1;
      var before, f := Funding(keys[..n], amount), Finished(0, Deposit(keys[n], amount), Zeros(3), true);
      FundingFunds(keys[..n], amount);
      DepositFunds(Atomically(NO_ACCOUNTS, before), keys[..n], keys[n], amount);
      assert keys == keys[..n] + [keys[n]] && (before + [f])[..|before|] == before;
    } else {
      assert forall k: Key :: Ledger([], k) == [];
    }
  }

  function AllKeys(op: Op): seq<Key> { if op.Transfer? then [From(op), To(op)] else [From(op)] }

  function Needed(op: Op): int { if Cost(op).Some? then Cost(op).value else 0 }

  lemma FundedCanRun(db: Db, keys: seq<Key>, amount: int, op: Op)
    requires Funded(db, keys, amount) && WellFormed(op) && Needed(op) <= amount
    requires forall k | k in AllKeys(op) :: k in keys
    ensures CanRun(db, op)
  {
    assert AllKeys(op)[0] in AllKeys(op) && (op.Transfer? ==> AllKeys(op)[1] in AllKeys(op));
    LastBonusIsLatest(Ledger(db.log, From(op)));
  }

  /** Deposits after which both operations can run. */
  function FundingFor(a: Op, b: Op): seq<Finished> {
    Funding(AllKeys(a) + AllKeys(b), 1 + Max(0, Max(Needed(a), Needed(b))))
  }

  lemma {:induction false} FundedForBoth(a: Op, b: Op)
    requires WellFormed(a) && WellFormed(b)
    ensures var db := Atomically(NO_ACCOUNTS, FundingFor(a, b)); CanRun(db, a) && CanRun(db, b)
  {
    var keys, amount := AllKeys(a) + AllKeys(b), 1 + Max(0, Max(Needed(a), Needed(b)));
    var db := Atomically(NO_ACCOUNTS, Funding(keys, amount));
    FundingFunds(keys, amount);
    assert Needed(a) <= amount && Needed(b) <= amount;
    FundedCanRun(db, keys, amount, a);
    FundedCanRun(db, keys, amount, b);
  }

  // ---------- exactly when ----------

  /** Every interleaving from this table is equivalent to a one-at-a-time run. */
  ghost predicate SerializableFrom(db0: Db, ops: seq<Op>) {
    forall events: seq<Event> :: Equivalent(db0, Run(Initial(db0, ops), events))
  }

  lemma {:induction false} OverlapBreaks(db0: Db, ops: seq<Op>, i: nat, j: nat, k: Key)
    requires i < |ops| && j < |ops| && i != j && CanRun(db0, ops[i]) && CanRun(db0, ops[j])
    requires k in Keys(ops[i]) && k in Keys(ops[j]) && Effect(ops[i], k) != 0
    ensures !SerializableFrom(db0, ops)
  {
    LostUpdate(db0, ops, i, j, k);
  }

  lemma {:induction false} CollisionBreaks(ops: seq<Op>, i: nat, j: nat, k: Key)
    requires i < |ops| && j < |ops| && i != j && WellFormed(ops[i]) && WellFormed(ops[j])
    requires k in Keys(ops[i]) && k in Keys(ops[j]) && Effect(ops[i], k) == 0 == Effect(ops[j], k)
    ensures !SerializableFrom(NO_ACCOUNTS, ops)
  {
    CreationCollides(ops, i, j, k);
  }

  lemma {:induction false} SharingBreaks(ops: seq<Op>, i: nat, j: nat, k: Key) returns (setup: seq<Finished>)
    requires i < |ops| && j < |ops| && i != j && WellFormed(ops[i]) && WellFormed(ops[j])
    requires k in Keys(ops[i]) && k in Keys(ops[j])
    ensures !SerializableFrom(Atomically(NO_ACCOUNTS, setup), ops)
  {
    setup := FundingFor(ops[i], ops[j]);
    var db0 := Atomically(NO_ACCOUNTS, setup);
    FundedForBoth(ops[i], ops[j]);
    if Effect(ops[i], k) != 0 {
      OverlapBreaks(db0, ops, i, j, k);
    } else if Effect(ops[j], k) != 0 {
      OverlapBreaks(db0, ops, j, i, k);
    } else {
      CollisionBreaks(ops, i, j, k);
      setup := [];
      assert Atomically(NO_ACCOUNTS, []) == NO_ACCOUNTS;
    }
  }

  lemma {:induction false} SeparateIsIsolated(db0: Db, ops: seq<Op>, events: seq<Event>)
    requires Separate(ops)
    ensures IsolatedRun(Initial(db0, ops), events)
  {
    forall n | 0 <= n < |events| ensures Isolated(Run(Initial(db0, ops), events[..n]), events[n]) {
      var s, e := Run(Initial(db0, ops), events[..n]), events[n];
      CompletionListIsComplete(db0, ops, events[..n]);
      InFlightIsWellFormed(db0, ops, events[..n]);
      forall j | 0 <= j < |s.procs| && j != e.pid && InFlight(s.procs[j]) && e.pid < |s.procs| && WellFormed(ops[e.pid])
        ensures Keys(ops[e.pid]) !! Keys(ops[j])
      {
        assert !Share(ops[e.pid], ops[j]);
      }
    }
  }

  lemma {:induction false} SeparateIsSerializable(db0: Db, ops: seq<Op>)
    requires Separate(ops)
    ensures SerializableFrom(db0, ops)
  {
    forall events: seq<Event> ensures Equivalent(db0, Run(Initial(db0, ops), events)) {
      SeparateIsIsolated(db0, ops, events);
      Serializable(db0, ops, events);
    }
  }

  /**
   Every interleaving is equivalent to running the finished operations one at a time, in completion order, if and only
   if no two operations that pass their first checks share an account: from every table whatever, and just as well
   from every table that some history of operations, one at a time, leaves behind.
   */
  lemma {:induction false} SerializableExactly(ops: seq<Op>)
    ensures (forall db0: Db :: SerializableFrom(db0, ops)) <==> Separate(ops)
    ensures (forall setup: seq<Finished> :: SerializableFrom(Atomically(NO_ACCOUNTS, setup), ops)) <==> Separate(ops)
  {
    if Separate(ops) {
      forall db0: Db ensures SerializableFrom(db0, ops) {
        SeparateIsSerializable(db0, ops);
      }
    } else {
      var i, j :| 0 <= i < |ops| && 0 <= j < |ops| && i != j && WellFormed(ops[i]) && WellFormed(ops[j])
        && Share(ops[i], ops[j]);
      var k :| k in Keys(ops[i]) && k in Keys(ops[j]);
      var setup := SharingBreaks(ops, i, j, k);
    }
  }

  // ---------- overlapping claims ----------

  ghost predicate OneClaim(ops: seq<Op>, k: Key) {
    forall i, j | 0 <= i < j < |ops| :: !(ops[i] == DailyBonus(k) && ops[j] == DailyBonus(k))
  }

  /** Two claims on one account that both check before either records are both paid, at the same moment. */
  lemma {:induction false} DoubleBonus(ops: seq<Op>, i: nat, j: nat, k: Key)
    requires i < |ops| && j < |ops| && i != j && ops[i] == DailyBonus(k) && ops[j] == DailyBonus(k)
    ensures var s := Run(Initial(Db(map[k := 0], []), ops), Overlap(ops, i, j));
            BonusTimes(Ledger(s.db.log, k)) == [0, 0] && Monotone(0, Overlap(ops, i, j))
  {
    OverlapEnds(Db(map[k := 0], []), ops, i, j);
    TwoBonuses(k);
    OverlapAtZero(ops, i, j);
  }

  lemma {:induction false} TwoBonuses(k: Key)
    ensures BonusTimes(Ledger([] + Rows(DailyBonus(k), 0) + Rows(DailyBonus(k), 0), k)) == [0, 0]
  {
    AppendBonus([], DailyBonus(k), 0, k);
    AppendBonus([] + Rows(DailyBonus(k), 0), DailyBonus(k), 0, k);
  }

  lemma {:induction false} CallsAtZero(pid: nat, n: nat)
    ensures forall e | e in Calls(pid, n) :: e.now == 0
  {
    if n > 0 {
      CallsAtZero(pid, n - 1);
    }
  }

  lemma {:induction false} OverlapAtZero(ops: seq<Op>, i: nat, j: nat)
    requires i < |ops| && j < |ops|
    ensures Monotone(0, Overlap(ops, i, j))
  {
    CallsAtZero(i, Reads(ops[i]));
    CallsAtZero(j, Reads(ops[j]));
    CallsAtZero(i, Writes(ops[i]));
    CallsAtZero(j, Writes(ops[j]));
    var events := Overlap(ops, i, j);
    forall n | 0 <= n < |events| ensures events[n].now == 0 {
      assert events[n] in events;
    }
  }

  /** Bonuses are recorded a day apart on this account in every interleaving under a monotone clock. */
  ghost predicate AlwaysSpaced(ops: seq<Op>, k: Key) {
    forall db0: Db, events: seq<Event>, clock: int |
      Monotone(clock, events) && Spaced(BonusTimes(Ledger(db0.log, k)))
      && (forall t | t in BonusTimes(Ledger(db0.log, k)) :: t <= clock) ::
      Spaced(BonusTimes(Ledger(Run(Initial(db0, ops), events).db.log, k)))
  }

  /**
   Whatever the interleaving, an account's bonuses are a day apart if and only if at most one operation claims
   on it.
   */
  lemma {:induction false} BonusesADayApartExactly(ops: seq<Op>, k: Key)
    ensures AlwaysSpaced(ops, k) <==> OneClaim(ops, k)
  {
    if OneClaim(ops, k) {
      forall db0: Db, events: seq<Event>, clock: int |
        Monotone(clock, events) && Spaced(BonusTimes(Ledger(db0.log, k)))
        && (forall t | t in BonusTimes(Ledger(db0.log, k)) :: t <= clock)
        ensures Spaced(BonusTimes(Ledger(Run(Initial(db0, ops), events).db.log, k)))
      {
        forall n | 0 <= n < |events| ensures ClaimsAlone(Run(Initial(db0, ops), events[..n]), events[n], k) {
          CompletionListIsComplete(db0, ops, events[..n]);
        }
        BonusesADayApart(db0, ops, events, k, clock);
      }
    } else {
      var i, j :| 0 <= i < j < |ops| && ops[i] == DailyBonus(k) && ops[j] == DailyBonus(k);
      DoubleBonus(ops, i, j, k);
      assert !Spaced([0, 0]) by {
        assert [0, 0][0] + DAY > [0, 0][1];
      }
      assert BonusTimes(Ledger(Db(map[k := 0], []).log, k)) == [];
    }
  }
}
