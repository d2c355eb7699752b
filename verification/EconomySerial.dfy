/**
 Many operations at once: a system of operations whose database calls interleave in any order.
 As long as operations in flight never share an account, the interleaving is equivalent to
 running the operations one at a time, atomically, in the order in which they finished.
 */
module EconomySerial {
  import opened Prelude
  import opened Economy

  /** An operation, its phase, and the clock readings of the steps it has made (for stating results only). */
  datatype Proc = Proc(op: Op, phase: Phase, times: seq<int>)

  datatype Finished = Finished(pid: nat, op: Op, times: seq<int>, ok: bool)

  /** `finished` lists the operations that have ended, in completion order (for stating results only). */
  datatype Sys = Sys(db: Db, procs: seq<Proc>, finished: seq<Finished>)

  /** Process `pid` makes its next database call at clock reading `now`. */
  datatype Event = Event(pid: nat, now: int)

  predicate InFlight(p: Proc) { !p.phase.Start? && !p.phase.Done? }

  function Initial(db: Db, ops: seq<Op>): Sys {
    Sys(db, seq(|ops|, i requires 0 <= i < |ops| => Proc(ops[i], Start, [])), [])
  }

  function Exec(s: Sys, e: Event): Sys {
    if e.pid >= |s.procs| || s.procs[e.pid].phase.Done? then s else
    var p := s.procs[e.pid];
    var (db, phase) := Step(s.db, p.op, p.phase, e.now);
    var times := p.times + [e.now];
    Sys(db, s.procs[e.pid := Proc(p.op, phase, times)],
        if phase.Done? then s.finished + [Finished(e.pid, p.op, times, phase.ok)] else s.finished)
  }

  function Run(s: Sys, events: seq<Event>): Sys {
    if events == [] then s else Exec(Run(s, events[..|events| - 1]), events[|events| - 1])
  }

  /** The operation making this call shares no account with any other operation in flight. */
  ghost predicate Isolated(s: Sys, e: Event) {
    e.pid < |s.procs| && !s.procs[e.pid].phase.Done? && WellFormed(s.procs[e.pid].op) ==>
      forall j | 0 <= j < |s.procs| && j != e.pid && InFlight(s.procs[j]) ::
        Keys(s.procs[e.pid].op) !! Keys(s.procs[j].op)
  }

  /** Operations in flight at once never share an account. */
  ghost predicate IsolatedRun(s: Sys, events: seq<Event>) {
    forall n | 0 <= n < |events| :: Isolated(Run(s, events[..n]), events[n])
  }

  /** The finished operations run one at a time as atomic actions, in completion order. */
  function Atomically(db: Db, finished: seq<Finished>): Db {
    if finished == [] then db else
      var d, f := Atomically(db, finished[..|finished| - 1]), finished[|finished| - 1];
      Apply(d, f.op, CheckTime(d, f.op, f.times), StampTime(f.times)).0
  }

  /** Every operation reported the outcome that its turn in the one-at-a-time run gives. */
  ghost predicate SameOutcomes(db: Db, finished: seq<Finished>) {
    forall n | 0 <= n < |finished| ::
      var d, f := Atomically(db, finished[..n]), finished[n];
      Apply(d, f.op, CheckTime(d, f.op, f.times), StampTime(f.times)).1 == f.ok
  }

  // ---------- locality of a step ----------

  /** What one account consists of: its row, if there is one, and its transactions. */
  datatype View = View(balance: Option<int>, ledger: seq<Tx>)

  function Balance(db: Db, k: Key): Option<int> {
    if k in db.accounts then Some(db.accounts[k]) else None
  }

  function ViewOf(db: Db, k: Key): View {
    View(Balance(db, k), Ledger(db.log, k))
  }

  ghost predicate Agree(a: Db, b: Db, ks: set<Key>) {
    forall k | k in ks :: ViewOf(a, k) == ViewOf(b, k)
  }

  lemma {:induction false} LedgerAppend(log: seq<Tx>, rows: seq<Tx>, k: Key)
    ensures Ledger(log + rows, k) == Ledger(log, k) + Ledger(rows, k)
  {
    if rows == [] {
      assert log + rows == log;
    } else {
      var n := |rows| - 1;
      assert (log + rows)[..|log + rows| - 1] == log + rows[..n];
      LedgerAppend(log, rows[..n], k);
    }
  }

  lemma {:induction false} LedgerOfRows(op: Op, now: int, k: Key)
    ensures k !in Keys(op) ==> Ledger(Rows(op, now), k) == []
  {
    var rows := Rows(op, now);
    if op.Transfer? && k !in Keys(op) {
      assert rows[..1][..0] == [];
      assert Ledger(rows[..1], k) == [];
    }
  }

  /** A step leaves every account but its operation's own untouched. */
  lemma {:induction false} StepFrame(db: Db, op: Op, phase: Phase, now: int, k: Key)
    requires k !in Keys(op)
    ensures ViewOf(Step(db, op, phase, now).0, k) == ViewOf(db, k)
  {
    StepRows(db, op, phase, now, k);
    LedgerAppend(db.log, Rows(op, now), k);
    LedgerOfRows(op, now, k);
  }

  /** A step leaves the balances of other accounts, and the log or the log with the operation's rows added. */
  lemma StepRows(db: Db, op: Op, phase: Phase, now: int, k: Key)
    requires k !in Keys(op)
    ensures var d := Step(db, op, phase, now).0;
            Balance(d, k) == Balance(db, k) && (d.log == db.log || d.log == db.log + Rows(op, now))
  {
  }

  lemma {:induction false} StepFrames(db: Db, op: Op, phase: Phase, now: int)
    ensures forall k: Key | k !in Keys(op) :: ViewOf(Step(db, op, phase, now).0, k) == ViewOf(db, k)
  {
    forall k: Key | k !in Keys(op) ensures ViewOf(Step(db, op, phase, now).0, k) == ViewOf(db, k) {
      StepFrame(db, op, phase, now, k);
    }
  }

  /** The part of locality that does not look into ledgers. */
  lemma {:induction false} StepLocalRows(a: Db, b: Db, op: Op, phase: Phase, now: int)
    requires Balance(a, From(op)) == Balance(b, From(op)) && Ledger(a.log, From(op)) == Ledger(b.log, From(op))
    requires op.Transfer? ==> Balance(a, To(op)) == Balance(b, To(op))
    ensures var (a', pa), (b', pb) := Step(a, op, phase, now), Step(b, op, phase, now);
            && pa == pb
            && Balance(a', From(op)) == Balance(b', From(op))
            && (op.Transfer? ==> Balance(a', To(op)) == Balance(b', To(op)))
            && ((a'.log == a.log && b'.log == b.log)
                || (a'.log == a.log + Rows(op, now) && b'.log == b.log + Rows(op, now)))
  {
  }

  /** What a step does depends only on its operation's own accounts. */
  lemma {:induction false} StepLocal(a: Db, b: Db, op: Op, phase: Phase, now: int)
    requires Agree(a, b, Keys(op))
    ensures Step(a, op, phase, now).1 == Step(b, op, phase, now).1
    ensures Agree(Step(a, op, phase, now).0, Step(b, op, phase, now).0, Keys(op))
  {
    assert ViewOf(a, From(op)) == ViewOf(b, From(op));
    if op.Transfer? {
      assert ViewOf(a, To(op)) == ViewOf(b, To(op));
    }
    StepLocalRows(a, b, op, phase, now);
    var ra, rb := Step(a, op, phase, now), Step(b, op, phase, now);
    var a', b' := ra.0, rb.0;
    forall k | k in Keys(op) ensures ViewOf(a', k) == ViewOf(b', k) {
      assert ViewOf(a, k) == ViewOf(b, k);
      LedgerAppend(a.log, Rows(op, now), k);
      LedgerAppend(b.log, Rows(op, now), k);
      assert Balance(a', k) == Balance(b', k);
    }
  }

  lemma {:induction false} RunAloneFrame(db: Db, op: Op, times: seq<int>, k: Key)
    requires k !in Keys(op)
    ensures ViewOf(RunAlone(db, op, times).0, k) == ViewOf(db, k)
    decreases |times|
  {
    if times != [] {
      var before := times[..|times| - 1];
      RunAloneFrame(db, op, before, k);
      var (d, p) := RunAlone(db, op, before);
      StepFrame(d, op, p, times[|times| - 1], k);
    }
  }

  lemma {:induction false} RunAloneLocal(a: Db, b: Db, op: Op, times: seq<int>)
    requires Agree(a, b, Keys(op))
    ensures RunAlone(a, op, times).1 == RunAlone(b, op, times).1
    ensures Agree(RunAlone(a, op, times).0, RunAlone(b, op, times).0, Keys(op))
    decreases |times|
  {
    if times != [] {
      var before := times[..|times| - 1];
      RunAloneLocal(a, b, op, before);
      var (d, p) := RunAlone(a, op, before);
      StepLocal(d, RunAlone(b, op, before).0, op, p, times[|times| - 1]);
    }
  }

  // ---------- the simulation ----------

  ghost predicate Free(s: Sys, k: Key) {
    forall i | 0 <= i < |s.procs| && InFlight(s.procs[i]) :: k !in Keys(s.procs[i].op)
  }

  /** Seen from `serial`, process `p` is exactly where it would be had it run alone. */
  ghost predicate Tracks(db: Db, serial: Db, p: Proc) {
    var (d, phase) := RunAlone(serial, p.op, p.times);
    && phase == p.phase
    && Agree(db, d, Keys(p.op))
    && Unfinished(serial, p.op, p.times)
  }

  ghost predicate Simulated(db0: Db, s: Sys) {
    var serial := Atomically(db0, s.finished);
    && SameOutcomes(db0, s.finished)
    && (forall k: Key | Free(s, k) :: ViewOf(s.db, k) == ViewOf(serial, k))
    && (forall i | 0 <= i < |s.procs| && s.procs[i].phase.Start? :: s.procs[i].times == [])
    && (forall i | 0 <= i < |s.procs| && InFlight(s.procs[i]) :: WellFormed(s.procs[i].op))
    && (forall i | 0 <= i < |s.procs| && InFlight(s.procs[i]) :: Tracks(s.db, serial, s.procs[i]))
  }

  /** Stepping a tracked process keeps it tracked, by the same step taken in its lone run. */
  lemma {:induction false} TrackedStep(db: Db, serial: Db, p: Proc, now: int)
    requires Tracks(db, serial, p) && !p.phase.Done?
    ensures var (d, phase) := Step(db, p.op, p.phase, now);
            !phase.Start? && Tracks(d, serial, Proc(p.op, phase, p.times + [now]))
  {
    var next := p.times + [now];
    assert next[..|next| - 1] == p.times;
    var lone := RunAlone(serial, p.op, p.times).0;
    StepLocal(db, lone, p.op, p.phase, now);
    forall n | 0 <= n < |next| ensures !RunAlone(serial, p.op, next[..n]).1.Done? {
      if n == |next| - 1 {
        assert next[..n] == p.times;
      } else {
        assert next[..n] == p.times[..n];
      }
    }
  }

  /** A tracked process does not notice changes to accounts that are not its own. */
  lemma {:induction false} TrackedElsewhere(db: Db, db': Db, serial: Db, serial': Db, p: Proc)
    requires Tracks(db, serial, p)
    requires Agree(db, db', Keys(p.op)) && Agree(serial, serial', Keys(p.op))
    ensures Tracks(db', serial', p)
  {
    RunAloneLocal(serial, serial', p.op, p.times);
    forall k | k in Keys(p.op)
      ensures ViewOf(db', k) == ViewOf(RunAlone(serial', p.op, p.times).0, k)
    {
      assert ViewOf(db, k) == ViewOf(RunAlone(serial, p.op, p.times).0, k);
      assert ViewOf(db, k) == ViewOf(db', k);
    }
    forall n | 0 <= n < |p.times| ensures !RunAlone(serial', p.op, p.times[..n]).1.Done? {
      RunAloneLocal(serial, serial', p.op, p.times[..n]);
    }
  }

  /** When a tracked process ends, running it atomically next gives its accounts their present state. */
  lemma {:induction false} TrackedEnd(db: Db, serial: Db, p: Proc)
    requires Tracks(db, serial, p) && p.phase.Done?
    ensures var (d, ok) := Apply(serial, p.op, CheckTime(serial, p.op, p.times), StampTime(p.times));
            ok == p.phase.ok && Agree(db, d, Keys(p.op))
            && forall k: Key | k !in Keys(p.op) :: ViewOf(d, k) == ViewOf(serial, k)
  {
    RunAloneIsApply(serial, p.op, p.times);
    forall k: Key | k !in Keys(p.op)
      ensures ViewOf(RunAlone(serial, p.op, p.times).0, k) == ViewOf(serial, k)
    {
      RunAloneFrame(serial, p.op, p.times, k);
    }
  }

  lemma {:induction false} AtomicallyAppend(db0: Db, finished: seq<Finished>, f: Finished)
    requires SameOutcomes(db0, finished)
    requires var d := Atomically(db0, finished);
             Apply(d, f.op, CheckTime(d, f.op, f.times), StampTime(f.times)).1 == f.ok
    ensures var d := Atomically(db0, finished);
            Atomically(db0, finished + [f]) == Apply(d, f.op, CheckTime(d, f.op, f.times), StampTime(f.times)).0
    ensures SameOutcomes(db0, finished + [f])
  {
    var all := finished + [f];
    assert all[..|all| - 1] == finished;
    forall n | 0 <= n < |all|
      ensures var d, g := Atomically(db0, all[..n]), all[n];
              Apply(d, g.op, CheckTime(d, g.op, g.times), StampTime(g.times)).1 == g.ok
    {
      if n < |finished| {
        assert all[..n] == finished[..n];
      }
    }
  }

  /** An ill-formed operation ends at its first step, having done nothing. */
  lemma {:induction false} IllFormedExec(db0: Db, s: Sys, e: Event)
    requires Simulated(db0, s) && e.pid < |s.procs|
    requires s.procs[e.pid].phase.Start? && !WellFormed(s.procs[e.pid].op)
    ensures Simulated(db0, Exec(s, e))
  {
    var p := s.procs[e.pid];
    var f := Finished(e.pid, p.op, p.times + [e.now], false);
    var s' := Sys(s.db, s.procs[e.pid := Proc(p.op, Done(false), f.times)], s.finished + [f]);
    assert Exec(s, e) == s';
    AtomicallyAppend(db0, s.finished, f);
    forall k: Key | Free(s', k) ensures Free(s, k) {
      forall i | 0 <= i < |s.procs| && InFlight(s.procs[i]) ensures k !in Keys(s.procs[i].op) {
        assert s'.procs[i] == s.procs[i];
      }
    }
    forall i | 0 <= i < |s.procs| && InFlight(s'.procs[i]) ensures s'.procs[i] == s.procs[i] {
    }
  }

  /** Before its step, a well-formed process is tracked; one at its start holds only free accounts. */
  lemma {:induction false} StepperTracked(db0: Db, s: Sys, e: Event)
    requires Simulated(db0, s) && Isolated(s, e) && e.pid < |s.procs|
    requires !s.procs[e.pid].phase.Done? && WellFormed(s.procs[e.pid].op)
    ensures Tracks(s.db, Atomically(db0, s.finished), s.procs[e.pid])
  {
    var p := s.procs[e.pid];
    if p.phase.Start? {
      forall k | k in Keys(p.op) ensures ViewOf(s.db, k) == ViewOf(Atomically(db0, s.finished), k) {
        assert Free(s, k);
      }
    }
  }

  /** The heart of the argument: one isolated call keeps the system equivalent to its one-at-a-time run. */
  lemma {:induction false} ExecSimulates(db0: Db, s: Sys, e: Event)
    requires Simulated(db0, s) && Isolated(s, e)
    ensures Simulated(db0, Exec(s, e))
  {
    if e.pid < |s.procs| && !s.procs[e.pid].phase.Done? {
      if WellFormed(s.procs[e.pid].op) {
        WellFormedExec(db0, s, e);
      } else {
        IllFormedExec(db0, s, e);
      }
    }
  }

  /** The frame argument alone: `p'` is tracked or has ended, and other accounts did not change. */
  lemma {:induction false} Resimulate(db0: Db, s: Sys, pid: nat, p': Proc, db': Db, serial: Db, serial': Db,
      finished': seq<Finished>)
    requires Simulated(db0, s) && pid < |s.procs| && p'.op == s.procs[pid].op
    requires serial == Atomically(db0, s.finished) && serial' == Atomically(db0, finished')
    requires SameOutcomes(db0, finished') && !p'.phase.Start?
    requires forall j | 0 <= j < |s.procs| && j != pid && InFlight(s.procs[j]) :: Keys(p'.op) !! Keys(s.procs[j].op)
    requires forall k: Key | k !in Keys(p'.op) ::
               ViewOf(db', k) == ViewOf(s.db, k) && ViewOf(serial', k) == ViewOf(serial, k)
    requires if InFlight(p') then WellFormed(p'.op) && Tracks(db', serial', p') else Agree(db', serial', Keys(p'.op))
    ensures Simulated(db0, Sys(db', s.procs[pid := p'], finished'))
  {
    var s' := Sys(db', s.procs[pid := p'], finished');
    forall k: Key | Free(s', k) ensures ViewOf(s'.db, k) == ViewOf(serial', k) {
      if k in Keys(p'.op) {
        assert s'.procs[pid] == p';
      } else {
        forall i | 0 <= i < |s.procs| && InFlight(s.procs[i]) ensures k !in Keys(s.procs[i].op) {
          assert i != pid ==> s'.procs[i] == s.procs[i];
        }
        assert Free(s, k);
      }
    }
    forall i | 0 <= i < |s'.procs| && InFlight(s'.procs[i]) ensures Tracks(s'.db, serial', s'.procs[i]) {
      if i != pid {
        TrackedElsewhere(s.db, db', serial, serial', s.procs[i]);
      }
    }
  }

  lemma {:induction false} WellFormedExec(db0: Db, s: Sys, e: Event)
    requires Simulated(db0, s) && Isolated(s, e) && e.pid < |s.procs|
    requires !s.procs[e.pid].phase.Done? && WellFormed(s.procs[e.pid].op)
    ensures Simulated(db0, Exec(s, e))
  {
    var p := s.procs[e.pid];
    var r := Step(s.db, p.op, p.phase, e.now);
    var db', phase := r.0, r.1;
    var p' := Proc(p.op, phase, p.times + [e.now]);
    var serial := Atomically(db0, s.finished);
    StepperTracked(db0, s, e);
    TrackedStep(s.db, serial, p, e.now);
    StepFrames(s.db, p.op, p.phase, e.now);
    if phase.Done? {
      var f := Finished(e.pid, p.op, p'.times, phase.ok);
      TrackedEnd(db', serial, p');
      AtomicallyAppend(db0, s.finished, f);
      Resimulate(db0, s, e.pid, p', db', serial, Atomically(db0, s.finished + [f]), s.finished + [f]);
    } else {
      Resimulate(db0, s, e.pid, p', db', serial, serial, s.finished);
    }
  }

  lemma {:induction false} RunSimulates(db0: Db, ops: seq<Op>, events: seq<Event>)
    requires IsolatedRun(Initial(db0, ops), events)
    ensures Simulated(db0, Run(Initial(db0, ops), events))
    decreases |events|
  {
    if events != [] {
      var before := events[..|events| - 1];
      forall n | 0 <= n < |before| ensures Isolated(Run(Initial(db0, ops), before[..n]), before[n]) {
        assert before[..n] == events[..n];
      }
      RunSimulates(db0, ops, before);
      ExecSimulates(db0, Run(Initial(db0, ops), before), events[|events| - 1]);
    }
  }

  /**
   Serializability. In any interleaving in which operations in flight at once never share an
   account, every account that no operation in flight holds has the balance and the ledger it
   has after running the finished operations atomically, one at a time, in completion order;
   and each of them reported the outcome it has in that run.
   */
  lemma {:induction false} Serializable(db0: Db, ops: seq<Op>, events: seq<Event>)
    requires IsolatedRun(Initial(db0, ops), events)
    ensures var s := Run(Initial(db0, ops), events);
            && SameOutcomes(db0, s.finished)
            && forall k: Key | Free(s, k) :: ViewOf(s.db, k) == ViewOf(Atomically(db0, s.finished), k)
  {
    RunSimulates(db0, ops, events);
  }

  ghost predicate Quiet(s: Sys) {
    forall i | 0 <= i < |s.procs| :: !InFlight(s.procs[i])
  }

  /** Once nothing is in flight the account tables are equal, and so is every account's ledger. */
  lemma {:induction false} SerializableAtRest(db0: Db, ops: seq<Op>, events: seq<Event>)
    requires IsolatedRun(Initial(db0, ops), events) && Quiet(Run(Initial(db0, ops), events))
    ensures var s := Run(Initial(db0, ops), events);
            var serial := Atomically(db0, s.finished);
            && s.db.accounts == serial.accounts
            && forall k: Key :: Ledger(s.db.log, k) == Ledger(serial.log, k)
  {
    Serializable(db0, ops, events);
    var s := Run(Initial(db0, ops), events);
    var serial := Atomically(db0, s.finished);
    forall k: Key ensures ViewOf(s.db, k) == ViewOf(serial, k) {
      assert Free(s, k);
    }
    forall k: Key ensures k in s.db.accounts <==> k in serial.accounts {
      assert ViewOf(s.db, k).balance == ViewOf(serial, k).balance;
    }
    forall k | k in s.db.accounts ensures s.db.accounts[k] == serial.accounts[k] {
      assert ViewOf(s.db, k).balance == ViewOf(serial, k).balance;
    }
    forall k: Key ensures Ledger(s.db.log, k) == Ledger(serial.log, k) {
      assert ViewOf(s.db, k).ledger == ViewOf(serial, k).ledger;
    }
  }

  ghost predicate Listed(s: Sys, i: nat) { exists a :: 0 <= a < |s.finished| && s.finished[a].pid == i }

  /** The completion list holds exactly the processes that have ended, each once, with its outcome. */
  ghost predicate Tallied(s: Sys) {
    && (forall a, b | 0 <= a < b < |s.finished| :: s.finished[a].pid != s.finished[b].pid)
    && (forall a | 0 <= a < |s.finished| ::
          var f := s.finished[a];
          f.pid < |s.procs| && s.procs[f.pid] == Proc(f.op, Done(f.ok), f.times))
    && (forall i | 0 <= i < |s.procs| && s.procs[i].phase.Done? :: Listed(s, i))
  }

  lemma {:induction false} ExecLists(s: Sys, e: Event, i: nat)
    requires Tallied(s) && i < |s.procs| && Exec(s, e).procs[i].phase.Done?
    ensures Listed(Exec(s, e), i)
  {
    var s' := Exec(s, e);
    if s.procs[i].phase.Done? {
      var a :| 0 <= a < |s.finished| && s.finished[a].pid == i;
      assert s'.finished[a].pid == i;
    } else {
      assert s'.finished[|s'.finished| - 1].pid == i;
    }
  }

  lemma {:induction false} ExecTallies(s: Sys, e: Event)
    requires Tallied(s)
    ensures Tallied(Exec(s, e))
  {
    forall i: nat | i < |s.procs| && Exec(s, e).procs[i].phase.Done? ensures Listed(Exec(s, e), i) {
      ExecLists(s, e, i);
    }
  }

  lemma {:induction false} CompletionListIsComplete(db0: Db, ops: seq<Op>, events: seq<Event>)
    ensures var s := Run(Initial(db0, ops), events);
            |s.procs| == |ops| && (forall i | 0 <= i < |ops| :: s.procs[i].op == ops[i]) && Tallied(s)
    decreases |events|
  {
    if events != [] {
      var before := events[..|events| - 1];
      CompletionListIsComplete(db0, ops, before);
      ExecTallies(Run(Initial(db0, ops), before), events[|events| - 1]);
    }
  }

  lemma {:induction false} RunOneMore(s: Sys, events: seq<Event>, e: Event)
    ensures Run(s, events + [e]) == Exec(Run(s, events), e)
  {
    assert (events + [e])[..|events + [e]| - 1] == events;
  }

  lemma {:induction false} RunAppend(s: Sys, a: seq<Event>, b: seq<Event>)
    ensures Run(s, a + b) == Run(Run(s, a), b)
  {
    if b == [] {
      assert a + b == a;
    } else {
      assert (a + b)[..|a + b| - 1] == a + b[..|b| - 1];
      RunAppend(s, a, b[..|b| - 1]);
    }
  }

  ghost predicate FlightsWellFormed(s: Sys) {
    forall i | 0 <= i < |s.procs| && InFlight(s.procs[i]) :: WellFormed(s.procs[i].op)
  }

  lemma ExecFlights(s: Sys, e: Event)
    requires FlightsWellFormed(s)
    ensures FlightsWellFormed(Exec(s, e))
  {
  }

  /** An operation that fails its first checks is never in flight. */
  lemma {:induction false} InFlightIsWellFormed(db0: Db, ops: seq<Op>, events: seq<Event>)
    ensures FlightsWellFormed(Run(Initial(db0, ops), events))
    decreases |events|
  {
    if events != [] {
      var before := events[..|events| - 1];
      InFlightIsWellFormed(db0, ops, before);
      ExecFlights(Run(Initial(db0, ops), before), events[|events| - 1]);
    }
  }
}
