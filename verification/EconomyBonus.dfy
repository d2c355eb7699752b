/** The daily bonus: on one account, with a clock that never runs backwards, bonuses are a day apart. */
module EconomyBonus {
  import opened Prelude
  import opened Economy
  import opened EconomySerial

  /** When the bonuses of a ledger were recorded, in table order. */
  function BonusTimes(rows: seq<Tx>): seq<int> {
    if rows == [] then [] else
      var rest, tx := BonusTimes(rows[..|rows| - 1]), rows[|rows| - 1];
      if tx.kind.DAILY_BONUS? then rest + [tx.createdAt] else rest
  }

  ghost predicate Spaced(ts: seq<int>) {
    forall i, j | 0 <= i < j < |ts| :: ts[i] + DAY <= ts[j]
  }

  ghost predicate Monotone(clock: int, events: seq<Event>) {
    && (forall i | 0 <= i < |events| :: clock <= events[i].now)
    && (forall i, j | 0 <= i < j < |events| :: events[i].now <= events[j].now)
  }

  function ClockAfter(clock: int, events: seq<Event>): int {
    if events == [] then clock else events[|events| - 1].now
  }

  lemma {:induction false} BonusTimesAppend(a: seq<Tx>, b: seq<Tx>)
    ensures BonusTimes(a + b) == BonusTimes(a) + BonusTimes(b)
  {
    if b == [] {
      assert a + b == a;
    } else {
      assert (a + b)[..|a + b| - 1] == a + b[..|b| - 1];
      BonusTimesAppend(a, b[..|b| - 1]);
    }
  }

  lemma {:induction false} OneRow(tx: Tx, k: Key)
    ensures BonusTimes(Ledger([tx], k)) == if tx.account == k && tx.kind.DAILY_BONUS? then [tx.createdAt] else []
  {
    assert [tx][..0] == [];
    assert Ledger([tx], k) == if tx.account == k then [tx] else [];
  }

  lemma {:induction false} PairBonus(sent: Tx, received: Tx, k: Key)
    requires !sent.kind.DAILY_BONUS? && !received.kind.DAILY_BONUS?
    ensures BonusTimes(Ledger([sent, received], k)) == []
  {
    assert [sent, received] == [sent] + [received];
    LedgerAppend([sent], [received], k);
    BonusTimesAppend(Ledger([sent], k), Ledger([received], k));
    OneRow(sent, k);
    OneRow(received, k);
  }

  /** An operation adds a bonus time to an account only by completing a claim on it. */
  lemma {:induction false} RowsBonus(op: Op, now: int, k: Key)
    ensures BonusTimes(Ledger(Rows(op, now), k)) == if op == DailyBonus(k) then [now] else []
  {
    if op.Transfer? {
      PairBonus(Tx(From(op), TRANSFER_OUT, op.amount, Some(To(op)), now),
          Tx(To(op), TRANSFER_IN, op.amount, Some(From(op)), now), k);
    } else {
      OneRow(Tx(From(op), KindOf(op), Amount(op), None, now), k);
    }
  }

  lemma {:induction false} LastBonusIsLatest(rows: seq<Tx>)
    ensures LastBonus(rows).None? <==> BonusTimes(rows) == []
    ensures LastBonus(rows).Some? ==> LastBonus(rows).value in BonusTimes(rows)
    ensures forall t | t in BonusTimes(rows) :: LastBonus(rows).Some? && t <= LastBonus(rows).value
  {
    if rows != [] {
      LastBonusIsLatest(rows[..|rows| - 1]);
    }
  }

  ghost predicate DayAgo(ts: seq<int>, clock: int) {
    forall t | t in ts :: t + DAY <= clock
  }

  /** The bonuses of `k` are spaced and past, and a claim that was let through is still due. */
  ghost predicate BonusInvariant(s: Sys, k: Key, clock: int) {
    var ts := BonusTimes(Ledger(s.db.log, k));
    && Spaced(ts)
    && (forall t | t in ts :: t <= clock)
    && (forall i | 0 <= i < |s.procs| && s.procs[i].op == DailyBonus(k)
          && (s.procs[i].phase.Writing? || s.procs[i].phase.Logging?) :: DayAgo(ts, clock))
  }

  lemma {:induction false} StepLog(db: Db, op: Op, phase: Phase, now: int)
    ensures var log' := Step(db, op, phase, now).0.log;
            if phase.Logging? then log' == db.log + Rows(op, now)
            else log' == db.log || (op.Transfer? && log' == db.log + Rows(op, now))
  {
  }

  lemma {:induction false} AppendBonus(log: seq<Tx>, op: Op, now: int, k: Key)
    ensures BonusTimes(Ledger(log + Rows(op, now), k)) ==
            BonusTimes(Ledger(log, k)) + if op == DailyBonus(k) then [now] else []
  {
    LedgerAppend(log, Rows(op, now), k);
    BonusTimesAppend(Ledger(log, k), Ledger(Rows(op, now), k));
    RowsBonus(op, now, k);
  }

  lemma {:induction false} StepBonus(db: Db, op: Op, phase: Phase, now: int, k: Key)
    requires !phase.Done?
    ensures var ts, db' := BonusTimes(Ledger(db.log, k)), Step(db, op, phase, now).0;
            BonusTimes(Ledger(db'.log, k)) == if op == DailyBonus(k) && phase.Logging? then ts + [now] else ts
  {
    StepLog(db, op, phase, now);
    AppendBonus(db.log, op, now, k);
  }

  /** A claim reaches its write only when a day has passed since every recorded bonus. */
  lemma {:induction false} LetThrough(db: Db, phase: Phase, now: int, k: Key)
    requires !phase.Writing? && !phase.Logging?
    requires Step(db, DailyBonus(k), phase, now).1.Writing? || Step(db, DailyBonus(k), phase, now).1.Logging?
    ensures DayAgo(BonusTimes(Ledger(db.log, k)), now)
  {
    LastBonusIsLatest(Ledger(db.log, k));
  }

  lemma {:induction false} SpacedAppend(ts: seq<int>, clock: int, now: int)
    requires Spaced(ts) && DayAgo(ts, clock) && clock <= now
    ensures Spaced(ts + [now]) && forall t | t in ts + [now] :: t <= now
  {
    forall i, j | 0 <= i < j < |ts + [now]| ensures (ts + [now])[i] + DAY <= (ts + [now])[j] {
      assert (ts + [now])[i] == ts[i] && ts[i] in ts;
    }
  }

  /** A claim on `k` that makes this call is the only claim on `k` in flight; any other operation may overlap it. */
  ghost predicate ClaimsAlone(s: Sys, e: Event, k: Key) {
    e.pid < |s.procs| && !s.procs[e.pid].phase.Done? && s.procs[e.pid].op == DailyBonus(k) ==>
      forall j | 0 <= j < |s.procs| && j != e.pid && s.procs[j].op == DailyBonus(k) :: !InFlight(s.procs[j])
  }

  /** Claims on `k` are serial. */
  ghost predicate ClaimsSerially(s: Sys, events: seq<Event>, k: Key) {
    forall n | 0 <= n < |events| :: ClaimsAlone(Run(s, events[..n]), events[n], k)
  }

  /** Recording a bonus: no other claim on the account is in flight, and a day has passed. */
  lemma {:induction false} ExecRecords(s: Sys, e: Event, k: Key, clock: int)
    requires BonusInvariant(s, k, clock) && ClaimsAlone(s, e, k) && clock <= e.now && e.pid < |s.procs|
    requires s.procs[e.pid].op == DailyBonus(k) && s.procs[e.pid].phase.Logging?
    ensures BonusInvariant(Exec(s, e), k, e.now)
  {
    var ts := BonusTimes(Ledger(s.db.log, k));
    StepBonus(s.db, DailyBonus(k), Logging, e.now, k);
    SpacedAppend(ts, clock, e.now);
    var s' := Exec(s, e);
    forall i | 0 <= i < |s'.procs| && s'.procs[i].op == DailyBonus(k)
      ensures !s'.procs[i].phase.Writing? && !s'.procs[i].phase.Logging?
    {
      assert i != e.pid ==> !InFlight(s.procs[i]);
    }
  }

  lemma {:induction false} ExecBonus(s: Sys, e: Event, k: Key, clock: int)
    requires BonusInvariant(s, k, clock) && ClaimsAlone(s, e, k) && clock <= e.now
    ensures BonusInvariant(Exec(s, e), k, e.now)
  {
    if e.pid < |s.procs| && !s.procs[e.pid].phase.Done? {
      var p := s.procs[e.pid];
      if p.op == DailyBonus(k) && p.phase.Logging? {
        ExecRecords(s, e, k, clock);
      } else {
        var ts, s' := BonusTimes(Ledger(s.db.log, k)), Exec(s, e);
        StepBonus(s.db, p.op, p.phase, e.now, k);
        assert BonusTimes(Ledger(s'.db.log, k)) == ts;
        forall i | 0 <= i < |s'.procs| && s'.procs[i].op == DailyBonus(k)
          && (s'.procs[i].phase.Writing? || s'.procs[i].phase.Logging?)
          ensures DayAgo(ts, e.now)
        {
          if i == e.pid && !p.phase.Writing? {
            LetThrough(s.db, p.phase, e.now, k);
          } else {
            assert s.procs[i].op == DailyBonus(k) && (s.procs[i].phase.Writing? || s.procs[i].phase.Logging?);
          }
        }
      }
    }
  }

  /**
   Under a monotone clock, and with claims on the account serial, the bonuses of an account are a day apart in every
   interleaving, whatever other operations overlap the claims or each other.
   */
  lemma {:induction false} BonusesADayApart(db0: Db, ops: seq<Op>, events: seq<Event>, k: Key, clock: int)
    requires ClaimsSerially(Initial(db0, ops), events, k) && Monotone(clock, events)
    requires var ts := BonusTimes(Ledger(db0.log, k)); Spaced(ts) && forall t | t in ts :: t <= clock
    ensures var s := Run(Initial(db0, ops), events);
            BonusInvariant(s, k, ClockAfter(clock, events)) && Spaced(BonusTimes(Ledger(s.db.log, k)))
    decreases |events|
  {
    if events != [] {
      var n := |events| - 1;
      var before := events[..n];
      forall i | 0 <= i < n ensures ClaimsAlone(Run(Initial(db0, ops), before[..i]), before[i], k) {
        assert before[..i] == events[..i];
      }
      BonusesADayApart(db0, ops, before, k, clock);
      ExecBonus(Run(Initial(db0, ops), before), events[n], k, ClockAfter(clock, before));
    }
  }

  // ---------- what spacing means for a window of time ----------

  function CountIn(ts: seq<int>, from: int, to: int): nat {
    if ts == [] then 0 else
      CountIn(ts[..|ts| - 1], from, to) + if from <= ts[|ts| - 1] <= to then 1 else 0
  }

  /** `n` bonuses inside a window take at least `n - 1` days of it. */
  lemma {:induction false} WindowHolds(ts: seq<int>, from: int, to: int)
    requires Spaced(ts) && from <= to
    ensures CountIn(ts, from, to) > 0 ==>
              exists i :: 0 <= i < |ts| && from + (CountIn(ts, from, to) - 1) * DAY <= ts[i] <= to
  {
    if ts != [] {
      var n := |ts| - 1;
      WindowHolds(ts[..n], from, to);
      var c := CountIn(ts[..n], from, to);
      if c > 0 {
        var i :| 0 <= i < n && from + (c - 1) * DAY <= ts[..n][i] <= to;
        assert ts[i] + DAY <= ts[n];
        assert from + (c - 1) * DAY <= ts[i] <= to;
      }
      if from <= ts[n] <= to {
        assert CountIn(ts, from, to) == c + 1;
        assert from + c * DAY <= ts[n] <= to;
      }
    }
  }

  /** A window of `width` milliseconds holds at most one bonus more than the full days in it. */
  lemma {:induction false} WindowBound(ts: seq<int>, from: int, width: nat)
    requires Spaced(ts)
    ensures CountIn(ts, from, from + width) <= width / DAY + 1
  {
    WindowHolds(ts, from, from + width);
    var c := CountIn(ts, from, from + width);
    if c > 0 {
      var i :| 0 <= i < |ts| && from + (c - 1) * DAY <= ts[i] <= from + width;
      DaysFit(c - 1, width);
    }
  }

  /** So any window of such a run holds at most one bonus of the account more than the full days in it. */
  lemma {:induction false} DailyBonusBound(
      db0: Db, ops: seq<Op>, events: seq<Event>, k: Key, clock: int, from: int, width: nat)
    requires ClaimsSerially(Initial(db0, ops), events, k) && Monotone(clock, events)
    requires var ts := BonusTimes(Ledger(db0.log, k)); Spaced(ts) && forall t | t in ts :: t <= clock
    ensures var s := Run(Initial(db0, ops), events);
            CountIn(BonusTimes(Ledger(s.db.log, k)), from, from + width) <= width / DAY + 1
  {
    BonusesADayApart(db0, ops, events, k, clock);
    WindowBound(BonusTimes(Ledger(Run(Initial(db0, ops), events).db.log, k)), from, width);
  }

  lemma DaysFit(days: nat, width: nat)
    requires days * DAY <= width
    ensures days <= width / DAY
  {
  }

  /** The hours a rejected claim is told to wait: 24 hours less those passed, rounded up. */
  function HoursToWait(last: int, now: int): int {
    (DAY - (now - last) + HOUR - 1) / HOUR
  }

  /** Waiting the stated hours, and no fewer, makes the claim due: no earlier whole hour would do. */
  lemma {:induction false} StatedWaitIsExact(rows: seq<Tx>, now: int, hours: int)
    requires Claimed(rows, now)
    ensures !Claimed(rows, now + hours * 3_600_000) <==> HoursToWait(LastBonus(rows).value, now) <= hours
  {
    var left := DAY - (now - LastBonus(rows).value);
    var stated := HoursToWait(LastBonus(rows).value, now);
    assert (stated - 1) * HOUR < left <= stated * HOUR;
    if stated <= hours {
      assert stated * HOUR <= hours * HOUR;
    } else {
      assert hours * HOUR <= (stated - 1) * HOUR;
    }
  }
}
