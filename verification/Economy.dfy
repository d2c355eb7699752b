/**
 The economy service as a protocol over two tables. Every `await prisma.*` is one atomic
 step; between its steps an operation keeps the balance it read and later writes an absolute
 value computed from it. Amounts are integer hundredths, clock readings integer milliseconds.
 */
module Economy {
  import opened Prelude

  const DAY: int := 86_400_000
  const HOUR: int := 3_600_000
  const BONUS: int := 10_000

  /** The unique key of an account row; rows are never deleted, so it also stands for the row's id. */
  datatype Key = Key(user: string, currency: string)

  datatype Kind = DEPOSIT | WITHDRAWAL | TRANSFER_OUT | TRANSFER_IN | PURCHASE | DAILY_BONUS | SHOP_PURCHASE

  datatype Tx = Tx(account: Key, kind: Kind, amount: int, peer: Option<Key>, createdAt: int)

  datatype Db = Db(accounts: map<Key, int>, log: seq<Tx>)

  datatype Op =
    | Deposit(key: Key, amount: int)
    | Withdraw(key: Key, amount: int)
    | Transfer(fromUser: string, toUser: string, currency: string, amount: int)
    | PurchaseCurrency(key: Key, amount: int)
    | DailyBonus(key: Key)
    | ShopPurchase(key: Key, price: int)

  /** Where an operation stands between two database calls, with the values it carries along. */
  datatype Phase =
    | Start
    | Creating
    | ReadingTo(fromBalance: int)
    | CreatingTo(fromBalance: int)
    | Checking(balance: int)
    | Writing(newBalance: int)
    | WritingBoth(newFrom: int, newTo: int)
    | Logging
    | Done(ok: bool)

  function From(op: Op): Key {
    if op.Transfer? then Key(op.fromUser, op.currency) else op.key
  }

  function To(op: Op): Key
    requires op.Transfer?
  {
    Key(op.toUser, op.currency)
  }

  function Keys(op: Op): set<Key> {
    if op.Transfer? then {From(op), To(op)} else {From(op)}
  }

  /** The checks an operation makes before its first database call. */
  predicate WellFormed(op: Op) {
    match op
    case Deposit(_, amount) => amount > 0
    case Withdraw(_, amount) => amount > 0
    case Transfer(a, b, _, amount) => amount > 0 && a != b
    case _ => true
  }

  /** What the operation must find in its (sending) account; `None` when it spends nothing. */
  function Cost(op: Op): Option<int> {
    match op
    case Withdraw(_, amount) => Some(amount)
    case Transfer(_, _, _, amount) => Some(amount)
    case ShopPurchase(_, price) => Some(price)
    case _ => None
  }

  predicate Affordable(op: Op, balance: int) {
    Cost(op).Some? ==> Cost(op).value <= balance
  }

  /** The amount an operation records, and the change it makes to its (sending) account. */
  function Amount(op: Op): int {
    match op
    case DailyBonus(_) => BONUS
    case ShopPurchase(_, price) => price
    case _ => op.amount
  }

  function Delta(op: Op): int {
    if Cost(op).Some? then -Amount(op) else Amount(op)
  }

  function KindOf(op: Op): Kind {
    match op
    case Deposit(_, _) => DEPOSIT
    case Withdraw(_, _) => WITHDRAWAL
    case Transfer(_, _, _, _) => TRANSFER_OUT
    case PurchaseCurrency(_, _) => PURCHASE
    case DailyBonus(_) => DAILY_BONUS
    case ShopPurchase(_, _) => SHOP_PURCHASE
  }

  function Rows(op: Op, now: int): seq<Tx> {
    if op.Transfer? then
      [Tx(From(op), TRANSFER_OUT, op.amount, Some(To(op)), now),
       Tx(To(op), TRANSFER_IN, op.amount, Some(From(op)), now)]
    else
      [Tx(From(op), KindOf(op), Amount(op), None, now)]
  }

  /** The rows of one account, in table order. */
  function Ledger(log: seq<Tx>, k: Key): seq<Tx> {
    if log == [] then [] else
      var rest, tx := Ledger(log[..|log| - 1], k), log[|log| - 1];
      if tx.account == k then rest + [tx] else rest
  }

  /** The latest creation time among the daily bonuses of a ledger. */
  function LastBonus(rows: seq<Tx>): Option<int> {
    if rows == [] then None else
      var rest, tx := LastBonus(rows[..|rows| - 1]), rows[|rows| - 1];
      if !tx.kind.DAILY_BONUS? then rest
      else if rest.None? then Some(tx.createdAt) else Some(Max(rest.value, tx.createdAt))
  }

  /** `dailyBonus` refuses when fewer than 24 hours have passed since the last one. */
  predicate Claimed(rows: seq<Tx>, now: int) {
    LastBonus(rows).Some? && now - LastBonus(rows).value < DAY
  }

  // ---------- one operation, step by step ----------

  /** What follows once the (sending) account has been read or created. */
  function AfterRead(op: Op, balance: int): Phase {
    if op.Transfer? then ReadingTo(balance)
    else if op.DailyBonus? then Checking(balance)
    else if Affordable(op, balance) then Writing(balance + Delta(op)) else Done(false)
  }

  function AfterReadTo(op: Op, fromBalance: int, toBalance: int): Phase
    requires op.Transfer?
  {
    if Affordable(op, fromBalance) then WritingBoth(fromBalance - op.amount, toBalance + op.amount)
    else Done(false)
  }

  /** One database call of one operation, made at clock reading `now`. */
  function Step(db: Db, op: Op, phase: Phase, now: int): (Db, Phase) {
    var k := From(op);
    match phase
    case Start =>
      if !WellFormed(op) then (db, Done(false))
      else if k in db.accounts then (db, AfterRead(op, db.accounts[k]))
      else (db, Creating)
    case Creating =>
      if k in db.accounts then (db, Done(false))  // unique key (userId, currency) violated
      else (db.(accounts := db.accounts[k := 0]), AfterRead(op, 0))
    case ReadingTo(b) =>
      if !op.Transfer? then (db, Done(false))
      else if To(op) in db.accounts then (db, AfterReadTo(op, b, db.accounts[To(op)]))
      else (db, CreatingTo(b))
    case CreatingTo(b) =>
      if !op.Transfer? || To(op) in db.accounts then (db, Done(false))
      else (db.(accounts := db.accounts[To(op) := 0]), AfterReadTo(op, b, 0))
    case Checking(b) =>
      if Claimed(Ledger(db.log, k), now) then (db, Done(false))
      else (db, Writing(b + BONUS))
    case Writing(nb) =>
      if k !in db.accounts then (db, Done(false))
      else (db.(accounts := db.accounts[k := nb]), Logging)
    case WritingBoth(nf, nt) =>
      if !op.Transfer? || k !in db.accounts || To(op) !in db.accounts then (db, Done(false))
      else (Db(db.accounts[k := nf][To(op) := nt], db.log + Rows(op, now)), Done(true))
    case Logging => (db.(log := db.log + Rows(op, now)), Done(true))
    case Done(_) => (db, phase)
  }

  /** The operation run alone, its steps at the given clock readings. */
  function RunAlone(db: Db, op: Op, times: seq<int>): (Db, Phase) {
    if times == [] then (db, Start) else
      var (d, p) := RunAlone(db, op, times[..|times| - 1]);
      Step(d, op, p, times[|times| - 1])
  }

  // ---------- one operation as a single atomic action ----------

  function Ensure(db: Db, k: Key): Db {
    if k in db.accounts then db else db.(accounts := db.accounts[k := 0])
  }

  /** The whole operation at once: `check` is when a bonus is checked, `stamp` when rows are stamped. */
  function Apply(db: Db, op: Op, check: int, stamp: int): (r: (Db, bool)) {
    if !WellFormed(op) then (db, false) else
    var k := From(op);
    var d := if op.Transfer? then Ensure(Ensure(db, k), To(op)) else Ensure(db, k);
    var balance := d.accounts[k];
    if !Affordable(op, balance) || (op.DailyBonus? && Claimed(Ledger(d.log, k), check)) then (d, false)
    else
      var accounts := d.accounts[k := balance + Delta(op)];
      var moved := if op.Transfer? then accounts[To(op) := accounts[To(op)] + op.amount] else accounts;
      (Db(moved, d.log + Rows(op, stamp)), true)
  }

  /** The clock reading at which `dailyBonus` looks for the last bonus. */
  function CheckTime(db: Db, op: Op, times: seq<int>): int {
    var i := if From(op) in db.accounts then 1 else 2;
    if i < |times| then times[i] else 0
  }

  function StampTime(times: seq<int>): int {
    if times == [] then 0 else times[|times| - 1]
  }

  /** What the database and the carried values are at each phase of an undisturbed run. */
  ghost predicate Midway(db: Db, op: Op, times: seq<int>, d: Db, p: Phase) {
    var k := From(op);
    var e := Ensure(db, k);
    && (p.Start? <==> times == [])
    && (p.Start? ==> d == db)
    && (!p.Start? && !p.Done? ==> WellFormed(op))
    && (p.Creating? ==> d == db && k !in db.accounts && |times| == 1)
    && (p.ReadingTo? || p.CreatingTo? ==> op.Transfer? && d == e && p.fromBalance == e.accounts[k])
    && (p.CreatingTo? ==> To(op) !in e.accounts)
    && (p.Checking? ==>
          op.DailyBonus? && d == e && p.balance == e.accounts[k] && |times| == if k in db.accounts then 1 else 2)
    && (p.Writing? || p.Logging? ==> !op.Transfer? && Affordable(op, e.accounts[k]))
    && ((p.Writing? || p.Logging?) && op.DailyBonus? ==>
          (if k in db.accounts then 1 else 2) < |times| && !Claimed(Ledger(db.log, k), CheckTime(db, op, times)))
    && (p.Writing? ==> d == e && p.newBalance == e.accounts[k] + Delta(op))
    && (p.Logging? ==> d == e.(accounts := e.accounts[k := e.accounts[k] + Delta(op)]))
    && (p.WritingBoth? ==>
          op.Transfer? && d == Ensure(e, To(op)) && Affordable(op, d.accounts[k])
          && p.newFrom == d.accounts[k] - op.amount && p.newTo == d.accounts[To(op)] + op.amount)
    && (p.Done? ==> (d, p.ok) == Apply(db, op, CheckTime(db, op, times), StampTime(times)))
  }

  lemma LastOf(times: seq<int>, now: int)
    ensures StampTime(times + [now]) == now
    ensures forall i | 0 <= i < |times| :: (times + [now])[i] == times[i]
  {
  }

  lemma {:induction false} FirstReadKeepsMidway(db: Db, op: Op, times: seq<int>, d: Db, p: Phase, now: int)
    requires Midway(db, op, times, d, p) && (p.Start? || p.Creating?)
    ensures Midway(db, op, times + [now], Step(d, op, p, now).0, Step(d, op, p, now).1)
  {
    LastOf(times, now);
  }

  lemma {:induction false} ReceiverReadKeepsMidway(db: Db, op: Op, times: seq<int>, d: Db, p: Phase, now: int)
    requires Midway(db, op, times, d, p) && (p.ReadingTo? || p.CreatingTo?)
    ensures Midway(db, op, times + [now], Step(d, op, p, now).0, Step(d, op, p, now).1)
  {
    LastOf(times, now);
  }

  lemma {:induction false} TransferWriteKeepsMidway(db: Db, op: Op, times: seq<int>, d: Db, p: Phase, now: int)
    requires Midway(db, op, times, d, p) && (p.WritingBoth?)
    ensures Midway(db, op, times + [now], Step(d, op, p, now).0, Step(d, op, p, now).1)
  {
    LastOf(times, now);
  }

  lemma {:induction false} CheckKeepsMidway(db: Db, op: Op, times: seq<int>, d: Db, p: Phase, now: int)
    requires Midway(db, op, times, d, p) && (p.Checking?)
    ensures Midway(db, op, times + [now], Step(d, op, p, now).0, Step(d, op, p, now).1)
  {
    LastOf(times, now);
  }

  lemma {:induction false} WriteKeepsMidway(db: Db, op: Op, times: seq<int>, d: Db, p: Phase, now: int)
    requires Midway(db, op, times, d, p) && (p.Writing? || p.Logging?)
    ensures Midway(db, op, times + [now], Step(d, op, p, now).0, Step(d, op, p, now).1)
  {
    LastOf(times, now);
  }

  lemma {:induction false} StepKeepsMidway(db: Db, op: Op, times: seq<int>, d: Db, p: Phase, now: int)
    requires Midway(db, op, times, d, p) && !p.Done?
    ensures Midway(db, op, times + [now], Step(d, op, p, now).0, Step(d, op, p, now).1)
  {
    match p
    case Start => FirstReadKeepsMidway(db, op, times, d, p, now);
    case Creating => FirstReadKeepsMidway(db, op, times, d, p, now);
    case ReadingTo(_) => ReceiverReadKeepsMidway(db, op, times, d, p, now);
    case CreatingTo(_) => ReceiverReadKeepsMidway(db, op, times, d, p, now);
    case WritingBoth(_, _) => TransferWriteKeepsMidway(db, op, times, d, p, now);
    case Checking(_) => CheckKeepsMidway(db, op, times, d, p, now);
    case Writing(_) => WriteKeepsMidway(db, op, times, d, p, now);
    case Logging => WriteKeepsMidway(db, op, times, d, p, now);
  }

  /** True while no prefix of the clock readings already finishes the run: nothing steps after `Done`. */
  ghost predicate Unfinished(db: Db, op: Op, times: seq<int>) {
    forall n | 0 <= n < |times| :: !RunAlone(db, op, times[..n]).1.Done?
  }

  /** An undisturbed run that reaches its end has done exactly what the atomic action does. */
  lemma {:induction false} RunAloneIsApply(db: Db, op: Op, times: seq<int>)
    requires Unfinished(db, op, times)
    ensures var (d, p) := RunAlone(db, op, times); Midway(db, op, times, d, p)
    ensures var (d, p) := RunAlone(db, op, times);
            p.Done? ==> (d, p.ok) == Apply(db, op, CheckTime(db, op, times), StampTime(times))
    decreases |times|
  {
    if times != [] {
      var n := |times| - 1;
      var before := times[..n];
      forall i | 0 <= i < |before| ensures !RunAlone(db, op, before[..i]).1.Done? {
        assert before[..i] == times[..i];
      }
      RunAloneIsApply(db, op, before);
      assert times == before + [times[n]];
      var (d, p) := RunAlone(db, op, before);
      assert !RunAlone(db, op, times[..n]).1.Done?;
      StepKeepsMidway(db, op, before, d, p, times[n]);
    }
  }
}
