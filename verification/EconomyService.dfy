/**
 The service's methods, as they run when nothing else touches the tables: each is proved to do
 exactly what its atomic action does, to balances, ledger and reported outcome alike.
 */
module EconomyMethods {
  import opened Prelude
  import Economy
  import opened EconomyLedger
  import opened EconomyBonus
  import opened EconomyOutcomes

  type Key = Economy.Key

  class EconomyService {
    var accounts: map<Key, int>
    var log: seq<Economy.Tx>

    ghost function Table(): Economy.Db
      reads this
    {
      Economy.Db(accounts, log)
    }

    constructor ()
      ensures Table() == Economy.Db(map[], [])
      ensures Agrees(Table()) && Conserves(Table()) && NonNegative(Table()) && Paired(log)
    {
      accounts, log := map[], [];
    }

    method GetAccount(k: Key) returns (balance: int)
      modifies this`accounts
      ensures Table() == Economy.Ensure(old(Table()), k)
      ensures k in accounts && balance == accounts[k]
    {
      if k !in accounts {
        accounts := accounts[k := 0];
      }
      balance := accounts[k];
    }

    method Deposit(k: Key, amount: int, now: int) returns (ok: bool)
      modifies this
      ensures (Table(), ok) == Economy.Apply(old(Table()), Economy.Deposit(k, amount), now, now)
      ensures ok <==> amount > 0
    {
      if amount <= 0 { return false; }
      var balance := GetAccount(k);
      accounts := accounts[k := balance + amount];
      log := log + [Economy.Tx(k, Economy.DEPOSIT, amount, None, now)];
      return true;
    }

    method Withdraw(k: Key, amount: int, now: int) returns (ok: bool)
      modifies this
      ensures (Table(), ok) == Economy.Apply(old(Table()), Economy.Withdraw(k, amount), now, now)
      ensures ok <==> 0 < amount <= BalanceOrZero(old(Table()), k)
    {
      if amount <= 0 { return false; }
      var balance := GetAccount(k);
      if balance < amount { return false; }
      accounts := accounts[k := balance - amount];
      log := log + [Economy.Tx(k, Economy.WITHDRAWAL, amount, None, now)];
      return true;
    }

    method Transfer(fromUser: string, toUser: string, amount: int, currency: string, now: int) returns (ok: bool)
      modifies this
      ensures (Table(), ok) ==
                Economy.Apply(old(Table()), Economy.Transfer(fromUser, toUser, currency, amount), now, now)
      ensures ok <==>
              fromUser != toUser && 0 < amount <= BalanceOrZero(old(Table()), Economy.Key(fromUser, currency))
    {
      if amount <= 0 { return false; }
      if fromUser == toUser { return false; }
      var from, to := Economy.Key(fromUser, currency), Economy.Key(toUser, currency);
      var fromBalance := GetAccount(from);
      var toBalance := GetAccount(to);
      if fromBalance < amount { return false; }
      accounts := accounts[from := fromBalance - amount];
      accounts := accounts[to := toBalance + amount];
      log := log + [Economy.Tx(from, Economy.TRANSFER_OUT, amount, Some(to), now),
                    Economy.Tx(to, Economy.TRANSFER_IN, amount, Some(from), now)];
      return true;
    }

    method PurchaseCurrency(k: Key, amount: int, now: int) returns (ok: bool)
      modifies this
      ensures (Table(), ok) == Economy.Apply(old(Table()), Economy.PurchaseCurrency(k, amount), now, now)
      ensures ok
    {
      var balance := GetAccount(k);
      accounts := accounts[k := balance + amount];
      log := log + [Economy.Tx(k, Economy.PURCHASE, amount, None, now)];
      return true;
    }

    method Reward(k: Key, amount: int, now: int) returns (ok: bool)
      modifies this
      ensures (Table(), ok) == Economy.Apply(old(Table()), Economy.Deposit(k, amount), now, now)
      ensures ok <==> amount > 0
    {
      ok := Deposit(k, amount, now);
    }

    method Deduct(k: Key, amount: int, now: int) returns (ok: bool)
      modifies this
      ensures (Table(), ok) == Economy.Apply(old(Table()), Economy.Withdraw(k, amount), now, now)
      ensures ok <==> 0 < amount <= BalanceOrZero(old(Table()), k)
    {
      ok := Withdraw(k, amount, now);
    }

    /** `check` is the clock reading of the 24-hour test, `stamp` that of the recorded row. */
    method DailyBonus(k: Key, check: int, stamp: int) returns (ok: bool, hoursToWait: int)
      modifies this
      ensures (Table(), ok) == Economy.Apply(old(Table()), Economy.DailyBonus(k), check, stamp)
      ensures !ok ==> var rows := Economy.Ledger(log, k);
                forall h: int :: !Economy.Claimed(rows, check + h * 3_600_000) <==> hoursToWait <= h
      ensures ok <==> DayPassed(BonusTimes(Economy.Ledger(old(log), k)), check)
    {
      hoursToWait := 0;
      ClaimedExactly(Economy.Ledger(log, k), check);
      var balance := GetAccount(k);
      var last := Economy.LastBonus(Economy.Ledger(log, k));
      if last.Some? {
        if check - last.value < Economy.DAY {
          hoursToWait := HoursToWait(last.value, check);
          forall h: int
            ensures !Economy.Claimed(Economy.Ledger(log, k), check + h * 3_600_000) <==> hoursToWait <= h
          {
            StatedWaitIsExact(Economy.Ledger(log, k), check, h);
          }
          return false, hoursToWait;
        }
      }
      accounts := accounts[k := balance + Economy.BONUS];
      log := log + [Economy.Tx(k, Economy.DAILY_BONUS, Economy.BONUS, None, stamp)];
      return true, 0;
    }

    method ShopPurchase(k: Key, price: int, now: int) returns (ok: bool)
      modifies this
      ensures (Table(), ok) == Economy.Apply(old(Table()), Economy.ShopPurchase(k, price), now, now)
      ensures ok <==> price <= BalanceOrZero(old(Table()), k)
    {
      var balance := GetAccount(k);
      if balance < price { return false; }
      accounts := accounts[k := balance - price];
      log := log + [Economy.Tx(k, Economy.SHOP_PURCHASE, price, None, now)];
      return true;
    }
  }
}
