/**
 Accounts, trusts and their updates (account/manager.go).

 Identifiers are numbers, 0 being the empty string. Amounts are 64-bit and wrap; the count of
 entries is 32-bit and wraps.
 */
module Accounts {
  import opened Common
  import opened Exchange

  type Id = nat
  type Money = x: int | Int64(x)
  type Entries = x: int | -0x8000_0000 <= x <= 0x7FFF_FFFF

  datatype Account = Account(balance: Money, signer: Id, seqNum: nat, entries: Entries, buying: Money, selling: Money)
  datatype Asset = Asset(native: bool, name: string, issuer: Id)
  datatype Trust = Trust(balance: Money, limit: Money, buying: Money, selling: Money, authorized: int)
  datatype TrustKey = TrustKey(holder: Id, asset: Asset)

  datatype Db = Db(accounts: map<Id, Account>, trusts: map<TrustKey, Trust>)

  /** The reserve of the account manager and the one the transaction manager passes on; the sequence
      number of the ledger being closed. */
  datatype Config = Config(reserve: Money, txReserve: Money, ledgerSeq: nat)

  function ToInt32(x: int): (r: Entries)
  {
    (x + 0x8000_0000) % 0x1_0000_0000 - 0x8000_0000
  }

  /******* Updates *******/

  function UpdateBalance(acc: Account, amount: Money): Option<Account> {
    if amount > 0 && acc.balance > MAX_INT64 - amount then None
    else if amount < 0 && acc.balance < amount then None
    else Some(acc.(balance := ToInt64(acc.balance + amount)))
  }

  /** The guard makes an addition exact, and a subtraction exact unless the balance was negative. */
  lemma UpdateWrapsExactly(acc: Account, amount: Money)
    ensures amount > 0 ==> (UpdateBalance(acc, amount).Some? <==> acc.balance + amount <= MAX_INT64)
    ensures UpdateBalance(acc, amount).Some? && UpdateBalance(acc, amount).value.balance != acc.balance + amount
            <==> amount <= acc.balance < -TWO63 - amount
  {}

  /** A withdrawal is refused only below minus the amount, so it can leave a debt: exactly when the
      balance is smaller than the amount but not refused, and the difference still fits. */
  lemma OverdrawsExactly(acc: Account, amount: Money)
    requires amount > 0
    ensures var r := UpdateBalance(acc, ToInt64(0 - amount));
            && (r.None? <==> acc.balance + amount < 0)
            && (r.Some? ==> (r.value.balance < 0 <==> acc.balance < amount && acc.balance - amount >= 0 - TWO63))
  {
    var m := ToInt64(0 - amount);
    assert Int64(amount) && Int64(0 - amount);
    assert m == 0 - amount;
    if acc.balance + amount >= 0 {
      var d := acc.balance + m;
      assert ToInt64(d) == if d < 0 - TWO63 then d + TWO64 else d;
    }
  }

  function UpdateTrustBalance(trust: Trust, amount: Money): Option<Trust> {
    if amount > 0 && ToInt64(trust.balance + amount) > trust.limit then None
    else if amount < 0 && trust.balance < amount then None
    else Some(trust.(balance := ToInt64(trust.balance + amount)))
  }

  /** The limit check adds in 64 bits, so it lets through an addition that overflows if what is left
      of it is within the limit; a subtraction wraps exactly if it does not fit. */
  lemma UpdateTrustWrapsExactly(trust: Trust, amount: Money)
    ensures var r, sum := UpdateTrustBalance(trust, amount), trust.balance + amount;
            r.Some? && r.value.balance != sum
            <==> || (amount > 0 && sum > MAX_INT64 && sum - TWO64 <= trust.limit)
                 || (amount < 0 && amount <= trust.balance && sum < 0 - TWO63)
  {
    var sum := trust.balance + amount;
    assert Int64(trust.balance) && Int64(amount);
    assert ToInt64(sum) == if sum > MAX_INT64 then sum - TWO64 else if sum < 0 - TWO63 then sum + TWO64 else sum;
  }

  /** One unit more on a full trust without a limit leaves the lowest balance there is. */
  lemma FullTrustOverflows()
    ensures var full := Trust(MAX_INT64, MAX_INT64, 0, 0, 1);
            UpdateTrustBalance(full, 1) == Some(full.(balance := 0 - TWO63))
  {}

  function UpdateEntryCount(acc: Account, count: Entries, reserve: Money): Option<Account> {
    if count == 0 then Some(acc)
    else
      var total := ToInt32(acc.entries + count);
      if ToInt64(ToInt64(total * reserve) + acc.selling) > acc.balance then None
      else Some(acc.(entries := total))
  }

  /** The issuer of an asset holds as much of it as can be counted. */
  function GetTrust(db: Db, holder: Id, asset: Asset): Option<Trust> {
    if holder == asset.issuer then Some(Trust(MAX_INT64, MAX_INT64, 0, 0, 1))
    else if TrustKey(holder, asset) in db.trusts then Some(db.trusts[TrustKey(holder, asset)])
    else None
  }

  function SaveAccount(db: Db, id: Id, acc: Account): Db {
    db.(accounts := db.accounts[id := acc])
  }

  function SaveTrust(db: Db, holder: Id, asset: Asset, trust: Trust): Db {
    db.(trusts := db.trusts[TrustKey(holder, asset) := trust])
  }

  function NewAccount(balance: Money, signer: Id, seqNum: nat): Account {
    Account(balance, signer, seqNum, 0, 0, 0)
  }

  /******* The total of the native asset *******/

  ghost function Total(accounts: map<Id, Account>): int
    decreases |accounts|
  {
    if accounts == map[] then 0
    else
      var id :| id in accounts;
      assert |accounts - {id}| < |accounts| by {
        assert (accounts - {id}).Keys == accounts.Keys - {id};
      }
      accounts[id].balance + Total(accounts - {id})
  }

  lemma {:induction false} TotalWithout(accounts: map<Id, Account>, id: Id)
    requires id in accounts
    ensures Total(accounts) == accounts[id].balance + Total(accounts - {id})
    decreases |accounts|
  {
    var first :| first in accounts && Total(accounts) == accounts[first].balance + Total(accounts - {first});
    if first != id {
      var rest := accounts - {first};
      assert rest.Keys == accounts.Keys - {first};
      TotalWithout(rest, id);
      assert (accounts - {id}).Keys == accounts.Keys - {id};
      TotalWithout(accounts - {id}, first);
      assert rest - {id} == accounts - {id} - {first};
    }
  }

  /** Saving an account changes the total by the change of its balance. */
  lemma TotalSave(accounts: map<Id, Account>, id: Id, acc: Account)
    ensures Total(accounts[id := acc])
            == Total(accounts) + acc.balance - (if id in accounts then accounts[id].balance else 0)
  {
    var saved := accounts[id := acc];
    TotalWithout(saved, id);
    if id in accounts {
      TotalWithout(accounts, id);
      assert saved - {id} == accounts - {id};
    } else {
      assert saved - {id} == accounts;
    }
  }
}
