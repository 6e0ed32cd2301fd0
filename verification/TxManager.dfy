/**
 The transaction manager as an object: transactions are grouped by account, the accounts are
 charged one group after the other in any order, and what was charged is sorted again and applied.
 */
module TxGroups {
  import opened Accounts
  import opened Transactions

  /** The transactions of one account, in order. */
  function Of(txs: seq<Tx>, id: Id): seq<Tx> {
    if txs == [] then []
    else Of(txs[..|txs|-1], id) + if txs[|txs|-1].account == id then [txs[|txs|-1]] else []
  }

  lemma OfSnoc(txs: seq<Tx>, tx: Tx, id: Id)
    ensures Of(txs + [tx], id) == Of(txs, id) + if tx.account == id then [tx] else []
  {
    assert (txs + [tx])[..|txs|] == txs;
  }

  lemma {:induction false} OfCounts(txs: seq<Tx>, tx: Tx)
    ensures multiset(txs)[tx] == multiset(Of(txs, tx.account))[tx]
  {
    if txs != [] {
      OfCounts(txs[..|txs|-1], tx);
      assert txs == txs[..|txs|-1] + [txs[|txs|-1]];
    }
  }

  lemma {:induction false} OfAppends(a: seq<Tx>, b: seq<Tx>, id: Id)
    ensures Of(a + b, id) == Of(a, id) + Of(b, id)
    decreases |b|
  {
    if b == [] {
      assert a + b == a;
    } else {
      var n := |b| - 1;
      assert a + b == (a + b[..n]) + [b[n]];
      OfSnoc(a + b[..n], b[n], id);
      OfAppends(a, b[..n], id);
    }
  }

  lemma {:induction false} OfMembers(txs: seq<Tx>, id: Id, i: nat)
    requires i < |Of(txs, id)|
    ensures Of(txs, id)[i].account == id && Of(txs, id)[i] in txs
  {
    if i < |Of(txs[..|txs|-1], id)| {
      OfMembers(txs[..|txs|-1], id, i);
    }
  }

  lemma {:induction false} ChargeSnoc(f: FeePhase, txs: seq<Tx>, tx: Tx)
    ensures ChargeTxs(f, txs + [tx]) == ChargeTx(ChargeTxs(f, txs), tx)
    decreases |txs|
  {
    if txs == [] {
      assert ([] + [tx])[1..] == [] && ([] + [tx])[0] == tx;
    } else {
      assert (txs + [tx])[0] == txs[0] && (txs + [tx])[1..] == txs[1..] + [tx];
      ChargeSnoc(ChargeTx(f, txs[0]), txs[1..], tx);
    }
  }

  predicate SameStatus(a: map<Tx, Status>, b: map<Tx, Status>, tx: Tx) {
    (tx in a <==> tx in b) && (tx in a ==> a[tx] == b[tx])
  }

  /** f and g agree on one account, on its status entries and on its part of the rest. */
  ghost predicate AgreeOn(f: FeePhase, g: FeePhase, id: Id) {
    && f.s.db.trusts == g.s.db.trusts
    && (id in f.s.db.accounts <==> id in g.s.db.accounts)
    && (id in f.s.db.accounts ==> f.s.db.accounts[id] == g.s.db.accounts[id])
    && (forall tx: Tx :: tx.account == id ==> SameStatus(f.s.status, g.s.status, tx))
    && Of(f.rest, id) == Of(g.rest, id)
  }

  lemma ChargeAgrees(f: FeePhase, g: FeePhase, tx: Tx, id: Id)
    requires AgreeOn(f, g, id)
    ensures tx.account == id ==> AgreeOn(ChargeTx(f, tx), ChargeTx(g, tx), id)
    ensures tx.account != id ==> AgreeOn(ChargeTx(f, tx), g, id)
  {
    OfSnoc(f.rest, tx, id);
    OfSnoc(g.rest, tx, id);
  }

  /** Charging the whole list does to an account what charging its own transactions does. */
  lemma {:induction false} GroupDecides(s: Books, txs: seq<Tx>, id: Id)
    ensures AgreeOn(ChargeTxs(FeePhase(s, []), txs), ChargeTxs(FeePhase(s, []), Of(txs, id)), id)
    decreases |txs|
  {
    if txs != [] {
      var n := |txs| - 1;
      var f := FeePhase(s, []);
      GroupDecides(s, txs[..n], id);
      assert txs == txs[..n] + [txs[n]];
      ChargeSnoc(f, txs[..n], txs[n]);
      ChargeSnoc(f, Of(txs[..n], id), txs[n]);
      hide AgreeOn, ChargeTx, ChargeTxs;
      ChargeAgrees(ChargeTxs(f, txs[..n]), ChargeTxs(f, Of(txs[..n], id)), txs[n], id);
      assert txs[n].account != id ==> Of(txs, id) == Of(txs[..n], id);
    }
  }

  /** Lists with the same groups are charged alike, and the same transactions pay. */
  lemma SameGroupsSameFees(s: Books, a: seq<Tx>, b: seq<Tx>)
    requires forall id :: Of(a, id) == Of(b, id)
    ensures var f, g := ChargeTxs(FeePhase(s, []), a), ChargeTxs(FeePhase(s, []), b);
            f.s == g.s && multiset(f.rest) == multiset(g.rest)
  {
    var f, g := ChargeTxs(FeePhase(s, []), a), ChargeTxs(FeePhase(s, []), b);
    forall id ensures AgreeOn(f, g, id) {
      GroupDecides(s, a, id);
      GroupDecides(s, b, id);
    }
    ChargeKeepsKeys(FeePhase(s, []), a);
    ChargeKeepsKeys(FeePhase(s, []), b);
    hide ChargeTxs, Of;
    forall id | id in s.db.accounts ensures f.s.db.accounts[id] == g.s.db.accounts[id] {
      assert AgreeOn(f, g, id);
    }
    assert f.s.db.accounts == g.s.db.accounts;
    forall tx ensures SameStatus(f.s.status, g.s.status, tx) && multiset(f.rest)[tx] == multiset(g.rest)[tx] {
      assert AgreeOn(f, g, tx.account);
      OfCounts(f.rest, tx);
      OfCounts(g.rest, tx);
    }
    SameEverywhere(f.s.status, g.s.status);
  }

  lemma SameEverywhere(a: map<Tx, Status>, b: map<Tx, Status>)
    requires forall tx :: SameStatus(a, b, tx)
    ensures a == b
  {
    assert forall tx :: SameStatus(a, b, tx) ==> (tx in a <==> tx in b) && (tx in a ==> a[tx] == b[tx]);
  }

  /** No two transactions of one account have the same sequence number. */
  ghost predicate DistinctPerAccount(txs: multiset<Tx>) {
    && (forall x :: x in txs ==> txs[x] == 1)
    && (forall x, y :: x in txs && y in txs && x.account == y.account && x.seqNum == y.seqNum ==> x == y)
  }

  lemma {:induction false} OfAscends(txs: seq<Tx>, id: Id)
    requires Ascending(txs)
    ensures Ascending(Of(txs, id)) && forall i :: 0 <= i < |Of(txs, id)| ==> Of(txs, id)[i] in txs
  {
    if txs != [] {
      var n := |txs| - 1;
      OfAscends(txs[..n], id);
      assert forall x :: x in txs[..n] ==> x in txs && x.seqNum <= txs[n].seqNum;
    }
  }

  lemma OfCounted(txs: seq<Tx>, id: Id, tx: Tx)
    ensures multiset(Of(txs, id))[tx] == if tx.account == id then multiset(txs)[tx] else 0
  {
    if tx.account == id {
      OfCounts(txs, tx);
    } else if tx in Of(txs, id) {
      var i :| 0 <= i < |Of(txs, id)| && Of(txs, id)[i] == tx;
      OfMembers(txs, id, i);
    }
  }

  lemma GroupIsDistinct(txs: seq<Tx>, id: Id)
    requires DistinctPerAccount(multiset(txs))
    ensures DistinctSeqNums(multiset(Of(txs, id)))
  {
    hide Of;
    forall tx ensures multiset(Of(txs, id))[tx] == if tx.account == id then multiset(txs)[tx] else 0 {
      OfCounted(txs, id, tx);
    }
  }

  /** The fee phase depends on the order only through ties within one account: where there are none,
      any two ascending orders leave the same accounts and statuses and the same transactions to apply. */
  lemma FeesIgnoreOtherTies(s: Books, a: seq<Tx>, b: seq<Tx>)
    requires Ascending(a) && Ascending(b) && multiset(a) == multiset(b) && DistinctPerAccount(multiset(a))
    ensures var f, g := ChargeTxs(FeePhase(s, []), a), ChargeTxs(FeePhase(s, []), b);
            f.s == g.s && multiset(f.rest) == multiset(g.rest)
  {
    forall id ensures Of(a, id) == Of(b, id) {
      OfAscends(a, id);
      OfAscends(b, id);
      GroupIsDistinct(a, id);
      forall tx ensures multiset(Of(a, id))[tx] == multiset(Of(b, id))[tx] {
        OfCounted(a, id, tx);
        OfCounted(b, id, tx);
      }
      hide Of;
      DistinctIsStrict(Of(a, id));
      SortedUnique(Of(a, id), Of(b, id));
    }
    SameGroupsSameFees(s, a, b);
  }

  lemma {:induction false} ChargeKeepsKeys(f: FeePhase, txs: seq<Tx>)
    ensures ChargeTxs(f, txs).s.db.accounts.Keys == f.s.db.accounts.Keys
    ensures ChargeTxs(f, txs).s.db.trusts == f.s.db.trusts
    decreases |txs|
  {
    if txs != [] {
      ChargeKeepsKeys(ChargeTx(f, txs[0]), txs[1..]);
    }
  }

  /******* Charging one group after the other *******/

  ghost predicate AccountsDone(s: Db, g: Db, now: Db, left: set<Id>) {
    && now.trusts == s.trusts == g.trusts
    && now.accounts.Keys == s.accounts.Keys == g.accounts.Keys
    && (forall id :: id in s.accounts && id in left ==> now.accounts[id] == s.accounts[id])
    && (forall id :: id in s.accounts && id !in left ==> now.accounts[id] == g.accounts[id])
  }

  ghost predicate StatusesDone(s: map<Tx, Status>, g: map<Tx, Status>, now: map<Tx, Status>, left: set<Id>) {
    forall tx: Tx :: (tx.account in left ==> SameStatus(now, s, tx)) && (tx.account !in left ==> SameStatus(now, g, tx))
  }

  ghost predicate RestDone(g: seq<Tx>, rest: seq<Tx>, left: set<Id>) {
    forall id :: Of(rest, id) == if id in left then [] else Of(g, id)
  }

  /** From s, every account but those left has been charged as in g, which charges the whole list. */
  ghost predicate Progress(s: Books, g: FeePhase, now: Books, rest: seq<Tx>, left: set<Id>) {
    && AccountsDone(s.db, g.s.db, now.db, left)
    && StatusesDone(s.status, g.s.status, now.status, left)
    && RestDone(g.rest, rest, left)
  }

  lemma ProgressStarts(s: Books, txs: seq<Tx>, left: set<Id>)
    requires forall id :: id !in left ==> Of(txs, id) == []
    ensures Progress(s, ChargeTxs(FeePhase(s, []), txs), s, [], left)
  {
    var g := ChargeTxs(FeePhase(s, []), txs);
    ChargeKeepsKeys(FeePhase(s, []), txs);
    forall id | id !in left ensures AgreeOn(g, FeePhase(s, []), id) {
      GroupDecides(s, txs, id);
    }
    hide ChargeTxs;
    forall tx: Tx | tx.account !in left ensures SameStatus(s.status, g.s.status, tx) {
      assert AgreeOn(g, FeePhase(s, []), tx.account);
    }
    forall id | id !in left ensures Of(g.rest, id) == [] {
      assert AgreeOn(g, FeePhase(s, []), id);
    }
  }

  lemma AccountsGoOn(s: Db, g: Db, now: Db, next: Db, left: set<Id>, id: Id)
    requires AccountsDone(s, g, now, left) && id in s.accounts
    requires next == SaveAccount(now, id, g.accounts[id])
    ensures AccountsDone(s, g, next, left - {id})
  {}

  lemma ProgressGoesOn(s: Books, txs: seq<Tx>, now: Books, next: Books, rest: seq<Tx>, left: set<Id>, id: Id)
    requires id in left && id in s.db.accounts
    requires Progress(s, ChargeTxs(FeePhase(s, []), txs), now, rest, left)
    requires var h := ChargeTxs(FeePhase(s, []), Of(txs, id));
             && id in h.s.db.accounts && next.db == SaveAccount(now.db, id, h.s.db.accounts[id])
             && Overlaid(next.status, h.s.status, now.status, id)
    ensures var h := ChargeTxs(FeePhase(s, []), Of(txs, id));
            Progress(s, ChargeTxs(FeePhase(s, []), txs), next, rest + h.rest, left - {id})
  {
    var g := ChargeTxs(FeePhase(s, []), txs);
    var h := ChargeTxs(FeePhase(s, []), Of(txs, id));
    GroupDecides(s, txs, id);
    PaidByGroup(s, Of(txs, id), id, txs);
    hide ChargeTxs, Of;
    AccountsGoOn(s.db, g.s.db, now.db, next.db, left, id);
    hide AccountsDone, StatusesDone, RestDone, Overlaid, SameStatus;
    StatusesGoOn(s.status, g.s.status, h.s.status, now.status, next.status, left, id);
    RestGoesOn(g.rest, h.rest, rest, left, id);
  }

  /** a has the entries of b for one account and those of d for the others. */
  ghost predicate Overlaid(a: map<Tx, Status>, b: map<Tx, Status>, d: map<Tx, Status>, id: Id) {
    forall tx: Tx :: (tx.account == id ==> SameStatus(a, b, tx)) && (tx.account != id ==> SameStatus(a, d, tx))
  }

  lemma StatusesGoOn(s: map<Tx, Status>, g: map<Tx, Status>, h: map<Tx, Status>, now: map<Tx, Status>,
                     next: map<Tx, Status>, left: set<Id>, id: Id)
    requires StatusesDone(s, g, now, left) && Overlaid(next, h, now, id)
    requires forall tx: Tx :: tx.account == id ==> SameStatus(g, h, tx)
    ensures StatusesDone(s, g, next, left - {id})
  {
    forall tx: Tx
      ensures tx.account in left - {id} ==> SameStatus(next, s, tx)
      ensures tx.account !in left - {id} ==> SameStatus(next, g, tx)
    {
      assert SameStatus(now, s, tx) || SameStatus(now, g, tx);
      assert SameStatus(next, h, tx) || SameStatus(next, now, tx);
    }
  }

  lemma RestGoesOn(g: seq<Tx>, h: seq<Tx>, rest: seq<Tx>, left: set<Id>, id: Id)
    requires RestDone(g, rest, left) && id in left && Of(g, id) == Of(h, id)
    requires forall i :: i != id ==> Of(h, i) == []
    ensures RestDone(g, rest + h, left - {id})
  {
    hide Of;
    forall i ensures Of(rest + h, i) == if i in left - {id} then [] else Of(g, i) {
      OfAppends(rest, h, i);
    }
  }

  /** What a group paid is all of its account. */
  lemma PaidByGroup(s: Books, group: seq<Tx>, id: Id, txs: seq<Tx>)
    requires group == Of(txs, id)
    ensures forall i :: i != id ==> Of(ChargeTxs(FeePhase(s, []), group).rest, i) == []
  {
    forall k | 0 <= k < |group| ensures group[k].account == id {
      OfMembers(txs, id, k);
    }
    PaidAreOf(FeePhase(s, []), group, id);
  }

  lemma {:induction false} PaidAreOf(f: FeePhase, group: seq<Tx>, id: Id)
    requires forall k :: 0 <= k < |group| ==> group[k].account == id
    requires forall i :: i != id ==> Of(f.rest, i) == []
    ensures forall i :: i != id ==> Of(ChargeTxs(f, group).rest, i) == []
    decreases |group|
  {
    if group != [] {
      forall i | i != id ensures Of(ChargeTx(f, group[0]).rest, i) == [] {
        OfSnoc(f.rest, group[0], i);
      }
      PaidAreOf(ChargeTx(f, group[0]), group[1..], id);
    }
  }

  lemma ProgressEnds(s: Books, g: FeePhase, now: Books, rest: seq<Tx>)
    requires Progress(s, g, now, rest, {})
    ensures now == g.s && multiset(rest) == multiset(g.rest)
  {
    assert now.db.accounts == g.s.db.accounts;
    SameEverywhere(now.status, g.s.status);
    forall tx ensures multiset(rest)[tx] == multiset(g.rest)[tx] {
      OfCounts(rest, tx);
      OfCounts(g.rest, tx);
      assert Of(rest, tx.account) == Of(g.rest, tx.account);
    }
  }

  /** The groups of a list. */
  ghost predicate Grouped(groups: map<Id, seq<Tx>>, txs: seq<Tx>) {
    forall id ::
      && (id in groups ==> groups[id] == Of(txs, id) != [])
      && (id !in groups ==> Of(txs, id) == [])
  }

  lemma GroupedSnoc(groups: map<Id, seq<Tx>>, txs: seq<Tx>, tx: Tx)
    requires Grouped(groups, txs)
    ensures Grouped(groups[tx.account := (if tx.account in groups then groups[tx.account] else []) + [tx]], txs + [tx])
  {
    hide Of;
    forall id ensures Of(txs + [tx], id) == Of(txs, id) + if tx.account == id then [tx] else [] {
      OfSnoc(txs, tx, id);
    }
  }

  lemma OfHas(txs: seq<Tx>, i: nat)
    requires i < |txs|
    ensures Of(txs, txs[i].account) != []
  {
    assert txs[i] in multiset(txs);
    OfCounts(txs, txs[i]);
  }

  lemma GroupedExist(groups: map<Id, seq<Tx>>, txs: seq<Tx>, db: Db)
    requires Grouped(groups, txs)
    ensures groups.Keys <= db.accounts.Keys <==> AllExist(db, txs)
  {
    if groups.Keys <= db.accounts.Keys {
      forall i | 0 <= i < |txs| ensures txs[i].account in db.accounts {
        OfHas(txs, i);
        assert txs[i].account in groups.Keys;
      }
    }
    if AllExist(db, txs) {
      forall id | id in groups ensures id in db.accounts {
        OfMembers(txs, id, 0);
      }
    }
  }

  lemma SpliceAdds(txs: seq<Tx>, i: nat, tx: Tx)
    requires i <= |txs|
    ensures multiset(txs[..i] + [tx] + txs[i..]) == multiset(txs) + multiset{tx}
  {
    assert txs == txs[..i] + txs[i..];
  }

  lemma SpliceAscends(txs: seq<Tx>, i: nat, tx: Tx)
    requires Ascending(txs) && i <= |txs|
    requires i == 0 || txs[i - 1].seqNum <= tx.seqNum
    requires forall j :: i <= j < |txs| ==> tx.seqNum < txs[j].seqNum
    ensures Ascending(txs[..i] + [tx] + txs[i..])
  {
    var longer := txs[..i] + [tx] + txs[i..];
    assert forall j :: 0 <= j < i ==> longer[j] == txs[j] && txs[j].seqNum <= tx.seqNum;
    assert forall j :: i < j < |longer| ==> longer[j] == txs[j - 1];
  }
}

module TxManagers {
  import opened Common
  import opened Exchange
  import opened Accounts
  import T = Transactions
  import G = TxGroups

  /** The database, or a transaction on it. */
  class Store {
    var accounts: map<Id, Account>
    var trusts: map<TrustKey, Trust>

    function Contents(): Db
      reads this
    {
      Db(accounts, trusts)
    }

    constructor (db: Db)
      ensures Contents() == db
    {
      accounts, trusts := db.accounts, db.trusts;
    }

    method Begin() returns (dt: Store)
      ensures fresh(dt) && dt.Contents() == Contents()
    {
      dt := new Store(Contents());
    }

    method Commit(dt: Store)
      modifies this
      ensures Contents() == old(dt.Contents())
    {
      accounts, trusts := dt.accounts, dt.trusts;
    }
  }

  /** An account or a trust that was loaded and is not yet saved. */
  class AccountEntry {
    var acc: Account

    constructor (acc: Account)
      ensures this.acc == acc
    {
      this.acc := acc;
    }

    method UpdateBalance(amount: Money) returns (ok: bool)
      modifies this
      ensures ok <==> Accounts.UpdateBalance(old(acc), amount).Some?
      ensures acc == if ok then Accounts.UpdateBalance(old(acc), amount).value else old(acc)
    {
      if amount > 0 && acc.balance > MAX_INT64 - amount {
        return false;
      }
      if amount < 0 && acc.balance < amount {
        return false;
      }
      acc := acc.(balance := ToInt64(acc.balance + amount));
      ok := true;
    }

    method UpdateEntryCount(count: Entries, reserve: Money) returns (ok: bool)
      modifies this
      ensures ok <==> Accounts.UpdateEntryCount(old(acc), count, reserve).Some?
      ensures acc == if ok then Accounts.UpdateEntryCount(old(acc), count, reserve).value else old(acc)
    {
      if count == 0 {
        return true;
      }
      var total := ToInt32(acc.entries + count);
      var needed := ToInt64(ToInt64(total * reserve) + acc.selling);
      if needed > acc.balance {
        return false;
      }
      acc := acc.(entries := total);
      ok := true;
    }
  }

  class TrustEntry {
    var trust: Trust

    constructor (trust: Trust)
      ensures this.trust == trust
    {
      this.trust := trust;
    }

    method UpdateTrustBalance(amount: Money) returns (ok: bool)
      modifies this
      ensures ok <==> Accounts.UpdateTrustBalance(old(trust), amount).Some?
      ensures trust == if ok then Accounts.UpdateTrustBalance(old(trust), amount).value else old(trust)
    {
      if amount > 0 && ToInt64(trust.balance + amount) > trust.limit {
        return false;
      }
      if amount < 0 && trust.balance < amount {
        return false;
      }
      trust := trust.(balance := ToInt64(trust.balance + amount));
      ok := true;
    }
  }

  /******* Operations *******/

  datatype Verdict = Ok | Err | Panic

  /** An operation that fails may leave anything in its transaction: it is rolled back. */
  predicate Matches(v: Verdict, db: Db, r: T.OpResult) {
    match r
    case Done(after) => v == Ok && db == after
    case Failed => v == Err
    case Crashed => v == Panic
  }

  method ApplyCreate(dt: Store, src: Id, dst: Id, balance: Money, c: Config) returns (v: Verdict)
    modifies dt
    ensures Matches(v, dt.Contents(), T.ApplyCreate(old(dt.Contents()), src, dst, balance, c))
  {
    if src == dst || balance == 0 || dst in dt.accounts || src !in dt.accounts {
      return Err;
    }
    var srcAcc := dt.accounts[src];
    if srcAcc.balance < balance || balance < c.txReserve {
      return Err;
    }
    srcAcc := srcAcc.(balance := ToInt64(srcAcc.balance - balance));
    dt.accounts := dt.accounts[src := srcAcc];
    if balance < c.reserve {
      return Err;
    }
    dt.accounts := dt.accounts[dst := NewAccount(balance, src, c.ledgerSeq)];
    v := Ok;
  }

  /** One side of a payment. */
  method ApplyCredit(dt: Store, id: Id, asset: Asset, amount: Money) returns (v: Verdict)
    modifies dt
    ensures Matches(v, dt.Contents(), T.Credit(old(dt.Contents()), id, asset, amount))
  {
    if asset.native {
      if id !in dt.accounts {
        return Err;
      }
      var entry := new AccountEntry(dt.accounts[id]);
      var ok := entry.UpdateBalance(amount);
      if !ok {
        return Err;
      }
      dt.accounts := dt.accounts[id := entry.acc];
    } else {
      if asset.issuer !in dt.accounts {
        return Err;
      }
      var trust := GetTrust(dt.Contents(), id, asset);
      if trust.None? {
        return Panic;
      }
      if trust.value.authorized == 0 {
        return Err;
      }
      var entry := new TrustEntry(trust.value);
      var ok := entry.UpdateTrustBalance(amount);
      if !ok {
        return Err;
      }
      dt.trusts := dt.trusts[TrustKey(id, asset) := entry.trust];
    }
    v := Ok;
  }

  method ApplyPayment(dt: Store, src: Id, dst: Id, asset: Option<Asset>, amount: Money) returns (v: Verdict)
    modifies dt
    ensures Matches(v, dt.Contents(), T.ApplyPayment(old(dt.Contents()), src, dst, asset, amount))
  {
    if asset.None? || !T.ValidAsset(asset.value) || amount == 0 || src == 0 || dst == 0 {
      return Err;
    }
    if dst !in dt.accounts {
      return Err;
    }
    v := ApplyCredit(dt, dst, asset.value, amount);
    if v == Ok {
      v := ApplyCredit(dt, src, asset.value, ToInt64(0 - amount));
    }
  }

  method ApplyTrust(dt: Store, src: Id, asset: Option<Asset>, limit: Money, c: Config) returns (v: Verdict)
    modifies dt
    ensures Matches(v, dt.Contents(), T.ApplyTrust(old(dt.Contents()), src, asset, limit, c))
  {
    if asset.None? {
      return Panic;
    }
    var a := asset.value;
    if src == a.issuer {
      return Err;
    }
    var trust := GetTrust(dt.Contents(), src, a);
    if src !in dt.accounts {
      return Err;
    }
    var entry := new AccountEntry(dt.accounts[src]);
    if trust.None? {
      if limit == 0 || a.issuer !in dt.accounts {
        return Err;
      }
      var ok := entry.UpdateEntryCount(1, c.reserve);
      if !ok {
        return Err;
      }
      dt.accounts := dt.accounts[src := entry.acc];
      dt.trusts := dt.trusts[TrustKey(src, a) := Trust(0, limit, 0, 0, 1)];
    } else if limit == 0 {
      dt.trusts := dt.trusts - {TrustKey(src, a)};
      var ok := entry.UpdateEntryCount(-1, c.reserve);
      if !ok {
        return Err;
      }
      dt.accounts := dt.accounts[src := entry.acc];
    } else {
      var minLimit := ToInt64(trust.value.balance + trust.value.buying);
      if limit < minLimit {
        return Err;
      }
      dt.trusts := dt.trusts[TrustKey(src, a) := trust.value.(limit := limit)];
    }
    v := Ok;
  }

  method ApplyOp(dt: Store, src: Id, op: T.Op, c: Config) returns (v: Verdict)
    requires op != T.Unsupported
    modifies dt
    ensures Matches(v, dt.Contents(), T.ApplyOp(old(dt.Contents()), src, op, c))
  {
    match op
    case CreateAccount(dst, balance) => v := ApplyCreate(dt, src, dst, balance, c);
    case Payment(dst, asset, amount) => v := ApplyPayment(dt, src, dst, asset, amount);
    case SetTrust(asset, limit) => v := ApplyTrust(dt, src, asset, limit, c);
  }

  /** The operations of a transaction, or an error for an unsupported one. */
  method BuildOps(ops: seq<T.Op>) returns (built: Option<seq<T.Op>>)
    ensures built == if T.Unsupported in ops then None else Some(ops)
  {
    var out: seq<T.Op> := [];
    for i := 0 to |ops|
      invariant out == ops[..i] && T.Unsupported !in out
    {
      if ops[i] == T.Unsupported {
        return None;
      }
      out := out + [ops[i]];
    }
    assert ops[..|ops|] == ops;
    built := Some(out);
  }

  /** The operations of a transaction, up to the first that fails. */
  method ApplyOps(dt: Store, src: Id, ops: seq<T.Op>, c: Config) returns (v: Verdict)
    requires T.Unsupported !in ops
    modifies dt
    ensures Matches(v, dt.Contents(), T.ApplyOps(old(dt.Contents()), src, ops, c))
  {
    ghost var whole := T.ApplyOps(dt.Contents(), src, ops, c);
    v := Ok;
    var i := 0;
    while i < |ops|
      invariant 0 <= i <= |ops| && v == Ok
      invariant T.ApplyOps(dt.Contents(), src, ops[i..], c) == whole
    {
      assert ops[i..][0] == ops[i] && ops[i..][1..] == ops[i + 1..];
      v := ApplyOp(dt, src, ops[i], c);
      if v != Ok {
        return;
      }
      i := i + 1;
    }
  }

  /******* Sorting *******/

  /** Some ascending arrangement: the order of equal sequence numbers is left open. */
  method SortTxs(txs: seq<T.Tx>) returns (sorted: seq<T.Tx>)
    ensures T.Ascending(sorted) && multiset(sorted) == multiset(txs)
  {
    sorted := [];
    for i := 0 to |txs|
      invariant T.Ascending(sorted) && multiset(sorted) == multiset(txs[..i])
    {
      sorted := InsertTx(sorted, txs[i]);
      assert txs[..i + 1] == txs[..i] + [txs[i]];
    }
    assert txs[..|txs|] == txs;
  }

  method InsertTx(txs: seq<T.Tx>, tx: T.Tx) returns (longer: seq<T.Tx>)
    requires T.Ascending(txs)
    ensures T.Ascending(longer) && multiset(longer) == multiset(txs) + multiset{tx}
  {
    var i := |txs|;
    while i > 0 && tx.seqNum < txs[i - 1].seqNum
      invariant 0 <= i <= |txs|
      invariant forall j :: i <= j < |txs| ==> tx.seqNum < txs[j].seqNum
    {
      i := i - 1;
    }
    longer := txs[..i] + [tx] + txs[i..];
    G.SpliceAscends(txs, i, tx);
    hide T.Ascending;
    G.SpliceAdds(txs, i, tx);
  }

  /******* The manager *******/

  datatype Result = Applied | AccountNotExist | Panicked

  class TxManager {
    const store: Store
    const c: Config
    var status: map<T.Tx, T.Status>

    ghost function St(): T.Books
      reads this, store
    {
      T.Books(store.Contents(), status)
    }

    constructor (store: Store, c: Config)
      ensures this.store == store && this.c == c && status == map[]
    {
      this.store, this.c, status := store, c, map[];
    }

    /** The operations of a transaction take effect together or not at all. */
    method ApplyTx(tx: T.Tx, ledgerSeqNum: nat) returns (v: Verdict)
      modifies this, store
      ensures v == Panic <==> T.ApplyTx(old(St()), tx, c.(ledgerSeq := ledgerSeqNum)).Aborted?
      ensures St() == T.ApplyTx(old(St()), tx, c.(ledgerSeq := ledgerSeqNum)).s
    {
      var built := BuildOps(tx.ops);
      if built.None? {
        status := status[tx := T.Rejected(T.OpFailed)];
      }
      var dt := store.Begin();
      v := ApplyOps(dt, tx.account, if built.Some? then built.value else [], c.(ledgerSeq := ledgerSeqNum));
      match v
      case Ok =>
        store.Commit(dt);
        status := status[tx := T.Confirmed];
      case Err =>
        status := status[tx := T.Rejected(T.OpFailed)];
      case Panic =>
    }

    method GroupByAccount(txs: seq<T.Tx>) returns (groups: map<Id, seq<T.Tx>>)
      ensures G.Grouped(groups, txs)
    {
      groups := map[];
      for n := 0 to |txs|
        invariant G.Grouped(groups, txs[..n])
      {
        var tx := txs[n];
        assert txs[..n + 1] == txs[..n] + [tx];
        G.GroupedSnoc(groups, txs[..n], tx);
        groups := groups[tx.account := (if tx.account in groups then groups[tx.account] else []) + [tx]];
      }
      assert txs[..|txs|] == txs;
    }

    /** The fees of one group: the account is loaded once and saved once. */
    method ChargeGroup(id: Id, txs: seq<T.Tx>, ghost s: T.Books) returns (paid: seq<T.Tx>)
      requires id in store.accounts && forall i :: 0 <= i < |txs| ==> txs[i].account == id
      requires id in s.db.accounts && store.accounts[id] == s.db.accounts[id]
      requires forall tx: T.Tx :: tx.account == id ==> G.SameStatus(status, s.status, tx)
      modifies this, store
      ensures var f := T.ChargeTxs(T.FeePhase(s, []), txs);
              && paid == f.rest
              && id in f.s.db.accounts
              && store.Contents() == SaveAccount(old(store.Contents()), id, f.s.db.accounts[id])
              && G.Overlaid(status, f.s.status, old(status), id)
    {
      var entry := new AccountEntry(store.accounts[id]);
      paid := [];
      ghost var f := T.FeePhase(s, []);
      for i := 0 to |txs|
        invariant f == T.ChargeTxs(T.FeePhase(s, []), txs[..i])
        invariant store.Contents() == old(store.Contents())
        invariant id in f.s.db.accounts && entry.acc == f.s.db.accounts[id] && paid == f.rest
        invariant G.Overlaid(status, f.s.status, old(status), id)
      {
        var tx := txs[i];
        assert txs[..i + 1] == txs[..i] + [tx];
        G.ChargeSnoc(T.FeePhase(s, []), txs[..i], tx);
        f := T.ChargeTx(f, tx);
        if entry.acc.seqNum > tx.seqNum {
          status := status[tx := T.Rejected(T.InvalidSeqNum)];
        } else if entry.acc.balance < tx.fee {
          status := status[tx := T.Rejected(T.InsufficientForFee)];
        } else {
          entry.acc := entry.acc.(balance := ToInt64(entry.acc.balance - tx.fee), seqNum := tx.seqNum);
          paid := paid + [tx];
        }
      }
      assert txs[..|txs|] == txs;
      store.accounts := store.accounts[id := entry.acc];
    }

    /** The fees of all groups, in any order of the accounts, up to one that does not exist. */
    method ChargeFees(sorted: seq<T.Tx>) returns (ok: bool, rest: seq<T.Tx>)
      modifies this, store
      ensures ok <==> T.AllExist(old(store.Contents()), sorted)
      ensures var g := T.ChargeTxs(T.FeePhase(old(St()), []), sorted);
              if ok then St() == g.s && multiset(rest) == multiset(g.rest)
              else exists left :: G.Progress(old(St()), g, St(), rest, left)
    {
      var groups := GroupByAccount(sorted);
      ghost var s := St();
      ghost var g := T.ChargeTxs(T.FeePhase(s, []), sorted);
      var ids := groups.Keys;
      rest := [];
      G.GroupedExist(groups, sorted, s.db);
      G.ProgressStarts(s, sorted, ids);
      while ids != {}
        invariant ids <= groups.Keys
        invariant groups.Keys - ids <= s.db.accounts.Keys
        invariant G.Progress(s, g, St(), rest, ids)
        decreases |ids|
      {
        var id :| id in ids;
        if id !in store.accounts {
          ok := false;
          return;
        }
        ghost var now := St();
        forall k | 0 <= k < |groups[id]| ensures groups[id][k].account == id {
          G.OfMembers(sorted, id, k);
        }
        var paid := ChargeGroup(id, groups[id], s);
        G.ProgressGoesOn(s, sorted, now, St(), rest, ids, id);
        rest := rest + paid;
        ids := ids - {id};
      }
      G.ProgressEnds(s, g, St(), rest);
      ok := true;
    }

    /**
     Any ascending order may be chosen where sequence numbers are equal. A missing account stops the
     list in the fee phase: then some accounts have been charged in full and no operation was applied.
     */
    method ApplyTxList(txs: seq<T.Tx>, ledgerSeqNum: nat)
      returns (r: Result, ghost order: seq<T.Tx>, ghost run: seq<T.Tx>)
      modifies this, store
      ensures r == AccountNotExist <==> !T.AllExist(old(store.Contents()), txs)
      ensures r == Applied ==>
                T.MayYield(old(St()), txs, c.(ledgerSeq := ledgerSeqNum), order, run, T.Finished(St()))
      ensures r == Panicked ==>
                T.MayYield(old(St()), txs, c.(ledgerSeq := ledgerSeqNum), order, run, T.Aborted(St()))
      ensures r == AccountNotExist ==>
                && T.Ascending(order) && multiset(order) == multiset(txs)
                && exists left :: G.Progress(old(St()), T.ChargeTxs(T.FeePhase(old(St()), []), order), St(), run, left)
    {
      var sorted := SortTxs(txs);
      order := sorted;
      ghost var s := St();
      SameAccounts(s.db, sorted, txs);
      var ok, rest := ChargeFees(sorted);
      run := rest;
      if !ok {
        r := AccountNotExist;
        return;
      }
      var again := SortTxs(rest);
      run := again;
      ghost var conf := c.(ledgerSeq := ledgerSeqNum);
      ghost var whole := T.ApplyTxs(St(), again, conf);
      var i := 0;
      while i < |again|
        invariant 0 <= i <= |again| && T.ApplyTxs(St(), again[i..], conf) == whole
      {
        assert again[i..][0] == again[i] && again[i..][1..] == again[i + 1..];
        var v := ApplyTx(again[i], ledgerSeqNum);
        if v == Panic {
          r := Panicked;
          return;
        }
        i := i + 1;
      }
      r := Applied;
    }
  }

  lemma SameAccounts(db: Db, a: seq<T.Tx>, b: seq<T.Tx>)
    requires multiset(a) == multiset(b)
    ensures T.AllExist(db, a) <==> T.AllExist(db, b)
  {
    forall i | 0 <= i < |a| ensures a[i] in b {
      assert a[i] in multiset(a) && a[i] in multiset(b);
    }
    forall i | 0 <= i < |b| ensures b[i] in a {
      assert b[i] in multiset(b) && b[i] in multiset(a);
    }
  }
}
