/**
 When each operation is done and what it leaves, in plain numbers and without the bodies of the updates:
 who has what afterwards, and exactly where 64-bit and 32-bit arithmetic decide otherwise.
 */
module Operations {
  import opened Common
  import opened Exchange
  import opened Accounts
  import opened Transactions

  /******* The reserve *******/

  /** What an account must have for a number of entries. */
  function Needed(acc: Account, entries: int, reserve: Money): int {
    entries * reserve + acc.selling
  }

  predicate Int32(x: int) {
    -0x8000_0000 <= x <= 0x7FFF_FFFF
  }

  lemma SumWraps(x: int, y: int)
    ensures ToInt64(ToInt64(x) + y) == ToInt64(x + y)
  {}

  /** The reserve check takes the wrong way exactly if what is needed does not fit in 64 bits and what is left
      of it compares the other way. */
  predicate CheckWraps(acc: Account, need: int) {
    (need > MAX_INT64 && ToInt64(need) <= acc.balance) || (need < 0 - TWO63 && ToInt64(need) > acc.balance)
  }

  lemma CheckExactly(acc: Account, need: int)
    ensures (ToInt64(need) <= acc.balance <==> need <= acc.balance) <==> !CheckWraps(acc, need)
  {
    assert Int64(acc.balance);
  }

  /** The count of entries changes if and only if the balance covers the reserve of the new count, exactly unless
      the check wraps. */
  lemma ReserveExactly(acc: Account, count: Entries, reserve: Money)
    requires count != 0
    ensures var r, total := UpdateEntryCount(acc, count, reserve), ToInt32(acc.entries + count);
            var need := Needed(acc, total, reserve);
            && (r.Some? ==> r.value == acc.(entries := total))
            && ((r.Some? <==> need <= acc.balance) <==> !CheckWraps(acc, need))
  {
    var total := ToInt32(acc.entries + count);
    SumWraps(total * reserve, acc.selling);
    CheckExactly(acc, Needed(acc, total, reserve));
    hide ToInt64;
  }

  lemma FittingCount(x: int)
    requires Int32(x)
    ensures ToInt32(x) == x
  {}

  /******* Trusts *******/

  /** A trust operation that is not refused for its parties. */
  predicate MayTrust(db: Db, src: Id, a: Asset) {
    src != a.issuer && src in db.accounts
  }

  /** Only one account and one trust change. */
  predicate Touched(db: Db, e: Db, src: Id, acc: Account, key: TrustKey, trust: Option<Trust>) {
    && e.accounts == db.accounts[src := acc]
    && e.trusts == if trust.Some? then db.trusts[key := trust.value] else db.trusts - {key}
  }

  /** A trust is opened if and only if its limit is not zero, its issuer exists and the balance covers the reserve
      of one entry more; it is empty, and nothing else changes but the count. */
  lemma OpensExactly(db: Db, src: Id, a: Asset, limit: Money, c: Config)
    requires MayTrust(db, src, a) && TrustKey(src, a) !in db.trusts
    requires var acc := db.accounts[src]; Int32(acc.entries + 1) && !CheckWraps(acc, Needed(acc, acc.entries + 1, c.reserve))
    ensures var r, acc := ApplyTrust(db, src, Some(a), limit, c), db.accounts[src];
            && !r.Crashed?
            && (r.Done? <==> limit != 0 && a.issuer in db.accounts && Needed(acc, acc.entries + 1, c.reserve) <= acc.balance)
            && (r.Done? ==> Touched(db, r.db, src, acc.(entries := acc.entries + 1), TrustKey(src, a), Some(Trust(0, limit, 0, 0, 1))))
  {
    var acc := db.accounts[src];
    FittingCount(acc.entries + 1);
    ReserveExactly(acc, 1, c.reserve);
    hide UpdateEntryCount, CheckWraps;
  }

  /** A trust is dropped if and only if the balance covers the reserve of the entries that are left. */
  lemma DropsExactly(db: Db, src: Id, a: Asset, c: Config)
    requires MayTrust(db, src, a) && TrustKey(src, a) in db.trusts
    requires var acc := db.accounts[src]; Int32(acc.entries - 1) && !CheckWraps(acc, Needed(acc, acc.entries - 1, c.reserve))
    ensures var r, acc := ApplyTrust(db, src, Some(a), 0, c), db.accounts[src];
            && !r.Crashed?
            && (r.Done? <==> Needed(acc, acc.entries - 1, c.reserve) <= acc.balance)
            && (r.Done? ==> Touched(db, r.db, src, acc.(entries := acc.entries - 1), TrustKey(src, a), None))
  {
    var acc := db.accounts[src];
    FittingCount(acc.entries - 1);
    ReserveExactly(acc, -1, c.reserve);
    hide UpdateEntryCount, CheckWraps;
  }

  /** A limit is changed if and only if it is not below what the trust holds and is about to buy, if that fits. */
  lemma ChangesExactly(db: Db, src: Id, a: Asset, limit: Money, c: Config)
    requires MayTrust(db, src, a) && TrustKey(src, a) in db.trusts && limit != 0
    ensures var r, trust := ApplyTrust(db, src, Some(a), limit, c), db.trusts[TrustKey(src, a)];
            && !r.Crashed?
            && (Int64(trust.balance + trust.buying) ==> (r.Done? <==> trust.balance + trust.buying <= limit))
            && (r.Done? ==> Touched(db, r.db, src, db.accounts[src], TrustKey(src, a), Some(trust.(limit := limit))))
  {}

  /** Nobody trusts itself or without an account; a missing asset ends the process. */
  lemma MayNotTrust(db: Db, src: Id, a: Option<Asset>, limit: Money, c: Config)
    ensures ApplyTrust(db, src, a, limit, c).Crashed? <==> a.None?
    ensures a.Some? && !MayTrust(db, src, a.value) ==> ApplyTrust(db, src, a, limit, c) == Failed
  {}

  /******* The reserve along a list *******/

  /** The operation opens a trust. */
  predicate Opens(db: Db, src: Id, op: Op) {
    op.SetTrust? && op.trusted.Some? && TrustKey(src, op.trusted.value) !in db.trusts
  }

  /** The balance covers the reserve of the entries. */
  predicate Reserved(db: Db, src: Id, c: Config) {
    src in db.accounts && Needed(db.accounts[src], db.accounts[src].entries, c.reserve) <= db.accounts[src].balance
  }

  /** The check of the operation does not wrap. */
  predicate ChecksRight(db: Db, src: Id, c: Config) {
    src in db.accounts ==>
      var acc := db.accounts[src];
      var need := Needed(acc, ToInt32(acc.entries + 1), c.reserve);
      !(need > MAX_INT64 && ToInt64(need) <= acc.balance)
  }

  lemma OpenedIsReservedExactly(db: Db, src: Id, op: Op, c: Config)
    requires Opens(db, src, op) && ApplyOp(db, src, op, c).Done?
    ensures Reserved(ApplyOp(db, src, op, c).db, src, c) <==> ChecksRight(db, src, c)
  {
    var acc := db.accounts[src];
    ReserveExactly(acc, 1, c.reserve);
    SumWraps(ToInt32(acc.entries + 1) * c.reserve, acc.selling);
    assert Int64(acc.balance);
  }

  /** Every trust that is opened leaves its holder with the reserve. */
  predicate OpsReserve(db: Db, src: Id, ops: seq<Op>, c: Config)
    decreases |ops|
  {
    ops != [] ==>
      var r := ApplyOp(db, src, ops[0], c);
      r.Done? ==> (Opens(db, src, ops[0]) ==> Reserved(r.db, src, c)) && OpsReserve(r.db, src, ops[1..], c)
  }

  predicate OpsCheckRight(db: Db, src: Id, ops: seq<Op>, c: Config)
    decreases |ops|
  {
    ops != [] ==>
      var r := ApplyOp(db, src, ops[0], c);
      r.Done? ==> (Opens(db, src, ops[0]) ==> ChecksRight(db, src, c)) && OpsCheckRight(r.db, src, ops[1..], c)
  }

  lemma {:induction false} OpsReserveExactly(db: Db, src: Id, ops: seq<Op>, c: Config)
    ensures OpsReserve(db, src, ops, c) <==> OpsCheckRight(db, src, ops, c)
    decreases |ops|
  {
    hide ApplyOp, Opens, Reserved, ChecksRight;
    if ops != [] {
      var r := ApplyOp(db, src, ops[0], c);
      if r.Done? {
        if Opens(db, src, ops[0]) {
          OpenedIsReservedExactly(db, src, ops[0], c);
        }
        OpsReserveExactly(r.db, src, ops[1..], c);
      }
    }
  }

  predicate TxsReserve(s: Books, txs: seq<Tx>, c: Config)
    decreases |txs|
  {
    txs != [] ==>
      && OpsReserve(s.db, txs[0].account, Built(txs[0]), c)
      && var o := ApplyTx(s, txs[0], c);
         o.Finished? ==> TxsReserve(o.s, txs[1..], c)
  }

  predicate TxsCheckRight(s: Books, txs: seq<Tx>, c: Config)
    decreases |txs|
  {
    txs != [] ==>
      && OpsCheckRight(s.db, txs[0].account, Built(txs[0]), c)
      && var o := ApplyTx(s, txs[0], c);
         o.Finished? ==> TxsCheckRight(o.s, txs[1..], c)
  }

  /** Along every list each trust that is opened leaves its holder with the reserve of all its entries, if and only
      if no check wraps. */
  lemma {:induction false} ListReservesExactly(s: Books, txs: seq<Tx>, c: Config)
    ensures TxsReserve(s, txs, c) <==> TxsCheckRight(s, txs, c)
    decreases |txs|
  {
    hide ApplyTx, OpsReserve, OpsCheckRight, Built;
    if txs != [] {
      OpsReserveExactly(s.db, txs[0].account, Built(txs[0]), c);
      var o := ApplyTx(s, txs[0], c);
      if o.Finished? {
        ListReservesExactly(o.s, txs[1..], c);
      }
    }
  }

  /** No check wraps if the reserve is moderate and nobody has a negative liability or an enormous one. */
  lemma ModerateChecksRight(db: Db, src: Id, c: Config)
    requires 0 <= c.reserve <= 0x7FFF_FFFF
    requires src in db.accounts ==> db.accounts[src].selling <= 0x4000_0000_0000_0000
    ensures ChecksRight(db, src, c)
  {
    if src in db.accounts {
      var acc := db.accounts[src];
      var total := ToInt32(acc.entries + 1);
      assert total * c.reserve <= 0x7FFF_FFFF * 0x7FFF_FFFF by { ProductBound(total, c.reserve); }
    }
  }

  lemma ProductBound(total: int, reserve: int)
    requires total <= 0x7FFF_FFFF && 0 <= reserve <= 0x7FFF_FFFF
    ensures total * reserve <= 0x7FFF_FFFF * 0x7FFF_FFFF
  {
    assert total * reserve <= 0x7FFF_FFFF * reserve;
  }

  /******* Accounts and payments *******/

  /** A new account takes exactly its balance from its creator, who signs for it. */
  lemma CreatesExactly(db: Db, src: Id, dst: Id, balance: Money, c: Config)
    ensures var r := ApplyCreate(db, src, dst, balance, c);
            && !r.Crashed?
            && (r.Done? <==>
                  && src in db.accounts && dst !in db.accounts && balance != 0
                  && c.reserve <= balance && c.txReserve <= balance <= db.accounts[src].balance)
            && (r.Done? ==>
                  && r.db.trusts == db.trusts && r.db.accounts.Keys == db.accounts.Keys + {dst}
                  && (forall id :: id in db.accounts && id != src ==> r.db.accounts[id] == db.accounts[id])
                  && r.db.accounts[dst] == Account(balance, src, c.ledgerSeq, 0, 0, 0)
                  && (balance >= 0 && db.accounts[src].balance >= 0 ==>
                        r.db.accounts[src] == db.accounts[src].(balance := db.accounts[src].balance - balance)))
  {}

  /** The parties and the amount of a payment are in order. */
  predicate MayPay(db: Db, src: Id, dst: Id, a: Asset, amount: Money) {
    (a.native || 1 <= |a.name| <= 4) && amount != 0 && src != 0 && dst != 0 && dst in db.accounts
  }

  /** Nothing but one account has changed, and of it only the balance. */
  predicate Moved(db: Db, e: Db, src: Id, dst: Id, amount: int) {
    && src in db.accounts && dst in db.accounts
    && e.trusts == db.trusts && e.accounts.Keys == db.accounts.Keys
    && (forall id :: id in db.accounts && id != src && id != dst ==> e.accounts[id] == db.accounts[id])
    && e.accounts[dst] == db.accounts[dst].(balance := ToInt64(db.accounts[dst].balance + amount))
    && e.accounts[src] == db.accounts[src].(balance := ToInt64(db.accounts[src].balance - amount))
  }

  /** A native payment to somebody else: who has how much more and less, and exactly when it is done. A payment is
      refused only below minus its amount. */
  lemma PaysNativeExactly(db: Db, src: Id, dst: Id, a: Asset, amount: Money)
    requires a.native && src != dst && amount > 0
    ensures var r := ApplyPayment(db, src, dst, Some(a), amount);
            && !r.Crashed?
            && (r.Done? <==>
                  && MayPay(db, src, dst, a, amount) && src in db.accounts
                  && db.accounts[dst].balance + amount <= MAX_INT64 && 0 <= db.accounts[src].balance + amount)
            && (r.Done? ==> Moved(db, r.db, src, dst, amount))
  {
    assert Int64(amount) && Int64(0 - amount);
    assert ToInt64(0 - amount) == 0 - amount;
  }

  /** A payment whose parties or amount are not in order is refused, whatever it is of. */
  lemma MayNotPay(db: Db, src: Id, dst: Id, a: Option<Asset>, amount: Money)
    ensures a.None? || !MayPay(db, src, dst, a.value, amount) ==> ApplyPayment(db, src, dst, a, amount) == Failed
  {}

  predicate MayHold(db: Db, id: Id, a: Asset) {
    TrustKey(id, a) in db.trusts && db.trusts[TrustKey(id, a)].authorized != 0
  }

  /** A payment of an issued asset between two holders: exactly when it is done, if the sum fits, and who has how
      much more and less. */
  lemma PaysAssetExactly(db: Db, src: Id, dst: Id, a: Asset, amount: Money)
    requires !a.native && src != dst && src != a.issuer && dst != a.issuer && amount > 0
    requires MayPay(db, src, dst, a, amount) && MayHold(db, src, a) && MayHold(db, dst, a)
    requires var sum := db.trusts[TrustKey(dst, a)].balance + amount; Int64(sum)
    ensures var r := ApplyPayment(db, src, dst, Some(a), amount);
            var to, from := db.trusts[TrustKey(dst, a)], db.trusts[TrustKey(src, a)];
            && !r.Crashed?
            && (r.Done? <==> a.issuer in db.accounts && to.balance + amount <= to.limit && 0 <= from.balance + amount)
            && (r.Done? ==>
                  && r.db.accounts == db.accounts
                  && r.db.trusts == db.trusts[TrustKey(dst, a) := to.(balance := to.balance + amount)]
                                            [TrustKey(src, a) := from.(balance := ToInt64(from.balance - amount))])
  {
    assert Int64(amount) && Int64(0 - amount);
    assert ToInt64(0 - amount) == 0 - amount;
  }

  /** The issuer is never short of its asset nor full of it: a credit or a debit is refused only without its account,
      and its record starts from the most there is each time. */
  lemma IssuerStartsOver(db: Db, a: Asset, amount: Money)
    requires !a.native
    ensures var r := Credit(db, a.issuer, a, amount);
            && (r.Done? <==> a.issuer in db.accounts)
            && (r.Done? ==>
                  && r.db.accounts == db.accounts
                  && r.db.trusts == db.trusts[TrustKey(a.issuer, a) := Trust(ToInt64(MAX_INT64 + amount), MAX_INT64, 0, 0, 1)])
  {}

  /** With a party that is not allowed to hold the asset it is refused, and without a trust the process ends. */
  lemma MayNotPayAsset(db: Db, src: Id, dst: Id, a: Asset, amount: Money)
    requires !a.native && src != dst && src != a.issuer && dst != a.issuer && amount != 0
    requires MayPay(db, src, dst, a, amount) && a.issuer in db.accounts
    ensures var r := ApplyPayment(db, src, dst, Some(a), amount);
            && (TrustKey(dst, a) !in db.trusts ==> r.Crashed?)
            && (r.Done? ==> MayHold(db, dst, a) && MayHold(db, src, a))
            && (TrustKey(dst, a) in db.trusts && TrustKey(src, a) in db.trusts ==> !r.Crashed?)
  {}

  /******* Fees *******/

  function FeesOf(txs: seq<Tx>): int
    decreases |txs|
  {
    if txs == [] then 0 else txs[0].fee + FeesOf(txs[1..])
  }

  /** Why a transaction is refused: it is too old, or else the balance does not cover its fee. Nothing but its
      status changes; a transaction of an account that is missing is passed over. */
  lemma RefusedExactly(f: FeePhase, tx: Tx)
    ensures var g := ChargeTx(f, tx);
            if tx.account !in f.s.db.accounts then g == f
            else
              var acc := f.s.db.accounts[tx.account];
              var refused := tx.seqNum < acc.seqNum || acc.balance < tx.fee;
              && (g.rest == if refused then f.rest else f.rest + [tx])
              && (refused ==>
                    && g.s.db == f.s.db
                    && g.s.status == f.s.status[tx := Rejected(if tx.seqNum < acc.seqNum then InvalidSeqNum else InsufficientForFee)])
  {}

  /** All of them are of one account, with fees that are not negative. */
  predicate Group(txs: seq<Tx>, id: Id) {
    forall i :: 0 <= i < |txs| ==> txs[i].account == id && txs[i].fee >= 0
  }

  /**
   The transactions of one account, in ascending order, are all charged if and only if the first one is not too
   old and the balance covers all fees. The account then is at the last one, and has paid the sum.
   */
  lemma {:induction false} AllPayExactly(f: FeePhase, txs: seq<Tx>, id: Id)
    requires Ascending(txs) && Group(txs, id) && id in f.s.db.accounts && f.s.db.accounts[id].balance >= 0
    ensures var g, acc := ChargeTxs(f, txs), f.s.db.accounts[id];
            && id in g.s.db.accounts && f.rest <= g.rest && |g.rest| <= |f.rest| + |txs|
            && (g.rest == f.rest + txs <==> txs == [] || (acc.seqNum <= txs[0].seqNum && FeesOf(txs) <= acc.balance))
            && (g.rest == f.rest + txs && txs != [] ==>
                  && g.s == f.s.(db := SaveAccount(f.s.db, id, g.s.db.accounts[id]))
                  && var paid := g.s.db.accounts[id];
                     && paid == acc.(balance := paid.balance, seqNum := paid.seqNum)
                     && paid.balance == acc.balance - FeesOf(txs) && paid.seqNum == txs[|txs|-1].seqNum)
    decreases |txs|
  {
    hide ToInt64, ChargeTx;
    if txs != [] {
      var g, rest := ChargeTx(f, txs[0]), txs[1..];
      assert forall i :: 0 <= i < |rest| ==> rest[i] == txs[i + 1];
      FirstPays(f, txs[0], id);
      FeesAreNotNegative(rest, id);
      AllPayExactly(g, rest, id);
      var acc, h := f.s.db.accounts[id], ChargeTxs(f, txs);
      if acc.seqNum <= txs[0].seqNum && txs[0].fee <= acc.balance {
        assert f.rest + txs == g.rest + rest;
      } else {
        assert h.rest <= f.rest + rest ==> h.rest != f.rest + txs;
      }
    }
  }

  /** One transaction of the group. */
  lemma FirstPays(f: FeePhase, tx: Tx, id: Id)
    requires tx.account == id && tx.fee >= 0 && id in f.s.db.accounts && f.s.db.accounts[id].balance >= 0
    ensures var g, acc := ChargeTx(f, tx), f.s.db.accounts[id];
            && id in g.s.db.accounts
            && if acc.seqNum <= tx.seqNum && tx.fee <= acc.balance
               then g == FeePhase(f.s.(db := SaveAccount(f.s.db, id, acc.(balance := acc.balance - tx.fee, seqNum := tx.seqNum))), f.rest + [tx])
               else g.rest == f.rest && g.s.db == f.s.db
  {
    assert Int64(f.s.db.accounts[id].balance - tx.fee);
  }

  lemma {:induction false} FeesAreNotNegative(txs: seq<Tx>, id: Id)
    requires Group(txs, id)
    ensures FeesOf(txs) >= 0
    decreases |txs|
  {
    if txs != [] {
      assert forall i :: 0 <= i < |txs[1..]| ==> txs[1..][i] == txs[i + 1];
      FeesAreNotNegative(txs[1..], id);
    }
  }

  /******* All or nothing *******/

  /** A transaction with an operation that is not supported is confirmed without any effect. */
  lemma UnsupportedIsEmpty(s: Books, tx: Tx, c: Config)
    requires Unsupported in tx.ops
    ensures ApplyTx(s, tx, c) == Finished(Books(s.db, s.status[tx := Confirmed]))
  {}

  /** The operations up to some point are done, one on the result of the other. */
  predicate Chain(dbs: seq<Db>, src: Id, ops: seq<Op>, c: Config) {
    && 1 <= |dbs| <= |ops| + 1
    && forall i :: 0 <= i < |dbs| - 1 ==> ApplyOp(dbs[i], src, ops[i], c) == Done(dbs[i + 1])
  }

  /** How far the operations get: to the end, or to the first one that is not done. */
  lemma {:induction false} OpsStopExactly(db: Db, src: Id, ops: seq<Op>, c: Config) returns (dbs: seq<Db>)
    ensures Chain(dbs, src, ops, c) && dbs[0] == db
    ensures var n, r := |dbs| - 1, ApplyOps(db, src, ops, c);
            if n == |ops| then r == Done(dbs[n]) else !r.Done? && r == ApplyOp(dbs[n], src, ops[n], c)
    decreases |ops|
  {
    hide ApplyOp;
    dbs := [db];
    if ops != [] {
      var r := ApplyOp(db, src, ops[0], c);
      if r.Done? {
        var more := OpsStopExactly(r.db, src, ops[1..], c);
        dbs := [db] + more;
        assert forall i :: 0 < i < |dbs| - 1 ==> dbs[i] == more[i - 1] && dbs[i + 1] == more[i] && ops[i] == ops[1..][i - 1];
      }
    }
  }

  /** A transaction is confirmed with all its operations done in turn, or rejected for the first one that fails
      and without any effect, or that one ends the process. */
  lemma TxIsAtomic(s: Books, tx: Tx, c: Config) returns (dbs: seq<Db>)
    ensures Chain(dbs, tx.account, Built(tx), c) && dbs[0] == s.db
    ensures var n, o := |dbs| - 1, ApplyTx(s, tx, c);
            if n == |Built(tx)| then o == Finished(Books(dbs[n], s.status[tx := Confirmed]))
            else if ApplyOp(dbs[n], tx.account, Built(tx)[n], c).Failed?
            then o == Finished(Books(s.db, s.status[tx := Rejected(OpFailed)]))
            else o == Aborted(s) && ApplyOp(dbs[n], tx.account, Built(tx)[n], c).Crashed?
  {
    hide ApplyOp, Built, ApplyOps;
    dbs := OpsStopExactly(s.db, tx.account, Built(tx), c);
  }
}
