/**
 Operations and transaction lists (tx/op/account.go, tx/op/payment.go, tx/op/trust.go,
 tx/manager.go): what they do to the database, by sequence number, one transaction after another.
 */
module Transactions {
  import opened Common
  import opened Exchange
  import opened Accounts

  datatype Op =
    | CreateAccount(dst: Id, balance: Money)
    | Payment(to: Id, asset: Option<Asset>, amount: Money)
    | SetTrust(trusted: Option<Asset>, limit: Money)
    | Unsupported

  /** Crashed is a nil dereference, which ends the process. */
  datatype OpResult = Done(db: Db) | Failed | Crashed

  /******* Operations *******/

  function ApplyCreate(db: Db, src: Id, dst: Id, balance: Money, c: Config): OpResult {
    if src == dst || balance == 0 || dst in db.accounts || src !in db.accounts then Failed
    else if db.accounts[src].balance < balance || balance < c.txReserve || balance < c.reserve then Failed
    else
      var acc := db.accounts[src].(balance := ToInt64(db.accounts[src].balance - balance));
      Done(SaveAccount(SaveAccount(db, src, acc), dst, NewAccount(balance, src, c.ledgerSeq)))
  }

  predicate ValidAsset(asset: Asset) {
    asset.native || 0 < |asset.name| <= 4
  }

  function CreditNative(db: Db, id: Id, amount: Money): OpResult {
    if id !in db.accounts then Failed
    else
      var acc := UpdateBalance(db.accounts[id], amount);
      if acc.None? then Failed else Done(SaveAccount(db, id, acc.value))
  }

  function CreditAsset(db: Db, id: Id, asset: Asset, amount: Money): OpResult {
    if asset.issuer !in db.accounts then Failed
    else
      var trust := GetTrust(db, id, asset);
      if trust.None? then Crashed
      else if trust.value.authorized == 0 then Failed
      else
        var updated := UpdateTrustBalance(trust.value, amount);
        if updated.None? then Failed else Done(SaveTrust(db, id, asset, updated.value))
  }

  function Credit(db: Db, id: Id, asset: Asset, amount: Money): OpResult {
    if asset.native then CreditNative(db, id, amount) else CreditAsset(db, id, asset, amount)
  }

  /** A payment is a path payment of one hop, whose only exchange is skipped. */
  function ApplyPayment(db: Db, src: Id, dst: Id, asset: Option<Asset>, amount: Money): OpResult {
    if asset.None? || !ValidAsset(asset.value) || amount == 0 || src == 0 || dst == 0 then Failed
    else if dst !in db.accounts then Failed
    else
      var credited := Credit(db, dst, asset.value, amount);
      if credited.Done? then Credit(credited.db, src, asset.value, ToInt64(0 - amount)) else credited
  }

  function ApplyTrust(db: Db, src: Id, asset: Option<Asset>, limit: Money, c: Config): OpResult {
    if asset.None? then Crashed
    else
      var a := asset.value;
      if src == a.issuer || src !in db.accounts then Failed
      else
        var trust := GetTrust(db, src, a);
        if trust.None? then
          if limit == 0 || a.issuer !in db.accounts then Failed
          else
            var acc := UpdateEntryCount(db.accounts[src], 1, c.reserve);
            if acc.None? then Failed
            else Done(SaveTrust(SaveAccount(db, src, acc.value), src, a, Trust(0, limit, 0, 0, 1)))
        else if limit == 0 then
          var acc := UpdateEntryCount(db.accounts[src], -1, c.reserve);
          if acc.None? then Failed
          else Done(SaveAccount(db.(trusts := db.trusts - {TrustKey(src, a)}), src, acc.value))
        else if limit < ToInt64(trust.value.balance + trust.value.buying) then Failed
        else Done(SaveTrust(db, src, a, trust.value.(limit := limit)))
  }

  function ApplyOp(db: Db, src: Id, op: Op, c: Config): OpResult {
    match op
    case CreateAccount(dst, balance) => ApplyCreate(db, src, dst, balance, c)
    case Payment(dst, asset, amount) => ApplyPayment(db, src, dst, asset, amount)
    case SetTrust(asset, limit) => ApplyTrust(db, src, asset, limit, c)
    case Unsupported => Done(db)
  }

  function ApplyOps(db: Db, src: Id, ops: seq<Op>, c: Config): OpResult
    decreases |ops|
  {
    if ops == [] then Done(db)
    else
      var r := ApplyOp(db, src, ops[0], c);
      if r.Done? then ApplyOps(r.db, src, ops[1..], c) else r
  }

  /******* Transactions *******/

  datatype Tx = Tx(account: Id, fee: Money, seqNum: nat, ops: seq<Op>)

  datatype Reason = InvalidSeqNum | InsufficientForFee | OpFailed
  datatype Status = Confirmed | Rejected(reason: Reason)

  /** The database and the status of every transaction; a transaction stands for its key. */
  datatype Books = Books(db: Db, status: map<Tx, Status>)

  predicate Supported(tx: Tx) {
    Unsupported !in tx.ops
  }

  /** The operations that are built: none at all when one of them is not supported. */
  function Built(tx: Tx): seq<Op> {
    if Supported(tx) then tx.ops else []
  }

  datatype Outcome = Finished(s: Books) | Aborted(s: Books)

  /** All operations of a transaction or none. */
  function ApplyTx(s: Books, tx: Tx, c: Config): Outcome {
    match ApplyOps(s.db, tx.account, Built(tx), c)
    case Done(db) => Finished(Books(db, s.status[tx := Confirmed]))
    case Failed => Finished(s.(status := s.status[tx := Rejected(OpFailed)]))
    case Crashed => Aborted(s)
  }

  function ApplyTxs(s: Books, txs: seq<Tx>, c: Config): Outcome
    decreases |txs|
  {
    if txs == [] then Finished(s)
    else
      var o := ApplyTx(s, txs[0], c);
      if o.Finished? then ApplyTxs(o.s, txs[1..], c) else o
  }

  /******* Fees *******/

  /** None when the fee can be charged. */
  function FeeRefused(acc: Account, tx: Tx): Option<Reason> {
    if acc.seqNum > tx.seqNum then Some(InvalidSeqNum)
    else if acc.balance < tx.fee then Some(InsufficientForFee)
    else None
  }

  function Charged(acc: Account, tx: Tx): Account {
    acc.(balance := ToInt64(acc.balance - tx.fee), seqNum := tx.seqNum)
  }

  datatype FeePhase = FeePhase(s: Books, rest: seq<Tx>)

  /** The fee of one transaction; the transaction joins the rest if it was charged. */
  function ChargeTx(f: FeePhase, tx: Tx): FeePhase {
    if tx.account !in f.s.db.accounts then f
    else
      var acc := f.s.db.accounts[tx.account];
      var refused := FeeRefused(acc, tx);
      if refused.Some? then f.(s := f.s.(status := f.s.status[tx := Rejected(refused.value)]))
      else FeePhase(f.s.(db := SaveAccount(f.s.db, tx.account, Charged(acc, tx))), f.rest + [tx])
  }

  function ChargeTxs(f: FeePhase, txs: seq<Tx>): FeePhase
    decreases |txs|
  {
    if txs == [] then f else ChargeTxs(ChargeTx(f, txs[0]), txs[1..])
  }

  predicate Ascending(txs: seq<Tx>) {
    forall i, j :: 0 <= i < j < |txs| ==> txs[i].seqNum <= txs[j].seqNum
  }

  predicate StrictlyAscending(txs: seq<Tx>) {
    forall i, j :: 0 <= i < j < |txs| ==> txs[i].seqNum < txs[j].seqNum
  }

  /** No two transactions have the same sequence number. */
  ghost predicate DistinctSeqNums(txs: multiset<Tx>) {
    && (forall x :: x in txs ==> txs[x] == 1)
    && (forall x, y :: x in txs && y in txs && x.seqNum == y.seqNum ==> x == y)
  }

  predicate AllExist(db: Db, txs: seq<Tx>) {
    forall i :: 0 <= i < |txs| ==> txs[i].account in db.accounts
  }

  /**
   What may come of applying a list: fees are charged in some ascending order of the list, and
   the transactions that paid are applied in some ascending order. Transactions with equal
   sequence numbers may come in any order.
   */
  ghost predicate MayYield(s: Books, txs: seq<Tx>, c: Config, order: seq<Tx>, run: seq<Tx>, o: Outcome) {
    && Ascending(order) && multiset(order) == multiset(txs)
    && var f := ChargeTxs(FeePhase(s, []), order);
    && Ascending(run) && multiset(run) == multiset(f.rest)
    && o == ApplyTxs(f.s, run, c)
  }

  /** After the fees no sequence number has gone down, and every account is at or past the
      transactions it paid for. */
  ghost predicate ChargedWell(f: FeePhase, g: FeePhase) {
    && g.s.db.accounts.Keys == f.s.db.accounts.Keys
    && (forall id :: id in f.s.db.accounts ==> f.s.db.accounts[id].seqNum <= g.s.db.accounts[id].seqNum)
    && (forall i :: 0 <= i < |g.rest| ==>
          g.rest[i].account in g.s.db.accounts && g.rest[i].seqNum <= g.s.db.accounts[g.rest[i].account].seqNum)
  }

  /** Nobody was charged into debt. */
  ghost predicate StillSolvent(f: FeePhase, g: FeePhase) {
    forall id :: id in f.s.db.accounts && f.s.db.accounts[id].balance >= 0 ==>
      id in g.s.db.accounts && g.s.db.accounts[id].balance >= 0
  }

  predicate FeesNotNegative(txs: seq<Tx>) {
    forall i :: 0 <= i < |txs| ==> txs[i].fee >= 0
  }

  /** Sequence numbers are kept whatever the fees are; fees that are not negative leave no debt. */
  lemma FeesChargeWell(s: Books, txs: seq<Tx>)
    ensures ChargedWell(FeePhase(s, []), ChargeTxs(FeePhase(s, []), txs))
    ensures FeesNotNegative(txs) ==> StillSolvent(FeePhase(s, []), ChargeTxs(FeePhase(s, []), txs))
  {
    FeesGoOnWell(FeePhase(s, []), FeePhase(s, []), txs);
  }

  lemma {:induction false} FeesGoOnWell(f: FeePhase, g: FeePhase, txs: seq<Tx>)
    requires ChargedWell(f, g)
    ensures ChargedWell(f, ChargeTxs(g, txs))
    ensures StillSolvent(f, g) && FeesNotNegative(txs) ==> StillSolvent(f, ChargeTxs(g, txs))
    decreases |txs|
  {
    if txs != [] {
      var h := ChargeTx(g, txs[0]);
      assert ChargedWell(f, h);
      assert StillSolvent(f, g) && txs[0].fee >= 0 ==> StillSolvent(f, h);
      hide ChargedWell, StillSolvent, ChargeTx;
      FeesGoOnWell(f, h, txs[1..]);
    }
  }

  /******* One outcome *******/

  lemma CountsTwice(txs: seq<Tx>, i: nat, j: nat)
    requires i < j < |txs| && txs[i] == txs[j]
    ensures multiset(txs)[txs[i]] >= 2
  {
    assert txs == txs[..j] + [txs[j]] + txs[j + 1..];
    assert txs[i] in txs[..j];
  }

  lemma DistinctIsStrict(txs: seq<Tx>)
    requires Ascending(txs) && DistinctSeqNums(multiset(txs))
    ensures StrictlyAscending(txs)
  {
    forall i, j | 0 <= i < j < |txs| ensures txs[i].seqNum != txs[j].seqNum {
      assert txs[i] in multiset(txs) && txs[j] in multiset(txs);
      if txs[i] == txs[j] {
        CountsTwice(txs, i, j);
      }
    }
  }

  lemma SameHead(a: seq<Tx>, b: seq<Tx>)
    requires StrictlyAscending(a) && Ascending(b) && multiset(a) == multiset(b) && a != []
    ensures |a| == |b| && a[0] == b[0]
  {
    assert |multiset(b)| == |multiset(a)| == |a|;
    assert a[0] in multiset(b) && b[0] in multiset(a);
    var i :| 0 <= i < |b| && b[i] == a[0];
    var j :| 0 <= j < |a| && a[j] == b[0];
    assert a[0].seqNum == b[0].seqNum;
  }

  lemma WithoutHead(a: seq<Tx>)
    requires a != []
    ensures a == [a[0]] + a[1..] && multiset(a[1..]) == multiset(a) - multiset{a[0]}
    ensures StrictlyAscending(a) ==> StrictlyAscending(a[1..])
    ensures Ascending(a) ==> Ascending(a[1..])
  {
    assert a == [a[0]] + a[1..];
  }

  /** Two ascending arrangements of the same transactions are equal if one is strict. */
  lemma {:induction false} SortedUnique(a: seq<Tx>, b: seq<Tx>)
    requires StrictlyAscending(a) && Ascending(b) && multiset(a) == multiset(b)
    ensures a == b
    decreases |a|
  {
    if a == [] {
      assert |multiset(b)| == 0;
    } else {
      hide *;
      SameHead(a, b);
      WithoutHead(a);
      WithoutHead(b);
      SortedUnique(a[1..], b[1..]);
    }
  }

  lemma {:induction false} RestKeepsOrder(f: FeePhase, txs: seq<Tx>)
    requires StrictlyAscending(f.rest + txs)
    ensures StrictlyAscending(ChargeTxs(f, txs).rest)
    decreases |txs|
  {
    if txs != [] {
      var g := ChargeTx(f, txs[0]);
      var all := f.rest + txs;
      if g.rest == f.rest {
        assert forall i :: 0 <= i < |g.rest + txs[1..]| ==>
            (g.rest + txs[1..])[i] == all[if i < |f.rest| then i else i + 1];
      } else {
        assert g.rest + txs[1..] == all;
      }
      RestKeepsOrder(g, txs[1..]);
    } else {
      assert f.rest + txs == f.rest;
    }
  }

  /**
   Order independence: with distinct sequence numbers the outcome depends neither on the order of
   the list nor on any choice made on the way, and it is the outcome of charging and applying in
   the one ascending order.
   */
  lemma OneOutcome(s: Books, txs: seq<Tx>, other: seq<Tx>, c: Config,
                   order: seq<Tx>, run: seq<Tx>, o: Outcome, order': seq<Tx>, run': seq<Tx>, o': Outcome)
    requires DistinctSeqNums(multiset(txs)) && multiset(txs) == multiset(other)
    requires MayYield(s, txs, c, order, run, o) && MayYield(s, other, c, order', run', o')
    ensures o == o' && order == order'
    ensures run == run' == ChargeTxs(FeePhase(s, []), order).rest
  {
    DistinctIsStrict(order);
    SortedUnique(order, order');
    var f := ChargeTxs(FeePhase(s, []), order);
    assert [] + order == order;
    RestKeepsOrder(FeePhase(s, []), order);
    SortedUnique(f.rest, run);
    SortedUnique(f.rest, run');
  }

  /** With equal sequence numbers it is not so: two accounts create the same third account, and
      which of them succeeds depends on the order. */
  lemma TiesMatter(ledgerSeq: nat) returns (s: Books, c: Config, a: Tx, b: Tx, o: Outcome, o': Outcome)
    ensures c.ledgerSeq == ledgerSeq && a.seqNum == b.seqNum && AllExist(s.db, [a, b]) && Supported(a) && Supported(b)
    ensures MayYield(s, [a, b], c, [a, b], [a, b], o) && MayYield(s, [a, b], c, [b, a], [b, a], o')
    ensures o.Finished? && o'.Finished? && o != o'
  {
    s := Books(Db(map[1 := NewAccount(10, 1, 0), 2 := NewAccount(10, 2, 0)], map[]), map[]);
    c := Config(1, 1, ledgerSeq);
    a, b := Tx(1, 0, 0, [CreateAccount(3, 5)]), Tx(2, 0, 0, [CreateAccount(3, 5)]);
    o, o' := ApplyTxs(s, [a, b], c), ApplyTxs(s, [b, a], c);
    hide ApplyTxs, MayYield;
    EitherOrder(s, c, a, b);
    FirstCreates(s, c, a, b, 1, 2);
    FirstCreates(s, c, b, a, 2, 1);
  }

  lemma FeesAreFree(s: Books, a: Tx, b: Tx)
    requires a.account in s.db.accounts && b.account in s.db.accounts
    requires a.fee == b.fee == 0 && a.seqNum == b.seqNum == 0
    requires forall id :: id in s.db.accounts ==> s.db.accounts[id].seqNum == 0 && s.db.accounts[id].balance >= 0
    ensures ChargeTxs(FeePhase(s, []), [a, b]) == FeePhase(s, [a, b])
  {
    var f := FeePhase(s, []);
    var g := ChargeTx(f, a);
    assert s.db.accounts[a.account := s.db.accounts[a.account]] == s.db.accounts;
    assert g == FeePhase(s, [a]);
    assert s.db.accounts[b.account := s.db.accounts[b.account]] == s.db.accounts;
    assert ChargeTx(g, b) == FeePhase(s, [a, b]);
    assert [a, b][1..] == [b] && [b][1..] == [];
    assert ChargeTxs(f, [a, b]) == ChargeTxs(g, [b]) == ChargeTxs(ChargeTx(g, b), []);
  }

  lemma EitherOrder(s: Books, c: Config, a: Tx, b: Tx)
    requires a.account in s.db.accounts && b.account in s.db.accounts
    requires a.fee == b.fee == 0 && a.seqNum == b.seqNum == 0
    requires forall id :: id in s.db.accounts ==> s.db.accounts[id].seqNum == 0 && s.db.accounts[id].balance >= 0
    ensures MayYield(s, [a, b], c, [a, b], [a, b], ApplyTxs(s, [a, b], c))
    ensures MayYield(s, [a, b], c, [b, a], [b, a], ApplyTxs(s, [b, a], c))
  {
    hide ApplyTxs, ChargeTxs;
    FeesAreFree(s, a, b);
    FeesAreFree(s, b, a);
    assert multiset([a, b]) == multiset([b, a]);
  }

  lemma FirstCreates(s: Books, c: Config, a: Tx, b: Tx, x: Id, y: Id)
    requires x != 3 && y != 3 && x != y && a == Tx(x, 0, 0, [CreateAccount(3, 5)]) && b == Tx(y, 0, 0, [CreateAccount(3, 5)])
    requires x in s.db.accounts && y in s.db.accounts && 3 !in s.db.accounts && s.db.accounts[x].balance >= 5
    requires c.reserve == c.txReserve == 1
    ensures var o := ApplyTxs(s, [a, b], c); o.Finished? && 3 in o.s.db.accounts && o.s.db.accounts[3].signer == x
  {
    var o := ApplyTx(s, a, c);
    assert a.ops[1..] == [] && b.ops[1..] == [];
    assert o.Finished? && 3 in o.s.db.accounts && o.s.db.accounts[3].signer == x;
    var q := ApplyTx(o.s, b, c);
    assert q.Finished? && q.s.db == o.s.db;
    assert [a, b][1..] == [b] && [b][1..] == [];
    assert ApplyTxs(s, [a, b], c) == ApplyTxs(o.s, [b], c) == ApplyTxs(q.s, [], c);
  }

  /******* Statuses *******/

  predicate WasRun(status: Status) {
    status == Confirmed || status == Rejected(OpFailed)
  }

  lemma {:induction false} RunDecides(s: Books, txs: seq<Tx>, c: Config, tx: Tx)
    requires ApplyTxs(s, txs, c).Finished?
    ensures var o := ApplyTxs(s, txs, c);
            if tx in txs then tx in o.s.status && WasRun(o.s.status[tx])
            else (tx in o.s.status <==> tx in s.status) && (tx in s.status ==> o.s.status[tx] == s.status[tx])
    decreases |txs|
  {
    hide ApplyOps;
    if txs != [] {
      var o := ApplyTx(s, txs[0], c);
      RunDecides(o.s, txs[1..], c, tx);
      assert tx in txs <==> tx == txs[0] || tx in txs[1..];
    }
  }

  lemma {:induction false} FeesDecide(f: FeePhase, txs: seq<Tx>, tx: Tx)
    requires AllExist(f.s.db, txs)
    requires tx in f.rest || tx in txs || (tx in f.s.status && !WasRun(f.s.status[tx]))
    ensures var g := ChargeTxs(f, txs); tx in g.rest || (tx in g.s.status && !WasRun(g.s.status[tx]))
    decreases |txs|
  {
    if txs != [] {
      assert tx in txs <==> tx == txs[0] || tx in txs[1..];
      FeesDecide(ChargeTx(f, txs[0]), txs[1..], tx);
    }
  }

  /** Every transaction of the list gets a status, and it is confirmed or rejected for one of its
      operations exactly if its fee was charged. */
  lemma EveryTxDecided(s: Books, txs: seq<Tx>, c: Config, order: seq<Tx>, run: seq<Tx>, o: Outcome, tx: Tx)
    requires MayYield(s, txs, c, order, run, o) && AllExist(s.db, txs) && o.Finished? && tx in txs
    ensures tx in o.s.status && (WasRun(o.s.status[tx]) <==> tx in ChargeTxs(FeePhase(s, []), order).rest)
  {
    hide ChargeTxs, ApplyTxs;
    var f := ChargeTxs(FeePhase(s, []), order);
    forall i | 0 <= i < |order| ensures order[i].account in s.db.accounts {
      assert order[i] in multiset(order) && order[i] in multiset(txs);
    }
    assert tx in multiset(txs) && tx in multiset(order);
    FeesDecide(FeePhase(s, []), order, tx);
    RunDecides(f.s, run, c, tx);
    assert tx in run <==> tx in multiset(run);
    assert tx in f.rest <==> tx in multiset(f.rest);
  }
}
