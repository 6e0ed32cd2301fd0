/**
 Transactions with equal sequence numbers. The sorting leaves their order open; it makes no
 difference where they do not touch the same accounts.
 */
module Ties {
  import opened Common
  import opened Exchange
  import opened Accounts
  import opened Transactions
  import opened TxGroups
  import C = Conservation

  /******* What a transaction touches *******/

  /** The accounts whose balance, entries or trusts an operation looks at or changes. */
  function OpWrites(src: Id, op: Op): set<Id> {
    match op
    case CreateAccount(dst, _) => {src, dst}
    case Payment(dst, _, _) => {src, dst}
    case SetTrust(_, _) => {src}
    case Unsupported => {}
  }

  function Issuers(asset: Option<Asset>): set<Id> {
    if asset.Some? then {asset.value.issuer} else {}
  }

  /** The accounts that only have to exist. */
  function OpReads(op: Op): set<Id> {
    match op
    case Payment(_, asset, _) => if asset.Some? && asset.value.native then {} else Issuers(asset)
    case SetTrust(asset, _) => Issuers(asset)
    case _ => {}
  }

  function OpsWrites(src: Id, ops: seq<Op>): set<Id> {
    if ops == [] then {src} else OpWrites(src, ops[0]) + OpsWrites(src, ops[1..])
  }

  function OpsReads(ops: seq<Op>): set<Id> {
    if ops == [] then {} else OpReads(ops[0]) + OpsReads(ops[1..])
  }

  function Writes(tx: Tx): set<Id> {
    OpsWrites(tx.account, Built(tx))
  }

  function Reads(tx: Tx): set<Id> {
    OpsReads(Built(tx))
  }

  /** Neither changes what the other one looks at. An issuer may be common to both. */
  predicate Independent(a: Tx, b: Tx) {
    Writes(a) !! Writes(b) + Reads(b) && Writes(b) !! Writes(a) + Reads(a)
  }

  /** Transactions with the same sequence number are independent of each other. */
  ghost predicate TiesIndependent(txs: multiset<Tx>) {
    && (forall x :: x in txs ==> txs[x] == 1)
    && (forall x, y :: x in txs && y in txs && x != y && x.seqNum == y.seqNum ==> Independent(x, y))
  }

  /******* Operations see nothing else *******/

  predicate SameAccount(d: Db, e: Db, id: Id) {
    (id in d.accounts <==> id in e.accounts) && (id in d.accounts ==> d.accounts[id] == e.accounts[id])
  }

  predicate SameTrust(d: Db, e: Db, k: TrustKey) {
    (k in d.trusts <==> k in e.trusts) && (k in d.trusts ==> d.trusts[k] == e.trusts[k])
  }

  ghost predicate Alike(d: Db, e: Db, w: set<Id>, r: set<Id>) {
    && (forall id :: id in w ==> SameAccount(d, e, id))
    && (forall id :: id in r ==> (id in d.accounts <==> id in e.accounts))
    && (forall k: TrustKey :: k.holder in w ==> SameTrust(d, e, k))
  }

  ghost predicate SameOutside(d: Db, e: Db, w: set<Id>) {
    && (forall id :: id !in w ==> SameAccount(d, e, id))
    && (forall k: TrustKey :: k.holder !in w ==> SameTrust(d, e, k))
  }

  /** From databases that are alike where it looks, an operation does the same, and only there. */
  ghost predicate SameEffect(d: Db, e: Db, p: OpResult, q: OpResult, w: set<Id>, r: set<Id>) {
    && p.Done? == q.Done? && p.Failed? == q.Failed?
    && (p.Done? ==> Alike(p.db, q.db, w, r) && SameOutside(d, p.db, w) && SameOutside(e, q.db, w))
  }

  lemma CreditFrame(d: Db, e: Db, id: Id, asset: Asset, amount: Money, w: set<Id>, r: set<Id>)
    requires Alike(d, e, w, r) && id in w && (asset.native || asset.issuer in r)
    ensures SameEffect(d, e, Credit(d, id, asset, amount), Credit(e, id, asset, amount), w, r)
  {
    assert SameAccount(d, e, id) && SameTrust(d, e, TrustKey(id, asset));
  }

  lemma CreateFrame(d: Db, e: Db, src: Id, dst: Id, balance: Money, c: Config, w: set<Id>, r: set<Id>)
    requires Alike(d, e, w, r) && src in w && dst in w
    ensures SameEffect(d, e, ApplyCreate(d, src, dst, balance, c), ApplyCreate(e, src, dst, balance, c), w, r)
  {
    assert SameAccount(d, e, src) && SameAccount(d, e, dst);
  }

  lemma TrustFrame(d: Db, e: Db, src: Id, asset: Option<Asset>, limit: Money, c: Config, w: set<Id>, r: set<Id>)
    requires Alike(d, e, w, r) && src in w && Issuers(asset) <= r
    ensures SameEffect(d, e, ApplyTrust(d, src, asset, limit, c), ApplyTrust(e, src, asset, limit, c), w, r)
  {
    assert SameAccount(d, e, src);
    assert asset.Some? ==> asset.value.issuer in r;
    assert asset.Some? ==> SameTrust(d, e, TrustKey(src, asset.value));
  }

  lemma EffectChain(d: Db, e: Db, p: OpResult, q: OpResult, p': OpResult, q': OpResult, w: set<Id>, r: set<Id>)
    requires p.Done? && SameEffect(d, e, p, q, w, r) && SameEffect(p.db, q.db, p', q', w, r)
    ensures SameEffect(d, e, p', q', w, r)
  {}

  lemma PaymentFrame(d: Db, e: Db, src: Id, dst: Id, asset: Option<Asset>, amount: Money, w: set<Id>, r: set<Id>)
    requires Alike(d, e, w, r) && src in w && dst in w
    requires asset.Some? && !asset.value.native ==> asset.value.issuer in r
    ensures SameEffect(d, e, ApplyPayment(d, src, dst, asset, amount), ApplyPayment(e, src, dst, asset, amount), w, r)
  {
    assert SameAccount(d, e, dst);
    if asset.Some? {
      CreditFrame(d, e, dst, asset.value, amount, w, r);
      hide Credit;
      var p, q := Credit(d, dst, asset.value, amount), Credit(e, dst, asset.value, amount);
      if p.Done? {
        var m := ToInt64(0 - amount);
        CreditFrame(p.db, q.db, src, asset.value, m, w, r);
        EffectChain(d, e, p, q, Credit(p.db, src, asset.value, m), Credit(q.db, src, asset.value, m), w, r);
      }
    }
  }

  lemma OpFrame(d: Db, e: Db, src: Id, op: Op, c: Config, w: set<Id>, r: set<Id>)
    requires Alike(d, e, w, r) && OpWrites(src, op) <= w && OpReads(op) <= r
    ensures SameEffect(d, e, ApplyOp(d, src, op, c), ApplyOp(e, src, op, c), w, r)
  {
    hide ApplyCreate, ApplyPayment, ApplyTrust;
    match op
    case CreateAccount(dst, balance) => CreateFrame(d, e, src, dst, balance, c, w, r);
    case Payment(dst, asset, amount) =>
      assert asset.Some? && !asset.value.native ==> asset.value.issuer in OpReads(op);
      PaymentFrame(d, e, src, dst, asset, amount, w, r);
    case SetTrust(asset, limit) => TrustFrame(d, e, src, asset, limit, c, w, r);
    case Unsupported =>
  }

  lemma {:induction false} OpsFrame(d: Db, e: Db, src: Id, ops: seq<Op>, c: Config, w: set<Id>, r: set<Id>)
    requires Alike(d, e, w, r) && OpsWrites(src, ops) <= w && OpsReads(ops) <= r
    ensures SameEffect(d, e, ApplyOps(d, src, ops, c), ApplyOps(e, src, ops, c), w, r)
    decreases |ops|
  {
    if ops != [] {
      hide ApplyOp;
      OpFrame(d, e, src, ops[0], c, w, r);
      var p, q := ApplyOp(d, src, ops[0], c), ApplyOp(e, src, ops[0], c);
      if p.Done? {
        OpsFrame(p.db, q.db, src, ops[1..], c, w, r);
        EffectChain(d, e, p, q, ApplyOps(p.db, src, ops[1..], c), ApplyOps(q.db, src, ops[1..], c), w, r);
      }
    }
  }

  /******* Independent transactions commute *******/

  /** The database that a transaction leaves: the old one if an operation fails. */
  function DbAfter(d: Db, tx: Tx, c: Config): Db {
    var r := ApplyOps(d, tx.account, Built(tx), c);
    if r.Done? then r.db else d
  }

  /** The status it gets, or none if it ends the process. */
  function Fate(d: Db, tx: Tx, c: Config): Option<Status> {
    match ApplyOps(d, tx.account, Built(tx), c)
    case Done(_) => Some(Confirmed)
    case Failed => Some(Rejected(OpFailed))
    case Crashed => None
  }

  lemma FateAndDb(s: Books, tx: Tx, c: Config)
    ensures var fate := Fate(s.db, tx, c);
            ApplyTx(s, tx, c) == if fate.None? then Aborted(s)
                                 else Finished(Books(DbAfter(s.db, tx, c), s.status[tx := fate.value]))
  {}

  /** A transaction that is independent of what changed goes as it would have gone before. */
  lemma GoesAsBefore(d: Db, e: Db, tx: Tx, c: Config, changed: set<Id>)
    requires SameOutside(d, e, changed) && changed !! Writes(tx) + Reads(tx)
    ensures Fate(d, tx, c) == Fate(e, tx, c)
    ensures Alike(DbAfter(d, tx, c), DbAfter(e, tx, c), Writes(tx), Reads(tx))
    ensures SameOutside(d, DbAfter(d, tx, c), Writes(tx)) && SameOutside(e, DbAfter(e, tx, c), Writes(tx))
  {
    assert Alike(d, e, Writes(tx), Reads(tx));
    hide ApplyOps;
    OpsFrame(d, e, tx.account, Built(tx), c, Writes(tx), Reads(tx));
  }

  lemma SameDb(d: Db, e: Db)
    requires (forall id :: SameAccount(d, e, id)) && forall k :: SameTrust(d, e, k)
    ensures d == e
  {
    assert forall id :: SameAccount(d, e, id) ==> (id in d.accounts <==> id in e.accounts);
    assert forall k :: SameTrust(d, e, k) ==> (k in d.trusts <==> k in e.trusts);
    assert d.accounts == e.accounts && d.trusts == e.trusts;
  }

  lemma DbsCommute(d: Db, a: Tx, b: Tx, c: Config)
    requires Independent(a, b)
    ensures DbAfter(DbAfter(d, a, c), b, c) == DbAfter(DbAfter(d, b, c), a, c)
  {
    hide DbAfter, ApplyOps, Writes, Reads;
    assert SameOutside(d, d, {});
    GoesAsBefore(d, d, a, c, {});
    GoesAsBefore(d, d, b, c, {});
    var da, db := DbAfter(d, a, c), DbAfter(d, b, c);
    GoesAsBefore(d, da, b, c, Writes(a));
    GoesAsBefore(d, db, a, c, Writes(b));
    var dab, dba := DbAfter(da, b, c), DbAfter(db, a, c);
    forall id ensures SameAccount(dab, dba, id) {
      assert id in Writes(a) || id in Writes(b) || (id !in Writes(a) && id !in Writes(b));
    }
    forall k ensures SameTrust(dab, dba, k) {
      assert k.holder in Writes(a) || k.holder in Writes(b) || (k.holder !in Writes(a) && k.holder !in Writes(b));
    }
    SameDb(dab, dba);
  }

  lemma OwnsItsWrites(tx: Tx)
    ensures tx.account in Writes(tx)
  {
    OwnerWrites(tx.account, Built(tx));
  }

  lemma {:induction false} OwnerWrites(src: Id, ops: seq<Op>)
    ensures src in OpsWrites(src, ops)
    decreases |ops|
  {
    if ops != [] {
      OwnerWrites(src, ops[1..]);
    }
  }

  lemma Swap(s: Books, a: Tx, b: Tx, c: Config)
    requires Independent(a, b) && ApplyTx(s, a, c).Finished? && ApplyTx(ApplyTx(s, a, c).s, b, c).Finished?
    ensures ApplyTx(s, b, c).Finished?
    ensures ApplyTx(ApplyTx(s, b, c).s, a, c) == ApplyTx(ApplyTx(s, a, c).s, b, c)
  {
    OwnsItsWrites(a);
    OwnsItsWrites(b);
    hide ApplyTx, DbAfter, Fate, Writes, Reads;
    assert SameOutside(s.db, s.db, {});
    GoesAsBefore(s.db, s.db, a, c, {});
    GoesAsBefore(s.db, s.db, b, c, {});
    GoesAsBefore(s.db, DbAfter(s.db, a, c), b, c, Writes(a));
    GoesAsBefore(s.db, DbAfter(s.db, b, c), a, c, Writes(b));
    hide Alike, SameOutside;
    DbsCommute(s.db, a, b, c);
    FateAndDb(s, a, c);
    FateAndDb(s, b, c);
    FateAndDb(ApplyTx(s, a, c).s, b, c);
    FateAndDb(ApplyTx(s, b, c).s, a, c);
    var x, y := Fate(s.db, a, c).value, Fate(s.db, b, c).value;
    assert s.status[a := x][b := y] == s.status[b := y][a := x];
  }

  /******* Lists *******/

  lemma {:induction false} MoveToFront(s: Books, txs: seq<Tx>, j: nat, c: Config)
    requires j < |txs| && ApplyTxs(s, txs, c).Finished?
    requires forall i :: 0 <= i < j ==> Independent(txs[i], txs[j])
    ensures ApplyTx(s, txs[j], c).Finished?
    ensures ApplyTxs(ApplyTx(s, txs[j], c).s, C.Without(txs, j), c) == ApplyTxs(s, txs, c)
    decreases j
  {
    hide ApplyTx, Independent;
    var x, y := txs[j], txs[0];
    if j == 0 {
      assert C.Without(txs, 0) == txs[1..];
    } else {
      var tail := txs[1..];
      var o := ApplyTx(s, y, c);
      MoveToFront(o.s, tail, j - 1, c);
      Swap(s, y, x, c);
      var rest := C.Without(tail, j - 1);
      assert C.Without(txs, j) == [y] + rest;
      assert ([y] + rest)[0] == y && ([y] + rest)[1..] == rest;
    }
  }

  lemma WithoutOne(a: seq<Tx>, j: nat)
    requires j < |a|
    ensures multiset(C.Without(a, j)) == multiset(a) - multiset{a[j]}
    ensures Ascending(a) ==> Ascending(C.Without(a, j))
  {
    C.Removes(a, j);
    var rest := C.Without(a, j);
    assert forall i :: 0 <= i < |rest| ==> rest[i] == a[if i < j then i else i + 1];
  }

  /** What comes before the first of another ascending arrangement is tied with it. */
  lemma EarlierIsTied(a: seq<Tx>, b: seq<Tx>, j: nat, i: nat)
    requires Ascending(a) && Ascending(b) && multiset(a) == multiset(b) && b != []
    requires i < j < |a| && a[j] == b[0] && TiesIndependent(multiset(a))
    ensures Independent(a[i], a[j])
  {
    hide Independent;
    assert a[i] in multiset(a) && a[j] in multiset(a) && a[i] in multiset(b);
    var n :| 0 <= n < |b| && b[n] == a[i];
    if a[i] == a[j] {
      CountsTwice(a, i, j);
    }
  }

  lemma PartIsIndependent(part: multiset<Tx>, txs: multiset<Tx>)
    requires part <= txs && TiesIndependent(txs)
    ensures TiesIndependent(part)
  {
    hide Independent;
    assert forall x :: x in part ==> x in txs && part[x] <= txs[x];
  }

  /** The first transaction of one arrangement can be taken first in the other. */
  lemma TakeFirst(s: Books, a: seq<Tx>, b: seq<Tx>, c: Config) returns (rest: seq<Tx>)
    requires Ascending(a) && Ascending(b) && multiset(a) == multiset(b) && TiesIndependent(multiset(a)) && b != []
    requires ApplyTxs(s, a, c).Finished?
    ensures Ascending(rest) && multiset(rest) == multiset(b[1..]) && TiesIndependent(multiset(rest))
    ensures ApplyTx(s, b[0], c).Finished? && ApplyTxs(ApplyTx(s, b[0], c).s, rest, c) == ApplyTxs(s, a, c)
  {
    assert b[0] in multiset(b) && b[0] in multiset(a);
    var j :| 0 <= j < |a| && a[j] == b[0];
    hide *;
    forall i | 0 <= i < j ensures Independent(a[i], a[j]) {
      EarlierIsTied(a, b, j, i);
    }
    MoveToFront(s, a, j, c);
    WithoutOne(a, j);
    WithoutHead(b);
    rest := C.Without(a, j);
    PartIsIndependent(multiset(rest), multiset(a));
  }

  lemma {:induction false} SameRun(s: Books, a: seq<Tx>, b: seq<Tx>, c: Config)
    requires Ascending(a) && Ascending(b) && multiset(a) == multiset(b) && TiesIndependent(multiset(a))
    requires ApplyTxs(s, a, c).Finished?
    ensures ApplyTxs(s, b, c) == ApplyTxs(s, a, c)
    decreases |b|
  {
    hide ApplyTx, TiesIndependent, Ascending;
    if b == [] {
      assert |multiset(a)| == 0;
    } else {
      var rest := TakeFirst(s, a, b, c);
      WithoutHead(b);
      SameRun(ApplyTx(s, b[0], c).s, rest, b[1..], c);
    }
  }

  lemma IndependentPerAccount(txs: multiset<Tx>)
    requires TiesIndependent(txs)
    ensures DistinctPerAccount(txs)
  {
    hide Writes, Reads;
    forall x, y | x in txs && y in txs && x.account == y.account && x.seqNum == y.seqNum ensures x == y {
      OwnsItsWrites(x);
      OwnsItsWrites(y);
    }
  }

  /**
   The outcome of a finished list depends neither on the order of the list nor on any choice between
   equal sequence numbers, if transactions with equal sequence numbers touch different accounts.
   */
  lemma TiesDoNotMatter(s: Books, txs: seq<Tx>, other: seq<Tx>, c: Config,
                        order: seq<Tx>, run: seq<Tx>, o: Outcome, order': seq<Tx>, run': seq<Tx>, o': Outcome)
    requires TiesIndependent(multiset(txs)) && multiset(txs) == multiset(other)
    requires MayYield(s, txs, c, order, run, o) && MayYield(s, other, c, order', run', o')
    ensures o.Finished? <==> o'.Finished?
    ensures o.Finished? ==> o == o'
    ensures multiset(run) == multiset(run')
  {
    hide ChargeTxs, ApplyTxs, Ascending, TiesIndependent, DistinctPerAccount;
    IndependentPerAccount(multiset(order));
    FeesIgnoreOtherTies(s, order, order');
    var f := ChargeTxs(FeePhase(s, []), order);
    C.RestIsPart(FeePhase(s, []), order);
    PartIsIndependent(multiset(run), multiset(order));
    if o.Finished? {
      SameRun(f.s, run, run', c);
    }
    if o'.Finished? {
      SameRun(f.s, run', run, c);
    }
  }
}
