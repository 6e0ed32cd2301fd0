/**
 What every transaction list keeps: the total of the native asset together with the fees, and the
 count of entries of every account.
 */
module Conservation {
  import opened Common
  import opened Exchange
  import opened Accounts
  import opened Transactions

  /** Equal in 64-bit arithmetic. */
  predicate Congruent(a: int, b: int) {
    (a - b) % TWO64 == 0
  }

  function Abs(x: int): nat {
    if x < 0 then -x else x
  }

  /******* Carries *******/

  /** How many times 2^64 a 64-bit result is off. */
  function Carry(x: int): int {
    (ToInt64(x) - x) / TWO64
  }

  lemma CarryExact(x: int)
    ensures ToInt64(x) == x + 0x1_0000_0000_0000_0000 * Carry(x)
    ensures Carry(x) == 0 <==> Int64(x)
  {}

  function Sum(xs: seq<int>): int {
    if xs == [] then 0 else xs[0] + Sum(xs[1..])
  }

  predicate NoWrap(carries: seq<int>) {
    forall i :: 0 <= i < |carries| ==> carries[i] == 0
  }

  lemma {:induction false} SumAppends(xs: seq<int>, ys: seq<int>)
    ensures Sum(xs + ys) == Sum(xs) + Sum(ys)
    decreases |xs|
  {
    if xs == [] {
      assert xs + ys == ys;
    } else {
      assert (xs + ys)[0] == xs[0] && (xs + ys)[1..] == xs[1..] + ys;
      SumAppends(xs[1..], ys);
    }
  }

  lemma {:induction false} NoWrapSum(xs: seq<int>)
    requires NoWrap(xs)
    ensures Sum(xs) == 0
    decreases |xs|
  {
    if xs != [] {
      NoWrapSum(xs[1..]);
    }
  }

  /** y is x off by the carries. */
  predicate Off(x: int, y: int, carries: seq<int>) {
    y == x + 0x1_0000_0000_0000_0000 * Sum(carries)
  }

  lemma OffMeans(x: int, y: int, carries: seq<int>)
    requires Off(x, y, carries)
    ensures Congruent(y, x) && (NoWrap(carries) ==> y == x)
  {
    if NoWrap(carries) {
      NoWrapSum(carries);
    }
  }

  lemma OffChain(x: int, y: int, z: int, one: seq<int>, two: seq<int>)
    requires Off(x, y, one) && Off(y, z, two)
    ensures Off(x, z, one + two)
  {
    SumAppends(one, two);
  }

  lemma NoWrapAppends(xs: seq<int>, ys: seq<int>)
    ensures NoWrap(xs + ys) <==> NoWrap(xs) && NoWrap(ys)
  {
    if NoWrap(xs + ys) {
      assert forall i :: 0 <= i < |xs| ==> xs[i] == (xs + ys)[i];
      assert forall i :: 0 <= i < |ys| ==> ys[i] == (xs + ys)[|xs| + i];
    }
  }

  /** No balance is further than k from zero. */
  ghost predicate Small(accounts: map<Id, Account>, k: nat) {
    forall id :: id in accounts ==> Abs(accounts[id].balance) <= k
  }

  /******* One operation *******/

  function OpCost(op: Op): nat {
    match op
    case CreateAccount(_, balance) => Abs(balance)
    case Payment(_, _, amount) => Abs(amount)
    case _ => 0
  }

  /** The carries of the balance updates of an operation that is done. */
  function OpCarries(db: Db, src: Id, op: Op): seq<int> {
    match op
    case CreateAccount(_, balance) => if src in db.accounts then [Carry(db.accounts[src].balance - balance)] else []
    case Payment(dst, asset, amount) =>
      if asset.None? || !asset.value.native then []
      else
        var one := CreditNative(db, dst, amount);
        if !one.Done? || src !in one.db.accounts then []
        else [Carry(db.accounts[dst].balance + amount), Carry(0 - amount),
              Carry(one.db.accounts[src].balance + ToInt64(0 - amount))]
    case _ => []
  }

  const HALF: int := 0x4000_0000_0000_0000

  /** A native payment of at most 2^62 either way, or a new account whose balance is not negative. */
  predicate Mild(op: Op, c: Config) {
    match op
    case CreateAccount(_, balance) => balance >= 0 || c.reserve >= 0 || c.txReserve >= 0
    case Payment(_, asset, amount) => asset.Some? && asset.value.native ==> Abs(amount) <= HALF
    case _ => true
  }

  /** b has the total of a but for the carries, and there are none if there was room. */
  ghost predicate Conserves(a: map<Id, Account>, b: map<Id, Account>, cost: nat, carries: seq<int>) {
    && Off(Total(a), Total(b), carries)
    && (forall k: nat :: Small(a, k) && k + cost <= MAX_INT64 ==> NoWrap(carries) && Small(b, k + cost))
  }

  lemma CreateConserves(db: Db, src: Id, dst: Id, balance: Money, c: Config)
    ensures var op := CreateAccount(dst, balance);
            var r := ApplyOp(db, src, op, c);
            r.Done? ==> Conserves(db.accounts, r.db.accounts, Abs(balance), OpCarries(db, src, op))
                        && (Mild(op, c) ==> NoWrap(OpCarries(db, src, op)))
  {
    var r := ApplyCreate(db, src, dst, balance, c);
    if r.Done? {
      var paid := db.accounts[src := r.db.accounts[src]];
      TotalSave(db.accounts, src, r.db.accounts[src]);
      TotalSave(paid, dst, r.db.accounts[dst]);
      CarryExact(db.accounts[src].balance - balance);
    }
  }

  lemma CreditShifts(db: Db, id: Id, amount: Money)
    ensures var r := CreditNative(db, id, amount);
            r.Done? ==>
              && id in db.accounts
              && var was := db.accounts[id]; var now := ToInt64(was.balance + amount);
              && r.db.accounts == db.accounts[id := was.(balance := now)]
              && Total(r.db.accounts) == Total(db.accounts) + now - was.balance
              && now == was.balance + amount + 0x1_0000_0000_0000_0000 * Carry(was.balance + amount)
              && (0 - HALF <= amount <= HALF ==> Carry(was.balance + amount) == 0)
  {
    var r := CreditNative(db, id, amount);
    if r.Done? {
      TotalSave(db.accounts, id, r.db.accounts[id]);
      CarryExact(db.accounts[id].balance + amount);
    }
  }

  /** With room on both sides, what one account gains the other loses. */
  lemma TransferIsExact(a: map<Id, Account>, b: map<Id, Account>, d: map<Id, Account>, src: Id, dst: Id, amount: Money, k: nat)
    requires dst in a && src in b && Small(a, k) && k + Abs(amount) <= MAX_INT64
    requires b == a[dst := a[dst].(balance := ToInt64(a[dst].balance + amount))]
    requires d == b[src := b[src].(balance := ToInt64(b[src].balance + ToInt64(0 - amount)))]
    ensures Int64(a[dst].balance + amount) && Int64(0 - amount) && Int64(b[src].balance - amount)
    ensures Small(d, k + Abs(amount))
  {
    assert Abs(a[dst].balance) <= k;
    assert src != dst ==> b[src] == a[src] && Abs(a[src].balance) <= k;
    assert d[src].balance == b[src].balance - amount;
  }

  /** The two sides of a native payment. */
  ghost predicate Transfers(db: Db, src: Id, dst: Id, amount: Money, one: Db, two: Db) {
    && CreditNative(db, dst, amount) == Done(one)
    && CreditNative(one, src, ToInt64(0 - amount)) == Done(two)
  }

  lemma OffByThree(x: int, y: int, z: int, amount: int, m: int, p: int, q: int, r: int)
    requires y == x + amount + 0x1_0000_0000_0000_0000 * p && m == 0 - amount + 0x1_0000_0000_0000_0000 * q
    requires z == y + m + 0x1_0000_0000_0000_0000 * r
    ensures Off(x, z, [p, q, r])
  {
    SumOfThree(p, q, r);
  }

  lemma TransferOff(db: Db, src: Id, dst: Id, asset: Asset, amount: Money, one: Db, two: Db)
    requires asset.native && Transfers(db, src, dst, amount, one, two)
    ensures var carries := OpCarries(db, src, Payment(dst, Some(asset), amount));
            Off(Total(db.accounts), Total(two.accounts), carries) && (Abs(amount) <= HALF ==> NoWrap(carries))
  {
    hide Off, Sum, Carry, Total;
    var m := ToInt64(0 - amount);
    CreditShifts(db, dst, amount);
    CreditShifts(one, src, m);
    CarryExact(0 - amount);
    var p, q, r := Carry(db.accounts[dst].balance + amount), Carry(0 - amount), Carry(one.accounts[src].balance + m);
    OffByThree(Total(db.accounts), Total(one.accounts), Total(two.accounts), amount, m, p, q, r);
  }

  lemma TransferFits(db: Db, src: Id, dst: Id, asset: Asset, amount: Money, one: Db, two: Db, k: nat)
    requires asset.native && Transfers(db, src, dst, amount, one, two)
    requires Small(db.accounts, k) && k + Abs(amount) <= MAX_INT64
    ensures NoWrap(OpCarries(db, src, Payment(dst, Some(asset), amount))) && Small(two.accounts, k + Abs(amount))
  {
    var m := ToInt64(0 - amount);
    CreditShifts(db, dst, amount);
    CreditShifts(one, src, m);
    TransferIsExact(db.accounts, one.accounts, two.accounts, src, dst, amount, k);
    CarryExact(db.accounts[dst].balance + amount);
    CarryExact(0 - amount);
    CarryExact(one.accounts[src].balance + m);
    hide Small, Total, Carry;
  }

  lemma NativeConserves(db: Db, src: Id, dst: Id, asset: Asset, amount: Money, one: Db, two: Db)
    requires asset.native && Transfers(db, src, dst, amount, one, two)
    ensures var carries := OpCarries(db, src, Payment(dst, Some(asset), amount));
            Conserves(db.accounts, two.accounts, Abs(amount), carries) && (Abs(amount) <= HALF ==> NoWrap(carries))
  {
    hide Transfers, OpCarries, Off, NoWrap, Small, Total;
    TransferOff(db, src, dst, asset, amount, one, two);
    forall k: nat | Small(db.accounts, k) && k + Abs(amount) <= MAX_INT64
      ensures NoWrap(OpCarries(db, src, Payment(dst, Some(asset), amount))) && Small(two.accounts, k + Abs(amount))
    {
      TransferFits(db, src, dst, asset, amount, one, two, k);
    }
  }

  lemma SumOfThree(x: int, y: int, z: int)
    ensures Sum([x, y, z]) == x + y + z
  {
    assert [x, y, z] == [x] + ([y] + [z]);
    SumAppends([x], [y] + [z]);
    SumAppends([y], [z]);
  }

  lemma PaymentConserves(db: Db, src: Id, dst: Id, asset: Option<Asset>, amount: Money, c: Config)
    ensures var op := Payment(dst, asset, amount);
            var r := ApplyOp(db, src, op, c);
            r.Done? ==> Conserves(db.accounts, r.db.accounts, Abs(amount), OpCarries(db, src, op))
                        && (Mild(op, c) ==> NoWrap(OpCarries(db, src, op)))
  {
    if asset.Some? && asset.value.native {
      var one := CreditNative(db, dst, amount);
      var r := ApplyPayment(db, src, dst, asset, amount);
      if r.Done? {
        NativeConserves(db, src, dst, asset.value, amount, one.db, r.db);
      }
    } else {
      ConservesNothing(db.accounts, Abs(amount));
    }
  }

  lemma TrustConserves(db: Db, src: Id, asset: Option<Asset>, limit: Money, c: Config)
    ensures var r := ApplyTrust(db, src, asset, limit, c);
            r.Done? ==> Conserves(db.accounts, r.db.accounts, 0, [])
  {
    var r := ApplyTrust(db, src, asset, limit, c);
    if r.Done? {
      TotalSave(db.accounts, src, r.db.accounts[src]);
      assert r.db.accounts == db.accounts[src := r.db.accounts[src]];
    }
  }

  /** An operation changes the total by its carries alone, and a mild one not at all. */
  lemma OpConserves(db: Db, src: Id, op: Op, c: Config)
    ensures var r := ApplyOp(db, src, op, c);
            r.Done? ==> Conserves(db.accounts, r.db.accounts, OpCost(op), OpCarries(db, src, op))
                        && (Mild(op, c) ==> NoWrap(OpCarries(db, src, op)))
  {
    match op
    case CreateAccount(dst, balance) => CreateConserves(db, src, dst, balance, c);
    case Payment(dst, asset, amount) => PaymentConserves(db, src, dst, asset, amount, c);
    case SetTrust(asset, limit) => TrustConserves(db, src, asset, limit, c);
    case Unsupported => ConservesNothing(db.accounts, 0);
  }

  lemma ConservesChain(a: map<Id, Account>, b: map<Id, Account>, d: map<Id, Account>,
                       x: nat, y: nat, one: seq<int>, two: seq<int>)
    requires Conserves(a, b, x, one) && Conserves(b, d, y, two)
    ensures Conserves(a, d, x + y, one + two)
  {
    OffChain(Total(a), Total(b), Total(d), one, two);
    NoWrapAppends(one, two);
    hide Total, Off, NoWrap;
    forall k: nat | Small(a, k) && k + (x + y) <= MAX_INT64 ensures NoWrap(one + two) && Small(d, k + (x + y)) {
      assert Small(b, k + x);
      assert Small(d, k + x + y);
    }
  }

  lemma ConservesNothing(a: map<Id, Account>, x: nat)
    ensures Conserves(a, a, x, [])
  {}

  /******* A transaction and a list *******/

  function OpsCost(ops: seq<Op>): nat {
    if ops == [] then 0 else OpCost(ops[0]) + OpsCost(ops[1..])
  }

  function OpsCarries(db: Db, src: Id, ops: seq<Op>, c: Config): seq<int>
    decreases |ops|
  {
    if ops == [] then []
    else
      var r := ApplyOp(db, src, ops[0], c);
      if r.Done? then OpCarries(db, src, ops[0]) + OpsCarries(r.db, src, ops[1..], c) else []
  }

  predicate AllMild(ops: seq<Op>, c: Config) {
    forall i :: 0 <= i < |ops| ==> Mild(ops[i], c)
  }

  lemma {:induction false} OpsConserve(db: Db, src: Id, ops: seq<Op>, c: Config)
    ensures var r := ApplyOps(db, src, ops, c);
            r.Done? ==> Conserves(db.accounts, r.db.accounts, OpsCost(ops), OpsCarries(db, src, ops, c))
                        && (AllMild(ops, c) ==> NoWrap(OpsCarries(db, src, ops, c)))
    decreases |ops|
  {
    hide Conserves, ApplyOp, NoWrap, OpCarries, Mild;
    if ops == [] {
      ConservesNothing(db.accounts, 0);
      NothingWraps();
    } else {
      OpConserves(db, src, ops[0], c);
      var r := ApplyOp(db, src, ops[0], c);
      if r.Done? {
        OpsConserve(r.db, src, ops[1..], c);
        var q := ApplyOps(r.db, src, ops[1..], c);
        var one, two := OpCarries(db, src, ops[0]), OpsCarries(r.db, src, ops[1..], c);
        NoWrapAppends(one, two);
        if q.Done? {
          ConservesChain(db.accounts, r.db.accounts, q.db.accounts, OpCost(ops[0]), OpsCost(ops[1..]), one, two);
        }
      }
    }
  }

  lemma NothingWraps()
    ensures NoWrap([])
  {}

  /** The carries of a transaction: none unless it is committed. */
  function TxCarries(s: Books, tx: Tx, c: Config): seq<int> {
    if ApplyOps(s.db, tx.account, Built(tx), c).Done? then OpsCarries(s.db, tx.account, Built(tx), c) else []
  }

  lemma TxConserves(s: Books, tx: Tx, c: Config)
    ensures Conserves(s.db.accounts, ApplyTx(s, tx, c).s.db.accounts, OpsCost(tx.ops), TxCarries(s, tx, c))
    ensures AllMild(tx.ops, c) ==> NoWrap(TxCarries(s, tx, c))
  {
    hide ApplyOps, OpsCarries, Conserves;
    OpsConserve(s.db, tx.account, Built(tx), c);
    ConservesNothing(s.db.accounts, OpsCost(tx.ops));
    if !Supported(tx) {
      NoneCarries(s.db, tx.account, c);
    }
  }

  lemma NoneCarries(db: Db, src: Id, c: Config)
    ensures ApplyOps(db, src, [], c) == Done(db) && OpsCarries(db, src, [], c) == []
  {}

  function RunCost(txs: seq<Tx>): nat {
    if txs == [] then 0 else OpsCost(txs[0].ops) + RunCost(txs[1..])
  }

  function RunCarries(s: Books, txs: seq<Tx>, c: Config): seq<int>
    decreases |txs|
  {
    if txs == [] then []
    else
      var o := ApplyTx(s, txs[0], c);
      TxCarries(s, txs[0], c) + if o.Finished? then RunCarries(o.s, txs[1..], c) else []
  }

  predicate MildTx(tx: Tx, c: Config) {
    tx.fee >= 0 && AllMild(tx.ops, c)
  }

  predicate MildTxs(txs: seq<Tx>, c: Config) {
    forall i :: 0 <= i < |txs| ==> MildTx(txs[i], c)
  }

  lemma {:induction false} TxsConserve(s: Books, txs: seq<Tx>, c: Config)
    ensures Conserves(s.db.accounts, ApplyTxs(s, txs, c).s.db.accounts, RunCost(txs), RunCarries(s, txs, c))
    ensures MildTxs(txs, c) ==> NoWrap(RunCarries(s, txs, c))
    decreases |txs|
  {
    hide Conserves, ApplyTx, TxCarries, NoWrap, AllMild;
    if txs == [] {
      ConservesNothing(s.db.accounts, 0);
      NothingWraps();
    } else {
      TxConserves(s, txs[0], c);
      var o := ApplyTx(s, txs[0], c);
      var one := TxCarries(s, txs[0], c);
      if o.Finished? {
        TxsConserve(o.s, txs[1..], c);
        NoWrapAppends(one, RunCarries(o.s, txs[1..], c));
        ConservesChain(s.db.accounts, o.s.db.accounts, ApplyTxs(o.s, txs[1..], c).s.db.accounts,
                       OpsCost(txs[0].ops), RunCost(txs[1..]), one, RunCarries(o.s, txs[1..], c));
      } else {
        ConservesNothing(o.s.db.accounts, RunCost(txs[1..]));
        NoWrapAppends(one, []);
        NothingWraps();
        ConservesChain(s.db.accounts, o.s.db.accounts, o.s.db.accounts,
                       OpsCost(txs[0].ops), RunCost(txs[1..]), one, []);
      }
    }
  }

  /******* Fees *******/

  function FeeSum(txs: seq<Tx>): int {
    if txs == [] then 0 else FeeSum(txs[..|txs|-1]) + txs[|txs|-1].fee
  }

  function FeeCost(txs: seq<Tx>): nat {
    if txs == [] then 0 else Abs(txs[0].fee) + FeeCost(txs[1..])
  }

  /** The carry of charging a fee, if it is charged. */
  function FeeCarry(f: FeePhase, tx: Tx): seq<int> {
    if tx.account !in f.s.db.accounts || FeeRefused(f.s.db.accounts[tx.account], tx).Some? then []
    else [Carry(f.s.db.accounts[tx.account].balance - tx.fee)]
  }

  function FeeCarries(f: FeePhase, txs: seq<Tx>): seq<int>
    decreases |txs|
  {
    if txs == [] then [] else FeeCarry(f, txs[0]) + FeeCarries(ChargeTx(f, txs[0]), txs[1..])
  }

  /** The total with the fees of what paid. */
  ghost function Worth(f: FeePhase): int {
    Total(f.s.db.accounts) + FeeSum(f.rest)
  }

  /** The total and the fees of what paid are together the same but for the carries. */
  ghost predicate FeesConserve(f: FeePhase, g: FeePhase, cost: nat, carries: seq<int>) {
    && Off(Worth(f), Worth(g), carries)
    && (forall k: nat :: Small(f.s.db.accounts, k) && k + cost <= MAX_INT64 ==>
          NoWrap(carries) && Small(g.s.db.accounts, k + cost))
  }

  lemma ChargeConserves(f: FeePhase, tx: Tx)
    ensures FeesConserve(f, ChargeTx(f, tx), Abs(tx.fee), FeeCarry(f, tx))
    ensures tx.fee >= 0 ==> NoWrap(FeeCarry(f, tx))
  {
    var g := ChargeTx(f, tx);
    if FeeCarry(f, tx) != [] {
      TotalSave(f.s.db.accounts, tx.account, g.s.db.accounts[tx.account]);
      CarryExact(f.s.db.accounts[tx.account].balance - tx.fee);
      assert g.rest[..|g.rest|-1] == f.rest;
    }
  }

  lemma FeesChain(f: FeePhase, g: FeePhase, h: FeePhase, x: nat, y: nat, one: seq<int>, two: seq<int>)
    requires FeesConserve(f, g, x, one) && FeesConserve(g, h, y, two)
    ensures FeesConserve(f, h, x + y, one + two)
  {
    OffChain(Worth(f), Worth(g), Worth(h), one, two);
    NoWrapAppends(one, two);
    hide Worth, Off, NoWrap;
    forall k: nat | Small(f.s.db.accounts, k) && k + (x + y) <= MAX_INT64
      ensures NoWrap(one + two) && Small(h.s.db.accounts, k + (x + y))
    {
      assert Small(g.s.db.accounts, k + x);
      assert Small(h.s.db.accounts, k + x + y);
    }
  }

  lemma NoFees(f: FeePhase)
    ensures FeesConserve(f, f, 0, []) && NoWrap([])
  {}

  /** The fee phase changes the total and the fees together by its carries alone; fees that are not
      negative have none. */
  lemma {:induction false} AllFeesConserve(f: FeePhase, txs: seq<Tx>)
    ensures FeesConserve(f, ChargeTxs(f, txs), FeeCost(txs), FeeCarries(f, txs))
    ensures (forall i :: 0 <= i < |txs| ==> txs[i].fee >= 0) ==> NoWrap(FeeCarries(f, txs))
    decreases |txs|
  {
    hide FeesConserve, ChargeTx, FeeCarry, NoWrap;
    if txs == [] {
      NoFees(f);
    } else {
      var g := ChargeTx(f, txs[0]);
      ChargeConserves(f, txs[0]);
      AllFeesConserve(g, txs[1..]);
      NoWrapAppends(FeeCarry(f, txs[0]), FeeCarries(g, txs[1..]));
      FeesChain(f, g, ChargeTxs(g, txs[1..]), Abs(txs[0].fee), FeeCost(txs[1..]),
                FeeCarry(f, txs[0]), FeeCarries(g, txs[1..]));
    }
  }

  /******* Costs do not depend on the order *******/

  function Without(txs: seq<Tx>, i: nat): seq<Tx>
    requires i < |txs|
  {
    txs[..i] + txs[i + 1..]
  }

  lemma {:induction false} CostWithout(txs: seq<Tx>, i: nat)
    requires i < |txs|
    ensures RunCost(txs) == OpsCost(txs[i].ops) + RunCost(Without(txs, i))
    ensures FeeCost(txs) == Abs(txs[i].fee) + FeeCost(Without(txs, i))
  {
    if i == 0 {
      assert Without(txs, 0) == txs[1..];
    } else {
      CostWithout(txs[1..], i - 1);
      var less := Without(txs, i);
      assert less[0] == txs[0] && less[1..] == Without(txs[1..], i - 1);
    }
  }

  lemma Removes(txs: seq<Tx>, i: nat)
    requires i < |txs|
    ensures multiset(txs) == multiset(Without(txs, i)) + multiset{txs[i]}
  {
    assert txs == txs[..i] + [txs[i]] + txs[i + 1..];
  }

  lemma Cancels(m: multiset<Tx>, n: multiset<Tx>, x: Tx)
    requires m + multiset{x} <= n + multiset{x}
    ensures m <= n
    ensures m + multiset{x} == n + multiset{x} ==> m == n
  {
    forall y ensures m[y] <= n[y] {
      assert (m + multiset{x})[y] <= (n + multiset{x})[y];
    }
    if m + multiset{x} == n + multiset{x} {
      forall y ensures m[y] == n[y] {
        assert (m + multiset{x})[y] == (n + multiset{x})[y];
      }
    }
  }

  lemma MatchHead(a: seq<Tx>, b: seq<Tx>) returns (i: nat)
    requires a != [] && multiset(a) <= multiset(b)
    ensures i < |b| && b[i] == a[0] && multiset(Without(a, 0)) <= multiset(Without(b, i))
    ensures multiset(a) == multiset(b) ==> multiset(Without(a, 0)) == multiset(Without(b, i))
  {
    hide *;
    assert a[0] in multiset(a) && a[0] in multiset(b);
    i :| 0 <= i < |b| && b[i] == a[0];
    Removes(a, 0);
    Removes(b, i);
    Cancels(multiset(Without(a, 0)), multiset(Without(b, i)), a[0]);
  }

  lemma {:induction false} CostPermutes(a: seq<Tx>, b: seq<Tx>)
    requires multiset(a) <= multiset(b)
    ensures RunCost(a) <= RunCost(b) && FeeCost(a) <= FeeCost(b)
    ensures multiset(a) == multiset(b) ==> RunCost(a) == RunCost(b) && FeeCost(a) == FeeCost(b)
    decreases |a|
  {
    if a == [] {
      assert multiset(a) == multiset(b) ==> |multiset(b)| == 0;
    } else {
      assert |Without(a, 0)| < |a|;
      hide *;
      var i := MatchHead(a, b);
      CostWithout(a, 0);
      CostWithout(b, i);
      CostPermutes(Without(a, 0), Without(b, i));
    }
  }

  lemma {:induction false} FeeSumWithout(txs: seq<Tx>, i: nat)
    requires i < |txs|
    ensures FeeSum(txs) == FeeSum(Without(txs, i)) + txs[i].fee
  {
    var n := |txs| - 1;
    if i == n {
      assert Without(txs, i) == txs[..n];
    } else {
      FeeSumWithout(txs[..n], i);
      var rest := Without(txs, i);
      assert rest[..|rest| - 1] == Without(txs[..n], i) && rest[|rest| - 1] == txs[n];
    }
  }

  lemma {:induction false} FeeSumPermutes(a: seq<Tx>, b: seq<Tx>)
    requires multiset(a) == multiset(b)
    ensures FeeSum(a) == FeeSum(b)
    decreases |a|
  {
    if a == [] {
      assert |multiset(b)| == 0;
    } else {
      var i := MatchHead(a, b);
      FeeSumWithout(a, 0);
      FeeSumWithout(b, i);
      FeeSumPermutes(Without(a, 0), Without(b, i));
    }
  }

  lemma {:induction false} RestIsPart(f: FeePhase, txs: seq<Tx>)
    ensures multiset(ChargeTxs(f, txs).rest) <= multiset(f.rest) + multiset(txs)
    decreases |txs|
  {
    if txs != [] {
      assert txs == [txs[0]] + txs[1..];
      RestIsPart(ChargeTx(f, txs[0]), txs[1..]);
    }
  }

  /** The carries of all balance updates of a list. */
  function Carries(s: Books, order: seq<Tx>, run: seq<Tx>, c: Config): seq<int> {
    var f := FeePhase(s, []);
    FeeCarries(f, order) + RunCarries(ChargeTxs(f, order).s, run, c)
  }

  /**
   Whatever the list, the order and the failures: the total of all native balances together with
   the fees charged changes by the carries of the updates alone. So it stays the same in 64-bit
   arithmetic, and exactly the same if no update wraps.
   */
  lemma ListConserves(s: Books, txs: seq<Tx>, c: Config, order: seq<Tx>, run: seq<Tx>, o: Outcome)
    requires MayYield(s, txs, c, order, run, o)
    ensures var end := Total(o.s.db.accounts) + FeeSum(ChargeTxs(FeePhase(s, []), order).rest);
            && Off(Total(s.db.accounts), end, Carries(s, order, run, c))
            && Congruent(end, Total(s.db.accounts))
            && (NoWrap(Carries(s, order, run, c)) ==> end == Total(s.db.accounts))
  {
    hide ChargeTxs, ApplyTxs, Total, FeeSum, FeesConserve, Conserves, Congruent, RunCarries, FeeCarries, NoWrap, Ascending, Off;
    var f := FeePhase(s, []);
    var g := ChargeTxs(f, order);
    AllFeesConserve(f, order);
    TxsConserve(g.s, run, c);
    Together(f, g, o.s.db.accounts, FeeCost(order), RunCost(run), FeeCarries(f, order), RunCarries(g.s, run, c));
    OffMeans(Total(s.db.accounts), Total(o.s.db.accounts) + FeeSum(g.rest), Carries(s, order, run, c));
  }

  lemma Together(f: FeePhase, g: FeePhase, end: map<Id, Account>, fee: nat, cost: nat, one: seq<int>, two: seq<int>)
    requires f.rest == [] && FeesConserve(f, g, fee, one) && Conserves(g.s.db.accounts, end, cost, two)
    ensures Off(Total(f.s.db.accounts), Total(end) + FeeSum(g.rest), one + two)
    ensures forall k: nat :: Small(f.s.db.accounts, k) && k + fee + cost <= MAX_INT64 ==> NoWrap(one + two)
  {
    assert Off(Worth(g), Total(end) + FeeSum(g.rest), two);
    OffChain(Worth(f), Worth(g), Total(end) + FeeSum(g.rest), one, two);
    NoWrapAppends(one, two);
    hide Total, Small, NoWrap, Off;
    forall k: nat | Small(f.s.db.accounts, k) && k + fee + cost <= MAX_INT64 ensures NoWrap(one + two) {
      assert Small(g.s.db.accounts, k + fee);
    }
  }

  /** Fees and new balances that are not negative and native payments of at most 2^62 never wrap,
      whatever the balances are. */
  lemma MildListIsExact(s: Books, txs: seq<Tx>, c: Config, order: seq<Tx>, run: seq<Tx>, o: Outcome)
    requires MayYield(s, txs, c, order, run, o) && MildTxs(txs, c)
    ensures NoWrap(Carries(s, order, run, c))
    ensures Total(o.s.db.accounts) + FeeSum(ChargeTxs(FeePhase(s, []), order).rest) == Total(s.db.accounts)
  {
    hide ChargeTxs, ApplyTxs, Total, FeeSum, FeesConserve, Conserves, RunCarries, FeeCarries, NoWrap, Ascending, AllMild;
    var f := FeePhase(s, []);
    RestIsPart(f, order);
    assert MildTxs(order, c) && MildTxs(run, c) by {
      forall i | 0 <= i < |order| ensures MildTx(order[i], c) {
        assert order[i] in multiset(order) && order[i] in multiset(txs);
      }
      forall i | 0 <= i < |run| ensures MildTx(run[i], c) {
        assert run[i] in multiset(run) && run[i] in multiset(order) && run[i] in multiset(txs);
      }
    }
    AllFeesConserve(f, order);
    TxsConserve(ChargeTxs(f, order).s, run, c);
    NoWrapAppends(FeeCarries(f, order), RunCarries(ChargeTxs(f, order).s, run, c));
    ListConserves(s, txs, c, order, run, o);
  }

  /** Nor does anything wrap if the largest balance, all fees and all amounts of the list together
      are at most the largest 64-bit number. */
  lemma RoomyListIsExact(s: Books, txs: seq<Tx>, c: Config, order: seq<Tx>, run: seq<Tx>, o: Outcome, k: nat)
    requires MayYield(s, txs, c, order, run, o)
    requires Small(s.db.accounts, k) && k + FeeCost(txs) + RunCost(txs) <= MAX_INT64
    ensures NoWrap(Carries(s, order, run, c))
    ensures Total(o.s.db.accounts) + FeeSum(ChargeTxs(FeePhase(s, []), order).rest) == Total(s.db.accounts)
  {
    hide ChargeTxs, ApplyTxs, Total, FeeSum, FeesConserve, Conserves, RunCarries, FeeCarries, NoWrap, Ascending, Small, RunCost, FeeCost;
    var f := FeePhase(s, []);
    var g := ChargeTxs(f, order);
    AllFeesConserve(f, order);
    TxsConserve(g.s, run, c);
    RestIsPart(f, order);
    CostPermutes(run, order);
    CostPermutes(order, txs);
    Together(f, g, o.s.db.accounts, FeeCost(order), RunCost(run), FeeCarries(f, order), RunCarries(g.s, run, c));
    ListConserves(s, txs, c, order, run, o);
  }

  /******* Entries *******/

  /** The trusts an account holds in assets of others. */
  function Holdings(db: Db, id: Id): set<TrustKey> {
    set k | k in db.trusts && k.holder == id && k.asset.issuer != id
  }

  /** The entry count of every account is the low 32 bits of the number of trusts it holds; nobody
      else holds any. */
  ghost predicate Counted(db: Db) {
    && (forall k :: k in db.trusts ==> k.holder in db.accounts)
    && (forall id :: id in db.accounts ==> db.accounts[id].entries == ToInt32(|Holdings(db, id)|))
  }

  /** The 32-bit count is the number of trusts exactly as long as there are fewer than 2^31. */
  lemma EntriesExactly(db: Db, id: Id)
    requires Counted(db) && id in db.accounts
    ensures db.accounts[id].entries == |Holdings(db, id)| <==> |Holdings(db, id)| <= 0x7FFF_FFFF
  {}

  /** Accounts with the same counts and the same trusts. */
  lemma CountedStays(db: Db, e: Db)
    requires Counted(db) && e.trusts.Keys == db.trusts.Keys && db.accounts.Keys <= e.accounts.Keys
    requires forall id :: id in e.accounts ==>
               e.accounts[id].entries == if id in db.accounts then db.accounts[id].entries else 0
    ensures Counted(e)
  {
    assert forall k :: k in e.trusts <==> k in db.trusts;
    forall id | id in e.accounts ensures e.accounts[id].entries == ToInt32(|Holdings(e, id)|) {
      assert Holdings(e, id) == Holdings(db, id);
      if id !in db.accounts {
        assert Holdings(e, id) == {};
      }
    }
  }

  lemma CreditCounted(db: Db, id: Id, asset: Asset, amount: Money)
    requires Counted(db)
    ensures var r := Credit(db, id, asset, amount); r.Done? ==> Counted(r.db)
  {
    var r := Credit(db, id, asset, amount);
    if r.Done? {
      if asset.native || TrustKey(id, asset) in db.trusts {
        assert r.db.trusts.Keys == db.trusts.Keys;
        CountedStays(db, r.db);
      } else {
        forall i | i in r.db.accounts ensures r.db.accounts[i].entries == ToInt32(|Holdings(r.db, i)|) {
          assert Holdings(r.db, i) == Holdings(db, i);
        }
      }
    }
  }

  /** What a trust operation does to counts and trusts. */
  lemma TrustChanges(db: Db, src: Id, asset: Asset, limit: Money, c: Config)
    requires ApplyTrust(db, src, Some(asset), limit, c).Done?
    ensures var e, key := ApplyTrust(db, src, Some(asset), limit, c).db, TrustKey(src, asset);
            && src in db.accounts && src != asset.issuer && e.accounts.Keys == db.accounts.Keys
            && (forall k :: k != key ==> (k in e.trusts <==> k in db.trusts))
            && (forall id :: id in e.accounts && id != src ==> e.accounts[id].entries == db.accounts[id].entries)
            && e.accounts[src].entries
               == if (key in db.trusts) == (key in e.trusts) then db.accounts[src].entries
                  else ToInt32(db.accounts[src].entries + if key in db.trusts then -1 else 1)
  {
    EntryCounts(db.accounts[src], 1, c.reserve);
    EntryCounts(db.accounts[src], -1, c.reserve);
    hide UpdateEntryCount, ToInt32;
  }

  lemma TrustCounted(db: Db, src: Id, asset: Option<Asset>, limit: Money, c: Config)
    requires Counted(db)
    ensures var r := ApplyTrust(db, src, asset, limit, c); r.Done? ==> Counted(r.db)
  {
    hide Counted, ToInt32;
    var r := ApplyTrust(db, src, asset, limit, c);
    if r.Done? {
      var key := TrustKey(src, asset.value);
      TrustChanges(db, src, asset.value, limit, c);
      hide ApplyTrust;
      if (key in db.trusts) == (key in r.db.trusts) {
        assert r.db.trusts.Keys == db.trusts.Keys;
        CountedStays(db, r.db);
      } else {
        HoldingsChange(db, r.db, key);
      }
    }
  }

  lemma EntryCounts(acc: Account, count: Entries, reserve: Money)
    ensures var u := UpdateEntryCount(acc, count, reserve); u.Some? ==> u.value.entries == ToInt32(acc.entries + count)
  {}

  /** Adding or removing one trust of an account that counts it. */
  lemma HoldingsChange(db: Db, e: Db, key: TrustKey)
    requires Counted(db) && e.accounts.Keys == db.accounts.Keys && key.asset.issuer != key.holder
    requires key.holder in db.accounts && (key in db.trusts) != (key in e.trusts)
    requires forall k :: k != key ==> (k in e.trusts <==> k in db.trusts)
    requires forall id :: id in e.accounts && id != key.holder ==> e.accounts[id].entries == db.accounts[id].entries
    requires e.accounts[key.holder].entries
             == ToInt32(db.accounts[key.holder].entries + if key in db.trusts then -1 else 1)
    ensures Counted(e)
  {
    hide Holdings, ToInt32;
    forall id | id in e.accounts ensures e.accounts[id].entries == ToInt32(|Holdings(e, id)|) {
      if id != key.holder {
        HoldingsOfOthers(db, e, key, id);
      } else {
        HoldingsOfOne(db, e, key);
        AddsInto32(|Holdings(db, id)|, if key in db.trusts then -1 else 1);
      }
    }
  }

  lemma AddsInto32(n: int, d: int)
    ensures ToInt32(ToInt32(n) + d) == ToInt32(n + d)
  {}

  lemma HoldingsOfOthers(db: Db, e: Db, key: TrustKey, id: Id)
    requires forall k :: k != key ==> (k in e.trusts <==> k in db.trusts)
    requires id != key.holder
    ensures Holdings(e, id) == Holdings(db, id)
  {}

  lemma HoldingsGrow(db: Db, e: Db, key: TrustKey)
    requires e.trusts.Keys == db.trusts.Keys + {key} && key !in db.trusts.Keys && key.asset.issuer != key.holder
    ensures |Holdings(e, key.holder)| == |Holdings(db, key.holder)| + 1
  {
    var one, two := Holdings(db, key.holder), Holdings(e, key.holder);
    forall k ensures k in two <==> k in one || k == key {
      assert k in e.trusts.Keys <==> k in db.trusts.Keys || k == key;
    }
    assert two == one + {key} && key !in one;
  }

  lemma HoldingsOfOne(db: Db, e: Db, key: TrustKey)
    requires forall k :: k != key ==> (k in e.trusts <==> k in db.trusts)
    requires key.asset.issuer != key.holder && (key in db.trusts) != (key in e.trusts)
    ensures |Holdings(e, key.holder)| == |Holdings(db, key.holder)| + if key in db.trusts then -1 else 1
  {
    hide Holdings;
    if key in db.trusts {
      assert db.trusts.Keys == e.trusts.Keys + {key};
      HoldingsGrow(e, db, key);
    } else {
      assert e.trusts.Keys == db.trusts.Keys + {key};
      HoldingsGrow(db, e, key);
    }
  }

  lemma OpCounted(db: Db, src: Id, op: Op, c: Config)
    requires Counted(db)
    ensures var r := ApplyOp(db, src, op, c); r.Done? ==> Counted(r.db)
  {
    hide Counted, Credit;
    match op
    case CreateAccount(dst, balance) =>
      var r := ApplyCreate(db, src, dst, balance, c);
      if r.Done? {
        CountedStays(db, r.db);
      }
    case Payment(dst, asset, amount) =>
      if asset.Some? {
        CreditCounted(db, dst, asset.value, amount);
        var one := Credit(db, dst, asset.value, amount);
        if one.Done? {
          CreditCounted(one.db, src, asset.value, ToInt64(0 - amount));
        }
      }
    case SetTrust(asset, limit) => TrustCounted(db, src, asset, limit, c);
    case Unsupported =>
  }

  lemma {:induction false} OpsCounted(db: Db, src: Id, ops: seq<Op>, c: Config)
    requires Counted(db)
    ensures var r := ApplyOps(db, src, ops, c); r.Done? ==> Counted(r.db)
    decreases |ops|
  {
    hide Counted, ApplyOp;
    if ops != [] {
      OpCounted(db, src, ops[0], c);
      var r := ApplyOp(db, src, ops[0], c);
      if r.Done? {
        OpsCounted(r.db, src, ops[1..], c);
      }
    }
  }

  lemma {:induction false} TxsCounted(s: Books, txs: seq<Tx>, c: Config)
    requires Counted(s.db)
    ensures Counted(ApplyTxs(s, txs, c).s.db)
    decreases |txs|
  {
    hide Counted, ApplyOps;
    if txs != [] {
      OpsCounted(s.db, txs[0].account, Built(txs[0]), c);
      var o := ApplyTx(s, txs[0], c);
      if o.Finished? {
        TxsCounted(o.s, txs[1..], c);
      }
    }
  }

  lemma {:induction false} FeesCounted(f: FeePhase, txs: seq<Tx>)
    requires Counted(f.s.db)
    ensures Counted(ChargeTxs(f, txs).s.db)
    decreases |txs|
  {
    hide Counted;
    if txs != [] {
      CountedStays(f.s.db, ChargeTx(f, txs[0]).s.db);
      FeesCounted(ChargeTx(f, txs[0]), txs[1..]);
    }
  }

  /** Every list keeps the entry counts right, whatever fails. */
  lemma ListCounted(s: Books, txs: seq<Tx>, c: Config, order: seq<Tx>, run: seq<Tx>, o: Outcome)
    requires MayYield(s, txs, c, order, run, o) && Counted(s.db)
    ensures Counted(o.s.db)
  {
    FeesCounted(FeePhase(s, []), order);
    TxsCounted(ChargeTxs(FeePhase(s, []), order).s, run, c);
  }
}
