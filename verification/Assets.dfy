/**
 Issued assets: what the holders of an asset have together changes only when its issuer pays or is
 paid, and when a trust that still holds some of it is deleted.
 */
module Assets {
  import opened Common
  import opened Exchange
  import opened Accounts
  import opened Transactions
  import opened Conservation
  import opened TxGroups

  /** What a trust counts for the holders of an asset; its issuer is not one of them. */
  function Share(k: TrustKey, trust: Trust, asset: Asset): int {
    if k.asset == asset && k.holder != asset.issuer then trust.balance else 0
  }

  ghost function Held(trusts: map<TrustKey, Trust>, asset: Asset): int
    decreases |trusts|
  {
    if trusts == map[] then 0
    else
      var k :| k in trusts;
      assert |trusts - {k}| < |trusts| by {
        assert (trusts - {k}).Keys == trusts.Keys - {k};
      }
      Share(k, trusts[k], asset) + Held(trusts - {k}, asset)
  }

  lemma {:induction false} HeldWithout(trusts: map<TrustKey, Trust>, k: TrustKey, asset: Asset)
    requires k in trusts
    ensures Held(trusts, asset) == Share(k, trusts[k], asset) + Held(trusts - {k}, asset)
    decreases |trusts|
  {
    hide Share;
    var first :| first in trusts && Held(trusts, asset) == Share(first, trusts[first], asset) + Held(trusts - {first}, asset);
    if first != k {
      var rest := trusts - {first};
      assert rest.Keys == trusts.Keys - {first};
      HeldWithout(rest, k, asset);
      assert (trusts - {k}).Keys == trusts.Keys - {k};
      HeldWithout(trusts - {k}, first, asset);
      assert rest - {k} == trusts - {k} - {first};
    }
  }

  lemma HeldSave(trusts: map<TrustKey, Trust>, k: TrustKey, trust: Trust, asset: Asset)
    ensures Held(trusts[k := trust], asset)
            == Held(trusts, asset) + Share(k, trust, asset) - (if k in trusts then Share(k, trusts[k], asset) else 0)
  {
    hide Share;
    var saved := trusts[k := trust];
    HeldWithout(saved, k, asset);
    if k in trusts {
      HeldWithout(trusts, k, asset);
      assert saved - {k} == trusts - {k};
    } else {
      assert saved - {k} == trusts;
    }
  }

  /******* Flows *******/

  /** What an operation that is done adds to the holdings of an asset. */
  function Flow(db: Db, src: Id, op: Op, asset: Asset): int {
    match op
    case Payment(dst, a, amount) =>
      if a != Some(asset) || asset.native then 0
      else (if src == asset.issuer then amount else 0) - (if dst == asset.issuer then amount else 0)
    case SetTrust(a, limit) =>
      if a == Some(asset) && limit == 0 && TrustKey(src, asset) in db.trusts then 0 - db.trusts[TrustKey(src, asset)].balance
      else 0
    case _ => 0
  }

  /** The carry of a credit to a holder of the asset. */
  function CreditCarries(db: Db, id: Id, a: Asset, amount: Money, asset: Asset): seq<int> {
    if a != asset || a.native || id == a.issuer || TrustKey(id, a) !in db.trusts then []
    else [Carry(db.trusts[TrustKey(id, a)].balance + amount)]
  }

  /** The carries of the updates that an operation, when it is done, makes to holders of the asset. */
  function HeldCarries(db: Db, src: Id, op: Op, asset: Asset): seq<int> {
    if !op.Payment? || op.asset != Some(asset) || asset.native then []
    else
      var one := Credit(db, op.to, asset, op.amount);
      if !one.Done? then []
      else CreditCarries(db, op.to, asset, op.amount, asset)
           + (if src == asset.issuer then [] else [Carry(0 - op.amount)])
           + CreditCarries(one.db, src, asset, ToInt64(0 - op.amount), asset)
  }

  lemma CreditHeld(db: Db, id: Id, a: Asset, amount: Money, asset: Asset)
    ensures var r := Credit(db, id, a, amount);
            r.Done? ==>
              Off(Held(db.trusts, asset) + (if a == asset && !a.native && id != a.issuer then amount else 0),
                  Held(r.db.trusts, asset), CreditCarries(db, id, a, amount, asset))
  {
    var r := Credit(db, id, a, amount);
    if r.Done? && !a.native {
      var k := TrustKey(id, a);
      HeldSave(db.trusts, k, r.db.trusts[k], asset);
      if id != a.issuer {
        CarryExact(db.trusts[k].balance + amount);
      }
    }
  }

  lemma PaymentHeld(db: Db, src: Id, dst: Id, a: Option<Asset>, amount: Money, asset: Asset)
    ensures var r, op := ApplyPayment(db, src, dst, a, amount), Payment(dst, a, amount);
            r.Done? ==> Off(Held(db.trusts, asset) + Flow(db, src, op, asset), Held(r.db.trusts, asset), HeldCarries(db, src, op, asset))
  {
    hide Off, Sum;
    var r := ApplyPayment(db, src, dst, a, amount);
    if r.Done? {
      var m := ToInt64(0 - amount);
      var one := Credit(db, dst, a.value, amount);
      CreditHeld(db, dst, a.value, amount, asset);
      CreditHeld(one.db, src, a.value, m, asset);
      CarryExact(0 - amount);
      var p, q := CreditCarries(db, dst, a.value, amount, asset), CreditCarries(one.db, src, a.value, m, asset);
      var ours := a.value == asset && !asset.native;
      hide Credit, Held, CreditCarries, Carry, ToInt64;
      NetFlow(Held(db.trusts, asset), Held(one.db.trusts, asset), Held(r.db.trusts, asset), amount, m, Carry(0 - amount),
              ours && dst != asset.issuer, ours && src != asset.issuer, p, q);
      if !ours {
        NoCarries(db, dst, a.value, amount, asset);
        NoCarries(one.db, src, a.value, m, asset);
        assert p + [] + q == [];
      }
    }
  }

  lemma NoCarries(db: Db, id: Id, a: Asset, amount: Money, asset: Asset)
    requires a != asset || asset.native
    ensures CreditCarries(db, id, a, amount, asset) == []
  {}

  lemma NetFlow(x: int, y: int, z: int, amount: int, back: int, carry: int, one: bool, two: bool, p: seq<int>, q: seq<int>)
    requires back == 0 - amount + 0x1_0000_0000_0000_0000 * carry
    requires Off(x + (if one then amount else 0), y, p) && Off(y + (if two then back else 0), z, q)
    ensures Off(x + (if one then amount else 0) - (if two then amount else 0), z, p + (if two then [carry] else []) + q)
  {
    SumAppends(p + (if two then [carry] else []), q);
    SumAppends(p, if two then [carry] else []);
  }

  lemma TrustHeld(db: Db, src: Id, a: Option<Asset>, limit: Money, c: Config, asset: Asset)
    ensures var r := ApplyTrust(db, src, a, limit, c);
            r.Done? ==> Held(r.db.trusts, asset) == Held(db.trusts, asset) + Flow(db, src, SetTrust(a, limit), asset)
  {
    var r := ApplyTrust(db, src, a, limit, c);
    if r.Done? {
      var k := TrustKey(src, a.value);
      if k in db.trusts && limit == 0 {
        HeldWithout(db.trusts, k, asset);
      } else {
        HeldSave(db.trusts, k, r.db.trusts[k], asset);
      }
    }
  }

  lemma OpHeld(db: Db, src: Id, op: Op, c: Config, asset: Asset)
    ensures var r := ApplyOp(db, src, op, c);
            r.Done? ==> Off(Held(db.trusts, asset) + Flow(db, src, op, asset), Held(r.db.trusts, asset), HeldCarries(db, src, op, asset))
  {
    match op
    case CreateAccount(_, _) =>
    case Payment(dst, a, amount) => PaymentHeld(db, src, dst, a, amount, asset);
    case SetTrust(a, limit) => TrustHeld(db, src, a, limit, c, asset);
    case Unsupported =>
  }

  /** The flows and the carries of the operations of a transaction, as far as it goes. */
  function OpsFlow(db: Db, src: Id, ops: seq<Op>, c: Config, asset: Asset): (int, seq<int>)
    decreases |ops|
  {
    if ops == [] then (0, [])
    else
      var r := ApplyOp(db, src, ops[0], c);
      if !r.Done? then (0, [])
      else
        var rest := OpsFlow(r.db, src, ops[1..], c, asset);
        (Flow(db, src, ops[0], asset) + rest.0, HeldCarries(db, src, ops[0], asset) + rest.1)
  }

  lemma FlowChain(x: int, y: int, z: int, f: int, g: int, p: seq<int>, q: seq<int>)
    requires Off(x + f, y, p) && Off(y + g, z, q)
    ensures Off(x + (f + g), z, p + q)
  {
    SumAppends(p, q);
  }

  lemma {:induction false} OpsHeld(db: Db, src: Id, ops: seq<Op>, c: Config, asset: Asset)
    ensures var r, flow := ApplyOps(db, src, ops, c), OpsFlow(db, src, ops, c, asset);
            r.Done? ==> Off(Held(db.trusts, asset) + flow.0, Held(r.db.trusts, asset), flow.1)
    decreases |ops|
  {
    hide ApplyOp, Held, Flow, HeldCarries;
    if ops != [] {
      OpHeld(db, src, ops[0], c, asset);
      var r := ApplyOp(db, src, ops[0], c);
      if r.Done? {
        OpsHeld(r.db, src, ops[1..], c, asset);
        var q := ApplyOps(r.db, src, ops[1..], c);
        if q.Done? {
          var rest := OpsFlow(r.db, src, ops[1..], c, asset);
          FlowChain(Held(db.trusts, asset), Held(r.db.trusts, asset), Held(q.db.trusts, asset),
                    Flow(db, src, ops[0], asset), rest.0, HeldCarries(db, src, ops[0], asset), rest.1);
        }
      }
    }
  }

  /** The flow and the carries of a transaction: none unless it is committed. */
  function TxFlow(s: Books, tx: Tx, c: Config, asset: Asset): (int, seq<int>) {
    if ApplyOps(s.db, tx.account, Built(tx), c).Done? then OpsFlow(s.db, tx.account, Built(tx), c, asset) else (0, [])
  }

  lemma TxHeld(s: Books, tx: Tx, c: Config, asset: Asset)
    ensures var flow := TxFlow(s, tx, c, asset);
            Off(Held(s.db.trusts, asset) + flow.0, Held(ApplyTx(s, tx, c).s.db.trusts, asset), flow.1)
  {
    hide ApplyOps, OpsFlow, Held;
    OpsHeld(s.db, tx.account, Built(tx), c, asset);
  }

  function TxsFlow(s: Books, txs: seq<Tx>, c: Config, asset: Asset): (int, seq<int>)
    decreases |txs|
  {
    if txs == [] then (0, [])
    else
      var o := ApplyTx(s, txs[0], c);
      var first := TxFlow(s, txs[0], c, asset);
      var rest := if o.Finished? then TxsFlow(o.s, txs[1..], c, asset) else (0, []);
      (first.0 + rest.0, first.1 + rest.1)
  }

  lemma {:induction false} TxsHeld(s: Books, txs: seq<Tx>, c: Config, asset: Asset)
    ensures var flow := TxsFlow(s, txs, c, asset);
            Off(Held(s.db.trusts, asset) + flow.0, Held(ApplyTxs(s, txs, c).s.db.trusts, asset), flow.1)
    decreases |txs|
  {
    hide ApplyTx, TxFlow, Held;
    if txs != [] {
      TxHeld(s, txs[0], c, asset);
      var o := ApplyTx(s, txs[0], c);
      var first := TxFlow(s, txs[0], c, asset);
      var end := ApplyTxs(s, txs, c).s;
      var rest := if o.Finished? then TxsFlow(o.s, txs[1..], c, asset) else (0, []);
      if o.Finished? {
        TxsHeld(o.s, txs[1..], c, asset);
      }
      FlowChain(Held(s.db.trusts, asset), Held(o.s.db.trusts, asset), Held(end.db.trusts, asset),
                first.0, rest.0, first.1, rest.1);
    }
  }

  /** Over a whole list, fees included: the holdings of an asset change by the flows of the confirmed
      transactions and the carries of their updates, so exactly by the flows if no update wraps. */
  lemma ListHeld(s: Books, txs: seq<Tx>, c: Config, order: seq<Tx>, run: seq<Tx>, o: Outcome, asset: Asset)
    requires MayYield(s, txs, c, order, run, o)
    ensures var flow := TxsFlow(ChargeTxs(FeePhase(s, []), order).s, run, c, asset);
            var was, now := Held(s.db.trusts, asset), Held(o.s.db.trusts, asset);
            && Off(was + flow.0, now, flow.1) && Congruent(now, was + flow.0)
            && (NoWrap(flow.1) ==> now == was + flow.0)
  {
    hide ChargeTxs, ApplyTxs, TxsFlow, Held, Congruent, Ascending, Off, NoWrap;
    ChargeKeepsKeys(FeePhase(s, []), order);
    var f := ChargeTxs(FeePhase(s, []), order);
    TxsHeld(f.s, run, c, asset);
    var flow := TxsFlow(f.s, run, c, asset);
    OffMeans(Held(s.db.trusts, asset) + flow.0, Held(o.s.db.trusts, asset), flow.1);
  }

  /******* Limits *******/

  ghost predicate WithinLimits(db: Db) {
    forall k :: k in db.trusts ==> db.trusts[k].balance <= db.trusts[k].limit && db.trusts[k].buying == 0
  }

  /** A new trust is within its limit exactly if the limit is not negative; changing a limit or
      deleting a trust never leaves one beyond it. */
  lemma TrustWithinExactly(db: Db, src: Id, a: Option<Asset>, limit: Money, c: Config)
    requires WithinLimits(db)
    ensures var r := ApplyTrust(db, src, a, limit, c);
            r.Done? ==> (WithinLimits(r.db) <==> limit >= 0 || TrustKey(src, a.value) in db.trusts)
  {
    var r := ApplyTrust(db, src, a, limit, c);
    if r.Done? {
      var k := TrustKey(src, a.value);
      if k in r.db.trusts {
        assert r.db.trusts[k].balance == if k in db.trusts then db.trusts[k].balance else 0;
        assert r.db.trusts[k].limit == limit;
        if k in db.trusts {
          assert ToInt64(db.trusts[k].balance + 0) == db.trusts[k].balance;
        }
      }
    }
  }

  /** A withdrawal from a holder that does not fit and comes out above the limit. */
  predicate Breaks(db: Db, id: Id, a: Asset, amount: Money) {
    && !a.native && id != a.issuer && TrustKey(id, a) in db.trusts
    && var trust := db.trusts[TrustKey(id, a)]; var sum := trust.balance + amount;
       amount < 0 && sum < 0 - TWO63 && sum + TWO64 > trust.limit
  }

  lemma UpdateWithinExactly(trust: Trust, amount: Money)
    requires trust.balance <= trust.limit
    ensures var r, sum := UpdateTrustBalance(trust, amount), trust.balance + amount;
            r.Some? ==> (r.value.balance <= trust.limit <==> !(amount < 0 && sum < 0 - TWO63 && sum + TWO64 > trust.limit))
  {
    var sum := trust.balance + amount;
    assert Int64(trust.balance) && Int64(amount);
    assert ToInt64(sum) == if sum > MAX_INT64 then sum - TWO64 else if sum < 0 - TWO63 then sum + TWO64 else sum;
  }

  /** A credit that is done leaves a trust beyond its limit exactly if it breaks it. */
  lemma CreditWithinExactly(db: Db, id: Id, a: Asset, amount: Money)
    requires WithinLimits(db)
    ensures var r := Credit(db, id, a, amount); r.Done? ==> (WithinLimits(r.db) <==> !Breaks(db, id, a, amount))
  {
    var r := Credit(db, id, a, amount);
    if r.Done? && !a.native {
      var k := TrustKey(id, a);
      assert r.db.trusts == db.trusts[k := r.db.trusts[k]];
      if id == a.issuer {
        assert r.db.trusts[k].limit == MAX_INT64;
      } else {
        UpdateWithinExactly(db.trusts[k], amount);
      }
    }
  }

  /** A payment that is done keeps the limits exactly if it is one to oneself, or breaks neither side. */
  lemma PaymentWithinExactly(db: Db, src: Id, dst: Id, a: Option<Asset>, amount: Money)
    requires WithinLimits(db)
    ensures var r := ApplyPayment(db, src, dst, a, amount);
            r.Done? ==>
              (WithinLimits(r.db) <==>
                src == dst || (!Breaks(db, dst, a.value, amount) && !Breaks(db, src, a.value, ToInt64(0 - amount))))
  {
    var r := ApplyPayment(db, src, dst, a, amount);
    if r.Done? {
      var m := ToInt64(0 - amount);
      var one := Credit(db, dst, a.value, amount).db;
      if src == dst {
        ToOneself(db, src, a.value, amount, one, r.db);
      } else {
        CreditWithinExactly(db, dst, a.value, amount);
        BreaksElsewhere(db, dst, src, a.value, amount, one, m);
        if WithinLimits(one) {
          CreditWithinExactly(one, src, a.value, m);
        } else {
          StaysBroken(db, dst, src, a.value, amount, one, m, r.db);
        }
      }
    }
  }

  lemma BreaksElsewhere(db: Db, id: Id, other: Id, a: Asset, amount: Money, one: Db, m: Money)
    requires id != other && Credit(db, id, a, amount) == Done(one)
    ensures Breaks(one, other, a, m) <==> Breaks(db, other, a, m)
  {}

  lemma StaysBroken(db: Db, id: Id, other: Id, a: Asset, amount: Money, one: Db, m: Money, two: Db)
    requires WithinLimits(db) && !WithinLimits(one) && id != other
    requires Credit(db, id, a, amount) == Done(one) && Credit(one, other, a, m) == Done(two)
    ensures !WithinLimits(two)
  {
    var k := TrustKey(id, a);
    assert k in one.trusts && two.trusts[k] == one.trusts[k];
  }

  lemma ToOneself(db: Db, id: Id, a: Asset, amount: Money, one: Db, two: Db)
    requires WithinLimits(db)
    requires Credit(db, id, a, amount) == Done(one) && Credit(one, id, a, ToInt64(0 - amount)) == Done(two)
    ensures WithinLimits(two)
  {
    if !a.native && id != a.issuer {
      var k := TrustKey(id, a);
      var b, m := db.trusts[k].balance, ToInt64(0 - amount);
      BackAgain(b, amount);
      assert two.trusts == db.trusts[k := two.trusts[k]] && two.trusts[k] == db.trusts[k];
    }
  }

  lemma BackAgain(b: Money, amount: Money)
    ensures ToInt64(ToInt64(b + amount) + ToInt64(0 - amount)) == b
  {
    CarryExact(b + amount);
    CarryExact(0 - amount);
    CarryExact(ToInt64(b + amount) + ToInt64(0 - amount));
    hide Carry;
    assert Int64(b);
  }

  /** What an operation must be like to keep the limits, seen from before it. */
  predicate Keeps(db: Db, src: Id, op: Op) {
    match op
    case Payment(dst, a, amount) =>
      a.Some? && src != dst ==> !Breaks(db, dst, a.value, amount) && !Breaks(db, src, a.value, ToInt64(0 - amount))
    case SetTrust(a, limit) => a.Some? ==> limit >= 0 || TrustKey(src, a.value) in db.trusts
    case _ => true
  }

  lemma OpWithinExactly(db: Db, src: Id, op: Op, c: Config)
    requires WithinLimits(db)
    ensures var r := ApplyOp(db, src, op, c); r.Done? ==> (WithinLimits(r.db) <==> Keeps(db, src, op))
  {
    match op
    case CreateAccount(_, _) =>
    case Payment(dst, a, amount) => hide Breaks, WithinLimits; PaymentWithinExactly(db, src, dst, a, amount);
    case SetTrust(a, limit) => TrustWithinExactly(db, src, a, limit, c);
    case Unsupported =>
  }

  /** Every operation that is done leaves all trusts within their limits. */
  ghost predicate OpsStayWithin(db: Db, src: Id, ops: seq<Op>, c: Config)
    decreases |ops|
  {
    ops != [] ==>
      var r := ApplyOp(db, src, ops[0], c);
      r.Done? ==> WithinLimits(r.db) && OpsStayWithin(r.db, src, ops[1..], c)
  }

  predicate OpsKeep(db: Db, src: Id, ops: seq<Op>, c: Config)
    decreases |ops|
  {
    ops != [] ==>
      var r := ApplyOp(db, src, ops[0], c);
      r.Done? ==> Keeps(db, src, ops[0]) && OpsKeep(r.db, src, ops[1..], c)
  }

  lemma {:induction false} OpsWithinExactly(db: Db, src: Id, ops: seq<Op>, c: Config)
    requires WithinLimits(db)
    ensures OpsStayWithin(db, src, ops, c) <==> OpsKeep(db, src, ops, c)
    ensures OpsKeep(db, src, ops, c) && ApplyOps(db, src, ops, c).Done? ==> WithinLimits(ApplyOps(db, src, ops, c).db)
    decreases |ops|
  {
    hide WithinLimits, ApplyOp, Keeps;
    if ops != [] {
      OpWithinExactly(db, src, ops[0], c);
      var r := ApplyOp(db, src, ops[0], c);
      if r.Done? && WithinLimits(r.db) {
        OpsWithinExactly(r.db, src, ops[1..], c);
      }
    }
  }

  /** The same along a list, for all operations that are done, rolled back or not. */
  ghost predicate TxsStayWithin(s: Books, txs: seq<Tx>, c: Config)
    decreases |txs|
  {
    txs != [] ==>
      && OpsStayWithin(s.db, txs[0].account, Built(txs[0]), c)
      && var o := ApplyTx(s, txs[0], c);
         o.Finished? ==> TxsStayWithin(o.s, txs[1..], c)
  }

  predicate TxsKeep(s: Books, txs: seq<Tx>, c: Config)
    decreases |txs|
  {
    txs != [] ==>
      && OpsKeep(s.db, txs[0].account, Built(txs[0]), c)
      && var o := ApplyTx(s, txs[0], c);
         o.Finished? ==> TxsKeep(o.s, txs[1..], c)
  }

  lemma {:induction false} TxsWithinExactly(s: Books, txs: seq<Tx>, c: Config)
    requires WithinLimits(s.db)
    ensures TxsStayWithin(s, txs, c) <==> TxsKeep(s, txs, c)
    ensures TxsKeep(s, txs, c) ==> WithinLimits(ApplyTxs(s, txs, c).s.db)
    decreases |txs|
  {
    hide WithinLimits, ApplyOps, OpsStayWithin, OpsKeep;
    if txs != [] {
      OpsWithinExactly(s.db, txs[0].account, Built(txs[0]), c);
      var o := ApplyTx(s, txs[0], c);
      if OpsKeep(s.db, txs[0].account, Built(txs[0]), c) && o.Finished? {
        TxsWithinExactly(o.s, txs[1..], c);
      }
    }
  }

  /** A list leaves every trust within its limit after every operation exactly if none of them creates
      a trust with a negative limit or breaks one; then so it is at the end. */
  lemma ListWithinExactly(s: Books, txs: seq<Tx>, c: Config, order: seq<Tx>, run: seq<Tx>, o: Outcome)
    requires MayYield(s, txs, c, order, run, o) && WithinLimits(s.db)
    ensures var f := ChargeTxs(FeePhase(s, []), order);
            && (TxsStayWithin(f.s, run, c) <==> TxsKeep(f.s, run, c))
            && (TxsKeep(f.s, run, c) ==> WithinLimits(o.s.db))
  {
    hide ChargeTxs, ApplyTxs, Ascending, TxsStayWithin, TxsKeep;
    ChargeKeepsKeys(FeePhase(s, []), order);
    var f := ChargeTxs(FeePhase(s, []), order);
    assert WithinLimits(f.s.db);
    hide WithinLimits;
    TxsWithinExactly(f.s, run, c);
  }

  /** Payments of at most 2^62 either way, and limits that are not negative. */
  predicate Moderate(op: Op) {
    match op
    case Payment(_, _, amount) => 0 - HALF <= amount <= HALF
    case SetTrust(_, limit) => limit >= 0
    case _ => true
  }

  lemma ModerateKeeps(db: Db, src: Id, op: Op, c: Config)
    requires Moderate(op) && ApplyOp(db, src, op, c).Done?
    ensures Keeps(db, src, op)
  {
    if op.Payment? && src != op.to {
      var one := Credit(db, op.to, op.asset.value, op.amount).db;
      BreaksElsewhere(db, op.to, src, op.asset.value, op.amount, one, ToInt64(0 - op.amount));
      ModerateCredit(db, op.to, op.asset.value, op.amount);
      ModerateCredit(one, src, op.asset.value, ToInt64(0 - op.amount));
    }
  }

  lemma ModerateCredit(db: Db, id: Id, a: Asset, amount: Money)
    requires 0 - HALF <= amount <= HALF && Credit(db, id, a, amount).Done?
    ensures !Breaks(db, id, a, amount)
  {}

  predicate ModerateTx(tx: Tx) {
    forall i :: 0 <= i < |tx.ops| ==> Moderate(tx.ops[i])
  }

  lemma {:induction false} ModerateOpsKeep(db: Db, src: Id, ops: seq<Op>, c: Config)
    requires forall i :: 0 <= i < |ops| ==> Moderate(ops[i])
    ensures OpsKeep(db, src, ops, c)
    decreases |ops|
  {
    hide ApplyOp, Moderate, Keeps;
    if ops != [] {
      var r := ApplyOp(db, src, ops[0], c);
      if r.Done? {
        ModerateKeeps(db, src, ops[0], c);
        ModerateOpsKeep(r.db, src, ops[1..], c);
      }
    }
  }

  lemma {:induction false} ModerateTxsKeep(s: Books, txs: seq<Tx>, c: Config)
    requires forall i :: 0 <= i < |txs| ==> ModerateTx(txs[i])
    ensures TxsKeep(s, txs, c)
    decreases |txs|
  {
    hide ApplyTx, Moderate, OpsKeep;
    if txs != [] {
      assert ModerateTx(txs[0]);
      ModerateOpsKeep(s.db, txs[0].account, Built(txs[0]), c);
      var o := ApplyTx(s, txs[0], c);
      if o.Finished? {
        ModerateTxsKeep(o.s, txs[1..], c);
      }
    }
  }

  /** Lists of moderate transactions keep every trust within its limit. */
  lemma ListWithin(s: Books, txs: seq<Tx>, c: Config, order: seq<Tx>, run: seq<Tx>, o: Outcome)
    requires MayYield(s, txs, c, order, run, o) && WithinLimits(s.db)
    requires forall i :: 0 <= i < |txs| ==> ModerateTx(txs[i])
    ensures WithinLimits(o.s.db)
  {
    hide ChargeTxs, ApplyTxs, Ascending, ModerateTx, WithinLimits, TxsKeep;
    RestIsPart(FeePhase(s, []), order);
    forall i | 0 <= i < |run| ensures ModerateTx(run[i]) {
      assert run[i] in multiset(run) && run[i] in multiset(order) && run[i] in multiset(txs);
    }
    ModerateTxsKeep(ChargeTxs(FeePhase(s, []), order).s, run, c);
    ListWithinExactly(s, txs, c, order, run, o);
  }

  /******* Lists whose trust updates cannot wrap *******/

  /** Every trust of a holder is within a limit that leaves room for one more moderate payment. */
  ghost predicate Roomy(db: Db) {
    forall k :: k in db.trusts && k.holder != k.asset.issuer ==>
      db.trusts[k].balance <= db.trusts[k].limit <= MAX_INT64 - HALF && db.trusts[k].buying == 0
  }

  predicate LeavesRoom(op: Op) {
    Moderate(op) && (op.SetTrust? ==> op.limit <= MAX_INT64 - HALF)
  }

  lemma CreditFits(db: Db, id: Id, a: Asset, amount: Money, asset: Asset)
    requires Roomy(db) && 0 - HALF <= amount <= HALF
    ensures var r := Credit(db, id, a, amount);
            r.Done? ==> Roomy(r.db) && NoWrap(CreditCarries(db, id, a, amount, asset))
  {
    var r := Credit(db, id, a, amount);
    if r.Done? && !a.native {
      var k := TrustKey(id, a);
      assert r.db.trusts == db.trusts[k := r.db.trusts[k]];
      if id != a.issuer {
        CarryExact(db.trusts[k].balance + amount);
        UpdateTrustWrapsExactly(db.trusts[k], amount);
      }
    }
  }

  lemma PaymentFits(db: Db, src: Id, dst: Id, a: Option<Asset>, amount: Money, asset: Asset)
    requires Roomy(db) && 0 - HALF <= amount <= HALF
    ensures var r := ApplyPayment(db, src, dst, a, amount);
            r.Done? ==> Roomy(r.db) && NoWrap(HeldCarries(db, src, Payment(dst, a, amount), asset))
  {
    var r := ApplyPayment(db, src, dst, a, amount);
    if r.Done? {
      var m := ToInt64(0 - amount);
      CarryExact(0 - amount);
      assert Int64(0 - amount) && m == 0 - amount;
      var one := Credit(db, dst, a.value, amount);
      CreditFits(db, dst, a.value, amount, asset);
      CreditFits(one.db, src, a.value, m, asset);
      hide Credit, CreditCarries, Roomy, ToInt64, Carry;
      var p, q := CreditCarries(db, dst, a.value, amount, asset), CreditCarries(one.db, src, a.value, m, asset);
      var back := if src == asset.issuer then [] else [Carry(0 - amount)];
      NoWrapAppends(p + back, q);
      NoWrapAppends(p, back);
    }
  }

  lemma OpFits(db: Db, src: Id, op: Op, c: Config, asset: Asset)
    requires Roomy(db) && LeavesRoom(op)
    ensures var r := ApplyOp(db, src, op, c); r.Done? ==> Roomy(r.db) && NoWrap(HeldCarries(db, src, op, asset))
  {
    match op
    case CreateAccount(_, _) =>
    case Payment(dst, a, amount) => PaymentFits(db, src, dst, a, amount, asset);
    case SetTrust(a, limit) =>
      var r := ApplyTrust(db, src, a, limit, c);
      if r.Done? && TrustKey(src, a.value) in db.trusts {
        assert ToInt64(db.trusts[TrustKey(src, a.value)].balance + 0) == db.trusts[TrustKey(src, a.value)].balance;
      }
    case Unsupported =>
  }

  lemma {:induction false} OpsFit(db: Db, src: Id, ops: seq<Op>, c: Config, asset: Asset)
    requires Roomy(db) && forall i :: 0 <= i < |ops| ==> LeavesRoom(ops[i])
    ensures var r := ApplyOps(db, src, ops, c);
            r.Done? ==> Roomy(r.db) && NoWrap(OpsFlow(db, src, ops, c, asset).1)
    decreases |ops|
  {
    hide Roomy, ApplyOp, HeldCarries, LeavesRoom;
    if ops != [] {
      OpFits(db, src, ops[0], c, asset);
      var r := ApplyOp(db, src, ops[0], c);
      if r.Done? {
        OpsFit(r.db, src, ops[1..], c, asset);
        NoWrapAppends(HeldCarries(db, src, ops[0], asset), OpsFlow(r.db, src, ops[1..], c, asset).1);
      }
    }
  }

  predicate LeavesRoomTx(tx: Tx) {
    forall i :: 0 <= i < |tx.ops| ==> LeavesRoom(tx.ops[i])
  }

  lemma {:induction false} TxsFit(s: Books, txs: seq<Tx>, c: Config, asset: Asset)
    requires Roomy(s.db) && forall i :: 0 <= i < |txs| ==> LeavesRoomTx(txs[i])
    ensures NoWrap(TxsFlow(s, txs, c, asset).1)
    decreases |txs|
  {
    hide Roomy, ApplyOps, OpsFlow, LeavesRoom;
    if txs != [] {
      assert LeavesRoomTx(txs[0]);
      OpsFit(s.db, txs[0].account, Built(txs[0]), c, asset);
      var o := ApplyTx(s, txs[0], c);
      var rest := if o.Finished? then TxsFlow(o.s, txs[1..], c, asset) else (0, []);
      if o.Finished? {
        TxsFit(o.s, txs[1..], c, asset);
      }
      NoWrapAppends(TxFlow(s, txs[0], c, asset).1, rest.1);
    }
  }

  /** If trusts have limits that leave room for 2^62 more, and the list keeps it so and pays at most
      2^62 at a time, the holdings of every asset change exactly by the flows. */
  lemma RoomyListHeld(s: Books, txs: seq<Tx>, c: Config, order: seq<Tx>, run: seq<Tx>, o: Outcome, asset: Asset)
    requires MayYield(s, txs, c, order, run, o) && Roomy(s.db)
    requires forall i :: 0 <= i < |txs| ==> LeavesRoomTx(txs[i])
    ensures Held(o.s.db.trusts, asset)
            == Held(s.db.trusts, asset) + TxsFlow(ChargeTxs(FeePhase(s, []), order).s, run, c, asset).0
  {
    hide ChargeTxs, ApplyTxs, Ascending, LeavesRoomTx, TxsFlow, NoWrap, Held;
    RestIsPart(FeePhase(s, []), order);
    ChargeKeepsKeys(FeePhase(s, []), order);
    forall i | 0 <= i < |run| ensures LeavesRoomTx(run[i]) {
      assert run[i] in multiset(run) && run[i] in multiset(order) && run[i] in multiset(txs);
    }
    TxsFit(ChargeTxs(FeePhase(s, []), order).s, run, c, asset);
    ListHeld(s, txs, c, order, run, o, asset);
  }

  /** A payment above 2^62 from a holder who is as much in debt: the debt turns into a balance that the
      limit does not allow. */
  lemma LargePaymentBreaks() returns (db: Db, asset: Asset, amount: Money)
    ensures amount > HALF && !asset.native && WithinLimits(db)
    ensures var r := ApplyPayment(db, 2, 3, Some(asset), amount); r.Done? && !WithinLimits(r.db)
  {
    asset := Asset(false, "USD", 1);
    amount := 0x5000_0000_0000_0000;
    var from, to := TrustKey(2, asset), TrustKey(3, asset);
    var acc := NewAccount(0, 1, 0);
    db := Db(map[1 := acc, 2 := acc, 3 := acc],
             map[from := Trust(0 - 0x5000_0000_0000_0000, 0, 0, 0, 1), to := Trust(0, MAX_INT64, 0, 0, 1)]);
    var one := Credit(db, 3, asset, amount);
    assert one.Done? && one.db.trusts[from] == db.trusts[from];
    var two := Credit(one.db, 2, asset, ToInt64(0 - amount));
    assert two.Done? && two.db.trusts[from].balance == 0x6000_0000_0000_0000;
    assert |asset.name| == 3;
  }
}
