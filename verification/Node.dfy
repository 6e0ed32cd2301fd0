/** A ledger manager and its transaction manager: closing a ledger with the transactions applied. */
module Nodes {
  import opened Common
  import opened LedgerManagers
  import opened TxManagers
  import A = Accounts
  import C = Conservation
  import L = Ledgers
  import R = Replication
  import T = Transactions

  /******* One set at a time *******/

  /** The sets that could be applied. */
  function In(done: set<L.TxSet>): L.TxSet -> bool {
    t => t in done
  }

  ghost predicate Covers(applies: L.TxSet -> bool, done: set<L.TxSet>) {
    forall t :: t in done ==> applies(t)
  }

  function Depth(key: L.Key): nat
    decreases key
  {
    if key.NoKey? then 0 else 1 + Depth(key.header.prev)
  }

  /** Every set that was applied is for a ledger below; the next one is not among them. */
  ghost predicate AllBelow(done: set<L.TxSet>, key: L.Key) {
    forall t :: t in done ==> Depth(t.prev) < Depth(key)
  }

  lemma {:induction false} GrowthIsDeeper(base: L.Key, tip: L.Key, conf: A.Config, x: T.Books, fees: int, y: T.Books)
    requires R.Grows(base, tip, conf, x, fees, y)
    ensures Depth(base) <= Depth(tip)
    decreases tip
  {
    hide R.Applied;
    if tip != base {
      var mid, paid :| R.GrowsBy(base, tip.header, conf, x, paid, mid, fees, y);
      GrowthIsDeeper(base, tip.header.prev, conf, x, paid, mid);
    }
  }

  /** One more ledger. */
  lemma GrowthGoesOn(base: L.Key, h: L.Header, conf: A.Config, x: T.Books, fees: int, mid: T.Books, paid: int, y: T.Books)
    requires R.Grows(base, h.prev, conf, x, fees, mid) && h.txset.Some?
    requires R.Applied(mid, h.txset.value, conf.(ledgerSeq := h.seqNum), paid, y)
    ensures R.Grows(base, L.KeyOf(h), conf, x, fees + paid, y)
  {
    GrowthIsDeeper(base, h.prev, conf, x, fees, mid);
    hide R.Applied;
    assert R.GrowsBy(base, h, conf, x, fees, mid, fees + paid, y);
  }

  /** Closing asks about its own set only. */
  lemma CloseAsks(s: L.Ledger, info: L.CloseInfo, one: L.TxSet -> bool, two: L.TxSet -> bool, now: int)
    requires L.Refusal(s, info).None? ==> one(info.txset) == two(info.txset)
    ensures L.Close(s, info, one, now) == L.Close(s, info, two, now)
  {}

  /** So does a turn of the loop that drains the buffer. */
  lemma DrainTurns(s: L.Ledger, applies: L.TxSet -> bool, now: int)
    requires s.buffer != []
    ensures var o := L.Close(s.(buffer := s.buffer[1..]), s.buffer[0], applies, now);
            L.Drain(s, applies, now) == if o.result == L.Closed then L.Drain(o.s, applies, now) else o
  {}

  lemma DrainsNothing(s: L.Ledger, applies: L.TxSet -> bool, now: int)
    requires s.buffer == []
    ensures L.Drain(s, applies, now) == L.Outcome(s, L.Closed)
  {}

  lemma TurnForAll(s: L.Ledger, turn: L.Ledger, t: L.Ledger, done: set<L.TxSet>, now: int)
    requires turn.buffer != [] && forall a :: Covers(a, done) ==> L.Drain(s, a, now) == L.Drain(turn, a, now)
    requires L.Close(turn.(buffer := turn.buffer[1..]), turn.buffer[0], _ => true, now) == L.Outcome(t, L.Closed)
    ensures forall a :: Covers(a, done + {turn.buffer[0].txset}) ==> L.Drain(s, a, now) == L.Drain(t, a, now)
  {
    forall a | Covers(a, done + {turn.buffer[0].txset}) ensures L.Drain(s, a, now) == L.Drain(t, a, now) {
      assert Covers(a, done) && a(turn.buffer[0].txset);
      CloseAsks(turn.(buffer := turn.buffer[1..]), turn.buffer[0], a, _ => true, now);
      hide L.Close, L.Drain;
      DrainTurns(turn, a, now);
    }
  }

  lemma CoversIn(done: set<L.TxSet>)
    ensures Covers(In(done), done)
  {}

  lemma NextIsNotDone(s: L.Ledger, info: L.CloseInfo, done: set<L.TxSet>)
    requires s.curr.Some? && AllBelow(done, s.currHash)
    ensures L.Refusal(s, info).None? ==> !In(done)(info.txset)
  {}

  lemma OneMoreBelow(done: set<L.TxSet>, t: L.TxSet, h: L.Header)
    requires AllBelow(done, h.prev) && t.prev == h.prev
    ensures AllBelow(done + {t}, L.KeyOf(h))
  {}

  /******* Whole events *******/

  /** What the handlers need of the manager, and the invariant of its runs gives. */
  predicate Steady(s: L.Ledger) {
    && !s.halted && (s.curr.None? ==> s.currHash == L.NoKey)
    && (s.buffer != [] ==> L.NextSeq(s) < s.buffer[0].index)
  }

  lemma RunsAreSteady(s: L.Ledger)
    requires L.Inv(s) && !s.halted
    ensures Steady(s)
  {}

  lemma TakesNone(key: L.Key, conf: A.Config, x: T.Books)
    ensures R.Grows(key, key, conf, x, 0, x) && AllBelow({}, key)
  {}

  lemma NothingToCloseOn(s: L.Ledger, info: L.CloseInfo, applies: L.TxSet -> bool, now: int)
    ensures s.currHash == L.NoKey ==> L.Downloaded(s, info, applies, now) == s.(halted := true)
  {}

  /** The two ways of the handler. */
  lemma TakenOnly(s: L.Ledger, info: L.CloseInfo, applies: L.TxSet -> bool, now: int)
    requires s.currHash != L.NoKey && !s.halted
    ensures var o := L.Close(s, info, applies, now);
            o.s.halted || o.s.buffer == [] || L.NextSeq(o.s) != o.s.buffer[0].index ==>
            && L.Downloaded(s, info, applies, now) == o.s
            && (R.ListFails(s, L.Ready(info, applies, now)) <==> o.result == L.TxsFailed)
  {
    hide L.Close, L.Drain;
  }

  lemma TakenAndDrained(s: L.Ledger, info: L.CloseInfo, applies: L.TxSet -> bool, now: int)
    requires s.currHash != L.NoKey && !s.halted
    ensures var o := L.Close(s, info, applies, now);
            !o.s.halted && o.s.buffer != [] && L.NextSeq(o.s) == o.s.buffer[0].index ==>
            var d := L.Drain(o.s, applies, now);
            && L.Downloaded(s, info, applies, now) == (if d.s.halted then d.s else d.s.(buffer := [], state := L.Synced))
            && (R.ListFails(s, L.Ready(info, applies, now)) <==> o.result == L.TxsFailed || d.result == L.TxsFailed)
  {
    hide L.Close, L.Drain;
  }

  /** The accounts follow an event: they grow with the ledgers, unless a list was left half applied. */
  ghost predicate Follows(conf: A.Config, s: L.Ledger, event: L.Event, t: L.Ledger, x: R.Till, y: R.Till) {
    if R.ListFails(s, event) then !y.whole
    else y.whole == x.whole && R.Grows(s.currHash, t.currHash, conf, x.books, y.fees - x.fees, y.books)
  }

  /** This is what a run of the whole system asks of the accounts. */
  lemma FollowsOnRuns(c: R.Consensus, conf: A.Config, s: L.Ledger, e: R.Step, t: L.Ledger, x: R.Till, y: R.Till)
    requires R.EventOf(c, e).Some?
    ensures R.TillFollows(c, conf, s, e, t, x, y) <==> Follows(conf, s, R.EventOf(c, e).value, t, x, y)
  {
    hide R.Grows, R.ListFails;
    assert !e.Die?;
  }

  /** Unless a value is the next one on the current hash, nothing is closed, whatever can be applied. */
  lemma NothingIsClosed(s: L.Ledger, info: L.CloseInfo, one: L.TxSet -> bool, two: L.TxSet -> bool, now: int)
    requires s.state == L.Syncing || L.NextSeq(s) != info.index || s.currHash == L.NoKey || s.currHash != info.txset.prev
    ensures L.RecvExtVal(s, info, one, now) == L.RecvExtVal(s, info, two, now)
    ensures L.RecvExtVal(s, info, one, now).currHash == s.currHash
  {}

  /** The same database. */
  predicate SameDisk(s: L.Ledger, t: L.Ledger) {
    s.headers == t.headers && s.checkpoint == t.checkpoint
  }

  class Node {
    const lm: Manager
    const tm: TxManager

    constructor (lm: Manager, tm: TxManager)
      ensures this.lm == lm && this.tm == tm
    {
      this.lm, this.tm := lm, tm;
    }

    /** ApplyTxList for the set of a ledger. */
    method ApplySet(txset: L.TxSet, txs: seq<T.Tx>, ledgerSeqNum: nat) returns (r: Result, ghost paid: int)
      requires multiset(txs) == txset.txs
      modifies tm, tm.store
      ensures r == Applied ==>
                R.Applied(old(tm.St()), txset, tm.c.(ledgerSeq := ledgerSeqNum), paid, tm.St())
    {
      hide T.MayYield, T.ChargeTxs, T.AllExist, C.FeeSum;
      ghost var s := tm.St();
      ghost var order, run;
      r, order, run := tm.ApplyTxList(txs, ledgerSeqNum);
      paid := C.FeeSum(T.ChargeTxs(T.FeePhase(s, []), order).rest);
      assert r == Applied ==>
          R.AppliedAs(s, txset, tm.c.(ledgerSeq := ledgerSeqNum), paid, tm.St(), txs, order, run);
    }

    /**
     closeLedger as a whole; txs is the list of the transaction set, in the order in which it came.
     The ledger manager does what its specification says, with `applied` for whether the list could
     be applied. If the ledger is closed, the accounts have had this set applied to them once and
     completely; so they still are what the ledgers up to the new one make of the first accounts.
     A ledger that is refused leaves the accounts alone.
     */
    method CloseLedger(info: L.CloseInfo, txs: seq<T.Tx>, now: int, ghost first: T.Books, ghost fees: int)
      returns (result: L.CloseResult, ghost applied: bool, ghost panicked: bool, ghost paid: int)
      requires multiset(txs) == info.txset.txs
      modifies lm, tm, tm.store
      ensures !panicked ==> L.Outcome(lm.St(), result) == L.Close(old(lm.St()), info, _ => applied, now)
      ensures panicked ==> result == L.Stopped && lm.St() == old(lm.St()).(halted := true)
      ensures L.Refusal(old(lm.St()), info).Some? ==> !panicked && tm.St() == old(tm.St())
      ensures result == L.Closed && old(lm.currLedgerHeader).Some? ==>
                && R.Applied(old(tm.St()), info.txset, tm.c.(ledgerSeq := info.index), paid, tm.St())
                && (R.Replays(old(lm.currLedgerHeaderHash), first, tm.c, fees, old(tm.St()))
                    ==> R.Replays(lm.currLedgerHeaderHash, first, tm.c, fees + paid, tm.St()))
    {
      hide L.Close, R.Applied, R.Replays;
      applied, panicked, paid := false, false, 0;
      ghost var s := tm.St();
      L.ClosesUnlessRefused(lm.St(), info, _ => true, now);
      L.ClosesUnlessRefused(lm.St(), info, _ => false, now);
      var refused := lm.CheckInfo(info);
      if refused.Some? {
        return refused.value, false, false, 0;
      }
      var seqNum := lm.NextLedgerHeaderSeq();
      var r;
      r, paid := ApplySet(info.txset, txs, seqNum);
      if r == AccountNotExist {
        return L.TxsFailed, false, false, 0;
      }
      if r == Panicked {
        lm.halted := true;
        return L.Stopped, false, true, 0;
      }
      lm.AdvanceLedger(info.index, info.txset.prev, Some(info.txset), info.value, now);
      result, applied := L.Closed, true;
      if old(lm.currLedgerHeader).Some? {
        R.ReplayGoesOn(lm.currLedgerHeader.value, first, tm.c, fees, s, paid, tm.St());
      }
    }

    /**
     Closing a ledger on top of others, of which done are the sets. A ledger that is closed makes the
     accounts grow; any other is what closing says of a set that cannot be applied.
     */
    method CloseNext(info: L.CloseInfo, txs: seq<T.Tx>, now: int, ghost base: L.Key, ghost x: T.Books, ghost had: int,
                     ghost done: set<L.TxSet>)
      returns (result: L.CloseResult, ghost panicked: bool, ghost fees: int)
      requires multiset(txs) == info.txset.txs
      requires lm.currLedgerHeader.Some? && AllBelow(done, lm.currLedgerHeaderHash)
      requires R.Grows(base, lm.currLedgerHeaderHash, tm.c, x, had, tm.St())
      modifies lm, tm, tm.store
      ensures lm.currLedgerHeader.Some?
      ensures result == L.Closed ==>
                && !panicked && L.Outcome(lm.St(), L.Closed) == L.Close(old(lm.St()), info, _ => true, now)
                && AllBelow(done + {info.txset}, lm.currLedgerHeaderHash)
      ensures result != L.Closed ==>
                var o := L.Close(old(lm.St()), info, In(done), now);
                if panicked then o == L.Outcome(old(lm.St()), L.TxsFailed) && lm.St() == o.s.(halted := true)
                else L.Outcome(lm.St(), result) == o
      ensures !panicked && result != L.TxsFailed ==> R.Grows(base, lm.currLedgerHeaderHash, tm.c, x, fees, tm.St())
    {
      hide R.Grows, R.Applied, R.Replays;
      ghost var s, mid := lm.St(), tm.St();
      ghost var applied, paid;
      NextIsNotDone(s, info, done);
      L.ClosesUnlessRefused(s, info, _ => true, now);
      L.ClosesUnlessRefused(s, info, In(done), now);
      result, applied, panicked, paid := CloseLedger(info, txs, now, mid, 0);
      L.ClosesUnlessRefused(s, info, _ => applied, now);
      hide L.Close;
      fees := had;
      if result == L.Closed {
        fees := had + paid;
        GrowthGoesOn(base, lm.currLedgerHeader.value, tm.c, x, had, mid, paid, tm.St());
        OneMoreBelow(done, info.txset, lm.currLedgerHeader.value);
      }
    }

    /**
     The loop that empties the buffer, with the transactions applied; the list of each set is in the order
     in which it came. The accounts grow with the ledgers. An account that is missing ends the loop, and a
     panic the process, at the ledger that could not be closed.
     */
    method DrainBuffer(lists: L.CloseInfo -> seq<T.Tx>, now: int, ghost base: L.Key, ghost x: T.Books, ghost had: int,
                       ghost before: set<L.TxSet>)
      returns (result: L.CloseResult, ghost done: set<L.TxSet>, ghost panicked: bool, ghost fees: int)
      requires forall i :: multiset(lists(i)) == i.txset.txs
      requires lm.currLedgerHeader.Some? && AllBelow(before, lm.currLedgerHeaderHash)
      requires R.Grows(base, lm.currLedgerHeaderHash, tm.c, x, had, tm.St())
      modifies lm, lm.buffer, tm, tm.store
      ensures before <= done
      ensures var o := L.Drain(old(lm.St()), In(done), now);
              if panicked then o.result == L.TxsFailed && lm.St() == o.s.(halted := true) else L.Outcome(lm.St(), result) == o
      ensures !panicked && result != L.TxsFailed ==> R.Grows(base, lm.currLedgerHeaderHash, tm.c, x, fees, tm.St())
    {
      hide L.Close, L.Drain, R.Grows, AllBelow, Covers;
      result, done, panicked, fees := L.Closed, before, false, had;
      ghost var s := lm.St();
      var size := lm.buffer.Size();
      while size > 0
        invariant result == L.Closed && size == |lm.buffer.infos| && before <= done && !panicked
        invariant lm.currLedgerHeader.Some? && AllBelow(done, lm.currLedgerHeaderHash)
        invariant R.Grows(base, lm.currLedgerHeaderHash, tm.c, x, fees, tm.St())
        invariant forall a :: Covers(a, done) ==> L.Drain(s, a, now) == L.Drain(lm.St(), a, now)
        decreases size
      {
        ghost var turn := lm.St();
        var head := lm.buffer.PopHead();
        assert lm.St() == turn.(buffer := turn.buffer[1..]) && head.value == turn.buffer[0];
        result, panicked, fees := CloseNext(head.value, lists(head.value), now, base, x, fees, done);
        if result != L.Closed {
          CoversIn(done);
          DrainTurns(turn, In(done), now);
          return;
        }
        TurnForAll(s, turn, lm.St(), done, now);
        done := done + {head.value.txset};
        size := lm.buffer.Size();
      }
      CoversIn(done);
      DrainsNothing(lm.St(), In(done), now);
    }

    /**
     The handler of a downloaded ledger, with the transactions applied. For the sets that could be applied
     the ledger manager does what its specification says, and the accounts follow it as in a run of the
     whole system. A panic ends the process with the ledgers closed so far in the database.
     */
    method HandleReady(info: L.CloseInfo, lists: L.CloseInfo -> seq<T.Tx>, now: int, ghost x: R.Till)
      returns (ghost done: set<L.TxSet>, ghost panicked: bool, ghost y: R.Till)
      requires forall i :: multiset(lists(i)) == i.txset.txs
      requires Steady(lm.St()) && x.books == tm.St()
      modifies lm, lm.buffer, tm, tm.store
      ensures y.books == tm.St()
      ensures !panicked ==>
                && lm.St() == L.Downloaded(old(lm.St()), info, In(done), now)
                && Follows(tm.c, old(lm.St()), L.Ready(info, In(done), now), lm.St(), x, y)
      ensures panicked ==>
                && !y.whole && lm.halted
                && SameDisk(lm.St(), L.Downloaded(old(lm.St()), info, In(done), now))
    {
      hide R.Grows, AllBelow, L.Downloaded, R.ListFails, L.NextSeq;
      done, panicked := {}, false;
      ghost var s, fees := lm.St(), 0;
      TakesNone(s.currHash, tm.c, x.books);
      NothingToCloseOn(s, info, In({}), now);
      if lm.currLedgerHeaderHash == L.NoKey {
        lm.halted := true;
      } else {
        done, panicked, fees := TakeReady(info, lists, now, x.books);
      }
      y := R.Till(tm.St(), x.fees + fees, x.whole && !panicked && !R.ListFails(s, L.Ready(info, In(done), now)));
    }

    /** The handler after its first check. */
    method TakeReady(info: L.CloseInfo, lists: L.CloseInfo -> seq<T.Tx>, now: int, ghost x: T.Books)
      returns (ghost done: set<L.TxSet>, ghost panicked: bool, ghost fees: int)
      requires forall i :: multiset(lists(i)) == i.txset.txs
      requires Steady(lm.St()) && x == tm.St() && lm.currLedgerHeaderHash != L.NoKey
      modifies lm, lm.buffer, tm, tm.store
      ensures var t := L.Downloaded(old(lm.St()), info, In(done), now);
              if panicked then lm.halted && SameDisk(lm.St(), t) else lm.St() == t
      ensures !panicked && !R.ListFails(old(lm.St()), L.Ready(info, In(done), now)) ==>
                R.Grows(old(lm.currLedgerHeaderHash), lm.currLedgerHeaderHash, tm.c, x, fees, tm.St())
    {
      ghost var s, base := lm.St(), lm.currLedgerHeaderHash;
      TakesNone(base, tm.c, x);
      hide L.Close, L.Drain, R.Grows, AllBelow, L.Downloaded, R.ListFails;
      var result;
      done := {};
      result, panicked, fees := CloseNext(info, lists(info), now, base, x, 0, done);
      if result == L.Closed {
        done := {info.txset};
        CloseAsks(s, info, In(done), _ => true, now);
      }
      var head := lm.buffer.PeekHead();
      var next := lm.NextLedgerHeaderSeq();
      if lm.halted || head.None? || next != head.value.index {
        TakenOnly(s, info, In(done), now);
        return;
      }
      done, panicked, fees := DrainAndClear(lists, now, base, x, fees, done);
      CloseAsks(s, info, In(done), _ => true, now);
      TakenAndDrained(s, info, In(done), now);
    }

    /** The buffer is drained and cleared, and the manager is synced. */
    method DrainAndClear(lists: L.CloseInfo -> seq<T.Tx>, now: int, ghost base: L.Key, ghost x: T.Books, ghost had: int,
                         ghost before: set<L.TxSet>)
      returns (ghost done: set<L.TxSet>, ghost panicked: bool, ghost fees: int)
      requires forall i :: multiset(lists(i)) == i.txset.txs
      requires lm.currLedgerHeader.Some? && AllBelow(before, lm.currLedgerHeaderHash)
      requires R.Grows(base, lm.currLedgerHeaderHash, tm.c, x, had, tm.St())
      modifies lm, lm.buffer, tm, tm.store
      ensures before <= done
      ensures var o := L.Drain(old(lm.St()), In(done), now);
              if panicked then o.result == L.TxsFailed && lm.halted && SameDisk(lm.St(), o.s)
              else lm.St() == if o.s.halted then o.s else o.s.(buffer := [], state := L.Synced)
      ensures !panicked && L.Drain(old(lm.St()), In(done), now).result != L.TxsFailed ==>
                R.Grows(base, lm.currLedgerHeaderHash, tm.c, x, fees, tm.St())
    {
      hide L.Drain, R.Grows, AllBelow;
      var result;
      result, done, panicked, fees := DrainBuffer(lists, now, base, x, had, before);
      if lm.halted {
        return;
      }
      lm.buffer.Clear();
      lm.ledgerState := L.Synced;
    }

    /** An externalized value, with the transactions applied; the same holds. */
    method RecvExtVal(info: L.CloseInfo, txs: seq<T.Tx>, now: int, ghost x: R.Till)
      returns (ghost done: set<L.TxSet>, ghost panicked: bool, ghost y: R.Till)
      requires multiset(txs) == info.txset.txs
      requires Steady(lm.St()) && x.books == tm.St()
      modifies lm, lm.buffer, lm.downloader, tm, tm.store
      ensures y.books == tm.St()
      ensures !panicked ==>
                && lm.St() == L.RecvExtVal(old(lm.St()), info, In(done), now)
                && Follows(tm.c, old(lm.St()), L.ExtVal(info, In(done), now), lm.St(), x, y)
      ensures panicked ==>
                && !y.whole && lm.halted
                && SameDisk(lm.St(), L.RecvExtVal(old(lm.St()), info, In(done), now))
    {
      ghost var s, fees := lm.St(), 0;
      TakesNone(s.currHash, tm.c, x.books);
      hide R.Grows, AllBelow;
      done, panicked := {}, false;
      var next := lm.NextLedgerHeaderSeq();
      if lm.ledgerState != L.Syncing && next == info.index && lm.currLedgerHeaderHash != L.NoKey
         && lm.currLedgerHeaderHash == info.txset.prev {
        done, panicked, fees := CloseExternalized(info, txs, now, x.books);
      } else { // no set is looked at
        lm.RecvExtVal(info, _ => false, now);
        NothingIsClosed(s, info, _ => false, In({}), now);
      }
      y := R.Till(tm.St(), x.fees + fees, x.whole && !panicked && !R.ListFails(s, L.ExtVal(info, In(done), now)));
    }

    /** The normal case of an externalized value. */
    method CloseExternalized(info: L.CloseInfo, txs: seq<T.Tx>, now: int, ghost x: T.Books)
      returns (ghost done: set<L.TxSet>, ghost panicked: bool, ghost fees: int)
      requires multiset(txs) == info.txset.txs
      requires Steady(lm.St()) && x == tm.St() && lm.ledgerState != L.Syncing && L.NextSeq(lm.St()) == info.index
      requires lm.currLedgerHeaderHash != L.NoKey && lm.currLedgerHeaderHash == info.txset.prev
      modifies lm, tm, tm.store
      ensures var t := L.RecvExtVal(old(lm.St()), info, In(done), now);
              if panicked then lm.halted && SameDisk(lm.St(), t) else lm.St() == t
      ensures !panicked && !R.ListFails(old(lm.St()), L.ExtVal(info, In(done), now)) ==>
                R.Grows(old(lm.currLedgerHeaderHash), lm.currLedgerHeaderHash, tm.c, x, fees, tm.St())
    {
      ghost var s, base := lm.St(), lm.currLedgerHeaderHash;
      TakesNone(base, tm.c, x);
      hide L.Close, R.Grows;
      done := {};
      var result;
      result, panicked, fees := CloseNext(info, txs, now, base, x, 0, done);
      if result == L.Closed {
        done := {info.txset};
        CloseAsks(s, info, In(done), _ => true, now);
        lm.largestConsensusIndex := info.index;
        lm.ledgerState := L.Synced;
      }
    }
  }
}
