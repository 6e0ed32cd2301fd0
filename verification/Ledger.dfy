/**
 Closing ledgers and catching up (ledger/manager.go, ledger/buffer.go).

 A hash stands for the very thing it was computed from, which makes it injective: the key of a
 header contains the header, and a transaction set is its own hash. The hash of a set does not
 depend on the order of its list, so a set is a multiset of transactions. Sequence numbers are
 unbounded. Whether the transactions of a set can be applied, and the clock, are parameters.
 */
module Ledgers {
  import opened Common
  import T = Transactions

  datatype Key = NoKey | KeyOf(header: Header)
  datatype Header = Header(seqNum: nat, prev: Key, txset: Option<TxSet>, value: Value)
  datatype TxSet = TxSet(prev: Key, txs: multiset<T.Tx>)
  datatype Value = NoValue | Undecodable(bytes: nat) | Agreed(txset: TxSet, time: int)

  datatype CloseInfo = CloseInfo(index: nat, value: Value, txset: TxSet)
  datatype Range = Range(start: nat, end: nat)

  datatype Checkpoint = Checkpoint(
    closeTime: int, count: int, largest: nat,
    prev: Option<Header>, prevHash: Key, curr: Option<Header>, currHash: Key)

  datatype SyncState = Synced | Syncing | NotSynced

  /** The ledger manager, with what it keeps in the database and the tasks it gave the downloader. */
  datatype Ledger = Ledger(
    state: SyncState, closeTime: int, count: int, largest: nat,
    prev: Option<Header>, prevHash: Key, curr: Option<Header>, currHash: Key,
    headers: map<nat, Header>, checkpoint: Option<Checkpoint>,
    buffer: seq<CloseInfo>, tasks: seq<Range>, halted: bool)

  const Empty: Ledger := Ledger(NotSynced, 0, 0, 0, None, NoKey, None, NoKey, map[], None, [], [], false)

  function NextSeq(s: Ledger): nat {
    if s.curr.None? then 1 else s.curr.value.seqNum + 1
  }

  /******* Closing *******/

  function Saved(s: Ledger): Checkpoint {
    Checkpoint(s.closeTime, s.count, 0, s.prev, s.prevHash, s.curr, s.currHash)
  }

  /** advanceLedger with its saveCheckpoint. */
  function Advance(s: Ledger, seqNum: nat, prev: Key, txset: Option<TxSet>, value: Value, now: int): Ledger {
    var header := Header(seqNum, prev, txset, value);
    var t := s.(headers := s.headers[seqNum := header], prev := s.curr, prevHash := s.currHash,
                curr := Some(header), currHash := KeyOf(header), count := s.count + 1, closeTime := now);
    t.(checkpoint := Some(Saved(t)))
  }

  datatype CloseResult = Closed | SeqMismatch | BadValue | TxsFailed | Stopped

  datatype Outcome = Outcome(s: Ledger, result: CloseResult)

  /** closeLedger. */
  function Close(s: Ledger, info: CloseInfo, applies: TxSet -> bool, now: int): Outcome {
    if s.curr.Some? && NextSeq(s) != info.index then Outcome(s, SeqMismatch)
    else if s.curr.Some? && s.currHash != info.txset.prev then Outcome(s.(halted := true), Stopped)
    else if !(info.value.Agreed? && info.value.txset == info.txset) then Outcome(s, BadValue)
    else if !applies(info.txset) then Outcome(s, TxsFailed)
    else Outcome(Advance(s, info.index, info.txset.prev, Some(info.txset), info.value, now), Closed)
  }

  /** Why a ledger is refused before its transactions are looked at. */
  function Refusal(s: Ledger, info: CloseInfo): Option<CloseResult> {
    if s.curr.Some? && NextSeq(s) != info.index then Some(SeqMismatch)
    else if s.curr.Some? && s.currHash != info.txset.prev then Some(Stopped)
    else if !(info.value.Agreed? && info.value.txset == info.txset) then Some(BadValue)
    else None
  }

  lemma ClosesUnlessRefused(s: Ledger, info: CloseInfo, applies: TxSet -> bool, now: int)
    ensures var why := Refusal(s, info);
            Close(s, info, applies, now)
            == if why.Some? then Outcome(s.(halted := s.halted || why.value == Stopped), why.value)
               else if !applies(info.txset) then Outcome(s, TxsFailed)
               else Outcome(Advance(s, info.index, info.txset.prev, Some(info.txset), info.value, now), Closed)
  {}

  /******* The buffer *******/

  /** Append keeps only what follows the last entry. */
  function Append(buffer: seq<CloseInfo>, info: CloseInfo): seq<CloseInfo> {
    if buffer != [] && buffer[|buffer|-1].index + 1 != info.index then buffer else buffer + [info]
  }

  predicate Consecutive(buffer: seq<CloseInfo>) {
    forall i :: 0 <= i < |buffer| ==> buffer[i].index == buffer[0].index + i
  }

  lemma AppendKeeps(buffer: seq<CloseInfo>, info: CloseInfo)
    requires Consecutive(buffer)
    ensures Consecutive(Append(buffer, info))
    ensures buffer != [] ==> Append(buffer, info)[0] == buffer[0]
    ensures buffer <= Append(buffer, info)
  {}

  /******* RecvExtVal *******/

  function RecvExtVal(s: Ledger, info: CloseInfo, applies: TxSet -> bool, now: int): Ledger {
    if s.state == Syncing then s.(buffer := Append(s.buffer, info))
    else if NextSeq(s) == info.index then
      if s.currHash == NoKey || s.currHash != info.txset.prev then s.(halted := true)
      else
        var o := Close(s, info, applies, now);
        if o.result == Closed then o.s.(largest := info.index, state := Synced) else o.s
    else if info.index < NextSeq(s) then s
    else
      var t := s.(buffer := Append(s.buffer, info));
      if info.index <= s.largest then t
      else if s.largest + 1 > info.index - 1 then t
      else t.(tasks := t.tasks + [Range(s.largest + 1, info.index - 1)], largest := info.index - 1, state := Syncing)
  }

  /******* Downloaded ledgers *******/

  /** The loop that closes the buffered ledgers until the buffer is empty or one fails. */
  function Drain(s: Ledger, applies: TxSet -> bool, now: int): (o: Outcome)
    decreases |s.buffer|
  {
    if s.buffer == [] then Outcome(s, Closed)
    else
      var o := Close(s.(buffer := s.buffer[1..]), s.buffer[0], applies, now);
      if o.result == Closed then Drain(o.s, applies, now) else o
  }

  /** The handler of a ledger that the downloader has ready. */
  function Downloaded(s: Ledger, info: CloseInfo, applies: TxSet -> bool, now: int): Ledger {
    if s.currHash == NoKey then s.(halted := true)
    else
      var t := Close(s, info, applies, now).s;
      if t.halted || t.buffer == [] || NextSeq(t) != t.buffer[0].index then t
      else
        var u := Drain(t, applies, now).s;
        if u.halted then u else u.(buffer := [], state := Synced)
  }

  /******* Genesis and recovery *******/

  /** The header of the first ledger, which has no transaction set and no consensus value. */
  const GENESIS: Header := Header(1, NoKey, None, NoValue)

  function Genesis(s: Ledger, now: int): Ledger {
    Advance(s.(state := Synced), 1, NoKey, None, NoValue, now)
  }

  /** RecoverFromCheckpoint: None is one of its errors. */
  function Recover(s: Ledger, now: int): Option<Ledger> {
    if s.checkpoint.None? then None
    else
      var ck := s.checkpoint.value;
      if ck.closeTime < 0 || ck.closeTime > now then None
      else if ck.count < 0 then None
      else if ck.prev.None? && ck.count != 1 then None
      else if ck.largest > 1 && (ck.prev.None? || KeyOf(ck.prev.value) != ck.prevHash) then None
      else if ck.curr.None? || KeyOf(ck.curr.value) != ck.currHash then None
      else if ck.curr.value.prev != ck.prevHash then None
      else Some(s.(state := NotSynced, closeTime := ck.closeTime, count := ck.count,
                   prev := ck.prev, prevHash := ck.prevHash, curr := ck.curr, currHash := ck.currHash,
                   largest := ck.curr.value.seqNum))
  }

  /** Whatever the database holds, what is recovered is a tip with its own hash, on the hash that it
      names, that was not closed in the future. */
  lemma RecoveredIsWhole(s: Ledger, now: int)
    ensures var r := Recover(s, now);
            r.Some? ==>
              var t := r.value;
              && t.state == NotSynced && 0 <= t.closeTime <= now && t.count >= 0
              && t.curr.Some? && t.currHash == KeyOf(t.curr.value) && t.curr.value.prev == t.prevHash
              && (t.prev.None? ==> t.count == 1)
              && NextSeq(t) == t.largest + 1 && t.headers == s.headers && t.checkpoint == s.checkpoint
  {}

  /** A new process sees the database and nothing else. */
  function Restarted(s: Ledger): Ledger {
    Empty.(headers := s.headers, checkpoint := s.checkpoint)
  }

  /******* The invariant *******/

  /** Header i carries its own number and the key of the header before it; header 1 is genesis. */
  predicate Linked(headers: map<nat, Header>, i: nat) {
    && i in headers && headers[i].seqNum == i
    && if i <= 1 then headers[i] == GENESIS
       else i - 1 in headers && headers[i].prev == KeyOf(headers[i - 1])
  }

  /** The headers are those of the ledgers 1..n. */
  ghost predicate ChainOf(headers: map<nat, Header>, n: nat) {
    && (forall i: nat :: i in headers <==> 1 <= i <= n)
    && (forall i: nat :: 1 <= i <= n ==> Linked(headers, i))
  }

  /** The tip of the chain is what the manager holds and what the checkpoint holds. */
  predicate Tip(s: Ledger) {
    && s.curr.Some?
    && var n := s.curr.value.seqNum;
       && n in s.headers && s.headers[n] == s.curr.value && s.currHash == KeyOf(s.curr.value)
       && s.count == n
       && s.prev == (if n == 1 || n - 1 !in s.headers then None else Some(s.headers[n - 1]))
       && s.prevHash == s.curr.value.prev
       && s.checkpoint == Some(Saved(s))
  }

  ghost predicate Chained(s: Ledger) {
    s.curr.Some? && ChainOf(s.headers, s.curr.value.seqNum) && Tip(s)
  }

  /** The last download task runs from the next ledger or before it up to the buffer. */
  predicate Covered(s: Ledger) {
    && s.tasks != [] && s.buffer != []
    && var r := s.tasks[|s.tasks|-1];
       r.start <= NextSeq(s) && r.end + 1 == s.buffer[0].index
  }

  ghost predicate NoGap(s: Ledger) {
    && Consecutive(s.buffer)
    && (forall i :: 0 <= i < |s.tasks| ==> s.tasks[i].start <= s.tasks[i].end)
    && (s.state != Syncing ==> s.buffer == [] && s.largest < NextSeq(s))
    && (s.state == Syncing ==> Covered(s) && NextSeq(s) < s.buffer[0].index == s.largest + 1)
  }

  ghost predicate Inv(s: Ledger) {
    Chained(s) && s.closeTime >= 0 && (!s.halted ==> NoGap(s))
  }

  /******* Preservation *******/

  lemma CloseKeeps(s: Ledger, info: CloseInfo, applies: TxSet -> bool, now: int)
    requires Chained(s)
    ensures var o := Close(s, info, applies, now);
            && Chained(o.s)
            && (o.result == Closed ==> NextSeq(s) == info.index && NextSeq(o.s) == info.index + 1 && o.s.closeTime == now)
            && (o.result != Closed ==> o.s == s.(halted := o.s.halted))
            && (o.s.halted == (s.halted || o.result == Stopped))
            && o.s.buffer == s.buffer && o.s.tasks == s.tasks && o.s.largest == s.largest && o.s.state == s.state
  {
    var o := Close(s, info, applies, now);
    if o.result == Closed {
      ChainGrows(s.headers, s.curr.value.seqNum, o.s.curr.value);
    }
  }

  lemma ChainGrows(headers: map<nat, Header>, n: nat, next: Header)
    requires ChainOf(headers, n) && n >= 1 && next.seqNum == n + 1 && next.prev == KeyOf(headers[n])
    ensures ChainOf(headers[n + 1 := next], n + 1)
  {
    var longer := headers[n + 1 := next];
    forall i: nat | 1 <= i <= n + 1 ensures Linked(longer, i) {
      assert i <= n ==> Linked(headers, i);
    }
  }

  /**
   Draining closes one buffered ledger after the other. It never meets a wrong sequence number;
   if no entry is refused for its value or its transactions, the whole buffer is closed.
   */
  lemma {:induction false} DrainKeeps(s: Ledger, applies: TxSet -> bool, now: int)
    requires Chained(s) && !s.halted && Consecutive(s.buffer) && now >= 0 && s.closeTime >= 0
    requires s.buffer != [] ==> s.buffer[0].index == NextSeq(s)
    ensures var o := Drain(s, applies, now);
            && Chained(o.s) && o.s.closeTime >= 0
            && o.result != SeqMismatch
            && (o.s.halted <==> o.result == Stopped)
            && NextSeq(s) <= NextSeq(o.s) <= NextSeq(s) + |s.buffer|
            && (o.result == Closed <==> NextSeq(o.s) == NextSeq(s) + |s.buffer|)
            && o.s.tasks == s.tasks && o.s.largest == s.largest
    decreases |s.buffer|
  {
    if s.buffer != [] {
      var t := s.(buffer := s.buffer[1..]);
      assert Chained(t);
      CloseKeeps(t, s.buffer[0], applies, now);
      var o := Close(t, s.buffer[0], applies, now);
      if o.result == Closed {
        assert Consecutive(o.s.buffer) by {
          assert forall i :: 0 <= i < |s.buffer| - 1 ==> s.buffer[1..][i] == s.buffer[i + 1];
        }
        DrainKeeps(o.s, applies, now);
      }
    }
  }

  /** The chain does not depend on how far the manager is behind. */
  lemma ChainedElsewhere(s: Ledger, t: Ledger)
    requires Chained(s)
    requires t == s.(state := t.state, largest := t.largest, buffer := t.buffer, tasks := t.tasks, halted := t.halted)
    ensures Chained(t)
  {}

  lemma RecvExtValKeeps(s: Ledger, info: CloseInfo, applies: TxSet -> bool, now: int)
    requires Inv(s) && !s.halted && now >= 0
    ensures Inv(RecvExtVal(s, info, applies, now))
  {
    if s.state == Syncing {
      AppendKeeps(s.buffer, info);
    } else if NextSeq(s) == info.index {
      CloseKeeps(s, info, applies, now);
    }
  }

  /** A gap is always real: the task given to the downloader is not empty, and it covers
      everything between the last closed ledger and the one that was received. */
  lemma GapIsDownloaded(s: Ledger, info: CloseInfo, applies: TxSet -> bool, now: int)
    requires Inv(s) && !s.halted && s.state != Syncing && info.index > NextSeq(s)
    ensures s.largest + 1 <= NextSeq(s) <= info.index - 1
    ensures RecvExtVal(s, info, applies, now)
            == s.(state := Syncing, buffer := [info], largest := info.index - 1,
                  tasks := s.tasks + [Range(s.largest + 1, info.index - 1)])
  {}

  lemma DownloadedKeeps(s: Ledger, info: CloseInfo, applies: TxSet -> bool, now: int)
    requires Inv(s) && !s.halted && now >= 0
    ensures Inv(Downloaded(s, info, applies, now))
  {
    CloseKeeps(s, info, applies, now);
    hide Chained, Close, Drain;
    var t := Close(s, info, applies, now).s;
    if !t.halted && t.buffer != [] && NextSeq(t) == t.buffer[0].index {
      DrainKeeps(t, applies, now);
      ChainedElsewhere(Drain(t, applies, now).s, Downloaded(s, info, applies, now));
    }
  }

  /** The checkpoint passes every check of the recovery and brings back the same tip. */
  lemma CheckpointRecovers(s: Ledger, now: int)
    requires Inv(s) && s.closeTime <= now
    ensures var r := Recover(Restarted(s), now);
            && r.Some? && Inv(r.value) && r.value.state == NotSynced
            && r.value.curr == s.curr && r.value.currHash == s.currHash && r.value.headers == s.headers
            && r.value.prev == s.prev && r.value.prevHash == s.prevHash && r.value.count == s.count
            && NextSeq(r.value) == NextSeq(s)
  {}

  /******* Catching up *******/

  /** The header that closing a ledger with this information writes. */
  function HeaderOf(info: CloseInfo): Header {
    Header(info.index, info.txset.prev, Some(info.txset), info.value)
  }

  /** What the network agreed on at index i: decodable, for its own transaction set, and followed
      by a transaction set that names the header it makes. */
  predicate AgreedAt(chain: nat -> CloseInfo, i: nat) {
    && chain(i).index == i
    && chain(i).value.Agreed? && chain(i).value.txset == chain(i).txset
    && chain(i + 1).txset.prev == KeyOf(HeaderOf(chain(i)))
  }

  /** From the second ledger on; the first one is genesis, which nobody agreed on. */
  ghost predicate AgreedChain(chain: nat -> CloseInfo, applies: TxSet -> bool) {
    forall i: nat {:trigger AgreedAt(chain, i)} :: i >= 2 ==> AgreedAt(chain, i) && applies(chain(i).txset)
  }

  /** The ledger is a part of the agreed chain, and so is what it has buffered. */
  ghost predicate OnChain(s: Ledger, chain: nat -> CloseInfo) {
    && s.currHash == chain(NextSeq(s)).txset.prev
    && forall k :: 0 <= k < |s.buffer| ==> s.buffer[k] == chain(s.buffer[k].index)
  }

  ghost predicate Holds(s: Ledger, chain: nat -> CloseInfo, from: nat, end: nat) {
    forall i: nat :: from <= i < end ==> i in s.headers && s.headers[i] == HeaderOf(chain(i))
  }

  lemma CloseOnChain(s: Ledger, chain: nat -> CloseInfo, applies: TxSet -> bool, now: int, from: nat)
    requires Chained(s) && !s.halted && OnChain(s, chain)
    requires AgreedAt(chain, NextSeq(s)) && applies(chain(NextSeq(s)).txset)
    requires Holds(s, chain, from, NextSeq(s))
    ensures var o := Close(s, chain(NextSeq(s)), applies, now);
            && o.result == Closed && !o.s.halted && Chained(o.s) && OnChain(o.s, chain)
            && NextSeq(o.s) == NextSeq(s) + 1 && Holds(o.s, chain, from, NextSeq(o.s))
  {
    CloseKeeps(s, chain(NextSeq(s)), applies, now);
  }

  lemma {:induction false} DrainOnChain(s: Ledger, chain: nat -> CloseInfo, applies: TxSet -> bool, now: int, from: nat)
    requires Chained(s) && !s.halted && OnChain(s, chain) && Consecutive(s.buffer)
    requires s.buffer != [] ==> s.buffer[0].index == NextSeq(s)
    requires AgreedChain(chain, applies)
    requires Holds(s, chain, from, NextSeq(s))
    ensures var o := Drain(s, applies, now);
            && o.result == Closed && !o.s.halted && NextSeq(o.s) == NextSeq(s) + |s.buffer|
            && OnChain(o.s, chain) && Holds(o.s, chain, from, NextSeq(o.s))
    decreases |s.buffer|
  {
    if s.buffer != [] {
      var t := s.(buffer := s.buffer[1..]);
      assert Chained(t) && NextSeq(t) >= 2;
      assert AgreedAt(chain, NextSeq(t)) && s.buffer[0] == chain(NextSeq(t));
      hide AgreedAt, ChainOf, Close;
      CloseOnChain(t, chain, applies, now, from);
      CloseKeeps(t, s.buffer[0], applies, now);
      var o := Close(t, s.buffer[0], applies, now);
      assert Consecutive(o.s.buffer) by {
        assert forall i :: 0 <= i < |s.buffer| - 1 ==> s.buffer[1..][i] == s.buffer[i + 1];
      }
      DrainOnChain(o.s, chain, applies, now, from);
    }
  }

  /** The manager takes the agreed ledgers from..to, in this order, from the downloader. */
  function Feed(s: Ledger, chain: nat -> CloseInfo, from: nat, end: nat, applies: TxSet -> bool, clock: nat -> int): Ledger
    decreases end - from
  {
    if from >= end then s
    else Feed(Downloaded(s, chain(from), applies, clock(from)), chain, from + 1, end, applies, clock)
  }

  lemma FeedOne(s: Ledger, chain: nat -> CloseInfo, from: nat, end: nat, applies: TxSet -> bool, clock: nat -> int)
    requires from < end
    ensures var t := Downloaded(s, chain(from), applies, clock(from));
            && Feed(s, chain, from, end, applies, clock) == Feed(t, chain, from + 1, end, applies, clock)
            && (from + 1 == end ==> Feed(s, chain, from, end, applies, clock) == t)
  {}

  lemma BehindBuffer(s: Ledger, chain: nat -> CloseInfo, applies: TxSet -> bool, from: nat)
    requires Inv(s) && !s.halted && s.state == Syncing && AgreedChain(chain, applies) && from >= 2
    ensures s.buffer != [] && NextSeq(s) < s.buffer[0].index && chain(from).index == from
  {
    assert AgreedAt(chain, from);
  }

  lemma OldIsIgnored(s: Ledger, info: CloseInfo, applies: TxSet -> bool, now: int)
    requires Inv(s) && !s.halted && s.state == Syncing && info.index < NextSeq(s)
    ensures Downloaded(s, info, applies, now) == s
  {}

  lemma NextIsTaken(s: Ledger, chain: nat -> CloseInfo, start: nat, applies: TxSet -> bool, now: int)
    requires Inv(s) && !s.halted && s.state == Syncing && OnChain(s, chain) && now >= 0
    requires Holds(s, chain, start, NextSeq(s)) && AgreedChain(chain, applies)
    ensures var t := Downloaded(s, chain(NextSeq(s)), applies, now);
            && Inv(t) && !t.halted && OnChain(t, chain) && Holds(t, chain, start, NextSeq(t))
            && if NextSeq(s) + 1 < s.buffer[0].index
               then t.state == Syncing && t.buffer == s.buffer && NextSeq(t) == NextSeq(s) + 1
               else t.state == Synced && t.buffer == [] && NextSeq(t) == s.buffer[0].index + |s.buffer|
  {
    var n := NextSeq(s);
    assert n >= 2;
    assert AgreedAt(chain, n) && chain(n).index == n;
    DownloadedKeeps(s, chain(n), applies, now);
    CloseKeeps(s, chain(n), applies, now);
    CloseOnChain(s, chain, applies, now, start);
    assert s.currHash != NoKey;
    hide AgreedAt, AgreedChain, Chained, Close, Drain;
    var u := Close(s, chain(n), applies, now).s;
    if NextSeq(u) == u.buffer[0].index {
      DrainOnChain(u, chain, applies, now, start);
    }
  }

  /**
   A manager that is out of sync catches up. The ledgers of its last download task, old ones
   included, bring it to the buffer; the buffer is closed entry by entry; and the manager is
   synced, with every header of the agreed chain up to the end of the buffer.
   */
  lemma {:induction false} CatchesUp(s: Ledger, chain: nat -> CloseInfo, start: nat, from: nat,
                                     applies: TxSet -> bool, clock: nat -> int)
    requires Inv(s) && !s.halted && s.state == Syncing && OnChain(s, chain)
    requires 2 <= from <= NextSeq(s) && Holds(s, chain, start, NextSeq(s))
    requires AgreedChain(chain, applies) && forall i: nat :: clock(i) >= 0
    ensures var t := Feed(s, chain, from, s.buffer[0].index, applies, clock);
            && Inv(t) && !t.halted && t.state == Synced && t.buffer == []
            && NextSeq(t) == s.buffer[0].index + |s.buffer|
            && OnChain(t, chain) && Holds(t, chain, start, NextSeq(t))
    decreases s.buffer[0].index - from
  {
    hide *;
    BehindBuffer(s, chain, applies, from);
    FeedOne(s, chain, from, s.buffer[0].index, applies, clock);
    if from < NextSeq(s) {
      OldIsIgnored(s, chain(from), applies, clock(from));
      CatchesUp(s, chain, start, from + 1, applies, clock);
    } else {
      NextIsTaken(s, chain, start, applies, clock(from));
      var t := Downloaded(s, chain(from), applies, clock(from));
      if NextSeq(s) + 1 < s.buffer[0].index {
        CatchesUp(t, chain, start, from + 1, applies, clock);
      }
    }
  }

  /******* One chain *******/

  /** A chain is determined by the key of its last header. */
  lemma {:induction false} KeyFixesChain(a: map<nat, Header>, b: map<nat, Header>, n: nat)
    requires ChainOf(a, n) && ChainOf(b, n) && n >= 1 && KeyOf(a[n]) == KeyOf(b[n])
    ensures a == b
    decreases n
  {
    forall i | 1 <= i <= n ensures a[i] == b[i] {
      KeyFixesHeader(a, b, n, i);
    }
  }

  /** Two managers that hold the same current hash hold the same ledgers, all the way back. */
  lemma SameTipSameLedgers(s: Ledger, t: Ledger)
    requires Inv(s) && Inv(t) && s.currHash == t.currHash
    ensures s.headers == t.headers && s.curr == t.curr && s.prev == t.prev && s.count == t.count
  {
    var n := s.curr.value.seqNum;
    assert Linked(s.headers, n) && Linked(t.headers, n);
    KeyFixesChain(s.headers, t.headers, n);
  }

  lemma {:induction false} KeyFixesHeader(a: map<nat, Header>, b: map<nat, Header>, n: nat, i: nat)
    requires ChainOf(a, n) && ChainOf(b, n) && 1 <= i <= n && a[n] == b[n]
    ensures a[i] == b[i]
    decreases n - i
  {
    if i < n {
      KeyFixesHeader(a, b, n, i + 1);
      assert Linked(a, i + 1) && Linked(b, i + 1);
    }
  }

  /******* Runs *******/

  datatype Event =
    | ExtVal(info: CloseInfo, applies: TxSet -> bool, now: int)
    | Ready(info: CloseInfo, applies: TxSet -> bool, now: int)
    | Reboot(now: int)

  /** The clock does not move back. */
  predicate Timely(s: Ledger, now: int) {
    now >= s.closeTime && now >= 0
  }

  function After(s: Ledger, e: Event): Ledger {
    match e
    case ExtVal(info, applies, now) => if s.halted then s else RecvExtVal(s, info, applies, now)
    case Ready(info, applies, now) => if s.halted then s else Downloaded(s, info, applies, now)
    case Reboot(now) =>
      var r := Recover(Restarted(s), now);
      if r.Some? then r.value else Restarted(s).(halted := true)
  }

  ghost predicate Run(states: seq<Ledger>, events: seq<Event>, start: int) {
    && |states| == |events| + 1 && start >= 0
    && states[0] == Genesis(Empty, start)
    && forall k :: 0 <= k < |events| ==> Timely(states[k], events[k].now) && states[k + 1] == After(states[k], events[k])
  }

  /** On every run, restarts included, the headers form a chain from genesis with the tip in the
      checkpoint, and the buffer and the download tasks leave no gap. */
  lemma {:induction false} RunKeeps(states: seq<Ledger>, events: seq<Event>, start: int, k: nat)
    requires Run(states, events, start) && k < |states|
    ensures Inv(states[k])
  {
    if k > 0 {
      RunKeeps(states, events, start, k - 1);
      var s := states[k - 1];
      match events[k - 1]
      case ExtVal(info, applies, now) => if !s.halted { RecvExtValKeeps(s, info, applies, now); }
      case Ready(info, applies, now) => if !s.halted { DownloadedKeeps(s, info, applies, now); }
      case Reboot(now) => CheckpointRecovers(s, now);
    }
  }

  /******* Being synced *******/

  /** A value that is the next one, on the current hash, for its own set, and whose set can be applied. */
  predicate IsNext(s: Ledger, info: CloseInfo, applies: TxSet -> bool) {
    && info.index == NextSeq(s) && info.txset.prev == s.currHash
    && info.value.Agreed? && info.value.txset == info.txset && applies(info.txset)
  }

  /** Whatever a manager was that is not waiting for a download, such a value leaves it synced, one ledger
      further, with the header of just this value. */
  lemma NextValueSyncs(s: Ledger, info: CloseInfo, applies: TxSet -> bool, now: int)
    requires Inv(s) && !s.halted && s.state != Syncing && IsNext(s, info, applies) && now >= 0
    ensures var t := RecvExtVal(s, info, applies, now);
            && Inv(t) && !t.halted && t.state == Synced && t.largest == info.index && t.closeTime == now
            && t.headers == s.headers[info.index := HeaderOf(info)] && NextSeq(t) == NextSeq(s) + 1
            && t.buffer == [] && t.tasks == s.tasks
  {
    RecvExtValKeeps(s, info, applies, now);
    assert s.currHash != NoKey;
  }

  /** And only such a value is closed: any other at this index changes nothing but whether the process runs. */
  lemma OtherValueCloses(s: Ledger, info: CloseInfo, applies: TxSet -> bool, now: int)
    requires Inv(s) && !s.halted && s.state != Syncing && info.index == NextSeq(s) && !IsNext(s, info, applies)
    ensures var t := RecvExtVal(s, info, applies, now);
            t == s.(halted := t.halted) && (t.halted <==> info.txset.prev != s.currHash)
  {
    assert s.currHash != NoKey;
  }

  /** A downloaded ledger for the next index that is not on the current hash stops the process. */
  lemma ForkStops(s: Ledger, info: CloseInfo, applies: TxSet -> bool, now: int)
    requires Inv(s) && !s.halted && info.index == NextSeq(s) && info.txset.prev != s.currHash
    ensures Downloaded(s, info, applies, now) == s.(halted := true)
  {
    assert s.currHash != NoKey;
  }

  /** The event closes the next ledger in the normal case. */
  predicate ClosesNext(s: Ledger, e: Event) {
    e.ExtVal? && s.state != Syncing && IsNext(s, e.info, e.applies)
  }

  /** The event brings the last ledger that was missing before the buffer. */
  predicate BringsLast(s: Ledger, e: Event) {
    e.Ready? && s.state == Syncing && s.buffer != [] && IsNext(s, e.info, e.applies) && NextSeq(s) + 1 == s.buffer[0].index
  }

  /** The event is a value beyond the next one, when nothing is being downloaded. */
  predicate MeetsGap(s: Ledger, e: Event) {
    e.ExtVal? && s.state != Syncing && e.info.index > NextSeq(s)
  }

  /** What one event makes of the state of a manager. */
  function StateAfter(s: Ledger, e: Event): SyncState {
    if e.Reboot? then NotSynced
    else if ClosesNext(s, e) || BringsLast(s, e) then Synced
    else if MeetsGap(s, e) then Syncing
    else s.state
  }

  lemma EventSyncs(s: Ledger, e: Event)
    requires Inv(s) && !s.halted && Timely(s, e.now) && !After(s, e).halted
    ensures After(s, e).state == StateAfter(s, e)
  {
    match e
    case ExtVal(info, applies, now) =>
      if s.state != Syncing && info.index == NextSeq(s) {
        if IsNext(s, info, applies) {
          NextValueSyncs(s, info, applies, now);
        } else {
          OtherValueCloses(s, info, applies, now);
        }
      } else if MeetsGap(s, e) {
        GapIsDownloaded(s, info, applies, now);
      }
    case Ready(info, applies, now) => ReadySyncs(s, info, applies, now);
    case Reboot(now) => CheckpointRecovers(s, now);
  }

  lemma ReadySyncs(s: Ledger, info: CloseInfo, applies: TxSet -> bool, now: int)
    requires Inv(s) && !s.halted && now >= 0 && !Downloaded(s, info, applies, now).halted
    ensures Downloaded(s, info, applies, now).state == StateAfter(s, Ready(info, applies, now))
  {
    CloseKeeps(s, info, applies, now);
    ClosesUnlessRefused(s, info, applies, now);
    assert s.currHash != NoKey;
    hide Close, Drain, Chained;
  }

  /** Since time k nothing has restarted. */
  predicate NoReboot(events: seq<Event>, k: nat, m: nat) {
    forall j :: k <= j < m && j < |events| ==> !events[j].Reboot?
  }

  /** The manager was synced at time i by an event, and has met no gap since. */
  ghost predicate SyncedSince(states: seq<Ledger>, events: seq<Event>, i: nat, m: nat)
    requires i < m <= |events| && |states| == |events| + 1
  {
    && (ClosesNext(states[i], events[i]) || BringsLast(states[i], events[i]))
    && forall j :: i < j < m ==> !MeetsGap(states[j], events[j])
  }

  /**
   On every run, from any time at which a manager is not synced, such as after a restart, and as long as it does
   not restart: it is synced if and only if since then it has closed the next ledger in the normal case, or got
   the last one that was missing, and has met no gap after that.
   */
  lemma {:induction false} SyncedExactly(states: seq<Ledger>, events: seq<Event>, start: int, k: nat, m: nat)
    requires Run(states, events, start) && k <= m < |states| && NoReboot(events, k, m)
    requires states[k].state != Synced && !states[m].halted
    ensures states[m].state == Synced <==> exists i: nat :: k <= i < m && SyncedSince(states, events, i, m)
    decreases m
  {
    if k < m {
      var n := m - 1;
      RunKeeps(states, events, start, n);
      assert states[m] == After(states[n], events[n]) && !events[n].Reboot?;
      assert !states[n].halted;
      SyncedExactly(states, events, start, k, n);
      EventSyncs(states[n], events[n]);
      hide Run, After, Inv, ClosesNext, BringsLast, MeetsGap;
      LastSync(states, events, k, n, m);
    }
  }

  lemma LastSync(states: seq<Ledger>, events: seq<Event>, k: nat, n: nat, m: nat)
    requires |states| == |events| + 1 && k <= n < |events| && m == n + 1
    ensures (exists i: nat :: k <= i < m && SyncedSince(states, events, i, m)) <==>
              || ClosesNext(states[n], events[n]) || BringsLast(states[n], events[n])
              || (!MeetsGap(states[n], events[n]) && exists i: nat :: k <= i < n && SyncedSince(states, events, i, n))
  {
    hide ClosesNext, BringsLast, MeetsGap;
    if ClosesNext(states[n], events[n]) || BringsLast(states[n], events[n]) {
      assert SyncedSince(states, events, n, m);
    }
    if !MeetsGap(states[n], events[n]) && exists i: nat :: k <= i < n && SyncedSince(states, events, i, n) {
      var i: nat :| k <= i < n && SyncedSince(states, events, i, n);
      assert SyncedSince(states, events, i, m);
    }
    if exists i: nat :: k <= i < m && SyncedSince(states, events, i, m) {
      var i: nat :| k <= i < m && SyncedSince(states, events, i, m);
      if i < n {
        assert SyncedSince(states, events, i, n);
      }
    }
  }
}
