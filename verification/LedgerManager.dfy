/**
 The ledger manager, its buffer and its downloader as objects. Every method is proved equal to the
 function of modules Ledgers and Downloads that specifies it.
 */
module LedgerManagers {
  import opened Common
  import L = Ledgers
  import D = Downloads

  class CloseInfoBuffer {
    var infos: seq<L.CloseInfo>

    constructor ()
      ensures infos == []
    {
      infos := [];
    }

    method Size() returns (n: nat)
      ensures n == |infos|
    {
      n := |infos|;
    }

    method Clear()
      modifies this
      ensures infos == []
    {
      infos := [];
    }

    method Append(info: L.CloseInfo)
      modifies this
      ensures infos == L.Append(old(infos), info)
    {
      if |infos| > 0 {
        var last := infos[|infos| - 1];
        if last.index + 1 != info.index {
          return;
        }
      }
      infos := infos + [info];
    }

    method PeekHead() returns (head: Option<L.CloseInfo>)
      ensures head.None? <==> infos == []
      ensures head.Some? ==> [head.value] <= infos
    {
      head := if |infos| == 0 then None else Some(infos[0]);
    }

    method PopHead() returns (head: Option<L.CloseInfo>)
      modifies this
      ensures if old(infos) == [] then head == None && infos == []
              else head.Some? && old(infos) == [head.value] + infos
    {
      if |infos| == 0 {
        return None;
      }
      head := Some(infos[0]);
      infos := infos[1..];
    }
  }

  class Downloader {
    var nextIndex: nat
    var infoMap: map<nat, L.CloseInfo>
    var readyChan: seq<L.CloseInfo>
    var rangeChan: seq<L.Range>

    ghost function St(): D.Download
      reads this
    {
      D.Download(nextIndex, infoMap, readyChan, rangeChan)
    }

    constructor ()
      ensures St() == D.Idle
    {
      nextIndex, infoMap, readyChan, rangeChan := 0, map[], [], [];
    }

    /** A range that is not empty is queued; an empty one is an error. */
    method AddTask(start: nat, end: nat) returns (ok: bool)
      modifies this
      ensures ok <==> start <= end
      ensures St() == if ok then old(St()).(tasks := old(rangeChan) + [L.Range(start, end)]) else old(St())
    {
      if start > end {
        return false;
      }
      rangeChan := rangeChan + [L.Range(start, end)];
      ok := true;
    }

    /** One turn of the reordering loop. */
    method Reorder(info: L.CloseInfo)
      modifies this
      ensures St() == D.Arrive(old(St()), info)
    {
      infoMap := infoMap[info.index := info];
      ghost var whole := D.Flush(St());
      while nextIndex in infoMap
        invariant D.Flush(St()) == whole
        decreases D.Ahead(St())
      {
        ghost var before := St();
        readyChan := readyChan + [infoMap[nextIndex]];
        nextIndex := nextIndex + 1;
        assert before.next in D.Ahead(before) && before.next !in D.Ahead(St());
      }
    }

    /** One task: the next index is set, and what the workers bring is put in order until all of them
        are done or one of them ends the process. */
    method RunTask(r: L.Range, replies: seq<D.Reply>) returns (died: bool)
      modifies this
      ensures died <==> exists k :: 0 <= k < |replies| && replies[k].Dies?
      ensures !died ==> St() == D.ArriveAll(D.Begin(old(St()), r), D.Infos(replies))
    {
      nextIndex := r.start;
      ghost var whole := D.ArriveAll(St(), D.Infos(replies));
      for i := 0 to |replies|
        invariant forall k :: 0 <= k < i ==> !replies[k].Dies?
        invariant D.ArriveAll(St(), D.Infos(replies[i..])) == whole
      {
        assert replies[i..][0] == replies[i] && replies[i..][1..] == replies[i + 1..];
        match replies[i]
        case Dies =>
          return true;
        case Nothing =>
          assert D.Infos(replies[i..]) == D.Infos(replies[i + 1..]);
        case Got(info) =>
          ghost var rest := D.Infos(replies[i + 1..]);
          assert D.Infos(replies[i..]) == [info] + rest && ([info] + rest)[1..] == rest;
          Reorder(info);
      }
      died := false;
    }
  }

  class Manager {
    var ledgerState: L.SyncState
    var lastCloseTime: int
    var ledgerHeaderCount: int
    var largestConsensusIndex: nat
    var prevLedgerHeader: Option<L.Header>
    var prevLedgerHeaderHash: L.Key
    var currLedgerHeader: Option<L.Header>
    var currLedgerHeaderHash: L.Key
    var headers: map<nat, L.Header>
    var checkpoint: Option<L.Checkpoint>
    var halted: bool
    const buffer: CloseInfoBuffer
    const downloader: Downloader

    ghost function St(): L.Ledger
      reads this, buffer, downloader
    {
      L.Ledger(ledgerState, lastCloseTime, ledgerHeaderCount, largestConsensusIndex,
               prevLedgerHeader, prevLedgerHeaderHash, currLedgerHeader, currLedgerHeaderHash,
               headers, checkpoint, buffer.infos, downloader.rangeChan, halted)
    }

    /** A manager over an existing database. */
    constructor (headers: map<nat, L.Header>, checkpoint: Option<L.Checkpoint>)
      ensures fresh(buffer) && fresh(downloader)
      ensures St() == L.Empty.(headers := headers, checkpoint := checkpoint)
    {
      ledgerState, lastCloseTime, ledgerHeaderCount, largestConsensusIndex := L.NotSynced, 0, 0, 0;
      prevLedgerHeader, prevLedgerHeaderHash, currLedgerHeader, currLedgerHeaderHash := None, L.NoKey, None, L.NoKey;
      this.headers, this.checkpoint, halted := headers, checkpoint, false;
      buffer := new CloseInfoBuffer();
      downloader := new Downloader();
    }

    method NextLedgerHeaderSeq() returns (n: nat)
      ensures n == L.NextSeq(St())
    {
      n := if currLedgerHeader.None? then 1 else currLedgerHeader.value.seqNum + 1;
    }

    method SaveCheckpoint()
      modifies this
      ensures St() == old(St()).(checkpoint := Some(L.Saved(old(St()))))
    {
      checkpoint := Some(L.Checkpoint(lastCloseTime, ledgerHeaderCount, 0,
                                      prevLedgerHeader, prevLedgerHeaderHash, currLedgerHeader, currLedgerHeaderHash));
    }

    method AdvanceLedger(seqNum: nat, prev: L.Key, txset: Option<L.TxSet>, value: L.Value, now: int)
      modifies this
      ensures St() == L.Advance(old(St()), seqNum, prev, txset, value, now)
    {
      var header := L.Header(seqNum, prev, txset, value);
      headers := headers[seqNum := header];
      prevLedgerHeader, prevLedgerHeaderHash := currLedgerHeader, currLedgerHeaderHash;
      currLedgerHeader, currLedgerHeaderHash := Some(header), L.KeyOf(header);
      ledgerHeaderCount := ledgerHeaderCount + 1;
      lastCloseTime := now;
      SaveCheckpoint();
    }

    /** The checks of closeLedger that come before the transactions. */
    method CheckInfo(info: L.CloseInfo) returns (refused: Option<L.CloseResult>)
      modifies this
      ensures refused == L.Refusal(old(St()), info)
      ensures St() == old(St()).(halted := old(halted) || refused == Some(L.Stopped))
    {
      if currLedgerHeader.Some? && currLedgerHeader.value.seqNum + 1 != info.index {
        return Some(L.SeqMismatch);
      }
      if currLedgerHeader.Some? && currLedgerHeaderHash != info.txset.prev {
        halted := true;
        return Some(L.Stopped);
      }
      if !info.value.Agreed? {
        return Some(L.BadValue);
      }
      if info.value.txset != info.txset {
        return Some(L.BadValue);
      }
      refused := None;
    }

    method CloseLedger(info: L.CloseInfo, applies: L.TxSet -> bool, now: int) returns (result: L.CloseResult)
      modifies this
      ensures L.Outcome(St(), result) == L.Close(old(St()), info, applies, now)
    {
      L.ClosesUnlessRefused(St(), info, applies, now);
      var refused := CheckInfo(info);
      if refused.Some? {
        return refused.value;
      }
      if !applies(info.txset) {
        return L.TxsFailed;
      }
      AdvanceLedger(info.index, info.txset.prev, Some(info.txset), info.value, now);
      result := L.Closed;
    }

    method RecvExtVal(info: L.CloseInfo, applies: L.TxSet -> bool, now: int)
      modifies this, buffer, downloader
      ensures St() == L.RecvExtVal(old(St()), info, applies, now)
    {
      if ledgerState == L.Syncing {
        buffer.Append(info);
        return;
      }
      var next := NextLedgerHeaderSeq();
      if next == info.index {
        if currLedgerHeaderHash == L.NoKey || currLedgerHeaderHash != info.txset.prev {
          halted := true;
          return;
        }
        var result := CloseLedger(info, applies, now);
        if result != L.Closed {
          return;
        }
        largestConsensusIndex := info.index;
        ledgerState := L.Synced;
      } else if info.index > next {
        buffer.Append(info);
        if info.index <= largestConsensusIndex {
          return;
        }
        var ok := downloader.AddTask(largestConsensusIndex + 1, info.index - 1);
        if !ok {
          return;
        }
        largestConsensusIndex := info.index - 1;
        ledgerState := L.Syncing;
      }
    }

    /** The loop that empties the buffer: the result is Closed when it was emptied. */
    method DrainBuffer(applies: L.TxSet -> bool, now: int) returns (result: L.CloseResult)
      modifies this, buffer
      ensures L.Outcome(St(), result) == L.Drain(old(St()), applies, now)
    {
      result := L.Closed;
      var size := buffer.Size();
      while size > 0
        invariant result == L.Closed && size == |buffer.infos|
        invariant L.Drain(St(), applies, now) == L.Drain(old(St()), applies, now)
        decreases size
      {
        var head := buffer.PopHead();
        result := CloseLedger(head.value, applies, now);
        if result != L.Closed {
          return;
        }
        size := buffer.Size();
      }
    }

    /** The handler of a ledger taken from the downloader. */
    method HandleReady(info: L.CloseInfo, applies: L.TxSet -> bool, now: int)
      modifies this, buffer
      ensures St() == L.Downloaded(old(St()), info, applies, now)
    {
      if currLedgerHeaderHash == L.NoKey {
        halted := true;
        return;
      }
      var result := CloseLedger(info, applies, now);
      var head := buffer.PeekHead();
      if halted || head.None? {
        return;
      }
      var next := NextLedgerHeaderSeq();
      if next != head.value.index {
        return;
      }
      result := DrainBuffer(applies, now);
      if halted {
        return;
      }
      buffer.Clear();
      ledgerState := L.Synced;
    }

    method CreateGenesisLedger(now: int)
      modifies this
      ensures St() == L.Genesis(old(St()), now)
    {
      ledgerState := L.Synced;
      AdvanceLedger(1, L.NoKey, None, L.NoValue, now);
    }

    /** On an error only the state NotSynced is set. */
    method RecoverFromCheckpoint(now: int) returns (ok: bool)
      modifies this
      ensures ok == L.Recover(old(St()), now).Some?
      ensures ok ==> St() == L.Recover(old(St()), now).value
      ensures !ok && old(checkpoint).Some? ==> St() == old(St()).(state := L.NotSynced)
      ensures !ok && old(checkpoint).None? ==> St() == old(St())
    {
      if checkpoint.None? {
        return false;
      }
      ledgerState := L.NotSynced;
      var ck := checkpoint.value;
      if ck.closeTime < 0 || ck.closeTime > now {
        return false;
      }
      if ck.count < 0 {
        return false;
      }
      if ck.prev.None? && ck.count != 1 {
        return false;
      }
      if ck.largest > 1 {
        if ck.prev.None? || L.KeyOf(ck.prev.value) != ck.prevHash {
          return false;
        }
      }
      if ck.curr.None? || L.KeyOf(ck.curr.value) != ck.currHash {
        return false;
      }
      if ck.curr.value.prev != ck.prevHash {
        return false;
      }
      lastCloseTime, ledgerHeaderCount := ck.closeTime, ck.count;
      prevLedgerHeader, prevLedgerHeaderHash := ck.prev, ck.prevHash;
      currLedgerHeader, currLedgerHeaderHash := ck.curr, ck.currHash;
      largestConsensusIndex := ck.curr.value.seqNum;
      ok := true;
    }
  }
}
