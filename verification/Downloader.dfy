/**
 Putting downloaded ledgers in order (ledger/downloader.go).

 A task sets the next index. Ledgers arrive in any order; each arrival stores its ledger and then
 sends on everything that is contiguous from the next index. Nothing is ever removed from the
 store, so ledgers of earlier tasks are still there when a new task begins.
 */
module Downloads {
  import opened Common
  import opened Ledgers

  /** sent is the history of the ready channel, tasks that of the range channel. */
  datatype Download = Download(next: nat, infos: map<nat, CloseInfo>, sent: seq<CloseInfo>, tasks: seq<Range>)

  const Idle: Download := Download(0, map[], [], [])

  /** The indices that can still be sent. */
  function Ahead(d: Download): set<nat> {
    set i | i in d.infos && i >= d.next
  }

  /** The inner loop of reorder. */
  function Flush(d: Download): Download
    decreases Ahead(d)
  {
    if d.next !in d.infos then d
    else
      var e := d.(sent := d.sent + [d.infos[d.next]], next := d.next + 1);
      assert d.next in Ahead(d) && d.next !in Ahead(e);
      Flush(e)
  }

  function Arrive(d: Download, info: CloseInfo): Download {
    Flush(d.(infos := d.infos[info.index := info]))
  }

  function ArriveAll(d: Download, arrivals: seq<CloseInfo>): Download
    decreases |arrivals|
  {
    if arrivals == [] then d else ArriveAll(Arrive(d, arrivals[0]), arrivals[1..])
  }

  function Begin(d: Download, r: Range): Download {
    d.(next := r.start)
  }

  predicate Keyed(d: Download) {
    forall i :: i in d.infos ==> d.infos[i].index == i
  }

  /******* What has been sent since a task began *******/

  /** Since sent had length b and the next index was start, exactly start..next was sent, in order. */
  ghost predicate SentRun(d: Download, b: nat, start: nat) {
    && start <= d.next && |d.sent| == b + (d.next - start)
    && (forall i: nat :: start <= i < d.next ==> i in d.infos)
    && (forall k :: b <= k < |d.sent| ==> d.sent[k].index == start + (k - b))
  }

  lemma {:induction false} FlushSends(d: Download, b: nat, start: nat)
    requires Keyed(d) && SentRun(d, b, start)
    ensures var e := Flush(d);
            && Keyed(e) && SentRun(e, b, start) && e.next !in e.infos
            && e.infos == d.infos && e.tasks == d.tasks && d.sent <= e.sent
    decreases Ahead(d)
  {
    if d.next in d.infos {
      var e := d.(sent := d.sent + [d.infos[d.next]], next := d.next + 1);
      assert d.next in Ahead(d) && d.next !in Ahead(e);
      FlushSends(e, b, start);
    }
  }

  function Indices(arrivals: seq<CloseInfo>): set<nat> {
    set k | 0 <= k < |arrivals| :: arrivals[k].index
  }

  /**
   Whatever the order of the arrivals, what is sent is the longest contiguous run from the start
   of the task among the ledgers that are there, each index once and in ascending order.
   */
  lemma {:induction false} SendsLongestRun(d: Download, arrivals: seq<CloseInfo>, b: nat, start: nat)
    requires Keyed(d) && SentRun(d, b, start)
    ensures var e := ArriveAll(d, arrivals);
            && Keyed(e) && SentRun(e, b, start) && d.sent <= e.sent
            && e.infos.Keys == d.infos.Keys + Indices(arrivals)
            && (arrivals != [] || d.next !in d.infos ==> e.next !in e.infos)
    decreases |arrivals|
  {
    if arrivals != [] {
      var c := d.(infos := d.infos[arrivals[0].index := arrivals[0]]);
      FlushSends(c, b, start);
      SendsLongestRun(Arrive(d, arrivals[0]), arrivals[1..], b, start);
      assert Indices(arrivals) == {arrivals[0].index} + Indices(arrivals[1..]) by {
        assert forall k :: 0 < k < |arrivals| ==> arrivals[k] == arrivals[1..][k - 1];
        assert forall k :: 0 <= k < |arrivals| - 1 ==> arrivals[1..][k] == arrivals[k + 1];
      }
    }
  }

  /** Two orders, or two selections with the same indices, get equally far. */
  lemma OrderDoesNotMatter(d: Download, r: Range, one: seq<CloseInfo>, two: seq<CloseInfo>)
    requires Keyed(d) && one != [] && Indices(one) == Indices(two)
    ensures ArriveAll(Begin(d, r), one).next == ArriveAll(Begin(d, r), two).next
  {
    assert one[0].index in Indices(two);
    SendsLongestRun(Begin(d, r), one, |d.sent|, r.start);
    SendsLongestRun(Begin(d, r), two, |d.sent|, r.start);
  }

  /** Once every ledger of the task has arrived, all of them have been sent. */
  lemma WholeTaskIsSent(d: Download, r: Range, arrivals: seq<CloseInfo>)
    requires Keyed(d) && r.start <= r.end
    requires forall i: nat :: r.start <= i <= r.end ==> i in d.infos || i in Indices(arrivals)
    requires arrivals != []
    ensures var e := ArriveAll(Begin(d, r), arrivals);
            e.next > r.end && |e.sent| >= |d.sent| + (r.end + 1 - r.start)
  {
    SendsLongestRun(Begin(d, r), arrivals, |d.sent|, r.start);
  }

  /******* Contents *******/

  /** What is stored, and what was sent since sent had length b, is what the chain has at its index. */
  ghost predicate Truthful(d: Download, chain: nat -> CloseInfo, b: nat) {
    && (forall i :: i in d.infos ==> d.infos[i] == chain(i))
    && (forall k :: b <= k < |d.sent| ==> d.sent[k] == chain(d.sent[k].index))
  }

  lemma {:induction false} FlushIsTruthful(d: Download, chain: nat -> CloseInfo, b: nat)
    requires Truthful(d, chain, b) && Keyed(d)
    ensures Truthful(Flush(d), chain, b)
    decreases Ahead(d)
  {
    if d.next in d.infos {
      var e := d.(sent := d.sent + [d.infos[d.next]], next := d.next + 1);
      assert d.next in Ahead(d) && d.next !in Ahead(e);
      FlushIsTruthful(e, chain, b);
    }
  }

  /******* The downloader and the ledger manager together *******/

  /** The manager takes ledgers from the ready channel. */
  function TakeAll(s: Ledger, infos: seq<CloseInfo>, applies: TxSet -> bool, clock: nat -> int): Ledger
    decreases |infos|
  {
    if infos == [] then s
    else TakeAll(Ledgers.Downloaded(s, infos[0], applies, clock(infos[0].index)), infos[1..], applies, clock)
  }

  lemma NextWhenSynced(s: Ledger, chain: nat -> CloseInfo, start: nat, from: nat, applies: TxSet -> bool, now: int)
    requires Inv(s) && !s.halted && s.state == Synced && OnChain(s, chain) && now >= 0
    requires 2 <= from <= NextSeq(s) && Holds(s, chain, start, NextSeq(s)) && AgreedChain(chain, applies)
    ensures var t := Ledgers.Downloaded(s, chain(from), applies, now);
            && Inv(t) && !t.halted && t.state == Synced && OnChain(t, chain) && Holds(t, chain, start, NextSeq(t))
            && NextSeq(t) == if from == NextSeq(s) then NextSeq(s) + 1 else NextSeq(s)
  {
    assert AgreedAt(chain, from);
    DownloadedKeeps(s, chain(from), applies, now);
    if from == NextSeq(s) {
      CloseOnChain(s, chain, applies, now, start);
      CloseKeeps(s, chain(from), applies, now);
    }
  }

  /******* What can be downloaded *******/

  /** What GetLedger puts beside a header: its transaction set, or nil if the peer never stored it. */
  function SetOf(header: Header, stored: set<TxSet>): Option<TxSet> {
    if header.txset.Some? && header.txset.value in stored then header.txset else None
  }

  /** A worker gets a ledger, or nothing that it can use, or its process ends. */
  datatype Reply = Got(info: CloseInfo) | Nothing | Dies

  /** What a worker makes of an answer. It computes the hash of the set before it looks at anything
      else, which ends the process if there is no set. */
  function Query(i: nat, header: Header, txset: Option<TxSet>): Reply {
    if txset.None? then Dies
    else if header.txset != txset then Nothing
    else if !header.value.Agreed? || header.value.txset != txset.value then Nothing
    else Got(CloseInfo(i, header.value, txset.value))
  }

  /** A worker takes a ledger if and only if the set that came with it is the one the header names and the value was
      agreed on for just this set; without a set the process ends. */
  lemma TakesExactly(i: nat, header: Header, txset: Option<TxSet>)
    ensures var r := Query(i, header, txset);
            && (r.Dies? <==> txset.None?)
            && (r.Got? <==> txset.Some? && header.txset == txset && exists time :: header.value == Agreed(txset.value, time))
            && (r.Got? ==> r.info == CloseInfo(i, header.value, txset.value))
  {
    if header.value.Agreed? {
      assert header.value == Agreed(header.value.txset, header.value.time);
    }
  }

  /** The ledgers among what the workers bring, in the order in which it comes. */
  function Infos(replies: seq<Reply>): seq<CloseInfo> {
    if replies == [] then []
    else (if replies[0].Got? then [replies[0].info] else []) + Infos(replies[1..])
  }

  ghost predicate Genuine(info: CloseInfo, chain: nat -> CloseInfo) {
    info.index >= 2 && info == chain(info.index)
  }

  /** The ledgers of a peer are those of the agreed chain. */
  ghost predicate Honest(peer: Ledger, chain: nat -> CloseInfo) {
    Inv(peer) && Holds(peer, chain, 2, NextSeq(peer))
  }

  /** The answer of an honest peer is never refused: it is what the chain has there, or it ends the
      process, exactly if it is about the first ledger or the peer never stored its set. */
  lemma HonestAnswer(peer: Ledger, stored: set<TxSet>, chain: nat -> CloseInfo, applies: TxSet -> bool, i: nat)
    requires Honest(peer, chain) && AgreedChain(chain, applies) && i in peer.headers
    ensures var r := Query(i, peer.headers[i], SetOf(peer.headers[i], stored));
            && (r.Dies? <==> i == 1 || chain(i).txset !in stored)
            && (!r.Dies? ==> r == Got(chain(i)) && Genuine(chain(i), chain))
  {
    assert Linked(peer.headers, i);
    if i >= 2 {
      assert AgreedAt(chain, i);
    }
  }

  /** Without the first ledger of the task nothing is sent, whatever else is there. */
  lemma NothingWithoutTheFirst(d: Download, r: Range, arrivals: seq<CloseInfo>)
    requires Keyed(d) && r.start !in d.infos && r.start !in Indices(arrivals)
    ensures ArriveAll(Begin(d, r), arrivals).sent == d.sent
  {
    SendsLongestRun(Begin(d, r), arrivals, |d.sent|, r.start);
    var e := ArriveAll(Begin(d, r), arrivals);
    assert r.start !in e.infos.Keys && e.next == r.start;
  }

  function LastTask(s: Ledger): Range
    requires s.tasks != []
  {
    s.tasks[|s.tasks|-1]
  }

  /******* A download task *******/

  /** A peer is asked for a ledger; stored are the sets that it has. */
  datatype Ask = Ask(index: nat, peer: Ledger, stored: set<TxSet>)

  /** A peer without the ledger answers with an error. */
  function ReplyTo(a: Ask): Reply {
    if a.index !in a.peer.headers then Nothing
    else Query(a.index, a.peer.headers[a.index], SetOf(a.peer.headers[a.index], a.stored))
  }

  /** What happens while a task runs, in any order: an answer comes in, the manager takes the next ledger
      that is ready, or it receives a value that was externalized. */
  datatype Work = Answer(ask: Ask) | TakeNext | External(info: CloseInfo, now: nat)

  /** The process: its ledger manager, its downloader, and how much of what was sent has been taken. */
  datatype Process = Process(s: Ledger, d: Download, taken: nat)

  function WorkOn(p: Process, w: Work, applies: TxSet -> bool, clock: nat -> int): Process {
    if p.s.halted then p
    else
      match w
      case Answer(a) =>
        (match ReplyTo(a)
         case Got(info) => p.(d := Arrive(p.d, info))
         case Nothing => p
         case Dies => p.(s := p.s.(halted := true)))
      case TakeNext =>
        if p.taken >= |p.d.sent| then p
        else
          var info := p.d.sent[p.taken];
          p.(s := Ledgers.Downloaded(p.s, info, applies, clock(info.index)), taken := p.taken + 1)
      case External(info, now) => p.(s := RecvExtVal(p.s, info, applies, now))
  }

  function WorkOff(p: Process, works: seq<Work>, applies: TxSet -> bool, clock: nat -> int): Process
    decreases |works|
  {
    if works == [] then p else WorkOff(WorkOn(p, works[0], applies, clock), works[1..], applies, clock)
  }

  function TaskStart(s: Ledger, d: Download): Process
    requires s.tasks != []
  {
    Process(s, Begin(d, LastTask(s)), |d.sent|)
  }

  /** The task is worked off, and then the manager takes what is left. */
  function AfterTask(s: Ledger, d: Download, works: seq<Work>, applies: TxSet -> bool, clock: nat -> int): Ledger
    requires s.tasks != []
  {
    var e := WorkOff(TaskStart(s, d), works, applies, clock);
    if e.s.halted || e.taken > |e.d.sent| then e.s else TakeAll(e.s, e.d.sent[e.taken..], applies, clock)
  }

  /** Peers are on the chain, and so are the values that are externalized. */
  ghost predicate HonestWork(w: Work, chain: nat -> CloseInfo) {
    (w.Answer? ==> Honest(w.ask.peer, chain)) && (w.External? ==> Genuine(w.info, chain))
  }

  ghost predicate AllHonest(works: seq<Work>, chain: nat -> CloseInfo) {
    forall k :: 0 <= k < |works| ==> HonestWork(works[k], chain)
  }

  /** Some peer is asked for a ledger whose set it does not have. */
  predicate SetMissing(works: seq<Work>) {
    exists k :: 0 <= k < |works| && works[k].Answer? && ReplyTo(works[k].ask).Dies?
  }

  predicate AnsweredAt(works: seq<Work>, i: nat) {
    exists k :: 0 <= k < |works| && works[k].Answer? && works[k].ask.index == i && i in works[k].ask.peer.headers
  }

  /** Every ledger of the task is asked of somebody who has it. */
  ghost predicate AllAnswered(works: seq<Work>, r: Range) {
    forall i: nat :: r.start <= i <= r.end ==> AnsweredAt(works, i)
  }

  ghost predicate AllGenuine(d: Download, chain: nat -> CloseInfo) {
    Keyed(d) && forall i :: i in d.infos ==> Genuine(d.infos[i], chain)
  }

  /** The manager at the start of a task, and everything that it needs to know about the chain. */
  ghost predicate OutOfSync(s: Ledger, chain: nat -> CloseInfo, applies: TxSet -> bool, clock: nat -> int) {
    && Inv(s) && !s.halted && s.state == Syncing && OnChain(s, chain)
    && AgreedChain(chain, applies) && forall i: nat :: clock(i) >= 0
  }

  /******* On track *******/

  function BufferEnd(s: Ledger): nat
    requires s.buffer != []
  {
    s.buffer[0].index + |s.buffer|
  }

  /**
   Where q, which was s, has got to: it holds the agreed ledgers without a gap, and everything before
   next. Until it is synced for the first time its buffer only grows; from then on it is past the buffer
   it started with.
   */
  ghost predicate OnTrack(q: Ledger, s: Ledger, chain: nat -> CloseInfo, next: nat) {
    && Inv(q) && !q.halted && q.state != NotSynced && OnChain(q, chain)
    && next <= NextSeq(q) && NextSeq(s) <= NextSeq(q) && Holds(q, chain, NextSeq(s), NextSeq(q))
    && s.tasks <= q.tasks && s.buffer != []
    && if q.tasks == s.tasks && q.state == Syncing then s.buffer <= q.buffer else NextSeq(q) >= BufferEnd(s)
  }

  /** It has, in its buffer or closed, everything before e. */
  predicate Reaches(q: Ledger, e: nat) {
    if q.state == Syncing then q.buffer != [] && BufferEnd(q) >= e else NextSeq(q) >= e
  }

  lemma TasksStay(s: Ledger, info: CloseInfo, applies: TxSet -> bool, now: int)
    requires Inv(s) && !s.halted && now >= 0
    ensures Ledgers.Downloaded(s, info, applies, now).tasks == s.tasks
  {
    CloseKeeps(s, info, applies, now);
    hide Chained, Close, Drain;
    var t := Close(s, info, applies, now).s;
    if !t.halted && t.buffer != [] && NextSeq(t) == t.buffer[0].index {
      DrainKeeps(t, applies, now);
    }
  }

  /** Taking the next ledger that was sent, which may be an old one. */
  lemma TakeOnTrack(q: Ledger, s: Ledger, chain: nat -> CloseInfo, next: nat, e: nat, applies: TxSet -> bool, now: int)
    requires OnTrack(q, s, chain, next) && next >= 2 && AgreedChain(chain, applies) && now >= 0
    ensures var t := Ledgers.Downloaded(q, chain(next), applies, now);
            && OnTrack(t, s, chain, next + 1) && t.tasks == q.tasks
            && (Reaches(q, e) ==> Reaches(t, e))
  {
    TasksStay(q, chain(next), applies, now);
    hide Inv, OnChain, AgreedChain, Holds, Ledgers.Downloaded, NextSeq;
    if q.state == Synced {
      NextWhenSynced(q, chain, NextSeq(s), next, applies, now);
    } else {
      BehindBuffer(q, chain, applies, next);
      if next < NextSeq(q) {
        OldIsIgnored(q, chain(next), applies, now);
      } else {
        NextIsTaken(q, chain, NextSeq(s), applies, now);
      }
    }
  }

  /** A value that comes at a gap. */
  predicate IsGap(q: Ledger, info: CloseInfo) {
    q.state == Synced && info.index > NextSeq(q)
  }

  lemma ExtWhenSynced(q: Ledger, chain: nat -> CloseInfo, start: nat, info: CloseInfo, applies: TxSet -> bool, now: int)
    requires Inv(q) && !q.halted && q.state == Synced && OnChain(q, chain) && now >= 0
    requires Genuine(info, chain) && info.index == NextSeq(q) && Holds(q, chain, start, NextSeq(q)) && AgreedChain(chain, applies)
    ensures var t := RecvExtVal(q, info, applies, now);
            && !t.halted && t.state == Synced && t.tasks == q.tasks && t.largest == info.index && OnChain(t, chain)
            && NextSeq(t) == NextSeq(q) + 1 && Holds(t, chain, start, NextSeq(t))
  {
    assert AgreedAt(chain, NextSeq(q)) && q.currHash != NoKey;
    CloseOnChain(q, chain, applies, now, start);
    CloseKeeps(q, info, applies, now);
  }

  /** Receiving a value: a new task is given exactly at a gap, and none of the values that follow on what
      there is comes at one. */
  ghost predicate ExtKeeps(q: Ledger, t: Ledger, s: Ledger, chain: nat -> CloseInfo, next: nat, info: CloseInfo, e: nat) {
    && OnTrack(t, s, chain, next) && q.tasks <= t.tasks && (t.tasks != q.tasks <==> IsGap(q, info))
    && (Reaches(q, e) && info.index <= e ==> !IsGap(q, info) && Reaches(t, if info.index == e then e + 1 else e))
    && (q.state == Syncing ==> t == q.(buffer := t.buffer))
  }

  lemma ExtOnTrack(q: Ledger, s: Ledger, chain: nat -> CloseInfo, next: nat, info: CloseInfo, e: nat,
                   applies: TxSet -> bool, now: int)
    requires OnTrack(q, s, chain, next) && Genuine(info, chain) && AgreedChain(chain, applies) && now >= 0
    ensures ExtKeeps(q, RecvExtVal(q, info, applies, now), s, chain, next, info, e)
  {
    if q.state == Syncing {
      AppendOnTrack(q, s, chain, next, info, e, applies, now);
    } else if info.index == NextSeq(q) {
      NextOnTrack(q, s, chain, next, info, e, applies, now);
    } else if info.index > NextSeq(q) {
      GapOnTrack(q, s, chain, next, info, e, applies, now);
    } else {
      assert RecvExtVal(q, info, applies, now) == q;
      hide Inv, AgreedChain, RecvExtVal;
    }
  }

  lemma AppendOnTrack(q: Ledger, s: Ledger, chain: nat -> CloseInfo, next: nat, info: CloseInfo, e: nat,
                      applies: TxSet -> bool, now: int)
    requires OnTrack(q, s, chain, next) && Genuine(info, chain) && now >= 0 && q.state == Syncing
    ensures ExtKeeps(q, RecvExtVal(q, info, applies, now), s, chain, next, info, e)
  {
    RecvExtValKeeps(q, info, applies, now);
    AppendKeeps(q.buffer, info);
    SyncingAppends(q, chain, info, applies, now);
    hide Inv, Genuine, OnChain, Append, Consecutive;
  }

  lemma NextOnTrack(q: Ledger, s: Ledger, chain: nat -> CloseInfo, next: nat, info: CloseInfo, e: nat,
                    applies: TxSet -> bool, now: int)
    requires OnTrack(q, s, chain, next) && Genuine(info, chain) && AgreedChain(chain, applies) && now >= 0
    requires q.state == Synced && info.index == NextSeq(q)
    ensures ExtKeeps(q, RecvExtVal(q, info, applies, now), s, chain, next, info, e)
  {
    hide Inv, AgreedChain, Genuine, OnChain, Holds, RecvExtVal, NextSeq;
    RecvExtValKeeps(q, info, applies, now);
    ExtWhenSynced(q, chain, NextSeq(s), info, applies, now);
  }

  lemma GapOnTrack(q: Ledger, s: Ledger, chain: nat -> CloseInfo, next: nat, info: CloseInfo, e: nat,
                   applies: TxSet -> bool, now: int)
    requires OnTrack(q, s, chain, next) && Genuine(info, chain) && now >= 0
    requires q.state == Synced && info.index > NextSeq(q)
    ensures ExtKeeps(q, RecvExtVal(q, info, applies, now), s, chain, next, info, e)
  {
    hide Inv, RecvExtVal;
    RecvExtValKeeps(q, info, applies, now);
    GapIsDownloaded(q, info, applies, now);
  }

  lemma SyncingAppends(q: Ledger, chain: nat -> CloseInfo, info: CloseInfo, applies: TxSet -> bool, now: int)
    requires Inv(q) && !q.halted && q.state == Syncing && OnChain(q, chain) && Genuine(info, chain)
    ensures var t := RecvExtVal(q, info, applies, now);
            && OnChain(t, chain) && q.buffer != [] && t.buffer[0] == q.buffer[0]
            && BufferEnd(t) == BufferEnd(q) + if info.index == BufferEnd(q) then 1 else 0
  {}

  /******* Underway *******/

  /**
   While a task runs: the downloader has sent the longest run that has arrived, in order; the manager has
   taken a part of that run and is on track, whether or not its process still runs.
   */
  ghost predicate Underway(p: Process, s: Ledger, chain: nat -> CloseInfo, b: nat, start: nat) {
    && AllGenuine(p.d, chain) && SentRun(p.d, b, start) && Truthful(p.d, chain, b)
    && b <= p.taken <= |p.d.sent|
    && OnTrack(p.s.(halted := false), s, chain, start + (p.taken - b))
    && (start < 2 ==> p.s == s.(buffer := p.s.buffer, halted := p.s.halted))
  }

  lemma ArrivalKeeps(d: Download, info: CloseInfo, chain: nat -> CloseInfo, b: nat, start: nat)
    requires AllGenuine(d, chain) && SentRun(d, b, start) && Truthful(d, chain, b) && Genuine(info, chain)
    ensures var e := Arrive(d, info);
            && AllGenuine(e, chain) && SentRun(e, b, start) && Truthful(e, chain, b)
            && d.sent <= e.sent && e.infos.Keys == d.infos.Keys + {info.index} && e.next !in e.infos
  {
    var c := d.(infos := d.infos[info.index := info]);
    assert Keyed(c) && SentRun(c, b, start) && Truthful(c, chain, b);
    FlushSends(c, b, start);
    FlushIsTruthful(c, chain, b);
  }

  /** What was sent are the entries of the chain from the start of the task, and nothing if that is ledger 1. */
  lemma SentIsRun(d: Download, chain: nat -> CloseInfo, b: nat, start: nat)
    requires AllGenuine(d, chain) && SentRun(d, b, start) && Truthful(d, chain, b)
    ensures forall k :: b <= k < |d.sent| ==> d.sent[k] == chain(start + (k - b)) && d.sent[k].index == start + (k - b)
    ensures start < 2 ==> |d.sent| == b
  {
    if start in d.infos {
      assert Genuine(d.infos[start], chain);
    }
  }

  /** The task meets another gap. */
  predicate GapNow(p: Process, w: Work) {
    !p.s.halted && w.External? && IsGap(p.s, w.info)
  }

  predicate GapMet(p: Process, works: seq<Work>, applies: TxSet -> bool, clock: nat -> int)
    decreases |works|
  {
    works != [] && (GapNow(p, works[0]) || GapMet(WorkOn(p, works[0], applies, clock), works[1..], applies, clock))
  }

  /** How far the values reach that are externalized in order, none skipped, from e on. */
  function Upto(w: Work, e: nat): nat {
    if w.External? && w.info.index == e then e + 1 else e
  }

  function UptoAll(works: seq<Work>, e: nat): nat
    decreases |works|
  {
    if works == [] then e else UptoAll(works[1..], Upto(works[0], e))
  }

  predicate InOrder(works: seq<Work>, e: nat)
    decreases |works|
  {
    works != [] ==> (works[0].External? ==> works[0].info.index <= e) && InOrder(works[1..], Upto(works[0], e))
  }

  lemma AnswerKeeps(p: Process, a: Ask, s: Ledger, chain: nat -> CloseInfo, b: nat, start: nat,
                    applies: TxSet -> bool, clock: nat -> int)
    requires AgreedChain(chain, applies) && Underway(p, s, chain, b, start) && Honest(a.peer, chain) && !p.s.halted
    ensures var q := WorkOn(p, Answer(a), applies, clock);
            && Underway(q, s, chain, b, start) && q.s == p.s.(halted := ReplyTo(a).Dies?)
            && p.d.infos.Keys <= q.d.infos.Keys
            && (p.d.next !in p.d.infos ==> q.d.next !in q.d.infos)
            && (!q.s.halted && a.index in a.peer.headers ==> a.index in q.d.infos && q.d.next !in q.d.infos)
  {
    hide OnTrack, Inv, Linked;
    if a.index in a.peer.headers {
      HonestAnswer(a.peer, a.stored, chain, applies, a.index);
      if ReplyTo(a).Got? {
        ArrivalKeeps(p.d, ReplyTo(a).info, chain, b, start);
      }
    }
  }

  /** A ledger is taken, or a value received. */
  lemma ManagerKeeps(p: Process, w: Work, s: Ledger, chain: nat -> CloseInfo, b: nat, start: nat, e: nat,
                     applies: TxSet -> bool, clock: nat -> int)
    requires AgreedChain(chain, applies) && (forall i: nat :: clock(i) >= 0) && s.state == Syncing
    requires Underway(p, s, chain, b, start) && !p.s.halted && !w.Answer? && HonestWork(w, chain)
    ensures var q := WorkOn(p, w, applies, clock);
            && Underway(q, s, chain, b, start) && !q.s.halted && q.d == p.d
            && p.s.tasks <= q.s.tasks && (q.s.tasks != p.s.tasks <==> GapNow(p, w))
            && (Reaches(p.s, e) && (w.External? ==> w.info.index <= e) ==> !GapNow(p, w) && Reaches(q.s, Upto(w, e)))
  {
    hide Inv, AgreedChain, Ledgers.Downloaded, RecvExtVal, OnTrack, Reaches, IsGap, SentRun, AllGenuine, Truthful, Genuine;
    assert p.s.(halted := false) == p.s;
    var next := start + (p.taken - b);
    if w.External? {
      ExtOnTrack(p.s, s, chain, next, w.info, e, applies, w.now);
      OnTrackRuns(RecvExtVal(p.s, w.info, applies, w.now), s, chain, next);
    } else if p.taken < |p.d.sent| {
      SentIsRun(p.d, chain, b, start);
      TakeOnTrack(p.s, s, chain, next, e, applies, clock(next));
      OnTrackRuns(Ledgers.Downloaded(p.s, chain(next), applies, clock(next)), s, chain, next + 1);
    }
  }

  lemma OnTrackRuns(q: Ledger, s: Ledger, chain: nat -> CloseInfo, next: nat)
    requires OnTrack(q, s, chain, next)
    ensures !q.halted && q.(halted := false) == q
  {}

  lemma WorkKeeps(p: Process, w: Work, s: Ledger, chain: nat -> CloseInfo, b: nat, start: nat, e: nat,
                  applies: TxSet -> bool, clock: nat -> int)
    requires AgreedChain(chain, applies) && (forall i: nat :: clock(i) >= 0) && s.state == Syncing
    requires Underway(p, s, chain, b, start) && HonestWork(w, chain)
    ensures var q := WorkOn(p, w, applies, clock);
            && Underway(q, s, chain, b, start)
            && (q.s.halted <==> p.s.halted || (w.Answer? && ReplyTo(w.ask).Dies?))
            && p.d.infos.Keys <= q.d.infos.Keys
            && (p.d.next !in p.d.infos ==> q.d.next !in q.d.infos)
            && (!q.s.halted && w.Answer? && w.ask.index in w.ask.peer.headers ==>
                  w.ask.index in q.d.infos && q.d.next !in q.d.infos)
            && p.s.tasks <= q.s.tasks && (q.s.tasks != p.s.tasks <==> GapNow(p, w))
            && (!q.s.halted && Reaches(p.s, e) && (w.External? ==> w.info.index <= e) ==>
                  !GapNow(p, w) && Reaches(q.s, Upto(w, e)))
  {
    hide Underway, AgreedChain, ReplyTo, Honest, Genuine, IsGap;
    if !p.s.halted {
      if w.Answer? {
        AnswerKeeps(p, w.ask, s, chain, b, start, applies, clock);
      } else {
        hide Reaches, WorkOn;
        ManagerKeeps(p, w, s, chain, b, start, e, applies, clock);
      }
    }
  }

  lemma {:induction false} WorksKeep(p: Process, works: seq<Work>, s: Ledger, chain: nat -> CloseInfo, b: nat, start: nat,
                                     e: nat, applies: TxSet -> bool, clock: nat -> int)
    requires AgreedChain(chain, applies) && (forall i: nat :: clock(i) >= 0) && s.state == Syncing
    requires Underway(p, s, chain, b, start) && AllHonest(works, chain)
    ensures var q := WorkOff(p, works, applies, clock);
            && Underway(q, s, chain, b, start)
            && (q.s.halted <==> p.s.halted || SetMissing(works))
            && p.d.infos.Keys <= q.d.infos.Keys
            && (p.d.next !in p.d.infos ==> q.d.next !in q.d.infos)
            && (!q.s.halted ==> forall i: nat :: AnsweredAt(works, i) ==> i in q.d.infos && q.d.next !in q.d.infos)
            && p.s.tasks <= q.s.tasks && (q.s.tasks != p.s.tasks <==> GapMet(p, works, applies, clock))
            && (!q.s.halted && Reaches(p.s, e) && InOrder(works, e) ==>
                  !GapMet(p, works, applies, clock) && Reaches(q.s, UptoAll(works, e)))
    decreases |works|
  {
    hide AgreedChain, Underway, WorkOn, ReplyTo, HonestWork, AllHonest, SetMissing, AnsweredAt, Reaches, GapNow, Upto;
    if works == [] {
      NoWork();
    } else {
      FirstWork(works, chain);
      WorkKeeps(p, works[0], s, chain, b, start, e, applies, clock);
      WorksKeep(WorkOn(p, works[0], applies, clock), works[1..], s, chain, b, start, Upto(works[0], e), applies, clock);
    }
  }

  lemma NoWork()
    ensures !SetMissing([]) && forall i: nat :: !AnsweredAt([], i)
  {}

  lemma FirstWork(works: seq<Work>, chain: nat -> CloseInfo)
    requires works != []
    ensures AllHonest(works, chain) ==> AllHonest(works[1..], chain) && HonestWork(works[0], chain)
    ensures SetMissing(works) <==> (works[0].Answer? && ReplyTo(works[0].ask).Dies?) || SetMissing(works[1..])
    ensures forall i: nat :: AnsweredAt(works, i) ==>
              AnsweredAt(works[1..], i) || (works[0].Answer? && works[0].ask.index == i && i in works[0].ask.peer.headers)
  {
    hide ReplyTo, HonestWork;
    var rest := works[1..];
    assert forall k :: 0 < k < |works| ==> works[k] == rest[k - 1];
    assert forall k :: 0 <= k < |rest| ==> rest[k] == works[k + 1];
  }

  lemma TaskBegins(s: Ledger, d: Download, chain: nat -> CloseInfo, applies: TxSet -> bool, clock: nat -> int)
    requires OutOfSync(s, chain, applies, clock) && s.tasks != [] && AllGenuine(d, chain)
    ensures Underway(TaskStart(s, d), s, chain, |d.sent|, LastTask(s).start) && Reaches(s, BufferEnd(s))
    ensures LastTask(s).start <= LastTask(s).end && s.buffer[0].index == LastTask(s).end + 1
  {
    assert s.(halted := false) == s;
  }

  /** Once everything is there, all of it has been sent. */
  lemma AllIsSent(p: Process, s: Ledger, chain: nat -> CloseInfo, b: nat, r: Range)
    requires Underway(p, s, chain, b, r.start) && p.d.next !in p.d.infos
    requires forall i: nat :: r.start <= i <= r.end ==> i in p.d.infos
    ensures |p.d.sent| > b + r.end - r.start
  {
    hide OnTrack;
  }

  /** The manager takes what is left. */
  lemma {:induction false} RestOnTrack(q: Ledger, s: Ledger, infos: seq<CloseInfo>, chain: nat -> CloseInfo, next: nat,
                                       e: nat, applies: TxSet -> bool, clock: nat -> int)
    requires OnTrack(q, s, chain, next) && AgreedChain(chain, applies) && forall i: nat :: clock(i) >= 0
    requires forall k :: 0 <= k < |infos| ==> next >= 2 && infos[k] == chain(next + k) && infos[k].index == next + k
    ensures var t := TakeAll(q, infos, applies, clock);
            && OnTrack(t, s, chain, next + |infos|) && t.tasks == q.tasks
            && (Reaches(q, e) ==> Reaches(t, e))
    decreases |infos|
  {
    hide OnTrack, AgreedChain, Reaches, Ledgers.Downloaded;
    if infos != [] {
      assert infos[0] == chain(next);
      TakeOnTrack(q, s, chain, next, e, applies, clock(next));
      RestOnTrack(Ledgers.Downloaded(q, chain(next), applies, clock(next)), s, infos[1..], chain, next + 1, e, applies, clock);
    }
  }

  /** Past the ledger before the buffer, and without another gap, the manager is synced. */
  lemma PastTheBuffer(t: Ledger, s: Ledger, chain: nat -> CloseInfo, next: nat)
    requires OnTrack(t, s, chain, next) && next >= s.buffer[0].index
    ensures NextSeq(t) >= BufferEnd(s) && (t.state == Synced || t.tasks != s.tasks)
  {}

  /** What is left after the works is taken, and that is enough. */
  lemma TaskEnds(p: Process, s: Ledger, chain: nat -> CloseInfo, b: nat, r: Range, e: nat, applies: TxSet -> bool, clock: nat -> int)
    requires OutOfSync(s, chain, applies, clock) && Underway(p, s, chain, b, r.start) && !p.s.halted && r.start >= 2
    requires |p.d.sent| > b + r.end - r.start && s.buffer != [] && s.buffer[0].index == r.end + 1
    ensures p.taken <= |p.d.sent|
    ensures var t := TakeAll(p.s, p.d.sent[p.taken..], applies, clock);
            && OnTrack(t, s, chain, r.end + 1) && t.tasks == p.s.tasks
            && NextSeq(t) >= BufferEnd(s) && (t.state == Synced || t.tasks != s.tasks)
            && (Reaches(p.s, e) ==> Reaches(t, e))
  {
    hide Inv, OnChain, Holds, AgreedChain, TakeAll, Reaches;
    SentIsRun(p.d, chain, b, r.start);
    assert p.s.(halted := false) == p.s;
    var next, infos := r.start + (p.taken - b), p.d.sent[p.taken..];
    RestOnTrack(p.s, s, infos, chain, next, e, applies, clock);
    PastTheBuffer(TakeAll(p.s, infos, applies, clock), s, chain, next + |infos|);
  }

  /** Where a manager gets that was out of sync as s. */
  ghost predicate Caught(s: Ledger, t: Ledger, chain: nat -> CloseInfo) {
    && Inv(t) && s.buffer != [] && NextSeq(t) >= BufferEnd(s) && Holds(t, chain, NextSeq(s), NextSeq(t))
    && s.tasks <= t.tasks && (t.state == Synced || t.tasks != s.tasks)
  }

  /**
   From a gap to synced. The last task of a manager that is out of sync is worked off: every ledger of
   it is asked of honest peers, answers come in any order, among ledgers left over from earlier tasks,
   the manager takes what is ready and receives externalized values at any time. The process ends exactly
   if some peer is asked for a ledger whose set it never stored, as for the first ledger nobody has.
   Otherwise the manager ends with every agreed header at least up to the end of its buffer, and synced
   unless it was given another task, which happens exactly if a value comes at another gap. If the values
   follow on the buffer, in order and none skipped, it ends synced with all of them. A task that begins
   with the first ledger ends the process before the manager has taken anything.
   */
  lemma SyncsExactly(s: Ledger, d: Download, works: seq<Work>, chain: nat -> CloseInfo,
                     applies: TxSet -> bool, clock: nat -> int)
    requires OutOfSync(s, chain, applies, clock) && s.tasks != [] && AllGenuine(d, chain)
    requires AllHonest(works, chain) && AllAnswered(works, LastTask(s))
    ensures var t := AfterTask(s, d, works, applies, clock);
            && (t.halted <==> SetMissing(works))
            && (!t.halted ==>
                  && LastTask(s).start >= 2 && Caught(s, t, chain)
                  && (t.tasks != s.tasks <==> GapMet(TaskStart(s, d), works, applies, clock))
                  && (InOrder(works, BufferEnd(s)) ==> t.state == Synced && NextSeq(t) >= UptoAll(works, BufferEnd(s))))
            && (LastTask(s).start < 2 ==> t == s.(buffer := t.buffer, halted := true) && s.buffer <= t.buffer)
  {
    hide WorkOff, AllHonest, TakeAll, GapMet, InOrder, UptoAll, AllGenuine, AnsweredAt, SetMissing;
    hide Inv, OnChain, AgreedChain, Holds, Underway;
    SyncingHasBuffer(s);
    var r, b, e := LastTask(s), |d.sent|, BufferEnd(s);
    var p := TaskStart(s, d);
    var q := WorkOff(p, works, applies, clock);
    TaskBegins(s, d, chain, applies, clock);
    WorksKeep(p, works, s, chain, b, r.start, e, applies, clock);
    assert AnsweredAt(works, r.start);
    if r.start < 2 {
      FirstIsMissing(works, r.start, chain);
      StoppedAtFirst(q, s, chain, b, r.start);
    } else if !q.s.halted {
      AllIsSent(q, s, chain, b, r);
      TaskEnds(q, s, chain, b, r, UptoAll(works, e), applies, clock);
    }
  }

  lemma SyncingHasBuffer(s: Ledger)
    requires Inv(s) && !s.halted && s.state == Syncing
    ensures s.buffer != []
  {}

  lemma StoppedAtFirst(p: Process, s: Ledger, chain: nat -> CloseInfo, b: nat, start: nat)
    requires Underway(p, s, chain, b, start) && start < 2 && s.state == Syncing && p.s.halted
    ensures p.s == s.(buffer := p.s.buffer, halted := true) && s.buffer <= p.s.buffer
  {
    hide Inv, OnChain;
  }

  /** Nobody has a set for the first ledger, and nobody has a ledger before it. */
  lemma FirstIsMissing(works: seq<Work>, i: nat, chain: nat -> CloseInfo)
    requires AllHonest(works, chain) && AnsweredAt(works, i) && i < 2
    ensures SetMissing(works)
  {
    var k :| 0 <= k < |works| && works[k].Answer? && works[k].ask.index == i && i in works[k].ask.peer.headers;
    assert Honest(works[k].ask.peer, chain) && Linked(works[k].ask.peer.headers, i);
    assert ReplyTo(works[k].ask).Dies?;
  }

  /**
   After a restart. Wherever a manager was stopped, it recovers; at its next gap it asks for the ledgers
   from its own next one, never for the first one; and it ends synced exactly if every peer has the
   sets that it is asked for.
   */
  lemma RestartSyncs(s: Ledger, now: int, info: CloseInfo, later: int, works: seq<Work>, chain: nat -> CloseInfo,
                     applies: TxSet -> bool, clock: nat -> int)
    requires Inv(s) && s.closeTime <= now && later >= 0
    requires s.currHash == chain(NextSeq(s)).txset.prev && info.index > NextSeq(s) && info == chain(info.index)
    requires AgreedChain(chain, applies) && forall i: nat :: clock(i) >= 0
    requires AllHonest(works, chain) && AllAnswered(works, Range(NextSeq(s), info.index - 1))
    ensures var r := Recover(Restarted(s), now);
            && r.Some?
            && var u := RecvExtVal(r.value, info, applies, later);
               && u.state == Syncing && u.tasks == [Range(NextSeq(s), info.index - 1)] && NextSeq(s) >= 2
               && var t := AfterTask(u, Idle, works, applies, clock);
                  && (t.halted <==> SetMissing(works))
                  && (!t.halted ==>
                        && Caught(u, t, chain) && NextSeq(t) > info.index
                        && (t.tasks != u.tasks <==> GapMet(TaskStart(u, Idle), works, applies, clock))
                        && (InOrder(works, info.index + 1) ==> t.state == Synced && NextSeq(t) >= UptoAll(works, info.index + 1)))
  {
    hide Recover, Restarted, RecvExtVal, OutOfSync, AfterTask, SetMissing, AllHonest, AllAnswered, Caught, GapMet, InOrder, UptoAll;
    hide Inv, AgreedChain, NextSeq, TaskStart;
    RestartGap(s, now, info, later, chain, applies, clock);
    var u := RecvExtVal(Recover(Restarted(s), now).value, info, applies, later);
    SyncsExactly(u, Idle, works, chain, applies, clock);
    var t := AfterTask(u, Idle, works, applies, clock);
    if !t.halted {
      CaughtPasses(u, t, chain);
    }
  }

  /** Without a gap: the next value on the recovered tip is closed at once, and the manager is synced. */
  lemma RestartWithoutGap(s: Ledger, now: int, info: CloseInfo, applies: TxSet -> bool, later: int)
    requires Inv(s) && s.closeTime <= now && later >= 0 && IsNext(s, info, applies)
    ensures var r := Recover(Restarted(s), now);
            && r.Some? && r.value.state == NotSynced
            && var t := RecvExtVal(r.value, info, applies, later);
               Inv(t) && !t.halted && t.state == Synced && t.headers == s.headers[info.index := HeaderOf(info)]
  {
    CheckpointRecovers(s, now);
    RecoveredStands(s, now);
    hide Recover, Restarted, RecvExtVal, Inv;
    NextValueSyncs(Recover(Restarted(s), now).value, info, applies, later);
  }

  lemma CaughtPasses(s: Ledger, t: Ledger, chain: nat -> CloseInfo)
    requires s.buffer != [] && Caught(s, t, chain)
    ensures NextSeq(t) >= BufferEnd(s)
  {}

  /** The next task after a restart. */
  lemma TaskAfterRestart(s: Ledger, now: int, info: CloseInfo, applies: TxSet -> bool, later: int)
    requires Inv(s) && s.closeTime <= now && info.index > NextSeq(s)
    ensures var r := Recover(Restarted(s), now);
            && r.Some? && Inv(r.value) && !r.value.halted && r.value.currHash == s.currHash && NextSeq(r.value) == NextSeq(s) >= 2
            && RecvExtVal(r.value, info, applies, later)
               == r.value.(state := Syncing, buffer := [info], largest := info.index - 1,
                           tasks := [Range(NextSeq(s), info.index - 1)])
  {
    CheckpointRecovers(s, now);
    RecoveredStands(s, now);
    hide Recover, Restarted, RecvExtVal, Inv, NextSeq;
    var r := Recover(Restarted(s), now).value;
    GapIsDownloaded(r, info, applies, later);
    assert [] + [Range(NextSeq(s), info.index - 1)] == [Range(NextSeq(s), info.index - 1)];
  }

  /** The next gap after a restart. */
  lemma RestartGap(s: Ledger, now: int, info: CloseInfo, later: int, chain: nat -> CloseInfo,
                   applies: TxSet -> bool, clock: nat -> int)
    requires Inv(s) && s.closeTime <= now && later >= 0
    requires s.currHash == chain(NextSeq(s)).txset.prev && info.index > NextSeq(s) && info == chain(info.index)
    requires AgreedChain(chain, applies) && forall i: nat :: clock(i) >= 0
    ensures var r := Recover(Restarted(s), now);
            && r.Some?
            && var u := RecvExtVal(r.value, info, applies, later);
               && OutOfSync(u, chain, applies, clock) && u.buffer == [info] && u.state == Syncing && NextSeq(u) == NextSeq(s)
               && u.tasks == [Range(NextSeq(s), info.index - 1)] && NextSeq(s) >= 2
  {
    hide Recover, Restarted, AgreedChain, Inv, RecvExtVal;
    TaskAfterRestart(s, now, info, applies, later);
    var r := Recover(Restarted(s), now).value;
    RecvExtValKeeps(r, info, applies, later);
  }

  lemma RecoveredStands(s: Ledger, now: int)
    requires Inv(s) && s.closeTime <= now
    ensures var r := Recover(Restarted(s), now);
            r.Some? && !r.value.halted && r.value.tasks == [] && r.value.largest + 1 == NextSeq(s) >= 2
  {}

  /** A manager that has only its genesis ledger when it meets its first gap asks for ledger 1. As soon
      as somebody answers, its process ends, with nothing taken; after a restart it asks from ledger 2. */
  lemma GenesisStops(start: int, info: CloseInfo, now: int, d: Download, works: seq<Work>, chain: nat -> CloseInfo,
                     applies: TxSet -> bool, clock: nat -> int, again: int, next: CloseInfo, later: int)
    requires start >= 0 && now >= 0 && info.index >= 3 && info == chain(info.index)
    requires AgreedChain(chain, applies) && chain(2).txset.prev == KeyOf(GENESIS) && forall i: nat :: clock(i) >= 0
    requires AllGenuine(d, chain) && AllHonest(works, chain) && AllAnswered(works, Range(1, info.index - 1))
    requires again >= start && next.index >= 3
    ensures var s := RecvExtVal(Genesis(Empty, start), info, applies, now);
            && s.tasks == [Range(1, info.index - 1)]
            && var dead := AfterTask(s, d, works, applies, clock);
            && dead == s.(buffer := dead.buffer, halted := true)
            && var r := Recover(Restarted(dead), again);
               r.Some? && RecvExtVal(r.value, next, applies, later).tasks == [Range(2, next.index - 1)]
  {
    hide AfterTask, SetMissing, AllHonest, AllAnswered, GapMet, InOrder, UptoAll, Recover, RecvExtVal, Genesis;
    hide Inv, AgreedChain, OutOfSync, AllGenuine, Restarted, Caught;
    GenesisGap(start, info, now, chain, applies, clock);
    var s := RecvExtVal(Genesis(Empty, start), info, applies, now);
    SyncsExactly(s, d, works, chain, applies, clock);
    var dead := AfterTask(s, d, works, applies, clock);
    DeadIsWell(s, dead);
    TaskAfterRestart(dead, again, next, applies, later);
  }

  lemma DeadIsWell(s: Ledger, dead: Ledger)
    requires Inv(s) && dead == s.(buffer := dead.buffer, halted := true)
    ensures Inv(dead)
  {
    ChainedElsewhere(s, dead);
  }

  /** The first gap. */
  lemma GenesisGap(start: int, info: CloseInfo, now: int, chain: nat -> CloseInfo, applies: TxSet -> bool, clock: nat -> int)
    requires start >= 0 && now >= 0 && info.index >= 3 && info == chain(info.index)
    requires AgreedChain(chain, applies) && chain(2).txset.prev == KeyOf(GENESIS) && forall i: nat :: clock(i) >= 0
    ensures var s := RecvExtVal(Genesis(Empty, start), info, applies, now);
            && OutOfSync(s, chain, applies, clock) && Inv(s) && s.tasks == [Range(1, info.index - 1)]
            && NextSeq(s) == 2 && s.closeTime == start
  {
    hide RecvExtVal, Inv, AgreedChain, Genesis;
    var g := Genesis(Empty, start);
    GenesisIsWell(start);
    RecvExtValKeeps(g, info, applies, now);
    GapIsDownloaded(g, info, applies, now);
  }

  lemma GenesisIsWell(start: int)
    requires start >= 0
    ensures var g := Genesis(Empty, start);
            Inv(g) && !g.halted && g.tasks == [] && g.largest == 0 && NextSeq(g) == 2 && g.state == Synced
            && g.closeTime == start && g.currHash == KeyOf(GENESIS)
  {
    assert Linked(Genesis(Empty, start).headers, 1);
  }

  /******* All of this happens *******/

  /** A chain of empty transaction sets. */
  function EmptyChain(i: nat): (info: CloseInfo)
    ensures info.index == i
  {
    var prev := if i < 2 then NoKey else if i == 2 then KeyOf(GENESIS) else KeyOf(HeaderOf(EmptyChain(i - 1)));
    var txset := TxSet(prev, multiset{});
    CloseInfo(i, Agreed(txset, 0), txset)
  }

  lemma EmptyChainIsAgreed(applies: TxSet -> bool)
    requires forall t :: applies(t)
    ensures AgreedChain(EmptyChain, applies)
  {
    forall i: nat | i >= 2 ensures AgreedAt(EmptyChain, i) && applies(EmptyChain(i).txset) {
      assert EmptyChain(i + 1).txset.prev == KeyOf(HeaderOf(EmptyChain(i)));
    }
  }

  /** A node that has closed the ledgers up to n. */
  function Closed(n: nat, applies: TxSet -> bool): Ledger
    requires n >= 1
  {
    if n == 1 then Genesis(Empty, 0) else RecvExtVal(Closed(n - 1, applies), EmptyChain(n), applies, 0)
  }

  /** What a node is that has closed the ledgers of a chain up to n. */
  ghost predicate Well(s: Ledger, chain: nat -> CloseInfo, n: nat) {
    && Inv(s) && !s.halted && s.state == Synced && s.tasks == [] && (n >= 2 ==> s.largest == n)
    && NextSeq(s) == n + 1 && OnChain(s, chain) && Holds(s, chain, 2, n + 1)
  }

  lemma ClosesNext(s: Ledger, chain: nat -> CloseInfo, n: nat, applies: TxSet -> bool)
    requires n >= 1 && Well(s, chain, n) && AgreedChain(chain, applies) && chain(n + 1).index == n + 1
    ensures Well(RecvExtVal(s, chain(n + 1), applies, 0), chain, n + 1)
  {
    hide Inv, OnChain, Holds, AgreedChain, RecvExtVal;
    RecvExtValKeeps(s, chain(n + 1), applies, 0);
    ExtWhenSynced(s, chain, 2, chain(n + 1), applies, 0);
  }

  lemma FirstIsWell()
    ensures Well(Genesis(Empty, 0), EmptyChain, 1)
  {
    GenesisIsWell(0);
    hide Inv, Genesis;
  }

  lemma {:induction false} ClosedIsWell(n: nat, applies: TxSet -> bool)
    requires n >= 1 && forall t :: applies(t)
    ensures Well(Closed(n, applies), EmptyChain, n)
  {
    hide Well, EmptyChain, Genesis, RecvExtVal, AgreedAt;
    if n == 1 {
      FirstIsWell();
    } else {
      ClosedIsWell(n - 1, applies);
      EmptyChainIsAgreed(applies);
      ClosesNext(Closed(n - 1, applies), EmptyChain, n - 1, applies);
    }
  }

  /** Ledgers 3 and 4 are missed, 5 is received. */
  function Gapped(applies: TxSet -> bool): Ledger {
    RecvExtVal(Closed(2, applies), EmptyChain(5), applies, 0)
  }

  lemma GapOpens(s: Ledger, chain: nat -> CloseInfo, n: nat, i: nat, applies: TxSet -> bool)
    requires Well(s, chain, n) && n >= 2 && i > n + 1 && chain(i).index == i
    ensures var t := RecvExtVal(s, chain(i), applies, 0);
            && Inv(t) && !t.halted && t.state == Syncing && OnChain(t, chain)
            && t.tasks == [Range(n + 1, i - 1)] && t.buffer == [chain(i)] && NextSeq(t) == n + 1
  {
    RecvExtValKeeps(s, chain(i), applies, 0);
    GapIsDownloaded(s, chain(i), applies, 0);
    hide Inv, RecvExtVal;
  }

  lemma GappedIsOutOfSync(applies: TxSet -> bool, clock: nat -> int)
    requires (forall t :: applies(t)) && forall i: nat :: clock(i) >= 0
    ensures var s := Gapped(applies);
            && OutOfSync(s, EmptyChain, applies, clock)
            && s.tasks == [Range(3, 4)] && s.buffer == [EmptyChain(5)] && NextSeq(s) == 3
  {
    hide Inv, OnChain, Well, EmptyChain, Closed, AgreedChain, RecvExtVal, NextSeq;
    ClosedIsWell(2, applies);
    EmptyChainIsAgreed(applies);
    GapOpens(Closed(2, applies), EmptyChain, 2, 5, applies);
  }

  /** A node with five ledgers is asked for 4 and then for 3; on the way 6 is externalized and one is taken. */
  function TwoAnswers(stored: set<TxSet>, applies: TxSet -> bool): seq<Work> {
    var peer := Closed(5, applies);
    [Answer(Ask(4, peer, stored)), External(EmptyChain(6), 0), Answer(Ask(3, peer, stored)), TakeNext]
  }

  lemma AskedOf(peer: Ledger, n: nat, stored: set<TxSet>, applies: TxSet -> bool, i: nat)
    requires Well(peer, EmptyChain, n) && 2 <= i <= n && AgreedChain(EmptyChain, applies)
    ensures Honest(peer, EmptyChain) && i in peer.headers
    ensures ReplyTo(Ask(i, peer, stored)).Dies? <==> EmptyChain(i).txset !in stored
  {
    hide EmptyChain, AgreedChain, Query, SetOf;
    assert Linked(peer.headers, i);
    HonestAnswer(peer, stored, EmptyChain, applies, i);
  }

  lemma SixIsInOrder(works: seq<Work>)
    requires |works| == 4 && works[0].Answer? && works[1].External? && works[1].info.index == 6
    requires works[2].Answer? && works[3].TakeNext?
    ensures InOrder(works, 6) && UptoAll(works, 6) == 7
  {
    assert works[1..][1..] == works[2..] && works[2..][1..] == works[3..] && works[3..][1..] == [];
    assert InOrder(works[3..], 7) && UptoAll(works[3..], 7) == 7;
    assert InOrder(works[2..], 7) && UptoAll(works[2..], 7) == 7;
    assert InOrder(works[1..], 6) && UptoAll(works[1..], 6) == 7;
  }

  lemma TwoAreAnswered(stored: set<TxSet>, applies: TxSet -> bool)
    requires forall t :: applies(t)
    ensures var works := TwoAnswers(stored, applies);
            && AllHonest(works, EmptyChain) && AllAnswered(works, Range(3, 4))
            && (SetMissing(works) <==> EmptyChain(3).txset !in stored || EmptyChain(4).txset !in stored)
            && InOrder(works, 6) && UptoAll(works, 6) == 7
  {
    hide Closed, EmptyChain, ReplyTo, Honest, Well, AgreedChain;
    var peer, works := Closed(5, applies), TwoAnswers(stored, applies);
    ClosedIsWell(5, applies);
    EmptyChainIsAgreed(applies);
    AskedOf(peer, 5, stored, applies, 3);
    AskedOf(peer, 5, stored, applies, 4);
    assert works[0].ask == Ask(4, peer, stored) && works[2].ask == Ask(3, peer, stored);
    assert works[1] == External(EmptyChain(6), 0) && works[3] == TakeNext;
    SixIsInOrder(works);
    assert AnsweredAt(works, 3) && AnsweredAt(works, 4);
  }

  /** The states, peers and chains of the results above exist: a manager catches up from ledgers that
      arrive in the wrong order, or its process ends, by what the peer has stored. */
  lemma CatchUpHappens(stored: set<TxSet>, applies: TxSet -> bool, clock: nat -> int)
    requires (forall t :: applies(t)) && forall i: nat :: clock(i) >= 0
    ensures var s, works := Gapped(applies), TwoAnswers(stored, applies);
            && OutOfSync(s, EmptyChain, applies, clock) && s.tasks == [Range(3, 4)]
            && AllHonest(works, EmptyChain) && AllAnswered(works, LastTask(s))
            && var t := AfterTask(s, Idle, works, applies, clock);
               && (t.halted <==> EmptyChain(3).txset !in stored || EmptyChain(4).txset !in stored)
               && (!t.halted ==> Inv(t) && t.state == Synced && NextSeq(t) >= 7 && Holds(t, EmptyChain, 3, NextSeq(t)))
  {
    hide OutOfSync, AllHonest, AllAnswered, SetMissing, AfterTask, Gapped, TwoAnswers, EmptyChain, Inv, Holds;
    GappedIsOutOfSync(applies, clock);
    TwoAreAnswered(stored, applies);
    SyncsExactly(Gapped(applies), Idle, TwoAnswers(stored, applies), EmptyChain, applies, clock);
    assert EmptyChain(5).index == 5;
  }
}
