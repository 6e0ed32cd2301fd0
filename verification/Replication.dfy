/**
 Consensus, ledgers and transactions together: nodes that agree on one value for each index close
 the same ledgers, and nodes with the same ledgers hold the same accounts.
 */
module Replication {
  import opened Common
  import opened Ledgers
  import B = Ballots
  import I = Invariants
  import N = Network
  import D = Downloads
  import A = Accounts
  import T = Transactions
  import C = Conservation
  import Ties

  /******* What was agreed on *******/

  /**
   One run of the ballot protocol for every index. The nodes that follow the protocol may be others
   for each index: a node that lost its votes does not count for the indices it took part in.
   decode is what a consensus value stands for.
   */
  datatype Consensus = Consensus(
    nodes: nat -> set<B.NodeID>, runs: nat -> seq<N.Net>, events: nat -> seq<N.Event>, decode: B.Value -> Value)

  /** A run in which slices of any two nodes share a node that follows the protocol. */
  ghost predicate SafeRun(c: Consensus, i: nat) {
    var states: seq<N.Net> := c.runs(i);
    && N.Run(states, c.events(i)) && states[0].Keys == c.nodes(i)
    && forall a, b :: a in states[0] && b in states[0] ==>
         N.SlicesMeet(states[0][a].quorum, states[0][b].quorum, states[0].Keys)
  }

  ghost predicate Safe(c: Consensus) {
    forall i: nat :: SafeRun(c, i)
  }

  /** Node n externalized v for index i, at some time. */
  ghost predicate ChosenBy(c: Consensus, i: nat, n: B.NodeID, v: B.Value) {
    exists k: nat :: k < |c.runs(i)| && n in c.runs(i)[k] && v in c.runs(i)[k][n].ext
  }

  lemma ChosenAt(c: Consensus, i: nat, n: B.NodeID, v: B.Value) returns (k: nat)
    requires SafeRun(c, i) && ChosenBy(c, i, n, v)
    ensures k < |c.runs(i)| && n in c.runs(i)[k] && n in c.nodes(i) && c.runs(i)[k][n].ext == [v]
  {
    var states: seq<N.Net> := c.runs(i);
    k :| k < |states| && n in states[k] && v in states[k][n].ext;
    N.RunKeeps(states, c.events(i), k);
    I.InvParts(states[k][n]);
    hide N.Run, N.SlicesMeet, I.Inv;
  }

  lemma ChosenOnce(c: Consensus, i: nat, n: B.NodeID, v: B.Value, m: B.NodeID, w: B.Value)
    requires SafeRun(c, i) && ChosenBy(c, i, n, v) && ChosenBy(c, i, m, w)
    ensures v == w
  {
    hide N.Run, N.SlicesMeet, ChosenBy;
    var k := ChosenAt(c, i, n, v);
    var l := ChosenAt(c, i, m, w);
    N.Agreement(c.runs(i), c.events(i), n, k, m, l);
  }

  /** A value that some node externalized for index i. */
  ghost predicate OnRecord(c: Consensus, i: nat, value: Value) {
    exists n, v :: ChosenBy(c, i, n, v) && c.decode(v) == value
  }

  lemma OneRecord(c: Consensus, i: nat, value: Value, other: Value)
    requires SafeRun(c, i) && OnRecord(c, i, value) && OnRecord(c, i, other)
    ensures value == other
  {
    var n, v :| ChosenBy(c, i, n, v) && c.decode(v) == value;
    var m, w :| ChosenBy(c, i, m, w) && c.decode(w) == other;
    ChosenOnce(c, i, n, v, m, w);
  }

  /******* The nodes *******/

  /** A ledger manager and the ledgers that were downloaded for it and not yet taken. */
  datatype Node = Node(ledger: Ledger, pool: set<CloseInfo>)

  type System = map<B.NodeID, Node>

  /**
   A node hands the ledger manager what its own decree externalized; a worker of it is answered by a node
   of the system, or by anybody with anything; it takes a downloaded ledger, in any order; it starts
   again; or its process dies while it applies a list.
   */
  datatype Step =
    | Externalize(at: B.NodeID, index: nat, v: B.Value, applies: TxSet -> bool, now: int)
    | Fetch(at: B.NodeID, peer: B.NodeID, index: nat, txset: Option<TxSet>)
    | Hear(at: B.NodeID, index: nat, header: Header, txset: Option<TxSet>)
    | Take(at: B.NodeID, info: CloseInfo, applies: TxSet -> bool, now: int)
    | Restart(at: B.NodeID, now: int)
    | Die(at: B.NodeID)

  /** What the engine hands over for a value: nothing if it cannot be decoded. */
  function Handed(c: Consensus, index: nat, v: B.Value): Option<CloseInfo> {
    var value := c.decode(v);
    if value.Agreed? then Some(CloseInfo(index, value, value.txset)) else None
  }

  /** A node externalizes only what its decree chose; it takes only what was downloaded. */
  ghost predicate Permitted(c: Consensus, sys: System, e: Step) {
    && e.at in sys
    && match e
       case Externalize(at, index, v, _, now) => ChosenBy(c, index, at, v) && Timely(sys[at].ledger, now)
       case Fetch(_, peer, index, _) => peer in sys && index in sys[peer].ledger.headers
       case Hear(_, _, _, _) => true
       case Take(at, info, _, now) => info in sys[at].pool && Timely(sys[at].ledger, now)
       case Restart(at, now) => Timely(sys[at].ledger, now)
       case Die(_) => true
  }

  /** What a step means to the ledger manager. */
  function EventOf(c: Consensus, e: Step): Option<Event> {
    match e
    case Externalize(_, index, v, applies, now) =>
      var info := Handed(c, index, v);
      if info.None? then None else Some(ExtVal(info.value, applies, now))
    case Fetch(_, _, _, _) => None
    case Hear(_, _, _, _) => None
    case Take(_, info, applies, now) => Some(Ready(info, applies, now))
    case Restart(_, now) => Some(Reboot(now))
    case Die(_) => None
  }

  /** What a worker brings is kept for the manager; an answer without a set ends the process. */
  function Brought(n: Node, r: D.Reply): Node {
    match r
    case Got(info) => n.(pool := n.pool + {info})
    case Nothing => n
    case Dies => n.(ledger := n.ledger.(halted := true))
  }

  ghost function NodeAfter(c: Consensus, sys: System, e: Step): Node
    requires Permitted(c, sys, e)
  {
    var n := sys[e.at];
    var event := EventOf(c, e);
    if event.Some? then Node(After(n.ledger, event.value), if e.Restart? then {} else n.pool)
    else
      match e
      case Fetch(_, peer, index, txset) => Brought(n, D.Query(index, sys[peer].ledger.headers[index], txset))
      case Hear(_, index, header, txset) => Brought(n, D.Query(index, header, txset))
      case Die(_) => n.(ledger := n.ledger.(halted := true))
      case _ => n
  }

  ghost predicate Transition(c: Consensus, sys: System, e: Step, sys': System) {
    Permitted(c, sys, e) && sys' == sys[e.at := NodeAfter(c, sys, e)]
  }

  ghost predicate Initial(sys: System) {
    forall i :: i in sys ==> exists now: nat :: sys[i] == Node(Genesis(Empty, now), {})
  }

  ghost predicate Run(c: Consensus, states: seq<System>, steps: seq<Step>) {
    && Safe(c) && |states| == |steps| + 1 && Initial(states[0])
    && forall k :: 0 <= k < |steps| ==> Transition(c, states[k], steps[k], states[k + 1])
  }

  /******* Everything is on record *******/

  ghost predicate Known(c: Consensus, info: CloseInfo) {
    info.value.Agreed? && info.txset == info.value.txset && OnRecord(c, info.index, info.value)
  }

  /** The header of ledger i has an externalized value and the transaction set it names. */
  ghost predicate Recorded(c: Consensus, h: Header, i: nat) {
    h.value.Agreed? && h.txset == Some(h.value.txset) && OnRecord(c, i, h.value)
  }

  ghost predicate AllRecorded(c: Consensus, headers: map<nat, Header>) {
    forall i :: i in headers && i >= 2 ==> Recorded(c, headers[i], i)
  }

  ghost predicate AllKnown(c: Consensus, infos: seq<CloseInfo>) {
    forall k :: 0 <= k < |infos| ==> Known(c, infos[k])
  }

  ghost predicate LedgerInv(c: Consensus, s: Ledger) {
    Inv(s) && AllRecorded(c, s.headers) && AllKnown(c, s.buffer)
  }

  ghost predicate SystemInv(c: Consensus, sys: System) {
    forall i :: i in sys ==> LedgerInv(c, sys[i].ledger)
  }

  /******* Ledgers from anybody *******/

  /** All that is checked of a downloaded ledger before it is closed. */
  predicate Fits(s: Ledger, info: CloseInfo, applies: TxSet -> bool) {
    && !s.halted && NextSeq(s) == info.index && s.currHash == info.txset.prev
    && info.value.Agreed? && info.value.txset == info.txset && applies(info.txset)
  }

  /** If a downloaded ledger is taken and fits, its value was externalized for its index. */
  ghost predicate Vetted(c: Consensus, sys: System, e: Step) {
    e.Take? && e.at in sys && Fits(sys[e.at].ledger, e.info, e.applies) ==> OnRecord(c, e.info.index, e.info.value)
  }

  ghost predicate AllVetted(c: Consensus, states: seq<System>, steps: seq<Step>) {
    forall k :: 0 <= k < |steps| && k < |states| ==> Vetted(c, states[k], steps[k])
  }

  lemma ClosesIfItFits(s: Ledger, info: CloseInfo, applies: TxSet -> bool, now: int)
    requires Chained(s) && !s.halted
    ensures Close(s, info, applies, now).result == Closed <==> Fits(s, info, applies)
  {}

  lemma CloseRecords(c: Consensus, s: Ledger, info: CloseInfo, applies: TxSet -> bool, now: int)
    requires AllRecorded(c, s.headers) && Known(c, info)
    ensures AllRecorded(c, Close(s, info, applies, now).s.headers)
    ensures Close(s, info, applies, now).s.buffer == s.buffer
  {}

  lemma {:induction false} DrainRecords(c: Consensus, s: Ledger, applies: TxSet -> bool, now: int)
    requires AllRecorded(c, s.headers) && AllKnown(c, s.buffer)
    ensures var t := Drain(s, applies, now).s; AllRecorded(c, t.headers) && AllKnown(c, t.buffer)
    decreases |s.buffer|
  {
    if s.buffer != [] {
      var t := s.(buffer := s.buffer[1..]);
      assert Known(c, s.buffer[0]) && AllKnown(c, t.buffer);
      hide Known, AllRecorded, Close;
      assert AllRecorded(c, t.headers);
      CloseRecords(c, t, s.buffer[0], applies, now);
      var o := Close(t, s.buffer[0], applies, now);
      if o.result == Closed {
        DrainRecords(c, o.s, applies, now);
      }
    }
  }

  lemma RecvExtValRecords(c: Consensus, s: Ledger, info: CloseInfo, applies: TxSet -> bool, now: int)
    requires LedgerInv(c, s) && Known(c, info) && !s.halted && now >= 0
    ensures LedgerInv(c, RecvExtVal(s, info, applies, now))
  {
    RecvExtValKeeps(s, info, applies, now);
    hide Inv, Known;
    CloseRecords(c, s, info, applies, now);
  }

  lemma DownloadedRecords(c: Consensus, s: Ledger, info: CloseInfo, applies: TxSet -> bool, now: int)
    requires LedgerInv(c, s) && !s.halted && now >= 0
    requires Fits(s, info, applies) ==> OnRecord(c, info.index, info.value)
    ensures LedgerInv(c, Downloaded(s, info, applies, now))
  {
    DownloadedKeeps(s, info, applies, now);
    CloseKeeps(s, info, applies, now);
    ClosesIfItFits(s, info, applies, now);
    hide Inv, Chained, OnRecord, Drain;
    if Fits(s, info, applies) {
      assert Known(c, info);
      hide Known;
      CloseRecords(c, s, info, applies, now);
    }
    hide Close;
    DrainRecords(c, Close(s, info, applies, now).s, applies, now);
  }

  lemma {:induction false} DrainExtends(s: Ledger, applies: TxSet -> bool, now: int, i: nat)
    requires Chained(s) && i in s.headers
    ensures var t := Drain(s, applies, now).s; i in t.headers && t.headers[i] == s.headers[i]
    decreases |s.buffer|
  {
    if s.buffer != [] {
      var t := s.(buffer := s.buffer[1..]);
      ChainedElsewhere(s, t);
      CloseKeeps(t, s.buffer[0], applies, now);
      var o := Close(t, s.buffer[0], applies, now);
      if o.result == Closed {
        assert NextSeq(s) !in s.headers;
        DrainExtends(o.s, applies, now, i);
      }
    }
  }

  /** A ledger that fits is closed with its value, and stays. */
  lemma FittingIsClosed(s: Ledger, info: CloseInfo, applies: TxSet -> bool, now: int)
    requires Inv(s) && Fits(s, info, applies)
    ensures var t := Downloaded(s, info, applies, now); info.index in t.headers && t.headers[info.index].value == info.value
  {
    ClosesIfItFits(s, info, applies, now);
    CloseKeeps(s, info, applies, now);
    var t := Close(s, info, applies, now).s;
    assert s.currHash != NoKey && info.index in t.headers && t.headers[info.index].value == info.value;
    hide Chained, Close, Drain;
    DrainExtends(t, applies, now, info.index);
  }

  /** Taking a ledger, whoever sent it, leaves a node with externalized values only, exactly if it
      does not fit or its value was externalized for its index. */
  lemma AnyLedgerExactly(c: Consensus, s: Ledger, info: CloseInfo, applies: TxSet -> bool, now: int)
    requires LedgerInv(c, s) && !s.halted && now >= 0
    ensures AllRecorded(c, Downloaded(s, info, applies, now).headers)
       <==> (Fits(s, info, applies) ==> OnRecord(c, info.index, info.value))
  {
    if Fits(s, info, applies) {
      FittingIsClosed(s, info, applies, now);
      assert info.index >= 2;
    }
    hide Inv, Downloaded, OnRecord, Fits;
    if Fits(s, info, applies) ==> OnRecord(c, info.index, info.value) {
      DownloadedRecords(c, s, info, applies, now);
    } else {
      assert !Recorded(c, Downloaded(s, info, applies, now).headers[info.index], info.index);
    }
  }

  lemma EventRecords(c: Consensus, s: Ledger, e: Event)
    requires LedgerInv(c, s) && Timely(s, e.now) && (e.ExtVal? ==> Known(c, e.info))
    requires e.Ready? && Fits(s, e.info, e.applies) ==> OnRecord(c, e.info.index, e.info.value)
    ensures LedgerInv(c, After(s, e))
  {
    match e
    case ExtVal(info, applies, now) => if !s.halted { RecvExtValRecords(c, s, info, applies, now); }
    case Ready(info, applies, now) => if !s.halted { DownloadedRecords(c, s, info, applies, now); }
    case Reboot(now) => CheckpointRecovers(s, now);
  }

  /** What a peer whose ledgers are on record answers is on record. */
  lemma FetchedIsKnown(c: Consensus, peer: Ledger, i: nat, txset: Option<TxSet>)
    requires LedgerInv(c, peer) && i in peer.headers
    ensures var r := D.Query(i, peer.headers[i], txset); r.Got? ==> Known(c, r.info)
  {
    assert Linked(peer.headers, i);
    if i >= 2 {
      assert Recorded(c, peer.headers[i], i);
    }
  }

  lemma HandedIsKnown(c: Consensus, i: nat, n: B.NodeID, v: B.Value)
    requires ChosenBy(c, i, n, v)
    ensures Handed(c, i, v).Some? ==> Known(c, Handed(c, i, v).value)
  {}

  lemma DyingRecords(c: Consensus, s: Ledger)
    requires LedgerInv(c, s)
    ensures LedgerInv(c, s.(halted := true))
  {
    ChainedElsewhere(s, s.(halted := true));
  }

  lemma EventIsVetted(c: Consensus, sys: System, e: Step)
    requires Permitted(c, sys, e) && Vetted(c, sys, e)
    ensures var s, event := sys[e.at].ledger, EventOf(c, e);
            event.Some? ==>
              && Timely(s, event.value.now) && (event.value.ExtVal? ==> Known(c, event.value.info))
              && (event.value.Ready? && Fits(s, event.value.info, event.value.applies) ==>
                    OnRecord(c, event.value.info.index, event.value.info.value))
  {
    hide Known, ChosenBy, Timely, Fits, OnRecord;
    if e.Externalize? {
      HandedIsKnown(c, e.index, e.at, e.v);
    }
  }

  /** A step is an event of the ledger manager, or stops the process at most. */
  lemma LedgerAfter(c: Consensus, sys: System, e: Step)
    requires Permitted(c, sys, e)
    ensures var s, t, event := sys[e.at].ledger, NodeAfter(c, sys, e).ledger, EventOf(c, e);
            if event.Some? then t == After(s, event.value) else t == s || t == s.(halted := true)
  {
    hide After, ChosenBy, D.Query, Timely, EventOf;
  }

  lemma NodeKeeps(c: Consensus, sys: System, e: Step)
    requires SystemInv(c, sys) && Permitted(c, sys, e) && Vetted(c, sys, e)
    ensures LedgerInv(c, NodeAfter(c, sys, e).ledger)
  {
    hide LedgerInv, After, Known, Timely, EventOf, Fits, OnRecord, Vetted, NodeAfter, ChosenBy;
    var s, event := sys[e.at].ledger, EventOf(c, e);
    LedgerAfter(c, sys, e);
    DyingRecords(c, s);
    if event.Some? {
      EventIsVetted(c, sys, e);
      EventRecords(c, s, event.value);
    }
  }

  lemma TransitionKeeps(c: Consensus, sys: System, e: Step, sys': System)
    requires SystemInv(c, sys) && Transition(c, sys, e, sys') && Vetted(c, sys, e)
    ensures SystemInv(c, sys') && sys'.Keys == sys.Keys
  {
    NodeKeeps(c, sys, e);
    hide LedgerInv, NodeAfter, Permitted, Vetted;
  }

  lemma GenesisRecords(c: Consensus, now: nat)
    ensures LedgerInv(c, Genesis(Empty, now))
  {
    var g := Genesis(Empty, now);
    assert Linked(g.headers, 1);
  }

  lemma InitialRecords(c: Consensus, sys: System)
    requires Initial(sys)
    ensures SystemInv(c, sys) && PoolsKnown(c, sys)
  {
    hide LedgerInv, Genesis, Known;
    forall i | i in sys ensures LedgerInv(c, sys[i].ledger) && sys[i].pool == {} {
      var now: nat :| sys[i] == Node(Genesis(Empty, now), {});
      GenesisRecords(c, now);
    }
  }

  /** In every run every ledger of every node has a value that was externalized for its index, if the
      ledgers that are taken and fit have one. */
  lemma {:induction false} RunRecords(c: Consensus, states: seq<System>, steps: seq<Step>, k: nat)
    requires Run(c, states, steps) && AllVetted(c, states, steps) && k < |states|
    ensures SystemInv(c, states[k]) && states[k].Keys == states[0].Keys
  {
    hide Transition, Initial, SystemInv, Vetted, Safe;
    if k == 0 {
      InitialRecords(c, states[0]);
    } else {
      RunRecords(c, states, steps, k - 1);
      assert Vetted(c, states[k - 1], steps[k - 1]);
      TransitionKeeps(c, states[k - 1], steps[k - 1], states[k]);
    }
  }

  lemma VettedOrNot(c: Consensus, sys: System, e: Step, sys': System)
    requires Transition(c, sys, e, sys') && SystemInv(c, sys) && SystemInv(c, sys')
    ensures Vetted(c, sys, e)
  {
    hide Known, ChosenBy, D.Query, AllRecorded, Chained, Downloaded;
    if e.Take? {
      var s := sys[e.at].ledger;
      assert LedgerInv(c, s) && LedgerInv(c, sys'[e.at].ledger);
      if Fits(s, e.info, e.applies) {
        AnyLedgerExactly(c, s, e.info, e.applies, e.now);
        assert sys'[e.at].ledger == Downloaded(s, e.info, e.applies, e.now);
      }
    }
  }

  /** And only then: at every time of a run all ledgers of all nodes have externalized values exactly if
      each downloaded ledger that is taken and fits has one. */
  lemma RunRecordsExactly(c: Consensus, states: seq<System>, steps: seq<Step>)
    requires Run(c, states, steps)
    ensures (forall k :: 0 <= k < |states| ==> SystemInv(c, states[k])) <==> AllVetted(c, states, steps)
  {
    hide Transition, Initial, SystemInv, Vetted, Safe;
    if AllVetted(c, states, steps) {
      forall k | 0 <= k < |states| ensures SystemInv(c, states[k]) {
        RunRecords(c, states, steps, k);
      }
    }
    if forall k :: 0 <= k < |states| ==> SystemInv(c, states[k]) {
      forall k | 0 <= k < |steps| ensures Vetted(c, states[k], steps[k]) {
        VettedOrNot(c, states[k], steps[k], states[k + 1]);
      }
    }
  }

  /******* Answers of the system alone *******/

  ghost predicate PoolsKnown(c: Consensus, sys: System) {
    forall i, info :: i in sys && info in sys[i].pool ==> Known(c, info)
  }

  lemma PoolKeeps(c: Consensus, sys: System, e: Step, sys': System)
    requires Transition(c, sys, e, sys') && SystemInv(c, sys) && PoolsKnown(c, sys) && !e.Hear?
    ensures PoolsKnown(c, sys')
  {
    if e.Fetch? {
      assert LedgerInv(c, sys[e.peer].ledger);
      FetchedIsKnown(c, sys[e.peer].ledger, e.index, e.txset);
    }
    hide LedgerInv, After, Known, D.Query, ChosenBy, Timely;
    var n := NodeAfter(c, sys, e);
    forall i, info | i in sys' && info in sys'[i].pool ensures Known(c, info) {
      if i == e.at {
        assert info in sys[i].pool || (e.Fetch? && Brought(sys[i], D.Query(e.index, sys[e.peer].ledger.headers[e.index], e.txset)) == n);
      }
    }
  }

  lemma {:induction false} PoolsStayKnown(c: Consensus, states: seq<System>, steps: seq<Step>, k: nat)
    requires Run(c, states, steps) && k < |states| && forall j :: 0 <= j < |steps| ==> !steps[j].Hear?
    ensures SystemInv(c, states[k]) && PoolsKnown(c, states[k])
  {
    hide Transition, Initial, SystemInv, PoolsKnown, Vetted, Safe;
    if k == 0 {
      InitialRecords(c, states[0]);
    } else {
      PoolsStayKnown(c, states, steps, k - 1);
      KnownIsVetted(c, states[k - 1], steps[k - 1], states[k]);
      TransitionKeeps(c, states[k - 1], steps[k - 1], states[k]);
      PoolKeeps(c, states[k - 1], steps[k - 1], states[k]);
    }
  }

  lemma KnownIsVetted(c: Consensus, sys: System, e: Step, sys': System)
    requires Transition(c, sys, e, sys') && PoolsKnown(c, sys)
    ensures Vetted(c, sys, e)
  {
    hide NodeAfter, OnRecord, Fits;
    if e.Take? {
      assert Known(c, e.info);
    }
  }

  /** If workers are answered by nodes of the system alone, the ledgers that fit have externalized values. */
  lemma SystemIsVetted(c: Consensus, states: seq<System>, steps: seq<Step>)
    requires Run(c, states, steps) && forall k :: 0 <= k < |steps| ==> !steps[k].Hear?
    ensures AllVetted(c, states, steps)
  {
    hide Transition, Initial, SystemInv, PoolsKnown, Vetted, Safe;
    forall k | 0 <= k < |steps| ensures Vetted(c, states[k], steps[k]) {
      PoolsStayKnown(c, states, steps, k);
      KnownIsVetted(c, states[k], steps[k], states[k + 1]);
    }
  }

  /******* No fork *******/

  lemma {:induction false} SameHeader(c: Consensus, s: Ledger, t: Ledger, i: nat)
    requires Safe(c) && LedgerInv(c, s) && LedgerInv(c, t) && i in s.headers && i in t.headers
    ensures s.headers[i] == t.headers[i]
  {
    assert Linked(s.headers, i) && Linked(t.headers, i);
    if i >= 2 {
      SameHeader(c, s, t, i - 1);
      assert Recorded(c, s.headers[i], i) && Recorded(c, t.headers[i], i);
      OneRecord(c, i, s.headers[i].value, t.headers[i].value);
    }
  }

  /** One of two ledgers goes on where the other one ends, and equally long ones are the same. */
  ghost predicate OneChain(s: Ledger, t: Ledger) {
    && (forall i :: i in s.headers && i in t.headers ==> s.headers[i] == t.headers[i])
    && (NextSeq(s) <= NextSeq(t) ==> s.headers.Keys <= t.headers.Keys)
    && (NextSeq(s) == NextSeq(t) ==> s.headers == t.headers && s.currHash == t.currHash)
  }

  lemma RecordedIsOneChain(c: Consensus, s: Ledger, t: Ledger)
    requires Safe(c) && LedgerInv(c, s) && LedgerInv(c, t)
    ensures OneChain(s, t)
  {
    forall i | i in s.headers && i in t.headers ensures s.headers[i] == t.headers[i] {
      SameHeader(c, s, t, i);
    }
    if NextSeq(s) == NextSeq(t) {
      assert s.headers.Keys == t.headers.Keys;
      assert s.headers == t.headers;
    }
  }

  /**
   No fork. In every run of any number of nodes, with downloads and restarts, the ledgers of two
   nodes at any two times are parts of one chain, if downloaded ledgers that fit have externalized
   values, whoever sent them.
   */
  lemma NoFork(c: Consensus, states: seq<System>, steps: seq<Step>, a: B.NodeID, k: nat, b: B.NodeID, m: nat)
    requires Run(c, states, steps) && AllVetted(c, states, steps)
    requires k < |states| && m < |states| && a in states[k] && b in states[m]
    ensures OneChain(states[k][a].ledger, states[m][b].ledger)
  {
    RunRecords(c, states, steps, k);
    RunRecords(c, states, steps, m);
    hide Transition, Initial, Safe, LedgerInv, OneChain, AllVetted;
    assert LedgerInv(c, states[k][a].ledger) && LedgerInv(c, states[m][b].ledger);
    RecordedIsOneChain(c, states[k][a].ledger, states[m][b].ledger);
  }

  /******* Accounts *******/

  /** Applying the set of a ledger to the accounts: its list in some order, some order of equal sequence
      numbers; fees is what was charged. */
  ghost predicate AppliedAs(s: T.Books, txset: TxSet, conf: A.Config, fees: int, t: T.Books,
                            txs: seq<T.Tx>, order: seq<T.Tx>, run: seq<T.Tx>) {
    && multiset(txs) == txset.txs && T.AllExist(s.db, txs)
    && T.MayYield(s, txs, conf, order, run, T.Finished(t))
    && fees == C.FeeSum(T.ChargeTxs(T.FeePhase(s, []), order).rest)
  }

  ghost predicate Applied(s: T.Books, txset: TxSet, conf: A.Config, fees: int, t: T.Books) {
    exists txs, order, run :: AppliedAs(s, txset, conf, fees, t, txs, order, run)
  }

  /** The accounts s become t, and fees are charged, if the ledgers up to a hash are applied one after
      the other from genesis on. */
  ghost predicate Replays(key: Key, s: T.Books, conf: A.Config, fees: int, t: T.Books)
    decreases key
  {
    if key.NoKey? then false
    else if key.header.txset.None? then fees == 0 && t == s
    else exists before, paid :: ReplaysFrom(key.header, s, conf, paid, before, fees, t)
  }

  ghost predicate ReplaysFrom(h: Header, s: T.Books, conf: A.Config, paid: int, before: T.Books, fees: int, t: T.Books)
    decreases h
  {
    && h.txset.Some? && Replays(h.prev, s, conf, paid, before)
    && Applied(before, h.txset.value, conf.(ledgerSeq := h.seqNum), fees - paid, t)
  }

  /** One more ledger. */
  lemma ReplayGoesOn(h: Header, s: T.Books, conf: A.Config, fees: int, before: T.Books, paid: int, t: T.Books)
    requires h.txset.Some? && Applied(before, h.txset.value, conf.(ledgerSeq := h.seqNum), paid, t)
    ensures Replays(h.prev, s, conf, fees, before) ==> Replays(KeyOf(h), s, conf, fees + paid, t)
  {
    hide Applied;
    if Replays(h.prev, s, conf, fees, before) {
      assert ReplaysFrom(h, s, conf, fees, before, fees + paid, t);
    }
  }

  /** In every set up to a hash, transactions with equal sequence numbers touch different accounts. */
  ghost predicate Orderly(key: Key)
    decreases key
  {
    key.KeyOf? && key.header.txset.Some? ==>
      Ties.TiesIndependent(key.header.txset.value.txs) && Orderly(key.header.prev)
  }

  lemma AppliedOnce(s: T.Books, txset: TxSet, conf: A.Config, fees: int, t: T.Books, fees': int, t': T.Books)
    requires Ties.TiesIndependent(txset.txs) && Applied(s, txset, conf, fees, t) && Applied(s, txset, conf, fees', t')
    ensures fees == fees' && t == t'
  {
    hide T.Ascending, T.ApplyTxs, T.AllExist, Ties.TiesIndependent, C.FeeSum, T.ChargeTxs;
    var txs, order, run :| AppliedAs(s, txset, conf, fees, t, txs, order, run);
    var txs', order', run' :| AppliedAs(s, txset, conf, fees', t', txs', order', run');
    Ties.TiesDoNotMatter(s, txs, txs', conf, order, run, T.Finished(t), order', run', T.Finished(t'));
    C.FeeSumPermutes(T.ChargeTxs(T.FeePhase(s, []), order).rest, T.ChargeTxs(T.FeePhase(s, []), order').rest);
  }

  /** The ledgers determine the accounts if their sets are orderly. */
  lemma {:induction false} ReplaysOnce(key: Key, s: T.Books, conf: A.Config, fees: int, t: T.Books, fees': int, t': T.Books)
    requires Orderly(key) && Replays(key, s, conf, fees, t) && Replays(key, s, conf, fees', t')
    ensures fees == fees' && t == t'
    decreases key
  {
    hide Applied, Ties.TiesIndependent;
    var h := key.header;
    if h.txset.Some? {
      var before, paid :| ReplaysFrom(h, s, conf, paid, before, fees, t);
      var before', paid' :| ReplaysFrom(h, s, conf, paid', before', fees', t');
      ReplaysOnce(h.prev, s, conf, paid, before, paid', before');
      AppliedOnce(before, h.txset.value, conf.(ledgerSeq := h.seqNum), fees - paid, t, fees' - paid', t');
    }
  }

  /** With other ties they do not: a ledger that two nodes may apply to the same accounts with different
      outcomes. */
  lemma TiesDiverge() returns (key: Key, s: T.Books, conf: A.Config, fees: int, t: T.Books, fees': int, t': T.Books)
    ensures Replays(key, s, conf, fees, t) && Replays(key, s, conf, fees', t') && t != t'
  {
    hide T.MayYield, T.ChargeTxs, C.FeeSum;
    var a, b, o, o';
    s, conf, a, b, o, o' := T.TiesMatter(2);
    var txset := TxSet(KeyOf(GENESIS), multiset([a, b]));
    var h := Header(2, KeyOf(GENESIS), Some(txset), Agreed(txset, 0));
    fees := C.FeeSum(T.ChargeTxs(T.FeePhase(s, []), [a, b]).rest);
    fees' := C.FeeSum(T.ChargeTxs(T.FeePhase(s, []), [b, a]).rest);
    key, t, t' := KeyOf(h), o.s, o'.s;
    assert AppliedAs(s, txset, conf, fees, t, [a, b], [a, b], [a, b]);
    assert AppliedAs(s, txset, conf, fees', t', [a, b], [b, a], [b, a]);
    assert Applied(s, txset, conf, fees, t) && Applied(s, txset, conf, fees', t');
    hide Applied;
    assert conf.(ledgerSeq := h.seqNum) == conf && Replays(KeyOf(GENESIS), s, conf, 0, s);
    assert ReplaysFrom(h, s, conf, 0, s, fees, t);
    assert ReplaysFrom(h, s, conf, 0, s, fees', t');
  }

  /******* Accounts on runs *******/

  /** The books of a node and the fees it has charged; whole unless a list was left half applied. */
  datatype Till = Till(books: T.Books, fees: int, whole: bool)

  /** From the ledgers up to one hash to those up to another, their sets are applied one by one. */
  ghost predicate Grows(base: Key, tip: Key, conf: A.Config, x: T.Books, fees: int, y: T.Books)
    decreases tip
  {
    if tip == base then y == x && fees == 0
    else tip.KeyOf? && exists mid, paid :: GrowsBy(base, tip.header, conf, x, paid, mid, fees, y)
  }

  ghost predicate GrowsBy(base: Key, h: Header, conf: A.Config, x: T.Books, paid: int, mid: T.Books, fees: int, y: T.Books)
    decreases h
  {
    && h.txset.Some? && Grows(base, h.prev, conf, x, paid, mid)
    && Applied(mid, h.txset.value, conf.(ledgerSeq := h.seqNum), fees - paid, y)
  }

  lemma {:induction false} GrowthReplays(base: Key, tip: Key, first: T.Books, conf: A.Config,
                                         had: int, x: T.Books, fees: int, y: T.Books)
    requires Replays(base, first, conf, had, x) && Grows(base, tip, conf, x, fees, y)
    ensures Replays(tip, first, conf, had + fees, y)
    decreases tip
  {
    hide Applied;
    if tip != base {
      var mid, paid :| GrowsBy(base, tip.header, conf, x, paid, mid, fees, y);
      GrowthReplays(base, tip.header.prev, first, conf, had, x, paid, mid);
      assert ReplaysFrom(tip.header, first, conf, had + paid, mid, had + fees, y);
    }
  }

  /** A list is refused for an account that is missing, when others may have been charged already. */
  predicate ListFails(s: Ledger, e: Event) {
    !s.halted &&
    match e
    case ExtVal(info, applies, now) =>
      s.state != Syncing && NextSeq(s) == info.index && Close(s, info, applies, now).result == TxsFailed
    case Ready(info, applies, now) =>
      var o := Close(s, info, applies, now);
      || o.result == TxsFailed
      || (!o.s.halted && o.s.buffer != [] && NextSeq(o.s) == o.s.buffer[0].index
          && Drain(o.s, applies, now).result == TxsFailed)
    case Reboot(_) => false
  }

  ghost predicate TillFollows(c: Consensus, conf: A.Config, s: Ledger, e: Step, t: Ledger, x: Till, y: Till) {
    var event := EventOf(c, e);
    if e.Die? || (event.Some? && ListFails(s, event.value)) then !y.whole
    else y.whole == x.whole && Grows(s.currHash, t.currHash, conf, x.books, y.fees - x.fees, y.books)
  }

  /** The tills of a run: a step concerns the till of its node alone. */
  ghost predicate TillStep(c: Consensus, conf: A.Config, sys: System, e: Step, sys': System,
                           x: map<B.NodeID, Till>, y: map<B.NodeID, Till>) {
    && e.at in sys && e.at in sys' && e.at in x && e.at in y && y == x[e.at := y[e.at]]
    && TillFollows(c, conf, sys[e.at].ledger, e, sys'[e.at].ledger, x[e.at], y[e.at])
  }

  ghost predicate TillRun(c: Consensus, states: seq<System>, steps: seq<Step>, first: T.Books, conf: A.Config,
                          tills: seq<map<B.NodeID, Till>>) {
    && Run(c, states, steps) && |tills| == |states|
    && tills[0] == (map i | i in states[0] :: Till(first, 0, true))
    && forall k :: 0 <= k < |steps| ==>
         TillStep(c, conf, states[k], steps[k], states[k + 1], tills[k], tills[k + 1])
  }

  ghost predicate TillsReplay(sys: System, x: map<B.NodeID, Till>, first: T.Books, conf: A.Config) {
    && x.Keys == sys.Keys
    && forall i :: i in sys && x[i].whole ==> Replays(sys[i].ledger.currHash, first, conf, x[i].fees, x[i].books)
  }

  lemma TillStepKeeps(c: Consensus, sys: System, e: Step, sys': System, first: T.Books, conf: A.Config,
                      x: map<B.NodeID, Till>, y: map<B.NodeID, Till>)
    requires Transition(c, sys, e, sys') && TillStep(c, conf, sys, e, sys', x, y)
    requires TillsReplay(sys, x, first, conf)
    ensures TillsReplay(sys', y, first, conf)
  {
    hide NodeAfter, Permitted, Replays, Grows, ListFails, EventOf;
    var s, t := sys[e.at].ledger, sys'[e.at].ledger;
    if y[e.at].whole {
      GrowthReplays(s.currHash, t.currHash, first, conf, x[e.at].fees, x[e.at].books,
                    y[e.at].fees - x[e.at].fees, y[e.at].books);
    }
  }

  /** In every run the books of a node on which no list was left half applied are what its ledgers
      make of the first books. */
  lemma {:induction false} RunReplays(c: Consensus, states: seq<System>, steps: seq<Step>, first: T.Books, conf: A.Config,
                                      tills: seq<map<B.NodeID, Till>>, k: nat)
    requires TillRun(c, states, steps, first, conf, tills) && k < |states|
    ensures TillsReplay(states[k], tills[k], first, conf)
  {
    hide Transition, TillStep, Safe;
    if k == 0 {
      forall i | i in states[0] ensures Replays(states[0][i].ledger.currHash, first, conf, 0, first) {
        var now: nat :| states[0][i] == Node(Genesis(Empty, now), {});
      }
    } else {
      hide TillsReplay, Initial;
      RunReplays(c, states, steps, first, conf, tills, k - 1);
      TillStepKeeps(c, states[k - 1], steps[k - 1], states[k], first, conf, tills[k - 1], tills[k]);
    }
  }

  /**
   Replication. In every run, two nodes whose current ledger has the same number, at whatever times,
   hold the same accounts, trusts and statuses and have charged the same fees, in whatever order
   their lists came and their account maps were read, if downloaded ledgers that fit have externalized
   values, the sets are orderly and neither node has left a list half applied.
   */
  lemma Replicated(c: Consensus, states: seq<System>, steps: seq<Step>, first: T.Books, conf: A.Config,
                   tills: seq<map<B.NodeID, Till>>, a: B.NodeID, k: nat, b: B.NodeID, m: nat)
    requires TillRun(c, states, steps, first, conf, tills) && AllVetted(c, states, steps) && k < |states| && m < |states|
    requires a in states[k] && b in states[m] && a in tills[k] && b in tills[m]
    requires tills[k][a].whole && tills[m][b].whole
    requires NextSeq(states[k][a].ledger) == NextSeq(states[m][b].ledger) && Orderly(states[k][a].ledger.currHash)
    ensures tills[k][a] == tills[m][b]
  {
    RunReplays(c, states, steps, first, conf, tills, k);
    RunReplays(c, states, steps, first, conf, tills, m);
    NoFork(c, states, steps, a, k, b, m);
    hide Run, AllVetted, Replays, Orderly, TillStep;
    var x, y := tills[k][a], tills[m][b];
    ReplaysOnce(states[k][a].ledger.currHash, first, conf, x.fees, x.books, y.fees, y.books);
  }

  /******* What the whole history keeps *******/

  ghost predicate Mild(key: Key, conf: A.Config)
    decreases key
  {
    key.KeyOf? && key.header.txset.Some? ==>
      && Mild(key.header.prev, conf)
      && forall tx :: tx in key.header.txset.value.txs ==> C.MildTx(tx, conf.(ledgerSeq := key.header.seqNum))
  }

  lemma AppliedConserves(s: T.Books, txset: TxSet, conf: A.Config, fees: int, t: T.Books)
    requires Applied(s, txset, conf, fees, t)
    ensures C.Counted(s.db) ==> C.Counted(t.db)
    ensures (forall tx :: tx in txset.txs ==> C.MildTx(tx, conf)) ==> A.Total(t.db.accounts) + fees == A.Total(s.db.accounts)
  {
    hide T.MayYield, T.AllExist, C.FeeSum, T.ChargeTxs, A.Total, C.Counted, C.MildTx;
    var txs, order, run :| AppliedAs(s, txset, conf, fees, t, txs, order, run);
    if C.Counted(s.db) {
      C.ListCounted(s, txs, conf, order, run, T.Finished(t));
    }
    if forall tx :: tx in txset.txs ==> C.MildTx(tx, conf) {
      forall i | 0 <= i < |txs| ensures C.MildTx(txs[i], conf) {
        assert txs[i] in multiset(txs);
      }
      C.MildListIsExact(s, txs, conf, order, run, T.Finished(t));
    }
  }

  /** Over the whole history of a ledger the native balances and the fees add up to what there was at
      genesis, and entry counts stay right. */
  lemma {:induction false} HistoryConserves(key: Key, s: T.Books, conf: A.Config, fees: int, t: T.Books)
    requires Replays(key, s, conf, fees, t)
    ensures C.Counted(s.db) ==> C.Counted(t.db)
    ensures Mild(key, conf) ==> A.Total(t.db.accounts) + fees == A.Total(s.db.accounts)
    decreases key
  {
    hide Applied, A.Total, C.Counted, C.MildTx;
    var h := key.header;
    if h.txset.Some? {
      var before, paid :| ReplaysFrom(h, s, conf, paid, before, fees, t);
      HistoryConserves(h.prev, s, conf, paid, before);
      AppliedConserves(before, h.txset.value, conf.(ledgerSeq := h.seqNum), fees - paid, t);
    }
  }

  const GENESIS_TOKENS: A.Money := 4_500_000_000_000_000_000

  /** The accounts of a new node: the master account with all tokens. */
  function FirstBooks(master: A.Id): T.Books {
    T.Books(A.Db(map[master := A.NewAccount(GENESIS_TOKENS, master, 1)], map[]), map[])
  }

  /** So in every run there are never more nor fewer tokens than the master account started with. */
  lemma SupplyIsFixed(c: Consensus, states: seq<System>, steps: seq<Step>, master: A.Id, conf: A.Config,
                      tills: seq<map<B.NodeID, Till>>, i: B.NodeID, k: nat)
    requires TillRun(c, states, steps, FirstBooks(master), conf, tills) && k < |states|
    requires i in states[k] && i in tills[k] && tills[k][i].whole && Mild(states[k][i].ledger.currHash, conf)
    ensures A.Total(tills[k][i].books.db.accounts) + tills[k][i].fees == GENESIS_TOKENS
    ensures C.Counted(tills[k][i].books.db)
  {
    var s, x := FirstBooks(master), tills[k][i];
    RunReplays(c, states, steps, s, conf, tills, k);
    FirstTotal(master);
    hide Run, Replays, TillStep, Mild, FirstBooks, A.Total, C.Counted;
    HistoryConserves(states[k][i].ledger.currHash, s, conf, x.fees, x.books);
  }

  lemma FirstTotal(master: A.Id)
    ensures var s := FirstBooks(master); A.Total(s.db.accounts) == GENESIS_TOKENS && C.Counted(s.db)
  {
    var s := FirstBooks(master);
    A.TotalSave(map[], master, s.db.accounts[master]);
    assert map[][master := s.db.accounts[master]] == s.db.accounts;
    assert C.Holdings(s.db, master) == {};
  }
}
