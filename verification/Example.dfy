/**
 The results on networks and on whole systems are about something: a network that decides, and a
 system in which one node closes a ledger with the decision and another one downloads it.
 */
module Example {
  import opened Common
  import opened Ledgers
  import B = Ballots
  import Q = Quorums
  import P = Protocol
  import I = Invariants
  import E = Reentry
  import N = Network
  import D = Downloads
  import R = Replication
  import S = Solo
  import A = Accounts
  import T = Transactions
  import Ties

  /** The only node of the network, with its quorum under hash 1. */
  function Start(index: nat): P.State {
    S.Newborn(1, index, 1, map[1 := S.Alone(1)], {0})
  }

  lemma SlicesHoldIt(nodes: set<B.NodeID>)
    requires Q.IsSlice(S.Alone(1), nodes)
    ensures 1 in nodes
  {
    assert [1][..0] == [];
    assert Q.CountIn([1], nodes) == if 1 in nodes then 1 else 0;
  }

  lemma OneNodeMeets(good: set<B.NodeID>)
    requires 1 in good
    ensures N.SlicesMeet(S.Alone(1), S.Alone(1), good)
  {
    forall a: set<B.NodeID>, b: set<B.NodeID> | Q.IsSlice(S.Alone(1), a) && Q.IsSlice(S.Alone(1), b)
      ensures a * b * good != {}
    {
      SlicesHoldIt(a);
      SlicesHoldIt(b);
      assert 1 in a * b * good;
    }
  }

  /** The network of one index: the node starts and decides on value 0. */
  ghost function Decided(index: nat): seq<N.Net> {
    [map[1 := Start(index)], map[1 := N.Begin(Start(index), 0)]]
  }

  lemma ItDecides(index: nat)
    ensures N.Run(Decided(index), [N.Start(1, 0)]) && Decided(index)[1][1].ext == [0]
  {
    hide E.Propose;
    S.ProposalDecides(Start(index), 0);
    hide I.Inv;
    var states := Decided(index);
    assert N.Initial(states[0]);
    assert states[0][1 := states[1][1]] == states[1];
  }

  function Chosen(): Value {
    Agreed(TxSet(KeyOf(GENESIS), multiset{}), 0)
  }

  ghost function Alone(): R.Consensus {
    R.Consensus(i => {1}, i => Decided(i), i => [N.Start(1, 0)], v => Chosen())
  }

  lemma AloneIsSafe()
    ensures R.Safe(Alone()) && forall i: nat :: R.ChosenBy(Alone(), i, 1, 0)
  {
    forall i: nat ensures R.SafeRun(Alone(), i) && R.ChosenBy(Alone(), i, 1, 0) {
      ItDecides(i);
      OneNodeMeets({1});
      hide N.Run, N.SlicesMeet, N.Begin;
      assert Decided(i)[0].Keys == {1};
      assert 0 in Alone().runs(i)[1][1].ext;
    }
  }

  predicate Applies(txset: TxSet) {
    true
  }

  function Second(): CloseInfo {
    CloseInfo(2, Chosen(), Chosen().txset)
  }

  /** Genesis, and then the ledger that was decided on. */
  function Closed(): Ledger {
    Advance(Genesis(Empty, 0), 2, KeyOf(GENESIS), Some(Second().txset), Chosen(), 0)
  }

  lemma SecondIsClosed()
    ensures var g := Genesis(Empty, 0);
            && After(g, ExtVal(Second(), Applies, 0)) == Closed().(largest := 2, state := Synced)
            && After(g, Ready(Second(), Applies, 0)) == Closed()
            && D.Query(2, Closed().headers[2], Some(Second().txset)) == D.Got(Second())
            && R.Handed(Alone(), 2, 0) == Some(Second())
  {}

  function State(k: nat): R.System {
    var g := R.Node(Genesis(Empty, 0), {});
    var one := R.Node(Closed().(largest := 2, state := Synced), {});
    match k
    case 0 => map[1 := g, 2 := g]
    case 1 => map[1 := one, 2 := g]
    case 2 => map[1 := one, 2 := g.(pool := {Second()})]
    case _ => map[1 := one, 2 := R.Node(Closed(), {Second()})]
  }

  lemma FirstStep()
    ensures R.Transition(Alone(), State(0), R.Externalize(1, 2, 0, Applies, 0), State(1))
  {
    AloneIsSafe();
    SecondIsClosed();
    hide Alone, After, R.ChosenBy, R.Handed, Closed;
  }

  lemma SecondStep()
    ensures R.Transition(Alone(), State(1), R.Fetch(2, 1, 2, Some(Second().txset)), State(2))
  {
    SecondIsClosed();
    assert 2 in Closed().headers;
    hide Alone, D.Query, Closed, Second;
    var n := State(1)[2];
    assert n.pool + {Second()} == {Second()};
    assert State(1)[2 := n.(pool := {Second()})] == State(2);
  }

  lemma ThirdStep()
    ensures R.Transition(Alone(), State(2), R.Take(2, Second(), Applies, 0), State(3))
  {
    SecondIsClosed();
    hide Alone, After, Closed, Second;
  }

  lemma Ends()
    ensures R.Initial(State(0))
    ensures 1 in State(3) && 2 in State(3) && NextSeq(State(3)[1].ledger) == NextSeq(State(3)[2].ledger) == 3
  {
    assert State(0)[1] == State(0)[2] == R.Node(Genesis(Empty, 0), {});
  }

  lemma ThreeSteps(c: R.Consensus, a: R.System, b: R.System, d: R.System, e: R.System, x: R.Step, y: R.Step, z: R.Step)
    requires R.Safe(c) && R.Initial(a) && R.Transition(c, a, x, b) && R.Transition(c, b, y, d) && R.Transition(c, d, z, e)
    ensures R.Run(c, [a, b, d, e], [x, y, z])
  {
    hide R.Transition, R.Initial, R.Safe;
  }

  /** Node 1 externalizes, node 2 downloads from it, and both have closed the second ledger. */
  lemma LedgersSpread() returns (states: seq<R.System>, steps: seq<R.Step>)
    ensures R.Run(Alone(), states, steps) && states == [State(0), State(1), State(2), State(3)]
    ensures steps == [R.Externalize(1, 2, 0, Applies, 0), R.Fetch(2, 1, 2, Some(Second().txset)), R.Take(2, Second(), Applies, 0)]
    ensures 1 in states[3] && 2 in states[3] && NextSeq(states[3][1].ledger) == NextSeq(states[3][2].ledger) == 3
  {
    hide *;
    AloneIsSafe();
    FirstStep();
    SecondStep();
    ThirdStep();
    Ends();
    states := [State(0), State(1), State(2), State(3)];
    steps := [R.Externalize(1, 2, 0, Applies, 0), R.Fetch(2, 1, 2, Some(Second().txset)), R.Take(2, Second(), Applies, 0)];
    ThreeSteps(Alone(), State(0), State(1), State(2), State(3), steps[0], steps[1], steps[2]);
    assert steps == [steps[0], steps[1], steps[2]];
  }

  /******* A forged ledger *******/

  /** A ledger that fits genesis, with a value that nobody externalized. */
  function Forged(): CloseInfo {
    CloseInfo(2, Agreed(Second().txset, 1), Second().txset)
  }

  function Misled(): Ledger {
    Advance(Genesis(Empty, 0), 2, KeyOf(GENESIS), Some(Forged().txset), Forged().value, 0)
  }

  lemma NobodyChoseIt()
    ensures !R.OnRecord(Alone(), 2, Forged().value)
  {}

  lemma ForgedIsClosed()
    ensures D.Query(2, HeaderOf(Forged()), Some(Forged().txset)) == D.Got(Forged())
    ensures After(Genesis(Empty, 0), Ready(Forged(), Applies, 0)) == Misled()
    ensures R.Fits(Genesis(Empty, 0), Forged(), Applies)
  {}

  /** Node 1 externalizes; node 2 hears the forged ledger and takes it. */
  function Divided(k: nat): R.System {
    var g := R.Node(Genesis(Empty, 0), {});
    var one := R.Node(Closed().(largest := 2, state := Synced), {});
    match k
    case 0 => map[1 := g, 2 := g]
    case 1 => map[1 := one, 2 := g]
    case 2 => map[1 := one, 2 := g.(pool := {Forged()})]
    case _ => map[1 := one, 2 := R.Node(Misled(), {Forged()})]
  }

  lemma HearStep()
    ensures R.Transition(Alone(), Divided(1), R.Hear(2, 2, HeaderOf(Forged()), Some(Forged().txset)), Divided(2))
  {
    ForgedIsClosed();
    hide Alone, D.Query, Closed, Forged, Misled;
    var n := Divided(1)[2];
    assert n.pool + {Forged()} == {Forged()};
    assert Divided(1)[2 := n.(pool := {Forged()})] == Divided(2);
  }

  lemma MisledStep()
    ensures R.Transition(Alone(), Divided(2), R.Take(2, Forged(), Applies, 0), Divided(3))
    ensures !R.Vetted(Alone(), Divided(2), R.Take(2, Forged(), Applies, 0))
  {
    ForgedIsClosed();
    NobodyChoseIt();
    hide Alone, After, Closed, Forged, Misled, R.OnRecord;
  }

  lemma SameStart()
    ensures Divided(0) == State(0) && Divided(1) == State(1)
  {}

  lemma Forked()
    ensures 1 in Divided(3) && 2 in Divided(3)
    ensures var one, two := Divided(3)[1].ledger, Divided(3)[2].ledger;
            2 in one.headers && 2 in two.headers && one.headers[2] != two.headers[2]
  {}

  /** Without the condition nodes fork: a run in which one node closes a ledger whose value nobody
      externalized, and two nodes hold different headers at one index. */
  lemma ForgedForks() returns (states: seq<R.System>, steps: seq<R.Step>)
    ensures R.Run(Alone(), states, steps) && |states| == 4 && 1 in states[3] && 2 in states[3]
    ensures var one, two := states[3][1].ledger, states[3][2].ledger;
            2 in one.headers && 2 in two.headers && one.headers[2] != two.headers[2]
    ensures !R.AllVetted(Alone(), states, steps)
  {
    hide *;
    AloneIsSafe();
    FirstStep();
    SameStart();
    HearStep();
    MisledStep();
    Forked();
    Ends();
    states := [Divided(0), Divided(1), Divided(2), Divided(3)];
    steps := [R.Externalize(1, 2, 0, Applies, 0), R.Hear(2, 2, HeaderOf(Forged()), Some(Forged().txset)), R.Take(2, Forged(), Applies, 0)];
    ThreeSteps(Alone(), Divided(0), Divided(1), Divided(2), Divided(3), steps[0], steps[1], steps[2]);
    NotAllVetted(Alone(), states, steps, 2);
  }

  lemma NotAllVetted(c: R.Consensus, states: seq<R.System>, steps: seq<R.Step>, k: nat)
    requires k < |steps| && k < |states| && !R.Vetted(c, states[k], steps[k])
    ensures !R.AllVetted(c, states, steps)
  {}

  /******* The accounts *******/

  lemma NothingIsApplied(s: T.Books, conf: A.Config)
    ensures R.Applied(s, Second().txset, conf, 0, s)
  {
    assert multiset([]) == Second().txset.txs;
    assert R.AppliedAs(s, Second().txset, conf, 0, s, [], [], []);
  }

  lemma GrowsToSecond(s: T.Books, conf: A.Config)
    ensures R.Grows(Genesis(Empty, 0).currHash, Closed().currHash, conf, s, 0, s)
  {
    NothingIsApplied(s, conf.(ledgerSeq := 2));
    var h := Closed().curr.value;
    assert Genesis(Empty, 0).currHash == h.prev == KeyOf(GENESIS);
    hide R.Applied;
    assert R.GrowsBy(h.prev, h, conf, s, 0, s, 0, s);
  }

  function Tills(s: T.Books): map<B.NodeID, R.Till> {
    map[1 := R.Till(s, 0, true), 2 := R.Till(s, 0, true)]
  }

  lemma TillsFollow(s: T.Books, conf: A.Config)
    ensures R.TillStep(Alone(), conf, State(0), R.Externalize(1, 2, 0, Applies, 0), State(1), Tills(s), Tills(s))
    ensures R.TillStep(Alone(), conf, State(1), R.Fetch(2, 1, 2, Some(Second().txset)), State(2), Tills(s), Tills(s))
    ensures R.TillStep(Alone(), conf, State(2), R.Take(2, Second(), Applies, 0), State(3), Tills(s), Tills(s))
  {
    GrowsToSecond(s, conf);
    assert R.Handed(Alone(), 2, 0) == Some(Second());
    var g := Genesis(Empty, 0);
    assert !R.ListFails(g, ExtVal(Second(), Applies, 0)) && !R.ListFails(g, Ready(Second(), Applies, 0));
    assert R.Grows(g.currHash, g.currHash, conf, s, 0, s);
    hide Alone, R.ListFails, R.Grows, Close, Closed;
    assert Tills(s)[1 := Tills(s)[1]] == Tills(s) && Tills(s)[2 := Tills(s)[2]] == Tills(s);
  }

  lemma FourTills(c: R.Consensus, states: seq<R.System>, steps: seq<R.Step>, first: T.Books, conf: A.Config,
                  x: map<B.NodeID, R.Till>)
    requires R.Run(c, states, steps) && |states| == 4 && |steps| == 3
    requires x == map i | i in states[0] :: R.Till(first, 0, true)
    requires R.TillStep(c, conf, states[0], steps[0], states[1], x, x)
    requires R.TillStep(c, conf, states[1], steps[1], states[2], x, x)
    requires R.TillStep(c, conf, states[2], steps[2], states[3], x, x)
    ensures R.TillRun(c, states, steps, first, conf, [x, x, x, x])
  {
    hide R.TillStep, R.Run;
  }

  lemma TwoTills(first: T.Books)
    ensures Tills(first) == map i | i in State(0) :: R.Till(first, 0, true)
  {
    assert State(0).Keys == {1, 2};
  }

  /** All conditions of replication are met by this run, for any first accounts. */
  lemma AccountsSpread(first: T.Books, conf: A.Config) returns (states: seq<R.System>, steps: seq<R.Step>)
    ensures var x := Tills(first);
            |states| == 4 && R.TillRun(Alone(), states, steps, first, conf, [x, x, x, x])
    ensures 1 in states[3] && 2 in states[3] && NextSeq(states[3][1].ledger) == NextSeq(states[3][2].ledger) == 3
    ensures R.Orderly(states[3][1].ledger.currHash) && R.AllVetted(Alone(), states, steps)
  {
    hide *;
    states, steps := LedgersSpread();
    TillsFollow(first, conf);
    SecondIsOrderly();
    TwoTills(first);
    FourTills(Alone(), states, steps, first, conf, Tills(first));
    R.SystemIsVetted(Alone(), states, steps);
  }

  lemma SecondIsOrderly()
    ensures 1 in State(3) && R.Orderly(State(3)[1].ledger.currHash)
  {
    var key := Closed().currHash;
    assert Ties.TiesIndependent(key.header.txset.value.txs);
    assert R.Orderly(KeyOf(GENESIS));
  }
}
