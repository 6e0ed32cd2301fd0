/** A network of decrees of one index, with any number of nodes that do as they like. */
module Network {
  import opened Ballots
  import opened Quorums
  import opened Statements
  import opened Protocol
  import opened Invariants
  import opened Reentry

  /** The nodes that follow the protocol. Every other identity may say anything at any time. */
  type Net = map<NodeID, State>

  datatype Event =
    | Deliver(to: NodeID, st: Statement)
    | Start(at: NodeID, v: Value)
    | Learn(at: NodeID, quorums: map<Hash, Quorum>, valid: set<Value>)

  /** Statements are signed: what is delivered in the name of a node that follows the protocol
      was sent by that node. Nothing else is assumed; messages may be lost, repeated, reordered. */
  predicate Authentic(net: Net, st: Statement) {
    st.node in net ==> st in net[st.node].sent
  }

  ghost function Receive(s: State, st: Statement): State {
    if Inv(s) && !s.halted && (st.node == s.node ==> Own(s, st)) then RecvBallot(s, st).s else s
  }

  ghost function Begin(s: State, v: Value): State {
    if Inv(s) && !s.halted then Propose(s, v) else s
  }

  /** Quorums are only ever added; which values are valid changes with the ledger. */
  function Informed(s: State, quorums: map<Hash, Quorum>, valid: set<Value>): State {
    s.(quorums := quorums + s.quorums, valid := valid)
  }

  ghost predicate Transition(net: Net, e: Event, net': Net) {
    match e
    case Deliver(i, st) => i in net && Authentic(net, st) && net' == net[i := Receive(net[i], st)]
    case Start(i, v) => i in net && net' == net[i := Begin(net[i], v)]
    case Learn(i, quorums, valid) => i in net && net' == net[i := Informed(net[i], quorums, valid)]
  }

  predicate Initial(net: Net) {
    forall i :: i in net ==>
      var s := net[i];
      s == Fresh(i, s.index, s.quorum, s.hash, s.quorums, s.valid)
  }

  ghost predicate Run(states: seq<Net>, events: seq<Event>) {
    && |states| == |events| + 1
    && Initial(states[0])
    && forall k :: 0 <= k < |events| ==> Transition(states[k], events[k], states[k + 1])
  }

  /******* The network invariant *******/

  predicate FromSender(net: Net, st: Statement, at: NodeID) {
    st.node in net && st.node != at ==> st in net[st.node].sent
  }

  ghost predicate NetInv(net: Net) {
    && (forall i :: i in net ==> net[i].node == i && Inv(net[i]))
    && (forall i, st :: i in net && st in net[i].seen ==> FromSender(net, st, i))
  }

  /** What one node's own history keeps, whatever the others do. */
  predicate Follows(s: State, t: State) {
    && SameDecree(s, t) && BallotsRise(s, t)
    && s.sent <= t.sent && s.ext <= t.ext
  }

  lemma FollowsTrans(s: State, t: State, u: State)
    requires Follows(s, t) && Follows(t, u)
    ensures Follows(s, u)
  {}

  lemma FollowsRefl(s: State)
    ensures Follows(s, s)
  {}

  lemma InitialKeeps(net: Net)
    requires Initial(net)
    ensures NetInv(net)
  {}

  lemma InformedKeeps(s: State, quorums: map<Hash, Quorum>, valid: set<Value>)
    requires Inv(s)
    ensures var t := Informed(s, quorums, valid);
            Inv(t) && Follows(s, t) && t.seen == s.seen
  {
    var t := Informed(s, quorums, valid);
    if s.phase.Externalized? {
      BackedStable(s, t, s.c.value.value);
    }
  }

  /** One event at one node. */
  lemma NodeMoves(net: Net, e: Event, net': Net) returns (i: NodeID)
    requires NetInv(net) && Transition(net, e, net')
    ensures i in net && net' == net[i := net'[i]] && i in net'
    ensures net'[i].node == i && Inv(net'[i]) && Follows(net[i], net'[i])
    ensures forall st :: st in net'[i].seen ==> st in net[i].seen || st.node == i || Authentic(net, st)
  {
    hide Inv, OwnRank;
    match e {
      case Deliver(at, st) =>
        i := at;
        assert st.node == i ==> Own(net[i], st) by { InvParts(net[i]); }
      case Start(at, v) =>
        i := at;
      case Learn(at, quorums, valid) =>
        i := at;
        InformedKeeps(net[i], quorums, valid);
    }
  }

  lemma TransitionKeeps(net: Net, e: Event, net': Net)
    requires NetInv(net) && Transition(net, e, net')
    ensures NetInv(net') && net'.Keys == net.Keys
    ensures forall j :: j in net ==> Follows(net[j], net'[j])
  {
    hide Inv, Transition;
    var i := NodeMoves(net, e, net');
    forall j, st | j in net' && st in net'[j].seen ensures FromSender(net', st, j) {
      if st.node in net' && st.node != j {
        assert net[st.node].sent <= net'[st.node].sent;
        if j != i || st in net[i].seen {
          assert FromSender(net, st, j);
        }
      }
    }
  }

  /** Every state of every run satisfies the invariant. */
  lemma {:induction false} RunKeeps(states: seq<Net>, events: seq<Event>, k: nat)
    requires Run(states, events) && k < |states|
    ensures NetInv(states[k]) && states[k].Keys == states[0].Keys
  {
    if k == 0 {
      InitialKeeps(states[0]);
    } else {
      RunKeeps(states, events, k - 1);
      TransitionKeeps(states[k - 1], events[k - 1], states[k]);
    }
  }

  lemma {:induction false} RunFollows(states: seq<Net>, events: seq<Event>, i: NodeID, k: nat, m: nat)
    requires Run(states, events) && k <= m < |states| && i in states[0]
    ensures i in states[k] && i in states[m] && Follows(states[k][i], states[m][i])
    decreases m
  {
    hide Inv, NetInv, Transition, Initial, Follows;
    RunKeeps(states, events, k);
    if k < m {
      RunFollows(states, events, i, k, m - 1);
      RunKeeps(states, events, m - 1);
      TransitionKeeps(states[m - 1], events[m - 1], states[m]);
      FollowsTrans(states[k][i], states[m - 1][i], states[m][i]);
    } else {
      FollowsRefl(states[k][i]);
    }
  }

  /******* Prepared ballots and steps *******/

  /** On every run p is the highest ballot ever accepted as prepared, q before the confirm phase the
      highest one incompatible with p, and the check of the pair never stops a node before then. */
  lemma PreparedOnEveryRun(states: seq<Net>, events: seq<Event>, i: NodeID, k: nat)
    requires Run(states, events) && k < |states| && i in states[0]
    ensures i in states[k] && HighestPrepared(states[k][i])
    ensures var s := states[k][i]; s.phase.Preparing? && s.p.Some? && s.q.Some? ==> LessAndIncompatible(s.q, s.p)
  {
    RunKeeps(states, events, k);
    InvParts(states[k][i]);
  }

  /** One event costs one step and what the own statement gains in rank. */
  lemma EventSteps(net: Net, e: Event, net': Net, i: NodeID)
    requires NetInv(net) && Transition(net, e, net') && i in net && i in net'
    ensures net'[i].steps - net[i].steps <= 1 + OwnRank(net'[i]) - OwnRank(net[i])
  {
    hide Inv, OwnRank;
    match e {
      case Deliver(at, st) =>
        assert st.node == at ==> Own(net[at], st) by { InvParts(net[at]); }
      case Start(at, v) =>
      case Learn(at, quorums, valid) =>
        if at == i {
          InformedRank(net[i], quorums, valid);
        }
    }
  }

  lemma InformedRank(s: State, quorums: map<Hash, Quorum>, valid: set<Value>)
    ensures OwnRank(Informed(s, quorums, valid)) == OwnRank(s)
  {}

  /** The nesting of step, sendBallot and recvBallot ends, and not only for each message: in k
      events a decree takes no more than k steps and as many as there are ranks of statements. */
  lemma {:induction false} StepsOnEveryRun(states: seq<Net>, events: seq<Event>, i: NodeID, k: nat)
    requires Run(states, events) && k < |states| && i in states[0]
    ensures i in states[k] && states[k][i].steps <= k + OwnRank(states[k][i]) <= k + TOP_RANK
  {
    hide Inv, Transition, Rank;
    RunKeeps(states, events, k);
    if k > 0 {
      RunKeeps(states, events, k - 1);
      StepsOnEveryRun(states, events, i, k - 1);
      EventSteps(states[k - 1], events[k - 1], states[k], i);
    }
    var s := states[k][i];
    if s.node in s.ballots {
      RankBound(s.ballots[s.node].pledge);
    }
  }

  /******* Lock-in *******/

  /**
   Once a node has entered the confirm phase, at every later time of every run it is still past
   the prepare phase, c <= h <= current are ballots of the same value as then, every CONFIRM and
   EXTERNALIZE it ever sends carries that value, and that value is all it ever externalizes.
   */
  lemma LockIn(states: seq<Net>, events: seq<Event>, i: NodeID, k: nat, m: nat)
    requires Run(states, events) && k <= m < |states| && i in states[0]
    requires i in states[k] && !states[k][i].phase.Preparing? && states[k][i].c.Some?
    ensures i in states[m]
    ensures var v, t := states[k][i].c.value.value, states[m][i];
            && Stage(states[k][i].phase) <= Stage(t.phase)
            && t.c.Some? && LessAndCompatible(t.c, t.h) && LessAndCompatible(t.h, t.cur)
            && t.c.value.value == v
            && (forall st :: st in t.sent && Commits(st.pledge) ==> HasValue(st.pledge, v))
            && (t.ext == [] || t.ext == [v])
  {
    RunFollows(states, events, i, k, m);
    RunKeeps(states, events, m);
    InvParts(states[m][i]);
  }

  /** A node that sent a commitment is locked on its value. */
  lemma SentMeansLocked(net: Net, st: Statement, at: NodeID, v: Value)
    requires NetInv(net) && at in net && st in net[at].seen && st.node in net
    requires Commits(st.pledge) && HasValue(st.pledge, v)
    ensures net[st.node].c.Some? && net[st.node].c.value.value == v
  {
    InvParts(net[st.node]);
    InvParts(net[at]);
    assert FromSender(net, st, at);
  }

  /******* Agreement *******/

  /** Any two slices of the two quorums share a node that follows the protocol. */
  ghost predicate SlicesMeet(q: Quorum, r: Quorum, good: set<NodeID>) {
    forall a: set<NodeID>, b: set<NodeID> :: IsSlice(q, a) && IsSlice(r, b) ==> a * b * good != {}
  }

  lemma AgreementAtOnce(net: Net, i: NodeID, j: NodeID)
    requires NetInv(net) && i in net && j in net
    requires net[i].ext != [] && net[j].ext != []
    requires SlicesMeet(net[i].quorum, net[j].quorum, net.Keys)
    ensures net[i].ext[0] == net[j].ext[0]
  {
    var s, t := net[i], net[j];
    InvParts(s);
    InvParts(t);
    var v, w := s.ext[0], t.ext[0];
    assert Backed(s, v) && Backed(t, w);
    var a: set<NodeID> :| IsSlice(s.quorum, a) && a <= Committed(s, v);
    var b: set<NodeID> :| IsSlice(t.quorum, b) && b <= Committed(t, w);
    var k :| k in a * b * net.Keys;
    assert k in Committed(s, v) && k in Committed(t, w);
    var x :| x in s.seen && Commits(x.pledge) && HasValue(x.pledge, v) && x.node == k;
    var y :| y in t.seen && Commits(y.pledge) && HasValue(y.pledge, w) && y.node == k;
    SentMeansLocked(net, x, i, v);
    SentMeansLocked(net, y, j, w);
  }

  /** In every run, values externalized by two nodes, at whatever times, are the same. */
  lemma Agreement(states: seq<Net>, events: seq<Event>, i: NodeID, k: nat, j: NodeID, m: nat)
    requires Run(states, events) && k < |states| && m < |states|
    requires i in states[0] && j in states[0] && i in states[k] && j in states[m]
    requires states[k][i].ext != [] && states[m][j].ext != []
    requires SlicesMeet(states[0][i].quorum, states[0][j].quorum, states[0].Keys)
    ensures states[k][i].ext == states[m][j].ext
  {
    hide Inv, BallotsRise, Transition, Initial, SlicesMeet;
    var last := |states| - 1;
    RunFollows(states, events, i, k, last);
    RunFollows(states, events, j, m, last);
    RunFollows(states, events, i, 0, last);
    RunFollows(states, events, j, 0, last);
    RunKeeps(states, events, last);
    AgreementAtOnce(states[last], i, j);
    InvParts(states[last][i]);
    InvParts(states[last][j]);
  }

  /** With one flat quorum, fewer than 2*ceil(n*T) - n deviating validators cannot keep slices apart. */
  lemma FlatSlicesMeet(q: Quorum, good: set<NodeID>)
    requires Flat(q) && |Members(q.validators) - good| < 2 * SliceThreshold(q) - |q.validators|
    ensures SlicesMeet(q, q, good)
  {
    hide SliceThreshold, IsSlice;
    forall a: set<NodeID>, b: set<NodeID> | IsSlice(q, a) && IsSlice(q, b)
      ensures a * b * good != {}
    {
      SlicesOverlap(q, a, b);
      var m := Members(q.validators);
      if a * b * good == {} {
        forall x | x in m * a * b ensures x in m - good {
          assert x in a * b * good || x !in good;
        }
        SubsetSize(m * a * b, m - good);
      }
    }
  }

  /** Agreement for validators that share one flat quorum. */
  lemma FlatAgreement(states: seq<Net>, events: seq<Event>, q: Quorum, i: NodeID, k: nat, j: NodeID, m: nat)
    requires Run(states, events) && k < |states| && m < |states|
    requires Flat(q) && |Members(q.validators) - states[0].Keys| < 2 * SliceThreshold(q) - |q.validators|
    requires i in states[0] && j in states[0] && states[0][i].quorum == states[0][j].quorum == q
    requires i in states[k] && j in states[m] && states[k][i].ext != [] && states[m][j].ext != []
    ensures states[k][i].ext == states[m][j].ext
  {
    FlatSlicesMeet(q, states[0].Keys);
    Agreement(states, events, i, k, j, m);
  }
}
