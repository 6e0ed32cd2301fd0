/**
 A node that is a quorum of its own. The invariants and agreement hold of nodes that never decide;
 this run shows that nodes do: one proposal leads through all four rules and six nested statements
 to the externalized value.
 */
module Solo {
  import opened Common
  import opened Ballots
  import opened Sorting
  import opened Quorums
  import opened Statements
  import opened Federated
  import opened Protocol
  import opened Invariants
  import opened Reentry

  function Alone(node: NodeID): Quorum {
    Quorum(0.5, [node], [])
  }

  /** A running node on its own, whose quorum is known and which finds v valid. */
  ghost predicate Ready(s: State, v: Value) {
    && Inv(s) && !s.halted && s.quorum == Alone(s.node)
    && s.hash != 0 && s.hash in s.quorums && s.quorums[s.hash] == s.quorum && v in s.valid
  }

  /** All it has is its own statement. */
  predicate Has(s: State, pl: Pledge) {
    s.ballots == map[s.node := Statement(s.node, s.index, pl)]
  }

  function First(v: Value): Ballot {
    Ballot(1, v)
  }

  predicate Stands(s: State, v: Value, phase: Phase, p: Option<Ballot>, c: Option<Ballot>) {
    s.phase == phase && s.cur == Some(First(v)) && s.p == p && s.q == None && s.h == c && s.c == c
  }

  /******* Voting alone *******/

  lemma AloneIsSlice(n: NodeID)
    ensures IsSlice(Alone(n), {n}) && IsSlice(Singleton(n), {n})
    ensures ValidQuorum(Alone(n), 0, false) && ValidQuorum(Singleton(n), 0, false)
  {
    assert [n][..0] == [];
    assert CountIn([n], {n}) == 1;
  }

  lemma AloneRatifies(s: State, pl: Pledge, f: Filter)
    requires s.quorum == Alone(s.node) && s.hash != 0 && s.hash in s.quorums && s.quorums[s.hash] == s.quorum
    requires Has(s, pl) && pl.hash == s.hash && Statements.Holds(f, pl)
    ensures Matching(s, f) == {s.node} && Ratifies(s.quorum, SlicesOf(s), {s.node})
  {
    AloneIsSlice(s.node);
    hide IsSlice;
    assert Prune(SlicesOf(s), {s.node}) == {s.node};
  }

  lemma SortOfOne<X(!new)>(a: X, gt: (X, X) -> bool)
    requires StrictOrder(gt)
    ensures SortDesc({a}, gt) == [a]
  {
    hide SortDesc;
    DescendingUnique(SortDesc({a}, gt), [a], gt);
  }

  lemma OneCandidate(s: State, pl: Pledge, b: Ballot)
    requires Has(s, pl) && Hints(pl) == {b} && CandidatesAt(b, pl) == {b}
    ensures CandidateList(s, pl) == [b] && [b][1..] == []
  {
    CandidatesAre(s, pl, b, b);
    assert {b, b} == {b};
    hide Hints, CandidatesAt, Candidates, SortDesc;
    AboveIsOrder();
    SortOfOne(b, Above);
  }

  lemma SortOfTwo<X(!new)>(a: X, b: X, gt: (X, X) -> bool)
    requires StrictOrder(gt) && gt(a, b)
    ensures SortDesc({a, b}, gt) == [a, b]
  {
    hide SortDesc;
    DescendingUnique(SortDesc({a, b}, gt), [a, b], gt);
  }

  lemma TwoCandidates(s: State, pl: Pledge, a: Ballot, b: Ballot)
    requires Has(s, pl) && Hints(pl) == {a, b} && Above(a, b)
    requires CandidatesAt(a, pl) == {a, b} && CandidatesAt(b, pl) == {b}
    ensures CandidateList(s, pl) == [a, b]
  {
    CandidatesAre(s, pl, a, b);
    hide Hints, CandidatesAt, Candidates, SortDesc;
    AboveIsOrder();
    SortOfTwo(a, b, Above);
  }

  lemma CandidatesAre(s: State, pl: Pledge, a: Ballot, b: Ballot)
    requires Has(s, pl) && Hints(pl) == {a, b} && CandidatesAt(a, pl) == {a, b} && CandidatesAt(b, pl) == {b}
    ensures Candidates(s, pl) == {a, b}
  {
    assert s.node in s.ballots && s.ballots[s.node].pledge == pl;
    hide Hints, CandidatesAt;
    assert a in Candidates(s, pl) && b in Candidates(s, pl);
  }

  /** A candidate below p brings nothing new. */
  lemma NothingToAccept(s: State, pl: Pledge, b: Ballot)
    requires CandidateList(s, pl) == [b] && LessAndCompatible(Some(b), s.p)
    requires s.phase.Confirming? ==> Compatible(s.c, Some(b))
    ensures AcceptPrepared(s, pl) == Local(s, false)
  {
    hide CandidateList, AcceptsPrepared;
    assert [b][1..] == [];
    assert ScanAccept(s, [b]) == ScanAccept(s, []) == Nothing;
  }

  /** Nor does one that is not above h. */
  lemma NothingToConfirm(s: State, pl: Pledge, b: Ballot)
    requires CandidateList(s, pl) == [b] && s.h.Some? && Compare(Some(b), s.h) <= 0
    ensures ConfirmPrepared(s, pl) == Local(s, false)
  {
    hide CandidateList;
  }

  lemma OneCounter(s: State, pl: Pledge, v: Value, vote: Vote)
    requires Has(s, pl) && CountersAt(v, pl) == {1} && CommitPasses(s, vote, v, 1, 1)
    ensures CommitInterval(s, vote, v) == (1, 1)
  {
    hide CommitPasses;
    LargerIsOrder();
    assert s.node in s.ballots && s.ballots[s.node].pledge == pl;
    assert 1 in CommitCounters(s, v);
    assert CommitCounters(s, v) == {1};
    DescendingUnique(CounterList(s, v), [1], Larger);
    assert [1][1..] == [];
    assert FindInterval(s, vote, v, [1], 0, 0) == FindInterval(s, vote, v, [], 1, 1);
  }

  /******* The rules, one after the other *******/

  lemma FirstIsAccepted(s: State, v: Value)
    requires Ready(s, v) && Stands(s, v, Preparing, None, None)
    requires Has(s, Prepare(Some(First(v)), None, None, 0, 0, s.hash))
    ensures AcceptPrepared(s, s.ballots[s.node].pledge)
            == Local(s.(accepted := s.accepted + {First(v)}, p := Some(First(v))), true)
  {
    var b, pl := First(v), s.ballots[s.node].pledge;
    AloneRatifies(s, pl, PrepareVote(b));
    hide Inv, Ratifies, SlicesOf, IsVblocking;
    OneCandidate(s, pl, b);
    hide CandidateList;
    assert {s.node} + Matching(s, PrepareAccept(b)) == {s.node};
    assert AcceptsPrepared(s, b);
  }

  lemma FirstIsConfirmed(s: State, v: Value)
    requires Ready(s, v) && Stands(s, v, Preparing, Some(First(v)), None)
    requires Has(s, Prepare(Some(First(v)), Some(First(v)), None, 0, 0, s.hash))
    ensures var b, pl := Some(First(v)), s.ballots[s.node].pledge;
            && AcceptPrepared(s, pl) == Local(s, false)
            && ConfirmPrepared(s, pl) == Local(s.(next := v, h := b, c := b), true)
  {
    var b, pl := First(v), s.ballots[s.node].pledge;
    AloneRatifies(s, pl, PrepareAccept(b));
    hide Inv, Ratifies, SlicesOf, IsVblocking;
    OneCandidate(s, pl, b);
    hide CandidateList;
    NothingToAccept(s, pl, b);
    hide AcceptPrepared;
    assert ConfirmsPrepared(s, b);
    assert FindHigh(s, [b], 0) == 0;
    assert FindLow(s, [b], 0, b, b, None) == FindLow(s, [b], 1, b, b, Some(b)) == Some(b);
  }

  lemma CommitIsAccepted(s: State, v: Value)
    requires Ready(s, v) && Stands(s, v, Preparing, Some(First(v)), Some(First(v)))
    requires Has(s, Prepare(Some(First(v)), Some(First(v)), None, 1, 1, s.hash))
    ensures var pl := s.ballots[s.node].pledge;
            && AcceptPrepared(s, pl) == Local(s, false) && ConfirmPrepared(s, pl) == Local(s, false)
            && AcceptCommit(s, pl) == Local(s.(next := v, phase := Confirming), true)
  {
    var b, pl := First(v), s.ballots[s.node].pledge;
    AloneRatifies(s, pl, CommitVote(v, 1, 1));
    hide Inv, Ratifies, SlicesOf, IsVblocking;
    OneCandidate(s, pl, b);
    NothingToAccept(s, pl, b);
    NothingToConfirm(s, pl, b);
    hide CandidateList, AcceptPrepared, ConfirmPrepared;
    assert {s.node} + Matching(s, CommitAccept(v, 1, 1)) == {s.node};
    OneCounter(s, pl, v, ToAccept);
    hide CommitInterval, CommitPasses;
  }

  function Top(v: Value): Ballot {
    Ballot(MAX_COUNTER, v)
  }

  lemma TopIsAccepted(s: State, v: Value)
    requires Ready(s, v) && Stands(s, v, Confirming, Some(First(v)), Some(First(v)))
    requires Has(s, Confirm(Some(First(v)), 1, 1, 1, s.hash))
    ensures AcceptPrepared(s, s.ballots[s.node].pledge)
            == Local(s.(accepted := s.accepted + {Top(v)}, p := Some(Top(v))), true)
  {
    var b, pl := First(v), s.ballots[s.node].pledge;
    AloneRatifies(s, pl, PrepareVote(Top(v)));
    hide Inv, Ratifies, SlicesOf, IsVblocking;
    TwoCandidates(s, pl, Top(v), b);
    hide CandidateList;
    assert {s.node} + Matching(s, PrepareAccept(Top(v))) == {s.node};
    assert AcceptsPrepared(s, Top(v));
  }

  lemma CommitIsConfirmed(s: State, v: Value)
    requires Ready(s, v) && Stands(s, v, Confirming, Some(Top(v)), Some(First(v)))
    requires Has(s, Confirm(Some(First(v)), MAX_COUNTER, 1, 1, s.hash))
    ensures var pl := s.ballots[s.node].pledge;
            && AcceptPrepared(s, pl) == Local(s, false) && ConfirmPrepared(s, pl) == Local(s, false)
            && AcceptCommit(s, pl) == Local(s, false)
            && ConfirmCommit(s, pl) == Local(s.(phase := Externalized), true)
  {
    var pl := s.ballots[s.node].pledge;
    AloneRatifies(s, pl, CommitVote(v, 1, 1));
    AloneRatifies(s, pl, CommitAccept(v, 1, 1));
    hide Inv, Ratifies, SlicesOf, IsVblocking;
    OneCandidate(s, pl, Top(v));
    NothingToAccept(s, pl, Top(v));
    hide CandidateList, AcceptPrepared;
    assert {s.node} + {s.node} == {s.node};
    OneCounter(s, pl, v, ToAccept);
    OneCounter(s, pl, v, ToConfirm);
    hide CommitInterval, CommitPasses;
  }

  /******* Sending and stepping *******/

  /** The statement that a node sends next, which supersedes what it sent before. */
  ghost predicate Sends(s: State, v: Value, pl: Pledge) {
    && Ready(s, v) && Consistent(s) && s.cur.Some? && Assemble(s) == Some(pl)
    && s.ballots.Keys <= {s.node} && (s.node in s.ballots ==> IsNewer(s.ballots[s.node].pledge, pl))
    && Judge(s, Statement(s.node, s.index, pl)) == Valid
  }

  lemma StoresIt(s: State, v: Value, pl: Pledge)
    requires Sends(s, v, pl)
    ensures var st := Statement(s.node, s.index, pl); var t := Store(s, st);
            Own(s, st) && Newer(s, st) && Ready(t, v) && Has(t, pl) && !(s.node in s.ballots && s.ballots[s.node] == st)
  {
    var st := Statement(s.node, s.index, pl);
    AssembledIsOwn(s);
    hide Judge, Consistent, Assemble, Own;
    StoreKeeps(s, st);
    hide Inv;
  }

  lemma SendSteps(s: State, v: Value, pl: Pledge)
    requires Sends(s, v, pl) && !s.phase.Externalized?
    ensures var st := Statement(s.node, s.index, pl); var t := Store(s, st);
            Ready(t, v) && Has(t, pl) && SendBallot(s).ext == Step(t, st).s.ext
  {
    StoresIt(s, v, pl);
    hide Inv, Judge, Consistent, Assemble, Own, IsNewer, Has, Moves, Leads, Store;
    var st := Statement(s.node, s.index, pl);
    assert RecvBallot(s, st) == Step(Store(s, st), st);
  }

  /** One deeper. */
  function Deeper(s: State): State {
    s.(count := s.count + 1, steps := s.steps + 1)
  }

  /** The first n rules have nothing to do. */
  ghost predicate Idle(s: State, pl: Pledge, n: nat) {
    && n <= 3
    && (n > 0 ==> AcceptPrepared(s, pl) == Local(s, false))
    && (n > 1 ==> ConfirmPrepared(s, pl) == Local(s, false))
    && (n > 2 ==> AcceptCommit(s, pl) == Local(s, false))
  }

  lemma OneRulePasses(s: State, st: Statement, n: nat)
    requires Inv(s) && !s.halted && FireRules(s, st, n) == Local(s, false)
    requires Attempt(RuleAt(n), s, st.pledge) == Local(s, false)
    ensures FireRules(s, st, n + 1) == Local(s, false)
  {
    hide Inv, Moves, Attempt, Fuel, OwnRank, SendBallot;
  }

  lemma NoRules(s: State, st: Statement)
    requires Inv(s) && !s.halted
    ensures FireRules(s, st, 0) == Local(s, false)
  {
    hide Inv, Moves, Fire, Fuel, OwnRank;
  }

  lemma RulesPass(s: State, st: Statement, n: nat)
    requires Inv(s) && !s.halted && Idle(s, st.pledge, n)
    ensures FireRules(s, st, n) == Local(s, false)
  {
    hide Inv, Moves, FireRules, AcceptPrepared, ConfirmPrepared, AcceptCommit;
    NoRules(s, st);
    if n > 0 { OneRulePasses(s, st, 0); }
    if n > 1 { OneRulePasses(s, st, 1); }
    if n > 2 { OneRulePasses(s, st, 2); }
  }

  lemma MovesKeepExt(s: State, t: State)
    requires Moves(s, t)
    ensures s.ext <= t.ext
  {
    hide Inv, BallotsRise, OwnRank;
  }

  lemma OneMoreRule(s: State, st: Statement, n: nat)
    requires Inv(s) && !s.halted
    ensures var l, m := FireRules(s, st, n), FireRules(s, st, n + 1);
            && l.s.ext <= m.s.ext
            && (!l.s.halted ==> Inv(l.s) && m.s == Fire(RuleAt(n), l.s, st).s)
  {
    hide Inv, OwnRank, Leads, OnlyOwnNews, Fuel, Fire;
    var l := FireRules(s, st, n);
    if !l.s.halted {
      MovesKeepExt(l.s, Fire(RuleAt(n), l.s, st).s);
    }
  }

  /** What a rule put on the externalize channel stays there. */
  lemma {:induction false} RulesKeep(s: State, st: Statement, m: nat, n: nat)
    requires Inv(s) && !s.halted && m <= n
    ensures FireRules(s, st, m).s.ext <= FireRules(s, st, n).s.ext
    decreases n
  {
    hide Inv, Moves, Fire, FireRules;
    if m < n {
      RulesKeep(s, st, m, n - 1);
      OneMoreRule(s, st, n - 1);
    }
  }

  lemma StepEnds(t: State, st: Statement)
    requires Inv(t) && !t.halted && t.count < 9 && Inv(Deeper(t))
    ensures Step(t, st).s.ext == FireRules(Deeper(t), st, 4).s.ext
  {
    hide Inv, Moves, FireRules;
  }

  lemma StepFires(t: State, st: Statement, n: nat)
    requires Inv(t) && !t.halted && t.count < 9 && n < 4 && Inv(Deeper(t))
    requires Idle(Deeper(t), st.pledge, n)
    ensures Fire(RuleAt(n), Deeper(t), st).s.ext <= Step(t, st).s.ext
  {
    var u := Deeper(t);
    hide Inv, Moves, Idle, Fire, FireRules, Step;
    RulesPass(u, st, n);
    OneMoreRule(u, st, n);
    RulesKeep(u, st, n + 1, 4);
    StepEnds(t, st);
  }

  lemma DeeperIsReady(s: State, v: Value)
    requires Ready(s, v)
    ensures Ready(Deeper(s), v)
  {
    MovesCounters(s, Deeper(s));
  }

  lemma AttemptIsReady(rule: Rule, s: State, pl: Pledge, v: Value)
    requires Ready(s, v) && !Attempt(rule, s, pl).s.halted
    ensures Ready(Attempt(rule, s, pl).s, v)
  {
    AttemptKeeps(rule, s, pl);
    hide Attempt;
  }

  /** A rule that finds something sends it, and the value that is externalized on the way stays. */
  lemma RuleSends(t: State, v: Value, pl: Pledge, n: nat, a: State)
    requires Ready(t, v) && Has(t, pl) && t.count < 9 && n < 3 && !a.halted
    requires Idle(Deeper(t), pl, n)
    requires Attempt(RuleAt(n), Deeper(t), pl) == Local(a, true)
    ensures Ready(a, v) && SendBallot(a).ext <= Step(t, Statement(t.node, t.index, pl)).s.ext
  {
    var st := Statement(t.node, t.index, pl);
    DeeperIsReady(t, v);
    AttemptIsReady(RuleAt(n), Deeper(t), pl, v);
    StepFires(t, st, n);
    hide Inv, Moves, Attempt, Idle, SendBallot;
  }

  /******* From the proposal to the externalized value *******/

  /** The ballots of a node on the way, and that what it sends next supersedes what it sent. */
  ghost predicate OnTheWay(s: State, v: Value, pl: Pledge) {
    && s.cur == Some(First(v)) && s.q.None? && s.h == s.c
    && (s.p.None? || s.p == Some(First(v)) || s.p == Some(Top(v)))
    && (s.c.None? || (s.c == Some(First(v)) && s.p.Some?))
    && (!s.phase.Preparing? ==> s.c.Some?)
    && s.ballots.Keys <= {s.node} && (s.node in s.ballots ==> IsNewer(s.ballots[s.node].pledge, pl))
    && Consistent(s) && Assemble(s) == Some(pl)
  }

  lemma IsValid(s: State, v: Value, pl: Pledge)
    requires Ready(s, v) && OnTheWay(s, v, pl)
    ensures Judge(s, Statement(s.node, s.index, pl)) == Valid
  {
    AloneIsSlice(s.node);
    hide ValidQuorum, Inv, IsNewer;
    match s.phase
    case Preparing => assert CheckedValues(pl) <= {v};
    case Confirming =>
    case Externalized =>
  }

  lemma IsSent(s: State, v: Value, pl: Pledge)
    requires Ready(s, v) && OnTheWay(s, v, pl)
    ensures Sends(s, v, pl)
  {
    hide Inv, Judge, IsNewer, Consistent, Assemble;
    IsValid(s, v, pl);
  }

  /** In the last phase a statement for the chosen value is only stored. */
  lemma OnlyStored(s: State, st: Statement)
    requires Inv(s) && !s.halted && s.phase.Externalized? && st.index == s.index && Own(s, st) && Newer(s, st)
    requires Judge(s, st) == Valid && s.c.Some? && WorkingValue(st.pledge) == Some(s.c.value.value)
    ensures RecvBallot(s, st) == Outcome(Store(s, st), true)
  {
    hide Inv, Judge, Own, IsNewer, Moves, Leads, OwnRank;
  }

  lemma SentAndStored(s: State, pl: Pledge)
    requires Inv(s) && !s.halted && Consistent(s) && s.cur.Some? && Assemble(s) == Some(pl)
    requires var st := Statement(s.node, s.index, pl);
             && Own(s, st) && Newer(s, st) && !(s.node in s.ballots && s.ballots[s.node] == st)
             && RecvBallot(s, st) == Outcome(Store(s, st), true)
    ensures !SendBallot(s).halted && SendBallot(s).c == s.c
  {
    hide Inv, RecvBallot, Consistent, Assemble, Own, IsNewer, Moves, Leads, OwnRank;
  }

  /** The last statement is stored, and the process goes on. */
  lemma SendsLast(s: State, v: Value)
    requires Ready(s, v) && Stands(s, v, Externalized, Some(Top(v)), Some(First(v)))
    requires Has(s, Confirm(Some(First(v)), MAX_COUNTER, 1, 1, s.hash))
    ensures !SendBallot(s).halted && SendBallot(s).c == s.c
  {
    var pl := Externalize(s.c, 1, s.hash);
    hide Inv, Judge, SendBallot, RecvBallot, Own, Moves, Leads, OwnRank;
    IsSent(s, v, pl);
    StoresIt(s, v, pl);
    OnlyStored(s, Statement(s.node, s.index, pl));
    SentAndStored(s, pl);
  }

  lemma PrefixHas(x: seq<Value>, y: seq<Value>, v: Value)
    requires x <= y && v in x
    ensures v in y
  {}

  lemma Announces(s: State, st: Statement, a: State, v: Value)
    requires Inv(s) && !s.halted && Inv(a) && !a.halted && Attempt(ConfirmTheCommit, s, st.pledge) == Local(a, true)
    requires !SendBallot(a).halted && SendBallot(a).c == Some(First(v))
    ensures v in Fire(ConfirmTheCommit, s, st).s.ext
  {
    hide Inv, Moves, SendBallot, ConfirmCommit;
  }

  lemma LastRule(t: State, st: Statement, a: State, v: Value)
    requires Inv(t) && !t.halted && t.count < 9 && Inv(Deeper(t)) && Inv(a) && !a.halted
    requires Idle(Deeper(t), st.pledge, 3) && Attempt(ConfirmTheCommit, Deeper(t), st.pledge) == Local(a, true)
    requires !SendBallot(a).halted && SendBallot(a).c == Some(First(v))
    ensures v in Step(t, st).s.ext
  {
    hide Inv, Moves, SendBallot, Step, Fire, Attempt, Idle;
    StepFires(t, st, 3);
    Announces(Deeper(t), st, a, v);
    PrefixHas(Fire(ConfirmTheCommit, Deeper(t), st).s.ext, Step(t, st).s.ext, v);
  }

  lemma ReachesLast(s: State, v: Value, pl: Pledge)
    requires Ready(s, v) && Stands(s, v, Confirming, Some(Top(v)), Some(First(v)))
    requires pl == Confirm(Some(First(v)), MAX_COUNTER, 1, 1, s.hash) && Has(s, pl)
    ensures var a := s.(phase := Externalized);
            && Idle(s, pl, 3) && Attempt(ConfirmTheCommit, s, pl) == Local(a, true)
            && Ready(a, v) && !SendBallot(a).halted && SendBallot(a).c == Some(First(v))
  {
    hide Inv, Moves, OwnRank, SendBallot, AcceptPrepared, ConfirmPrepared, AcceptCommit, ConfirmCommit;
    CommitIsConfirmed(s, v);
    AttemptIsReady(ConfirmTheCommit, s, pl, v);
    SendsLast(s.(phase := Externalized), v);
  }

  lemma Externalizes(t: State, v: Value)
    requires Ready(t, v) && Stands(t, v, Confirming, Some(Top(v)), Some(First(v))) && t.count < 9
    requires Has(t, Confirm(Some(First(v)), MAX_COUNTER, 1, 1, t.hash))
    ensures v in Step(t, t.ballots[t.node]).s.ext
  {
    hide Inv, Moves, OwnRank, SendBallot, Step, Attempt, Idle;
    DeeperIsReady(t, v);
    ReachesLast(Deeper(t), v, t.ballots[t.node].pledge);
    LastRule(t, t.ballots[t.node], Deeper(t).(phase := Externalized), v);
  }

  /** A rule that finds something brings the node one statement further. */
  lemma Further(t: State, v: Value, pl: Pledge, n: nat, a: State, next: Pledge)
    requires Ready(t, v) && Has(t, pl) && t.count < 9 && n < 3 && !a.halted && !a.phase.Externalized?
    requires Idle(Deeper(t), pl, n)
    requires Attempt(RuleAt(n), Deeper(t), pl) == Local(a, true) && OnTheWay(a, v, next)
    ensures var st := Statement(a.node, a.index, next); var b := Store(a, st);
            && Ready(b, v) && Has(b, next)
            && (v in Step(b, st).s.ext ==> v in Step(t, Statement(t.node, t.index, pl)).s.ext)
  {
    hide Inv, Step, SendBallot, Attempt, Idle, OnTheWay, Has, Sends;
    RuleSends(t, v, pl, n, a);
    IsSent(a, v, next);
    SendSteps(a, v, next);
    if v in SendBallot(a).ext {
      PrefixHas(SendBallot(a).ext, Step(t, Statement(t.node, t.index, pl)).s.ext, v);
    }
  }

  lemma AfterCommitOnTheWay(s: State, v: Value)
    requires Stands(s, v, Confirming, Some(First(v)), Some(First(v))) && Has(s, Confirm(Some(First(v)), 1, 1, 1, s.hash))
    ensures OnTheWay(s.(accepted := s.accepted + {Top(v)}, p := Some(Top(v))), v, Confirm(Some(First(v)), MAX_COUNTER, 1, 1, s.hash))
  {}

  lemma AfterCommit(t: State, v: Value)
    requires Ready(t, v) && Stands(t, v, Confirming, Some(First(v)), Some(First(v))) && t.count < 8
    requires Has(t, Confirm(Some(First(v)), 1, 1, 1, t.hash))
    ensures v in Step(t, t.ballots[t.node]).s.ext
  {
    var u, pl := Deeper(t), t.ballots[t.node].pledge;
    hide Inv, Step, OnTheWay, AcceptPrepared, ConfirmPrepared, AcceptCommit, ConfirmCommit;
    DeeperIsReady(t, v);
    TopIsAccepted(u, v);
    AfterCommitOnTheWay(u, v);
    var a, next := u.(accepted := u.accepted + {Top(v)}, p := Some(Top(v))), Confirm(Some(First(v)), MAX_COUNTER, 1, 1, t.hash);
    Further(t, v, pl, 0, a, next);
    Externalizes(Store(a, Statement(a.node, a.index, next)), v);
  }

  lemma AfterConfirmOnTheWay(s: State, v: Value)
    requires Stands(s, v, Preparing, Some(First(v)), Some(First(v))) && Has(s, Prepare(Some(First(v)), Some(First(v)), None, 1, 1, s.hash))
    ensures OnTheWay(s.(next := v, phase := Confirming), v, Confirm(Some(First(v)), 1, 1, 1, s.hash))
  {}

  lemma AfterConfirm(t: State, v: Value)
    requires Ready(t, v) && Stands(t, v, Preparing, Some(First(v)), Some(First(v))) && t.count < 7
    requires Has(t, Prepare(Some(First(v)), Some(First(v)), None, 1, 1, t.hash))
    ensures v in Step(t, t.ballots[t.node]).s.ext
  {
    var u, pl := Deeper(t), t.ballots[t.node].pledge;
    hide Inv, Step, OnTheWay, AcceptPrepared, ConfirmPrepared, AcceptCommit, ConfirmCommit;
    DeeperIsReady(t, v);
    CommitIsAccepted(u, v);
    AfterConfirmOnTheWay(u, v);
    var a, next := u.(next := v, phase := Confirming), Confirm(Some(First(v)), 1, 1, 1, t.hash);
    Further(t, v, pl, 2, a, next);
    AfterCommit(Store(a, Statement(a.node, a.index, next)), v);
  }

  lemma AfterAcceptOnTheWay(s: State, v: Value)
    requires Stands(s, v, Preparing, Some(First(v)), None) && Has(s, Prepare(Some(First(v)), Some(First(v)), None, 0, 0, s.hash))
    ensures OnTheWay(s.(next := v, h := Some(First(v)), c := Some(First(v))), v, Prepare(Some(First(v)), Some(First(v)), None, 1, 1, s.hash))
  {}

  lemma AfterAccept(t: State, v: Value)
    requires Ready(t, v) && Stands(t, v, Preparing, Some(First(v)), None) && t.count < 6
    requires Has(t, Prepare(Some(First(v)), Some(First(v)), None, 0, 0, t.hash))
    ensures v in Step(t, t.ballots[t.node]).s.ext
  {
    var u, pl := Deeper(t), t.ballots[t.node].pledge;
    hide Inv, Step, OnTheWay, AcceptPrepared, ConfirmPrepared, AcceptCommit, ConfirmCommit;
    DeeperIsReady(t, v);
    FirstIsConfirmed(u, v);
    AfterAcceptOnTheWay(u, v);
    var a, next := u.(next := v, h := Some(First(v)), c := Some(First(v))), Prepare(Some(First(v)), Some(First(v)), None, 1, 1, t.hash);
    Further(t, v, pl, 1, a, next);
    AfterConfirm(Store(a, Statement(a.node, a.index, next)), v);
  }

  lemma AfterStartOnTheWay(s: State, v: Value)
    requires Stands(s, v, Preparing, None, None) && Has(s, Prepare(Some(First(v)), None, None, 0, 0, s.hash))
    ensures OnTheWay(s.(accepted := s.accepted + {First(v)}, p := Some(First(v))), v, Prepare(Some(First(v)), Some(First(v)), None, 0, 0, s.hash))
  {}

  lemma AfterStart(t: State, v: Value)
    requires Ready(t, v) && Stands(t, v, Preparing, None, None) && t.count < 5
    requires Has(t, Prepare(Some(First(v)), None, None, 0, 0, t.hash))
    ensures v in Step(t, t.ballots[t.node]).s.ext
  {
    var u, pl := Deeper(t), t.ballots[t.node].pledge;
    hide Inv, Step, OnTheWay, AcceptPrepared, ConfirmPrepared, AcceptCommit, ConfirmCommit;
    DeeperIsReady(t, v);
    FirstIsAccepted(u, v);
    AfterStartOnTheWay(u, v);
    var a, next := u.(accepted := u.accepted + {First(v)}, p := Some(First(v))), Prepare(Some(First(v)), Some(First(v)), None, 0, 0, t.hash);
    Further(t, v, pl, 0, a, next);
    AfterAccept(Store(a, Statement(a.node, a.index, next)), v);
  }

  function Newborn(node: NodeID, index: nat, hash: Hash, quorums: map<Hash, Quorum>, valid: set<Value>): State {
    Fresh(node, index, Alone(node), hash, quorums, valid)
  }

  lemma StartIsReady(s: State, v: Value)
    requires s == Newborn(s.node, s.index, s.hash, s.quorums, s.valid)
    requires s.hash != 0 && s.hash in s.quorums && s.quorums[s.hash] == s.quorum && v in s.valid
    ensures Ready(s, v) && Ready(UpdateBallot(s, First(v)), v)
    ensures Propose(s, v) == SendBallot(UpdateBallot(s, First(v)))
  {
    assert Inv(s);
    StartKeeps(s, First(v));
    hide SendBallot;
  }

  lemma OneValue(s: State, v: Value)
    requires Inv(s) && v in s.ext
    ensures s.ext == [v]
  {
    InvParts(s);
    hide Inv;
  }

  lemma ProposalIsSent(s: State, v: Value)
    requires Ready(s, v) && Stands(s, v, Preparing, None, None) && s.ballots == map[] && s.count == 0
    ensures v in SendBallot(s).ext
  {
    var pl := Prepare(Some(First(v)), None, None, 0, 0, s.hash);
    hide Inv, Step, SendBallot, Moves, OwnRank;
    IsSent(s, v, pl);
    SendSteps(s, v, pl);
    AfterStart(Store(s, Statement(s.node, s.index, pl)), v);
  }

  /** A node that is its own quorum externalizes what it proposes, before the proposal returns. */
  lemma ProposalDecides(s: State, v: Value)
    requires s == Newborn(s.node, s.index, s.hash, s.quorums, s.valid)
    requires s.hash != 0 && s.hash in s.quorums && s.quorums[s.hash] == s.quorum && v in s.valid
    ensures Inv(s) && Propose(s, v).ext == [v]
  {
    StartIsReady(s, v);
    hide Inv, SendBallot, Propose, Moves, OwnRank;
    ProposalIsSent(UpdateBallot(s, First(v)), v);
    OneValue(Propose(s, v), v);
  }
}

/** Nomination by a node that is a quorum of its own. */
module SoloNomination {
  import opened Common
  import opened Ballots
  import opened Quorums
  import opened Federated
  import opened Nominations
  import Solo

  /** A decree that has just been made, for a running node whose quorum is known. */
  predicate Blank(s: State) {
    && s.quorum == Solo.Alone(s.node) && s.hash != 0 && s.hash in s.quorums && s.quorums[s.hash] == s.quorum
    && s.votes == {} && s.accepts == {} && s.candidates == {}
    && s.nominations == map[] && s.latest == None && s.sent == [] && s.composed == [] && !s.halted
  }

  function Saying(s: State, v: Value, accepts: multiset<Value>): Nomination {
    Nomination(multiset{v}, accepts, s.hash)
  }

  /** The state after voting for v, with the own nomination stored. */
  function Voting(s: State, v: Value): State {
    s.(started := true, votes := {v}, nominations := map[s.node := Saying(s, v, multiset{})])
  }

  function Accepting(s: State, v: Value): State {
    s.(started := true, votes := {v}, accepts := {v}, nominations := map[s.node := Saying(s, v, multiset{v})])
  }

  lemma AloneCounts(s: State)
    requires s.quorum == Solo.Alone(s.node) && s.hash != 0 && s.hash in s.quorums && s.quorums[s.hash] == s.quorum
    requires s.nominations.Keys == {s.node} && s.nominations[s.node].hash == s.hash
    ensures Ratifies(s.quorum, SlicesOf(s), {s.node}) && Unknown(s, {s.node}) == {}
  {
    Solo.AloneIsSlice(s.node);
    hide IsSlice;
    assert SlicesOf(s) == map[s.node := s.quorum];
    assert Prune(SlicesOf(s), {s.node}) == {s.node};
  }

  /** The vote is accepted and sent out as such. */
  lemma VoteIsAccepted(s: State, v: Value)
    requires Blank(s) && v in s.valid
    ensures var t := Voting(s, v); var nom := Saying(s, v, multiset{});
            !PromoteStops(t, nom) && Promote(t, nom) == t.(accepts := {v})
  {
    hide Ratifies, IsVblocking;
    var t := Voting(s, v);
    assert Voters(t, v) == {s.node} && Acceptors(t, v) == {};
    assert {s.node} + {} == {s.node};
    AloneCounts(t);
    var nom := Saying(s, v, multiset{});
    assert Promotable(t, nom) == {v};
    assert Ratifiable(t, nom) == {};
  }

  /** The acceptance is ratified. */
  lemma AcceptIsRatified(s: State, v: Value)
    requires Blank(s) && v in s.valid
    ensures var t := Accepting(s, v); var nom := Saying(s, v, multiset{v});
            !PromoteStops(t, nom) && Promote(t, nom) == t.(candidates := {v})
  {
    hide Ratifies, IsVblocking;
    var t := Accepting(s, v);
    assert Voters(t, v) == {s.node} && Acceptors(t, v) == {s.node};
    AloneCounts(t);
    var nom := Saying(s, v, multiset{v});
    assert Promotable(t, nom) == {};
    assert Ratifiable(t, nom) == {v};
  }

  lemma AcceptedIsSent(s: State, v: Value)
    requires Blank(s) && v in s.valid
    ensures var t := SendNomination(Voting(s, v).(accepts := {v}));
            var made := s.combine({v});
            t == if made.Some?
                 then Accepting(s, v).(candidates := {v}, composed := [made.value],
                                       latest := Some(Saying(s, v, multiset{v})), sent := [Saying(s, v, multiset{v})])
                 else Accepting(s, v).(candidates := {v})
  {
    hide PromoteStops, Promote;
    var nom := Saying(s, v, multiset{v});
    var t := Voting(s, v).(accepts := {v});
    assert multiset(t.votes) == multiset{v} && multiset(t.accepts) == multiset{v};
    assert v in Elements(multiset{v}) && v !in Elements(multiset{});
    assert Store(t, s.node, nom) == Accepting(s, v);
    AcceptIsRatified(s, v);
  }

  /**
   Nominating alone makes the value a candidate. It is told as accepted if and only if the candidates can
   be combined: otherwise the error of the nested sending is dropped, and the last nomination sent only
   votes for the value.
   */
  lemma AloneIsSentExactly(s: State, v: Value)
    requires Blank(s) && v in s.valid
    ensures Inv(s) && Kept(s) && Published(s)
    ensures var t := Nominate(s, false, [Some(v)]);
            && !t.halted && t.votes == t.accepts == t.candidates == {v} && |t.sent| == 1
            && (Published(t) <==> s.combine({v}).Some?)
  {
    hide PromoteStops, Promote;
    var u := s.(started := true, votes := {v});
    var nom := Saying(s, v, multiset{});
    assert Chosen([Some(v)]) == {v} by {
      assert [Some(v)][0].value == v;
    }
    assert Additions(s, [Some(v)]) == {v} && s.votes + {v} == {v};
    assert multiset(u.votes) == multiset{v} && multiset(u.accepts) == multiset{};
    assert Store(u, s.node, nom) == Voting(s, v);
    VoteIsAccepted(s, v);
    AcceptedIsSent(s, v);
    var told := SendNomination(Voting(s, v).(accepts := {v}));
    assert RecvNomination(u, s.node, nom) == Outcome(told, true);
    assert v in Elements(multiset{v});
  }
}
