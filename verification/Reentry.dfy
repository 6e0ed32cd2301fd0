/**
 The re-entrant part of the ballot protocol: step fires the four rules, a rule that changed
 something sends a ballot, and a ballot that is sent is received by the decree itself, which
 steps again. The depth guard of step is modelled but is not what ends the recursion: every
 nested step needs a newer statement of the decree's own, and those cannot rise for ever.
 */
module Reentry {
  import opened Common
  import opened Ballots
  import opened Quorums
  import opened Statements
  import opened Protocol
  import opened Invariants

  datatype Rule = AcceptPrepare | ConfirmPrepare | AcceptTheCommit | ConfirmTheCommit

  /** The order in which step tries the rules. */
  function RuleAt(i: nat): Rule {
    match i case 0 => AcceptPrepare case 1 => ConfirmPrepare case 2 => AcceptTheCommit case _ => ConfirmTheCommit
  }

  ghost function Attempt(rule: Rule, s: State, pl: Pledge): Local {
    match rule
    case AcceptPrepare => AcceptPrepared(s, pl)
    case ConfirmPrepare => ConfirmPrepared(s, pl)
    case AcceptTheCommit => AcceptCommit(s, pl)
    case ConfirmTheCommit => ConfirmCommit(s, pl)
  }

  lemma AttemptKeeps(rule: Rule, s: State, pl: Pledge)
    requires Inv(s)
    ensures var l := Attempt(rule, s, pl);
            && Inv(l.s) && Leads(s, l.s) && OnlyBallots(s, l.s)
            && (rule.ConfirmTheCommit? && l.updated ==> s.phase.Confirming? && l.s.phase.Externalized?)
  {
    hide Inv, Leads, OnlyBallots, AcceptPrepared, ConfirmPrepared, AcceptCommit, ConfirmCommit;
    match rule
    case AcceptPrepare => AcceptPreparedKeeps(s, pl);
    case ConfirmPrepare => ConfirmPreparedKeeps(s, pl);
    case AcceptTheCommit => AcceptCommitKeeps(s, pl);
    case ConfirmTheCommit => ConfirmCommitKeeps(s, pl);
  }

  function Store(s: State, st: Statement): State {
    s.(ballots := s.ballots[st.node := st], seen := s.seen + {st})
  }

  predicate Newer(s: State, st: Statement) {
    st.node in s.ballots ==> IsNewer(s.ballots[st.node].pledge, st.pledge)
  }

  /** The distance of the own statement from the highest rank there is. */
  ghost function Fuel(s: State): (f: nat)
    ensures f > 0
  {
    if s.node in s.ballots then
      RankBound(s.ballots[s.node].pledge);
      TOP_RANK + 1 - OwnRank(s)
    else TOP_RANK + 1
  }

  ghost function RecvFuel(s: State, st: Statement): nat {
    if Newer(s, st) then Fuel(Store(s, st)) else 0
  }

  lemma FuelFalls(s: State, t: State)
    requires s.node == t.node
    ensures OwnRank(s) <= OwnRank(t) ==> Fuel(t) <= Fuel(s)
    ensures OwnRank(s) < OwnRank(t) ==> Fuel(t) < Fuel(s)
  {
    hide Rank;
  }

  lemma StoredStaysWell(s: State, st: Statement)
    requires StoredWell(s) && st.index == s.index && Judge(s, st) == Valid
    requires st.node == s.node ==> Own(s, st)
    ensures StoredWell(Store(s, st))
  {
    hide ValidQuorum;
    var t := Store(s, st);
    assert WellFormed(st.pledge) && StatementQuorum(s, st.pledge).Some?;
    forall x | x in t.seen && x.node == t.node ensures Own(t, x) {
      assert x in s.seen || x == st;
    }
  }

  lemma StoreKeeps(s: State, st: Statement)
    requires Inv(s) && st.index == s.index && Newer(s, st) && Judge(s, st) == Valid
    requires st.node == s.node ==> Own(s, st)
    ensures var t := Store(s, st);
            && Inv(t) && Leads(s, t)
            && (if st.node == s.node then OwnRank(s) < OwnRank(t) else OwnRank(s) == OwnRank(t))
  {
    hide Rank, Judge, StoredWell, IsNewer;
    var t := Store(s, st);
    StoredStaysWell(s, st);
    if st.node == s.node {
      StoreRank(s, st);
    }
    if s.phase.Externalized? {
      BackedStable(s, t, s.c.value.value);
    }
  }

  lemma AssembledIsOwn(s: State)
    requires Inv(s) && Consistent(s) && s.cur.Some? && Assemble(s).Some?
    ensures Own(s, Statement(s.node, s.index, Assemble(s).value))
  {}

  lemma OwnStable(s: State, t: State, st: Statement)
    requires Own(s, st) && Leads(s, t)
    ensures Own(t, st)
  {}

  function Broadcast(s: State, st: Statement): State {
    s.(latest := Some(st), sent := s.sent + [st])
  }

  lemma BroadcastFrame(s: State, st: Statement)
    requires StoredWell(s) && HighestPrepared(s)
    ensures StoredWell(Broadcast(s, st)) && HighestPrepared(Broadcast(s, st))
  {}

  lemma BroadcastKeeps(s: State, st: Statement)
    requires Inv(s) && Own(s, st) && (s.latest.Some? ==> IsNewer(s.latest.value.pledge, st.pledge))
    ensures Inv(Broadcast(s, st)) && Leads(s, Broadcast(s, st))
  {
    hide Rank, IsNewer, StoredWell, HighestPrepared, Backed;
    if s.latest.Some? {
      NewerHasLargerRank(s.latest.value.pledge, st.pledge);
    }
    BroadcastFrame(s, st);
    if s.phase.Externalized? {
      BackedStable(s, Broadcast(s, st), s.c.value.value);
    }
  }

  /** What every re-entrant operation guarantees. */
  ghost predicate Moves(s: State, t: State) {
    Inv(t) && Leads(s, t) && OnlyOwnNews(s, t)
  }

  lemma MovesTrans(s: State, t: State, u: State)
    requires Moves(s, t) && Moves(t, u)
    ensures Moves(s, u)
  {
    hide Inv, OwnRank;
    LeadsTrans(s, t, u);
  }

  lemma MovesRefl(s: State)
    requires Inv(s)
    ensures Moves(s, s)
  {}

  function Halt(s: State): State {
    s.(halted := true)
  }

  /** Fields outside the invariant may change freely. */
  lemma MovesCounters(s: State, t: State)
    requires Inv(s) && t == s.(count := t.count, steps := t.steps, halted := t.halted)
    requires s.count <= t.count && s.steps <= t.steps && (s.halted ==> t.halted)
    ensures Moves(s, t)
  {
    hide Rank;
    if s.phase.Externalized? {
      BackedStable(s, t, s.c.value.value);
    }
  }

  datatype Outcome = Outcome(s: State, ok: bool)

  /** sendBallot. */
  ghost function SendBallot(s: State): (t: State)
    requires Inv(s) && !s.halted
    ensures Moves(s, t)
    ensures t.steps - s.steps <= OwnRank(t) - OwnRank(s)
    ensures s.phase.Externalized? ==> t.ext == s.ext
    decreases Fuel(s), 0
  {
    hide Inv, Leads, Judge, Consistent, Assemble, Rank, Fuel;
    MovesRefl(s);
    MovesCounters(s, Halt(s));
    if !Consistent(s) || Assemble(s).None? then Halt(s)
    else if s.cur.None? then s
    else
      var st := Statement(s.node, s.index, Assemble(s).value);
      if s.node in s.ballots && s.ballots[s.node] == st then s
      else
        AssembledIsOwn(s);
        FuelFalls(s, Store(s, st));
        StoreRank(s, st);
        var r := RecvBallot(s, st);
        if r.s.halted || !r.ok then r.s
        else if r.s.cur.Some? && (r.s.latest.None? || IsNewer(r.s.latest.value.pledge, st.pledge)) then
          OwnStable(s, r.s, st);
          BroadcastKeeps(r.s, st);
          MovesTrans(s, r.s, Broadcast(r.s, st));
          Broadcast(r.s, st)
        else r.s
  }

  lemma StoreRank(s: State, st: Statement)
    requires st.node == s.node
    ensures Newer(s, st) ==> OwnRank(s) < OwnRank(Store(s, st))
  {
    hide Rank;
    if Newer(s, st) && s.node in s.ballots {
      NewerHasLargerRank(s.ballots[s.node].pledge, st.pledge);
    }
  }

  /** recvBallot. A statement under the local identity is one the decree issued. */
  ghost function RecvBallot(s: State, st: Statement): (o: Outcome)
    requires Inv(s) && !s.halted
    requires st.node == s.node ==> Own(s, st)
    ensures Inv(o.s) && Leads(s, o.s)
    ensures forall x :: x in o.s.seen ==> x in s.seen || x == st || x.node == s.node
    ensures o.s.steps - s.steps <= OwnRank(o.s) - OwnRank(s) + (if st.node == s.node then 0 else 1)
    ensures s.phase.Externalized? ==> o.s.ext == s.ext
    decreases RecvFuel(s, st), 4
  {
    MovesRefl(s);
    MovesCounters(s, Halt(s));
    if st.index != s.index then Outcome(s, false)
    else if !Newer(s, st) then Outcome(s, true)
    else if Judge(s, st).Crash? then Outcome(Halt(s), false)
    else if Judge(s, st).Invalid? then Outcome(s, false)
    else
      StoreKeeps(s, st);
      var t := Store(s, st);
      if !s.phase.Externalized? then
        var o := Step(t, st);
        LeadsTrans(s, t, o.s);
        o
      else if s.c.Some? && WorkingValue(st.pledge) == Some(s.c.value.value) then Outcome(t, true)
      else Outcome(s, false)
  }

  /** The first n rules, tried in turn. */
  ghost function FireRules(s: State, st: Statement, n: nat): (l: Local)
    requires Inv(s) && !s.halted
    ensures Moves(s, l.s)
    ensures l.s.steps - s.steps <= OwnRank(l.s) - OwnRank(s)
    decreases Fuel(s), 2, n
  {
    MovesRefl(s);
    if n == 0 then Local(s, false)
    else
      var l := FireRules(s, st, n - 1);
      if l.s.halted then l
      else
        FuelFalls(s, l.s);
        var m := Fire(RuleAt(n - 1), l.s, st);
        MovesTrans(s, l.s, m.s);
        Local(m.s, l.updated || m.updated)
  }

  /** One rule: its own changes, then the ballot it sends, then the externalized value. */
  ghost function Fire(rule: Rule, s: State, st: Statement): (m: Local)
    requires Inv(s) && !s.halted
    ensures Moves(s, m.s)
    ensures m.s.steps - s.steps <= OwnRank(m.s) - OwnRank(s)
    decreases Fuel(s), 1
  {
    var l := Attempt(rule, s, st.pledge);
    AttemptKeeps(rule, s, st.pledge);
    AttemptMoves(s, l.s);
    if l.s.halted || !l.updated then l
    else
      FuelFalls(s, l.s);
      var t := SendBallot(l.s);
      MovesTrans(s, l.s, t);
      if rule.ConfirmTheCommit? && !t.halted then
        AnnounceKeeps(t);
        MovesTrans(s, t, Announce(t));
        Local(Announce(t), true)
      else Local(t, true)
  }

  /** A halt ends the list of rules. */
  lemma {:induction false} FireStops(s: State, st: Statement, k: nat, n: nat)
    requires Inv(s) && !s.halted && k <= n
    ensures FireRules(s, st, k).s.halted ==> FireRules(s, st, n) == FireRules(s, st, k)
  {
    hide Inv, Moves, Fire, Fuel;
    if k < n {
      FireStops(s, st, k, n - 1);
    }
  }

  lemma MovesFuel(s: State, t: State)
    requires Moves(s, t)
    ensures Inv(t) && Fuel(t) <= Fuel(s)
  {
    hide Inv, OwnRank;
    FuelFalls(s, t);
  }

  lemma AttemptMoves(s: State, t: State)
    requires Inv(t) && Leads(s, t) && OnlyBallots(s, t)
    ensures Moves(s, t) && OwnRank(s) == OwnRank(t)
  {
    hide Rank;
  }

  /** The value on the externalize channel. */
  function Announce(s: State): State {
    if s.c.Some? then s.(ext := s.ext + [s.c.value.value]) else s
  }

  lemma AnnounceKeeps(s: State)
    requires Inv(s) && s.phase.Externalized? && s.ext == []
    ensures Moves(s, Announce(s)) && Announce(s).steps == s.steps && OwnRank(Announce(s)) == OwnRank(s)
  {
    hide Rank;
    BackedStable(s, Announce(s), s.c.value.value);
  }

  /** step. The guard leaves the counter raised; the search of update never finds a counter. */
  ghost function Step(s: State, st: Statement): (o: Outcome)
    requires Inv(s) && !s.halted
    ensures Moves(s, o.s)
    ensures o.s.steps - s.steps <= OwnRank(o.s) - OwnRank(s) + 1
    decreases Fuel(s), 3
  {
    var t := s.(count := s.count + 1, steps := s.steps + 1);
    MovesCounters(s, t);
    if t.count == MAX_RECURSIONS then Outcome(t, false)
    else
      FuelFalls(s, t);
      var l := FireRules(t, st, 4);
      MovesTrans(s, t, l.s);
      if l.s.halted then Outcome(l.s, false)
      else
        FinishKeeps(s, l.s, l.updated);
        Outcome(Finish(l.s, l.updated), true)
  }

  lemma FinishKeeps(s: State, t: State, updated: bool)
    requires Moves(s, t) && s.count < t.count
    ensures var u := Finish(t, updated);
            Moves(s, u) && u.steps == t.steps && OwnRank(u) == OwnRank(t)
  {
    hide Rank, Inv;
    var u := t.(count := t.count - 1);
    LowerCount(t, u);
    assert OwnRank(u) == OwnRank(t);
    if updated && u.latest.Some? {
      InvParts(u);
      ResendKeeps(u, u.latest.value);
    }
  }

  lemma LowerCount(t: State, u: State)
    requires Inv(t) && u == t.(count := u.count)
    ensures Inv(u)
  {
    if t.phase.Externalized? {
      BackedStable(t, u, t.c.value.value);
    }
  }

  lemma ResendKeeps(s: State, st: Statement)
    requires Inv(s) && Own(s, st)
    ensures var t := s.(sent := s.sent + [st]);
            Inv(t) && OwnRank(t) == OwnRank(s)
  {
    hide Rank;
    if s.phase.Externalized? {
      BackedStable(s, s.(sent := s.sent + [st]), s.c.value.value);
    }
  }

  /** The end of step: the counter goes down and the latest ballot is sent again. */
  function Finish(s: State, updated: bool): State {
    var t := s.(count := if s.count > 0 then s.count - 1 else 0);
    if updated && t.latest.Some? then t.(sent := t.sent + [t.latest.value]) else t
  }

  /** updateBallotPhase without force: nomination starts the ballot protocol with its value. */
  ghost function Propose(s: State, v: Value): (t: State)
    requires Inv(s) && !s.halted
    ensures Moves(s, t)
    ensures t.steps - s.steps <= OwnRank(t) - OwnRank(s)
  {
    MovesRefl(s);
    if s.cur.Some? || s.phase.Externalized? then s
    else
      var b := Ballot(1, if s.next != 0 then s.next else v);
      StartKeeps(s, b);
      var t := SendBallot(UpdateBallot(s, b));
      MovesTrans(s, UpdateBallot(s, b), t);
      t
  }

  lemma StartKeeps(s: State, b: Ballot)
    requires Inv(s) && s.cur.None?
    ensures Moves(s, UpdateBallot(s, b)) && OwnRank(s) == OwnRank(UpdateBallot(s, b))
  {
    hide Rank;
  }
}
