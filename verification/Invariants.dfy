/** What every rule of the ballot protocol keeps, and how a decree's state can move. */
module Invariants {
  import opened Common
  import opened Ballots
  import opened Quorums
  import opened Statements
  import opened Federated
  import opened Protocol

  /******* The invariant *******/

  /** The statement commits its sender to the value this decree is locked on. */
  predicate Carries(s: State, pl: Pledge) {
    Commits(pl) ==> !s.phase.Preparing? && s.c.Some? && HasValue(pl, s.c.value.value)
  }

  /** A statement this decree may have issued itself. */
  predicate Own(s: State, st: Statement) {
    st.node == s.node && st.index == s.index && st.pledge.b.Some? && Carries(s, st.pledge)
  }

  predicate StoredWell(s: State) {
    && (forall k :: k in s.ballots ==>
          && s.ballots[k].node == k
          && WellFormed(s.ballots[k].pledge)
          && StatementQuorum(s, s.ballots[k].pledge).Some?
          && s.ballots[k] in s.seen)
    && (forall st :: st in s.seen && st.node == s.node ==> Own(s, st))
  }

  /** Past the prepare phase c, h and the current ballot have one value, in this order. */
  predicate Locked(s: State) {
    !s.phase.Preparing? ==>
      && s.c.Some? && s.h.Some? && s.cur.Some?
      && 0 < s.c.value.counter <= s.h.value.counter <= s.cur.value.counter
      && s.c.value.value == s.h.value.value == s.cur.value.value
  }

  predicate SentWell(s: State) {
    && (forall st :: st in s.sent ==> Own(s, st))
    && (s.latest.Some? ==> Own(s, s.latest.value))
  }

  /** The nodes that this decree has seen commit to the value. */
  function Committed(s: State, v: Value): set<NodeID> {
    set st | st in s.seen && Commits(st.pledge) && HasValue(st.pledge, v) :: st.node
  }

  /** A slice of the local quorum committed to the value. */
  ghost predicate Backed(s: State, v: Value) {
    exists nodes: set<NodeID> :: IsSlice(s.quorum, nodes) && nodes <= Committed(s, v)
  }

  /** At most one value is externalized: the locked one, and a slice stands behind it. */
  ghost predicate ExternalizedWell(s: State) {
    && |s.ext| <= 1
    && (s.ext != [] ==> s.phase.Externalized? && s.c.Some? && s.ext[0] == s.c.value.value)
    && (s.phase.Externalized? && s.c.Some? ==> Backed(s, s.c.value.value))
  }

  /** p is the highest ballot ever accepted as prepared; until the confirm phase q is the highest
      one of those that are incompatible with p. */
  predicate HighestPrepared(s: State) {
    && (s.p.None? <==> s.accepted == {})
    && (s.p.Some? ==> s.p.value in s.accepted && forall b :: b in s.accepted ==> Compare(Some(b), s.p) <= 0)
    && (s.phase.Preparing? && s.q.None? ==> forall b :: b in s.accepted ==> Compatible(Some(b), s.p))
    && (s.phase.Preparing? && s.q.Some? ==>
          && s.q.value in s.accepted && !Compatible(s.q, s.p)
          && forall b :: b in s.accepted && !Compatible(Some(b), s.p) ==> Compare(Some(b), s.q) <= 0)
  }

  ghost predicate Inv(s: State) {
    StoredWell(s) && Locked(s) && SentWell(s) && ExternalizedWell(s) && HighestPrepared(s)
  }

  /******* The order in which states follow each other *******/

  function Stage(ph: Phase): nat {
    match ph case Preparing => 0 case Confirming => 1 case Externalized => 2
  }

  /** How far the decree's own stored statement has come. */
  function OwnRank(s: State): nat {
    if s.node in s.ballots then 1 + Rank(s.ballots[s.node].pledge) else 0
  }

  /** How far the statement has come that was last broadcast. */
  function LatestRank(s: State): nat {
    if s.latest.Some? then 1 + Rank(s.latest.value.pledge) else 0
  }

  predicate SameDecree(s: State, t: State) {
    s.node == t.node && s.index == t.index && s.quorum == t.quorum && s.hash == t.hash
  }

  /** The phase moves forward, a locked value stays, and the ballots only rise within a phase. */
  predicate BallotsRise(s: State, t: State) {
    && Stage(s.phase) <= Stage(t.phase)
    && (!s.phase.Preparing? && s.c.Some? ==> t.c.Some? && t.c.value.value == s.c.value.value)
    && (s.phase == t.phase ==> Compare(s.cur, t.cur) <= 0)
    && Compare(s.p, t.p) <= 0
    && s.accepted <= t.accepted
    && (s.halted ==> t.halted)
  }

  predicate Leads(s: State, t: State) {
    && BallotsRise(s, t)
    && SameDecree(s, t) && t.quorums == s.quorums && t.valid == s.valid
    && s.seen <= t.seen
    && s.sent <= t.sent && s.ext <= t.ext
    && s.count <= t.count && s.steps <= t.steps
    && OwnRank(s) <= OwnRank(t) && LatestRank(s) <= LatestRank(t)
  }

  /** Only the decree's own statements are stored along the way. */
  predicate OnlyOwnNews(s: State, t: State) {
    forall st :: st in t.seen ==> st in s.seen || st.node == s.node
  }

  lemma LeadsTrans(s: State, t: State, u: State)
    requires Leads(s, t) && Leads(t, u)
    ensures Leads(s, u)
  {}

  lemma BackedStable(s: State, t: State, v: Value)
    requires Backed(s, v) && s.quorum == t.quorum && s.seen <= t.seen
    ensures Backed(t, v)
  {
    var nodes: set<NodeID> :| IsSlice(s.quorum, nodes) && nodes <= Committed(s, v);
    assert nodes <= Committed(t, v);
  }

  /** A rule changes the ballots of the decree and nothing that was stored or sent. */
  predicate OnlyBallots(s: State, t: State) {
    && SameDecree(s, t) && t.quorums == s.quorums && t.valid == s.valid
    && t.ballots == s.ballots && t.latest == s.latest && t.count == s.count
    && t.sent == s.sent && t.ext == s.ext && t.seen == s.seen && t.steps == s.steps
  }

  /** What is left to show of a rule that does not externalize. */
  lemma RuleFrame(s: State, t: State)
    requires Inv(s) && OnlyBallots(s, t) && BallotsRise(s, t)
    requires Locked(t) && HighestPrepared(t)
    requires t.phase.Externalized? ==> s.phase.Externalized? || Backed(s, t.c.value.value)
    ensures Inv(t) && Leads(s, t)
  {
    hide Rank;
    if t.phase.Externalized? {
      BackedStable(s, t, t.c.value.value);
    }
  }

  /******* The four rules *******/

  lemma {:induction false} ScanFinds(s: State, cands: seq<Ballot>)
    ensures var r := ScanAccept(s, cands);
            r.Found? ==>
              && (s.phase.Confirming? ==> LessAndCompatible(s.p, Some(r.b)) && Compatible(s.c, Some(r.b)))
              && (s.q.Some? ==> Compare(Some(r.b), s.q) > 0)
              && (s.p.Some? ==> !LessAndCompatible(Some(r.b), s.p))
              && AcceptsPrepared(s, r.b)
  {
    if cands != [] {
      ScanFinds(s, cands[1..]);
    }
  }

  /** The new p and q are again the highest accepted ballots. */
  lemma SetAcceptPreparedKeeps(s: State, b: Ballot)
    requires HighestPrepared(s)
    requires s.q.Some? ==> Compare(Some(b), s.q) > 0
    requires s.p.Some? ==> !LessAndCompatible(Some(b), s.p)
    requires !s.phase.Preparing? ==> s.p.None? || LessAndCompatible(s.p, Some(b))
    ensures var t := SetAcceptPrepared(s, b).s;
            HighestPrepared(t) && Compare(s.p, t.p) <= 0 && b in t.accepted
  {}

  lemma TakePreparedKeeps(s: State, b: Ballot)
    requires Inv(s) && !s.phase.Externalized?
    requires s.q.Some? ==> Compare(Some(b), s.q) > 0
    requires s.p.Some? ==> !LessAndCompatible(Some(b), s.p)
    requires s.phase.Confirming? ==> LessAndCompatible(s.p, Some(b))
    ensures var t := TakePrepared(s, b).s;
            Inv(t) && Leads(s, t) && OnlyBallots(s, t) && t.phase == s.phase
  {
    hide Inv, Leads, HighestPrepared;
    assert Locked(s) && HighestPrepared(s) by { InvParts(s); }
    SetAcceptPreparedKeeps(s, b);
    var l, t := SetAcceptPrepared(s, b), TakePrepared(s, b).s;
    PreparedFrame(l.s, t);
    RuleFrame(s, t);
  }

  lemma PreparedFrame(s: State, t: State)
    requires HighestPrepared(s) && t.p == s.p && t.q == s.q && t.accepted == s.accepted && t.phase == s.phase
    ensures HighestPrepared(t)
  {}

  lemma AcceptPreparedKeeps(s: State, pl: Pledge)
    requires Inv(s)
    ensures var t := AcceptPrepared(s, pl).s;
            Inv(t) && Leads(s, t) && OnlyBallots(s, t) && t.phase == s.phase
  {
    hide CandidateList, ScanAccept, AcceptsPrepared, TakePrepared, Inv, Leads;
    ScanFinds(s, CandidateList(s, pl));
    var r := ScanAccept(s, CandidateList(s, pl));
    if !s.phase.Externalized? && r.Found? {
      TakePreparedKeeps(s, r.b);
    } else {
      assert Locked(s) && HighestPrepared(s) by { InvParts(s); }
      RuleFrame(s, AcceptPrepared(s, pl).s);
    }
  }

  lemma InvParts(s: State)
    requires Inv(s)
    ensures StoredWell(s) && Locked(s) && SentWell(s) && ExternalizedWell(s) && HighestPrepared(s)
  {}

  lemma SetConfirmPreparedKeeps(s: State, cb: Option<Ballot>, hb: Ballot)
    requires Inv(s) && s.phase.Preparing?
    ensures var t := SetConfirmPrepared(s, cb, hb).s;
            Inv(t) && Leads(s, t) && OnlyBallots(s, t) && t.phase == s.phase
  {
    hide Inv, Leads;
    assert Locked(s) && HighestPrepared(s) by { InvParts(s); }
    RuleFrame(s, SetConfirmPrepared(s, cb, hb).s);
  }

  lemma ConfirmPreparedKeeps(s: State, pl: Pledge)
    requires Inv(s)
    ensures var t := ConfirmPrepared(s, pl).s;
            Inv(t) && Leads(s, t) && OnlyBallots(s, t) && t.phase == s.phase
  {
    hide CandidateList, Inv, FindHigh, LowBallot, SetConfirmPrepared;
    if s.phase.Preparing? && s.p.Some? {
      var cands := CandidateList(s, pl);
      var i := FindHigh(s, cands, 0);
      if i < |cands| {
        SetConfirmPreparedKeeps(s, LowBallot(s, cands, i), cands[i]);
      }
    }
  }

  /** Accepting a commit locks the value, or moves the lock up within the value. */
  lemma SetAcceptCommitKeeps(s: State, cb: Ballot, hb: Ballot)
    requires Inv(s) && !s.phase.Externalized?
    requires cb.value == hb.value && 0 < cb.counter <= hb.counter
    requires s.phase.Confirming? ==> s.h.Some? && s.h.value.value == hb.value
    ensures var t := SetAcceptCommit(s, cb, hb).s;
            Inv(t) && Leads(s, t) && OnlyBallots(s, t) && !t.phase.Externalized?
  {
    hide Inv, Leads;
    assert Locked(s) && HighestPrepared(s) by { InvParts(s); }
    RuleFrame(s, SetAcceptCommit(s, cb, hb).s);
  }

  lemma AcceptCommitKeeps(s: State, pl: Pledge)
    requires Inv(s)
    ensures var t := AcceptCommit(s, pl).s;
            Inv(t) && Leads(s, t) && OnlyBallots(s, t) && (s.phase.Externalized? <==> t.phase.Externalized?)
  {
    hide CommitInterval, SetAcceptCommit, Inv;
    var v := CommitValue(pl);
    if !s.phase.Externalized? && v.Some? {
      if s.phase.Preparing? || (s.h.Some? && s.h.value.value == v.value) {
        var i := CommitInterval(s, ToAccept, v.value);
        if i.0 != 0 {
          SetAcceptCommitKeeps(s, Ballot(i.0, v.value), Ballot(i.1, v.value));
        }
      }
    }
  }

  /** A ratified commit comes with a slice of nodes that committed to the value. */
  lemma RatifiedIsBacked(s: State, v: Value, l: Counter, r: Counter)
    requires StoredWell(s) && ConfirmsCommit(s, v, l, r)
    ensures Backed(s, v)
  {
    var nodes := Prune(SlicesOf(s), Matching(s, CommitAccept(v, l, r)));
    forall k | k in nodes ensures k in Committed(s, v) {
      assert s.ballots[k] in s.seen && s.ballots[k].node == k;
    }
  }

  lemma SetConfirmCommitKeeps(s: State, cb: Ballot, hb: Ballot)
    requires Inv(s) && s.phase.Confirming? && s.c.Some? && s.c.value.value == hb.value && Backed(s, hb.value)
    requires cb.value == hb.value && 0 < cb.counter <= hb.counter
    ensures var t := SetConfirmCommit(s, cb, hb).s;
            Inv(t) && Leads(s, t) && OnlyBallots(s, t) && t.phase.Externalized?
  {
    hide Inv, Leads, Backed;
    assert Locked(s) && HighestPrepared(s) by { InvParts(s); }
    RuleFrame(s, SetConfirmCommit(s, cb, hb).s);
  }

  lemma ConfirmCommitKeeps(s: State, pl: Pledge)
    requires Inv(s)
    ensures var l := ConfirmCommit(s, pl);
            && Inv(l.s) && Leads(s, l.s) && OnlyBallots(s, l.s)
            && (l.updated ==> s.phase.Confirming? && l.s.phase.Externalized?)
  {
    hide CommitInterval, SetConfirmCommit, Inv, ConfirmsCommit;
    if s.phase.Confirming? && pl.b.Some? {
      var v := pl.b.value.value;
      var i := CommitInterval(s, ToConfirm, v);
      assert Locked(s) && StoredWell(s) by { InvParts(s); }
      if i.0 != 0 && s.c.value.value == v {
        RatifiedIsBacked(s, v, i.0, i.1);
        SetConfirmCommitKeeps(s, Ballot(i.0, v), Ballot(i.1, v));
      }
    }
  }

  /** Before the confirm phase the check of p against q never stops the node. */
  lemma PreparedPairNeverHalts(s: State)
    requires Inv(s) && s.phase.Preparing? && s.p.Some? && s.q.Some?
    ensures LessAndIncompatible(s.q, s.p)
  {}
}
