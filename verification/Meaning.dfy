/**
 What a decree tells the others, and what its rules look for, said without their bodies: through the filters
 by which a statement is read, and through maxima over everything that could have been found.
 */
module Meanings {
  import opened Common
  import opened Ballots
  import opened Sorting
  import opened Quorums
  import opened Statements
  import opened Federated
  import opened Protocol
  import opened Invariants
  import N = Network
  import R = Reentry
  import S = Search

  /******* The own statement *******/

  predicate AtMost(b: Ballot, counter: Counter, v: Value) {
    b.value == v && b.counter <= counter
  }

  /** What the others read in a PREPARE statement. */
  ghost predicate SaysPrepare(s: State, pl: Pledge)
    requires s.c.Some? ==> s.h.Some?
  {
    && (forall b :: Holds(PrepareVote(b), pl) <==> s.cur.Some? && AtMost(b, s.cur.value.counter, s.cur.value.value))
    && (forall b :: Holds(PrepareAccept(b), pl) <==>
          || (s.p.Some? && AtMost(b, s.p.value.counter, s.p.value.value))
          || (s.q.Some? && AtMost(b, s.q.value.counter, s.q.value.value)))
    && (forall v: Value, l: Counter, r: Counter :: Holds(CommitVote(v, l, r), pl) <==>
          && s.c.Some? && s.c.value.counter > 0 && v == s.c.value.value
          && s.c.value.counter <= l && r <= s.h.value.counter)
    && (forall v: Value, l: Counter, r: Counter :: !Holds(CommitAccept(v, l, r), pl))
  }

  /** What they read in a CONFIRM statement, all of it about the locked value. */
  ghost predicate SaysConfirm(s: State, pl: Pledge)
    requires s.c.Some? && s.h.Some? && s.p.Some?
  {
    var v := s.c.value.value;
    && (forall b :: Holds(PrepareVote(b), pl) <==> b.value == v)
    && (forall b :: Holds(PrepareAccept(b), pl) <==> AtMost(b, s.p.value.counter, v))
    && (forall x: Value, l: Counter, r: Counter :: Holds(CommitVote(x, l, r), pl) <==> x == v && s.c.value.counter <= l)
    && (forall x: Value, l: Counter, r: Counter :: Holds(CommitAccept(x, l, r), pl) <==> x == v && s.c.value.counter <= l && r <= s.h.value.counter)
  }

  /** What they read in an EXTERNALIZE statement: everything from c on. */
  ghost predicate SaysExternalize(s: State, pl: Pledge)
    requires s.c.Some?
  {
    var v := s.c.value.value;
    && (forall b :: Holds(PrepareVote(b), pl) <==> b.value == v)
    && (forall b :: Holds(PrepareAccept(b), pl) <==> b.value == v)
    && (forall x: Value, l: Counter, r: Counter :: Holds(CommitVote(x, l, r), pl) <==> x == v && s.c.value.counter <= l)
    && (forall x: Value, l: Counter, r: Counter :: Holds(CommitAccept(x, l, r), pl) <==> x == v && s.c.value.counter <= l)
    && s.h.Some? && CountersAt(v, pl) == {s.c.value.counter, s.h.value.counter, MAX_COUNTER}
  }

  /**
   The statement that a decree assembles says what its state is, to everybody who reads it through the
   filters. Only a missing p in the confirm phase keeps it from being assembled.
   */
  lemma StatementSays(s: State)
    requires Inv(s) && Consistent(s)
    ensures Assemble(s).None? <==> s.phase.Confirming? && s.p.None?
    ensures Assemble(s).Some? ==>
              var pl := Assemble(s).value;
              && pl.hash == s.hash
              && match s.phase
                 case Preparing => SaysPrepare(s, pl)
                 case Confirming => SaysConfirm(s, pl)
                 case Externalized => SaysExternalize(s, pl)
  {
    assert Locked(s);
  }

  /** It is never refused for its counters, once there is a current ballot. */
  lemma StatementIsWellFormed(s: State)
    requires Inv(s) && Consistent(s) && Assemble(s).Some?
    ensures WellFormed(Assemble(s).value) <==> s.cur.Some?
  {
    assert Locked(s);
  }

  /** What the node itself finds wrong with it: a quorum or a value, or an h above p. */
  lemma OwnIsValidExactly(s: State)
    requires Inv(s) && Consistent(s) && Assemble(s).Some? && s.cur.Some?
    ensures var pl := Assemble(s).value;
            var quorum := StatementQuorum(s, pl);
            Judge(s, Statement(s.node, s.index, pl)) == Valid <==>
              && quorum.Some? && ValidQuorum(quorum.value, 0, false) && s.cur.value.value in s.valid
              && (s.phase.Preparing? ==>
                    && (s.p.Some? ==> s.p.value.value in s.valid)
                    && (s.h.Some? && s.h.value.counter > 0 ==> s.p.Some? && s.h.value.counter <= s.p.value.counter))
  {
    hide ValidQuorum;
    assert Locked(s);
  }

  /** The counters of a statement are in order. */
  predicate CountersInOrder(pl: Pledge, own: bool)
    requires pl.b.Some?
  {
    var b := pl.b.value.counter;
    match pl
    case Prepare(_, p, q, hc, lc, _) =>
      && (own || b > 0)
      && (p.Some? && q.Some? ==> q.value.value != p.value.value && Compare(q, p) < 0)
      && (hc > 0 ==> p.Some? && hc <= p.value.counter)
      && (lc > 0 ==> lc <= hc <= b)
    case Confirm(_, _, lc, hc, _) => 0 < b && lc <= hc <= b
    case Externalize(_, hc, _) => 0 < b <= hc
  }

  /** The values a statement stands for: that of its ballot, and of the prepared one, but not of q. */
  function StandsFor(pl: Pledge): set<Value>
    requires pl.b.Some?
  {
    if !pl.Prepare? then {pl.b.value.value}
    else (if pl.b.value.counter > 0 then {pl.b.value.value} else {}) + (if pl.p.Some? then {pl.p.value.value} else {})
  }

  /** A statement is valid if and only if its quorum is known and valid, its counters are in order, and the values
      it stands for are valid; it stops the process if and only if its quorum is not known or it has no ballot. */
  lemma ValidExactly(s: State, st: Statement)
    ensures var quorum, b := StatementQuorum(s, st.pledge), st.pledge.b;
            && (Judge(s, st) == Crash <==> quorum.None? || (ValidQuorum(quorum.value, 0, false) && b.None?))
            && (Judge(s, st) == Valid <==>
                  && quorum.Some? && ValidQuorum(quorum.value, 0, false) && b.Some?
                  && CountersInOrder(st.pledge, st.node == s.node) && StandsFor(st.pledge) <= s.valid)
  {
    hide ValidQuorum;
    if st.pledge.b.Some? {
      assert st.pledge.b.value.value in StandsFor(st.pledge) || st.pledge.Prepare?;
    }
  }

  /** Every ballot that was ever accepted as prepared with the value of p is told, and until the confirm phase
      so is every one with the value of q. */
  lemma AcceptedIsTold(s: State, b: Ballot)
    requires Inv(s) && Consistent(s) && Assemble(s).Some? && s.phase.Preparing? && b in s.accepted
    ensures (Compatible(Some(b), s.p) || Compatible(Some(b), s.q)) ==> Holds(PrepareAccept(b), Assemble(s).value)
  {
    assert HighestPrepared(s);
  }

  /** In the confirm phase what is told as prepared is backed by p if and only if p has the locked value. */
  lemma ConfirmIsBackedExactly(s: State)
    requires Inv(s) && Consistent(s) && s.phase.Confirming? && s.p.Some?
    ensures (forall b :: Holds(PrepareAccept(b), Assemble(s).value) ==> LessAndCompatible(Some(b), s.p))
       <==> s.p.value.value == s.c.value.value
  {
    StatementSays(s);
    var pl := Assemble(s).value;
    hide Assemble, Inv, Holds;
    var b := Ballot(0, s.c.value.value);
    assert AtMost(b, s.p.value.counter, s.c.value.value) && Holds(PrepareAccept(b), pl);
  }

  /******* Rule 1: the highest ballot to accept *******/

  /** A ballot that p and q do not cover yet; past the prepare phase it is also above p with its value. */
  predicate Uncovered(s: State, b: Ballot) {
    && (s.q.Some? ==> Compare(Some(b), s.q) > 0)
    && (s.p.Some? ==> !LessAndCompatible(Some(b), s.p))
    && (s.phase.Confirming? ==> LessAndCompatible(s.p, Some(b)))
  }

  /** The scan finds the highest candidate that is acceptable and not covered; it clashes only in the
      confirm phase, on a candidate above p with another value than c. */
  lemma {:induction false} ScanIsHighest(s: State, cands: seq<Ballot>)
    requires Descending(cands, Above)
    ensures var r := ScanAccept(s, cands);
            && (r.Found? ==> r.b in cands && Uncovered(s, r.b) && AcceptsPrepared(s, r.b))
            && (!r.Clash? ==> forall x :: x in cands && Uncovered(s, x) && AcceptsPrepared(s, x) ==>
                                r.Found? && Compare(Some(x), Some(r.b)) <= 0)
            && (r.Clash? ==> s.phase.Confirming? && exists x :: x in cands && LessAndCompatible(s.p, Some(x)) && !Compatible(s.c, Some(x)))
  {
    hide AcceptsPrepared, Uncovered, ScanAccept;
    if cands == [] {
      ScanNothing(s);
    } else {
      var rest := cands[1..];
      assert forall x :: x in cands ==> x == cands[0] || x in rest;
      assert forall x :: x in rest ==> x in cands && Above(cands[0], x);
      ScanStep(s, cands);
      hide LessAndCompatible, Compatible;
      ScanIsHighest(s, rest);
    }
  }

  lemma ScanNothing(s: State)
    ensures ScanAccept(s, []) == Nothing
  {}

  /** The scan stops at its first candidate on a clash or if it is wanted, and passes over it otherwise. */
  lemma ScanStep(s: State, cands: seq<Ballot>)
    requires cands != []
    ensures var r, x := ScanAccept(s, cands), cands[0];
            || (r == Clash && s.phase.Confirming? && LessAndCompatible(s.p, Some(x)) && !Compatible(s.c, Some(x)))
            || (r == Found(x) && Uncovered(s, x) && AcceptsPrepared(s, x))
            || (r == ScanAccept(s, cands[1..]) && !(Uncovered(s, x) && AcceptsPrepared(s, x)))
  {
    hide AcceptsPrepared;
  }

  lemma CandidatesDescend(s: State, pl: Pledge)
    ensures Descending(CandidateList(s, pl), Above)
  {
    AboveIsOrder();
  }

  /** The hints of a statement reach as far as its votes and acceptances, and no further. */
  lemma HintsReach(pl: Pledge, x: Ballot) returns (hint: Option<Ballot>)
    requires pl.b.Some?
    ensures Holds(PrepareVote(x), pl) || Holds(PrepareAccept(x), pl) ==>
              hint.Some? && hint.value in Hints(pl) && LessAndCompatible(Some(x), hint)
    ensures x in Hints(pl) ==> Holds(PrepareVote(x), pl) || Holds(PrepareAccept(x), pl)
  {
    match pl
    case Prepare(b, p, q, _, _, _) =>
      hint := if LessAndCompatible(Some(x), b) then b else if LessAndCompatible(Some(x), p) then p else q;
    case Confirm(b, _, _, _, _) => hint := Some(Ballot(MAX_COUNTER, b.value.value));
    case Externalize(b, _, _) => hint := Some(Ballot(MAX_COUNTER, b.value.value));
  }

  /** A candidate with the same value above an uncovered ballot is uncovered as well. */
  lemma UncoveredAbove(s: State, x: Ballot, c: Ballot)
    requires Uncovered(s, x) && LessAndCompatible(Some(x), Some(c))
    ensures Uncovered(s, c)
  {}

  lemma AboveTrans(x: Ballot, c: Ballot, b: Ballot)
    requires Compare(Some(x), Some(c)) <= 0 && Compare(Some(c), Some(b)) <= 0
    ensures Compare(Some(x), Some(b)) <= 0
  {}

  lemma FoundIsTaken(s: State, pl: Pledge)
    requires !s.phase.Externalized?
    ensures var r := ScanAccept(s, CandidateList(s, pl));
            var t := AcceptPrepared(s, pl).s;
            (r.Clash? ==> t.halted) && (r.Found? ==> r.b in t.accepted)
  {
    hide ScanAccept, CandidateList;
  }

  /**
   Over all ballots at or below a hint of the statement, listed or not: if one is acceptable and not covered,
   rule 1 accepts a ballot at least as high, or the process stops on a clash.
   */
  lemma HighestIsAccepted(s: State, k: NodeID, hint: Ballot, x: Ballot) returns (b: Ballot)
    requires k in s.ballots && hint in Hints(s.ballots[k].pledge) && LessAndCompatible(Some(x), Some(hint))
    requires !s.phase.Externalized? && Uncovered(s, x) && AcceptsPrepared(s, x)
    ensures var t := AcceptPrepared(s, s.ballots[k].pledge).s;
            t.halted || (b in t.accepted && Compare(Some(x), Some(b)) <= 0 && AcceptsPrepared(s, b) && Uncovered(s, b))
  {
    hide AcceptsPrepared, CandidateList, Hints, ScanAccept, AcceptPrepared, Uncovered, Compare;
    var pl := s.ballots[k].pledge;
    var c := S.AcceptableIsFound(s, k, hint, x);
    CandidatesDescend(s, pl);
    ScanIsHighest(s, CandidateList(s, pl));
    UncoveredAbove(s, x, c);
    FoundIsTaken(s, pl);
    b := x;
    var r := ScanAccept(s, CandidateList(s, pl));
    if r.Found? {
      b := r.b;
      AboveTrans(x, c, b);
    }
  }

  /** So it is with every ballot that the statement votes for or accepts. */
  lemma SupportedIsAccepted(s: State, k: NodeID, x: Ballot) returns (b: Ballot)
    requires k in s.ballots && s.ballots[k].pledge.b.Some?
    requires Holds(PrepareVote(x), s.ballots[k].pledge) || Holds(PrepareAccept(x), s.ballots[k].pledge)
    requires !s.phase.Externalized? && Uncovered(s, x) && AcceptsPrepared(s, x)
    ensures var t := AcceptPrepared(s, s.ballots[k].pledge).s;
            t.halted || (b in t.accepted && Compare(Some(x), Some(b)) <= 0 && AcceptsPrepared(s, b) && Uncovered(s, b))
  {
    hide AcceptsPrepared, AcceptPrepared, Uncovered, Holds, Hints;
    var hint := HintsReach(s.ballots[k].pledge, x);
    b := HighestIsAccepted(s, k, hint.value, x);
  }

  /** A commit ballot that accepted ballots speak against is zeroed, and no other. */
  lemma AbortedIsDropped(s: State, b: Ballot)
    requires s.phase.Preparing? && s.h.Some?
    ensures var t := TakePrepared(s, b).s;
            t.c == if s.c.Some? && !NotAborted(t, s.h.value) then Some(ZERO) else s.c
  {}

  /** No accepted ballot speaks against committing to high: none of another value is above it. */
  predicate NotAborted(s: State, high: Ballot) {
    && (s.p.Some? && Compare(Some(high), s.p) <= 0 ==> s.p.value.value == high.value)
    && (s.q.Some? && Compare(Some(high), s.q) <= 0 ==> s.q.value.value == high.value)
  }

  /** A new current ballot: h goes with it, or is zeroed, which stops the process when it next sends. */
  lemma HighGoesAlong(s: State, b: Ballot)
    ensures var t := UpdateBallot(s, b);
            && t.cur == Some(b)
            && t.h == (if s.h.Some? && s.h.value.value != b.value then Some(ZERO) else s.h)
            && (s.h.Some? && s.h.value.value != b.value && b.value != 0 ==> !Consistent(t))
  {}

  /******* Rule 2: the highest ballot to confirm, and how far down *******/

  lemma {:induction false} HighIsHighest(s: State, cands: seq<Ballot>, i: nat)
    requires Descending(cands, Above) && i <= |cands|
    ensures var r := FindHigh(s, cands, i);
            && (r < |cands| ==> ConfirmsPrepared(s, cands[r]) && Compare(s.h, Some(cands[r])) < 0)
            && forall j :: i <= j < |cands| && j < r ==> !(ConfirmsPrepared(s, cands[j]) && Compare(s.h, Some(cands[j])) < 0)
    decreases |cands| - i
  {
    hide ConfirmsPrepared;
    if i < |cands| && !(s.h.Some? && Compare(Some(cands[i]), s.h) <= 0) && !ConfirmsPrepared(s, cands[i]) {
      HighIsHighest(s, cands, i + 1);
    } else if i < |cands| {
      assert forall j :: i < j < |cands| ==> Above(cands[i], cands[j]);
    }
  }

  /** What rule 2 does with the ballot it finds. */
  lemma HighIsTaken(s: State, pl: Pledge)
    requires s.phase.Preparing? && s.p.Some?
    ensures var cands := CandidateList(s, pl);
            var i, l := FindHigh(s, cands, 0), ConfirmPrepared(s, pl);
            if i == |cands| then l == Local(s, false)
            else
              && l.s.next == cands[i].value && Compare(Some(cands[i]), l.s.cur) <= 0
              && (s.cur.None? || Compatible(s.cur, Some(cands[i])) ==>
                    && (Compare(s.h, Some(cands[i])) < 0 ==> l.updated && l.s.h == Some(cands[i]))
                    && l.s.c == if s.c.None? then LowBallot(s, cands, i) else None)
              && (s.cur.Some? && !Compatible(s.cur, Some(cands[i])) ==>
                    && l.s.c == s.c
                    && l.s.h == if l.s.cur != s.cur && s.h.Some? && s.h.value.value != cands[i].value then Some(ZERO) else s.h)
  {
    hide CandidateList, FindHigh, FindLow;
  }

  /**
   Over all ballots at or below a hint: if one above h is confirmed as prepared, rule 2 takes a ballot at
   least as high; the current ballot rises to it, and so does h unless the current ballot has another value.
   */
  lemma HighestIsConfirmed(s: State, k: NodeID, hint: Ballot, x: Ballot) returns (hb: Ballot)
    requires k in s.ballots && hint in Hints(s.ballots[k].pledge) && LessAndCompatible(Some(x), Some(hint))
    requires s.phase.Preparing? && s.p.Some? && Compare(s.h, Some(x)) < 0 && ConfirmsPrepared(s, x)
    ensures var l := ConfirmPrepared(s, s.ballots[k].pledge);
            && Compare(Some(x), Some(hb)) <= 0 && ConfirmsPrepared(s, hb) && l.s.next == hb.value
            && Compare(Some(hb), l.s.cur) <= 0
            && (s.cur.None? || Compatible(s.cur, Some(hb)) ==> l.updated && l.s.h == Some(hb))
  {
    hide ConfirmsPrepared, CandidateList, Hints, LowBallot, FindHigh, ConfirmPrepared, Compare;
    var pl := s.ballots[k].pledge;
    var c := S.AcceptableIsFound(s, k, hint, x);
    CandidatesDescend(s, pl);
    var cands := CandidateList(s, pl);
    HighIsHighest(s, cands, 0);
    HighIsTaken(s, pl);
    AboveHigh(s.h, x, c);
    var j :| 0 <= j < |cands| && cands[j] == c;
    var i := FindHigh(s, cands, 0);
    assert i <= j;
    hb := cands[i];
    AtOrAbove(cands, i, j);
    AboveTrans(x, c, hb);
  }

  lemma AboveHigh(h: Option<Ballot>, x: Ballot, c: Ballot)
    requires Compare(h, Some(x)) < 0 && Compare(Some(x), Some(c)) <= 0
    ensures Compare(h, Some(c)) < 0
  {}

  lemma AtOrAbove(cands: seq<Ballot>, i: nat, j: nat)
    requires Descending(cands, Above) && i <= j < |cands|
    ensures Compare(Some(cands[j]), Some(cands[i])) <= 0
  {
    assert i < j ==> Above(cands[i], cands[j]);
  }

  /** A candidate that could be the commit ballot for high. */
  predicate Fits(x: Ballot, high: Ballot) {
    LessAndCompatible(Some(x), Some(high))
  }

  /**
   The search for the low ballot ends with the unbroken run: e is its position. Every candidate of the value of
   high up to it is confirmed as prepared, and below it, down to the floor, comes one that is not.
   */
  lemma {:induction false} LowEndsTheRun(s: State, cands: seq<Ballot>, i: nat, floor: Ballot, high: Ballot, low: Option<Ballot>, m: int)
    returns (e: int)
    requires Descending(cands, Above) && -1 <= m < i <= |cands| && low == if m < 0 then None else Some(cands[m])
    requires forall j :: 0 <= j < i && Fits(cands[j], high) ==> j <= m && ConfirmsPrepared(s, cands[j])
    ensures m <= e < |cands|
    ensures FindLow(s, cands, i, floor, high, low) == if e < 0 then None else Some(cands[e])
    ensures forall j :: 0 <= j <= e && Fits(cands[j], high) ==> ConfirmsPrepared(s, cands[j])
    ensures forall j :: e < j < |cands| && Fits(cands[j], high) && Compare(Some(floor), Some(cands[j])) <= 0 ==>
              exists k :: e < k <= j && Fits(cands[k], high) && !ConfirmsPrepared(s, cands[k])
    decreases |cands| - i
  {
    hide ConfirmsPrepared;
    e := m;
    if i < |cands| {
      var x := cands[i];
      if Compare(Some(x), Some(floor)) < 0 {
        assert forall j :: i < j < |cands| ==> Above(x, cands[j]);
      } else if !Fits(x, high) {
        e := LowEndsTheRun(s, cands, i + 1, floor, high, low, m);
      } else if ConfirmsPrepared(s, x) {
        e := LowEndsTheRun(s, cands, i + 1, floor, high, Some(x), i);
      } else {
        assert Fits(cands[i], high) && !ConfirmsPrepared(s, cands[i]);
      }
    }
  }

  /**
   The commit ballot that goes with the confirmed ballot at position i: there is one only if none is set and none
   of another value was accepted above; it is the last of the unbroken run of confirmed candidates from there
   down to the current ballot.
   */
  lemma LowBallotEndsTheRun(s: State, cands: seq<Ballot>, i: nat) returns (e: int)
    requires Descending(cands, Above) && i < |cands| && s.p.Some? && ConfirmsPrepared(s, cands[i])
    ensures var low, high := LowBallot(s, cands, i), cands[i];
            && -1 <= e < |cands|
            && (low.Some? ==> s.c.None? && NotAborted(s, high) && e >= i && low == Some(cands[e]) && Fits(low.value, high))
            && (low.Some? && s.cur.Some? ==> Compare(s.cur, low) <= 0)
            && (low.Some? ==> forall j :: i <= j <= e && Fits(cands[j], high) ==> ConfirmsPrepared(s, cands[j]))
            && (s.c.None? && NotAborted(s, high) ==>
                  forall j :: i <= j < |cands| && j > e && Fits(cands[j], high) && Compare(s.cur, Some(cands[j])) <= 0 ==>
                    exists k :: e < k <= j && Fits(cands[k], high) && !ConfirmsPrepared(s, cands[k]))
  {
    var high := cands[i];
    assert forall j :: 0 <= j < i ==> Above(cands[j], high);
    hide ConfirmsPrepared;
    var floor := if s.cur.Some? then s.cur.value else ZERO;
    e := LowEndsTheRun(s, cands, i, floor, high, None, -1);
  }

  /******* Rules 3 and 4: when a commit is accepted and confirmed *******/

  /** Some counter passes alone. */
  ghost predicate Passes(s: State, vote: Vote, v: Value) {
    exists r: Counter :: r > 0 && CommitPasses(s, vote, v, r, r)
  }

  /** h is the largest counter that passes alone, and c the smallest that passes with it. */
  ghost predicate Widest(s: State, vote: Vote, v: Value, c: Option<Ballot>, h: Option<Ballot>) {
    && c.Some? && h.Some? && c.value.value == h.value.value == v
    && 0 < c.value.counter <= h.value.counter && CommitPasses(s, vote, v, c.value.counter, h.value.counter)
    && (forall r: Counter :: r > 0 && CommitPasses(s, vote, v, r, r) ==> r <= h.value.counter)
    && (forall l: Counter :: l > 0 && CommitPasses(s, vote, v, l, h.value.counter) ==> c.value.counter <= l)
  }

  lemma IntervalIsWidest(s: State, vote: Vote, v: Value)
    requires S.SearchableFor(s, vote) && S.LowerCountersPositive(s) && S.TopListed(s, vote, v)
    ensures var i := CommitInterval(s, vote, v);
            && (i.0 == 0 <==> !Passes(s, vote, v))
            && (i.0 != 0 ==> Widest(s, vote, v, Some(Ballot(i.0, v)), Some(Ballot(i.1, v))))
  {
    hide CommitPasses, CommitInterval, S.SearchableFor, S.LowerCountersPositive, S.TopListed;
    S.CommitIntervalExactly(s, vote, v);
  }

  /**
   Rule 4, over all counters. A decree in the confirm phase externalizes on a commit statement for its value if and
   only if some commit is ratified; c and h are then the widest ratified interval and the current ballot is at
   least h. Nothing else ever externalizes.
   */
  lemma ConfirmsExactly(s: State, pl: Pledge)
    requires Inv(s) && S.Searchable(s) && S.LowerCountersPositive(s)
    ensures var l := ConfirmCommit(s, pl);
            && (l.updated <==> s.phase.Confirming? && Commits(pl) && HasValue(pl, s.c.value.value) && Passes(s, ToConfirm, s.c.value.value))
            && (!l.updated ==> l.s == s)
            && (l.updated ==>
                  && l.s.phase.Externalized? && Widest(s, ToConfirm, s.c.value.value, l.s.c, l.s.h)
                  && LessAndCompatible(l.s.h, l.s.cur) && Compare(s.cur, l.s.cur) <= 0)
  {
    hide Inv, CommitPasses, CommitInterval, Passes, S.Searchable, S.LowerCountersPositive, S.TopListed, SetConfirmCommit;
    assert Locked(s) by { InvParts(s); }
    if s.phase.Confirming? {
      var v := s.c.value.value;
      TopIsListedToConfirm(s, v);
      IntervalIsWidest(s, ToConfirm, v);
      var i := CommitInterval(s, ToConfirm, v);
      ConfirmedSets(s, Ballot(i.0, v), Ballot(i.1, v));
    }
  }

  lemma ConfirmedSets(s: State, cb: Ballot, hb: Ballot)
    requires Locked(s) && s.phase.Confirming? && hb.value == s.c.value.value
    ensures var l := SetConfirmCommit(s, cb, hb);
            && l.updated && l.s.phase.Externalized? && l.s.c == Some(cb) && l.s.h == Some(hb)
            && LessAndCompatible(l.s.h, l.s.cur) && Compare(s.cur, l.s.cur) <= 0
  {}

  lemma TopIsListedToConfirm(s: State, v: Value)
    requires S.Searchable(s)
    ensures S.TopListed(s, ToConfirm, v)
  {
    hide CommitPasses;
    if CommitPasses(s, ToConfirm, v, MAX_COUNTER, MAX_COUNTER) {
      var c := S.TopIsListed(s, ToConfirm, v, MAX_COUNTER);
    }
  }

  /**
   Rule 3, over all counters, if the largest one is listed or does not pass. A decree accepts a commit on a
   statement that supports a value if and only if some commit of the value is accepted by the vote and, once it is
   in the confirm phase, the value is its own and a counter above h passes. It is then in the confirm phase with the
   widest accepted interval.
   */
  lemma AcceptsExactly(s: State, pl: Pledge, v: Value)
    requires Inv(s) && S.SearchableFor(s, ToAccept) && S.LowerCountersPositive(s) && S.TopListed(s, ToAccept, v)
    requires !s.phase.Externalized? && CommitValue(pl) == Some(v)
    ensures var l := AcceptCommit(s, pl);
            && (l.updated <==>
                  && Passes(s, ToAccept, v)
                  && (s.phase.Confirming? ==>
                        && s.h.value.value == v
                        && exists r: Counter :: r > s.h.value.counter && CommitPasses(s, ToAccept, v, r, r)))
            && (!l.updated ==> l.s == s)
            && (l.updated ==>
                  && l.s.phase.Confirming? && Widest(s, ToAccept, v, l.s.c, l.s.h) && l.s.next == v
                  && l.s.q == (if s.phase.Preparing? && s.q.Some? then Some(ZERO) else s.q) && l.s.p == s.p
                  && LessAndCompatible(l.s.h, l.s.cur))
  {
    hide Inv, CommitInterval, S.SearchableFor, S.LowerCountersPositive, S.TopListed, CommitPasses, SetAcceptCommit;
    assert Locked(s) by { InvParts(s); }
    IntervalIsWidest(s, ToAccept, v);
    var i := CommitInterval(s, ToAccept, v);
    if i.0 != 0 {
      S.RaisedLowEnd(s, ToAccept, v, i.0, i.1, i.1);
      if !s.phase.Confirming? || (s.h.value.value == v && i.1 > s.h.value.counter) {
        AcceptedSets(s, Ballot(i.0, v), Ballot(i.1, v));
      }
    }
  }

  lemma AcceptedSets(s: State, cb: Ballot, hb: Ballot)
    requires Locked(s) && !s.phase.Externalized? && cb.value == hb.value && 0 < cb.counter <= hb.counter
    requires s.phase.Confirming? ==> s.h.value.value == hb.value && hb.counter > s.h.value.counter
    ensures var l := SetAcceptCommit(s, cb, hb);
            && l.updated && l.s.phase.Confirming? && l.s.c == Some(cb) && l.s.h == Some(hb) && l.s.next == hb.value
            && l.s.q == (if s.phase.Preparing? && s.q.Some? then Some(ZERO) else s.q) && l.s.p == s.p
            && LessAndCompatible(l.s.h, l.s.cur)
  {}

  /** A statement only counts for accepting a commit if it votes for one. */
  lemma SupportsNothing(s: State, pl: Pledge)
    requires s.phase.Externalized? || CommitValue(pl).None?
    ensures AcceptCommit(s, pl) == Local(s, false)
    ensures CommitValue(pl).None? <==> forall v: Value, l: Counter, r: Counter :: !Holds(CommitVote(v, l, r), pl)
  {
    if CommitValue(pl).Some? {
      var v, top: Counter := CommitValue(pl).value, MAX_COUNTER;
      assert Holds(CommitVote(v, top, 0), pl);
    }
  }

  /******* Externalized nodes *******/

  /** What EXTERNALIZE means: its sender has accepted every commit of the value from c on, and every ballot of the
      value as prepared. */
  lemma ExternalizeMeans(pl: Pledge, b: Ballot, l: Counter, r: Counter)
    requires pl.Externalize? && pl.b.Some?
    ensures Holds(PrepareVote(b), pl) == Holds(PrepareAccept(b), pl) == (b.value == pl.b.value.value)
    ensures Holds(CommitVote(b.value, l, r), pl) == Holds(CommitAccept(b.value, l, r), pl)
            == (b.value == pl.b.value.value && pl.b.value.counter <= l)
  {}

  /**
   A decree in the confirm phase follows the others: if it has accepted a commit itself, and nodes that have
   externalized this value from there on make up a slice of its quorum, it externalizes the value when it hears
   of one of them.
   */
  lemma FollowsExternalized(s: State, nodes: set<NodeID>, k: NodeID, l: Counter)
    requires Inv(s) && S.Searchable(s) && S.LowerCountersPositive(s) && s.phase.Confirming?
    requires l > 0 && s.node in s.ballots && Holds(CommitAccept(s.c.value.value, l, l), s.ballots[s.node].pledge)
    requires k in nodes && IsSlice(s.quorum, nodes)
    requires forall n :: n in nodes ==>
               && n in s.ballots && s.ballots[n].pledge.Externalize?
               && HasValue(s.ballots[n].pledge, s.c.value.value) && s.ballots[n].pledge.b.value.counter <= l
    ensures ConfirmCommit(s, s.ballots[k].pledge).s.phase.Externalized?
  {
    var v := s.c.value.value;
    assert Locked(s);
    var m := Matching(s, CommitAccept(v, l, l));
    assert nodes <= m;
    forall n | n in nodes ensures n in Prune(SlicesOf(s), m) {
      OwnMakesSlice(s.node, m);
    }
    SliceMonotone(s.quorum, nodes, Prune(SlicesOf(s), m));
    assert CommitPasses(s, ToConfirm, v, l, l);
    hide Inv, S.Searchable, S.LowerCountersPositive, CommitPasses, ConfirmCommit;
    assert Passes(s, ToConfirm, v);
    ConfirmsExactly(s, s.ballots[k].pledge);
  }

  lemma OwnMakesSlice(node: NodeID, nodes: set<NodeID>)
    requires node in nodes
    ensures IsSlice(Singleton(node), nodes)
  {
    assert [node][..0] == [];
    assert CountIn([node], nodes) == 1;
  }

  /******* Receiving and stepping *******/

  /** What is done with a statement before any rule is tried. */
  lemma ReceivesExactly(s: State, st: Statement)
    requires Inv(s) && !s.halted && (st.node == s.node ==> Own(s, st))
    ensures var o := R.RecvBallot(s, st);
            && (st.index != s.index ==> o == R.Outcome(s, false))
            && (st.index == s.index && !R.Newer(s, st) ==> o == R.Outcome(s, true))
            && (st.index == s.index && R.Newer(s, st) ==>
                  && (Judge(s, st) == Crash ==> o.s.halted && !o.ok)
                  && (Judge(s, st) == Invalid ==> o == R.Outcome(s, false))
                  && (Judge(s, st) == Valid ==> st in o.s.seen || (s.phase.Externalized? && WorkingValue(st.pledge) != Some(s.c.value.value))))
  {
    hide Judge, R.Fuel, R.Newer;
    assert Locked(s) by { InvParts(s); }
    if st.index == s.index && R.Newer(s, st) && Judge(s, st) == Valid && !s.phase.Externalized? {
      R.StoreKeeps(s, st);
      assert Leads(R.Store(s, st), R.Step(R.Store(s, st), st).s);
    }
  }

  /** An externalized decree takes in what agrees with its value, turns the rest away, and does nothing else. */
  lemma ExternalizedStores(s: State, st: Statement)
    requires Inv(s) && !s.halted && s.phase.Externalized? && st.index == s.index && R.Newer(s, st) && Judge(s, st) == Valid
    requires st.node == s.node ==> Own(s, st)
    ensures R.RecvBallot(s, st)
            == if HasValue(st.pledge, s.c.value.value) then R.Outcome(R.Store(s, st), true) else R.Outcome(s, false)
  {
    hide Judge, R.Fuel, R.Newer, R.Step;
    assert Locked(s) by { InvParts(s); }
  }

  /** A step is refused if and only if the counter stands at one below the limit; it then leaves the counter raised
      and the ballots alone. */
  lemma GuardExactly(s: State, st: Statement)
    requires Inv(s) && !s.halted
    ensures var o := R.Step(s, st);
            && (!o.ok && !o.s.halted <==> s.count + 1 == 10)
            && (s.count + 1 == 10 ==> o.s == s.(count := 10, steps := s.steps + 1))
  {
    hide R.FireRules, R.Finish, R.Fuel, Inv;
    R.MovesCounters(s, s.(count := s.count + 1, steps := s.steps + 1));
    if s.count + 1 != 10 {
      var l := R.FireRules(s.(count := s.count + 1, steps := s.steps + 1), st, 4);
      FinishRuns(l.s, l.updated);
    }
  }

  lemma FinishRuns(s: State, updated: bool)
    ensures R.Finish(s, updated).halted == s.halted
  {}

  /** A step in which a rule has changed something ends with sending the latest statement once more. */
  lemma StepResends(s: State, st: Statement)
    requires Inv(s) && !s.halted && s.count + 1 != 10
    ensures var t := s.(count := s.count + 1, steps := s.steps + 1);
            && Inv(t)
            && var l, o := R.FireRules(t, st, 4), R.Step(s, st);
               !l.s.halted && l.updated && l.s.latest.Some? ==>
                 o.s.sent == l.s.sent + [l.s.latest.value] && o.s.count == l.s.count - 1
  {
    hide R.FireRules, R.Fuel, Inv;
    var t := s.(count := s.count + 1, steps := s.steps + 1);
    R.MovesCounters(s, t);
    assert R.Moves(t, R.FireRules(t, st, 4).s);
  }

  /** A proposal starts with the value of the highest confirmed ballot if there is one, whatever is proposed; and
      once there is a current ballot nothing is started. */
  lemma ProposalsAgree(s: State, v: Value, w: Value)
    requires Inv(s) && !s.halted
    ensures s.next != 0 ==> R.Propose(s, v) == R.Propose(s, w) == R.Propose(s, s.next)
    ensures s.cur.Some? || s.phase.Externalized? ==> R.Propose(s, v) == s
  {
    hide R.SendBallot;
  }

  /** Nothing is sent again that is already stored as the own statement. */
  lemma SameIsNotSent(s: State)
    requires Inv(s) && !s.halted && Consistent(s) && Assemble(s).Some? && s.cur.Some?
    requires s.node in s.ballots && s.ballots[s.node] == Statement(s.node, s.index, Assemble(s).value)
    ensures R.SendBallot(s) == s
  {
    hide R.RecvBallot, Inv;
  }

  /** What is confirmed is accepted, as prepared and as committed. */
  lemma ConfirmedIsAccepted(s: State, b: Ballot, l: Counter, r: Counter)
    requires NestedBelowOne(s.quorum) && SlicesBelowOne(SlicesOf(s))
    ensures ConfirmsPrepared(s, b) ==> AcceptsPrepared(s, b)
    ensures ConfirmsCommit(s, b.value, l, r) ==> AcceptsCommit(s, b.value, l, r)
  {
    if ConfirmsPrepared(s, b) {
      RatifyImpliesAccept(s.quorum, SlicesOf(s), Matching(s, PrepareVote(b)), Matching(s, PrepareAccept(b)));
    }
    if ConfirmsCommit(s, b.value, l, r) {
      RatifyImpliesAccept(s.quorum, SlicesOf(s), Matching(s, CommitVote(b.value, l, r)), Matching(s, CommitAccept(b.value, l, r)));
    }
  }

  /******* What is externalized is announced *******/

  /** A decree that has externalized has put its value on the channel, unless its process has stopped. */
  predicate Announced(s: State) {
    s.phase.Externalized? && !s.halted ==> s.ext != []
  }

  lemma SendAnnounces(s: State)
    requires Inv(s) && !s.halted && Announced(s)
    ensures Announced(R.SendBallot(s))
    decreases R.Fuel(s), 0
  {
    hide Inv, Leads, Judge, Consistent, Assemble, Rank, R.Fuel, R.RecvBallot;
    R.MovesRefl(s);
    if Consistent(s) && Assemble(s).Some? && s.cur.Some? {
      var st := Statement(s.node, s.index, Assemble(s).value);
      if !(s.node in s.ballots && s.ballots[s.node] == st) {
        R.AssembledIsOwn(s);
        R.FuelFalls(s, R.Store(s, st));
        R.StoreRank(s, st);
        RecvAnnounces(s, st);
      }
    }
  }

  lemma RecvAnnounces(s: State, st: Statement)
    requires Inv(s) && !s.halted && Announced(s) && (st.node == s.node ==> Own(s, st))
    ensures Announced(R.RecvBallot(s, st).s)
    decreases R.RecvFuel(s, st), 4
  {
    hide Inv, Leads, Judge, Rank, R.Fuel, R.Step, R.Newer;
    if st.index == s.index && R.Newer(s, st) && Judge(s, st) == Valid && !s.phase.Externalized? {
      R.StoreKeeps(s, st);
      StepAnnounces(R.Store(s, st), st);
    }
  }

  lemma StepAnnounces(s: State, st: Statement)
    requires Inv(s) && !s.halted && Announced(s)
    ensures Announced(R.Step(s, st).s)
    decreases R.Fuel(s), 3
  {
    hide Inv, Leads, Rank, R.Fuel, R.FireRules;
    var t := s.(count := s.count + 1, steps := s.steps + 1);
    R.MovesCounters(s, t);
    if t.count != MAX_RECURSIONS {
      R.FuelFalls(s, t);
      RulesAnnounce(t, st, 4);
    }
  }

  lemma RulesAnnounce(s: State, st: Statement, n: nat)
    requires Inv(s) && !s.halted && Announced(s)
    ensures Announced(R.FireRules(s, st, n).s)
    decreases R.Fuel(s), 2, n
  {
    hide Inv, Leads, Rank, R.Fuel, R.Fire;
    if n > 0 {
      RulesAnnounce(s, st, n - 1);
      var l := R.FireRules(s, st, n - 1);
      if !l.s.halted {
        R.MovesFuel(s, l.s);
        FireAnnounces(R.RuleAt(n - 1), l.s, st);
      }
    }
  }

  lemma FireAnnounces(rule: R.Rule, s: State, st: Statement)
    requires Inv(s) && !s.halted && Announced(s)
    ensures Announced(R.Fire(rule, s, st).s)
    decreases R.Fuel(s), 1
  {
    hide Inv, Leads, Rank, R.Fuel, R.Attempt, R.SendBallot;
    var l := R.Attempt(rule, s, st.pledge);
    R.AttemptKeeps(rule, s, st.pledge);
    R.AttemptMoves(s, l.s);
    AttemptAnnounces(rule, s, st.pledge);
    if !l.s.halted && l.updated {
      R.FuelFalls(s, l.s);
      if rule.ConfirmTheCommit? {
        var t := R.SendBallot(l.s);
        SentIsLocked(l.s, t);
      } else {
        SendAnnounces(l.s);
      }
    }
  }

  lemma SentIsLocked(s: State, t: State)
    requires R.Moves(s, t) && s.phase.Externalized?
    ensures t.c.Some?
  {
    hide HighestPrepared, StoredWell, SentWell;
    assert Locked(t);
  }

  /** Only rule 4 externalizes. */
  lemma AttemptAnnounces(rule: R.Rule, s: State, pl: Pledge)
    requires Inv(s) && Announced(s) && !s.halted
    ensures var l := R.Attempt(rule, s, pl);
            (!(rule.ConfirmTheCommit? && l.updated) ==> Announced(l.s)) && (!l.s.halted && rule.ConfirmTheCommit? && l.updated ==> l.s.phase.Externalized?)
  {
    hide Inv, Leads, AcceptPrepared, ConfirmPrepared, AcceptCommit;
    match rule
    case AcceptPrepare => AcceptPreparedKeeps(s, pl);
    case ConfirmPrepare => ConfirmPreparedKeeps(s, pl);
    case AcceptTheCommit => AcceptCommitKeeps(s, pl);
    case ConfirmTheCommit => ConfirmCommitKeeps(s, pl);
  }

  lemma ProposeAnnounces(s: State, v: Value)
    requires Inv(s) && !s.halted && Announced(s)
    ensures Announced(R.Propose(s, v))
  {
    hide Inv, Leads, R.SendBallot;
    if s.cur.None? && !s.phase.Externalized? {
      var b := Ballot(1, if s.next != 0 then s.next else v);
      R.StartKeeps(s, b);
      SendAnnounces(UpdateBallot(s, b));
    }
  }

  lemma EventAnnounces(net: N.Net, e: N.Event, net': N.Net)
    requires N.NetInv(net) && N.Transition(net, e, net') && forall i :: i in net ==> Announced(net[i])
    ensures forall i :: i in net' ==> Announced(net'[i])
  {
    hide Inv, R.RecvBallot, R.Propose;
    match e
    case Deliver(at, st) =>
      assert st.node == net[at].node ==> Own(net[at], st) by { InvParts(net[at]); }
      if !net[at].halted {
        RecvAnnounces(net[at], st);
      }
    case Start(at, v) =>
      if !net[at].halted {
        ProposeAnnounces(net[at], v);
      }
    case Learn(at, _, _) =>
  }

  /** Exactly one value was announced, the locked one, or none before the externalize phase. */
  predicate AnnouncedOnce(s: State) {
    if s.phase.Externalized? then s.c.Some? && (s.halted || s.ext == [s.c.value.value]) else s.ext == []
  }

  lemma NothingAtFirst(net: N.Net)
    requires N.Initial(net)
    ensures forall i :: i in net ==> Announced(net[i])
  {}

  lemma OnlyOnce(s: State)
    requires Inv(s) && Announced(s)
    ensures AnnouncedOnce(s)
  {
    InvParts(s);
    hide StoredWell, SentWell, HighestPrepared, Backed;
  }

  /** On every run: a decree in the externalize phase has announced exactly one value, the one it is locked on, unless
      its process has stopped, and one that has not externalized has announced none. */
  lemma {:induction false} ExternalizedIsAnnounced(states: seq<N.Net>, events: seq<N.Event>, k: nat)
    requires N.Run(states, events) && k < |states|
    ensures forall i :: i in states[k] ==> Announced(states[k][i]) && AnnouncedOnce(states[k][i])
  {
    hide Inv, Announced, AnnouncedOnce, N.Transition, N.FromSender, N.Initial;
    N.RunKeeps(states, events, k);
    if k > 0 {
      ExternalizedIsAnnounced(states, events, k - 1);
      N.RunKeeps(states, events, k - 1);
      EventAnnounces(states[k - 1], events[k - 1], states[k]);
    } else {
      NothingAtFirst(states[0]);
    }
    forall i | i in states[k] ensures AnnouncedOnce(states[k][i]) {
      OnlyOnce(states[k][i]);
    }
  }
}
