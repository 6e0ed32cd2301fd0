/** Ballot statements, the filters of consensus/filter.go and the age of a statement. */
module Statements {
  import opened Common
  import opened Ballots

  /** The body of a ballot statement. A ballot that a message leaves out is nil. */
  datatype Pledge =
    | Prepare(b: Option<Ballot>, p: Option<Ballot>, q: Option<Ballot>, hc: Counter, lc: Counter, hash: Hash)
    | Confirm(b: Option<Ballot>, pc: Counter, lc: Counter, hc: Counter, hash: Hash)
    | Externalize(b: Option<Ballot>, hc: Counter, hash: Hash)

  datatype Statement = Statement(node: NodeID, index: nat, pledge: Pledge)

  /** The statement commits its sender to one value for good. */
  predicate Commits(pl: Pledge) {
    !pl.Prepare?
  }

  predicate HasValue(pl: Pledge, v: Value) {
    pl.b.Some? && pl.b.value.value == v
  }

  /******* Filters *******/

  datatype Filter =
    | PrepareVote(ballot: Ballot)
    | PrepareAccept(ballot: Ballot)
    | CommitVote(value: Value, l: Counter, r: Counter)
    | CommitAccept(value: Value, l: Counter, r: Counter)

  /** prepareVoteFilter, prepareAcceptFilter, commitVoteFilter and commitAcceptFilter. */
  predicate Holds(f: Filter, pl: Pledge) {
    match f
    case PrepareVote(x) =>
      if pl.Prepare? then LessAndCompatible(Some(x), pl.b) else HasValue(pl, x.value)
    case PrepareAccept(x) =>
      (match pl
       case Prepare(_, p, q, _, _, _) => LessAndCompatible(Some(x), p) || LessAndCompatible(Some(x), q)
       case Confirm(_, pc, _, _, _) => HasValue(pl, x.value) && x.counter <= pc
       case Externalize(_, _, _) => HasValue(pl, x.value))
    case CommitVote(v, l, r) =>
      HasValue(pl, v) &&
      (match pl
       case Prepare(_, _, _, hc, lc, _) => lc != 0 && lc <= l && r <= hc
       case Confirm(_, _, lc, _, _) => lc <= l
       case Externalize(b, _, _) => b.value.counter <= l)
    case CommitAccept(v, l, r) =>
      HasValue(pl, v) &&
      (match pl
       case Prepare(_, _, _, _, _, _) => false
       case Confirm(_, _, lc, hc, _) => lc <= l && r <= hc
       case Externalize(b, _, _) => b.value.counter <= l)
  }

  /******* Age *******/

  /** isNewerBallot: r supersedes l. */
  predicate IsNewer(l: Pledge, r: Pledge) {
    match (l, r)
    case (Prepare(lb, lp, lq, lhc, _, _), Prepare(rb, rp, rq, rhc, _, _)) =>
      || Compare(lb, rb) < 0
      || (lb == rb && Compare(lp, rp) < 0)
      || (lb == rb && lp == rp && Compare(lq, rq) < 0)
      || (lb == rb && lp == rp && lq == rq && lhc < rhc)
    case (Confirm(lb, lpc, _, lhc, _), Confirm(rb, rpc, _, rhc, _)) =>
      || Compare(lb, rb) < 0
      || (lb == rb && lpc < rpc)
      || (lb == rb && lpc == rpc && lhc < rhc)
    case (Prepare(_, _, _, _, _, _), _) => true
    case (Confirm(_, _, _, _, _), Externalize(_, _, _)) => true
    case _ => false
  }

  const RADIX: nat := 2 + (MAX_COUNTER + 1) * (MAX_VALUE + 1)

  /** The place of a ballot in the order of Compare. */
  function BallotRank(o: Option<Ballot>): (r: nat) {
    if o.None? then 0 else 1 + o.value.counter * (MAX_VALUE + 1) + o.value.value
  }

  function Shift(x: nat, d: nat): nat {
    x * RADIX + d
  }

  function Digits(t: nat, d1: nat, d2: nat, d3: nat, d4: nat): nat {
    Shift(Shift(Shift(Shift(t, d1), d2), d3), d4)
  }

  /** A number that grows with every newer statement. */
  function Rank(pl: Pledge): nat {
    match pl
    case Prepare(b, p, q, hc, _, _) => Digits(1, BallotRank(b), BallotRank(p), BallotRank(q), hc)
    case Confirm(b, pc, _, hc, _) => Digits(2, BallotRank(b), pc, hc, 0)
    case Externalize(_, _, _) => Digits(3, 0, 0, 0, 0)
  }

  const TOP_RANK: nat := Digits(4, 0, 0, 0, 0)

  lemma LexStep(a: nat, a': nat, d: nat, d': nat, radix: nat)
    requires d < radix && (a < a' || (a == a' && d < d'))
    ensures a * radix + d < a' * radix + d'
  {
    if a < a' {
      assert (a + 1) * radix <= a' * radix;
    }
  }

  lemma BallotRankBound(o: Option<Ballot>)
    ensures BallotRank(o) < RADIX
  {
    if o.Some? {
      assert o.value.counter * (MAX_VALUE + 1) <= MAX_COUNTER * (MAX_VALUE + 1);
    }
  }

  lemma BallotRankMonotone(l: Option<Ballot>, r: Option<Ballot>)
    requires Compare(l, r) < 0
    ensures BallotRank(l) < BallotRank(r)
  {
    if l.Some? {
      LexStep(l.value.counter, r.value.counter, l.value.value, r.value.value, MAX_VALUE + 1);
    }
  }

  lemma CounterBelowRadix()
    ensures MAX_COUNTER < RADIX
  {
    assert (MAX_COUNTER + 1) * (MAX_VALUE + 1) >= MAX_COUNTER + 1;
  }

  lemma ShiftMonotone(a: nat, a': nat, d: nat, d': nat)
    requires d < RADIX
    ensures a < a' || (a == a' && d < d') ==> Shift(a, d) < Shift(a', d')
  {
    if a < a' || (a == a' && d < d') {
      LexStep(a, a', d, d', RADIX);
    }
  }

  /** Digit lists compare like the numbers they spell. */
  lemma DigitsMonotone(t: nat, d1: nat, d2: nat, d3: nat, d4: nat, t': nat, e1: nat, e2: nat, e3: nat, e4: nat)
    requires d1 < RADIX && d2 < RADIX && d3 < RADIX && d4 < RADIX
    requires || t < t'
             || (t == t' && d1 < e1)
             || (t == t' && d1 == e1 && d2 < e2)
             || (t == t' && d1 == e1 && d2 == e2 && d3 < e3)
             || (t == t' && d1 == e1 && d2 == e2 && d3 == e3 && d4 < e4)
    ensures Digits(t, d1, d2, d3, d4) < Digits(t', e1, e2, e3, e4)
  {
    hide Shift;
    ShiftMonotone(t, t', d1, e1);
    var x1, y1 := Shift(t, d1), Shift(t', e1);
    ShiftMonotone(x1, y1, d2, e2);
    var x2, y2 := Shift(x1, d2), Shift(y1, e2);
    ShiftMonotone(x2, y2, d3, e3);
    ShiftMonotone(Shift(x2, d3), Shift(y2, e3), d4, e4);
  }

  lemma RankBound(pl: Pledge)
    ensures Rank(pl) < TOP_RANK
  {
    CounterBelowRadix();
    match pl
    case Prepare(b, p, q, hc, _, _) =>
      BallotRankBound(b); BallotRankBound(p); BallotRankBound(q);
      DigitsMonotone(1, BallotRank(b), BallotRank(p), BallotRank(q), hc, 4, 0, 0, 0, 0);
    case Confirm(b, pc, _, hc, _) =>
      BallotRankBound(b);
      DigitsMonotone(2, BallotRank(b), pc, hc, 0, 4, 0, 0, 0, 0);
    case Externalize(_, _, _) =>
      DigitsMonotone(3, 0, 0, 0, 0, 4, 0, 0, 0, 0);
  }

  lemma PrepareRank(l: Pledge, r: Pledge)
    requires l.Prepare? && r.Prepare? && IsNewer(l, r)
    ensures Rank(l) < Rank(r)
  {
    hide Digits;
    CounterBelowRadix();
    BallotRankBound(l.b); BallotRankBound(l.p); BallotRankBound(l.q);
    if Compare(l.b, r.b) < 0 { BallotRankMonotone(l.b, r.b); }
    else if Compare(l.p, r.p) < 0 { BallotRankMonotone(l.p, r.p); }
    else if Compare(l.q, r.q) < 0 { BallotRankMonotone(l.q, r.q); }
    DigitsMonotone(1, BallotRank(l.b), BallotRank(l.p), BallotRank(l.q), l.hc,
                   1, BallotRank(r.b), BallotRank(r.p), BallotRank(r.q), r.hc);
  }

  /** Of two statements one supersedes the other, or neither does, by their ranks alone. */
  lemma NewerExactly(l: Pledge, r: Pledge)
    ensures IsNewer(l, r) <==> Rank(l) < Rank(r)
  {
    if IsNewer(l, r) {
      NewerHasLargerRank(l, r);
    } else if IsNewer(r, l) {
      NewerHasLargerRank(r, l);
    } else {
      SameAge(l, r);
    }
  }

  lemma SameAge(l: Pledge, r: Pledge)
    requires !IsNewer(l, r) && !IsNewer(r, l)
    ensures Rank(l) == Rank(r)
  {
    hide Digits, BallotRank;
    match (l, r)
    case (Prepare(lb, lp, lq, lhc, _, _), Prepare(rb, rp, rq, rhc, _, _)) =>
      CompareTotal(lb, rb);
      CompareTotal(lp, rp);
      CompareTotal(lq, rq);
    case (Confirm(lb, _, _, _, _), Confirm(rb, _, _, _, _)) =>
      CompareTotal(lb, rb);
    case _ =>
  }

  lemma CompareTotal(l: Option<Ballot>, r: Option<Ballot>)
    ensures Compare(l, r) < 0 || Compare(r, l) < 0 || l == r
  {}

  /** A statement that supersedes another has the larger rank, so no chain of them goes on for ever. */
  lemma NewerHasLargerRank(l: Pledge, r: Pledge)
    requires IsNewer(l, r)
    ensures Rank(l) < Rank(r)
  {
    hide Digits;
    CounterBelowRadix();
    BallotRankBound(l.b);
    match (l, r) {
      case (Prepare(lb, lp, lq, lhc, _, _), Prepare(rb, rp, rq, rhc, _, _)) =>
        PrepareRank(l, r);
      case (Prepare(lb, lp, lq, lhc, _, _), Confirm(rb, rpc, _, rhc, _)) =>
        BallotRankBound(lp); BallotRankBound(lq);
        DigitsMonotone(1, BallotRank(lb), BallotRank(lp), BallotRank(lq), lhc, 2, BallotRank(rb), rpc, rhc, 0);
      case (Prepare(lb, lp, lq, lhc, _, _), Externalize(_, _, _)) =>
        BallotRankBound(lp); BallotRankBound(lq);
        DigitsMonotone(1, BallotRank(lb), BallotRank(lp), BallotRank(lq), lhc, 3, 0, 0, 0, 0);
      case (Confirm(lb, lpc, _, lhc, _), Confirm(rb, rpc, _, rhc, _)) =>
        if Compare(lb, rb) < 0 { BallotRankMonotone(lb, rb); }
        DigitsMonotone(2, BallotRank(lb), lpc, lhc, 0, 2, BallotRank(rb), rpc, rhc, 0);
      case (Confirm(lb, lpc, _, lhc, _), Externalize(_, _, _)) =>
        DigitsMonotone(2, BallotRank(lb), lpc, lhc, 0, 3, 0, 0, 0, 0);
    }
  }
}
