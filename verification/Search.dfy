/** The finite searches of the ballot protocol lose nothing against a search of everything. */
module Search {
  import opened Common
  import opened Ballots
  import opened Sorting
  import opened Quorums
  import opened Statements
  import opened Federated
  import opened Protocol

  /******* Candidate ballots *******/

  predicate Under(a: Ballot, b: Ballot) {
    Above(b, a)
  }

  /** A hint of a stored statement is itself a candidate. */
  lemma HintIsCandidate(s: State, k: NodeID, b: Ballot)
    requires k in s.ballots && b in Hints(s.ballots[k].pledge)
    ensures b in Candidates(s, s.ballots[k].pledge)
  {
    assert b in CandidatesAt(b, s.ballots[k].pledge);
  }

  /** No stored statement tells x and c apart when no candidate lies between them. */
  lemma NothingBetween(s: State, pl: Pledge, x: Ballot, c: Ballot, b: Ballot, k: NodeID)
    requires k in s.ballots && b in Hints(pl)
    requires LessAndCompatible(Some(x), Some(c)) && LessAndCompatible(Some(c), Some(b))
    requires forall y :: y in Candidates(s, pl) && LessAndCompatible(Some(x), Some(y)) ==> Compare(Some(c), Some(y)) <= 0
    ensures Holds(PrepareVote(x), s.ballots[k].pledge) <==> Holds(PrepareVote(c), s.ballots[k].pledge)
    ensures Holds(PrepareAccept(x), s.ballots[k].pledge) <==> Holds(PrepareAccept(c), s.ballots[k].pledge)
  {
    var own := s.ballots[k].pledge;
    forall y | y in CandidatesAt(b, own) && LessAndCompatible(Some(x), Some(y))
      ensures Compare(Some(c), Some(y)) <= 0
    {
      assert y in Candidates(s, pl);
    }
    match own {
      case Prepare(ob, op, oq, _, _, _) =>
        forall o | o in [ob, op, oq] ensures LessAndCompatible(Some(x), o) <==> LessAndCompatible(Some(c), o) {
          if LessAndCompatible(Some(x), o) && Compare(o, Some(b)) <= 0 {
            assert o.value in CandidatesAt(b, own);
          }
        }
        assert ob in [ob, op, oq] && op in [ob, op, oq] && oq in [ob, op, oq];
      case Confirm(_, pc, _, _, _) =>
        if HasValue(own, b.value) && x.counter <= pc < b.counter {
          assert Ballot(pc, b.value) in CandidatesAt(b, own);
        }
      case Externalize(_, _, _) =>
    }
  }

  /**
   Testing only the listed candidates loses nothing: every ballot below a hint has a candidate
   at or above it, still below the hint, with the very same voters and acceptors.
   */
  lemma CandidatesComplete(s: State, k: NodeID, b: Ballot, x: Ballot) returns (c: Ballot)
    requires k in s.ballots && b in Hints(s.ballots[k].pledge)
    requires LessAndCompatible(Some(x), Some(b))
    ensures c in CandidateList(s, s.ballots[k].pledge)
    ensures LessAndCompatible(Some(x), Some(c)) && LessAndCompatible(Some(c), Some(b))
    ensures Matching(s, PrepareVote(c)) == Matching(s, PrepareVote(x))
    ensures Matching(s, PrepareAccept(c)) == Matching(s, PrepareAccept(x))
  {
    hide Holds;
    var pl := s.ballots[k].pledge;
    c := LowestCandidate(s, k, b, x);
    forall n | n in s.ballots
      ensures Holds(PrepareVote(x), s.ballots[n].pledge) <==> Holds(PrepareVote(c), s.ballots[n].pledge)
      ensures Holds(PrepareAccept(x), s.ballots[n].pledge) <==> Holds(PrepareAccept(c), s.ballots[n].pledge)
    {
      NothingBetween(s, pl, x, c, b, n);
    }
  }

  lemma LowestCandidate(s: State, k: NodeID, b: Ballot, x: Ballot) returns (c: Ballot)
    requires k in s.ballots && b in Hints(s.ballots[k].pledge)
    requires LessAndCompatible(Some(x), Some(b))
    ensures c in Candidates(s, s.ballots[k].pledge)
    ensures LessAndCompatible(Some(x), Some(c)) && LessAndCompatible(Some(c), Some(b))
    ensures forall y :: y in Candidates(s, s.ballots[k].pledge) && LessAndCompatible(Some(x), Some(y))
                    ==> Compare(Some(c), Some(y)) <= 0
  {
    hide Candidates;
    var pl := s.ballots[k].pledge;
    var above := set y | y in Candidates(s, pl) && LessAndCompatible(Some(x), Some(y));
    HintIsCandidate(s, k, b);
    assert b in above;
    GreatestExists(above, Under);
    c :| Greatest(c, above, Under);
    assert c == b || Under(c, b);
    forall y | y in Candidates(s, pl) && LessAndCompatible(Some(x), Some(y))
      ensures Compare(Some(c), Some(y)) <= 0
    {
      assert y in above;
    }
  }

  /** Hence an acceptable ballot below a hint is found through an acceptable candidate. */
  lemma AcceptableIsFound(s: State, k: NodeID, b: Ballot, x: Ballot) returns (c: Ballot)
    requires k in s.ballots && b in Hints(s.ballots[k].pledge) && LessAndCompatible(Some(x), Some(b))
    ensures c in CandidateList(s, s.ballots[k].pledge)
    ensures LessAndCompatible(Some(x), Some(c)) && LessAndCompatible(Some(c), Some(b))
    ensures AcceptsPrepared(s, c) <==> AcceptsPrepared(s, x)
    ensures ConfirmsPrepared(s, c) <==> ConfirmsPrepared(s, x)
  {
    c := CandidatesComplete(s, k, b, x);
  }

  /******* Commit counters *******/

  predicate Smaller(a: Counter, b: Counter) {
    a < b
  }

  /** Every CONFIRM statement that is stored has a positive lower counter. */
  predicate LowerCountersPositive(s: State) {
    forall k :: k in s.ballots && s.ballots[k].pledge.Confirm? ==> s.ballots[k].pledge.lc > 0
  }

  /** Statements as validateBallot leaves them, and quorums that never lose by gaining nodes. */
  predicate Searchable(s: State) {
    && (forall k :: k in s.ballots ==> WellFormed(s.ballots[k].pledge))
    && 0.0 < s.quorum.threshold && NestedBelowOne(s.quorum) && SlicesBelowOne(SlicesOf(s))
  }

  lemma {:induction false} NobodyCounts(vs: seq<NodeID>)
    ensures CountIn(vs, {}) == 0
  {
    if vs != [] { NobodyCounts(vs[..|vs|-1]); }
  }

  lemma BelowOneInside(q: Quorum)
    requires BelowOne(q)
    ensures forall nq :: nq in q.nested ==> BelowOne(nq)
  {}

  lemma {:induction false} NobodyBlocks(qs: seq<Quorum>)
    requires forall q :: q in qs ==> BelowOne(q)
    ensures CountBlocking(qs, {}) == 0
    decreases qs
  {
    if qs != [] {
      NobodyBlocks(qs[..|qs|-1]);
      var q := qs[|qs|-1];
      assert q in qs;
      BelowOneInside(q);
      NobodyCounts(q.validators);
      NobodyBlocks(q.nested);
      BlockThresholdPositive(q);
      assert !IsVblocking(q, {});
    }
  }

  lemma NobodyIsNoSlice(q: Quorum)
    requires 0.0 < q.threshold && NestedBelowOne(q)
    ensures !IsSlice(q, {})
  {
    NobodyCounts(q.validators);
    NobodyBlocks(q.nested);
    if Size(q) > 0 {
      ProductPositive(Size(q) as real, q.threshold);
      CeilPositive(Share(q));
    }
  }

  /** What the search of a vote needs of the local quorum. */
  predicate SearchableFor(s: State, vote: Vote) {
    Searchable(s) && (vote == ToAccept ==> BelowOne(s.quorum))
  }

  /** The statements that back an interval: the votes for accepting it, the acceptances for
      confirming it. */
  function Backing(vote: Vote, v: Value, l: Counter, r: Counter): Filter {
    if vote == ToAccept then CommitVote(v, l, r) else CommitAccept(v, l, r)
  }

  predicate Carried(s: State, vote: Vote, nodes: set<NodeID>) {
    (vote == ToAccept && IsVblocking(s.quorum, nodes)) || Ratifies(s.quorum, SlicesOf(s), nodes)
  }

  lemma PassesByBacking(s: State, vote: Vote, v: Value, l: Counter, r: Counter)
    ensures CommitPasses(s, vote, v, l, r) <==> Carried(s, vote, Matching(s, Backing(vote, v, l, r)))
  {
    var voters, acceptors := Matching(s, CommitVote(v, l, r)), Matching(s, CommitAccept(v, l, r));
    assert voters + acceptors == voters;
  }

  lemma PassedNotEmpty(s: State, vote: Vote, v: Value, l: Counter, r: Counter)
    requires SearchableFor(s, vote) && CommitPasses(s, vote, v, l, r)
    ensures Matching(s, Backing(vote, v, l, r)) != {}
  {
    PassesByBacking(s, vote, v, l, r);
    NobodyIsNoSlice(s.quorum);
    assert Prune(SlicesOf(s), {}) == {};
    if vote == ToAccept {
      NobodyCounts(s.quorum.validators);
      NobodyBlocks(s.quorum.nested);
      BlockThresholdPositive(s.quorum);
      assert !IsVblocking(s.quorum, {});
    }
  }

  lemma WiderPasses(s: State, vote: Vote, v: Value, l: Counter, r: Counter, l': Counter, r': Counter)
    requires SearchableFor(s, vote) && CommitPasses(s, vote, v, l, r)
    requires Matching(s, Backing(vote, v, l, r)) <= Matching(s, Backing(vote, v, l', r'))
    ensures CommitPasses(s, vote, v, l', r')
  {
    PassesByBacking(s, vote, v, l, r);
    PassesByBacking(s, vote, v, l', r');
    var small, big := Matching(s, Backing(vote, v, l, r)), Matching(s, Backing(vote, v, l', r'));
    if vote == ToAccept && IsVblocking(s.quorum, small) {
      VblockingMonotone(s.quorum, small, big);
    } else {
      RatifyMonotone(s.quorum, SlicesOf(s), small, big);
    }
  }

  /** The statements whose backing has an upper end. */
  predicate Capped(vote: Vote, pl: Pledge) {
    if vote == ToAccept then pl.Prepare? else pl.Confirm?
  }

  /** Raising a single counter to the lowest upper end of the matching statements keeps them all. */
  lemma RaisedTop(s: State, vote: Vote, v: Value, r: Counter, c: Counter)
    requires r <= c
    requires forall n :: n in Matching(s, Backing(vote, v, r, r)) && Capped(vote, s.ballots[n].pledge)
                    ==> c <= s.ballots[n].pledge.hc
    ensures Matching(s, Backing(vote, v, r, r)) <= Matching(s, Backing(vote, v, c, c))
  {}

  /** The largest counter is on the list or does not pass. */
  predicate TopListed(s: State, vote: Vote, v: Value) {
    MAX_COUNTER in CommitCounters(s, v) || !CommitPasses(s, vote, v, MAX_COUNTER, MAX_COUNTER)
  }

  /** Then a single counter that passes has a listed one at or above it that passes too. */
  lemma TopIsListed(s: State, vote: Vote, v: Value, r: Counter) returns (c: Counter)
    requires SearchableFor(s, vote) && CommitPasses(s, vote, v, r, r)
    ensures c >= r && CommitPasses(s, vote, v, c, c)
    ensures c in CommitCounters(s, v) || (vote == ToAccept && c == MAX_COUNTER)
  {
    hide CommitPasses, SearchableFor;
    var m := Matching(s, Backing(vote, v, r, r));
    PassedNotEmpty(s, vote, v, r, r);
    var highs := set k | k in m && Capped(vote, s.ballots[k].pledge) :: s.ballots[k].pledge.hc;
    assert forall n :: n in m && Capped(vote, s.ballots[n].pledge) ==> s.ballots[n].pledge.hc in highs;
    if highs == {} {
      c := MAX_COUNTER;
      if vote == ToConfirm {
        var k :| k in m;
        assert c in CountersAt(v, s.ballots[k].pledge);
      }
    } else {
      GreatestExists(highs, Smaller);
      c :| Greatest(c, highs, Smaller);
      var k :| k in m && Capped(vote, s.ballots[k].pledge) && c == s.ballots[k].pledge.hc;
      assert c in CountersAt(v, s.ballots[k].pledge);
    }
    RaisedTop(s, vote, v, r, c);
    WiderPasses(s, vote, v, r, r, c, c);
  }

  function LowEnd(pl: Pledge): Counter
    requires pl.b.Some?
  {
    if pl.Externalize? then pl.b.value.counter else pl.lc
  }

  /** An interval that passes has a listed lower end at or below its own with which it passes too. */
  lemma BottomIsListed(s: State, vote: Vote, v: Value, l: Counter, r: Counter) returns (c: Counter)
    requires SearchableFor(s, vote) && CommitPasses(s, vote, v, l, r)
    ensures c in CommitCounters(s, v) && c <= l && CommitPasses(s, vote, v, c, r)
  {
    hide CommitPasses;
    var m := Matching(s, Backing(vote, v, l, r));
    PassedNotEmpty(s, vote, v, l, r);
    var lows := set k | k in m :: LowEnd(s.ballots[k].pledge);
    var n0 :| n0 in m;
    assert LowEnd(s.ballots[n0].pledge) in lows;
    LargerIsOrder();
    GreatestExists(lows, Larger);
    c :| Greatest(c, lows, Larger);
    var k :| k in m && c == LowEnd(s.ballots[k].pledge);
    assert c in CountersAt(v, s.ballots[k].pledge);
    forall n | n in m ensures n in Matching(s, Backing(vote, v, c, r)) {
      assert LowEnd(s.ballots[n].pledge) in lows;
    }
    WiderPasses(s, vote, v, l, r, c, r);
  }

  /** Raising the lower end keeps an interval passing. */
  lemma RaisedLowEnd(s: State, vote: Vote, v: Value, l: Counter, l': Counter, r: Counter)
    requires SearchableFor(s, vote) && CommitPasses(s, vote, v, l, r) && l <= l'
    ensures CommitPasses(s, vote, v, l', r)
  {
    hide CommitPasses, SearchableFor;
    WiderPasses(s, vote, v, l, r, l', r);
  }

  /** The second half of the scan extends the interval down to the lowest counter that passes. */
  lemma {:induction false} ScanDown(s: State, vote: Vote, v: Value, cs: seq<Counter>, lb: Counter, rb: Counter)
    requires SearchableFor(s, vote) && Descending(cs, Larger) && forall c :: c in cs ==> 0 < c < lb
    requires 0 < lb <= rb && CommitPasses(s, vote, v, lb, rb)
    ensures var i := FindInterval(s, vote, v, cs, lb, rb);
            && 0 < i.0 <= lb && i.1 == rb
            && forall c :: c in cs && CommitPasses(s, vote, v, c, rb) ==> i.0 <= c
  {
    hide CommitPasses, SearchableFor;
    if cs != [] {
      var c := cs[0];
      assert c in cs;
      assert forall d :: d in cs ==> d == c || d in cs[1..];
      assert forall d :: d in cs[1..] ==> d in cs && d < c;
      if CommitPasses(s, vote, v, c, rb) {
        ScanDown(s, vote, v, cs[1..], c, rb);
      } else {
        forall d | d in cs ensures !CommitPasses(s, vote, v, d, rb) {
          if CommitPasses(s, vote, v, d, rb) {
            RaisedLowEnd(s, vote, v, d, c, rb);
          }
        }
      }
    }
  }

  /** The first half of the scan stops at the highest listed counter that passes. */
  lemma {:induction false} ScanFromTop(s: State, vote: Vote, v: Value, cs: seq<Counter>)
    requires SearchableFor(s, vote) && Descending(cs, Larger) && forall c :: c in cs ==> 0 < c
    ensures var i := FindInterval(s, vote, v, cs, 0, 0);
            && (i.0 == 0 ==> forall c :: c in cs ==> !CommitPasses(s, vote, v, c, c))
            && (i.0 != 0 ==>
                  && (forall c :: c in cs && CommitPasses(s, vote, v, c, c) ==> c <= i.1)
                  && (forall c :: c in cs && CommitPasses(s, vote, v, c, i.1) ==> i.0 <= c))
  {
    hide CommitPasses, SearchableFor;
    if cs != [] {
      var c := cs[0];
      assert c in cs;
      assert forall d :: d in cs ==> d == c || d in cs[1..];
      assert forall d :: d in cs[1..] ==> d in cs && d < c;
      if CommitPasses(s, vote, v, c, c) {
        ScanDown(s, vote, v, cs[1..], c, c);
      } else {
        ScanFromTop(s, vote, v, cs[1..]);
        var i := FindInterval(s, vote, v, cs[1..], 0, 0);
        if i.0 != 0 && CommitPasses(s, vote, v, c, i.1) {
          FoundIsListed(s, vote, v, cs[1..], 0, 0);
        }
      }
    }
  }

  /** Both ends of a found interval come from the list. */
  lemma {:induction false} FoundIsListed(s: State, vote: Vote, v: Value, cs: seq<Counter>, lb: Counter, rb: Counter)
    requires lb != 0 ==> lb <= rb && CommitPasses(s, vote, v, lb, rb)
    ensures var i := FindInterval(s, vote, v, cs, lb, rb);
            && (i.0 in cs || i.0 == lb) && (i.0 != 0 ==> i.1 in cs || (lb != 0 && i.1 == rb))
  {
    hide CommitPasses;
    if cs != [] {
      var c := cs[0];
      assert forall d :: d in cs[1..] ==> d in cs;
      if lb == 0 && CommitPasses(s, vote, v, c, c) {
        FoundIsListed(s, vote, v, cs[1..], c, c);
      } else if lb == 0 || c > rb {
        FoundIsListed(s, vote, v, cs[1..], lb, rb);
      } else if CommitPasses(s, vote, v, c, rb) {
        FoundIsListed(s, vote, v, cs[1..], c, rb);
      }
    }
  }

  lemma CountersPositive(s: State, v: Value)
    requires Searchable(s) && LowerCountersPositive(s)
    ensures forall c :: c in CommitCounters(s, v) ==> 0 < c
  {
    forall c | c in CommitCounters(s, v) ensures 0 < c {
      var k :| k in s.ballots && c in CountersAt(v, s.ballots[k].pledge);
    }
  }

  /** The interval misses no single counter that passes. */
  ghost predicate ReachesTop(s: State, vote: Vote, v: Value, i: (Counter, Counter)) {
    forall r: Counter :: r > 0 && CommitPasses(s, vote, v, r, r) ==> i.0 != 0 && r <= i.1
  }

  /** What the scan says about the listed counters. */
  lemma IntervalOnList(s: State, vote: Vote, v: Value)
    requires SearchableFor(s, vote) && LowerCountersPositive(s)
    ensures var i := CommitInterval(s, vote, v);
            && (i.0 == 0 ==> forall c :: c in CommitCounters(s, v) ==> !CommitPasses(s, vote, v, c, c))
            && (i.0 != 0 ==>
                  && i.1 in CommitCounters(s, v) && CommitPasses(s, vote, v, i.0, i.1) && CommitPasses(s, vote, v, i.1, i.1)
                  && (forall c :: c in CommitCounters(s, v) && CommitPasses(s, vote, v, c, c) ==> c <= i.1)
                  && (forall c :: c in CommitCounters(s, v) && CommitPasses(s, vote, v, c, i.1) ==> i.0 <= c))
  {
    hide CommitPasses;
    var cs := CounterList(s, v);
    CountersPositive(s, v);
    assert forall c :: c in cs <==> c in CommitCounters(s, v);
    hide Searchable, LowerCountersPositive, CommitCounters;
    ScanFromTop(s, vote, v, cs);
    FoundIsListed(s, vote, v, cs, 0, 0);
    var i := CommitInterval(s, vote, v);
    if i.0 != 0 {
      RaisedLowEnd(s, vote, v, i.0, i.1, i.1);
    }
  }

  /**
   The interval found on the finite list, over all positive counters: its upper end passes alone,
   its lower end is the smallest that passes with the upper one, and its upper end is the largest
   that passes, and it is empty only if none does, exactly if the largest counter of all is on the
   list or does not pass.
   */
  lemma CommitIntervalExactly(s: State, vote: Vote, v: Value)
    requires SearchableFor(s, vote) && LowerCountersPositive(s)
    ensures var i := CommitInterval(s, vote, v);
            && (i.0 != 0 ==>
                  && CommitPasses(s, vote, v, i.0, i.1) && CommitPasses(s, vote, v, i.1, i.1)
                  && (forall l: Counter :: l > 0 && CommitPasses(s, vote, v, l, i.1) ==> i.0 <= l))
            && (ReachesTop(s, vote, v, i) <==> TopListed(s, vote, v))
  {
    hide CommitPasses, CommitInterval, SearchableFor, LowerCountersPositive, CommitCounters;
    IntervalOnList(s, vote, v);
    var i := CommitInterval(s, vote, v);
    forall l: Counter | l > 0 && i.0 != 0 && CommitPasses(s, vote, v, l, i.1) ensures i.0 <= l {
      var c := BottomIsListed(s, vote, v, l, i.1);
    }
    if TopListed(s, vote, v) {
      forall r: Counter | r > 0 && CommitPasses(s, vote, v, r, r) ensures i.0 != 0 && r <= i.1 {
        var c := TopIsListed(s, vote, v, r);
      }
    } else {
      var top: Counter := MAX_COUNTER;
      assert CommitPasses(s, vote, v, top, top);
    }
  }

  /** For confirmCommit the largest counter is listed whenever it passes, so the interval is optimal. */
  lemma CommitIntervalOptimal(s: State, v: Value)
    requires Searchable(s) && LowerCountersPositive(s)
    ensures var i := CommitInterval(s, ToConfirm, v);
            && (i.0 == 0 <==> forall r: Counter :: r > 0 ==> !ConfirmsCommit(s, v, r, r))
            && (i.0 != 0 ==>
                  && ConfirmsCommit(s, v, i.0, i.1) && ConfirmsCommit(s, v, i.1, i.1)
                  && (forall r: Counter :: r > 0 && ConfirmsCommit(s, v, r, r) ==> r <= i.1)
                  && (forall l: Counter :: l > 0 && ConfirmsCommit(s, v, l, i.1) ==> i.0 <= l))
  {
    hide ConfirmsCommit;
    if CommitPasses(s, ToConfirm, v, MAX_COUNTER, MAX_COUNTER) {
      var c := TopIsListed(s, ToConfirm, v, MAX_COUNTER);
    }
    CommitIntervalExactly(s, ToConfirm, v);
    var i := CommitInterval(s, ToConfirm, v);
    forall r: Counter | r > 0 && ConfirmsCommit(s, v, r, r) ensures i.0 != 0 && r <= i.1 {
      assert CommitPasses(s, ToConfirm, v, r, r);
    }
    forall l: Counter | l > 0 && i.0 != 0 && ConfirmsCommit(s, v, l, i.1) ensures i.0 <= l {
      assert CommitPasses(s, ToConfirm, v, l, i.1);
    }
  }

  lemma TopNotListed(s: State, v: Value)
    requires forall k :: k in s.ballots ==> WellFormed(s.ballots[k].pledge)
    requires forall k :: k in s.ballots ==> s.ballots[k].pledge.Confirm? && HasValue(s.ballots[k].pledge, v)
                                            && s.ballots[k].pledge.hc < MAX_COUNTER
    requires IsVblocking(s.quorum, s.ballots.Keys)
    ensures !TopListed(s, ToAccept, v)
  {
    hide IsVblocking, Ratifies;
    assert Matching(s, CommitVote(v, MAX_COUNTER, MAX_COUNTER)) == s.ballots.Keys;
    forall c | c in CommitCounters(s, v) ensures c < MAX_COUNTER {
      var k :| k in s.ballots && c in CountersAt(v, s.ballots[k].pledge);
    }
  }

  /** For acceptCommit it need not be: with nothing but CONFIRM statements of a blocking set every
      counter from the highest lower one on is accepted, and the largest of all is not listed. */
  lemma AcceptMissesTheTop(s: State, v: Value)
    requires SearchableFor(s, ToAccept) && LowerCountersPositive(s)
    requires forall k :: k in s.ballots ==> s.ballots[k].pledge.Confirm? && HasValue(s.ballots[k].pledge, v)
                                            && s.ballots[k].pledge.hc < MAX_COUNTER
    requires IsVblocking(s.quorum, s.ballots.Keys)
    ensures !TopListed(s, ToAccept, v) && !ReachesTop(s, ToAccept, v, CommitInterval(s, ToAccept, v))
  {
    TopNotListed(s, v);
    hide *;
    CommitIntervalExactly(s, ToAccept, v);
  }

  /******* The search of update *******/

  /** The counter update reads off a statement. */
  function WorkingCounter(pl: Pledge): Counter {
    if pl.Externalize? || pl.b.None? then MAX_COUNTER else pl.b.value.counter
  }

  function Target(s: State): Counter {
    if s.cur.Some? then s.cur.value.counter else 0
  }

  function Ahead(s: State, c: Counter): set<NodeID> {
    set k | k in s.ballots && c < WorkingCounter(s.ballots[k].pledge)
  }

  function UpdateCounters(s: State): set<Counter> {
    (set k | k in s.ballots :: WorkingCounter(s.ballots[k].pledge)) + {Target(s)}
  }

  /** The loop of update over its ascending counters; `nodes` is only cleared when it ends. */
  function UpdateScan(s: State, cs: seq<Counter>, nodes: set<NodeID>): Option<Counter> {
    if cs == [] || cs[0] < Target(s) then None
    else
      var all := nodes + Ahead(s, cs[0]);
      if IsVblocking(s.quorum, all) then UpdateScan(s, cs[1..], all)
      else if cs[0] == Target(s) then None
      else Some(cs[0])
  }

  /** The counter to which update would abandon the current ballot. */
  ghost function UpdateSearch(s: State): Option<Counter> {
    UpdateScan(s, SortDesc(UpdateCounters(s), Smaller), {})
  }

  lemma {:induction false} LaterCountersAddNobody(s: State, cs: seq<Counter>, nodes: set<NodeID>)
    requires IsVblocking(s.quorum, nodes) && nodes == Ahead(s, Target(s))
    requires forall c :: c in cs ==> Target(s) <= c
    ensures UpdateScan(s, cs, nodes) == None
  {
    if cs != [] {
      assert cs[0] in cs;
      assert nodes + Ahead(s, cs[0]) == nodes;
      assert forall c :: c in cs[1..] ==> c in cs;
      LaterCountersAddNobody(s, cs[1..], nodes);
    }
  }

  /** The search always comes back empty: update never changes anything, for any quorum at all,
      and the counter of the current ballot is never raised by it. */
  lemma UpdateFindsNothing(s: State)
    ensures UpdateSearch(s) == None
  {
    var cs := SortDesc(UpdateCounters(s), Smaller);
    assert Target(s) in cs;
    if cs[0] >= Target(s) {
      assert cs[0] == Target(s);
      var all := Ahead(s, cs[0]);
      assert {} + all == all;
      if IsVblocking(s.quorum, all) {
        assert forall c :: c in cs[1..] ==> c in cs;
        LaterCountersAddNobody(s, cs[1..], all);
      }
    }
  }
}
