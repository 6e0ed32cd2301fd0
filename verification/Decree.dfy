/** The decree object of consensus/decree.go, with its ballot protocol methods. */
module Decrees {
  import opened Common
  import opened Ballots
  import opened Sorting
  import opened Quorums
  import opened Statements
  import Federated
  import opened Protocol
  import opened Invariants
  import opened Reentry
  import Search

  class Decree {
    const node: NodeID
    const index: nat
    const quorum: Quorum
    const hash: Hash

    // What the validator and the ledger manager know.
    var quorums: map<Hash, Quorum>
    var valid: set<Value>

    // States of the ballot protocol.
    var phase: Phase
    var cur: Option<Ballot>
    var p: Option<Ballot>
    var q: Option<Ballot>
    var h: Option<Ballot>
    var c: Option<Ballot>
    var ballots: map<NodeID, Statement>
    var latest: Option<Statement>
    var next: Value
    var count: nat

    // The statement channel, the externalize channel, and whether the process has stopped.
    var sent: seq<Statement>
    var ext: seq<Value>
    var halted: bool

    ghost var seen: set<Statement>
    ghost var accepted: set<Ballot>
    ghost var steps: nat

    /** The value of the whole object. */
    ghost function St(): State
      reads this
    {
      State(node, index, quorum, hash, quorums, valid, phase, cur, p, q, h, c,
            ballots, latest, next, count, sent, ext, halted, seen, accepted, steps)
    }

    constructor (node: NodeID, index: nat, quorum: Quorum, hash: Hash, quorums: map<Hash, Quorum>, valid: set<Value>)
      ensures St() == Protocol.Fresh(node, index, quorum, hash, quorums, valid)
      ensures Inv(St())
    {
      this.node, this.index, this.quorum, this.hash := node, index, quorum, hash;
      this.quorums, this.valid := quorums, valid;
      phase := Preparing;
      cur, p, q, h, c := None, None, None, None, None;
      ballots, latest, next, count := map[], None, 0, 0;
      sent, ext, halted := [], [], false;
      seen, accepted, steps := {}, {}, 0;
    }

    /******* Federated voting *******/

    method MatchingNodes(f: Filter) returns (nodes: set<NodeID>)
      ensures nodes == Matching(St(), f)
    {
      nodes := {};
      var rest := ballots.Keys;
      while rest != {}
        invariant rest <= ballots.Keys
        invariant nodes == set k | k in ballots && k !in rest && Holds(f, ballots[k].pledge)
      {
        var k :| k in rest;
        if Holds(f, ballots[k].pledge) {
          nodes := nodes + {k};
        }
        rest := rest - {k};
      }
    }

    method StatementSlices() returns (slices: Federated.Slices)
      requires StoredWell(St())
      ensures slices == SlicesOf(St()) && slices.Keys == ballots.Keys
    {
      slices := map[];
      var rest := ballots.Keys;
      while rest != {}
        invariant rest <= ballots.Keys
        invariant slices == map k | k in ballots && k !in rest && StatementQuorum(St(), ballots[k].pledge).Some? ::
                              StatementQuorum(St(), ballots[k].pledge).value
      {
        var k :| k in rest;
        var own := GetStatementQuorum(ballots[k].pledge);
        slices := slices[k := own.value];
        rest := rest - {k};
      }
    }

    method GetStatementQuorum(pl: Pledge) returns (own: Option<Quorum>)
      ensures own == StatementQuorum(St(), pl)
    {
      own := None;
      if pl.Externalize? {
        own := Some(Singleton(node));
      } else if pl.hash != 0 && pl.hash in quorums {
        own := Some(quorums[pl.hash]);
      }
    }

    method FederatedAccept(vote: Filter, accept: Filter) returns (r: bool)
      requires StoredWell(St())
      ensures r == Federated.Accepts(quorum, SlicesOf(St()), Matching(St(), vote), Matching(St(), accept))
    {
      var voters := MatchingNodes(vote);
      var acceptors := MatchingNodes(accept);
      var slices := StatementSlices();
      r := Federated.FederatedAccept(quorum, slices, voters, acceptors);
    }

    method FederatedRatify(f: Filter) returns (r: bool)
      requires StoredWell(St())
      ensures r == Federated.Ratifies(quorum, SlicesOf(St()), Matching(St(), f))
    {
      var nodes := MatchingNodes(f);
      var slices := StatementSlices();
      r := Federated.FederatedRatify(quorum, slices, nodes);
    }

    /******* Candidates *******/

    method CandidatesBelow(hint: Ballot) returns (cands: set<Ballot>)
      ensures cands == set k, x | k in ballots && x in CandidatesAt(hint, ballots[k].pledge) :: x
    {
      cands := {};
      var rest := ballots.Keys;
      while rest != {}
        invariant rest <= ballots.Keys
        invariant cands == set k, x | k in ballots.Keys - rest && x in CandidatesAt(hint, ballots[k].pledge) :: x
      {
        var k :| k in rest;
        cands := cands + CandidatesAt(hint, ballots[k].pledge);
        rest := rest - {k};
      }
    }

    method GetPreparedCandidates(pl: Pledge) returns (cands: seq<Ballot>)
      ensures cands == CandidateList(St(), pl)
    {
      var all: set<Ballot> := {};
      var rest := Hints(pl);
      while rest != {}
        invariant rest <= Hints(pl)
        invariant all == set b, k, x | b in Hints(pl) - rest && k in ballots && x in CandidatesAt(b, ballots[k].pledge) :: x
      {
        var b :| b in rest;
        var below := CandidatesBelow(b);
        all := all + below;
        rest := rest - {b};
      }
      assert all == Candidates(St(), pl);
      AboveIsOrder();
      cands := SortSet(all, Above);
    }

    method GetCommitCounters(v: Value) returns (counters: seq<Counter>)
      ensures counters == CounterList(St(), v)
    {
      var all: set<Counter> := {};
      var rest := ballots.Keys;
      while rest != {}
        invariant rest <= ballots.Keys
        invariant all == set k, x | k in ballots.Keys - rest && x in CountersAt(v, ballots[k].pledge) :: x
      {
        var k :| k in rest;
        all := all + CountersAt(v, ballots[k].pledge);
        rest := rest - {k};
      }
      assert all == CommitCounters(St(), v);
      LargerIsOrder();
      counters := SortSet(all, Larger);
    }

    method FindCommitInterval(vote: Vote, v: Value, counters: seq<Counter>) returns (lb: Counter, rb: Counter)
      requires StoredWell(St())
      ensures (lb, rb) == FindInterval(St(), vote, v, counters, 0, 0)
    {
      lb, rb := 0, 0;
      var i := 0;
      while i < |counters|
        invariant 0 <= i <= |counters|
        invariant lb != 0 ==> lb <= rb && CommitPasses(St(), vote, v, lb, rb)
        invariant FindInterval(St(), vote, v, counters, 0, 0) == FindInterval(St(), vote, v, counters[i..], lb, rb)
      {
        var x := counters[i];
        assert counters[i..][0] == x && counters[i..][1..] == counters[i+1..];
        if lb == 0 || x <= rb {
          var r := if lb == 0 then x else rb;
          var passes;
          if vote == ToAccept {
            passes := FederatedAccept(CommitVote(v, x, r), CommitAccept(v, x, r));
          } else {
            passes := FederatedRatify(CommitAccept(v, x, r));
          }
          if passes {
            lb, rb := x, r;
          } else if lb != 0 {
            return;
          }
        }
        i := i + 1;
      }
    }

    /******* Checks *******/

    method ValidateBallot(st: Statement) returns (verdict: Verdict)
      ensures verdict == Judge(St(), st)
    {
      var own := GetStatementQuorum(st.pledge);
      if own.None? {
        return Crash;
      }
      var ok := Quorums.ValidateQuorum(own.value, 0, false);
      if !ok {
        return Invalid;
      }
      var pl := st.pledge;
      if pl.b.None? {
        return Crash;
      }
      var b := pl.b.value;
      var values := {b.value};
      match pl {
        case Prepare(_, pp, qq, hc, lc, _) =>
          if st.node != node && b.counter == 0 {
            return Invalid;
          }
          if qq.Some? && pp.Some? && !LessAndIncompatible(qq, pp) {
            return Invalid;
          }
          if hc != 0 && (pp.None? || hc > pp.value.counter) {
            return Invalid;
          }
          if lc != 0 && (hc == 0 || hc > b.counter || lc > hc) {
            return Invalid;
          }
          values := CheckedValues(pl);
        case Confirm(_, _, lc, hc, _) =>
          if b.counter == 0 || lc > hc || hc > b.counter {
            return Invalid;
          }
        case Externalize(_, hc, _) =>
          if b.counter == 0 || b.counter > hc {
            return Invalid;
          }
      }
      return if values <= valid then Valid else Invalid;
    }

    method CheckBallotInvariants()
      modifies this
      ensures St() == if Consistent(old(St())) then old(St()) else Halt(old(St()))
    {
      if cur.Some? && cur.value.counter == 0 {
        halted := true;
      }
      if p.Some? && q.Some? && !LessAndIncompatible(q, p) {
        halted := true;
      }
      if h.Some? && !LessAndCompatible(h, cur) {
        halted := true;
      }
      if c.Some? && !(cur.Some? && LessAndCompatible(c, h) && LessAndCompatible(h, cur)) {
        halted := true;
      }
      if phase != Preparing && c.None? {
        halted := true;
      }
      if phase == Externalized && h.None? {
        halted := true;
      }
    }

    /******* The local changes of the four rules *******/

    method UpdateBallot(b: Ballot)
      modifies this
      ensures St() == Protocol.UpdateBallot(old(St()), b)
    {
      cur := Some(b);
      if h.Some? && !Compatible(cur, h) {
        h := Some(ZERO);
      }
    }

    method UpdateBallotIfNeeded(b: Ballot) returns (updated: bool)
      modifies this
      ensures Local(St(), updated) == Protocol.UpdateBallotIfNeeded(old(St()), b)
      ensures halted == old(halted)
    {
      updated := false;
      if cur.None? || Compare(cur, Some(b)) < 0 {
        UpdateBallot(b);
        updated := true;
      }
    }

    method SetAcceptPrepared(b: Ballot) returns (updated: bool)
      modifies this
      ensures Local(St(), updated) == Protocol.SetAcceptPrepared(old(St()), b)
    {
      updated := false;
      accepted := accepted + {b};
      if p.Some? {
        var cmp := Compare(Some(b), p);
        if cmp < 0 {
          if q.None? || (Compare(Some(b), q) > 0 && !Compatible(Some(b), p)) {
            q := Some(b);
            updated := true;
          }
        } else if cmp > 0 {
          if !Compatible(Some(b), p) {
            q := p;
          }
          p := Some(b);
          updated := true;
        }
      } else {
        p := Some(b);
        updated := true;
      }
    }

    /** The loop of acceptPrepared over its candidates. */
    method ScanPrepared(cands: seq<Ballot>) returns (r: Scan)
      requires StoredWell(St())
      ensures r == ScanAccept(St(), cands)
    {
      var i := 0;
      while i < |cands|
        invariant 0 <= i <= |cands|
        invariant ScanAccept(St(), cands) == ScanAccept(St(), cands[i..])
      {
        var x := Some(cands[i]);
        assert cands[i..][0] == cands[i] && cands[i..][1..] == cands[i+1..];
        i := i + 1;
        if phase == Confirming {
          if !LessAndCompatible(p, x) {
            continue;
          }
          if !Compatible(c, x) {
            return Clash;
          }
        }
        if q.Some? && Compare(x, q) <= 0 {
          continue;
        }
        if p.Some? && LessAndCompatible(x, p) {
          continue;
        }
        var ok := FederatedAccept(PrepareVote(x.value), PrepareAccept(x.value));
        if ok {
          return Found(x.value);
        }
      }
      return Nothing;
    }

    method TakePrepared(b: Ballot) returns (updated: bool)
      modifies this
      ensures Local(St(), updated) == Protocol.TakePrepared(old(St()), b)
      ensures halted == old(halted)
    {
      updated := SetAcceptPrepared(b);
      if c.Some? && h.Some? {
        if (p.Some? && LessAndIncompatible(h, p)) || (q.Some? && LessAndIncompatible(h, q)) {
          if phase == Preparing {
            c := Some(ZERO);
            updated := true;
          }
        }
      }
    }

    /** The loops of confirmPrepared: the higher ballot, and the commit ballot below it. */
    method FindConfirmed(cands: seq<Ballot>) returns (hb: Option<Ballot>, cb: Option<Ballot>)
      requires StoredWell(St()) && phase == Preparing && p.Some?
      ensures var s := St();
              var i := FindHigh(s, cands, 0);
              if i == |cands| then hb == None
              else hb == Some(cands[i]) && cb == LowBallot(s, cands, i)
    {
      hb, cb := None, None;
      var i := 0;
      while i < |cands|
        invariant 0 <= i <= |cands|
        invariant FindHigh(St(), cands, 0) == FindHigh(St(), cands, i)
      {
        if h.Some? && Compare(Some(cands[i]), h) <= 0 {
          return;
        }
        var ok := FederatedRatify(PrepareAccept(cands[i]));
        if ok {
          hb := Some(cands[i]);
          break;
        }
        i := i + 1;
      }
      if hb.None? {
        return;
      }
      ghost var start := i;
      var floor := if cur.Some? then cur.value else ZERO;
      if c.None? && !LessAndIncompatible(hb, p) && (q.None? || !LessAndIncompatible(hb, q)) {
        while i < |cands|
          invariant start <= i <= |cands|
          invariant FindLow(St(), cands, start, floor, hb.value, None) == FindLow(St(), cands, i, floor, hb.value, cb)
        {
          var x := cands[i];
          if Compare(Some(x), Some(floor)) < 0 {
            return;
          }
          if LessAndCompatible(Some(x), hb) {
            var ok := FederatedRatify(PrepareAccept(x));
            if !ok {
              return;
            }
            cb := Some(x);
          }
          i := i + 1;
        }
      }
    }

    method SetConfirmPrepared(cb: Option<Ballot>, hb: Ballot) returns (updated: bool)
      modifies this
      ensures Local(St(), updated) == Protocol.SetConfirmPrepared(old(St()), cb, hb)
      ensures halted == old(halted)
    {
      next := hb.value;
      updated := false;
      if cur.None? || Compatible(cur, Some(hb)) {
        if h.None? || Compare(h, Some(hb)) < 0 {
          h := Some(hb);
          updated := true;
        }
        if c.None? || Compare(cb, c) < 0 {
          c := cb;
          updated := true;
        }
      }
      var moved := UpdateBallotIfNeeded(hb);
      updated := updated || moved;
    }

    method EnterConfirm(hb: Ballot)
      modifies this
      ensures St() == Protocol.EnterConfirm(old(St()), hb)
      ensures halted == old(halted)
    {
      phase := Confirming;
      if cur.Some? && !LessAndCompatible(Some(hb), cur) {
        UpdateBallot(hb);
      }
      if q.Some? {
        q := Some(ZERO);
      }
    }

    method SetAcceptCommit(cb: Ballot, hb: Ballot) returns (updated: bool)
      modifies this
      ensures Local(St(), updated) == Protocol.SetAcceptCommit(old(St()), cb, hb)
      ensures halted == old(halted)
    {
      hide Protocol.EnterConfirm, Protocol.UpdateBallotIfNeeded;
      next := hb.value;
      updated := false;
      if h.None? || c.None? || h != Some(hb) || c != Some(cb) {
        h := Some(hb);
        c := Some(cb);
        updated := true;
      }
      if phase == Preparing {
        EnterConfirm(hb);
        updated := true;
      }
      if updated {
        var _ := UpdateBallotIfNeeded(hb);
      }
    }

    method SetConfirmCommit(cb: Ballot, hb: Ballot) returns (updated: bool)
      modifies this
      ensures Local(St(), updated) == Protocol.SetConfirmCommit(old(St()), cb, hb)
    {
      c := Some(cb);
      h := Some(hb);
      var _ := UpdateBallotIfNeeded(hb);
      phase := Externalized;
      updated := true;
    }

    /******* The re-entrant methods *******/

    method AcceptPrepared(st: Statement) returns (updated: bool)
      requires Inv(St()) && !halted
      modifies this
      ensures Local(St(), updated) == Fire(AcceptPrepare, old(St()), st)
      decreases Fuel(St()), 1
    {
      hide Inv, Leads, Moves, Rank, ScanAccept, CandidateList, Protocol.TakePrepared;
      ghost var s := St();
      updated := false;
      if phase == Externalized {
        return;
      }
      assert StoredWell(s) by { InvParts(s); }
      var cands := GetPreparedCandidates(st.pledge);
      var r := ScanPrepared(cands);
      match r {
        case Nothing =>
        case Clash =>
          halted := true;
        case Found(b) =>
          updated := TakePrepared(b);
          if updated {
            AttemptKeeps(AcceptPrepare, s, st.pledge);
            AttemptMoves(s, St());
            FuelFalls(s, St());
            SendBallot();
          }
      }
    }

    method ConfirmPrepared(st: Statement) returns (updated: bool)
      requires Inv(St()) && !halted
      modifies this
      ensures Local(St(), updated) == Fire(ConfirmPrepare, old(St()), st)
      decreases Fuel(St()), 1
    {
      hide Inv, Leads, Moves, Rank, FindHigh, LowBallot, CandidateList, Protocol.SetConfirmPrepared;
      ghost var s := St();
      updated := false;
      if phase != Preparing || p.None? {
        return;
      }
      assert StoredWell(s) by { InvParts(s); }
      var cands := GetPreparedCandidates(st.pledge);
      var hb, cb := FindConfirmed(cands);
      if hb.Some? {
        updated := SetConfirmPrepared(cb, hb.value);
        if updated {
          AttemptKeeps(ConfirmPrepare, s, st.pledge);
          AttemptMoves(s, St());
          FuelFalls(s, St());
          SendBallot();
        }
      }
    }

    method AcceptCommit(st: Statement) returns (updated: bool)
      requires Inv(St()) && !halted
      modifies this
      ensures Local(St(), updated) == Fire(AcceptTheCommit, old(St()), st)
      decreases Fuel(St()), 1
    {
      hide Inv, Leads, Moves, FindInterval, Rank, Protocol.SetAcceptCommit;
      ghost var s := St();
      updated := false;
      var v := CommitValue(st.pledge);
      if phase == Externalized || v.None? {
        return;
      }
      if phase == Confirming && !(h.Some? && h.value.value == v.value) {
        return;
      }
      assert StoredWell(s) by { InvParts(s); }
      var counters := GetCommitCounters(v.value);
      var lb, rb := FindCommitInterval(ToAccept, v.value, counters);
      if lb != 0 && (phase != Confirming || rb > h.value.counter) {
        updated := SetAcceptCommit(Ballot(lb, v.value), Ballot(rb, v.value));
        if updated {
          AttemptKeeps(AcceptTheCommit, s, st.pledge);
          AttemptMoves(s, St());
          FuelFalls(s, St());
          SendBallot();
        }
      }
    }

    method ConfirmCommit(st: Statement) returns (updated: bool)
      requires Inv(St()) && !halted
      modifies this
      ensures Local(St(), updated) == Fire(ConfirmTheCommit, old(St()), st)
      decreases Fuel(St()), 1
    {
      hide Inv, Leads, Moves, FindInterval, Rank;
      ghost var s := St();
      updated := false;
      if phase != Confirming || h.None? || c.None? || st.pledge.Prepare? || st.pledge.b.None? {
        return;
      }
      var v := st.pledge.b.value.value;
      if c.value.value != v {
        return;
      }
      assert StoredWell(s) by { InvParts(s); }
      var counters := GetCommitCounters(v);
      var lb, rb := FindCommitInterval(ToConfirm, v, counters);
      if lb != 0 {
        updated := SetConfirmCommit(Ballot(lb, v), Ballot(rb, v));
        AttemptKeeps(ConfirmTheCommit, s, st.pledge);
        AttemptMoves(s, St());
        FuelFalls(s, St());
        SendBallot();
        if !halted && c.Some? {
          ext := ext + [c.value.value];
        }
      }
    }

    method AssemblePledge() returns (pledge: Option<Pledge>)
      requires Consistent(St())
      ensures pledge == Assemble(St())
    {
      match phase {
        case Preparing =>
          var hc: Counter, lc: Counter := 0, 0;
          if c.Some? {
            lc := c.value.counter;
          }
          if h.Some? {
            hc := h.value.counter;
          }
          pledge := Some(Prepare(cur, p, q, hc, lc, hash));
        case Confirming =>
          if p.None? {
            return None;
          }
          pledge := Some(Confirm(cur, p.value.counter, c.value.counter, h.value.counter, hash));
        case Externalized =>
          pledge := Some(Externalize(c, h.value.counter, hash));
      }
    }

    method SendBallot()
      requires Inv(St()) && !halted
      modifies this
      ensures St() == Reentry.SendBallot(old(St()))
      decreases Fuel(St()), 0
    {
      hide Inv, Leads, Fuel, Rank;
      ghost var s := St();
      CheckBallotInvariants();
      if halted {
        return;
      }
      var pledge := AssemblePledge();
      if pledge.None? {
        halted := true;
        return;
      }
      if cur.None? {
        return;
      }
      var st := Statement(node, index, pledge.value);
      if node in ballots && ballots[node] == st {
        return;
      }
      AssembledIsOwn(s);
      FuelFalls(s, Store(s, st));
      StoreRank(s, st);
      var ok := RecvBallot(st);
      if halted || !ok {
        return;
      }
      if cur.Some? && (latest.None? || IsNewer(latest.value.pledge, st.pledge)) {
        latest := Some(st);
        sent := sent + [st];
      }
    }

    method RecvBallot(st: Statement) returns (ok: bool)
      requires Inv(St()) && !halted
      requires st.node == node ==> Own(St(), st)
      modifies this
      ensures Outcome(St(), ok) == Reentry.RecvBallot(old(St()), st)
      decreases RecvFuel(St(), st), 4
    {
      hide Inv, Leads;
      ghost var s := St();
      if st.index != index {
        return false;
      }
      if st.node in ballots && !IsNewer(ballots[st.node].pledge, st.pledge) {
        return true;
      }
      var verdict := ValidateBallot(st);
      match verdict {
        case Crash =>
          halted := true;
          return false;
        case Invalid =>
          return false;
        case Valid =>
      }
      StoreKeeps(s, st);
      if phase != Externalized {
        ballots := ballots[st.node := st];
        seen := seen + {st};
        assert St() == Store(s, st);
        ok := Step(st);
      } else {
        assert Locked(s) by { InvParts(s); }
        if c.value.value != st.pledge.b.value.value {
          return false;
        }
        ballots := ballots[st.node := st];
        seen := seen + {st};
        ok := true;
      }
    }

    method Step(st: Statement) returns (ok: bool)
      requires Inv(St()) && !halted
      modifies this
      ensures Outcome(St(), ok) == Reentry.Step(old(St()), st)
      decreases Fuel(St()), 3
    {
      hide Inv, Leads, Rank, Fire;
      ghost var s := St();
      count := count + 1;
      steps := steps + 1;
      ghost var t := St();
      MovesCounters(s, t);
      if count == MAX_RECURSIONS {
        return false;
      }
      FuelFalls(s, t);
      var updated := FireAll(st);
      if halted {
        return false;
      }
      if count == 1 {
        ghost var before := Local(St(), updated);
        var bumped := true;
        while bumped
          invariant Local(St(), updated) == before
          decreases bumped
        {
          bumped := Update();
          updated := bumped || updated;
        }
      }
      count := if count > 0 then count - 1 else 0;
      if updated && latest.Some? {
        sent := sent + [latest.value];
      }
      return true;
    }

    /** The four rules, in the order of step. */
    method FireAll(st: Statement) returns (updated: bool)
      requires Inv(St()) && !halted
      modifies this
      ensures Local(St(), updated) == FireRules(old(St()), st, 4)
      decreases Fuel(St()), 2
    {
      hide Inv, Leads, Moves, Rank, Fire, Fuel;
      ghost var s := St();
      MovesRefl(s);
      updated := AcceptPrepared(st);
      assert Local(St(), updated) == FireRules(s, st, 1) by { assert FireRules(s, st, 0) == Local(s, false); }
      FireStops(s, st, 1, 4);
      if halted { return; }
      MovesFuel(s, St());
      var more := ConfirmPrepared(st);
      updated := updated || more;
      assert Local(St(), updated) == FireRules(s, st, 2);
      FireStops(s, st, 2, 4);
      if halted { return; }
      MovesFuel(s, St());
      more := AcceptCommit(st);
      updated := updated || more;
      assert Local(St(), updated) == FireRules(s, st, 3);
      FireStops(s, st, 3, 4);
      if halted { return; }
      MovesFuel(s, St());
      more := ConfirmCommit(st);
      updated := updated || more;
    }

    /**
     update, as far as it ever gets: the search for a counter finds none, so abandonBallot,
     which would raise the current ballot to that counter, is never reached.
     */
    method Update() returns (updated: bool)
      ensures !updated
    {
      if phase == Externalized {
        return false;
      }
      var found := FindUpdateCounter();
      Search.UpdateFindsNothing(St());
      updated := found.Some?;
    }

    method NodesAhead(x: Counter) returns (nodes: set<NodeID>)
      ensures nodes == Search.Ahead(St(), x)
    {
      nodes := {};
      var rest := ballots.Keys;
      while rest != {}
        invariant rest <= ballots.Keys
        invariant nodes == set k | k in ballots && k !in rest && x < Search.WorkingCounter(ballots[k].pledge)
      {
        var k :| k in rest;
        if x < Search.WorkingCounter(ballots[k].pledge) {
          nodes := nodes + {k};
        }
        rest := rest - {k};
      }
    }

    method WorkingCounters() returns (counters: set<Counter>)
      ensures counters == set k | k in ballots :: Search.WorkingCounter(ballots[k].pledge)
    {
      counters := {};
      var rest := ballots.Keys;
      while rest != {}
        invariant rest <= ballots.Keys
        invariant counters == set k | k in ballots.Keys - rest :: Search.WorkingCounter(ballots[k].pledge)
      {
        var k :| k in rest;
        counters := counters + {Search.WorkingCounter(ballots[k].pledge)};
        rest := rest - {k};
      }
    }

    /** The search of update over the counters, in ascending order. */
    method FindUpdateCounter() returns (found: Option<Counter>)
      ensures found == Search.UpdateSearch(St())
    {
      var target: Counter := if cur.Some? then cur.value.counter else 0;
      var counters := WorkingCounters();
      counters := counters + {target};
      assert counters == Search.UpdateCounters(St());
      var cs := SortSet(counters, Search.Smaller);
      found := ScanUpdate(cs, target);
    }

    method ScanUpdate(cs: seq<Counter>, target: Counter) returns (found: Option<Counter>)
      requires target == Search.Target(St())
      ensures found == Search.UpdateScan(St(), cs, {})
    {
      hide IsVblocking;
      var nodes: set<NodeID> := {};
      var i := 0;
      while i < |cs|
        invariant 0 <= i <= |cs|
        invariant Search.UpdateScan(St(), cs, {}) == Search.UpdateScan(St(), cs[i..], nodes)
      {
        var x := cs[i];
        assert cs[i..][0] == x && cs[i..][1..] == cs[i+1..];
        if x < target {
          return None;
        }
        var ahead := NodesAhead(x);
        nodes := nodes + ahead;
        var blocked := CheckVblocking(quorum, nodes);
        if !blocked {
          return if x == target then None else Some(x);
        }
        i := i + 1;
      }
      return None;
    }

    /** updateBallotPhase without force: nomination hands over its value. */
    method StartBallot(v: Value)
      requires Inv(St()) && !halted
      modifies this
      ensures St() == Propose(old(St()), v)
    {
      hide Inv, Leads;
      if cur.Some? || phase == Externalized {
        return;
      }
      var b := Ballot(1, if next != 0 then next else v);
      StartKeeps(St(), b);
      UpdateBallot(b);
      SendBallot();
    }
  }
}
