/** Federated voting (consensus/decree.go, federatedAccept and federatedRatify). */
module Federated {
  import opened Ballots
  import opened Quorums

  /** The quorum that each node's stored statement names; a node without one is nil in the source. */
  type Slices = map<NodeID, Quorum>

  /** The nodes whose own quorum is satisfied by the whole set. */
  function Prune(slices: Slices, nodes: set<NodeID>): set<NodeID> {
    set n | n in nodes && n in slices && IsSlice(slices[n], nodes)
  }

  predicate Ratifies(q: Quorum, slices: Slices, nodes: set<NodeID>) {
    IsSlice(q, Prune(slices, nodes))
  }

  /** V-blocking is tested on the voters alone; only then are the acceptors added. */
  predicate Accepts(q: Quorum, slices: Slices, voters: set<NodeID>, acceptors: set<NodeID>) {
    IsVblocking(q, voters) || Ratifies(q, slices, voters + acceptors)
  }

  /** The pruning loop: it runs until nothing changes, and that is after a single pass. */
  method PruneNodes(slices: Slices, start: set<NodeID>) returns (nodes: set<NodeID>)
    ensures nodes == Prune(slices, start)
  {
    nodes := start;
    var subnodes: set<NodeID> := {};
    while nodes != subnodes
      invariant (nodes == start && subnodes == {}) || nodes == subnodes == Prune(slices, start)
      decreases nodes != subnodes
    {
      subnodes := {};
      var rest := nodes;
      while rest != {}
        invariant rest <= nodes
        invariant subnodes == set n | n in nodes - rest && n in slices && IsSlice(slices[n], nodes)
      {
        var n :| n in rest;
        if n in slices {
          var ok := CheckSlice(slices[n], nodes);
          if ok {
            subnodes := subnodes + {n};
          }
        }
        rest := rest - {n};
      }
      nodes := nodes * subnodes;
    }
  }

  /** federatedRatify, from the nodes its filter let through. */
  method FederatedRatify(q: Quorum, slices: Slices, matching: set<NodeID>) returns (r: bool)
    ensures r == Ratifies(q, slices, matching)
  {
    var nodes := PruneNodes(slices, matching);
    r := CheckSlice(q, nodes);
  }

  /** federatedAccept, from the nodes its two filters let through. */
  method FederatedAccept(q: Quorum, slices: Slices, voters: set<NodeID>, acceptors: set<NodeID>) returns (r: bool)
    ensures r == Accepts(q, slices, voters, acceptors)
  {
    r := CheckVblocking(q, voters);
    if !r {
      r := FederatedRatify(q, slices, voters + acceptors);
    }
  }

  /******* What the single pass decides *******/

  predicate SlicesBelowOne(slices: Slices) {
    forall n :: n in slices ==> NestedBelowOne(slices[n])
  }

  lemma PruneMonotone(slices: Slices, small: set<NodeID>, big: set<NodeID>)
    requires small <= big && SlicesBelowOne(slices)
    ensures Prune(slices, small) <= Prune(slices, big)
  {
    forall n | n in Prune(slices, small) ensures n in Prune(slices, big) {
      SliceMonotone(slices[n], small, big);
    }
  }

  /** More matching nodes never lose a ratification. */
  lemma RatifyMonotone(q: Quorum, slices: Slices, small: set<NodeID>, big: set<NodeID>)
    requires small <= big && NestedBelowOne(q) && SlicesBelowOne(slices)
    requires Ratifies(q, slices, small)
    ensures Ratifies(q, slices, big)
  {
    PruneMonotone(slices, small, big);
    SliceMonotone(q, Prune(slices, small), Prune(slices, big));
  }

  /** Whatever the acceptors ratify is also accepted, whoever else votes. */
  lemma RatifyImpliesAccept(q: Quorum, slices: Slices, voters: set<NodeID>, acceptors: set<NodeID>)
    requires NestedBelowOne(q) && SlicesBelowOne(slices)
    requires Ratifies(q, slices, acceptors)
    ensures Accepts(q, slices, voters, acceptors)
  {
    RatifyMonotone(q, slices, acceptors, voters + acceptors);
  }

  /** A set of nodes that satisfies the quorum of every one of its members. */
  predicate SelfSupporting(slices: Slices, nodes: set<NodeID>) {
    nodes <= slices.Keys && forall n :: n in nodes ==> IsSlice(slices[n], nodes)
  }

  ghost predicate QuorumWithin(q: Quorum, slices: Slices, matching: set<NodeID>) {
    exists nodes: set<NodeID> :: nodes <= matching && SelfSupporting(slices, nodes) && IsSlice(q, nodes)
  }

  /** No quorum among the matching nodes is missed by the single pass. */
  lemma PassFindsEveryQuorum(q: Quorum, slices: Slices, matching: set<NodeID>)
    requires NestedBelowOne(q) && SlicesBelowOne(slices)
    requires QuorumWithin(q, slices, matching)
    ensures Ratifies(q, slices, matching)
  {
    var nodes :| nodes <= matching && SelfSupporting(slices, nodes) && IsSlice(q, nodes);
    assert Prune(slices, nodes) == nodes;
    RatifyMonotone(q, slices, nodes, matching);
  }

  /** For every local quorum the single pass ratifies just when a quorum is there. */
  ghost predicate PassIsExact(slices: Slices, matching: set<NodeID>) {
    forall q :: NestedBelowOne(q) ==> (Ratifies(q, slices, matching) <==> QuorumWithin(q, slices, matching))
  }

  /** The pass is exact if and only if a second one would change nothing. */
  lemma PassExactly(slices: Slices, matching: set<NodeID>)
    requires SlicesBelowOne(slices)
    ensures PassIsExact(slices, matching) <==> SelfSupporting(slices, Prune(slices, matching))
  {
    hide IsSlice, NestedBelowOne;
    var kept := Prune(slices, matching);
    if SelfSupporting(slices, kept) {
      forall q | NestedBelowOne(q) ensures Ratifies(q, slices, matching) <==> QuorumWithin(q, slices, matching) {
        if QuorumWithin(q, slices, matching) {
          PassFindsEveryQuorum(q, slices, matching);
        }
      }
    } else {
      OnlyTheKept(slices, matching);
    }
  }

  /** If the kept nodes do not support themselves, the quorum of all of them is ratified without one. */
  lemma OnlyTheKept(slices: Slices, matching: set<NodeID>)
    requires SlicesBelowOne(slices) && !SelfSupporting(slices, Prune(slices, matching))
    ensures !PassIsExact(slices, matching)
  {
    var kept := Prune(slices, matching);
    var vs := Listed(kept);
    var q := Quorum(1.0, vs, []);
    assert vs != [] && NestedBelowOne(q);
    AllSlice(vs, kept);
    forall nodes: set<NodeID> | nodes <= matching && SelfSupporting(slices, nodes) ensures !IsSlice(q, nodes) {
      AllSlice(vs, nodes);
      PruneMonotone(slices, nodes, matching);
      assert Prune(slices, nodes) == nodes;
      assert nodes <= kept && nodes != kept;
    }
    assert Ratifies(q, slices, matching) && !QuorumWithin(q, slices, matching);
  }

  lemma {:induction false} Listed(nodes: set<NodeID>) returns (vs: seq<NodeID>)
    ensures Distinct(vs) && Members(vs) == nodes
    decreases nodes
  {
    if nodes == {} {
      vs := [];
    } else {
      var x :| x in nodes;
      var rest := Listed(nodes - {x});
      vs := rest + [x];
      assert x !in rest by { assert x !in Members(rest); }
      assert vs[..|vs|-1] == rest;
      MembersSnoc(vs);
    }
  }

  lemma AllSlice(vs: seq<NodeID>, nodes: set<NodeID>)
    requires Distinct(vs) && vs != []
    ensures IsSlice(Quorum(1.0, vs, []), nodes) <==> Members(vs) <= nodes
  {
    var q := Quorum(1.0, vs, []);
    FlatSlice(q, nodes);
    assert Share(q) == |vs| as real;
    CeilUnique(Share(q), |vs|);
    MembersSize(vs);
    var m := Members(vs);
    if m <= nodes {
      assert m * nodes == m;
    } else {
      var x :| x in m && x !in nodes;
      assert m * nodes <= m - {x};
      SubsetSize(m * nodes, m - {x});
    }
  }

  /** When every matching node names the local quorum, the single pass is exact. */
  lemma PassExactForSharedQuorum(q: Quorum, slices: Slices, matching: set<NodeID>)
    requires matching <= slices.Keys && forall n :: n in matching ==> slices[n] == q
    requires NestedBelowOne(q) && SlicesBelowOne(slices)
    ensures Ratifies(q, slices, matching) <==> QuorumWithin(q, slices, matching)
  {
    assert Prune(slices, matching) == if IsSlice(q, matching) then matching else {};
    assert SelfSupporting(slices, Prune(slices, matching));
    PassExactly(slices, matching);
  }

  /** With different quorums one pass is too few: here it ratifies although no quorum is there. */
  lemma PassTooWeakForMixedQuorums()
    ensures var q := Singleton(1);
            var slices: Slices := map[1 := Quorum(1.0, [1, 2], []), 2 := Quorum(1.0, [2, 3], [])];
            Ratifies(q, slices, {1, 2}) && !QuorumWithin(q, slices, {1, 2})
  {
    var q := Singleton(1);
    var q1, q2 := Quorum(1.0, [1, 2], []), Quorum(1.0, [2, 3], []);
    var slices: Slices := map[1 := q1, 2 := q2];
    PairSlice(1, 2, {1, 2});
    PairSlice(2, 3, {1, 2});
    OneSlice(1, Prune(slices, {1, 2}));
    forall nodes: set<NodeID> | nodes <= {1, 2} && SelfSupporting(slices, nodes)
      ensures !IsSlice(q, nodes)
    {
      PairSlice(1, 2, nodes);
      PairSlice(2, 3, nodes);
      OneSlice(1, nodes);
    }
  }

  lemma PairSlice(a: NodeID, b: NodeID, nodes: set<NodeID>)
    requires a != b
    ensures IsSlice(Quorum(1.0, [a, b], []), nodes) <==> a in nodes && b in nodes
  {
    var q := Quorum(1.0, [a, b], []);
    FlatSlice(q, nodes);
    assert Share(q) == 2.0;
    CeilUnique(Share(q), 2);
    assert Members(q.validators) == {a, b};
    if a in nodes && b in nodes {
      assert {a, b} * nodes == {a, b};
    } else if a in nodes {
      assert {a, b} * nodes == {a};
    } else if b in nodes {
      assert {a, b} * nodes == {b};
    } else {
      assert {a, b} * nodes == {};
    }
  }

  lemma OneSlice(a: NodeID, nodes: set<NodeID>)
    ensures IsSlice(Singleton(a), nodes) <==> a in nodes
  {
    var q := Singleton(a);
    FlatSlice(q, nodes);
    assert Share(q) == 1.0;
    CeilUnique(Share(q), 1);
    assert Members(q.validators) == {a};
    assert {a} * nodes == if a in nodes then {a} else {};
  }

  /** An EXTERNALIZE statement is given the local node's singleton quorum, so it survives the
      pass exactly when the local node is itself among the matching nodes. */
  lemma ExternalizedNodeKept(slices: Slices, nodes: set<NodeID>, local: NodeID, n: NodeID)
    requires n in nodes && n in slices && slices[n] == Singleton(local)
    ensures n in Prune(slices, nodes) <==> local in nodes
  {
    OneSlice(local, nodes);
  }
}
