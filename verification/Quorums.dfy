/** Quorums, their slices and their blocking sets (consensus/util.go). */
module Quorums {
  import opened Ballots

  /** A threshold is an exact fraction of the members: validators and nested quorums alike. */
  datatype Quorum = Quorum(threshold: real, validators: seq<NodeID>, nested: seq<Quorum>)

  function Ceil(x: real): (c: int)
    ensures (c - 1) as real < x <= c as real
  {
    -((0.0 - x).Floor)
  }

  function Size(q: Quorum): nat {
    |q.validators| + |q.nested|
  }

  /** The number of members asked for, before rounding. */
  function Share(q: Quorum): real {
    Size(q) as real * q.threshold
  }

  function SliceThreshold(q: Quorum): int {
    Ceil(Share(q))
  }

  function BlockThreshold(q: Quorum): int {
    Ceil(Size(q) as real * (1.0 - q.threshold))
  }

  /** getSingletonQuorum. */
  function Singleton(node: NodeID): Quorum {
    Quorum(1.0, [node], [])
  }

  function CountIn(vs: seq<NodeID>, nodes: set<NodeID>): (n: nat)
    ensures n <= |vs|
  {
    if vs == [] then 0
    else CountIn(vs[..|vs|-1], nodes) + (if vs[|vs|-1] in nodes then 1 else 0)
  }

  function CountBlocking(qs: seq<Quorum>, nodes: set<NodeID>): (n: nat)
    decreases qs, 0
    ensures n <= |qs|
  {
    if qs == [] then 0
    else CountBlocking(qs[..|qs|-1], nodes) + (if IsVblocking(qs[|qs|-1], nodes) then 1 else 0)
  }

  /** The first member of the quorum is not covered by the nodes. */
  predicate FirstMemberOutside(q: Quorum, nodes: set<NodeID>)
    decreases q, 0
  {
    if q.validators != [] then q.validators[0] !in nodes
    else q.nested != [] && !IsVblocking(q.nested[0], nodes)
  }

  /**
   What isVblocking decides. The countdown stops only at exactly zero, so with a threshold
   of zero members (T = 1) a quorum is blocked by the sets that miss its first member.
   */
  predicate IsVblocking(q: Quorum, nodes: set<NodeID>)
    decreases q, 1
  {
    var t := BlockThreshold(q);
    if t > 0 then CountIn(q.validators, nodes) + CountBlocking(q.nested, nodes) >= t
    else t == 0 && FirstMemberOutside(q, nodes)
  }

  /** What isQuorumSlice decides: nested quorums count when they are blocked. */
  predicate IsSlice(q: Quorum, nodes: set<NodeID>) {
    && Size(q) > 0
    && CountIn(q.validators, nodes) + CountBlocking(q.nested, nodes) >= SliceThreshold(q)
  }

  lemma {:induction false} CountInPrefix(vs: seq<NodeID>, nodes: set<NodeID>, i: nat)
    requires i <= |vs|
    ensures CountIn(vs[..i], nodes) <= CountIn(vs, nodes)
    decreases |vs| - i
  {
    if i < |vs| {
      assert vs[..i+1][..i] == vs[..i];
      CountInPrefix(vs, nodes, i + 1);
    } else {
      assert vs[..i] == vs;
    }
  }

  lemma {:induction false} CountBlockingPrefix(qs: seq<Quorum>, nodes: set<NodeID>, i: nat)
    requires i <= |qs|
    ensures CountBlocking(qs[..i], nodes) <= CountBlocking(qs, nodes)
    decreases |qs| - i
  {
    if i < |qs| {
      assert qs[..i+1][..i] == qs[..i];
      CountBlockingPrefix(qs, nodes, i + 1);
    } else {
      assert qs[..i] == qs;
    }
  }

  /** isVblocking: the countdown loops compute IsVblocking. */
  method CheckVblocking(q: Quorum, nodes: set<NodeID>) returns (r: bool)
    ensures r == IsVblocking(q, nodes)
    decreases q
  {
    var start := BlockThreshold(q);
    var threshold := start;
    for i := 0 to |q.validators|
      invariant threshold == start - CountIn(q.validators[..i], nodes)
      invariant start > 0 ==> threshold > 0
      invariant start < 0 ==> threshold < 0
      invariant start == 0 && i > 0 ==> threshold < 0 && q.validators[0] in nodes
    {
      assert q.validators[..i+1][..i] == q.validators[..i];
      if q.validators[i] in nodes {
        threshold := threshold - 1;
      }
      if threshold == 0 {
        CountInPrefix(q.validators, nodes, i + 1);
        return true;
      }
    }
    assert q.validators[..|q.validators|] == q.validators;
    for i := 0 to |q.nested|
      invariant threshold == start - CountIn(q.validators, nodes) - CountBlocking(q.nested[..i], nodes)
      invariant start > 0 ==> threshold > 0
      invariant start < 0 ==> threshold < 0
      invariant start == 0 && Size(q) > |q.nested| ==> threshold < 0 && q.validators[0] in nodes
      invariant start == 0 && i > 0 && q.validators == [] ==> threshold < 0 && IsVblocking(q.nested[0], nodes)
    {
      assert q.nested[..i+1][..i] == q.nested[..i];
      var blocked := CheckVblocking(q.nested[i], nodes);
      if blocked {
        threshold := threshold - 1;
      }
      if threshold == 0 {
        CountBlockingPrefix(q.nested, nodes, i + 1);
        return true;
      }
    }
    assert q.nested[..|q.nested|] == q.nested;
    return false;
  }

  /** isQuorumSlice: the countdown loops compute IsSlice. */
  method CheckSlice(q: Quorum, nodes: set<NodeID>) returns (r: bool)
    ensures r == IsSlice(q, nodes)
  {
    var start := SliceThreshold(q);
    var threshold := start;
    for i := 0 to |q.validators|
      invariant threshold == start - CountIn(q.validators[..i], nodes)
      invariant i > 0 ==> threshold > 0
    {
      assert q.validators[..i+1][..i] == q.validators[..i];
      if q.validators[i] in nodes {
        threshold := threshold - 1;
      }
      if threshold <= 0 {
        CountInPrefix(q.validators, nodes, i + 1);
        return true;
      }
    }
    assert q.validators[..|q.validators|] == q.validators;
    for i := 0 to |q.nested|
      invariant threshold == start - CountIn(q.validators, nodes) - CountBlocking(q.nested[..i], nodes)
      invariant |q.validators| + i > 0 ==> threshold > 0
    {
      assert q.nested[..i+1][..i] == q.nested[..i];
      var blocked := CheckVblocking(q.nested[i], nodes);
      if blocked {
        threshold := threshold - 1;
      }
      if threshold <= 0 {
        CountBlockingPrefix(q.nested, nodes, i + 1);
        return true;
      }
    }
    assert q.nested[..|q.nested|] == q.nested;
    return false;
  }

  /******* Monotonicity *******/

  predicate BelowOne(q: Quorum)
    decreases q, 1
  {
    q.threshold < 1.0 && NestedBelowOne(q)
  }

  predicate NestedBelowOne(q: Quorum)
    decreases q, 0
  {
    forall nq :: nq in q.nested ==> BelowOne(nq)
  }

  lemma ProductPositive(x: real, t: real)
    requires x > 0.0 && t > 0.0
    ensures x * t > 0.0
  {}

  lemma CeilPositive(x: real)
    requires x > 0.0
    ensures Ceil(x) > 0
  {}

  lemma BlockThresholdPositive(q: Quorum)
    requires BelowOne(q)
    ensures Size(q) > 0 ==> BlockThreshold(q) > 0
  {
    if Size(q) > 0 {
      var n, t := Size(q) as real, 1.0 - q.threshold;
      ProductPositive(n, t);
      CeilPositive(n * t);
    }
  }

  lemma {:induction false} CountInMonotone(vs: seq<NodeID>, small: set<NodeID>, big: set<NodeID>)
    requires small <= big
    ensures CountIn(vs, small) <= CountIn(vs, big)
  {
    if vs != [] {
      CountInMonotone(vs[..|vs|-1], small, big);
    }
  }

  lemma {:induction false} CountBlockingMonotone(qs: seq<Quorum>, small: set<NodeID>, big: set<NodeID>)
    requires small <= big && forall q :: q in qs ==> BelowOne(q)
    ensures CountBlocking(qs, small) <= CountBlocking(qs, big)
    decreases qs, 0
  {
    if qs != [] {
      CountBlockingMonotone(qs[..|qs|-1], small, big);
      var q := qs[|qs|-1];
      if IsVblocking(q, small) {
        VblockingMonotone(q, small, big);
      }
    }
  }

  /** With thresholds below one, more nodes block more. */
  lemma {:induction false} VblockingMonotone(q: Quorum, small: set<NodeID>, big: set<NodeID>)
    requires small <= big && BelowOne(q) && IsVblocking(q, small)
    ensures IsVblocking(q, big)
    decreases q, 1
  {
    hide BlockThreshold;
    CountInMonotone(q.validators, small, big);
    CountBlockingMonotone(q.nested, small, big);
    BlockThresholdPositive(q);
  }

  /** More nodes satisfy more slices; only the nested thresholds need to stay below one. */
  lemma SliceMonotone(q: Quorum, small: set<NodeID>, big: set<NodeID>)
    requires small <= big && NestedBelowOne(q) && IsSlice(q, small)
    ensures IsSlice(q, big)
  {
    CountInMonotone(q.validators, small, big);
    CountBlockingMonotone(q.nested, small, big);
  }

  ghost predicate BlockingIsMonotone(q: Quorum) {
    forall small: set<NodeID>, big: set<NodeID> :: small <= big && IsVblocking(q, small) ==> IsVblocking(q, big)
  }

  /** A threshold of one breaks this for every quorum with a validator: nobody blocks it, and the
      first validator alone unblocks it. */
  lemma UnblockedAtOne(q: Quorum)
    requires q.threshold == 1.0 && q.validators != []
    ensures IsVblocking(q, {}) && !IsVblocking(q, {q.validators[0]})
  {
    assert Size(q) as real * (1.0 - q.threshold) == 0.0;
    assert BlockThreshold(q) == 0;
  }

  /** With nested thresholds below one, blocking is monotone if and only if the threshold is below one. */
  lemma VblockingMonotoneExactly(q: Quorum)
    requires NestedBelowOne(q) && q.validators != [] && q.threshold <= 1.0
    ensures BlockingIsMonotone(q) <==> q.threshold < 1.0
  {
    if q.threshold < 1.0 {
      forall small: set<NodeID>, big: set<NodeID> | small <= big && IsVblocking(q, small) ensures IsVblocking(q, big) {
        VblockingMonotone(q, small, big);
      }
    } else {
      UnblockedAtOne(q);
      var one := {q.validators[0]};
      assert {} <= one && IsVblocking(q, {}) && !IsVblocking(q, one);
    }
  }

  /******* Flat quorums *******/

  predicate Distinct(vs: seq<NodeID>) {
    forall i, j :: 0 <= i < j < |vs| ==> vs[i] != vs[j]
  }

  /** A flat quorum of distinct validators with a threshold ValidateQuorum admits. */
  predicate Flat(q: Quorum) {
    q.nested == [] && Distinct(q.validators) && 0.0 < q.threshold <= 1.0
  }

  function Members(vs: seq<NodeID>): set<NodeID> {
    set v | v in vs
  }

  lemma MembersSnoc(vs: seq<NodeID>)
    requires Distinct(vs) && vs != []
    ensures Members(vs) == Members(vs[..|vs|-1]) + {vs[|vs|-1]} && vs[|vs|-1] !in Members(vs[..|vs|-1])
  {
    assert vs == vs[..|vs|-1] + [vs[|vs|-1]];
  }

  lemma {:induction false} MembersSize(vs: seq<NodeID>)
    requires Distinct(vs)
    ensures |Members(vs)| == |vs|
  {
    if vs != [] {
      var init, last := vs[..|vs|-1], vs[|vs|-1];
      MembersSize(init);
      MembersSnoc(vs);
    }
  }

  lemma {:induction false} CountInIsCardinality(vs: seq<NodeID>, nodes: set<NodeID>)
    requires Distinct(vs)
    ensures CountIn(vs, nodes) == |Members(vs) * nodes|
  {
    if vs != [] {
      var init, last := vs[..|vs|-1], vs[|vs|-1];
      CountInIsCardinality(init, nodes);
      MembersSnoc(vs);
      hide Members, Distinct;
      if last in nodes {
        assert Members(vs) * nodes == Members(init) * nodes + {last};
      } else {
        assert Members(vs) * nodes == Members(init) * nodes;
      }
    } else {
      assert Members(vs) * nodes == {};
    }
  }

  /** A slice of a flat quorum is a set holding at least ceil(n*T) of its validators. */
  lemma FlatSlice(q: Quorum, nodes: set<NodeID>)
    requires Flat(q)
    ensures IsSlice(q, nodes) <==> |q.validators| > 0 && |Members(q.validators) * nodes| >= SliceThreshold(q)
  {
    CountInIsCardinality(q.validators, nodes);
  }

  /** The positions of the nested quorums that the nodes block. */
  function BlockedAt(qs: seq<Quorum>, nodes: set<NodeID>): set<int> {
    set i | 0 <= i < |qs| && IsVblocking(qs[i], nodes)
  }

  lemma {:induction false} CountBlockingIsCardinality(qs: seq<Quorum>, nodes: set<NodeID>)
    ensures CountBlocking(qs, nodes) == |BlockedAt(qs, nodes)|
    decreases |qs|
  {
    hide IsVblocking;
    if qs == [] {
      assert BlockedAt(qs, nodes) == {};
    } else {
      var n := |qs| - 1;
      var init := qs[..n];
      CountBlockingIsCardinality(init, nodes);
      assert forall i :: 0 <= i < n ==> init[i] == qs[i];
      if IsVblocking(qs[n], nodes) {
        assert BlockedAt(qs, nodes) == BlockedAt(init, nodes) + {n};
      } else {
        assert BlockedAt(qs, nodes) == BlockedAt(init, nodes);
      }
    }
  }

  /** The validators among the nodes and the nested quorums that these block. */
  function Covered(q: Quorum, nodes: set<NodeID>): nat {
    |Members(q.validators) * nodes| + |BlockedAt(q.nested, nodes)|
  }

  lemma CeilBounds(n: int, x: real)
    ensures n >= Ceil(x) <==> n as real >= x
  {}

  /** Nested quorums included: a slice covers at least the fraction T of all members, and below T = 1 a set blocks
      that covers at least the fraction 1 - T of them. A nested quorum is covered by what blocks it, in both. */
  lemma CoversExactly(q: Quorum, nodes: set<NodeID>)
    requires Distinct(q.validators) && Size(q) > 0
    ensures IsSlice(q, nodes) <==> Covered(q, nodes) as real >= Size(q) as real * q.threshold
    ensures q.threshold < 1.0 ==> (IsVblocking(q, nodes) <==> Covered(q, nodes) as real >= Size(q) as real * (1.0 - q.threshold))
  {
    hide SliceThreshold, BlockThreshold, CountIn, CountBlocking, FirstMemberOutside, Members, BlockedAt, Distinct;
    CountInIsCardinality(q.validators, nodes);
    CountBlockingIsCardinality(q.nested, nodes);
    SliceCovers(q, Covered(q, nodes));
    if q.threshold < 1.0 {
      BlockCovers(q, Covered(q, nodes));
    }
  }

  lemma SliceCovers(q: Quorum, n: int)
    ensures n >= SliceThreshold(q) <==> n as real >= Size(q) as real * q.threshold
  {
    CeilBounds(n, Share(q));
  }

  lemma BlockCovers(q: Quorum, n: int)
    requires Size(q) > 0 && q.threshold < 1.0
    ensures BlockThreshold(q) > 0 && (n >= BlockThreshold(q) <==> n as real >= Size(q) as real * (1.0 - q.threshold))
  {
    var size, t := Size(q) as real, 1.0 - q.threshold;
    ProductPositive(size, t);
    CeilPositive(size * t);
    CeilBounds(n, size * t);
  }

  /** Two slices of one flat quorum share at least 2*ceil(n*T) - n validators. */
  lemma SlicesOverlap(q: Quorum, a: set<NodeID>, b: set<NodeID>)
    requires Flat(q) && IsSlice(q, a) && IsSlice(q, b)
    ensures |Members(q.validators) * a * b| >= 2 * SliceThreshold(q) - |q.validators|
  {
    FlatSlice(q, a);
    FlatSlice(q, b);
    MembersSize(q.validators);
    var m := Members(q.validators);
    var ma, mb := m * a, m * b;
    assert ma * mb == m * a * b;
    assert |ma + mb| == |ma| + |mb| - |ma * mb|;
    SubsetSize(ma + mb, m);
  }

  lemma {:induction false} SubsetSize(a: set<NodeID>, b: set<NodeID>)
    requires a <= b
    ensures |a| <= |b|
  {
    if a != {} {
      var x :| x in a;
      SubsetSize(a - {x}, b - {x});
    }
  }

  ghost predicate Whole(x: real) {
    x == x.Floor as real
  }

  /** Blocking means meeting every slice: no slice is left among the other validators. */
  ghost predicate BlockingIsDual(q: Quorum) {
    forall nodes: set<NodeID> :: IsVblocking(q, nodes) <==> !IsSlice(q, Members(q.validators) - nodes)
  }

  lemma CeilUnique(x: real, c: int)
    requires (c - 1) as real < x <= c as real
    ensures Ceil(x) == c
  {}

  /** The ceiling of n - y, for a whole y and for any other. */
  lemma CeilComplement(n: int, y: real)
    ensures Whole(y) ==> Ceil(n as real - y) == n - Ceil(y)
    ensures !Whole(y) ==> Ceil(n as real - y) == n - Ceil(y) + 1
  {
    hide Ceil;
    var c := Ceil(y);
    if y == c as real {
      assert (n - c) as real == n as real - y;
      assert (n - c - 1) as real < n as real - y;
      CeilUnique(n as real - y, n - c);
    } else {
      assert (n - c) as real == n as real - c as real;
      assert (n - c + 1) as real == n as real - (c - 1) as real;
      CeilUnique(n as real - y, n - c + 1);
      assert y.Floor < c;
    }
  }

  lemma CeilWithin(n: nat, y: real)
    requires 0.0 < y <= n as real
    ensures 0 < Ceil(y) <= n
  {
    hide Ceil;
    assert (Ceil(y) - 1) as real < n as real;
  }

  /** ceil(n*(1-T)) in terms of ceil(n*T). */
  lemma ThresholdsOfFlat(q: Quorum)
    requires Flat(q) && q.validators != []
    ensures 0 < SliceThreshold(q) <= Size(q)
    ensures Whole(Share(q)) ==> BlockThreshold(q) == Size(q) - SliceThreshold(q)
    ensures !Whole(Share(q)) ==> BlockThreshold(q) == Size(q) - SliceThreshold(q) + 1
  {
    hide Ceil, Whole;
    var n := Size(q) as real;
    ProductPositive(n, q.threshold);
    ProductSplits(n, q.threshold);
    CeilComplement(Size(q), Share(q));
    CeilWithin(Size(q), Share(q));
  }

  lemma ProductSplits(n: real, t: real)
    requires n > 0.0 && t <= 1.0
    ensures n * (1.0 - t) == n - n * t
    ensures n * t <= n
  {
    assert n * (1.0 - t) >= 0.0;
  }

  lemma OutsideCount(q: Quorum, nodes: set<NodeID>)
    requires Flat(q)
    ensures |Members(q.validators) * (Members(q.validators) - nodes)| == |q.validators| - CountIn(q.validators, nodes)
  {
    var m := Members(q.validators);
    MembersSize(q.validators);
    CountInIsCardinality(q.validators, nodes);
    assert m * (m - nodes) == m - nodes;
    assert m == (m - nodes) + m * nodes;
  }

  lemma DualWhenNotWhole(q: Quorum, nodes: set<NodeID>)
    requires Flat(q) && q.validators != [] && !Whole(Share(q))
    ensures IsVblocking(q, nodes) <==> !IsSlice(q, Members(q.validators) - nodes)
  {
    hide BlockThreshold, SliceThreshold, Share, Whole;
    ThresholdsOfFlat(q);
    FlatSlice(q, Members(q.validators) - nodes);
    OutsideCount(q, nodes);
  }

  lemma PrefixCount(vs: seq<NodeID>, i: nat)
    requires Distinct(vs) && i <= |vs|
    ensures CountIn(vs, Members(vs[..i])) == i
  {
    CountInIsCardinality(vs, Members(vs[..i]));
    MembersSize(vs[..i]);
    assert Members(vs) * Members(vs[..i]) == Members(vs[..i]);
  }

  /** A whole n*T leaves a set that blocks although the others still form a slice. */
  lemma NotDualWhenWhole(q: Quorum)
    requires Flat(q) && q.validators != [] && Whole(Share(q))
    ensures !BlockingIsDual(q)
  {
    hide BlockThreshold, SliceThreshold, Share, Whole;
    ThresholdsOfFlat(q);
    var k := SliceThreshold(q);
    var nodes := Members(q.validators[..|q.validators| - k]);
    PrefixCount(q.validators, |q.validators| - k);
    FlatSlice(q, Members(q.validators) - nodes);
    OutsideCount(q, nodes);
    if k == |q.validators| {
      assert nodes == {};
    }
    assert IsVblocking(q, nodes) && IsSlice(q, Members(q.validators) - nodes);
  }

  /** For a non-empty flat quorum the duality holds exactly when n*T is not a whole number. */
  lemma DualityExactly(q: Quorum)
    requires Flat(q) && q.validators != []
    ensures BlockingIsDual(q) <==> !Whole(Share(q))
  {
    if Whole(Share(q)) {
      NotDualWhenWhole(q);
    } else {
      forall nodes: set<NodeID>
        ensures IsVblocking(q, nodes) <==> !IsSlice(q, Members(q.validators) - nodes)
      {
        DualWhenNotWhole(q, nodes);
      }
    }
  }

  /******* Validation *******/

  /** What ValidateQuorum accepts: at most three levels, sane thresholds, no repeated validator. */
  predicate ValidQuorum(q: Quorum, depth: nat, extraChecks: bool) {
    && depth <= 2
    && 0.0 < q.threshold <= 1.0
    && (extraChecks ==> q.threshold >= 1.0 - q.threshold)
    && Distinct(q.validators)
    && forall i :: 0 <= i < |q.nested| ==> ValidQuorum(q.nested[i], depth + 1, extraChecks)
  }

  /** ValidateQuorum. */
  method ValidateQuorum(q: Quorum, depth: nat, extraChecks: bool) returns (ok: bool)
    ensures ok == ValidQuorum(q, depth, extraChecks)
    decreases q
  {
    if depth > 2 || q.threshold <= 0.0 || q.threshold > 1.0 {
      return false;
    }
    if extraChecks && q.threshold < 1.0 - q.threshold {
      return false;
    }
    var nodes: set<NodeID> := {};
    for i := 0 to |q.validators|
      invariant nodes == Members(q.validators[..i])
      invariant Distinct(q.validators[..i])
    {
      var v := q.validators[i];
      if v in nodes {
        var j :| 0 <= j < i && q.validators[j] == v;
        return false;
      }
      nodes := nodes + {v};
    }
    for i := 0 to |q.nested|
      invariant forall j :: 0 <= j < i ==> ValidQuorum(q.nested[j], depth + 1, extraChecks)
    {
      var nestedOk := ValidateQuorum(q.nested[i], depth + 1, extraChecks);
      if !nestedOk {
        return false;
      }
    }
    return true;
  }
}
