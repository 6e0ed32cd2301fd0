/** Options, ballots and the comparisons of consensus/util.go. */
module Common {
  datatype Option<+T> = None | Some(value: T)
}

/**
 Ballots and their order.

 Node identifiers, quorum hashes and consensus values are strings that the protocol only
 compares; a number stands for each of them, ordered as the strings are, with 0 for the
 empty string. Values arrive in messages of limited length, so there are finitely many:
 MAX_VALUE is the last of them, and nothing at all is known about how large it is.
 */
module Ballots {
  import opened Common

  const MAX_COUNTER: nat := 0xFFFF_FFFF
  const MAX_VALUE: nat

  type NodeID = nat
  type Hash = nat
  type Counter = n: nat | n <= MAX_COUNTER
  type Value = v: nat | v <= MAX_VALUE

  datatype Ballot = Ballot(counter: Counter, value: Value)

  /** What Reset() leaves behind: not nil, but a ballot of zeros. */
  const ZERO: Ballot := Ballot(0, 0)

  /** compareBallots: nil first, then by counter, then by value. */
  function Compare(l: Option<Ballot>, r: Option<Ballot>): (c: int)
    ensures c == 0 <==> l == r
  {
    if l.None? then (if r.None? then 0 else -1)
    else if r.None? then 1
    else if l.value.counter < r.value.counter then -1
    else if l.value.counter > r.value.counter then 1
    else if l.value.value < r.value.value then -1
    else if l.value.value > r.value.value then 1
    else 0
  }

  /** compatibleBallots: both present and of one value. */
  predicate Compatible(l: Option<Ballot>, r: Option<Ballot>) {
    l.Some? && r.Some? && l.value.value == r.value.value
  }

  predicate LessAndCompatible(l: Option<Ballot>, r: Option<Ballot>) {
    Compare(l, r) <= 0 && Compatible(l, r)
  }

  predicate LessAndIncompatible(l: Option<Ballot>, r: Option<Ballot>) {
    Compare(l, r) <= 0 && !Compatible(l, r)
  }

  /** The order of BallotSlice, which sorts candidates highest first. */
  predicate Above(a: Ballot, b: Ballot) {
    Compare(Some(a), Some(b)) > 0
  }

  predicate Larger(a: Counter, b: Counter) {
    a > b
  }
}

/** Sets laid out as descending lists, which is how the source walks candidates and counters. */
module Sorting {
  ghost predicate StrictOrder<T(!new)>(gt: (T, T) -> bool) {
    && (forall x :: !gt(x, x))
    && (forall x, y, z :: gt(x, y) && gt(y, z) ==> gt(x, z))
    && (forall x, y :: x != y ==> gt(x, y) || gt(y, x))
  }

  ghost predicate Descending<T>(s: seq<T>, gt: (T, T) -> bool) {
    forall i, j :: 0 <= i < j < |s| ==> gt(s[i], s[j])
  }

  ghost predicate Greatest<T>(m: T, xs: set<T>, gt: (T, T) -> bool) {
    m in xs && forall x :: x in xs && x != m ==> gt(m, x)
  }

  /** Every non-empty finite set has a greatest element. */
  lemma {:induction false} GreatestExists<T(!new)>(xs: set<T>, gt: (T, T) -> bool)
    requires StrictOrder(gt) && xs != {}
    ensures exists m :: Greatest(m, xs, gt)
  {
    var e :| e in xs;
    var rest := xs - {e};
    if rest == {} {
      assert xs == {e};
      assert Greatest(e, xs, gt);
    } else {
      GreatestExists(rest, gt);
      var n :| Greatest(n, rest, gt);
      assert Greatest(if gt(n, e) then n else e, xs, gt);
    }
  }

  /** The list that sorting a set in descending order gives. */
  ghost function SortDesc<T(!new)>(xs: set<T>, gt: (T, T) -> bool): (s: seq<T>)
    requires StrictOrder(gt)
    ensures Descending(s, gt)
    ensures forall x :: x in s <==> x in xs
    ensures |s| == |xs|
  {
    if xs == {} then []
    else
      GreatestExists(xs, gt);
      var m :| Greatest(m, xs, gt);
      [m] + SortDesc(xs - {m}, gt)
  }

  /** There is only one such list, so any correct sort produces it. */
  lemma {:induction false} DescendingUnique<T(!new)>(s: seq<T>, t: seq<T>, gt: (T, T) -> bool)
    requires StrictOrder(gt) && Descending(s, gt) && Descending(t, gt)
    requires forall x :: x in s <==> x in t
    ensures s == t
  {
    if t != [] {
      assert t[0] in t && t[0] in s;
    }
    if s != [] {
      assert s[0] in s && s[0] in t;
      assert t[0] in t && t[0] in s;
      assert s[0] == t[0];
      forall x ensures x in s[1..] <==> x in t[1..] {
        if x in s[1..] { assert x in s && gt(s[0], x); }
        if x in t[1..] { assert x in t && gt(t[0], x); }
      }
      DescendingUnique(s[1..], t[1..], gt);
      assert s == [s[0]] + s[1..] && t == [t[0]] + t[1..];
    }
  }

  lemma SpliceDescends<T(!new)>(s: seq<T>, i: nat, x: T, gt: (T, T) -> bool)
    requires StrictOrder(gt) && Descending(s, gt) && i <= |s|
    requires (forall j :: 0 <= j < i ==> gt(s[j], x)) && forall j :: i <= j < |s| ==> gt(x, s[j])
    ensures Descending(s[..i] + [x] + s[i..], gt)
  {
    hide StrictOrder;
    var t := s[..i] + [x] + s[i..];
    assert forall j :: 0 <= j < |t| ==> t[j] == if j < i then s[j] else if j == i then x else s[j - 1];
  }

  lemma SpliceHolds<T>(s: seq<T>, i: nat, x: T)
    requires i <= |s|
    ensures forall y :: y in s[..i] + [x] + s[i..] <==> y in s || y == x
  {
    assert s == s[..i] + s[i..];
  }

  /** One insertion of a sort. */
  method InsertDesc<T(==, !new)>(s: seq<T>, x: T, gt: (T, T) -> bool) returns (t: seq<T>)
    requires StrictOrder(gt) && Descending(s, gt) && x !in s
    ensures Descending(t, gt) && forall y :: y in t <==> y in s || y == x
  {
    var i := 0;
    while i < |s| && gt(s[i], x)
      invariant 0 <= i <= |s|
      invariant forall j :: 0 <= j < i ==> gt(s[j], x)
    {
      i := i + 1;
    }
    forall j | i <= j < |s| ensures gt(x, s[j]) {
      assert s[j] in s && s[i] in s;
    }
    hide StrictOrder, Descending;
    SpliceDescends(s, i, x, gt);
    SpliceHolds(s, i, x);
    t := s[..i] + [x] + s[i..];
  }

  /** Sorts a set the way sort.Sort lays out the candidates and the counters. */
  method SortSet<T(==, !new)>(xs: set<T>, gt: (T, T) -> bool) returns (s: seq<T>)
    requires StrictOrder(gt)
    ensures s == SortDesc(xs, gt)
  {
    s := [];
    var rest := xs;
    while rest != {}
      invariant rest <= xs
      invariant Descending(s, gt) && forall y :: y in s <==> y in xs - rest
    {
      var x :| x in rest;
      s := InsertDesc(s, x, gt);
      rest := rest - {x};
    }
    DescendingUnique(s, SortDesc(xs, gt), gt);
  }
}
