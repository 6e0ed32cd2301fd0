/** The nomination protocol of a decree (consensus/decree.go). */
module Nominations {
  import opened Common
  import opened Ballots
  import opened Quorums
  import opened Federated

  /** A nomination. The order of its lists is never looked at; their lengths are. */
  datatype Nomination = Nomination(votes: multiset<Value>, accepts: multiset<Value>, hash: Hash)

  /**
   The nomination state of a decree. `combine` is combineCandidates, which may fail; `sent` is the
   statement channel and `composed` the values handed to the ballot protocol. `halted` says that the
   process has stopped.
   */
  datatype State = State(
    node: NodeID, quorum: Quorum, hash: Hash, quorums: map<Hash, Quorum>, valid: set<Value>,
    combine: set<Value> -> Option<Value>,
    started: bool,
    votes: set<Value>, accepts: set<Value>, candidates: set<Value>,
    nominations: map<NodeID, Nomination>, latest: Option<Nomination>,
    sent: seq<Nomination>, composed: seq<Value>, halted: bool)

  /******* Age *******/

  function Elements(m: multiset<Value>): set<Value> {
    set v | v in m
  }

  /** isProperSubset, which gives up early on a longer list even if it repeats itself. */
  predicate ProperSubset(a: multiset<Value>, b: multiset<Value>) {
    |a| <= |b| && Elements(a) < Elements(b)
  }

  /** isNewerNomination. */
  predicate IsNewer(a: Option<Nomination>, b: Nomination) {
    a.None? || ProperSubset(a.value.votes, b.votes) || ProperSubset(a.value.accepts, b.accepts)
  }

  /******* Federated voting on values *******/

  function Voters(s: State, v: Value): set<NodeID> {
    set k | k in s.nominations && v in s.nominations[k].votes
  }

  function Acceptors(s: State, v: Value): set<NodeID> {
    set k | k in s.nominations && v in s.nominations[k].accepts
  }

  function SlicesOf(s: State): Slices {
    map k | k in s.nominations && s.nominations[k].hash in s.quorums && s.nominations[k].hash != 0 ::
      s.quorums[s.nominations[k].hash]
  }

  /** The nodes whose nomination names a quorum that the validator does not have. */
  function Unknown(s: State, nodes: set<NodeID>): set<NodeID> {
    set k | k in nodes && k in s.nominations && s.nominations[k].hash != 0 && s.nominations[k].hash !in s.quorums
  }

  /** Looking up such a quorum stops the process. A blocking set of voters is accepted before any
      quorum is looked up. */
  predicate AcceptStops(s: State, v: Value) {
    !IsVblocking(s.quorum, Voters(s, v)) && Unknown(s, Voters(s, v) + Acceptors(s, v)) != {}
  }

  predicate RatifyStops(s: State, v: Value) {
    Unknown(s, Acceptors(s, v)) != {}
  }

  predicate AcceptsValue(s: State, v: Value) {
    Accepts(s.quorum, SlicesOf(s), Voters(s, v), Acceptors(s, v))
  }

  predicate RatifiesValue(s: State, v: Value) {
    Ratifies(s.quorum, SlicesOf(s), Acceptors(s, v))
  }

  /******* promoteVotes *******/

  function Promotable(s: State, nom: Nomination): set<Value> {
    set v | v in nom.votes && v !in s.accepts && AcceptsValue(s, v) && v in s.valid
  }

  function Ratifiable(s: State, nom: Nomination): set<Value> {
    set v | v in nom.accepts && v !in s.candidates && RatifiesValue(s, v)
  }

  lemma InPromotable(s: State, nom: Nomination, v: Value)
    ensures v in Promotable(s, nom) <==> v in nom.votes && v !in s.accepts && AcceptsValue(s, v) && v in s.valid
  {}

  lemma OneMoreSeen(all: set<Value>, seen: set<Value>, v: Value, added: bool, base: set<Value>, next: set<Value>)
    requires (added ==> v in all) && (v in all && !added ==> v in seen)
    requires next == base + all * seen + if added then {v} else {}
    ensures next == base + all * (seen + {v})
    ensures all * (seen + {v}) != {} <==> all * seen != {} || added
  {
    assert all * (seen + {v}) == all * seen + if added then {v} else {};
    if added {
      assert v in all * (seen + {v});
    }
  }

  lemma PromotableIsVoted(s: State, nom: Nomination)
    ensures forall v :: v in Promotable(s, nom) ==> v in nom.votes && v !in s.accepts
  {}

  lemma InRatifiable(s: State, nom: Nomination, v: Value)
    ensures v in Ratifiable(s, nom) <==> v in nom.accepts && v !in s.candidates && RatifiesValue(s, v)
  {}

  lemma RatifiableIsAccepted(s: State, nom: Nomination)
    ensures forall v :: v in Ratifiable(s, nom) ==> v in nom.accepts
  {}

  /** One of the votes or acceptances that promoteVotes looks into stops the process. */
  predicate PromoteStops(s: State, nom: Nomination) {
    || (exists v :: v in nom.votes && v !in s.accepts && AcceptStops(s, v))
    || (exists v :: v in nom.accepts && v !in s.candidates && RatifyStops(s, v))
  }

  lemma SameRatifiable(s: State, t: State, nom: Nomination)
    requires t == s.(votes := t.votes, accepts := t.accepts)
    ensures Ratifiable(t, nom) == Ratifiable(s, nom)
    ensures forall v :: RatifyStops(t, v) <==> RatifyStops(s, v)
  {
    hide Ratifies;
    assert SlicesOf(t) == SlicesOf(s);
    assert forall v :: Acceptors(t, v) == Acceptors(s, v);
  }

  /** Voting depends on the nominations and the quorums alone. */
  lemma SameVoting(s: State, t: State, v: Value)
    requires t == s.(votes := t.votes, accepts := t.accepts, candidates := t.candidates, halted := t.halted)
    ensures SlicesOf(t) == SlicesOf(s)
    ensures AcceptStops(t, v) == AcceptStops(s, v) && AcceptsValue(t, v) == AcceptsValue(s, v)
    ensures RatifyStops(t, v) == RatifyStops(s, v) && RatifiesValue(t, v) == RatifiesValue(s, v)
  {
    hide Accepts, Ratifies, IsVblocking;
    assert SlicesOf(t) == SlicesOf(s);
    assert Voters(t, v) == Voters(s, v) && Acceptors(t, v) == Acceptors(s, v);
    assert Unknown(t, Acceptors(t, v)) == Unknown(s, Acceptors(s, v));
    assert Unknown(t, Voters(t, v) + Acceptors(t, v)) == Unknown(s, Voters(s, v) + Acceptors(s, v));
  }

  function Promote(s: State, nom: Nomination): State {
    var more := Promotable(s, nom);
    s.(votes := s.votes + more, accepts := s.accepts + more, candidates := s.candidates + Ratifiable(s, nom))
  }

  /******* The two lists of a nomination *******/

  predicate Inv(s: State) {
    s.accepts <= s.votes
  }

  /** No quorum that is named has a nested threshold of one. */
  predicate Monotone(s: State) {
    NestedBelowOne(s.quorum) && forall h :: h in s.quorums ==> NestedBelowOne(s.quorums[h])
  }

  /** Everything the nomination accepts is either accepted here too or can be accepted now. */
  predicate Sound(s: State, nom: Nomination) {
    forall a :: a in nom.accepts ==> a in s.accepts || (a in nom.votes && a in s.valid)
  }

  /** A value ratified from the acceptors is accepted as well. */
  lemma RatifiedIsAccepted(s: State, v: Value)
    requires Monotone(s) && RatifiesValue(s, v)
    ensures AcceptsValue(s, v)
  {
    RatifyImpliesAccept(s.quorum, SlicesOf(s), Voters(s, v), Acceptors(s, v));
  }

  /** Candidates stay within the accepted values exactly when the nomination is sound on the
      values it makes candidates. */
  lemma CandidatesAcceptedExactly(s: State, nom: Nomination)
    requires Monotone(s) && s.candidates <= s.accepts
    ensures Promote(s, nom).candidates <= Promote(s, nom).accepts
       <==> forall a :: a in Ratifiable(s, nom) ==> a in s.accepts || (a in nom.votes && a in s.valid)
  {
    var t := Promote(s, nom);
    forall a | a in Ratifiable(s, nom)
      ensures a in t.accepts <==> a in s.accepts || (a in nom.votes && a in s.valid)
    {
      RatifiedIsAccepted(s, a);
    }
  }

  /******* The re-entrant part *******/

  function Unaccepted(s: State): set<Value> {
    set v: Value | 0 <= v <= MAX_VALUE && v !in s.accepts
  }

  lemma MoreAccepted(s: State, t: State)
    requires s.accepts < t.accepts
    ensures Unaccepted(t) < Unaccepted(s)
  {
    var x :| x in t.accepts && x !in s.accepts;
    assert x in Unaccepted(s) && x !in Unaccepted(t);
  }

  function Store(s: State, from: NodeID, nom: Nomination): State {
    var known := if from in s.nominations then Some(s.nominations[from]) else None;
    if IsNewer(known, nom) then s.(nominations := s.nominations[from := nom]) else s
  }

  /** Values are only ever added, and the candidates stay accepted if they were. */
  ghost predicate Grows(s: State, t: State) {
    && t.quorum == s.quorum && t.quorums == s.quorums && t.valid == s.valid && t.node == s.node && t.hash == s.hash
    && t.combine == s.combine && t.started == s.started
    && s.votes <= t.votes && s.accepts <= t.accepts && s.candidates <= t.candidates
    && s.sent <= t.sent && s.composed <= t.composed
  }

  datatype Outcome = Outcome(s: State, ok: bool)

  /** recvNomination. */
  function RecvNomination(s: State, from: NodeID, nom: Nomination): (o: Outcome)
    requires Inv(s) && !s.halted
    ensures Inv(o.s) && Grows(s, o.s)
    ensures Monotone(s) && s.candidates <= s.accepts && Sound(s, nom) ==> o.s.candidates <= o.s.accepts
    decreases Unaccepted(s), 0
  {
    if |nom.votes| + |nom.accepts| == 0 then Outcome(s, false)
    else
      var stored := Store(s, from, nom);
      if !s.started then Outcome(stored, true)
      else if PromoteStops(stored, nom) then Outcome(stored.(halted := true), false)
      else
        var t := Promote(stored, nom);
        assert Monotone(s) && s.candidates <= s.accepts && Sound(s, nom) ==> t.candidates <= t.accepts by {
          if Monotone(s) && s.candidates <= s.accepts && Sound(s, nom) {
            CandidatesAcceptedExactly(stored, nom);
          }
        }
        var u := if t.accepts != stored.accepts then
                   MoreAccepted(s, t);
                   SendNomination(t)
                 else t;
        if u.halted then Outcome(u, false)
        else if t.candidates == stored.candidates then Outcome(u, true)
        else
          var value := u.combine(u.candidates);
          if value.None? then Outcome(u, false)
          else Outcome(u.(composed := u.composed + [value.value]), true)
  }

  /** sendNomination: the decree receives its own nomination before it sends it. */
  function SendNomination(s: State): (t: State)
    requires Inv(s) && !s.halted
    ensures Inv(t) && Grows(s, t)
    ensures Monotone(s) && s.candidates <= s.accepts ==> t.candidates <= t.accepts
    decreases Unaccepted(s), 1
  {
    var nom := Nomination(multiset(s.votes), multiset(s.accepts), s.hash);
    var o := RecvNomination(s, s.node, nom);
    if o.ok && IsNewer(o.s.latest, nom) then o.s.(latest := Some(nom), sent := o.s.sent + [nom]) else o.s
  }

  /******* Nominate *******/

  /** The valid votes of a leader that are not yet voted for. */
  function NewVotes(s: State, nom: Nomination): set<Value> {
    set v | v in nom.votes && v in s.valid && v !in s.votes
  }

  ghost predicate Heaviest(v: Value, vs: set<Value>, weigh: Value -> nat) {
    v in vs && weigh(v) > 0 && forall w :: w in vs ==> weigh(w) <= weigh(v)
  }

  /** getConsensusValue: a new vote with the largest hash. Hashes of zero and the empty value are passed
      over; which of several with that hash it is depends on the order of the list. */
  ghost predicate IsNewVote(s: State, nom: Nomination, weigh: Value -> nat, vote: Option<Value>) {
    match vote
    case Some(v) => v != 0 && Heaviest(v, NewVotes(s, nom), weigh)
    case None => Heaviest(0, NewVotes(s, nom), weigh) || forall v :: v in NewVotes(s, nom) ==> weigh(v) == 0
  }

  /** What one leader adds to the votes: the own value, or a vote of its nomination. */
  ghost predicate IsPick(s: State, curr: Value, leader: NodeID, weigh: Value -> nat, pick: Option<Value>) {
    if leader == s.node then pick == if curr in s.votes then None else Some(curr)
    else if leader in s.nominations then IsNewVote(s, s.nominations[leader], weigh, pick)
    else pick == None
  }

  function Chosen(picks: seq<Option<Value>>): set<Value> {
    set i | 0 <= i < |picks| && picks[i].Some? :: picks[i].value
  }

  /** The loop over the leaders of the round, in whatever order they come: what each adds given the others. */
  ghost predicate ArePicks(s: State, curr: Value, leaders: seq<NodeID>, weigh: Value -> nat, picks: seq<Option<Value>>) {
    && |picks| == |leaders|
    && forall i :: 0 <= i < |picks| ==>
                     IsPick(s.(votes := s.votes + Chosen(picks[..i])), curr, leaders[i], weigh, picks[i])
  }

  lemma OneMorePick(s: State, curr: Value, leaders: seq<NodeID>, weigh: Value -> nat, picks: seq<Option<Value>>,
                    leader: NodeID, pick: Option<Value>)
    requires ArePicks(s, curr, leaders, weigh, picks)
    requires IsPick(s.(votes := s.votes + Chosen(picks)), curr, leader, weigh, pick)
    ensures ArePicks(s, curr, leaders + [leader], weigh, picks + [pick])
    ensures Chosen(picks + [pick]) == Chosen(picks) + if pick.Some? then {pick.value} else {}
  {
    hide IsPick;
    var more := picks + [pick];
    assert more[..|picks|] == picks;
    assert forall i :: 0 <= i < |picks| ==> more[..i] == picks[..i];
    assert more[|picks|] == pick;
    assert forall i :: 0 <= i < |picks| ==> more[i] == picks[i];
  }

  /** What a round adds to the votes; the code picks no vote that it has (PicksAreNew). */
  function Additions(s: State, picks: seq<Option<Value>>): set<Value> {
    Chosen(picks) - s.votes
  }

  /** Nominate, for the first time or again: what the leaders add is sent. */
  function Nominate(s: State, again: bool, picks: seq<Option<Value>>): (t: State)
    requires Inv(s) && !s.halted
    ensures Inv(t) && t.quorum == s.quorum && t.quorums == s.quorums && s.votes <= t.votes
    ensures Monotone(s) && s.candidates <= s.accepts ==> t.candidates <= t.accepts
  {
    if again && !s.started then s
    else
      var more := Additions(s, picks);
      var u := s.(started := true, votes := s.votes + more);
      if more == {} then u else SendNomination(u)
  }

  /** Only new votes are added, and each is the own value or a valid vote of a leader; none are added only
      if the leaders have none to give. */
  lemma PicksAreNew(s: State, curr: Value, leaders: seq<NodeID>, weigh: Value -> nat, picks: seq<Option<Value>>)
    requires ArePicks(s, curr, leaders, weigh, picks)
    ensures Chosen(picks) !! s.votes
    ensures forall v :: v in Chosen(picks) ==>
              || (v == curr && s.node in leaders)
              || (v in s.valid && exists l :: l in leaders && l in s.nominations && v in s.nominations[l].votes)
    ensures Chosen(picks) == {} ==> forall l :: l in leaders ==> IsPick(s, curr, l, weigh, None)
  {
    forall v | v in Chosen(picks)
      ensures v !in s.votes
      ensures || (v == curr && s.node in leaders)
              || (v in s.valid && exists l :: l in leaders && l in s.nominations && v in s.nominations[l].votes)
    {
      var i :| 0 <= i < |picks| && picks[i].Some? && picks[i].value == v;
      assert leaders[i] in leaders;
    }
    if Chosen(picks) == {} {
      forall l | l in leaders ensures IsPick(s, curr, l, weigh, None) {
        var i :| 0 <= i < |leaders| && leaders[i] == l;
        NothingChosen(s, picks, i);
      }
    }
  }

  lemma PicksAdd(s: State, curr: Value, leaders: seq<NodeID>, weigh: Value -> nat, picks: seq<Option<Value>>)
    requires ArePicks(s, curr, leaders, weigh, picks)
    ensures Additions(s, picks) == Chosen(picks)
  {
    PicksAreNew(s, curr, leaders, weigh, picks);
  }

  lemma NothingChosen(s: State, picks: seq<Option<Value>>, i: nat)
    requires i < |picks| && Chosen(picks) == {}
    ensures picks[i] == None && s.(votes := s.votes + Chosen(picks[..i])) == s
  {
    assert forall j :: 0 <= j < |picks| && picks[j].Some? ==> picks[j].value in Chosen(picks);
    assert Chosen(picks[..i]) == {};
    assert s.votes + {} == s.votes;
  }

  /******* Runs *******/

  datatype Input =
    | Heard(from: NodeID, nom: Nomination)
    | Nominated(again: bool, picks: seq<Option<Value>>)
    | Stopped
    | Learned(quorums: map<Hash, Quorum>, valid: set<Value>, combine: set<Value> -> Option<Value>)

  /** A nomination accepts only what it votes for, and only valid values; a quorum that is learned has no
      nested threshold of one. */
  predicate Careful(s: State, input: Input) {
    match input
    case Heard(_, nom) => Elements(nom.accepts) <= Elements(nom.votes) && Elements(nom.accepts) <= s.valid
    case Learned(quorums, _, _) => forall h :: h in quorums ==> NestedBelowOne(quorums[h])
    case _ => true
  }

  function After(s: State, input: Input): (t: State)
    requires Inv(s)
    ensures Inv(t)
  {
    if s.halted then s
    else
      match input
      case Heard(from, nom) => RecvNomination(s, from, nom).s
      case Nominated(again, picks) => Nominate(s, again, picks)
      case Stopped => s.(started := false)
      case Learned(quorums, valid, combine) => s.(quorums := quorums + s.quorums, valid := valid, combine := combine)
  }

  function AfterAll(s: State, inputs: seq<Input>): (t: State)
    requires Inv(s)
    ensures Inv(t)
  {
    if inputs == [] then s else After(AfterAll(s, inputs[..|inputs|-1]), inputs[|inputs|-1])
  }

  ghost predicate AllCareful(s: State, inputs: seq<Input>)
    requires Inv(s)
  {
    forall i :: 0 <= i < |inputs| ==> Careful(AfterAll(s, inputs[..i]), inputs[i])
  }

  lemma OneInput(s: State, input: Input)
    requires Inv(s) && Monotone(s) && s.candidates <= s.accepts && Careful(s, input)
    ensures var t := After(s, input);
            t.candidates <= t.accepts && Monotone(t)
  {
    if input.Heard? {
      assert forall a :: a in input.nom.accepts ==> a in Elements(input.nom.accepts);
      assert Sound(s, input.nom);
    }
  }

  /** On every run accepted values are voted for, and with careful peers candidates are accepted. */
  lemma {:induction false} CandidatesAcceptedVoted(s: State, inputs: seq<Input>)
    requires Inv(s) && Monotone(s) && s.candidates <= s.accepts && AllCareful(s, inputs)
    ensures var t := AfterAll(s, inputs);
            t.candidates <= t.accepts <= t.votes && Monotone(t)
  {
    if inputs != [] {
      var n := |inputs| - 1;
      var init := inputs[..n];
      forall i | 0 <= i < n ensures Careful(AfterAll(s, init[..i]), init[i]) {
        assert init[..i] == inputs[..i];
      }
      CandidatesAcceptedVoted(s, init);
      OneInput(AfterAll(s, init), inputs[n]);
    }
  }

  /******* What is sent *******/

  /** The latest nomination is the last one sent and says no more than the present one would. */
  ghost predicate Kept(s: State) {
    match s.latest
    case None => s.sent == []
    case Some(nom) =>
      && s.sent != [] && s.sent[|s.sent|-1] == nom
      && nom.votes <= multiset(s.votes) && nom.accepts <= multiset(s.accepts) && nom.hash == s.hash
  }

  /** The last nomination sent carries exactly the present votes and accepted values. */
  ghost predicate Published(s: State) {
    || (s.votes == {} && s.accepts == {})
    || (s.sent != [] && s.sent[|s.sent|-1] == Own(s))
  }

  function Own(s: State): Nomination {
    Nomination(multiset(s.votes), multiset(s.accepts), s.hash)
  }

  /** Of two lists without repetition the smaller is the same or a proper subset. */
  lemma SameOrProper(a: multiset<Value>, vs: set<Value>)
    requires a <= multiset(vs)
    ensures a == multiset(vs) || ProperSubset(a, multiset(vs))
    ensures !ProperSubset(multiset(vs), a)
  {
    var b := multiset(vs);
    assert b == a + (b - a);
    assert forall v :: v in a <==> v in Elements(a);
    assert forall v :: v in b <==> v in Elements(b);
    if Elements(a) == Elements(b) {
      assert forall v :: a[v] == b[v];
    }
  }

  /** Nothing that is sent, or would be, has changed. */
  predicate SameVotes(s: State, t: State) {
    t.votes == s.votes && t.accepts == s.accepts && t.sent == s.sent && t.latest == s.latest
  }

  lemma PromoteOnly(s: State, nom: Nomination)
    ensures var t := Promote(s, nom);
            t == s.(votes := t.votes, accepts := t.accepts, candidates := t.candidates)
  {}

  lemma PromoteKeeps(s: State, nom: Nomination)
    requires Inv(s) && Kept(s)
    ensures var t := Promote(s, nom);
            && t == s.(votes := t.votes, accepts := t.accepts, candidates := t.candidates)
            && Inv(t) && Kept(t) && s.votes <= t.votes && s.accepts <= t.accepts && (t.accepts == s.accepts ==> t.votes == s.votes)
  {
    hide AcceptsValue, RatifiesValue;
    var t := Promote(s, nom);
    assert multiset(s.votes) <= multiset(t.votes) && multiset(s.accepts) <= multiset(t.accepts);
    if t.accepts == s.accepts {
      assert Promotable(s, nom) == {} by {
        assert forall v :: v in Promotable(s, nom) ==> v in t.accepts && v !in s.accepts;
      }
      assert t.votes == s.votes;
    }
  }

  /** What has grown has not been sent. */
  lemma GrownIsUnsent(s: State, t: State)
    requires Kept(s) && s.votes <= t.votes && s.accepts <= t.accepts && t.latest == s.latest && t.sent == s.sent
    requires t.votes != s.votes || t.accepts != s.accepts
    ensures Kept(s.(votes := t.votes, accepts := t.accepts)) && !Published(t)
  {
    assert multiset(s.votes) <= multiset(t.votes) && multiset(s.accepts) <= multiset(t.accepts);
    if s.latest.Some? {
      NewInMultiset(s.votes, t.votes, s.latest.value.votes);
      NewInMultiset(s.accepts, t.accepts, s.latest.value.accepts);
    }
  }

  lemma NewInMultiset(a: set<Value>, b: set<Value>, m: multiset<Value>)
    requires a <= b && m <= multiset(a)
    ensures a != b ==> m != multiset(b)
  {
    if a != b {
      var v :| v in b && v !in a;
      assert v in multiset(b) && v !in multiset(a);
    }
  }

  /** Receiving the own nomination, and those that it leads to, ends with a new candidate. */
  ghost predicate Loud(s: State)
    decreases Unaccepted(s)
  {
    && s.started && s.votes + s.accepts != {}
    && var stored := Store(s, s.node, Own(s));
       var t := Promote(stored, Own(s));
       if t.accepts != stored.accepts then MoreAccepted(s, t); Loud(t) else t.candidates != stored.candidates
  }

  /** Receiving when nothing more is accepted. */
  lemma AcceptsNothing(s: State, from: NodeID, nom: Nomination)
    requires Inv(s) && !s.halted && s.started && |nom.votes| + |nom.accepts| != 0
    requires var stored := Store(s, from, nom);
             !PromoteStops(stored, nom) && Promote(stored, nom).accepts == stored.accepts
    ensures var o, stored := RecvNomination(s, from, nom), Store(s, from, nom);
            var t := Promote(stored, nom);
            && o.s == t.(composed := o.s.composed)
            && (o.ok <==> t.candidates == stored.candidates || t.combine(t.candidates).Some?)
  {
    PromoteOnly(Store(s, from, nom), nom);
    hide PromoteStops, Promote, IsNewer, Monotone, Sound, Unaccepted, SendNomination;
  }

  /** The innermost receiving: nothing more is accepted. */
  lemma InnermostRecv(s: State)
    requires Inv(s) && !s.halted && Kept(s) && s.votes + s.accepts != {}
    requires s.started ==>
               var stored := Store(s, s.node, Own(s));
               !PromoteStops(stored, Own(s)) && Promote(stored, Own(s)).accepts == stored.accepts
    ensures var o := RecvNomination(s, s.node, Own(s));
            && !o.s.halted && Kept(o.s) && SameVotes(s, o.s)
            && (o.ok <==> !Loud(s) || s.combine(o.s.candidates).Some?)
  {
    OwnIsNotEmpty(s);
    if s.started {
      AcceptsNothing(s, s.node, Own(s));
      hide PromoteStops, Promote, IsNewer, Unaccepted, RecvNomination;
      PromoteKeeps(Store(s, s.node, Own(s)), Own(s));
    } else {
      hide PromoteStops, Promote, IsNewer, Unaccepted;
    }
  }

  lemma OwnIsNotEmpty(s: State)
    ensures |Own(s).votes| + |Own(s).accepts| == 0 <==> s.votes + s.accepts == {}
  {
    if s.votes + s.accepts != {} {
      var v :| v in s.votes + s.accepts;
      assert v in Own(s).votes || v in Own(s).accepts;
    }
  }

  /** An outer receiving: more is accepted, and sent before the outer sending goes on. */
  lemma OuterRecv(s: State, from: NodeID, nom: Nomination)
    requires Inv(s) && !s.halted && Kept(s) && |nom.votes| + |nom.accepts| != 0 && s.started
    requires var stored := Store(s, from, nom);
             !PromoteStops(stored, nom) && Promote(stored, nom).accepts != stored.accepts
    ensures var t := Promote(Store(s, from, nom), nom);
            && Inv(t) && !t.halted && Kept(t) && !Published(t) && s.accepts < t.accepts
            && t.node == s.node && t.hash == s.hash && t.combine == s.combine
            && var o, u := RecvNomination(s, from, nom), SendNomination(t);
               && o.s == u.(composed := o.s.composed)
               && (o.ok ==> !u.halted)
  {
    hide PromoteStops, Promote, IsNewer, Monotone, Sound, Unaccepted, SendNomination;
    var stored := Store(s, from, nom);
    PromoteKeeps(stored, nom);
    GrownIsUnsent(stored, Promote(stored, nom));
  }

  /** Sending one's nomination after receiving it. */
  lemma OwnPublishes(s: State, r: State)
    requires Kept(r) && s.votes <= r.votes && s.accepts <= r.accepts && r.hash == s.hash
    requires SameVotes(s, r) || Published(r)
    requires s.votes + s.accepts != {}
    ensures IsNewer(r.latest, Own(s)) ==> SameVotes(s, r)
    ensures !IsNewer(r.latest, Own(s)) ==> Published(r)
  {
    hide ProperSubset;
    if r.latest.Some? {
      SameOrProper(r.latest.value.votes, r.votes);
      SameOrProper(r.latest.value.accepts, r.accepts);
      if Published(r) {
        assert r.latest.value == Own(r);
        assert Own(s).votes <= Own(r).votes && Own(s).accepts <= Own(r).accepts;
        SameOrProper(Own(s).votes, r.votes);
        SameOrProper(Own(s).accepts, r.accepts);
      }
    }
  }

  /** What sending from s to t leaves told. */
  ghost predicate Told(s: State, t: State) {
    !Loud(s) || s.combine(t.candidates).Some? || (Published(s) && t.accepts == s.accepts)
  }

  /** The end of a sending, from the state that the receiving left. */
  function Finish(s: State, o: Outcome): State {
    if o.ok && IsNewer(o.s.latest, Own(s)) then o.s.(latest := Some(Own(s)), sent := o.s.sent + [Own(s)]) else o.s
  }

  lemma InnermostSend(s: State, o: Outcome)
    requires !o.s.halted && Kept(o.s) && SameVotes(s, o.s) && s.votes + s.accepts != {} && o.s.hash == s.hash
    requires o.ok <==> !Loud(s) || s.combine(o.s.candidates).Some?
    ensures var t := Finish(s, o);
            Kept(t) && (Published(t) <==> Told(s, t))
  {
    hide Loud, IsNewer;
    OwnPublishes(s, o.s);
  }

  lemma OuterSend(s: State, o: Outcome, told: bool)
    requires !o.s.halted && Kept(o.s) && s.votes <= o.s.votes && s.accepts < o.s.accepts && o.s.hash == s.hash
    requires s.votes + s.accepts != {}
    requires Published(o.s) <==> told
    ensures var t := Finish(s, o);
            Kept(t) && (Published(t) <==> told)
  {
    hide IsNewer;
    assert multiset(s.votes) <= multiset(o.s.votes) && multiset(s.accepts) <= multiset(o.s.accepts);
    NewInMultiset(s.accepts, o.s.accepts, multiset(s.accepts));
    if told {
      OwnPublishes(s, o.s);
    }
  }

  /**
   Exactly when sending tells everything. When it returns and the process has not stopped, the last
   nomination sent carries the present votes and accepted values if and only if no new candidate came up
   in the innermost receiving, or the candidates can be combined, or nothing was accepted and it did so before.
   */
  lemma SendPublishes(s: State)
    requires Inv(s) && !s.halted && Kept(s)
    ensures var t := SendNomination(s);
            t.halted || (Kept(t) && (Published(t) <==> Told(s, t)))
    decreases Unaccepted(s)
  {
    hide PromoteStops, Promote, RecvNomination, SendNomination, Loud, Finish, Inv, Kept, Published, Unaccepted;
    var nom := Own(s);
    var stored, o := Store(s, s.node, nom), RecvNomination(s, s.node, nom);
    SendIsFinish(s);
    OwnIsNotEmpty(s);
    if s.votes + s.accepts == {} || (s.started && PromoteStops(stored, nom)) {
      SendsNothing(s);
    } else if s.started && Promote(stored, nom).accepts != stored.accepts {
      var t := Promote(stored, nom);
      OuterRecv(s, s.node, nom);
      MoreAccepted(s, t);
      SendPublishes(t);
      OuterIsLoud(s);
      if !o.s.halted {
        SameIsPublished(SendNomination(t), o.s);
        OuterSend(s, o, Published(o.s));
        FinishKeeps(s, o);
      } else {
        FinishKeeps(s, o);
      }
    } else {
      InnermostRecv(s);
      InnermostSend(s, o);
    }
  }

  lemma SendIsFinish(s: State)
    requires Inv(s) && !s.halted
    ensures SendNomination(s) == Finish(s, RecvNomination(s, s.node, Own(s)))
  {
    hide RecvNomination, IsNewer;
  }

  lemma FinishKeeps(s: State, o: Outcome)
    ensures var t := Finish(s, o);
            t == o.s.(latest := t.latest, sent := t.sent)
  {
    hide IsNewer;
  }

  lemma SameIsPublished(s: State, t: State)
    requires t == s.(composed := t.composed)
    ensures Kept(t) == Kept(s) && Published(t) == Published(s)
  {}

  lemma OuterIsLoud(s: State)
    requires s.started && s.votes + s.accepts != {}
    requires var stored := Store(s, s.node, Own(s)); Promote(stored, Own(s)).accepts != stored.accepts
    ensures Loud(s) == Loud(Promote(Store(s, s.node, Own(s)), Own(s)))
  {
    hide Promote, Unaccepted, IsNewer;
  }

  /** Nothing to say, or the process stops. */
  lemma SendsNothing(s: State)
    requires Inv(s) && !s.halted && Kept(s)
    requires s.votes + s.accepts == {} || (s.started && PromoteStops(Store(s, s.node, Own(s)), Own(s)))
    ensures var t := SendNomination(s);
            t.halted || (t == s && Published(t) && !Loud(s))
  {
    OwnIsNotEmpty(s);
    hide PromoteStops, Promote, IsNewer, Unaccepted;
  }

  /** The state from which an input sends, if it does. */
  function Sending(s: State, input: Input): (u: Option<State>)
    requires Inv(s)
    ensures u.Some? ==> Inv(u.value) && u.value.halted == s.halted
  {
    match input
    case Heard(from, nom) =>
      var stored := Store(s, from, nom);
      var t := Promote(stored, nom);
      if s.halted || |nom.votes| + |nom.accepts| == 0 || !s.started || PromoteStops(stored, nom) || t.accepts == stored.accepts
      then None else Some(t)
    case Nominated(again, picks) =>
      if s.halted || (again && !s.started) || Additions(s, picks) == {} then None
      else Some(s.(started := true, votes := s.votes + Additions(s, picks)))
    case _ => None
  }

  /** The input sends, ends with a new candidate, and the candidates cannot be combined. */
  ghost predicate Muffled(s: State, input: Input)
    requires Inv(s)
  {
    var u := Sending(s, input);
    u.Some? && Loud(u.value) && s.combine(After(s, input).candidates).None?
  }

  /** A heard nomination that leads to no sending changes nothing that is sent. */
  lemma HeardQuietly(s: State, from: NodeID, nom: Nomination)
    requires Inv(s) && !s.halted && Kept(s) && Sending(s, Heard(from, nom)).None?
    ensures var t := RecvNomination(s, from, nom).s;
            t.halted || (SameVotes(s, t) && t.hash == s.hash)
  {
    hide PromoteStops, Promote, IsNewer, Monotone, Sound, Unaccepted, SendNomination;
    PromoteKeeps(Store(s, from, nom), nom);
  }

  lemma HeardPublishes(s: State, from: NodeID, nom: Nomination)
    requires Inv(s) && !s.halted && Kept(s)
    ensures var input := Heard(from, nom);
            var t := After(s, input);
            !t.halted ==>
              Kept(t) && (Published(t) <==> if Sending(s, input).Some? then !Muffled(s, input) else Published(s))
  {
    hide PromoteStops, Promote, RecvNomination, SendNomination, Loud, IsNewer, Unaccepted, Kept, Published;
    var u := Sending(s, Heard(from, nom));
    var t := RecvNomination(s, from, nom).s;
    if u.Some? {
      OuterRecv(s, from, nom);
      SendPublishes(u.value);
      SameIsPublished(SendNomination(u.value), t);
    } else {
      HeardQuietly(s, from, nom);
      if !t.halted {
        SameVotesSame(s, t);
      }
    }
  }

  lemma SameVotesSame(s: State, t: State)
    requires SameVotes(s, t) && t.hash == s.hash
    ensures Kept(t) == Kept(s) && Published(t) == Published(s)
  {}

  lemma NominatedPublishes(s: State, again: bool, picks: seq<Option<Value>>)
    requires Inv(s) && !s.halted && Kept(s)
    ensures var input := Nominated(again, picks);
            var t := After(s, input);
            !t.halted ==>
              Kept(t) && (Published(t) <==> if Sending(s, input).Some? then !Muffled(s, input) else Published(s))
  {
    hide SendNomination, Loud, Unaccepted, Kept, Published, Chosen;
    var u := Sending(s, Nominated(again, picks));
    if u.Some? {
      GrownIsUnsent(s, u.value);
      SameVotesSame(s.(votes := u.value.votes, accepts := u.value.accepts), u.value);
      SendPublishes(u.value);
    } else {
      assert s.votes + {} == s.votes;
      SameVotesSame(s, After(s, Nominated(again, picks)));
    }
  }

  /** After an input that sends, everything is told if and only if it is not muffled, whatever was told
      before; other inputs leave it as it was. */
  lemma InputPublishes(s: State, input: Input)
    requires Inv(s) && !s.halted && Kept(s)
    ensures var t := After(s, input);
            !t.halted ==>
              Kept(t) && (Published(t) <==> if Sending(s, input).Some? then !Muffled(s, input) else Published(s))
  {
    match input
    case Heard(from, nom) => HeardPublishes(s, from, nom);
    case Nominated(again, picks) => NominatedPublishes(s, again, picks);
    case Stopped => SameVotesSame(s, After(s, input));
    case Learned(_, _, _) => SameVotesSame(s, After(s, input));
  }

  lemma KeptOnRuns(s: State, inputs: seq<Input>)
    requires Inv(s) && (s.halted || Kept(s))
    ensures var t := AfterAll(s, inputs); t.halted || Kept(t)
    decreases |inputs|
  {
    hide After, Kept;
    if inputs != [] {
      var n := |inputs| - 1;
      KeptOnRuns(s, inputs[..n]);
      KeptAfter(AfterAll(s, inputs[..n]), inputs[n]);
    }
  }

  lemma KeptAfter(s: State, input: Input)
    requires Inv(s) && (s.halted || Kept(s))
    ensures var t := After(s, input); t.halted || Kept(t)
  {
    if !s.halted {
      InputPublishes(s, input);
    }
  }

  /** At the k-th time the process has stopped, or all that the node votes for and accepts has been told. */
  ghost predicate ToldAt(s: State, inputs: seq<Input>, k: nat)
    requires Inv(s) && k <= |inputs|
  {
    var t := AfterAll(s, inputs[..k]);
    t.halted || Published(t)
  }

  ghost predicate MuffledAt(s: State, inputs: seq<Input>, k: nat)
    requires Inv(s) && k < |inputs|
  {
    Muffled(AfterAll(s, inputs[..k]), inputs[k]) && !AfterAll(s, inputs[..k + 1]).halted
  }

  lemma OneMoreTold(s: State, inputs: seq<Input>, k: nat)
    requires Inv(s) && (s.halted || Kept(s)) && k < |inputs| && ToldAt(s, inputs, k)
    ensures ToldAt(s, inputs, k + 1) <==> !MuffledAt(s, inputs, k)
  {
    hide After, Kept, Published, Muffled, Sending;
    assert inputs[..k + 1][..k] == inputs[..k] && inputs[..k + 1][k] == inputs[k];
    KeptOnRuns(s, inputs[..k]);
    var r := AfterAll(s, inputs[..k]);
    assert AfterAll(s, inputs[..k + 1]) == After(r, inputs[k]);
    ToldAfter(r, inputs[k]);
  }

  lemma ToldAfter(s: State, input: Input)
    requires Inv(s) && (s.halted || (Kept(s) && Published(s)))
    ensures var t := After(s, input);
            (t.halted || Published(t)) <==> !(Muffled(s, input) && !t.halted)
  {
    if !s.halted {
      InputPublishes(s, input);
    }
  }

  /**
   On every run, at all times the last nomination sent carries exactly what the node votes for and accepts,
   unless the process has stopped, if and only if no input is muffled.
   */
  lemma {:induction false} VotesAreSent(s: State, inputs: seq<Input>)
    requires Inv(s) && (s.halted || (Kept(s) && Published(s)))
    ensures (forall k :: 0 <= k <= |inputs| ==> ToldAt(s, inputs, k))
       <==> (forall k :: 0 <= k < |inputs| ==> !MuffledAt(s, inputs, k))
  {
    hide Published, Kept, Muffled, AfterAll;
    if forall k :: 0 <= k <= |inputs| ==> ToldAt(s, inputs, k) {
      forall k | 0 <= k < |inputs| ensures !MuffledAt(s, inputs, k) {
        OneMoreTold(s, inputs, k);
      }
    }
    if forall k :: 0 <= k < |inputs| ==> !MuffledAt(s, inputs, k) {
      forall k | 0 <= k <= |inputs| ensures ToldAt(s, inputs, k) {
        ToldSoFar(s, inputs, k);
      }
    }
  }

  lemma {:induction false} ToldSoFar(s: State, inputs: seq<Input>, k: nat)
    requires Inv(s) && (s.halted || (Kept(s) && Published(s))) && k <= |inputs|
    requires forall i :: 0 <= i < |inputs| ==> !MuffledAt(s, inputs, i)
    ensures ToldAt(s, inputs, k)
  {
    hide Kept, MuffledAt, Published;
    if k == 0 {
      assert inputs[..0] == [];
    } else {
      ToldSoFar(s, inputs, k - 1);
      OneMoreTold(s, inputs, k - 1);
    }
  }

  /******* What is handed to the ballot protocol *******/

  /** From s to t the combination of the candidates is handed over exactly if there are new ones and it succeeds,
      once or more, and nothing else is. */
  ghost predicate HandsOver(s: State, t: State) {
    if t.candidates == s.candidates then t.composed == s.composed
    else
      match s.combine(t.candidates)
      case None => t.composed == s.composed
      case Some(v) => s.composed < t.composed && forall i :: |s.composed| <= i < |t.composed| ==> t.composed[i] == v
  }

  /** The candidates only grow, and the combination stays. */
  ghost predicate Widens(s: State, t: State) {
    s.candidates <= t.candidates && t.combine == s.combine
  }

  lemma HandsOverMore(s: State, t: State, u: State, v: Option<Value>)
    requires Widens(s, t) && Widens(t, u) && s.candidates != t.candidates && t.composed == s.composed
    requires HandsOver(t, u) && v == u.combine(u.candidates)
    ensures HandsOver(s, if v.None? then u else u.(composed := u.composed + [v.value]))
  {}

  lemma RecvHandsOver(s: State, from: NodeID, nom: Nomination)
    requires Inv(s) && !s.halted
    ensures var t := RecvNomination(s, from, nom).s; !t.halted ==> HandsOver(s, t)
    decreases Unaccepted(s), 0
  {
    hide PromoteStops, Promote, IsNewer, Monotone, Sound, Unaccepted, SendNomination, HandsOver;
    SameHandsOver(s);
    if |nom.votes| + |nom.accepts| != 0 {
      var stored := Store(s, from, nom);
      StoredHandsOver(s, stored);
      if s.started && !PromoteStops(stored, nom) {
        var t := Promote(stored, nom);
        PromoteOnly(stored, nom);
        PromoteGrows(stored, nom);
        SameHandsOver(t);
        if t.accepts != stored.accepts {
          MoreAccepted(s, t);
          SendHandsOver(t);
        }
        RecvEnds(s, from, nom);
      }
    }
  }

  lemma PromoteGrows(s: State, nom: Nomination)
    requires Inv(s)
    ensures var t := Promote(s, nom); Inv(t) && Widens(s, t) && s.accepts <= t.accepts
  {
    hide AcceptsValue, RatifiesValue;
  }

  lemma StoredHandsOver(s: State, stored: State)
    requires stored == s.(nominations := stored.nominations)
    ensures HandsOver(s, stored)
  {}

  lemma SameHandsOver(s: State)
    ensures HandsOver(s, s)
  {}

  /** The end of a receiving, from the state that promoting and sending left. */
  lemma RecvEnds(s: State, from: NodeID, nom: Nomination)
    requires Inv(s) && !s.halted && s.started && |nom.votes| + |nom.accepts| != 0 && !PromoteStops(Store(s, from, nom), nom)
    requires var t := Promote(Store(s, from, nom), nom);
             && Inv(t) && !t.halted && Widens(s, t)
             && (t.accepts != s.accepts ==> SendNomination(t).halted || HandsOver(t, SendNomination(t)))
    ensures var t := RecvNomination(s, from, nom).s; !t.halted ==> HandsOver(s, t)
  {
    hide PromoteStops, Promote, IsNewer, Monotone, Sound, Unaccepted, SendNomination;
    var stored := Store(s, from, nom);
    PromoteOnly(stored, nom);
    var t := Promote(stored, nom);
    var u := if t.accepts != stored.accepts then SendNomination(t) else t;
    if !u.halted && t.candidates != stored.candidates {
      HandsOverMore(s, t, u, u.combine(u.candidates));
    }
  }

  lemma SendHandsOver(s: State)
    requires Inv(s) && !s.halted
    ensures var t := SendNomination(s); !t.halted ==> HandsOver(s, t)
    decreases Unaccepted(s), 1
  {
    hide RecvNomination, IsNewer, HandsOver;
    RecvHandsOver(s, s.node, Own(s));
    var o := RecvNomination(s, s.node, Own(s));
    SentHandsOver(s, o.s, SendNomination(s));
  }

  lemma SentHandsOver(s: State, r: State, t: State)
    requires t == r.(latest := t.latest, sent := t.sent)
    ensures HandsOver(s, t) == HandsOver(s, r)
  {}

  /** Every input: new candidates are handed over if they can be combined, and nothing is handed over without. */
  lemma InputHandsOver(s: State, input: Input)
    requires Inv(s) && !s.halted
    ensures var t := After(s, input); !t.halted ==> HandsOver(s, t)
  {
    hide RecvNomination, SendNomination;
    match input
    case Heard(from, nom) => RecvHandsOver(s, from, nom);
    case Nominated(again, picks) =>
      if (!again || s.started) && Additions(s, picks) != {} {
        SendHandsOver(s.(started := true, votes := s.votes + Additions(s, picks)));
      }
    case Stopped =>
    case Learned(_, _, _) =>
  }

  /**
   On every run: after an input that makes new candidates, and as long as no more come, the last value handed to
   the ballot protocol is the combination of these candidates, or they could not be combined and nothing was
   handed over.
   */
  lemma {:induction false} CandidatesAreHandedOver(s: State, inputs: seq<Input>, i: nat, j: nat)
    requires Inv(s) && i < j <= |inputs|
    requires forall k :: i < k <= j ==> AfterAll(s, inputs[..k]).candidates == AfterAll(s, inputs[..i + 1]).candidates
    requires AfterAll(s, inputs[..i]).candidates != AfterAll(s, inputs[..i + 1]).candidates
    requires !AfterAll(s, inputs[..j]).halted
    ensures var r, t := AfterAll(s, inputs[..i]), AfterAll(s, inputs[..j]);
            match r.combine(t.candidates)
            case None => t.composed == r.composed
            case Some(v) => t.composed != [] && t.composed[|t.composed|-1] == v
    decreases j
  {
    var last := j - 1;
    assert inputs[..j][..last] == inputs[..last] && inputs[..j][last] == inputs[last];
    var before := AfterAll(s, inputs[..last]);
    assert AfterAll(s, inputs[..j]) == After(before, inputs[last]);
    hide After;
    NotHaltedBefore(before, inputs[last]);
    InputHandsOver(before, inputs[last]);
    if last > i {
      CandidatesAreHandedOver(s, inputs, i, last);
    }
  }

  lemma NotHaltedBefore(s: State, input: Input)
    requires Inv(s) && !After(s, input).halted
    ensures !s.halted
  {}

  /******* What is stored and promoted *******/

  /** The nomination that is kept of a node is replaced only by a newer one. */
  lemma StoresNewer(s: State, from: NodeID, nom: Nomination)
    requires Inv(s) && !s.halted && from != s.node
    ensures var t := Store(s, from, nom);
            && from in t.nominations
            && t.nominations[from] == (if from in s.nominations && !IsNewer(Some(s.nominations[from]), nom) then s.nominations[from] else nom)
            && forall k :: k != from ==> (k in t.nominations <==> k in s.nominations) && (k in s.nominations ==> t.nominations[k] == s.nominations[k])
  {}

  /** A nomination is newer if and only if one of its lists has all the other has and something else, and is not
      shorter, as it can be if the other repeats itself. */
  lemma NewerExactly(a: Nomination, b: Nomination)
    ensures IsNewer(Some(a), b) <==>
              || (Elements(a.votes) < Elements(b.votes) && |b.votes| >= |a.votes|)
              || (Elements(a.accepts) < Elements(b.accepts) && |b.accepts| >= |a.accepts|)
  {}

  /** A set of voters that blocks is accepted whatever quorums are known, and stops nothing. */
  lemma BlockingNeedsNoQuorum(s: State, v: Value)
    requires IsVblocking(s.quorum, Voters(s, v))
    ensures AcceptsValue(s, v) && !AcceptStops(s, v)
  {}

  /** Receiving while nomination is on: what the nomination votes for is accepted if the vote passes and it is valid,
      and what it accepts becomes a candidate if the acceptors ratify it. */
  lemma ReceivedIsPromoted(s: State, from: NodeID, nom: Nomination, v: Value)
    requires Inv(s) && !s.halted && s.started && !RecvNomination(s, from, nom).s.halted
    ensures var t, stored := RecvNomination(s, from, nom).s, Store(s, from, nom);
            && (v in nom.votes && AcceptsValue(stored, v) && v in s.valid ==> v in t.accepts)
            && (v in nom.accepts && RatifiesValue(stored, v) ==> v in t.candidates)
  {
    var stored := Store(s, from, nom);
    InPromotable(stored, nom, v);
    InRatifiable(stored, nom, v);
    hide PromoteStops, AcceptsValue, RatifiesValue, IsNewer, Monotone, Sound, Unaccepted, Promotable, Ratifiable;
    if v in nom.votes || v in nom.accepts {
      assert |nom.votes| + |nom.accepts| != 0;
    }
  }

  /** Who accepts a value without voting for it does not help to block. */
  lemma OnlyVotersBlock(s: State, v: Value)
    requires forall k :: k in s.nominations ==> v !in s.nominations[k].votes
    ensures Voters(s, v) == {} && (AcceptsValue(s, v) <==> IsVblocking(s.quorum, {}) || RatifiesValue(s, v))
  {
    assert {} + Acceptors(s, v) == Acceptors(s, v);
  }

  /** A nomination without a quorum hash stops nothing, and its node is never kept. */
  lemma NoHashCountsNothing(s: State, k: NodeID, nodes: set<NodeID>)
    requires k in s.nominations && s.nominations[k].hash == 0
    ensures k !in Unknown(s, nodes) && k !in Prune(SlicesOf(s), nodes)
  {}

  /** A round that goes ahead turns nomination on and votes for what it picked. */
  lemma RoundStarts(s: State, again: bool, picks: seq<Option<Value>>)
    requires Inv(s) && !s.halted && (!again || s.started)
    ensures var t := Nominate(s, again, picks); t.started && s.votes + Chosen(picks) <= t.votes
  {
    hide SendNomination;
  }
}

/** The nomination fields of the decree object and the methods that update them. */
module Nominators {
  import opened Common
  import opened Ballots
  import opened Quorums
  import opened Federated
  import opened Nominations

  class Nominator {
    const node: NodeID
    const quorum: Quorum
    const hash: Hash
    var combine: set<Value> -> Option<Value>
    var quorums: map<Hash, Quorum>
    var valid: set<Value>
    var started: bool
    var votes: set<Value>
    var accepts: set<Value>
    var candidates: set<Value>
    var nominations: map<NodeID, Nomination>
    var latest: Option<Nomination>
    var sent: seq<Nomination>
    var composed: seq<Value>
    var halted: bool

    ghost function St(): State
      reads this
    {
      State(node, quorum, hash, quorums, valid, combine, started, votes, accepts, candidates,
            nominations, latest, sent, composed, halted)
    }

    constructor (node: NodeID, quorum: Quorum, hash: Hash, quorums: map<Hash, Quorum>, valid: set<Value>,
                 combine: set<Value> -> Option<Value>)
      ensures St() == State(node, quorum, hash, quorums, valid, combine, false, {}, {}, {}, map[], None, [], [], false)
    {
      this.node, this.quorum, this.hash, this.combine := node, quorum, hash, combine;
      this.quorums, this.valid, started := quorums, valid, false;
      votes, accepts, candidates, nominations := {}, {}, {}, map[];
      latest, sent, composed, halted := None, [], [], false;
    }

    method NodesWith(v: Value, accepted: bool) returns (nodes: set<NodeID>)
      ensures nodes == if accepted then Acceptors(St(), v) else Voters(St(), v)
    {
      nodes := {};
      var rest := nominations.Keys;
      while rest != {}
        invariant rest <= nominations.Keys
        invariant nodes == set k | k in nominations && k !in rest && v in (if accepted then nominations[k].accepts else nominations[k].votes)
      {
        var k :| k in rest;
        if v in (if accepted then nominations[k].accepts else nominations[k].votes) {
          nodes := nodes + {k};
        }
        rest := rest - {k};
      }
    }

    /** The quorums that are known; nodes without one are never counted. */
    method NominationSlices() returns (slices: Slices)
      ensures slices == Nominations.SlicesOf(St())
    {
      slices := map k | k in nominations && nominations[k].hash in quorums && nominations[k].hash != 0 ::
        quorums[nominations[k].hash];
    }

    /** Whether a lookup among the nodes stops the process. */
    method LookupFails(nodes: set<NodeID>) returns (fails: bool)
      ensures fails <==> Unknown(St(), nodes) != {}
    {
      var unknown := set k | k in nodes && k in nominations && nominations[k].hash != 0 && nominations[k].hash !in quorums;
      fails := unknown != {};
    }

    /** federatedAccept over the nominations. */
    method AcceptVote(v: Value, slices: Slices) returns (ok: bool, stops: bool)
      requires slices == Nominations.SlicesOf(St())
      ensures stops <==> AcceptStops(St(), v)
      ensures !stops ==> ok == AcceptsValue(St(), v)
    {
      var voters := NodesWith(v, false);
      ok := CheckVblocking(quorum, voters);
      stops := false;
      if !ok {
        var acceptors := NodesWith(v, true);
        stops := LookupFails(voters + acceptors);
        if !stops {
          ok := FederatedRatify(quorum, slices, voters + acceptors);
        }
      }
    }

    /** federatedRatify over the nominations. */
    method RatifyVote(v: Value, slices: Slices) returns (ok: bool, stops: bool)
      requires slices == Nominations.SlicesOf(St())
      ensures stops <==> RatifyStops(St(), v)
      ensures !stops ==> ok == RatifiesValue(St(), v)
    {
      var acceptors := NodesWith(v, true);
      stops := LookupFails(acceptors);
      ok := false;
      if !stops {
        ok := FederatedRatify(quorum, slices, acceptors);
      }
    }

    /** One turn of the first loop of promoteVotes. */
    method PromoteVote(v: Value, slices: Slices, ghost s: State) returns (added: bool)
      requires !halted && slices == Nominations.SlicesOf(s) && St() == s.(votes := votes, accepts := accepts)
      modifies this`votes, this`accepts, this`halted
      ensures halted <==> v !in old(accepts) && AcceptStops(s, v)
      ensures !halted ==> (added <==> v !in old(accepts) && AcceptsValue(s, v) && v in s.valid)
      ensures !halted ==> votes == old(votes) + (if added then {v} else {})
      ensures !halted ==> accepts == old(accepts) + (if added then {v} else {})
    {
      SameVoting(s, St(), v);
      added := false;
      if v !in accepts {
        var ok, stops := AcceptVote(v, slices);
        if stops {
          halted := true;
          return;
        }
        if ok && v in valid {
          votes := votes + {v};
          accepts := accepts + {v};
          added := true;
        }
      }
    }

    /** The first loop of promoteVotes. */
    method PromoteToAccepts(nom: Nomination) returns (updated: bool)
      requires !halted
      modifies this`votes, this`accepts, this`halted
      ensures halted <==> exists v :: v in nom.votes && v !in old(accepts) && AcceptStops(old(St()), v)
      ensures !halted ==>
                && votes == old(votes) + Promotable(old(St()), nom)
                && accepts == old(accepts) + Promotable(old(St()), nom)
                && (updated <==> accepts != old(accepts))
    {
      hide AcceptStops, AcceptsValue, RatifyStops, RatifiesValue, Nominations.SlicesOf, Promotable;
      ghost var s := St();
      ghost var all := Promotable(s, nom);
      PromotableIsVoted(s, nom);
      updated := false;
      var slices := NominationSlices();
      var rest := nom.votes;
      ghost var seen: set<Value> := {};
      while |rest| > 0
        invariant rest <= nom.votes && !halted && forall v :: v in nom.votes ==> v in seen || v in rest
        invariant votes == s.votes + all * seen && accepts == s.accepts + all * seen
        invariant updated <==> all * seen != {}
        invariant forall v :: v in seen && v !in s.accepts ==> !AcceptStops(s, v)
      {
        var v :| v in rest;
        InPromotable(s, nom, v);
        var added := PromoteVote(v, slices, s);
        if halted {
          return;
        }
        OneMoreSeen(all, seen, v, added, s.votes, votes);
        OneMoreSeen(all, seen, v, added, s.accepts, accepts);
        updated := updated || added;
        seen := seen + {v};
        rest := rest - multiset{v};
      }
      assert all * seen == all;
    }

    /** One turn of the second loop of promoteVotes. */
    method PromoteAccept(v: Value, slices: Slices, ghost s: State) returns (added: bool)
      requires !halted && slices == Nominations.SlicesOf(s) && St() == s.(candidates := candidates)
      modifies this`candidates, this`halted
      ensures halted <==> v !in old(candidates) && RatifyStops(s, v)
      ensures !halted ==> (added <==> v !in old(candidates) && RatifiesValue(s, v))
      ensures !halted ==> candidates == old(candidates) + (if added then {v} else {})
    {
      SameVoting(s, St(), v);
      added := false;
      if v !in candidates {
        var ok, stops := RatifyVote(v, slices);
        if stops {
          halted := true;
          return;
        }
        if ok {
          candidates := candidates + {v};
          added := true;
        }
      }
    }

    /** The second loop of promoteVotes. */
    method PromoteToCandidates(nom: Nomination) returns (updated: bool)
      requires !halted
      modifies this`candidates, this`halted
      ensures halted <==> exists v :: v in nom.accepts && v !in old(candidates) && RatifyStops(old(St()), v)
      ensures !halted ==>
                && candidates == old(candidates) + Ratifiable(old(St()), nom)
                && (updated <==> candidates != old(candidates))
    {
      hide AcceptStops, AcceptsValue, RatifyStops, RatifiesValue, Nominations.SlicesOf, Ratifiable;
      ghost var s := St();
      ghost var all := Ratifiable(s, nom);
      updated := false;
      var slices := NominationSlices();
      var rest := nom.accepts;
      ghost var seen: set<Value> := {};
      while |rest| > 0
        invariant rest <= nom.accepts && !halted && forall v :: v in nom.accepts ==> v in seen || v in rest
        invariant candidates == s.candidates + all * seen
        invariant updated <==> candidates != s.candidates
        invariant forall v :: v in seen && v !in s.candidates ==> !RatifyStops(s, v)
      {
        var v :| v in rest;
        InRatifiable(s, nom, v);
        var added := PromoteAccept(v, slices, s);
        if halted {
          return;
        }
        updated := updated || added;
        seen := seen + {v};
        rest := rest - multiset{v};
      }
      RatifiableIsAccepted(s, nom);
      assert all * seen == all;
    }

    /** promoteVotes. */
    method PromoteVotes(nom: Nomination) returns (acceptUpdated: bool, candidateUpdated: bool)
      requires !halted
      modifies this`votes, this`accepts, this`candidates, this`halted
      ensures halted <==> PromoteStops(old(St()), nom)
      ensures !halted ==>
                && St() == Promote(old(St()), nom)
                && (acceptUpdated <==> accepts != old(accepts))
                && (candidateUpdated <==> candidates != old(candidates))
                && old(accepts) <= accepts && (Inv(old(St())) ==> Inv(St()))
    {
      ghost var s := St();
      candidateUpdated := false;
      acceptUpdated := PromoteToAccepts(nom);
      if halted {
        return;
      }
      SameRatifiable(s, St(), nom);
      candidateUpdated := PromoteToCandidates(nom);
    }

    /** When the process stops, what it had in memory is of no consequence. */
    method RecvNomination(from: NodeID, nom: Nomination) returns (ok: bool)
      requires Inv(St()) && !halted
      modifies this
      ensures var o := Nominations.RecvNomination(old(St()), from, nom);
              halted == o.s.halted && (!halted ==> Outcome(St(), ok) == o)
      decreases Unaccepted(St()), 0
    {
      hide Promote, Monotone, Sound, ProperSubset, PromoteStops;
      if |nom.votes| + |nom.accepts| == 0 {
        return false;
      }
      if from !in nominations || IsNewer(Some(nominations[from]), nom) {
        nominations := nominations[from := nom];
      }
      ghost var stored := St();
      if !started {
        return true;
      }
      var acceptUpdated, candidateUpdated := PromoteVotes(nom);
      if halted {
        return false;
      }
      if acceptUpdated {
        MoreAccepted(stored, St());
        SendNomination();
        if halted {
          return false;
        }
      }
      if candidateUpdated {
        var value := combine(candidates);
        if value.None? {
          return false;
        }
        composed := composed + [value.value];
      }
      return true;
    }

    method SendNomination()
      requires Inv(St()) && !halted
      modifies this
      ensures var t := Nominations.SendNomination(old(St()));
              halted == t.halted && (!halted ==> St() == t)
      decreases Unaccepted(St()), 1
    {
      var nom := Nomination(multiset(votes), multiset(accepts), hash);
      var ok := RecvNomination(node, nom);
      if halted {
        return;
      }
      if ok && IsNewer(latest, nom) {
        latest := Some(nom);
        sent := sent + [nom];
      }
    }

    /** getConsensusValue, on a list in some order. */
    method GetConsensusValue(nom: Nomination, weigh: Value -> nat) returns (vote: Option<Value>)
      ensures IsNewVote(St(), nom, weigh, vote)
    {
      var most, best := 0, 0;
      var rest := nom.votes;
      ghost var seen: set<Value> := {};
      while |rest| > 0
        invariant rest <= nom.votes && forall v :: v in nom.votes ==> v in seen || v in rest
        invariant if most == 0 then best == 0 else best in NewVotes(St(), nom) && most == weigh(best)
        invariant forall v :: v in seen && v in NewVotes(St(), nom) ==> weigh(v) <= most
      {
        var v :| v in rest;
        if v in valid && v !in votes && weigh(v) > most {
          most, best := weigh(v), v;
        }
        seen := seen + {v};
        rest := rest - multiset{v};
      }
      vote := if best == 0 then None else Some(best);
    }

    /** What one leader adds. */
    method PickOf(leader: NodeID, curr: Value, weigh: Value -> nat) returns (pick: Option<Value>)
      ensures IsPick(St(), curr, leader, weigh, pick)
    {
      pick := None;
      if leader == node {
        if curr !in votes {
          pick := Some(curr);
        }
      } else if leader in nominations {
        pick := GetConsensusValue(nominations[leader], weigh);
      }
    }

    /** The loop over the leaders. */
    method FollowLeaders(curr: Value, leaders: seq<NodeID>, weigh: Value -> nat)
      returns (updated: bool, ghost picks: seq<Option<Value>>)
      modifies this`votes
      ensures ArePicks(old(St()), curr, leaders, weigh, picks)
      ensures votes == old(votes) + Chosen(picks) && (updated <==> Chosen(picks) != {})
    {
      hide IsPick;
      picks, updated := [], false;
      ghost var s := St();
      for i := 0 to |leaders|
        invariant |picks| == i && ArePicks(s, curr, leaders[..i], weigh, picks)
        invariant votes == s.votes + Chosen(picks)
        invariant updated <==> Chosen(picks) != {}
      {
        var leader := leaders[i];
        var pick := PickOf(leader, curr, weigh);
        if pick.Some? {
          votes := votes + {pick.value};
          updated := true;
        }
        OneMorePick(s, curr, leaders[..i], weigh, picks, leader, pick);
        assert leaders[..i + 1] == leaders[..i] + [leader];
        picks := picks + [pick];
      }
      assert leaders[..|leaders|] == leaders;
    }

    method Nominate(again: bool, curr: Value, leaders: seq<NodeID>, weigh: Value -> nat)
      returns (ghost picks: seq<Option<Value>>)
      requires Inv(St()) && !halted
      modifies this
      ensures (again && !old(started)) || ArePicks(old(St()).(started := true), curr, leaders, weigh, picks)
      ensures var t := Nominations.Nominate(old(St()), again, picks);
              halted == t.halted && (!halted ==> St() == t)
    {
      hide ArePicks, Chosen;
      picks := [];
      if again && !started {
        return;
      }
      started := true;
      ghost var s := St();
      var updated;
      updated, picks := FollowLeaders(curr, leaders, weigh);
      PicksAdd(s, curr, leaders, weigh, picks);
      if updated {
        SendNomination();
      }
    }

    /** Nomination is off: until the next round what is heard is stored and nothing else. */
    method StopNomination()
      requires Inv(St()) && !halted
      modifies this`started
      ensures St() == After(old(St()), Stopped)
    {
      started := false;
    }
  }
}
