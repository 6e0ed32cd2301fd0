/**
 The ballot protocol of one decree, as functions on the decree's state: the statement checks,
 the candidate lists, and what each of the four rules does before it sends a ballot
 (consensus/decree.go).
 */
module Protocol {
  import opened Common
  import opened Ballots
  import opened Sorting
  import opened Quorums
  import opened Statements
  import opened Federated

  const MAX_RECURSIONS: nat := 10

  datatype Phase = Preparing | Confirming | Externalized

  /**
   The state of a decree. `sent` and `ext` are what it put on the statement channel and on the
   externalize channel; `halted` is a fatal log or a nil dereference. The last three fields only
   record the past: every statement ever stored, every ballot ever accepted as prepared, and the
   number of calls of step.
   */
  datatype State = State(
    node: NodeID, index: nat, quorum: Quorum, hash: Hash,
    quorums: map<Hash, Quorum>, valid: set<Value>,
    phase: Phase,
    cur: Option<Ballot>, p: Option<Ballot>, q: Option<Ballot>, h: Option<Ballot>, c: Option<Ballot>,
    ballots: map<NodeID, Statement>, latest: Option<Statement>, next: Value, count: nat,
    sent: seq<Statement>, ext: seq<Value>, halted: bool,
    seen: set<Statement>, accepted: set<Ballot>, steps: nat)

  function Fresh(node: NodeID, index: nat, quorum: Quorum, hash: Hash, quorums: map<Hash, Quorum>, valid: set<Value>): State {
    State(node, index, quorum, hash, quorums, valid, Preparing, None, None, None, None, None,
          map[], None, 0, 0, [], [], false, {}, {}, 0)
  }

  /******* Statements *******/

  /** getStatementQuorum; None stands for a nil quorum and for a hash nobody knows. */
  function StatementQuorum(s: State, pl: Pledge): Option<Quorum> {
    if pl.Externalize? then Some(Singleton(s.node))
    else if pl.hash != 0 && pl.hash in s.quorums then Some(s.quorums[pl.hash])
    else None
  }

  datatype Verdict = Valid | Invalid | Crash

  function JudgeValues(s: State, vs: set<Value>): Verdict {
    if vs <= s.valid then Valid else Invalid
  }

  /** The values of a PREPARE statement that are checked: those of b and p, but not of q. */
  function CheckedValues(pl: Pledge): set<Value>
    requires pl.Prepare?
  {
    (if pl.b.Some? && pl.b.value.counter > 0 then {pl.b.value.value} else {})
    + (if pl.p.Some? then {pl.p.value.value} else {})
  }

  function JudgePrepare(s: State, pl: Pledge): Verdict
    requires pl.Prepare? && pl.b.Some?
  {
    if pl.q.Some? && pl.p.Some? && !LessAndIncompatible(pl.q, pl.p) then Invalid
    else if !(pl.hc == 0 || (pl.p.Some? && pl.hc <= pl.p.value.counter)) then Invalid
    else if !(pl.lc == 0 || (pl.hc != 0 && pl.hc <= pl.b.value.counter && pl.lc <= pl.hc)) then Invalid
    else JudgeValues(s, CheckedValues(pl))
  }

  /** validateBallot. */
  function Judge(s: State, st: Statement): Verdict {
    var pl := st.pledge;
    var quorum := StatementQuorum(s, pl);
    if quorum.None? then Crash
    else if !ValidQuorum(quorum.value, 0, false) then Invalid
    else if pl.b.None? then Crash
    else
      match pl
      case Prepare(b, _, _, _, _, _) =>
        if st.node != s.node && b.value.counter == 0 then Invalid else JudgePrepare(s, pl)
      case Confirm(b, _, lc, hc, _) =>
        if b.value.counter == 0 || !(lc <= hc <= b.value.counter) then Invalid
        else JudgeValues(s, {b.value.value})
      case Externalize(b, hc, _) =>
        if !(0 < b.value.counter <= hc) then Invalid else JudgeValues(s, {b.value.value})
  }

  /** What validateBallot leaves true of a stored statement. */
  predicate WellFormed(pl: Pledge) {
    && pl.b.Some?
    && (pl.Prepare? ==> pl.lc == 0 || pl.lc <= pl.hc <= pl.b.value.counter)
    && (pl.Confirm? ==> pl.lc <= pl.hc <= pl.b.value.counter)
    && (pl.Externalize? ==> 0 < pl.b.value.counter <= pl.hc)
  }

  /******* Federated voting over the stored statements *******/

  function SlicesOf(s: State): Slices {
    map k | k in s.ballots && StatementQuorum(s, s.ballots[k].pledge).Some? ::
      StatementQuorum(s, s.ballots[k].pledge).value
  }

  function Matching(s: State, f: Filter): set<NodeID> {
    set k | k in s.ballots && Holds(f, s.ballots[k].pledge)
  }

  predicate AcceptsPrepared(s: State, b: Ballot) {
    Accepts(s.quorum, SlicesOf(s), Matching(s, PrepareVote(b)), Matching(s, PrepareAccept(b)))
  }

  predicate ConfirmsPrepared(s: State, b: Ballot) {
    Ratifies(s.quorum, SlicesOf(s), Matching(s, PrepareAccept(b)))
  }

  predicate AcceptsCommit(s: State, v: Value, l: Counter, r: Counter) {
    Accepts(s.quorum, SlicesOf(s), Matching(s, CommitVote(v, l, r)), Matching(s, CommitAccept(v, l, r)))
  }

  predicate ConfirmsCommit(s: State, v: Value, l: Counter, r: Counter) {
    Ratifies(s.quorum, SlicesOf(s), Matching(s, CommitAccept(v, l, r)))
  }

  datatype Vote = ToAccept | ToConfirm

  predicate CommitPasses(s: State, vote: Vote, v: Value, l: Counter, r: Counter) {
    if vote == ToAccept then AcceptsCommit(s, v, l, r) else ConfirmsCommit(s, v, l, r)
  }

  /******* Candidate ballots *******/

  function Present(o: Option<Ballot>): set<Ballot> {
    if o.Some? then {o.value} else {}
  }

  /** The ballots a received statement hints at. */
  function Hints(pl: Pledge): set<Ballot> {
    match pl
    case Prepare(b, p, q, _, _, _) => Present(b) + Present(p) + Present(q)
    case Confirm(b, pc, _, _, _) =>
      if b.Some? then {Ballot(pc, b.value.value), Ballot(MAX_COUNTER, b.value.value)} else {}
    case Externalize(b, _, _) =>
      if b.Some? then {Ballot(MAX_COUNTER, b.value.value)} else {}
  }

  /** What one stored statement contributes below the hint. */
  function CandidatesAt(hint: Ballot, pl: Pledge): set<Ballot> {
    match pl
    case Prepare(b, p, q, _, _, _) =>
      set x | x in Present(b) + Present(p) + Present(q) && LessAndCompatible(Some(x), Some(hint))
    case Confirm(_, pc, _, _, _) =>
      if !HasValue(pl, hint.value) then {}
      else if pc < hint.counter then {hint, Ballot(pc, hint.value)}
      else {hint}
    case Externalize(_, _, _) =>
      if HasValue(pl, hint.value) then {hint} else {}
  }

  function Candidates(s: State, pl: Pledge): set<Ballot> {
    set b, k, x | b in Hints(pl) && k in s.ballots && x in CandidatesAt(b, s.ballots[k].pledge) :: x
  }

  lemma AboveIsOrder()
    ensures StrictOrder(Above)
  {}

  lemma LargerIsOrder()
    ensures StrictOrder(Larger)
  {}

  /** getPreparedCandidates. */
  ghost function CandidateList(s: State, pl: Pledge): seq<Ballot> {
    AboveIsOrder();
    SortDesc(Candidates(s, pl), Above)
  }

  /******* Commit counters *******/

  function CountersAt(v: Value, pl: Pledge): set<Counter> {
    if !HasValue(pl, v) then {}
    else
      match pl
      case Prepare(_, _, _, hc, lc, _) => if lc > 0 then {lc, hc} else {}
      case Confirm(_, _, lc, hc, _) => {lc, hc}
      case Externalize(b, hc, _) => {b.value.counter, hc, MAX_COUNTER}
  }

  function CommitCounters(s: State, v: Value): set<Counter> {
    set k, x | k in s.ballots && x in CountersAt(v, s.ballots[k].pledge) :: x
  }

  /** getCommitCounters. */
  ghost function CounterList(s: State, v: Value): seq<Counter> {
    LargerIsOrder();
    SortDesc(CommitCounters(s, v), Larger)
  }

  /** findCommitInterval, from the counters that are left and the interval found so far. */
  function FindInterval(s: State, vote: Vote, v: Value, cs: seq<Counter>, lb: Counter, rb: Counter): (i: (Counter, Counter))
    requires lb != 0 ==> lb <= rb && CommitPasses(s, vote, v, lb, rb)
    ensures i.0 != 0 ==> i.0 <= i.1 && CommitPasses(s, vote, v, i.0, i.1)
  {
    if cs == [] then (lb, rb)
    else
      var c := cs[0];
      if lb == 0 then
        if CommitPasses(s, vote, v, c, c) then FindInterval(s, vote, v, cs[1..], c, c)
        else FindInterval(s, vote, v, cs[1..], lb, rb)
      else if c > rb then FindInterval(s, vote, v, cs[1..], lb, rb)
      else if CommitPasses(s, vote, v, c, rb) then FindInterval(s, vote, v, cs[1..], c, rb)
      else (lb, rb)
  }

  ghost function CommitInterval(s: State, vote: Vote, v: Value): (i: (Counter, Counter))
    ensures i.0 != 0 ==> i.0 <= i.1 && CommitPasses(s, vote, v, i.0, i.1)
  {
    FindInterval(s, vote, v, CounterList(s, v), 0, 0)
  }

  /******* The current ballot *******/

  /** updateBallot, where its own checks pass: h is zeroed when the new ballot leaves its value. */
  function UpdateBallot(s: State, b: Ballot): State {
    s.(cur := Some(b), h := if s.h.Some? && !Compatible(Some(b), s.h) then Some(ZERO) else s.h)
  }

  /** A rule's own changes, and whether it goes on to send a ballot. */
  datatype Local = Local(s: State, updated: bool)

  /** updateBallotIfNeeded. */
  function UpdateBallotIfNeeded(s: State, b: Ballot): Local {
    if Compare(s.cur, Some(b)) < 0 then Local(UpdateBallot(s, b), true) else Local(s, false)
  }

  /** checkBallotInvariants: the states in which the check does not stop the node. */
  predicate Consistent(s: State) {
    && (s.cur.Some? ==> s.cur.value.counter != 0)
    && (s.p.Some? && s.q.Some? ==> LessAndIncompatible(s.q, s.p))
    && (s.h.Some? ==> s.cur.Some? && LessAndCompatible(s.h, s.cur))
    && (s.c.Some? ==> s.cur.Some? && LessAndCompatible(s.c, s.h) && LessAndCompatible(s.h, s.cur))
    && (!s.phase.Preparing? ==> s.c.Some?)
    && (s.phase.Externalized? ==> s.h.Some?)
  }

  /******* Rule 1: accept as prepared *******/

  datatype Scan = Nothing | Clash | Found(b: Ballot)

  /** The search of acceptPrepared through its candidates, highest first. */
  ghost function ScanAccept(s: State, cands: seq<Ballot>): Scan {
    if cands == [] then Nothing
    else
      var x := Some(cands[0]);
      if s.phase.Confirming? && !LessAndCompatible(s.p, x) then ScanAccept(s, cands[1..])
      else if s.phase.Confirming? && !Compatible(s.c, x) then Clash
      else if s.q.Some? && Compare(x, s.q) <= 0 then ScanAccept(s, cands[1..])
      else if s.p.Some? && LessAndCompatible(x, s.p) then ScanAccept(s, cands[1..])
      else if AcceptsPrepared(s, x.value) then Found(x.value)
      else ScanAccept(s, cands[1..])
  }

  /** setAcceptPrepared. */
  function SetAcceptPrepared(s0: State, b: Ballot): Local {
    var s := s0.(accepted := s0.accepted + {b});
    var x := Some(b);
    if s.p.None? then Local(s.(p := x), true)
    else if Compare(x, s.p) < 0 then
      if s.q.None? || (Compare(x, s.q) > 0 && !Compatible(x, s.p)) then Local(s.(q := x), true)
      else Local(s, false)
    else if Compare(x, s.p) > 0 then
      Local(s.(q := if Compatible(x, s.p) then s.q else s.p, p := x), true)
    else Local(s, false)
  }

  /** The commit ballot is zeroed when h falls below an incompatible accepted ballot. */
  predicate MustDropCommit(s: State) {
    && s.c.Some? && s.h.Some? && s.phase.Preparing?
    && ((s.p.Some? && LessAndIncompatible(s.h, s.p)) || (s.q.Some? && LessAndIncompatible(s.h, s.q)))
  }

  /** What acceptPrepared does with the ballot it found. */
  function TakePrepared(s: State, b: Ballot): Local {
    var l := SetAcceptPrepared(s, b);
    if MustDropCommit(l.s) then Local(l.s.(c := Some(ZERO)), true) else l
  }

  ghost function AcceptPrepared(s: State, pl: Pledge): Local {
    if s.phase.Externalized? then Local(s, false)
    else
      match ScanAccept(s, CandidateList(s, pl))
      case Nothing => Local(s, false)
      case Clash => Local(s.(halted := true), false)
      case Found(b) => TakePrepared(s, b)
  }

  /******* Rule 2: confirm as prepared *******/

  /** The first candidate that is confirmed prepared, or the length of the list. */
  ghost function FindHigh(s: State, cands: seq<Ballot>, i: nat): (r: nat)
    requires i <= |cands|
    ensures i <= r <= |cands|
    decreases |cands| - i
  {
    if i == |cands| then i
    else if s.h.Some? && Compare(Some(cands[i]), s.h) <= 0 then |cands|
    else if ConfirmsPrepared(s, cands[i]) then i
    else FindHigh(s, cands, i + 1)
  }

  /** The lowest ballot in an unbroken run of confirmed ones, from position i on. */
  ghost function FindLow(s: State, cands: seq<Ballot>, i: nat, floor: Ballot, high: Ballot, low: Option<Ballot>): (r: Option<Ballot>)
    requires i <= |cands|
    ensures r == low || (r.Some? && LessAndCompatible(r, Some(high)) && Compare(Some(floor), r) <= 0)
    decreases |cands| - i
  {
    if i == |cands| then low
    else
      var x := cands[i];
      if Compare(Some(x), Some(floor)) < 0 then low
      else if !LessAndCompatible(Some(x), Some(high)) then FindLow(s, cands, i + 1, floor, high, low)
      else if ConfirmsPrepared(s, x) then FindLow(s, cands, i + 1, floor, high, Some(x))
      else low
  }

  /** The commit ballot that goes with the higher ballot at position i. */
  ghost function LowBallot(s: State, cands: seq<Ballot>, i: nat): Option<Ballot>
    requires i < |cands|
  {
    var hb := cands[i];
    var floor := if s.cur.Some? then s.cur.value else ZERO;
    if s.c.None? && !LessAndIncompatible(Some(hb), s.p) && (s.q.None? || !LessAndIncompatible(Some(hb), s.q))
    then FindLow(s, cands, i, floor, hb, None) else None
  }

  /** setConfirmPrepared, up to sending. A nil cb replaces a commit ballot that was set. */
  function SetConfirmPrepared(s0: State, cb: Option<Ballot>, hb: Ballot): Local {
    var s := s0.(next := hb.value);
    var joins := s.cur.None? || Compatible(s.cur, Some(hb));
    var newH := joins && Compare(s.h, Some(hb)) < 0;
    var newC := joins && (s.c.None? || Compare(cb, s.c) < 0);
    var t := s.(h := if newH then Some(hb) else s.h, c := if newC then cb else s.c);
    var l := UpdateBallotIfNeeded(t, hb);
    Local(l.s, newH || newC || l.updated)
  }

  ghost function ConfirmPrepared(s: State, pl: Pledge): Local {
    if !s.phase.Preparing? || s.p.None? then Local(s, false)
    else
      var cands := CandidateList(s, pl);
      var i := FindHigh(s, cands, 0);
      if i == |cands| then Local(s, false)
      else
        SetConfirmPrepared(s, LowBallot(s, cands, i), cands[i])
  }

  /******* Rule 3: accept a commit *******/

  /** The value whose commit a statement supports, if any. */
  function CommitValue(pl: Pledge): Option<Value> {
    if pl.b.None? || (pl.Prepare? && pl.lc == 0) then None else Some(pl.b.value.value)
  }

  /** The move to the confirm phase: the current ballot is brought to h, q is zeroed. */
  function EnterConfirm(s: State, hb: Ballot): State {
    var t := s.(phase := Confirming);
    var u := if t.cur.Some? && !LessAndCompatible(Some(hb), t.cur) then UpdateBallot(t, hb) else t;
    u.(q := if u.q.Some? then Some(ZERO) else None)
  }

  /** setAcceptCommit, up to sending. */
  function SetAcceptCommit(s0: State, cb: Ballot, hb: Ballot): Local {
    var changed := s0.h != Some(hb) || s0.c != Some(cb);
    var s := s0.(next := hb.value, h := Some(hb), c := Some(cb));
    var t := if s.phase.Preparing? then EnterConfirm(s, hb) else s;
    if changed || s.phase.Preparing? then Local(UpdateBallotIfNeeded(t, hb).s, true) else Local(s, false)
  }

  ghost function AcceptCommit(s: State, pl: Pledge): Local {
    var v := CommitValue(pl);
    if s.phase.Externalized? || v.None? then Local(s, false)
    else if s.phase.Confirming? && !(s.h.Some? && s.h.value.value == v.value) then Local(s, false)
    else
      var i := CommitInterval(s, ToAccept, v.value);
      if i.0 != 0 && (!s.phase.Confirming? || i.1 > s.h.value.counter) then
        SetAcceptCommit(s, Ballot(i.0, v.value), Ballot(i.1, v.value))
      else Local(s, false)
  }

  /******* Rule 4: confirm a commit *******/

  /** setConfirmCommit, up to sending. */
  function SetConfirmCommit(s: State, cb: Ballot, hb: Ballot): Local {
    var t := UpdateBallotIfNeeded(s.(c := Some(cb), h := Some(hb)), hb).s;
    Local(t.(phase := Externalized), true)
  }

  ghost function ConfirmCommit(s: State, pl: Pledge): Local {
    if !s.phase.Confirming? || s.h.None? || s.c.None? || pl.Prepare? || pl.b.None? then Local(s, false)
    else
      var v := pl.b.value.value;
      if s.c.value.value != v then Local(s, false)
      else
        var i := CommitInterval(s, ToConfirm, v);
        if i.0 != 0 then SetConfirmCommit(s, Ballot(i.0, v), Ballot(i.1, v)) else Local(s, false)
  }

  /******* Sending *******/

  /** The statement sendBallot assembles; None is the nil dereference of a missing p. */
  function Assemble(s: State): Option<Pledge>
    requires Consistent(s)
  {
    match s.phase
    case Preparing =>
      Some(Prepare(s.cur, s.p, s.q, if s.h.Some? then s.h.value.counter else 0,
                   if s.c.Some? then s.c.value.counter else 0, s.hash))
    case Confirming =>
      if s.p.None? then None
      else Some(Confirm(s.cur, s.p.value.counter, s.c.value.counter, s.h.value.counter, s.hash))
    case Externalized =>
      Some(Externalize(s.c, s.h.value.counter, s.hash))
  }

  /** getWorkingBallot's value. */
  function WorkingValue(pl: Pledge): Option<Value> {
    if pl.b.Some? then Some(pl.b.value.value) else None
  }
}
