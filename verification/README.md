# A model of go-ultiledger

This project models the parts of the go-ultiledger node in which most of its reasoning happens, and proves
what they keep over all inputs and all runs:

- the **ballot protocol** of one decree (one slot of consensus): quorums, statements, federated voting, the
  four rules, and the re-entrant chain `step` → `set…` → `sendBallot` → `recvBallot` → `step`; and then a
  **network** of decrees in which some nodes do as they like;
- the **nomination** that precedes it;
- the application of **transaction lists**: fees, sorting, one database transaction per transaction, and
  the create-account, payment and trust operations;
- the **ledger manager**: closing, the buffer and the downloader for ledgers that were missed, checkpoints;
- the **exchange arithmetic** for offers and liabilities;
- and then the **whole system**: many nodes, each with its decrees, its ledger manager and its accounts, with
  downloads, restarts and processes that die.

`dafny verify dfyconfig.toml` checks the whole project.

## Main results

- *Replication.* In every run of the whole system all ledgers of all nodes have values that were externalized for
  their index if and only if every downloaded ledger that passes the checks of closing has one, whoever sent it, and
  this is so if only nodes of the system are asked. Then two nodes never fork: their ledgers, at whatever times, are
  parts of one chain. If both are at the same ledger they hold the same accounts, trusts and statuses and have charged the
  same fees, whatever the order of their lists and maps, provided transactions with equal sequence numbers touch
  different accounts and no list was left half applied. The balances and the fees of such a node always add up to
  the tokens of genesis (`Replication.RunRecordsExactly`, `Replication.SystemIsVetted`, `Replication.NoFork`,
  `Replication.Replicated`, `Replication.SupplyIsFixed`).
- *Agreement.* In every run of any number of decrees, with lost, repeated and reordered messages and any number
  of deviating nodes, two nodes that follow the protocol never externalize different values if any two slices
  of their quorums share a node that follows it; with one flat quorum of n validators and threshold T, fewer
  than 2·⌈nT⌉ − n deviating validators are enough (`Network.Agreement`, `Network.FlatAgreement`).
- *Lock-in.* From the confirm phase on, c ≤ h ≤ current keep one value for ever, everything sent commits to
  that value, and it is the only one ever externalized; a decree that externalizes announces exactly it
  (`Network.LockIn`, `Meanings.ExternalizedIsAnnounced`).
- *Termination.* The nesting of step, send and receive ends without the depth guard, and in k events a decree
  takes at most k steps plus the number of ranks of statements (`Reentry.Step`, `Network.StepsOnEveryRun`).
- *What the rules do.* Over all ballots and counters, listed or not: the first two rules take the highest ballot
  that can be accepted or confirmed; the other two fire exactly if some commit passes, and then with the widest
  interval. What a decree sends says, through the filters of whoever reads it, exactly what its state is
  (`Meanings.SupportedIsAccepted`, `Meanings.HighestIsConfirmed`, `Meanings.AcceptsExactly`,
  `Meanings.ConfirmsExactly`, `Meanings.StatementSays`).
- *Searching finite lists.* The candidate ballots that the code looks at decide for all ballots, and so do the
  commit counters when a value is confirmed; when it is accepted they do so exactly if the largest counter is
  listed or does not pass (`Search.CandidatesComplete`, `Search.CommitIntervalExactly`).
- *Order independence.* The outcome of a transaction list depends neither on its order nor on the order of the
  account map if sequence numbers are distinct, and also with equal ones if these transactions touch different
  accounts; otherwise it can (`Transactions.OneOutcome`, `Ties.TiesDoNotMatter`, `Transactions.TiesMatter`,
  `TxManagers.TxManager.ApplyTxList`).
- *Conservation.* Over a whole list native balances and fees, and the holdings of each issued asset, change by
  what the issuers pay and receive, what deleted trusts held, and the carries of 64-bit updates, and by nothing
  else. There are no carries if fees and new balances are not negative and payments are at most 2^62
  (`Conservation.ListConserves`, `Conservation.MildListIsExact`, `Assets.ListHeld`, `Assets.RoomyListHeld`).
  Each operation is done under exactly the stated conditions in plain numbers, except where 64-bit checks wrap, which
  is characterised (`Operations.OpensExactly`, `Operations.PaysNativeExactly`, `Operations.ListReservesExactly`,
  `Operations.TxIsAtomic`).
  Trust limits are kept exactly if no operation breaks one (`Assets.ListWithinExactly`), and entry counts are
  kept in 32 bits (`Conservation.ListCounted`).
- *Catching up.* Every reachable ledger state, restarts included, is a hash chain without a gap. A manager that
  missed ledgers works off its download task, whatever order the ledgers come in and whatever is externalized
  meanwhile, exactly if every peer that is asked has stored the set of the ledger it is asked for; otherwise, as
  always for the first ledger, its process ends. It is then synced unless it met another gap, and it meets none if the
  values come in order. After a restart the first ledger is never asked for again. On every run a manager is
  synced exactly if since its restart it has closed the next ledger or got the last missing one, and has met no gap
  after that (`Ledgers.RunKeeps`, `Ledgers.CheckpointRecovers`, `Ledgers.SyncedExactly`, `Downloads.SyncsExactly`,
  `Downloads.RestartSyncs`).
- *Trading.* An exchange respects the limits and the price, and leaves less than one unit of what both sides could
  trade; a liability is what the amount pays for, rounded as stated (`Exchange.ExchangeIsFair`,
  `Exchange.ExchangeIsLargest`, `Exchange.LiabilityExactly`).
- *Nomination.* On every run of heard nominations, own rounds with their leaders, and stops, candidates are accepted
  and accepted values are voted for if peers are careful. At all times of a run the last nomination sent carries
  exactly what the node votes for and accepts, if and only if no sending of the run ends with a new candidate whose
  combination fails. Since the last new candidate, the last value handed to the ballot protocol is the combination of
  the candidates, unless that fails (`Nominations.CandidatesAcceptedVoted`, `Nominations.VotesAreSent`,
  `Nominations.CandidatesAreHandedOver`).

## How it is modelled

- Specification functions on immutable states say what an operation does; the classes in `Decree.dfy`,
  `Nomination.dfy`, `LedgerManager.dfy`, `TxManager.dfy` and `Exchange.dfy` update fields step by step, as the
  program does, and every method is proved equal to its function. The results above are about the functions.
- Node identities, hashes and consensus values are numbers, 0 being the empty string. Consensus values range
  over a finite set whose size is an arbitrary constant, ballot counters over 32 bits.
- `log.Fatal` and a nil dereference that ends the process set `halted`, or are a result of their own
  (`Crashed`, `Panicked`).
- Hashes of headers, transaction sets and transactions are injective: a key contains what it was computed from.
- A database transaction is a copy that is committed or dropped. Clocks, the validity of values, the quorums
  that are known by hash, the combination of candidates and, for the ledger manager on its own, whether a
  transaction set can be applied are parameters; `Node.dfy` joins it to the transaction manager.
- The results on runs are not about nothing: `Solo.ProposalDecides` is a node that decides, `Example.dfy` a system
  in which one node closes what was decided and another one downloads it.
- Amounts are 64-bit and entry counts 32-bit, with wrap-around written out. Thresholds are exact numbers.
- The ballot protocol has history fields (`seen`, `accepted`, `steps`) that only proofs read.

## Where the code departs from its comments

The model follows the code. The pruning loop of federated voting makes a single pass
(`Federated.PruneNodes`), which is right exactly if a second one would change nothing
(`Federated.PassExactly`). V-blocking is monotone exactly below a threshold of one
(`Quorums.VblockingMonotoneExactly`), nested quorums of a slice are tested for blocking, and
blocking is the dual of slices exactly when n·T is not whole (`Quorums.DualityExactly`). `update` never finds a
counter, so `abandonBallot` is never reached (`Search.UpdateFindsNothing`). A transaction with an unsupported
operation is first marked as failed and then confirmed without effect. A withdrawal is refused only below minus
its amount (`Accounts.OverdrawsExactly`). The limit check of a trust adds in 64 bits and can itself overflow
(`Accounts.UpdateTrustWrapsExactly`). A new trust may have a negative limit (`Assets.TrustWithinExactly`),
and deleting a trust drops what it holds (`Assets.OpHeld`). The checkpoint never stores the largest consensus
index, so the check of the previous header's hash is skipped on recovery. A manager that has only its genesis
ledger when it meets its first gap asks for ledger 1. No peer has a transaction set for it, the answer comes without
one, and computing its key ends the process that asked; only after a restart does it ask from ledger 2
(`Downloads.GenesisStops`). The same happens with a peer that got a ledger by download itself: sets are stored only
when a validator receives them (consensus/validator.go:222-229), not when a ledger is closed
(`Downloads.HonestAnswer`). Nothing that is checked of a downloaded ledger ties it to consensus: one that fits is
closed, whoever made it, and nodes can fork (`Example.ForgedForks`). When the decree sends its nomination while it
receives one, an error is dropped; if candidates cannot be combined then, what was accepted is not told in that
round (`Nominations.SendPublishes`, `SoloNomination.AloneIsSentExactly`). A CONFIRM statement says that ballots of the
locked value are prepared up to the counter of p, although p may have another value
(`Meanings.ConfirmIsBackedExactly`). A current ballot of another value zeroes h instead of dropping it, so the check
before the next sending stops the process (`Meanings.HighGoesAlong`). The depth guard of step is never lowered again
when it strikes (`Meanings.GuardExactly`).

## Model

| member | source | states |
|---|---|---|
| Sorting.SortSet | consensus/sorter.go:23-44 | sorting yields the one strictly descending sequence of the set, whatever order the set is read in |
| Sorting.DescendingUnique | consensus/sorter.go:29-38 | two strictly descending sequences of the same elements are equal |
| Quorums.CheckVblocking | consensus/util.go:298-320 | the countdown loops decide whether the nodes, and the nested quorums they block, reach the blocking threshold |
| Quorums.CheckSlice | consensus/util.go:323-346 | the countdown loops decide whether the nodes reach the slice threshold; nested quorums count when blocked |
| Quorums.ValidateQuorum | consensus/util.go:47-73 | accepted exactly: at most three levels, thresholds in (0,1], at least one half with extra checks, no repeated validator |
| Quorums.VblockingMonotone | consensus/util.go:298-320 | with thresholds below one a larger set of nodes still blocks |
| Quorums.VblockingMonotoneExactly | consensus/util.go:298-320 | for every quorum with a validator and nested thresholds below one, blocking is monotone if and only if its threshold is below one |
| Quorums.UnblockedAtOne | consensus/util.go:300-307 | at threshold one nobody blocks a quorum and its first validator alone does not, whatever the quorum |
| Quorums.SliceMonotone | consensus/util.go:323-346 | with nested thresholds below one a larger set of nodes still contains a slice |
| Quorums.FlatSlice | consensus/util.go:323-346 | a slice of a flat quorum is a set with at least ceil(nT) of its distinct validators |
| Quorums.CoversExactly | consensus/util.go:298-346 | nested quorums included: a slice covers at least the fraction T of all members, and below T = 1 a blocking set at least the fraction 1-T; a nested quorum is covered by what blocks it, in both |
| Quorums.SlicesOverlap | consensus/util.go:323-346 | two slices of one flat quorum share at least 2*ceil(nT)-n validators |
| Quorums.DualityExactly | consensus/util.go:298-346 | for a flat quorum, blocking is the same as leaving no slice outside if and only if nT is not a whole number |
| Statements.NewerHasLargerRank | consensus/util.go:190-238 | a statement that supersedes another has a larger rank in one order on all statements |
| Statements.NewerExactly | consensus/util.go:190-238 | of any two statements one supersedes the other if and only if its rank is larger |
| Statements.RankBound | consensus/util.go:190-238 | ranks are bounded, so no chain of newer statements is endless |
| Federated.PruneNodes | consensus/decree.go:431-446 | the loop that runs until nothing changes yields the nodes whose quorum the whole set satisfies: one pass |
| Federated.FederatedRatify | consensus/decree.go:459-494 | the answer is whether the nodes kept by the pass contain a slice of the local quorum |
| Federated.FederatedAccept | consensus/decree.go:402-456 | the answer is whether the voters block, or voters and acceptors together ratify |
| Federated.RatifyMonotone | consensus/decree.go:459-494 | more matching nodes never lose a ratification |
| Federated.RatifyImpliesAccept | consensus/decree.go:402-494 | what the acceptors ratify is accepted, whoever votes |
| Federated.PassFindsEveryQuorum | consensus/decree.go:473-494 | no self-supporting set of matching nodes that satisfies the local quorum is missed |
| Federated.PassExactly | consensus/decree.go:473-494 | the pass ratifies just when such a set exists, for every local quorum, if and only if the nodes it keeps support themselves |
| Federated.PassExactForSharedQuorum | consensus/decree.go:459-494 | so it is when all matching nodes name the local quorum |
| Federated.PassTooWeakForMixedQuorums | consensus/decree.go:473-488 | a concrete case of different quorums where the pass ratifies and no such set exists |
| Federated.ExternalizedNodeKept | consensus/decree.go:497-529 | a node with an EXTERNALIZE statement survives the pass exactly if the local node is among the matching ones |
| Protocol.CommitInterval | consensus/decree.go:1361-1383 | an interval that is found is not inverted and passes the vote it was searched with |
| Invariants.AcceptPreparedKeeps | consensus/decree.go:1013-1092 | rule 1 keeps the invariant of the decree and only moves ballots up; p stays the highest accepted ballot and q the highest incompatible one |
| Invariants.ConfirmPreparedKeeps | consensus/decree.go:1179-1266 | rule 2 keeps the invariant and never leaves a locked value |
| Invariants.AcceptCommitKeeps | consensus/decree.go:1269-1358 | rule 3 enters the confirm phase with c, h and current on one value and never changes that value afterwards |
| Invariants.ConfirmCommitKeeps | consensus/decree.go:1433-1511 | rule 4 externalizes only a value that a slice of the local quorum is known to have committed to |
| Invariants.PreparedPairNeverHalts | consensus/decree.go:1616-1623 | before the confirm phase the check of p against q passes |
| Reentry.RecvBallot | consensus/decree.go:749-786 | terminates from every state; keeps the invariant; the steps it causes are at most one and the gain in rank of the own statement; nothing is externalized twice |
| Reentry.SendBallot | consensus/decree.go:789-853 | terminates; keeps the invariant; every nested step is paid for by a newer own statement |
| Reentry.Step | consensus/decree.go:856-897 | terminates without relying on the depth guard; keeps the invariant; phases, ballots, sent and externalized values only grow |
| Reentry.FireRules | consensus/decree.go:869-873 | the rules tried in turn keep the invariant and move the decree forward only |
| Reentry.Propose | consensus/decree.go:1524-1557 | starting the ballot protocol from nomination keeps the invariant and costs no step without a newer statement |
| Search.CandidatesComplete | consensus/decree.go:1095-1176 | every ballot below a hint has a listed candidate between it and the hint, with the same voters and the same acceptors |
| Search.AcceptableIsFound | consensus/decree.go:1095-1176 | hence it is accepted, or confirmed, as prepared if and only if that candidate is |
| Search.CommitIntervalExactly | consensus/decree.go:1361-1430 | over all positive counters, for accepting and for confirming: the lower end is the smallest that passes with the upper one; the upper end is the largest that passes, if and only if the largest counter of all is listed or does not pass |
| Search.CommitIntervalOptimal | consensus/decree.go:1433-1483 | for confirming it always is: the upper end is the largest r with (r,r) ratified and the lower end the smallest l with (l,upper) ratified; empty only if nothing is ratified |
| Search.AcceptMissesTheTop | consensus/decree.go:1269-1325 | for accepting, a blocking set of CONFIRM statements and nothing else is a case where the largest is missed |
| Search.UpdateFindsNothing | consensus/decree.go:900-990 | for every quorum and every state the search for a counter comes back empty |
| Meanings.StatementSays | consensus/decree.go:789-853 | in each phase, exactly which votes and acceptances everybody reads in the statement that a decree makes, through all four filters; only a missing p in the confirm phase keeps it from being made |
| Meanings.StatementIsWellFormed | consensus/decree.go:789-853 | it is never refused for its counters once there is a current ballot |
| Meanings.OwnIsValidExactly | consensus/decree.go:1671-1744 | the node finds its own statement valid if and only if its quorum and values are, and before the confirm phase h is not above p |
| Meanings.ValidExactly | consensus/decree.go:1671-1744 | a statement is valid if and only if its quorum is known and valid, its counters are in order and its values are valid; it stops the process exactly without a known quorum or a ballot |
| Meanings.AcceptedIsTold | consensus/decree.go:789-853 | before the confirm phase every ballot ever accepted with the value of p or q is told as accepted |
| Meanings.ConfirmIsBackedExactly | consensus/decree.go:812-819 | what a CONFIRM statement says is prepared is backed by p if and only if p has the locked value |
| Meanings.HintsReach | consensus/decree.go:1095-1128 | the hints of a statement reach exactly as far as its votes and acceptances |
| Meanings.ScanIsHighest | consensus/decree.go:1013-1067 | the scan finds the highest candidate that is acceptable and not covered by p or q; it clashes only in the confirm phase, on another value than that of c |
| Meanings.SupportedIsAccepted | consensus/decree.go:1013-1176 | of all ballots that a statement votes for or accepts, if one is acceptable and not covered, a ballot at least as high is accepted, or the process stops on a clash |
| Meanings.AbortedIsDropped | consensus/decree.go:1048-1062 | a commit ballot is zeroed if and only if a ballot of another value was accepted above h |
| Meanings.HighestIsConfirmed | consensus/decree.go:1179-1266 | of all ballots below a hint, if one above h is confirmed, one at least as high becomes h and the current ballot reaches it, unless the current ballot has another value |
| Meanings.LowBallotEndsTheRun | consensus/decree.go:1206-1236 | the commit ballot is the end of the unbroken run of confirmed candidates from h down to the current ballot; there is one only if none is set and nothing of another value was accepted above |
| Meanings.HighGoesAlong | consensus/decree.go:1587-1607 | h goes along with a new current ballot or is zeroed, and then the process stops when it next sends |
| Meanings.AcceptsExactly | consensus/decree.go:1269-1358 | rule 3 fires if and only if some commit of the value passes and, in the confirm phase, one above h; c and h are then the widest interval and q is zeroed |
| Meanings.ConfirmsExactly | consensus/decree.go:1433-1511 | rule 4 fires if and only if a commit statement for the locked value comes and some commit of it is ratified; c and h are then the widest ratified interval |
| Meanings.FollowsExternalized | consensus/filter.go:159-163 | a decree in the confirm phase externalizes once a slice of its quorum has externalized its value from a counter on that it accepted itself |
| Meanings.ReceivesExactly | consensus/decree.go:749-786 | which statements are refused, ignored, stored or stop the process |
| Meanings.ExternalizedStores | consensus/decree.go:771-785 | an externalized decree stores what has its value and nothing else |
| Meanings.GuardExactly | consensus/decree.go:856-867 | a step is refused if and only if the counter is one below the limit, and leaves it raised |
| Meanings.StepResends | consensus/decree.go:874-897 | a step that changed something sends the latest statement once more |
| Meanings.ProposalsAgree | consensus/decree.go:1524-1557 | once a ballot was confirmed as prepared every proposal starts with its value |
| Meanings.ConfirmedIsAccepted | consensus/decree.go:402-494 | what the stored statements confirm they also accept, as prepared and as committed |
| Meanings.ExternalizedIsAnnounced | consensus/decree.go:1433-1511 | on every run a decree in the externalize phase has announced exactly its locked value, unless its process has stopped, and one before that phase has announced nothing |
| Network.RunKeeps | consensus/decree.go:749-897 | every state of every run satisfies the invariant of each decree, and what was seen of a node that follows the protocol was sent by it |
| Network.PreparedOnEveryRun | consensus/decree.go:1013-1092 | on every run p is the highest ballot ever accepted as prepared and, before the confirm phase, q the highest one incompatible with it |
| Network.StepsOnEveryRun | consensus/decree.go:749-897 | in k events a decree takes at most k steps plus the rank of its own statement, which is bounded |
| Network.LockIn | consensus/decree.go:1269-1607 | once past the prepare phase: the phase never goes back, c <= h <= current keep that value, every commitment sent carries it, at most it is externalized |
| Network.AgreementAtOnce | consensus/decree.go:1433-1511 | in one state, two externalized values are equal if slices of the two quorums always meet in a node that follows the protocol |
| Network.Agreement | consensus/decree.go:1433-1511 | the same for values externalized at any two times of any run |
| Network.FlatSlicesMeet | consensus/util.go:323-346 | fewer than 2*ceil(nT)-n deviating validators cannot keep two slices of a flat quorum apart |
| Network.FlatAgreement | consensus/decree.go:1433-1511 | agreement for one shared flat quorum with fewer than 2*ceil(nT)-n deviating validators |
| Solo.ProposalDecides | consensus/decree.go:1524-1557 | a node that is a quorum of its own externalizes what it proposes, through all four rules and six nested statements, before the proposal returns |
| Decrees.Decree.constructor | consensus/decree.go:147-175 | a new decree is the empty one and satisfies the invariant |
| Decrees.Decree.MatchingNodes | consensus/decree.go:459-471 | the loop over the stored statements collects exactly the nodes whose statement passes the filter |
| Decrees.Decree.GetStatementQuorum | consensus/decree.go:497-529 | the quorum named by a statement, the local singleton for EXTERNALIZE, nothing for an unknown hash |
| Decrees.Decree.FederatedAccept | consensus/decree.go:402-456 | acceptance by filters over the stored statements, as specified for federated voting |
| Decrees.Decree.FederatedRatify | consensus/decree.go:459-494 | ratification by a filter over the stored statements, as specified for federated voting |
| Decrees.Decree.GetPreparedCandidates | consensus/decree.go:1095-1176 | the collecting loops and the sort yield the descending candidate list |
| Decrees.Decree.GetCommitCounters | consensus/decree.go:1386-1430 | the collecting loop and the sort yield the descending list of counters |
| Decrees.Decree.FindCommitInterval | consensus/decree.go:1361-1383 | the scan with its continue and break cases yields the specified interval |
| Decrees.Decree.ValidateBallot | consensus/decree.go:1671-1744 | every check of a statement, including those that stop the process |
| Decrees.Decree.CheckBallotInvariants | consensus/decree.go:1611-1666 | the process stops exactly in the states that are not consistent |
| Decrees.Decree.AcceptPrepared | consensus/decree.go:1013-1067 | the scan of the candidates and what follows it are rule 1, nested sending included |
| Decrees.Decree.SetAcceptPrepared | consensus/decree.go:1070-1092 | p and q after accepting a ballot, in all four cases |
| Decrees.Decree.ConfirmPrepared | consensus/decree.go:1179-1240 | the two scans for the high and the low ballot are rule 2 |
| Decrees.Decree.SetConfirmPrepared | consensus/decree.go:1243-1266 | h and c after confirming, where c may be emptied |
| Decrees.Decree.AcceptCommit | consensus/decree.go:1269-1325 | rule 3, with its guards by phase and value |
| Decrees.Decree.SetAcceptCommit | consensus/decree.go:1328-1358 | the move to the confirm phase and the new c, h and current ballot |
| Decrees.Decree.ConfirmCommit | consensus/decree.go:1433-1483 | rule 4, with its guards by phase and value |
| Decrees.Decree.SetConfirmCommit | consensus/decree.go:1487-1511 | the move to the externalize phase and the value handed over |
| Decrees.Decree.UpdateBallot | consensus/decree.go:1587-1607 | the new current ballot, with h zeroed when the value changes |
| Decrees.Decree.AssemblePledge | consensus/decree.go:792-832 | the statement a decree makes of its ballots in each phase |
| Decrees.Decree.SendBallot | consensus/decree.go:789-853 | the object is afterwards in the state that the terminating specification gives |
| Decrees.Decree.RecvBallot | consensus/decree.go:749-786 | the same, for a received statement and its result |
| Decrees.Decree.Step | consensus/decree.go:856-897 | the same, for one step with the depth guard and the final resend |
| Decrees.Decree.FindUpdateCounter | consensus/decree.go:900-990 | the loop over ascending counters that never clears its node set |
| Decrees.Decree.Update | consensus/decree.go:900-990 | never updates |
| Decrees.Decree.StartBallot | consensus/decree.go:1524-1557 | the ballot protocol starts with the value of nomination unless it has started |
| Nominations.RatifiedIsAccepted | consensus/decree.go:631-667 | a nominated value that the acceptors ratify is accepted |
| Nominations.CandidatesAcceptedExactly | consensus/decree.go:631-667 | candidates stay within the accepted values if and only if the nomination votes for, and the node finds valid, what it makes candidates |
| Nominations.RecvNomination | consensus/decree.go:545-595 | terminates with its nested sending; votes, accepts and candidates only grow; accepted values are voted for |
| Nominations.SendNomination | consensus/decree.go:598-628 | terminates, as every round trip accepts a new value; candidates stay accepted |
| Nominations.PicksAreNew | consensus/decree.go:178-305 | a round adds only new votes, each the own value or a valid vote of a leader; it adds none only if no leader has one with a hash above zero, or the heaviest is empty |
| Nominations.Nominate | consensus/decree.go:178-224 | a round terminates, votes only grow, accepted values stay voted for and candidates accepted |
| Nominations.CandidatesAcceptedVoted | consensus/decree.go:178-667 | on every run of heard nominations, own rounds, stops and newly known quorums, candidates are accepted and accepted values are voted for, if peers accept only valid values they vote for |
| Nominations.SendPublishes | consensus/decree.go:598-628 | when sending returns and the process has not stopped, the last nomination sent carries exactly the present votes and accepted values, although nested sendings may have overtaken it, if and only if the innermost receiving made no new candidate, or the candidates can be combined, or nothing was accepted and it did so before |
| Nominations.InputPublishes | consensus/decree.go:178-667 | after an input that sends everything is told, whatever was told before, if and only if the sending does not end with a new candidate and a failing combination; other inputs leave it as it was |
| Nominations.VotesAreSent | consensus/decree.go:178-667 | at all times of a run everything is told, or the process has stopped, if and only if no input of the run sends, ends with a new candidate and fails to combine; quorums, validity and the combination may change on the way |
| Nominations.InputHandsOver | consensus/decree.go:545-595 | an input that makes new candidates hands over their combination if it succeeds, and nothing else; no other input hands over anything |
| Nominations.CandidatesAreHandedOver | consensus/decree.go:584-592 | on every run, from an input that makes new candidates until more come, the last value handed over is their combination, or it failed and nothing was handed over |
| Nominations.ReceivedIsPromoted | consensus/decree.go:631-667 | of a received nomination every valid vote that passes is accepted and every acceptance that is ratified becomes a candidate |
| Nominations.NewerExactly | consensus/util.go:241-274 | a nomination is newer if and only if one of its lists has all of the other and more, and is not shorter |
| Nominations.BlockingNeedsNoQuorum | consensus/decree.go:402-456 | a blocking set of voters is accepted whatever quorums are known, and stops nothing |
| Nominations.OnlyVotersBlock | consensus/decree.go:402-456 | who accepts a value without voting for it does not help to block |
| Nominations.RoundStarts | consensus/decree.go:178-224 | a round that goes ahead turns nomination on and votes for what it picked |
| SoloNomination.AloneIsSentExactly | consensus/decree.go:578-592 | a node on its own makes its value a candidate in one round, and tells that it accepted it if and only if the candidates can be combined |
| Nominators.Nominator.PromoteVotes | consensus/decree.go:631-667 | the two loops over the lists of a nomination stop the process exactly if a vote they look into meets a quorum hash nobody knows; otherwise they promote exactly the specified values |
| Nominators.Nominator.RecvNomination | consensus/decree.go:545-595 | stops as specified, or leaves the object in the state that the specification gives |
| Nominators.Nominator.SendNomination | consensus/decree.go:598-628 | the same, for sending |
| Nominators.Nominator.GetConsensusValue | consensus/decree.go:283-305 | the loop finds a valid new vote of the largest hash, if one is above zero, in whatever order the list is |
| Nominators.Nominator.Nominate | consensus/decree.go:178-224 | the loop over the leaders picks what each adds given the others; the object is then in the state that the specification gives |
| Accounts.UpdateWrapsExactly | account/manager.go:164-176 | an addition is refused exactly on overflow; an update wraps exactly when a negative amount meets a balance below minus 2^63 minus it |
| Accounts.OverdrawsExactly | account/manager.go:164-176 | a withdrawal is refused only below minus the amount; it leaves a debt exactly when the balance is smaller than the amount and the difference fits |
| Accounts.UpdateTrustWrapsExactly | account/manager.go:346-357 | an update of a trust wraps exactly if an addition overflows to something within the limit, or a subtraction that is not refused does not fit |
| Accounts.FullTrustOverflows | account/manager.go:346-357 | one unit on a full trust is let through and leaves the lowest balance there is |
| Accounts.TotalSave | account/manager.go:137-149 | saving an account changes the total by the change of its balance |
| Operations.ReserveExactly | account/manager.go:198-213 | the entry count changes if and only if the balance covers the reserve of the new count, exactly unless what is needed does not fit in 64 bits and compares the other way |
| Operations.OpensExactly | tx/op/trust.go:54-82 | a trust is opened if and only if its limit is not zero, its issuer exists and the balance covers one entry more; it is empty and nothing else changes but the count |
| Operations.DropsExactly | tx/op/trust.go:83-97 | a trust is dropped if and only if the balance covers the entries that are left |
| Operations.ChangesExactly | tx/op/trust.go:98-109 | a limit changes if and only if it is not below balance and buying liability, if these fit |
| Operations.OpenedIsReservedExactly | tx/op/trust.go:54-82 | a trust that was opened leaves its holder with the reserve if and only if the check did not wrap |
| Operations.ListReservesExactly | tx/manager.go:330-383 | along every list each trust that is opened leaves its holder with the reserve of all entries, if and only if no check wraps |
| Operations.CreatesExactly | tx/op/account.go:39-89 | exactly when an account is created, what it has, who signs for it and who has paid |
| Operations.PaysNativeExactly | tx/op/payment.go:102-244 | exactly when a native payment is done, and who has how much more and less |
| Operations.PaysAssetExactly | tx/op/payment.go:102-244 | the same for a payment of an issued asset between two holders |
| Operations.IssuerStartsOver | account/manager.go:257-357 | a credit or a debit of the issuer is refused only without its account, and its record starts from the most there is each time |
| Operations.MayNotPayAsset | tx/op/payment.go:102-244 | without authorization it is refused, without a trust of the receiver the process ends |
| Operations.RefusedExactly | tx/manager.go:287-325 | why a transaction is refused its fee, and that nothing but its status changes then |
| Operations.AllPayExactly | tx/manager.go:270-325 | the transactions of one account are all charged if and only if the first is not too old and the balance covers all fees; it has then paid the sum and is at the last one |
| Operations.TxIsAtomic | tx/manager.go:330-383 | a transaction is confirmed with all operations done in turn, or rejected without effect for the first that fails, or that one ends the process |
| Operations.UnsupportedIsEmpty | tx/manager.go:341-383 | a transaction with an unsupported operation is confirmed without effect |
| Transactions.FeesChargeWell | tx/manager.go:270-325 | whatever the fees, no sequence number goes down and accounts are at or past what they paid for; fees that are not negative leave no debt |
| Transactions.OneOutcome | tx/manager.go:259-386 | with distinct sequence numbers any two orders of the list, and any choices on the way, end in the same accounts, trusts and statuses |
| Transactions.TiesMatter | tx/sorter.go:26-28 | two transactions with equal sequence numbers whose order decides the outcome |
| Transactions.EveryTxDecided | tx/manager.go:287-383 | every transaction of a finished list has a status; it was run, and is confirmed or failed in an operation, exactly if its fee was charged |
| TxGroups.GroupDecides | tx/manager.go:265-325 | charging the whole list does to each account what charging its own transactions does |
| TxGroups.FeesIgnoreOtherTies | tx/manager.go:259-325 | the fee phase depends on the order only through ties within one account: without them any two ascending orders leave the same accounts, statuses and transactions to apply |
| Ties.OpFrame | tx/manager.go:389-426 | from databases that agree on the accounts an operation touches, and on whether the issuers it names exist, it succeeds, fails or crashes alike, with the same effect there and none elsewhere |
| Ties.Swap | tx/manager.go:330-383 | two transactions that touch different accounts can be exchanged: same database, same statuses |
| Ties.TiesDoNotMatter | tx/manager.go:259-386 | if transactions with equal sequence numbers touch different accounts, any two orders of a list and any choices on the way finish alike, and then in the same accounts, trusts and statuses |
| TxManagers.AccountEntry.UpdateBalance | account/manager.go:164-176 | the update in place, refused or done as specified |
| TxManagers.AccountEntry.UpdateEntryCount | account/manager.go:198-213 | the 32-bit count and the reserve check, refused or done as specified |
| TxManagers.TrustEntry.UpdateTrustBalance | account/manager.go:346-357 | the update in place, refused or done as specified |
| TxManagers.ApplyCreate | tx/op/account.go:39-89 | the loads, checks and saves of the operation are its specification; a failure may leave anything in the transaction |
| TxManagers.ApplyPayment | tx/op/payment.go:59-244 | the same for a payment as a path payment of one hop: credit, then debit, with the nil trust that ends the process |
| TxManagers.ApplyTrust | tx/op/trust.go:35-112 | the same for creating, changing and deleting a trust |
| TxManagers.BuildOps | tx/manager.go:389-426 | the operations of a transaction, or an error if one is not supported |
| TxManagers.ApplyOps | tx/manager.go:349-356 | operations are applied up to the first that fails |
| TxManagers.SortTxs | tx/sorter.go:22-32 | some ascending arrangement of the same transactions |
| TxManagers.TxManager.ApplyTx | tx/manager.go:330-383 | all operations of a transaction are committed or none, with the status that says which |
| TxManagers.TxManager.GroupByAccount | tx/manager.go:265-268 | the groups are the transactions of each account, in order |
| TxManagers.TxManager.ChargeGroup | tx/manager.go:287-325 | one account, loaded and saved once, is charged for its transactions one after the other |
| TxManagers.TxManager.ChargeFees | tx/manager.go:270-325 | groups in any order of the accounts charge what the sorted list charges; a missing account stops it with each account either untouched or charged in full |
| TxManagers.TxManager.ApplyTxList | tx/manager.go:259-386 | fails exactly if an account is missing; otherwise its outcome is one the list may yield, for every choice of order between equal sequence numbers |
| Conservation.OpConserves | tx/op/payment.go:102-244 | an operation changes the total of native balances by 2^64 times its carries and nothing else, self-payments included; native payments of at most 2^62 and new balances that are not negative have no carries, whatever the balances are |
| Conservation.TxConserves | tx/manager.go:341-383 | so does a transaction, with no carries unless it is committed |
| Conservation.AllFeesConserve | tx/manager.go:270-325 | the fee phase changes the total and the fees charged together by its carries alone; fees that are not negative have none |
| Conservation.ListConserves | tx/manager.go:259-386 | for every list: total plus fees changes by 2^64 times the carries of its updates; so it is unchanged modulo 2^64, and exactly unchanged if no update wraps |
| Conservation.MildListIsExact | tx/manager.go:259-386 | with fees and new balances that are not negative and native payments of at most 2^62 no update wraps and total plus fees is exactly unchanged, for every list and all balances |
| Conservation.RoomyListIsExact | tx/manager.go:259-386 | nor does any if the largest balance, all fees and all amounts fit in 64 bits together |
| Conservation.TrustCounted | tx/op/trust.go:35-112 | creating and deleting trusts keeps the entry count equal to the number of trusts held, in 32 bits |
| Conservation.EntriesExactly | account/manager.go:198-213 | which is the number itself if and only if there are fewer than 2^31 |
| Conservation.ListCounted | tx/manager.go:259-386 | so does every list, whatever fails |
| Assets.PaymentHeld | tx/op/payment.go:102-244 | a payment changes what the holders of an asset have together by what its issuer pays or receives and by 2^64 times the carries of its updates |
| Assets.TrustHeld | tx/op/trust.go:35-112 | a trust operation changes it only by deleting a trust, and then by what that trust held |
| Assets.OpHeld | tx/manager.go:389-426 | the two together, for every operation and every asset, carries included |
| Assets.ListHeld | tx/manager.go:259-386 | over a whole list the holdings of an asset change by the flows of the confirmed transactions and 2^64 times the carries of their updates; exactly by the flows if no update wraps |
| Assets.RoomyListHeld | tx/manager.go:259-386 | exactly by the flows if limits leave room for 2^62 more, the list keeps it so, and it pays at most 2^62 at a time |
| Assets.TrustWithinExactly | tx/op/trust.go:54-109 | a trust operation keeps all trusts within their limits if and only if it does not create one with a negative limit |
| Assets.CreditWithinExactly | account/manager.go:346-357 | a credit that is done leaves a trust beyond its limit if and only if it takes from a holder, does not fit, and comes out above the limit |
| Assets.PaymentWithinExactly | tx/op/payment.go:102-244 | a payment that is done keeps the limits if and only if it is to oneself or does so to neither side |
| Assets.LargePaymentBreaks | tx/op/payment.go:102-244 | a payment above 2^62 that leaves a trust beyond its limit |
| Assets.ListWithinExactly | tx/manager.go:259-386 | a list leaves every trust within its limit after every operation if and only if none of them creates a negative limit or breaks one |
| Assets.ListWithin | tx/manager.go:259-386 | as do all lists of payments up to 2^62 and limits that are not negative |
| Ledgers.AppendKeeps | ledger/buffer.go:57-70 | the buffer stays consecutive, keeps its head and never loses an entry |
| Ledgers.CloseKeeps | ledger/manager.go:520-567 | closing extends the chain by exactly the next ledger or changes nothing but whether the process runs |
| Ledgers.DrainKeeps | ledger/manager.go:217-228 | draining never meets a wrong sequence number, and closes the whole buffer unless an entry is refused |
| Ledgers.RecvExtValKeeps | ledger/manager.go:377-420 | an externalized value keeps the chain, and the buffer and the tasks without a gap |
| Ledgers.GapIsDownloaded | ledger/manager.go:397-413 | on a gap the task is not empty and covers everything up to the buffered ledger |
| Ledgers.NextValueSyncs | ledger/manager.go:377-396 | whatever a manager was that is not downloading, the next value on its hash leaves it synced one ledger further with just this header |
| Ledgers.OtherValueCloses | ledger/manager.go:377-396 | any other value for the next index closes nothing, and stops the process exactly if it is not on the current hash |
| Ledgers.ForkStops | ledger/manager.go:520-567 | a downloaded ledger for the next index on another hash stops the process |
| Ledgers.SyncedExactly | ledger/manager.go:192-420 | on every run, from any time at which a manager is not synced and until it restarts: it is synced if and only if since then it closed the next ledger or got the last missing one, and met no gap after that |
| Ledgers.DownloadedKeeps | ledger/manager.go:199-230 | a downloaded ledger keeps them too |
| Ledgers.CheckpointRecovers | ledger/manager.go:423-517 | the saved checkpoint passes every check and brings back the same tip, from which the invariant goes on |
| Ledgers.RecoveredIsWhole | ledger/manager.go:423-493 | from any database whatever, what is recovered is a tip with its own hash, on the hash it names, not from the future |
| Ledgers.CatchesUp | ledger/manager.go:192-236 | fed with the agreed ledgers from the second on, old ones included, a manager out of sync ends synced, with the buffer closed and every agreed header |
| Ledgers.SameTipSameLedgers | ledger/manager.go:571-618 | two managers with the same current hash hold the same ledgers back to genesis |
| Ledgers.RunKeeps | ledger/manager.go:192-618 | every state of every run, restarts included, is a hash chain from genesis whose tip is in the checkpoint; not syncing means an empty buffer and nothing left to download |
| Downloads.SendsLongestRun | ledger/downloader.go:133-150 | for any arrivals in any order, what is sent is the longest contiguous run from the start of the task, ascending and without repeats |
| Downloads.OrderDoesNotMatter | ledger/downloader.go:133-150 | arrivals with the same indices get equally far in any order |
| Downloads.WholeTaskIsSent | ledger/downloader.go:117-150 | once all ledgers of the task are there, all have been sent |
| Downloads.HonestAnswer | ledger/downloader.go:191-245 | an answer from a peer on the agreed chain is what was agreed on, or it ends the process that asked; the latter if and only if it is about the first ledger or the peer has not stored its set |
| Downloads.TakesExactly | ledger/downloader.go:191-245 | a worker takes a ledger if and only if its set is the one the header names and the value was agreed on for it |
| Downloads.NothingWithoutTheFirst | ledger/downloader.go:117-150 | without the first ledger of a task nothing is sent, whatever else arrives |
| Downloads.SyncsExactly | ledger/manager.go:192-420 | from a gap, with every ledger of the task asked of some honest peer, answers in any order among left-overs, and ledgers taken and values externalized at any time: the process ends if and only if a set that is asked for is missing; otherwise the manager holds all agreed headers past its buffer and is synced unless it was given another task, which is so if and only if a value came at another gap; values in order leave it synced with all of them; a task from ledger 1 ends the process with nothing taken |
| Downloads.RestartSyncs | ledger/manager.go:423-517 | wherever a manager was stopped, after a restart its next task begins with its own next ledger, never the first; the same then holds of this task |
| Downloads.RestartWithoutGap | ledger/manager.go:423-517 | without a gap the next value after a restart is closed at once and the manager is synced |
| Downloads.GenesisStops | ledger/manager.go:245-253 | a manager with only its genesis ledger asks for ledger 1 at its first gap and its process ends; after a restart it asks from ledger 2 |
| Downloads.CatchUpHappens | ledger/manager.go:377-420 | a manager, a chain, a peer, answers in the wrong order and a value among them that meet all these conditions; it catches up with that value or its process ends, by the sets the peer has |
| LedgerManagers.CloseInfoBuffer.Append | ledger/buffer.go:57-70 | appends exactly what follows the last entry |
| LedgerManagers.CloseInfoBuffer.PopHead | ledger/buffer.go:83-92 | takes the first entry off, if any |
| LedgerManagers.Downloader.AddTask | ledger/downloader.go:87-97 | an empty range is refused and leaves everything as it was |
| LedgerManagers.Downloader.Reorder | ledger/downloader.go:133-150 | the inner loop sends what the specification sends |
| LedgerManagers.Downloader.RunTask | ledger/downloader.go:117-150 | the task dies exactly if one of the replies ends the process; otherwise what was brought is put in order as specified |
| LedgerManagers.Manager.AdvanceLedger | ledger/manager.go:571-618 | the new header, tip, count, time and checkpoint |
| LedgerManagers.Manager.CloseLedger | ledger/manager.go:520-567 | every refusal, the stop on a fork, and the advance |
| LedgerManagers.Manager.RecvExtVal | ledger/manager.go:377-420 | the three states and the normal, old and new case |
| LedgerManagers.Manager.DrainBuffer | ledger/manager.go:217-228 | the loop that pops and closes |
| LedgerManagers.Manager.HandleReady | ledger/manager.go:199-230 | the handler of a downloaded ledger |
| LedgerManagers.Manager.CreateGenesisLedger | ledger/manager.go:245-253 | the first ledger |
| LedgerManagers.Manager.RecoverFromCheckpoint | ledger/manager.go:423-493 | succeeds exactly if all checks pass; on an error only the state is set |
| Nodes.Node.CloseLedger | ledger/manager.go:520-567 | closing a ledger with its transactions applied: what is refused leaves the accounts alone; what is closed has had its set applied once and completely, so the accounts go on being what the ledgers make of the first ones |
| Nodes.Node.DrainBuffer | ledger/manager.go:217-228 | the loop with the transactions applied is the specified draining for the sets that could be applied, and the accounts grow by just these sets; a list that fails ends the loop, a panic the process, at that ledger |
| Nodes.Node.HandleReady | ledger/manager.go:199-230 | the handler of a downloaded ledger with the transactions applied: the manager does as specified for the sets that could be applied, and the accounts follow it; a panic leaves the ledgers closed so far in the database |
| Nodes.Node.RecvExtVal | ledger/manager.go:377-420 | the same for an externalized value |
| Nodes.FollowsOnRuns | ledger/manager.go:192-420 | following in this sense is just what a run of the whole system asks of the accounts |
| Replication.ChosenOnce | consensus/engine.go:591-618 | two values that nodes externalized for one index are the same |
| Replication.AnyLedgerExactly | ledger/manager.go:520-567 | taking a ledger from anybody leaves a node with externalized values only, if and only if it fails a check of closing or its value was externalized for its index |
| Replication.FetchedIsKnown | ledger/downloader.go:191-245 | what is downloaded from a node whose ledgers have externalized values has one for its index |
| Replication.RunRecords | ledger/manager.go:192-618 | in every run every ledger and buffered ledger of every node has a value externalized for its index, if the downloaded ledgers that pass the checks do |
| Replication.RunRecordsExactly | ledger/manager.go:192-618 | and only then, with ledgers from anybody |
| Replication.SystemIsVetted | ledger/downloader.go:191-245 | so it is in every run in which only nodes of the system answer |
| Replication.NoFork | ledger/manager.go:377-420 | under that condition the ledgers of two nodes at any two times of a run are parts of one chain, and equal if equally long |
| Replication.ReplaysOnce | tx/manager.go:259-386 | the hash of a ledger determines accounts, trusts, statuses and fees, if ties touch different accounts |
| Replication.TiesDiverge | tx/sorter.go:26-28 | a ledger with other ties that two nodes may apply with different outcomes |
| Replication.RunReplays | ledger/manager.go:520-567 | in every run the accounts of a node that left no list half applied are what its ledgers make of the first accounts |
| Replication.Replicated | ledger/manager.go:520-567 | under that condition two such nodes at the same ledger have the same accounts, trusts, statuses and fees |
| Replication.HistoryConserves | tx/manager.go:259-386 | over all ledgers up to a hash, balances and fees add up to those at the start and entry counts stay right |
| Replication.SupplyIsFixed | node/node.go:206-219 | in every run balances and fees of such a node add up to the tokens of the master account |
| Example.LedgersSpread | ledger/manager.go:192-236 | a run of the whole system in which two nodes reach the same ledger, one by consensus and one by download |
| Example.AccountsSpread | ledger/manager.go:192-236 | this run meets all conditions of replication, for any first accounts |
| Example.ForgedForks | ledger/manager.go:520-567 | a run in which one node closes a ledger from outside that nobody externalized, and two nodes hold different headers at one index |
| Exchange.DivideIsExact | exchange/util.go:51-65 | a quotient within a 64-bit limit is rounded as asked and loses nothing |
| Exchange.Order.Cross | exchange/manager.go:225-284 | the new limits and totals of the order, full or not, and the zero price and the bounds check that stop the process |
| Exchange.ExchangeIsFair | exchange/manager.go:225-297 | with the reciprocal price neither side's limits are exceeded and the price error is below min(N,D), in favour of the side with the larger value |
| Exchange.ExchangeIsLargest | exchange/manager.go:225-297 | less than one unit of the dearer asset is left of what both sides could trade; no trade within the limits in which that unit is paid for has more of it |
| Exchange.GetLiability | exchange/manager.go:457-472 | stops exactly on a zero in the price; otherwise the liability is what an order of the offer's amount trades without limits |
| Exchange.LiabilityExactly | exchange/manager.go:457-472 | an offer buys what its amount pays for, rounded down, and sells what that costs, rounded up; nothing is left if and only if the amount is a whole number of steps |
| Exchange.LiabilityStable | exchange/manager.go:457-472 | the selling liability is at most the amount, and an offer of just that amount has the same two liabilities |

## Left out

- The rpc, peer, node, client, cmd, log and future packages, protobuf and base58 encoding, signatures, hashes and caches.
- Goroutines, locks, timers and channels: an event of the model is one message, one ledger or one task handled to its end, in any order.
- Liveness: that consensus or a download ever finishes is not claimed, only what holds when messages and ledgers arrive.
- The leaders of a nomination round (priorities, weights) and the hashes of votes are parameters, and so is the result of `combineCandidates`, which does not change while one message is handled; the timer of `renominate` is any later round.
- Nominations.PicksAreNew: votes of the same largest hash are not told apart, as their order in the list decides.
- `simplifyQuorum`, `sortQuorum`, `compareQuorum`: a quorum is used as it is given.
- `abandonBallot`: shown to be unreachable from `update`; `updateBallotPhase` with force is not modelled.
- Ballots are values: where the code zeroes a ballot in place, other pointers to it are not modelled.
- Rounding of floating-point thresholds.
- `Fill`, `FillOrder`, offers and payments over several assets: not reachable from a transaction list.
- `AddTx`, transaction history and broadcasting; operations whose payload does not match their type.
- Liabilities of accounts and trusts change only through offers, so `UpdateLiability` and `UpdateTrustLiability` are not modelled.
- TxManagers.SortTxs: the library sort is any method that yields an ascending arrangement; it works on a sequence and not in place.
- Transactions.TiesMatter: a case where equal sequence numbers of different accounts matter.
- Ties.TiesDoNotMatter: the condition is on the accounts that are named; transactions that touch a common account may commute as well, depending on its balance. Which transaction ends the process, if one does, may depend on the order.
- Replication.NoFork: two nodes need not fork when a forged ledger is closed, as both may close the same one; the exact condition is for having externalized values only (`Replication.RunRecordsExactly`). A node that restarts loses its votes and does not count as following the protocol for the indices it took part in.
- Replication.Replicated: a process that dies while it applies a list, and a list that stops at a missing account, can leave some accounts charged; nothing is claimed of such a node from then on.
- Assets.ListWithinExactly: says when every operation leaves the trusts within their limits; a later operation may bring a trust back that an earlier one took beyond.
- Network.Agreement: a decree does not restart; the code keeps its ballots in memory only.
- Ledgers.RunKeeps: sequence numbers are unbounded, a run begins with the genesis ledger, the clock does not move back, and a failing database is not modelled.
- Downloads.SyncsExactly: values that skip one are dropped while the manager is out of sync; whether it then meets another gap depends on the moment they come. A query that fails, or is never answered, is not modelled. The start of a task and each arrival are atomic; the two goroutines of the downloader share the next index without a lock.
