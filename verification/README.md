# Verified model of the consensus core

This project models the consensus core as state machines and proves what every run of them keeps. Each public method
of the program is one atomic step; clocks, digests, signatures and validation verdicts are parameters; hash-map
iteration takes an arbitrary order. `dafny verify dfyconfig.toml` checks everything.

Most components come as a pair. A specification module holds the state as a value, an `Op` datatype, a `Step` function
and `Run` over any sequence of operations, with the invariants and theorems about all runs. A second module holds the
mutable class with the program's fields and loops, each method proved to take exactly the specification's step.

| component | specification | class |
|---|---|---|
| flow graph, Kahn's sort, consensus order | FlowGraphSpec, FlowGraphHistory, KahnSort, ConsensusOrder | FlowGraphs |
| transactions of a snapshot | Traversal, FinalizedTransactions | Traversal, Mercury |
| quorum arithmetic | Quorum | |
| certificates | Certificates | Certificates |
| append-only chain, refined by both finality components | AppendOnlyChain | |
| snapshot manager | SnapshotSpec, SnapshotHistory | SnapshotManagers |
| Mercury finality | MercurySpec | Mercury |
| stake ledger, tiers, unbonding queue | StakingSpec, StakeHistory, Tiers, UnbondingQueue | Staking |
| delegation ledger | DelegationSpec, DelegationHistory | Delegations |
| validator set and reconfiguration | ValidatorSets | ValidatorSets |
| traversal cache | FlowGraphCacheSpec | FlowGraphCaches |
| signing bytes, Merkle reduction, batch packing, running mean | SigningData, MerkleTree, BatchPacking, ValidatorMonitoring | BatchPacking, ValidatorMonitoring |

The History modules say what a run leaves behind in terms of its operations alone: which one each stored field comes
from, and exactly when something is accepted, expires or is removed.

Wrappers, Arithmetic, Collections, Sorting and ByteStrings hold what several components share.

## Where the code departs from its documentation

The model follows the code. These are proved, each with the exact condition or a concrete input:

- a parent that arrives after its child is never linked, so the sort reports a cycle that is not there
  (`KahnSort.LateParentIsNeverLinked`), and pruning a batch whose child is still live does the same
  (`KahnSort.PruningAParentBreaksTheSort`); the exact condition over all runs is `FlowGraphHistory.RunSortable`;
- the consensus order is causal only when ids happen to grow along edges (`ConsensusOrder.ChildCanComeFirst`,
  `ConsensusOrder.CausalExactlyWhenIdsAre`);
- a finalized batch is gathered again, before the cut, until it is pruned or the graph is cleared
  (`Traversal.FinalizedBatchIsGatheredAgain`, `Traversal.GatheredExactlyWhileLive`), so one transaction can be final in
  several snapshots (`FinalizedTransactions.TransactionIsFinalizedTwice`,
  `FinalizedTransactions.FinalizedTwiceExactly`);
- losing exactly the reported maximum of malicious stake leaves no quorum when the total is a multiple of three
  (`Quorum.MaxMaliciousIsTight`);
- pruning all finalized snapshots breaks the digest chain (`SnapshotSpec.PruningAllBreaksTheChain`,
  `SnapshotSpec.HistoryLinkedExactly`), and finalizing before the quorum discards the pending snapshot
  (`SnapshotSpec.PrematureFinalizeDiscards`, `SnapshotSpec.FinalizeKeepsExactly`);
- a certificate commits to the state root only, so honest nodes can finalize different snapshots for one sequence
  (`SnapshotSpec.OneRootTwoSnapshots`, `SnapshotSpec.SnapshotsAgreeExactly`);
- a repeated signature counts again in Mercury (`MercurySpec.DoubleSignerFinalizesAlone`, `MercurySpec.SignedWeight`)
  and in the validator set (`Quorum.RepeatedStakerOverflows`, `Quorum.ListedWeight`);
- redelegation leaves the manager's total out of step, so that a later undelegation underflows it
  (`DelegationSpec.UndelegationUnderflows`, `DelegationSpec.UnderflowExactly`, `DelegationSpec.RedelegationDrift`), and
  a refused move loses its principal (`DelegationSpec.RefusedMoveLosesPrincipal`, `DelegationSpec.BookRunDrift`);
- reconfiguration reports additions it does not make (`ValidatorSets.NewcomerIsReportedNotAdded`,
  `ValidatorSets.EligibleStayExactly`, `ValidatorSets.ReportIsTrueExactly`);
- storing under a cached hash lets the cache outgrow its limit (`FlowGraphCacheSpec.RePutOutgrowsTheLimit`,
  `FlowGraphCacheSpec.RunWithinLimit`).

## Model

| member | source | states |
|---|---|---|
| FlowGraphSpec.AddKeepsInv | src/flow_graph.rs:160-224 | inserting a batch keeps the root and tip sets exact, child lists duplicate-free and naming real parents, and all links running from earlier to later insertion |
| FlowGraphSpec.AddKeepsRanked | src/flow_graph.rs:160-224 | links never run from a later to an earlier insertion, whatever parents a batch names |
| FlowGraphSpec.AddSortable | src/flow_graph.rs:160-224 | after an insertion the graph can be sorted exactly when it could before and the newcomer names distinct parents that are all live; nothing inserted later repairs a missing link |
| FlowGraphSpec.LinkOneMore | src/flow_graph.rs:160-224 | one turn of the parent loop: a live parent gains the child once and stops being a tip, an absent one is skipped |
| KahnSort.LateParentIsNeverLinked | src/flow_graph.rs:160-224 | a child that arrives before its parent makes the sort fail although an order of the two exists; the warning at line 178 promises a later link that no code makes |
| FlowGraphs.FlowGraph.AddBatch | src/flow_graph.rs:160-224 | the new graph and the outcome: a known id is refused before the batch is validated, an invalid batch changes nothing |
| FlowGraphSpec.RemovalSortable | src/flow_graph.rs:433-458 | after a removal the graph can be sorted exactly when every survivor was ready before and loses no parent |
| FlowGraphHistory.PrunedExactly | src/flow_graph.rs:433-458 | over every run a pruning takes a live batch exactly when it was marked final since its insertion and more than the retention time has passed since then |
| KahnSort.PruningAParentBreaksTheSort | src/flow_graph.rs:433-458 | pruning a finalized parent of a live child turns a sortable graph into one that is reported as cyclic |
| FlowGraphs.FlowGraph.PruneOldBatches | src/flow_graph.rs:433-458 | removes exactly the finalized batches older than the retention time from vertices, roots and tips, and counts them; child lists keep the pruned ids |
| FlowGraphSpec.ScanOneMore | src/flow_graph.rs:433-458 | one turn of the scan collects each stale batch once, in any iteration order |
| FlowGraphSpec.RunKeepsInv | src/flow_graph.rs:160-467 | every run of add, certify, finalize, prune and clear keeps: ids and parent lists as inserted, roots exactly the parentless batches, tips exactly the batches without another child, duplicate-free child lists whose members name the lister as parent, and an acyclic link relation |
| FlowGraphSpec.TipsAreChildless | src/flow_graph.rs:160-467 | in every reachable graph without self-parents the tips are exactly the live batches with an empty child list |
| FlowGraphSpec.NoLinkedCycle | src/flow_graph.rs:160-467 | in every reachable graph a path of child links returns to its start only by standing still on a batch that names itself as a parent |
| FlowGraphHistory.ReadyExactly | src/flow_graph.rs:160-467 | over every run a live batch is ready for the sort exactly when its parents were distinct and live at its latest insertion and have been live ever since |
| FlowGraphHistory.RunSortable | src/flow_graph.rs:160-467 | over every run, prunings and clears included, the graph can be sorted exactly when that holds of every live batch |
| FlowGraphHistory.OrderlyRunSortable | src/flow_graph.rs:160-467 | a run can be sorted if every accepted batch names distinct live parents and no pruning takes a parent from a survivor |
| FlowGraphHistory.StoredExactly | src/flow_graph.rs:160-467 | over every run a live batch has the time of its latest insertion, the certificate set last since then, and the final mark exactly if it was set since then |
| FlowGraphHistory.LiveExactly | src/flow_graph.rs:160-467 | a batch becomes live exactly by a well-formed insertion under its id, and apart from pruning only clearing ends that |
| FlowGraphHistory.CertifiedExactly | src/flow_graph.rs:160-467 | over every run a live batch is certified exactly when some operation since its latest insertion certified it |
| KahnSort.WaitsForCurrent | src/flow_graph.rs:307-349 | the counter about to be decremented is positive: no in-degree ever underflows |
| KahnSort.VisitChild | src/flow_graph.rs:307-349 | visiting a child keeps every counter equal to the parent entries not yet credited, and queues the child exactly when its counter reaches zero |
| KahnSort.ZeroMeansReady | src/flow_graph.rs:307-349 | a counter at zero means each parent entry is distinct, live, links to the batch and has been processed |
| KahnSort.NothingIsStuck | src/flow_graph.rs:307-349 | when the queue runs dry in a sortable graph every live batch has been sorted |
| KahnSort.CountDecides | src/flow_graph.rs:307-349 | the final length comparison holds exactly for sortable graphs, and then the result is a topological order |
| FlowGraphs.FlowGraph.TopologicalSort | src/flow_graph.rs:307-349 | terminates, never underflows, succeeds exactly when every live batch has distinct parents that are live and link to it, and then lists all live ids once, each after all its parents, for any map iteration order |
| ConsensusOrder.SameBatchesSameOrder | src/flow_graph.rs:354-369 | the consensus order is a function of the set of live batches alone |
| ConsensusOrder.NodesAgreeOnOrder | src/flow_graph.rs:354-369 | two nodes that hold the same batches list them identically, in whatever order they received, pruned or certified them |
| ConsensusOrder.CausalExactlyWhenIdsAre | src/flow_graph.rs:354-369 | because line 358 re-sorts by bytes, parents precede children in the consensus order exactly when every parent id is byte-smaller than its child id; the module documentation (line 7) promises causal ordering always |
| ByteStrings.LexLessExactly | src/flow_graph.rs:354-369 | one id is smaller when it is a proper prefix of the other, or has the smaller byte where they first differ |
| ConsensusOrder.ChildCanComeFirst | src/flow_graph.rs:354-369 | a concrete run of a parent and then its child, which can be sorted and whose consensus order has the child first |
| FlowGraphs.FlowGraph.GetConsensusOrder | src/flow_graph.rs:354-369 | succeeds exactly for sortable graphs and then lists exactly the live batches in strictly increasing byte order |
| ConsensusOrder.CertifiedListExact | src/flow_graph.rs:372-384 | the filtered list is increasing and holds exactly the certified live batches |
| FlowGraphs.FlowGraph.GetCertifiedBatches | src/flow_graph.rs:372-384 | succeeds exactly for sortable graphs; the result is the increasing list of exactly the certified live batches |
| FlowGraphs.FlowGraph.SetCertificate | src/flow_graph.rs:244-255 | certifies a live batch and nothing else; an unknown id is an error without effect |
| FlowGraphs.FlowGraph.MarkFinalized | src/flow_graph.rs:258-269 | marks a live batch and nothing else; an unknown id is an error without effect |
| FlowGraphs.FlowGraph.Reset | src/flow_graph.rs:461-467 | empties vertices, roots and tips together |
| Traversal.TransactionsInOrder | src/mercury.rs:362-402 | batches contribute their transactions in the order of the list |
| Traversal.NodesGatherTheSame | src/mercury.rs:362-402 | two nodes whose certified batches are the same gather the same transactions in the same order, whatever uncertified batches they hold |
| Traversal.GatheredExactlyWhileLive | src/mercury.rs:511-533 | over every run a transaction is gathered, before the cut, exactly while some batch with it is live and has been certified since its insertion; neither finalizing the batch nor an earlier snapshot ends it |
| Traversal.FinalizedBatchIsGatheredAgain | src/mercury.rs:511-533 | a concrete run whose one transaction is gathered before and again after its batch is marked finalized |
| Traversal.GatherTransactions | src/mercury.rs:511-533 | fails exactly when the graph cannot be sorted; otherwise the transactions of the certified batches in increasing byte order of the batch ids, cut at the limit |
| FinalizedTransactions.FinalizedExactly | src/mercury.rs:511-651 | over every run a final snapshot has exactly the digests of the transactions that the flow graph offered at its creation: those in a live batch certified since its insertion and not cut off |
| FinalizedTransactions.FinalizedTwiceExactly | src/mercury.rs:511-651 | two snapshots of one run finalize the same digest exactly when the flow graph offered it at the creation of both |
| FinalizedTransactions.RepeatedUnlessPruned | src/mercury.rs:511-651 | two snapshots in a row of one graph, each final at once, finalize identical non-empty transaction lists |
| FinalizedTransactions.TransactionIsFinalizedTwice | src/mercury.rs:511-651 | a concrete run of both components in which one transaction is final at sequences 1 and 2, although its batch was marked finalized in between |
| MercurySpec.PendingOpenedBy | src/mercury.rs:605-634 | over every run a snapshot that still waits has the timestamp, state root, transactions, cycle and digest of the creation that opened its sequence, and as signers the creator and every known validator that signed since, in order |
| MercurySpec.FinalizedOpenedBy | src/mercury.rs:605-634 | the same of a final snapshot, with the signers up to the step that made it final |
| Quorum.QuorumsIntersect | src/validator.rs:264-276 | any two quorums of the strict two-thirds test share more than a third of the total stake |
| Quorum.QuorumsShareHonest | src/validator.rs:264-276 | two quorums share an honest staker whenever the Byzantine stake is at most the reported maximum |
| Quorum.ListedWeight | src/validator.rs:264-276 | the weight of a signer list is at least the stake of its set, and equal to it exactly when no staker is listed twice |
| Quorum.QuorumFitsInU64 | src/validator.rs:264-276 | with a total stake of at most a third of the word size and no repeated staker the products of the quorum test fit 64 bits |
| Quorum.QuorumFitsExactly | src/validator.rs:264-276 | every list without a repeated staker fits 64 bits in the quorum test exactly when three times the whole stake does |
| Quorum.RepeatedStakerOverflows | src/validator.rs:264-276 | one staker listed twice pushes the product out of the word within the same bound on the total |
| ValidatorSets.ListedQuorumsIntersect | src/validator.rs:264-276 | two lists that make a quorum of a consistent set share members with more than a third of its stake, if no staker is repeated |
| ValidatorSets.ListedWeightBound | src/validator.rs:264-276 | without repeated stakers the listed weight never exceeds the total |
| Quorum.ToleranceIsQuorum | src/mercury.rs:1205-1236 | the tolerance verdict (at least floor(2T/3)+1) and the liveness quorum (3a > 2T) are the same test for every stake |
| Quorum.MaxMaliciousIsTight | src/mercury.rs:1205-1236 | a quorum survives the loss of any stake up to the reported maximum exactly when the total is not a multiple of three |
| Mercury.MercuryProtocol.VerifyByzantineTolerance | src/mercury.rs:1205-1236 | tolerant exactly when the active stake is a quorum; the safety margin is the largest stake that may still drop out; stakes and member counts as in the set |
| Mercury.MercuryProtocol.SumActiveStake | src/mercury.rs:1061-1110 | the loop sums and counts exactly the active members, in any order |
| Mercury.MercuryProtocol.SumParticipation | src/mercury.rs:1061-1110 | the loop sums the participation rates of exactly the active members and counts them, in any order |
| Mercury.RateExactly | src/mercury.rs:1061-1110 | a participation rate times the snapshots is the participations, and zero before the first snapshot |
| Mercury.AverageExactly | src/mercury.rs:1061-1110 | the average times the number of active members is the sum of their rates |
| Mercury.AverageInRange | src/mercury.rs:1061-1110 | the average participation lies between zero and one when nobody is credited more often than there were snapshots |
| Mercury.MercuryProtocol.CheckLiveness | src/mercury.rs:1061-1110 | stalled exactly without a quorum of active stake, healthy exactly with a quorum and an average participation above 0.66; stakes, counts and average as in the set, the average a rate between zero and one |
| Certificates.SignKeepsInv | src/snapshot.rs:471-516 | the weight stays the sum over distinct signers, the flag stays equal to the strict two-thirds test, and a quorum is never lost |
| Certificates.ArrivalOrderIrrelevant | src/snapshot.rs:471-516 | weight, quorum and signers depend on who signed, not on arrival order or repetition |
| Certificates.WeightIsSignersStake | src/snapshot.rs:471-516 | with weights from one stake table the certificate weight is the stake of its signer set |
| Certificates.CertificatesAgree | src/snapshot.rs:471-516 | two quorum certificates carry one digest when honest validators sign one digest and Byzantine stake is at most the tolerated maximum |
| Certificates.SnapshotCertificate.AddSignature | src/snapshot.rs:471-516 | zero weight is an error, a repeated signer is ignored and reported, otherwise signature, weight and quorum flag move together |
| Certificates.FinalizedVerifies | src/snapshot.rs:595-618 | a reachable certificate passes verification exactly when it is finalized; in particular somebody signed it |
| Certificates.SnapshotCertificate.Verify | src/snapshot.rs:595-618 | the first failing check is reported; success exactly for finalized certificates |
| Certificates.SnapshotCertificate.Finalize | src/snapshot.rs:529-553 | sets the finalization time exactly when the quorum flag is set |
| Certificates.SnapshotCertificate.constructor | src/snapshot.rs:450-468 | an unsigned certificate without quorum, for any total |
| SnapshotSpec.RunKeepsInv | src/snapshot.rs:105-393 | over every run at most the next sequence is pending, finalized sequences are a contiguous range ending at the latest, consecutive ones are linked by digest, and every certificate is sound |
| SnapshotSpec.LatestMovesByOne | src/snapshot.rs:105-393 | the latest sequence moves by one, and exactly when the pending snapshot is finalized with a quorum |
| SnapshotSpec.StoredCertificatesVerify | src/snapshot.rs:105-393 | over every run each stored certificate passes verification |
| SnapshotSpec.StepRefinesChain | src/snapshot.rs:105-393 | every step is a step of the append-only chain as long as pruning keeps at least one snapshot |
| SnapshotSpec.HistoryIsLinked | src/snapshot.rs:105-393 | over every such run the finalized history is one linked chain |
| SnapshotSpec.HistoryLinkedExactly | src/snapshot.rs:105-393 | the finalized history of any run is linked exactly when every snapshot that got finalized was created while the one before it was still retained (or there was none, or its digest is itself zero) |
| SnapshotSpec.HistoryOnlyGrows | src/snapshot.rs:105-393 | the history of a run is the beginning of the history of every continuation that always keeps a snapshot |
| SnapshotSpec.SameLatestSameHistory | src/snapshot.rs:105-393 | two nodes whose latest snapshots have one digest have finalized the same history, barring digest collisions |
| SnapshotSpec.NodesAgree | src/snapshot.rs:105-393 | no two nodes ever finalize different state roots for one sequence, given one stake table, one signature per honest validator and at most a third of Byzantine stake |
| SnapshotSpec.BackpressureNeverFires | src/snapshot.rs:105-181 | the limit of a thousand pending snapshots is never reached in any run |
| SnapshotSpec.NewSnapshotLinks | src/snapshot.rs:105-181 | a new snapshot names the end of the history exactly when the latest snapshot is still retained (or there is none, or its digest is itself zero) |
| SnapshotManagers.SnapshotManager.CreateSnapshot | src/snapshot.rs:105-181 | never fails; the next sequence becomes pending, with a certificate for the state root rather than the snapshot digest (lines 156-157), replacing an older attempt |
| SnapshotSpec.OneRootTwoSnapshots | src/snapshot.rs:156-157 | two concrete runs with one state root finalize different snapshots for sequence 1 although nobody is Byzantine and nobody signs two roots |
| SnapshotSpec.SnapshotsAgreeExactly | src/snapshot.rs:156-157 | two nodes finalize one and the same snapshot for a sequence exactly when the honest signers they share saw one snapshot |
| SnapshotSpec.PruningAllBreaksTheChain | src/snapshot.rs:373-393 | after pruning with a count of zero the next finalized snapshot names the zero digest and the history is no longer linked |
| SnapshotHistory.PruneKeepsExactly | src/snapshot.rs:373-393 | over every run pruning keeps a retained snapshot exactly when its distance to the latest sequence is less than the given number |
| SnapshotSpec.NewestCount | src/snapshot.rs:373-393 | pruning retains exactly the given number of newest snapshots, or all if there are fewer |
| SnapshotSpec.PruneBySorting | src/snapshot.rs:373-393 | sorting the keys and dropping the first ones is the same as keeping the newest |
| SnapshotManagers.SnapshotManager.PruneOldSnapshots | src/snapshot.rs:373-393 | the retained snapshots are the newest ones, for any order in which the keys come |
| SnapshotHistory.PendingExactly | src/snapshot.rs:105-264 | over every run the pending snapshot and its certificate have every field of the last creation, and exactly the signatures that arrived since with positive weight, in time and first of their validator |
| SnapshotHistory.FinalExactly | src/snapshot.rs:105-264 | over every run a retained snapshot is its creation, finalized at the time of the call that finalized it, with exactly the signatures counted by then |
| SnapshotHistory.ExpiresExactly | src/snapshot.rs:38-40 | over every run the pending snapshot is timed out, and removed by the timeout scan, exactly later than the instant of its creation plus the timeout |
| SnapshotHistory.SignatureCountsExactly | src/snapshot.rs:199-204 | over every run a signature of positive weight has no effect after that moment, and otherwise is added exactly if its validator has not signed |
| SnapshotManagers.SnapshotManager.AddSignature | src/snapshot.rs:184-209 | an unknown or expired snapshot is an error without effect; otherwise the pending certificate takes the signature |
| SnapshotSpec.FinalizeKeepsExactly | src/snapshot.rs:230-264 | after a call to finalize a pending snapshot is still pending or final exactly when it had its quorum |
| SnapshotSpec.PrematureFinalizeDiscards | src/snapshot.rs:230-264 | a concrete run: finalizing with 40 of 100 signed leaves nothing for the other 60 to complete, and without that call the same signatures make the snapshot final |
| SnapshotManagers.SnapshotManager.FinalizeSnapshot | src/snapshot.rs:230-264 | succeeds exactly with a quorum, moves the snapshot and returns a verified certificate; a call before the quorum discards the pending snapshot |
| SnapshotManagers.SnapshotManager.ProcessTimeouts | src/snapshot.rs:267-292 | removes and returns exactly the expired snapshots, each once |
| AppendOnlyChain.StepKeepsLinked | src/snapshot.rs:119-128 | an append-only step keeps the chain linked and extends it |
| AppendOnlyChain.BehaviourAppends | src/snapshot.rs:119-128 | over any behaviour of such steps every earlier chain is a prefix of every later one |
| AppendOnlyChain.TipFixesHistory | src/snapshot.rs:119-128 | without digest collisions one tip digest determines the whole history behind it |
| MercurySpec.RunKeepsInv | src/mercury.rs:491-820 | over every run the finalized sequences are exactly one to the current one, and each snapshot, pending or final, names its predecessor digest |
| MercurySpec.StepExtends | src/mercury.rs:491-820 | a step leaves the finalized map alone or adds exactly the next sequence |
| MercurySpec.FinalityIsForever | src/mercury.rs:491-820 | once finalized, a snapshot is the same in every extension of the run |
| MercurySpec.StepRefinesChain | src/mercury.rs:491-820 | every step is a step of the append-only chain |
| MercurySpec.ChainOnlyGrows | src/mercury.rs:491-820 | the finalized chain of a run is the beginning of the chain of every continuation |
| MercurySpec.SameLatestSameChain | src/mercury.rs:491-820 | two nodes with one latest digest have finalized the same chain, barring digest collisions |
| MercurySpec.StepFinalizesWithQuorum | src/mercury.rs:491-820 | whatever a step finalizes carries the weight its signers have in the validator set of that step, and that weight is a quorum |
| MercurySpec.FinalizedHasQuorum | src/mercury.rs:491-820 | over every run under one stake table each finalized snapshot records the weight of its signer list and that is a quorum |
| MercurySpec.FinalizedShareHonest | src/mercury.rs:491-820 | two runs that finalized one sequence with distinct stakers have an honest signer in common, given at most the tolerated Byzantine stake |
| MercurySpec.NodesAgree | src/mercury.rs:491-820 | two runs never finalize different digests for one sequence when honest validators sign one digest, nor different chains before it barring collisions |
| MercurySpec.ChainIsLinked | src/mercury.rs:491-820 | in every reachable state the finalized snapshots form one linked chain |
| MercurySpec.FallbackNeverTaken | src/mercury.rs:565-575 | the zero digest is named only by the first snapshot; the fallback for a missing predecessor is never taken |
| MercurySpec.CreationFinalizesExactly | src/mercury.rs:491-693 | a creation is final at once exactly when the creator alone is a quorum, and without transactions or execution it has no effect |
| Mercury.MercuryProtocol.CreateSnapshot | src/mercury.rs:491-693 | a graph that cannot be sorted is an error without effect; otherwise the digests of the gathered transactions make the next snapshot, final at once or pending |
| Mercury.MercuryProtocol.ProposeSnapshot | src/mercury.rs:491-693 | nothing to finalize is a success without effect, failed execution an error without effect, a failed write an error after the state has moved |
| MercurySpec.SignatureFinalizesExactly | src/mercury.rs:737-820 | an accepted signature makes the snapshot final exactly when three times the weight of all its signers exceeds twice the total; otherwise it keeps waiting with one more signer |
| MercurySpec.OtherSignaturesIgnored | src/mercury.rs:737-820 | a signature for nothing that waits, for something final or by a stranger has no effect |
| MercurySpec.WaitingHasNoQuorum | src/mercury.rs:737-820 | over every run under one stake table no snapshot that still waits carries a quorum |
| MercurySpec.WaitingIsNext | src/mercury.rs:737-820 | only the next sequence can still take signatures |
| MercurySpec.SignedWeight | src/mercury.rs:737-820 | a signed snapshot records its signers true stake exactly when no staker signed twice, since lines 769-780 look for no repeats |
| MercurySpec.SnapshotQuorumsIntersect | src/mercury.rs:737-820 | two snapshots whose recorded weights make a quorum of distinct stakers share an honest signer |
| MercurySpec.DoubleSignerFinalizesAlone | src/mercury.rs:737-820 | a concrete run in which a validator with 40 of 100 stake finalizes a snapshot alone by signing it twice |
| Mercury.MercuryProtocol.AddSnapshotSignature | src/mercury.rs:737-820 | the new state and every outcome: already final, unknown snapshot, unknown validator, below quorum, final, final but not stored |
| StakingSpec.MatureKeepsInv | src/staking.rs:187-284 | processing the queue keeps total = active + unbonding and unbonding = queued amounts; the total falls by exactly the payout and nothing underflows |
| StakingSpec.DepositKeepsInv | src/staking.rs:187-284 | a deposit keeps both sums, the tier equal to the tier of the active stake, and the tier history a chain |
| StakingSpec.UnstakeKeepsInv | src/staking.rs:187-284 | an unstake request keeps both sums, the tier and the history chain |
| StakeHistory.QueuedWasAsked | src/staking.rs:101-107 | over every run each queued request was made by its validator for that amount at its recorded time, and is due 604800 seconds after it |
| StakeHistory.ReleasedWasAsked | src/staking.rs:268-284 | over every run what processing releases was asked for at least 604800 seconds before, and what it leaves are exactly the younger requests |
| UnbondingQueue.QueueSplits | src/staking.rs:268-284 | a request completes exactly when it is at least seven days old; every request is either completed or still queued |
| UnbondingQueue.ScanOne | src/staking.rs:268-284 | one turn of the marking loop |
| StakingSpec.ReleaseIsTimely | src/staking.rs:268-284 | nothing is released early and nothing due stays behind |
| Staking.ValidatorStake.ProcessUnbonding | src/staking.rs:268-284 | the loop and the final filter complete exactly the due requests, in order, without underflow |
| StakingSpec.RunKeepsInv | src/staking.rs:343-488 | over every run of deposit, unstake, process, remove and cycle change each validator is balanced, the network total is the sum of the totals, and the global tier log projects to a chain for every validator |
| StakingSpec.ValidatorConservation | src/staking.rs:343-488 | what a validator deposited is what it holds plus what it was paid, through removals and returns |
| StakingSpec.NetworkConservation | src/staking.rs:343-488 | all deposits ever made are staked or paid out |
| StakeHistory.StakeIsAccounted | src/staking.rs:343-488 | over every run what was deposited is active or was unstaked, and what was unstaked is unbonding or was paid out |
| StakeHistory.DepositsExactly | src/staking.rs:343-488 | over every run a validator records exactly the deposits of at least ten thousand with a 64-byte digest that it made since it joined, in order, with tier, date and digest |
| StakeHistory.StepLogs | src/staking.rs:343-488 | an operation logs a tier change exactly when the tier of its validator stake changes, with both tiers, the new stake, the clock and the cycle |
| StakeHistory.CycleIsCounted | src/staking.rs:343-488 | the cycle counts the cycle changes of the run |
| StakingSpec.TiersFollowStake | src/staking.rs:343-488 | in every reachable ledger the tier is the tier of the active stake, and the log for that validator leads there from Bronze without a gap, even across removal |
| StakingSpec.PowerFollowsStake | src/staking.rs:343-488 | in every reachable ledger a validator with more active stake has at least as much voting power |
| StakingSpec.NoEarlyRelease | src/staking.rs:343-488 | in every reachable ledger a processing step releases only requests at least seven days old and leaves only younger ones |
| StakingSpec.PayoutsLeaveTotals | src/staking.rs:404-427 | the totals of all validators fall by exactly the sum of the payouts |
| StakingSpec.ProcessStep | src/staking.rs:404-427 | processing keeps the network total equal to the sum, and the payouts never exceed it |
| Staking.PayOne | src/staking.rs:404-427 | one turn of the loop over validators, in any order, with the remaining total still covering the payout |
| Staking.StakingManager.ProcessUnbonding | src/staking.rs:404-427 | the new ledger and the released requests per validator, for any iteration order |
| StakeHistory.RemovedExactly | src/staking.rs:474-488 | a validator can be removed exactly when all it deposited has been paid out |
| StakingSpec.RemoveStep | src/staking.rs:474-488 | removal is allowed only at zero stake, so it keeps the network total and the tier log |
| Staking.StakingManager.RemoveValidator | src/staking.rs:474-488 | refused exactly while active or unbonding stake remains |
| Staking.ValidatorStake.AddDeposit | src/staking.rs:187-218 | the new stake and the tier event |
| Staking.ValidatorStake.RequestUnstake | src/staking.rs:221-265 | refused exactly above the active stake; otherwise the new stake, the queued request and the tier event |
| Staking.StakingManager.DepositStake | src/staking.rs:343-377 | amount and digest length are checked before anything changes; the new ledger and the event |
| Staking.StakingManager.RequestUnstake | src/staking.rs:380-401 | the two refusals and the new ledger, whose network total does not move |
| Staking.StakingManager.AdvanceCycle | src/staking.rs:558-561 | only the cycle moves |
| Staking.ValidatorStake.EffectiveVotingPower | src/staking.rs:302-305 | the power is that of the tier the active stake pays for: the recorded tier never lags behind |
| Staking.StakingManager.GetStakedValidators | src/staking.rs:448-454 | exactly the validators with active stake, each once |
| Tiers.FromStake | src/validator_tiers.rs:62-72 | the highest tier whose minimum the stake meets, Bronze below all of them |
| Tiers.VotingPowerExactly | src/validator_tiers.rs:32-72 | half, full, one and a half times or double the stake, with the steps at 50000, 100000 and 500000 |
| Tiers.VotingPowerMonotone | src/validator_tiers.rs:42-49 | more stake never means less voting power, across tier changes and the truncation of staking.rs:302-305 |
| DelegationHistory.DelegateExactly | src/delegation.rs:219-255 | a delegation is taken exactly when it is at least ten, the validator active and not jailed and the total within ten million; it raises one amount and the total, and dates a new entry |
| DelegationHistory.UndelegateExactly | src/delegation.rs:258-299 | an exit is taken exactly when the delegation covers it; it takes all rewards with the last unit and the rounded-down share otherwise, and is queued with delegator, validator, amount, rewards and both dates |
| DelegationHistory.RedelegateExactly | src/delegation.rs:302-334 | the same without a queue |
| DelegationHistory.DistributeExactly | src/delegation.rs:354-364 | every delegator is credited its share of the reward rounded down, and nothing else changes |
| DelegationHistory.ProcessExactly | src/delegation.rs:337-351 | exactly the requests younger than seven days stay, and nothing else changes |
| DelegationHistory.FlagsExactly | src/delegation.rs:557-582 | over every run the two flags are those set last, active and not jailed at first |
| DelegationHistory.PrincipalIsAccounted | src/delegation.rs:219-364 | over every run what a delegator put in is what it still has plus what it took out |
| DelegationHistory.QueueIsAccounted | src/delegation.rs:219-364 | over every run any quantity that entered the exit queue is still in it or was at least seven days old when processed |
| DelegationSpec.RunKeepsInv | src/delegation.rs:219-364 | over every run the total is the sum of the live amounts, all positive, and never above the cap |
| DelegationSpec.StepConserves | src/delegation.rs:219-364 | one operation: rewards and principal that leave the books are exactly those the exit carries |
| DelegationSpec.RunConserves | src/delegation.rs:219-364 | over every run rewards credited are still accumulated or were carried out, and principal delegated is live or has left |
| DelegationSpec.DebitKeepsInv | src/delegation.rs:258-334 | a partial or full exit underflows nothing, removes an emptied delegation, and takes along exactly the rewards it reports |
| DelegationSpec.DistributionIsTight | src/delegation.rs:354-364 | the shares sum to at most the reward, and less than one unit per delegator is left over |
| DelegationSpec.RoundingLoss | src/delegation.rs:354-364 | the same bound for any sub-map of delegators, by induction over the map |
| DelegationSpec.SharesMonotone | src/delegation.rs:354-364 | a larger delegation earns at least as much |
| Delegations.ValidatorDelegationInfo.DistributeRewards | src/delegation.rs:354-364 | the loop credits every share of the same total, in any order, and pays out the reward up to the rounding loss |
| Delegations.ValidatorDelegationInfo.AddDelegation | src/delegation.rs:219-255 | inactive, jailed and over the cap are refused in that order; an existing delegation keeps its rewards and date |
| Delegations.ValidatorDelegationInfo.RequestUndelegation | src/delegation.rs:258-299 | succeeds exactly for a delegation of at least the amount; the queued request carries amount and rewards |
| Delegations.ValidatorDelegationInfo.Redelegate | src/delegation.rs:302-334 | the same debit without a queue |
| Delegations.ValidatorDelegationInfo.ProcessUndelegations | src/delegation.rs:337-351 | completes exactly the requests that are due, in order |
| DelegationHistory.EntryIsRun | src/delegation.rs:398-582 | over every run of the manager each validator entry is the run of the operations addressed to it, a landed move arriving as a delegation |
| DelegationHistory.QueuedWasAsked | src/delegation.rs:398-582 | over every run of the manager each queued undelegation was asked for by its delegator, for that amount at its recorded time, and is due 604800 seconds after it |
| DelegationHistory.ReleasedWasAsked | src/delegation.rs:398-582 | over every run of the manager what processing releases was asked for at least 604800 seconds before, and what it leaves are exactly the younger requests |
| DelegationSpec.BookRunDrift | src/delegation.rs:398-582 | over every run, redelegations included, each entry is sound, and manager total plus rewards compounded by landed moves equals sum of totals plus principal debited by moves that did not land plus principal of exits the manager total did not cover |
| DelegationSpec.BookRunRewards | src/delegation.rs:398-582 | over every run of the manager the rewards credited are still accumulated, or were carried out by exits, compounded by landed moves, or lost with refused moves |
| DelegationSpec.BookRunKeepsInv | src/delegation.rs:398-582 | over every run without redelegation the manager total is the sum of the validators totals |
| DelegationSpec.CoveredWithoutCompounding | src/delegation.rs:447 | after any run in which no landed move compounded a reward, the manager total covers every undelegation the validator accepts |
| DelegationSpec.UnderflowExactly | src/delegation.rs:447 | after any run the subtraction goes below zero exactly when the amount and the compounded rewards exceed the sum and what stayed behind |
| DelegationSpec.UndelegationUnderflows | src/delegation.rs:447 | ten delegated and ten earned, moved to another validator, are twenty there, which the manager total of ten does not cover |
| DelegationSpec.RedelegationDrift | src/delegation.rs:458-495 | the manager total stays the sum exactly when nothing was debited, or the move landed without rewards to compound, or it failed after debiting nothing |
| DelegationSpec.RefusedMoveLosesPrincipal | src/delegation.rs:458-495 | a move below the minimum is refused after the source was debited: the principal is in no entry and in no queue, and still in the manager total |
| Delegations.DelegationManager.Redelegate | src/delegation.rs:458-495 | lands exactly when the target accepts principal plus rewards; when it refuses, the source has already been debited |
| Delegations.DelegationManager.Delegate | src/delegation.rs:398-427 | the new book and the first applicable refusal; a refusal by the validator still leaves an entry for it |
| Delegations.DelegationManager.Undelegate | src/delegation.rs:430-455 | succeeds exactly when the delegation and the manager total cover the amount; when only the delegation does, the subtraction underflows after the entry has changed, which never happens while the manager total is exact |
| Delegations.DelegationManager.ProcessUndelegations | src/delegation.rs:498-516 | every validator is processed, in any order; only non-empty releases are reported |
| Delegations.DelegationManager.DistributeValidatorRewards | src/delegation.rs:519-530 | only a known validator is credited |
| Delegations.DelegationManager.SetValidatorActive | src/delegation.rs:557-568 | flips the flag of a known validator only |
| Delegations.DelegationManager.SetValidatorJailed | src/delegation.rs:571-582 | flips the flag of a known validator only |
| ValidatorSets.MembersExactly | src/validator.rs:339-480 | after runs of both ledgers the members are the old ones that hold ten thousand after what they unstaked, each weighing that plus the sum delegated to it, and the event lists exactly who left and who stakes outside |
| ValidatorSets.AddedAreNotMembers | src/validator.rs:339-480 | the event lists as added only validators that are not members afterwards, contrary to the comment at line 329, and lists a former member as both removed and added exactly when it has stake below the minimum |
| ValidatorSets.EligibleStayExactly | src/validator.rs:339-480 | everybody who meets the minimum is a member afterwards exactly when everybody who meets it was a member before |
| ValidatorSets.ReportIsTrueExactly | src/validator.rs:339-480 | everybody reported as added is a member afterwards exactly when every staker was a member before and meets the minimum |
| ValidatorSets.NewcomerIsReportedNotAdded | src/validator.rs:339-480 | every reconfiguration of one member with half the minimum, beside a newcomer with the minimum, empties the set and reports the newcomer as added |
| ValidatorSets.NewcomerCase | src/validator.rs:339-480 | such a reconfiguration exists, from a concrete run of the stake ledger |
| ValidatorSets.DropThenRestake | src/validator.rs:339-480 | dropping those below the minimum and restaking the rest leaves exactly the old members that meet it |
| ValidatorSets.RestakeOne | src/validator.rs:339-480 | one turn of the restaking loop adds the new stake of one member to the sum |
| ValidatorSets.ValidatorSet.DropBelowMinimum | src/validator.rs:339-480 | the two removal loops remove exactly the members below the minimum, for any order |
| ValidatorSets.ValidatorSet.ReportAdded | src/validator.rs:339-480 | the staked validators that are not members, each once |
| ValidatorSets.ValidatorSet.Restake | src/validator.rs:339-480 | every member gets its active plus delegated stake, and the returned total is the sum |
| ValidatorSets.ValidatorSet.ReconfigureAtCycleEnd | src/validator.rs:339-480 | fails exactly when nothing is staked, without effect; otherwise old members meeting the minimum with stake = active + delegated, a total that is their sum, and an event whose removals are exactly the difference |
| ValidatorSets.ValidatorSet.AddValidator | src/validator.rs:178-200 | invalid metadata or a known id is refused without effect; otherwise member and total move together |
| ValidatorSets.ValidatorSet.RemoveValidator | src/validator.rs:203-216 | the total falls by exactly the member stake; an unknown id is refused |
| ValidatorSets.ValidatorSet.RecordParticipation | src/validator.rs:279-283 | one member gains a snapshot, and a participation if it took part; nobody ever takes part in more snapshots than there were |
| ValidatorSets.ValidatorSet.Clear | src/validator.rs:509-513 | members and total are emptied together |
| ValidatorSets.ValidatorSet.AdvanceCycle | src/validator.rs:291-302 | resets every counter of every member and keeps stakes and total |
| SigningData.DecodeEncode | src/mercury.rs:700-731 | all six fields can be read back from the signed bytes |
| SigningData.EncodeParts | src/mercury.rs:700-731 | sequence, timestamp, previous digest, state root, transaction digests and cycle stand at their fixed places in that order |
| SigningData.LittleEndianByte | src/mercury.rs:700-731 | each byte of a number is its digit to the base 256, least significant first |
| SigningData.EncodeInjective | src/mercury.rs:700-731 | no two different snapshots have the same signed bytes |
| SigningData.EncodeDecode | src/mercury.rs:700-731 | every message of a possible length is the signing data of the fields it decodes to |
| SigningData.PrepareSnapshotSigningData | src/mercury.rs:700-731 | the buffer built field by field is decodable to the snapshot fields |
| MerkleTree.NextLevelExactly | src/optimizations.rs:453-471 | neighbours are hashed together in their order, a last node alone, pair by pair |
| MerkleTree.RootExactly | src/optimizations.rs:453-471 | one node is its own root, two are hashed, and a longer level has the root of the level above |
| MerkleTree.RootBindsLeaves | src/optimizations.rs:453-471 | equally many leaves of one length with the same final node are the same leaves, or two inputs with the same hash are exhibited |
| MerkleTree.ComputeRoot | src/optimizations.rs:453-471 | the loop ends with one node, the root of the recursive definition, for any number of leaves |
| FlowGraphCacheSpec.HitReturnsLastPut | src/optimizations.rs:241-320 | over every run a hit returns what was last put under that hash since the last clear |
| FlowGraphCacheSpec.StepWithinLimit | src/optimizations.rs:241-320 | a cache within its limit stays within it exactly when a put replaces an entry, finds room or evicts an entry that is still cached |
| FlowGraphCacheSpec.RunWithinLimit | src/optimizations.rs:241-320 | a run stays within the limit throughout exactly when no new hash is put into a full cache whose list begins with a hash no longer cached |
| FlowGraphCacheSpec.SizeBound | src/optimizations.rs:241-320 | over every run the cache exceeds its limit by at most one entry for each put under a hash still cached |
| FlowGraphCacheSpec.PutKeepsEntriesExactly | src/optimizations.rs:241-320 | a put keeps every other entry exactly when the hash was cached, a slot was free or the cache was empty |
| FlowGraphCacheSpec.PutKeepsTidyExactly | src/optimizations.rs:241-320 | the access list stays a duplicate-free listing of the cached hashes exactly when the hash put was not cached |
| FlowGraphCacheSpec.OrderIsRecency | src/optimizations.rs:241-320 | over every run that puts only after a miss the access list has exactly the cached hashes, from least to most recently used |
| FlowGraphCacheSpec.EvictsLeastRecentlyUsed | src/optimizations.rs:241-320 | such a run evicts exactly one entry, used longer ago than every other, and keeps the rest |
| FlowGraphCacheSpec.RePutOutgrowsTheLimit | src/optimizations.rs:241-320 | putting a cached hash again lets a cache of size one hold two entries |
| FlowGraphCaches.FlowGraphCache.Get | src/optimizations.rs:241-265 | a hit returns the cached value and touches it; a miss changes nothing |
| FlowGraphCaches.FlowGraphCache.Put | src/optimizations.rs:271-289 | evicts only when full and the hash is new, then stores and appends |
| FlowGraphCaches.FlowGraphCache.Touch | src/optimizations.rs:292-302 | takes out the first occurrence and appends |
| FlowGraphCaches.FlowGraphCache.EvictLru | src/optimizations.rs:305-320 | drops the front of the list and its entry |
| FlowGraphCaches.FlowGraphCache.Clear | src/optimizations.rs:328-336 | empties map and list together |
| BatchPacking.NoLongerPrefix | src/cascade.rs:408-436 | once the next transaction does not fit, no longer prefix fits |
| BatchPacking.DrawOne | src/cascade.rs:408-436 | one turn of the loop: the transaction joins the batch, or the batch is already the longest prefix that fits |
| BatchPacking.Worker.CollectTransactions | src/cascade.rs:408-436 | with positive sizes the batch is the longest prefix of the channel within both limits, at most one further transaction is parked and none is lost or duplicated; the error is returned exactly when the senders are gone and the whole channel stays below both limits, and then what was collected is given up |
| ValidatorMonitoring.MeanStep | src/validator_monitoring.rs:77-119 | one truncating division loses less than one unit per response counted so far |
| ValidatorMonitoring.MeanInRange | src/validator_monitoring.rs:77-119 | the mean of values between two bounds stays between them |
| ValidatorMonitoring.RunBounded | src/validator_monitoring.rs:77-119 | over every run S - n(n-1)/2 <= n*average <= S and minimum <= average <= maximum for the responses of the period, the extremes are attained, and consecutive failures count the trailing run of failures |
| ValidatorMonitoring.CountsExactly | src/validator_monitoring.rs:77-119 | over every run the counters count the snapshots and participations of the period and the failures of the lifetime |
| ValidatorMonitoring.AverageExactly | src/validator_monitoring.rs:77-119 | over every run the average is the running mean of the responses of the period in the order they came |
| ValidatorMonitoring.ValidatorMetrics.RecordSnapshot | src/validator_monitoring.rs:77-119 | the in-place update keeps those bounds for the whole history |
| ValidatorMonitoring.ValidatorMetrics.StartPeriod | src/validator_monitoring.rs:137-145 | everything but the lifetime failure count starts over |

## Left out

- 64-bit overflow: amounts, weights, sequences and times are natural numbers, and `Quorum.QuorumFitsInU64` says when the quorum products fit. In the modelled code no subtraction goes below zero but one, that of the manager total in an undelegation.
- Delegations.DelegationManager.Undelegate: that subtraction is modelled as checked, so it stops the call with `Underflow`; a build without overflow checks wraps around instead.
- DelegationSpec.DistributionIsTight: shares are the integer floor of reward times amount over total; the program computes them in floating point, which agrees while the products stay below 2^53.
- Tiers.VotingPowerMonotone: the multipliers 0.5, 1, 1.5 and 2 are modelled as halves, so the product is exact for every stake, not only below 2^53.
- FlowGraphSpec.RunKeepsInv: assumes that an id determines its batch, as a content hash does.
- MercurySpec.RunKeepsInv: interleavings inside the asynchronous methods, the network, broadcasting and retries; a method is one step.
- Snapshot::has_quorum, batch and metadata validation, byte sizes and all hashes and signatures belong to other crates: the quorum is the same strict two-thirds test, the rest are parameters.
- Disk writes: only whether they succeed, as a parameter of the Mercury methods.
- Maps that own their entries (flow-graph vertices, pending certificates, the stakes and delegations inside the managers) hold them as values that are replaced; aliasing of entries is not modelled. ValidatorStake, ValidatorDelegationInfo and SnapshotCertificate are also modelled as classes on their own.
- MerkleTree.ComputeRoot: stops at the last remaining node; the copy into a 64-byte array is not modelled.
- BatchPacking.Worker.CollectTransactions: only the packing loop; building, signing and sending the batch are not modelled.
- Counters and averages kept only for reporting: hit and miss counts, propagation times, uptime and alert thresholds.
- BatchCertifier, which counts repeated signers as Mercury does: `Quorum.ListedWeight` states the same condition.
- BatchPipeline and ValidatorTierManager: single-branch moves and lookups.
- Mercury.MercuryProtocol.CheckLiveness: the average participation is a real number; floating-point rounding next to 0.66 is not modelled.
- Receipt token ids and the per-delegation claim of rewards.
- Participation penalties and partition recovery, which rest on floating-point thresholds or stubs.
- src/rewards.rs, src/upgrade.rs, src/activation.rs, src/compatibility.rs, src/validator_keys.rs, src/persistence/, src/block_creator.rs, src/commission.rs, src/commission_manager.rs, src/slashing.rs, src/downtime_tracker.rs, src/validator_activation.rs, src/key_rotation.rs and src/validator_ops.rs: floating-point weights, input and output, stubs, or checks of one branch.
