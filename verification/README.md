# Kemi, modelled and proved in Dafny

Kemi is a peer-to-peer compute market: nodes find each other through a Kademlia table, hand work out in chunks, pay
for it with signed transfers on a gossiped ledger, and cross-check what comes back. This project models the
deterministic machinery underneath and proves what it keeps, over every input and every run.

How the files hang together:

- **Ledger.** `Wire` is the signed envelope, `LedgerSpec` the ledger as a value (stored rows, the row that counts for
  each sender and seq, balances, flags, snapshots), `LedgerSteps` its state changes. `GossipLedger` is the object with
  its tables, each method proved against those functions. `Convergence`, `Conservation`, `Pruning` and `LateTransfers`
  are the theorems about one ledger; `Network` is a swarm of replicas with adversarial senders and arbitrary delivery.
- **Gossip and witnesses.** `AntiEntropy` pages one peer's table into another, `Reconciliation` two peers' tables into
  each other; `Committee` ranks witnesses; `WitnessSearch` finds them with the lookup, `ChangingTables` is a swarm in
  which that goes wrong; `Witness` is the push and witness handlers and the check a provider makes before it works.
- **Jobs.** `Scheduler` and `SchedulerRuns` are the redundancy scheduler under every interleaving of its three atomic
  steps; `JobRun` and `JobResults` put it together with a real ledger and payments in flight; `JobRunner` is the object
  that does the same step by step; `JobAccounts` spells out every turn and says where each signed credit is.
- **Lookup.** `Xor`, `RoutingTable` and `Lookup`: the XOR metric, the k-bucket table, the iterative lookup.
- **Cryptography.** `Numbers` (bits, bytes), `Field` (arithmetic modulo 2^255 - 19), `Groups`, `Edwards` (the addition
  formula and double-and-add), `PointCodec` (compression), `Signatures` (Ed25519), `Clamping`, `Montgomery`,
  `Differential` and `X25519` (the ladder), `BoxKey` (the shared key), `Poly1305`, `SecretBox`.
- **Inference.** `Transformer` (attention, layers, greedy choice), `Attention` (what its parts compute, entry by entry)
  and `Sharding` (the layer partition, the vote of each stage, generation).
- **Rate limits.** `RateLimit` (token bucket) and `IPGuard` (per-address accounting with eviction).
- **Shared.** `Sums` (sums over finite sets) and `Basics`. `Feasible` shows that the hypotheses on digests,
  fingerprints, networks and jobs can be met.

What is assumed, always as a hypothesis of the lemma that needs it and never as an axiom:

- A digest, a result fingerprint and a shard fingerprint are injective (such ones exist: `DigestsExist`, `PrintsExist`,
  `MarksExist`). Signatures and node identities are predicates (`Rules.verify`, `Rules.bound`); in `Network` the
  adversary may deliver anything except an envelope that opens for the honest sender and that the honest sender did not
  sign (`Unforged`).
- `FieldFacts`: Fermat's little theorem for 2^255 - 19, 2 is not a square, d is not a square. `EdwardsGroup`: the curve
  points form an abelian group under the affine addition law, whose denominators never vanish. The inverses, square
  roots, the projective addition, compression, and both Montgomery ladder formulas are derived from these, not assumed.
- `Covers`: a live node's table has only live contacts and one in each bucket that contains a live node.
- `ScalarLaws`: division undoes multiplication, exponentials are positive and turn sums into products (`LawsCanHold`).
- Credits are integer micro-credits, as the code's six decimals; a payload holds its amount and time as the decimal
  numbers written there; model arithmetic and the clock are reals.

What the proofs brought to light in the code:

- Pruning is not invisible for a transfer at or below the watermark that this replica never stored: the full ledger
  would store it, the pruned one answers `stale`. `PruningUnobservableExactly` says exactly when nobody can tell, and
  `LateTransferShows` gives a ledger on which a balance differs.
- A snapshot is reproduced after adoption exactly when the ledger's leftover flags are already in it (`AdoptedSnapshot`):
  a snapshot without accounts can be adopted and followed by another one, and its flags stay (`LeftoverFlagShows`).
- A witness signs a receipt for anything at or below its watermark (`BelowWatermarkSignsAnything`), and for a rival it
  had stored before, by gossip or by its own veto: it vetoes a rival exactly on first contact
  (`RivalVetoedExactlyOnFirstContact`), and a payment that was vetoed once passes when it is offered to a further
  provider (`VetoedPaymentFundedLater`).
- Two providers do not ask the same committee, because a lookup leaves out its own querier. They share one witness
  rather than two when both are among the closest nodes (`OneShared`), none if they know only each other
  (`TwoProvidersAlone`), and possibly none if tables change between their lookups (`ChangingTables.LookupsShareNobody`).
- A negative advertised price makes a job's `spent` differ from what the ledger paid: the ledger refuses the payment,
  the job still adds it (`SpentIsDropExactly`, `NegativePriceShows`). Solvency and the cost bound hold all the same.
- A negative `max_stages` plans no stage at all; a model without layers divides by zero (`PlanShards`),
  and so does one with more heads than columns (`Attention`).
- A shard poll counts different answers, not executions: providers that all agree are all asked, and paid, as soon as
  two executions are wanted (`AgreementAsksEverybody`).
- Point decompression accepts y = 1 and y = -1 with the sign bit set, giving x = p, where step 4 of section 5.1.3 of
  RFC 8032 rejects them (`RecoverFinds`).

## Model

| member | source | states |
|---|---|---|
| `LedgerSteps.StatusMeaning` | kemi/gossip_ledger.py:165-176 | a valid transfer above the watermark is `known` exactly if it is in the stored set, else `conflict` exactly if its sender and seq are taken, else `new` |
| `LedgerSteps.StatusElsewhere` | kemi/gossip_ledger.py:136-163 | at or below the watermark it is `stale` whoever signed it, above it `invalid` exactly if the id is not bound to the key |
| `LedgerSteps.WellFormedExactly` | kemi/gossip_ledger.py:136-151 | the first checks, one by one: key, kind, positive amount, positive seq, full id of somebody else, at most five minutes ahead |
| `Wire.RoundedIs` | kemi/gossip_ledger.py:44-45 | rounding goes to the nearest, ties to even |
| `LedgerSpec.Newcomer` | kemi/gossip_ledger.py:199-229 | an account nobody has heard of has a hundred credits, nothing earned and seq 1 ahead |
| `LedgerSteps.AddTxEffect` | kemi/gossip_ledger.py:130-176 | a valid envelope above the watermark is in the stored set afterwards; any other leaves the whole ledger as it was |
| `LedgerSteps.AddTxConsistent` | kemi/gossip_ledger.py:130-176 | whatever arrives: rowids grow, ids stay unique, every row comes from a genuine envelope above its sender's watermark |
| `Feasible.DigestsExist` | kemi/crypto.py:199-206 | payloads can be numbered without collisions: the hypothesis on digests can be met |
| `Feasible.RivalsExist` | kemi/node.py:479-511 | with such a digest there are valid rival transfers that an empty ledger accepts |
| `Feasible.SuccessorsExist` | kemi/gossip_ledger.py:130-176 | and valid transfers of one sender with the seqs 1 and 2 |
| `GossipLedgerClass.GossipLedger.constructor` | kemi/gossip_ledger.py:49-82 | a fresh ledger is the empty one |
| `GossipLedgerClass.GossipLedger.NextSeq` | kemi/gossip_ledger.py:89-93 | the loop over the table finds one more than the highest seq stored or folded |
| `GossipLedgerClass.GossipLedger.ClaimSeq` | kemi/gossip_ledger.py:95-113 | the claimed seq exceeds every stored and every claimed one, is recorded, and nothing else changes |
| `GossipLedgerClass.GossipLedger.MakeTx` | kemi/gossip_ledger.py:115-126 | a signed transfer over a newly claimed seq; only the reservation changes |
| `GossipLedgerClass.GossipLedger.Judge` | kemi/gossip_ledger.py:130-171 | the order of the checks gives the specified status |
| `GossipLedgerClass.GossipLedger.Add` | kemi/gossip_ledger.py:130-176 | status and whole new state of `add_tx`, with the table's shape kept |
| `GossipLedgerClass.GossipLedger.Totals` | kemi/gossip_ledger.py:180-209 | one pass over the rows adds up the incoming and outgoing amounts of the counted transfers only |
| `GossipLedgerClass.GossipLedger.Balance` | kemi/gossip_ledger.py:199-209 | baseline plus counted incoming minus counted outgoing |
| `GossipLedgerClass.GossipLedger.TotalEarned` | kemi/gossip_ledger.py:211-218 | baseline earnings plus counted incoming |
| `GossipLedgerClass.GossipLedger.IsFlagged` | kemi/gossip_ledger.py:220-229 | flagged exactly if flagged in the baseline, a provable double spender, or overdrawn |
| `GossipLedgerClass.GossipLedger.TxsAfter` | kemi/gossip_ledger.py:281-291 | the page continues the table exactly where the cursor left off, up to the cursor to save; it is shorter than the limit only if it reaches the end |
| `GossipLedgerClass.AppliedFolds` | kemi/gossip_ledger.py:304-324 | one turn of the snapshot loop, sender slot then recipient slot, folds exactly one more counted transfer into the accounts |
| `GossipLedgerClass.GossipLedger.TakeSnapshot` | kemi/gossip_ledger.py:293-333 | the accumulating loop over the counted transfers gives the specified accounts and flags |
| `GossipLedgerClass.GossipLedger.AdoptSnapshot` | kemi/gossip_ledger.py:335-350 | succeeds exactly on a ledger without transfers and baseline and for version 1, and then installs accounts and flags; else nothing changes |
| `LedgerSteps.AdoptExactly` | kemi/gossip_ledger.py:335-350 | a ledger with a row or a baseline account is left unchanged by every snapshot, one with neither takes every version-1 snapshot |
| `GossipLedgerClass.GossipLedger.PruneHistory` | kemi/gossip_ledger.py:352-373 | empties the table into the baseline and leaves the snapshot unchanged |
| `Convergence.FeedStores` | kemi/gossip_ledger.py:130-176 | after any sequence of deliveries the stored set is the old one plus the accepted transfers of the sequence |
| `Convergence.SameBookSameAnswers` | kemi/gossip_ledger.py:89-229 | equal baselines and equal stored sets give the same counted rows, balances, earnings, flags, next seqs and snapshot |
| `Convergence.StrongConvergence` | kemi/gossip_ledger.py:130-231 | two replicas that heard the same transfers, in any order and with any repetition, agree on every answer and on the snapshot |
| `Convergence.OrderAndRepetitionDoNotMatter` | kemi/gossip_ledger.py:130-231 | one ledger fed two sequences with the same elements ends with the same set and answers |
| `Conservation.EveryTransferHasTwoEnds` | kemi/gossip_ledger.py:180-209 | over any accounts that include both ends, what counted transfers bring in and take out is equal |
| `Conservation.CreditsConserved` | kemi/gossip_ledger.py:199-209 | with a balanced baseline, balances minus the genesis credit sum to zero over the touched accounts |
| `Conservation.AddTxKeepsBalance` | kemi/gossip_ledger.py:166-176 | `add_tx` keeps the baseline balanced, whatever arrives |
| `Conservation.PruneKeepsBalance` | kemi/gossip_ledger.py:352-373 | folding history, double spends included, keeps the baseline balanced |
| `Conservation.AdoptKeepsBalance` | kemi/gossip_ledger.py:335-350 | adopting the snapshot of a balanced ledger, or being refused, keeps the baseline balanced |
| `Pruning.SnapshotAnswers` | kemi/gossip_ledger.py:293-333 | balance, earnings and next seq of every account can be read off the snapshot |
| `Pruning.SameSnapshotSameAnswers` | kemi/gossip_ledger.py:199-229 | ledgers with the same snapshot give the same four answers for every account |
| `Pruning.PruneKeepsSnapshot` | kemi/gossip_ledger.py:352-373 | pruning leaves the snapshot as it was, and every answer with it |
| `Pruning.AdoptedSnapshot` | kemi/gossip_ledger.py:335-350 | the snapshot after adoption is the adopted one if and only if the leftover flags are among its flags |
| `Pruning.LeftoverFlagShows` | kemi/gossip_ledger.py:335-350 | an empty ledger adopts a snapshot of one flag, then another one, and does not read back the second |
| `Pruning.RefinesPrune` | kemi/gossip_ledger.py:352-373 | a further prune of the pruned ledger keeps it related to the full one |
| `Pruning.RefinesHear` | kemi/gossip_ledger.py:152-176 | hearing one envelope keeps full and pruned ledger related, and the statuses agree except that the pruned one may say `stale` where the full one says `known` or rejects the identity |
| `Pruning.PruningSimulates` | kemi/gossip_ledger.py:130-176 | by induction over any run of replays, fresh transfers and prunes the two ledgers stay related |
| `Pruning.StatusesAgree` | kemi/gossip_ledger.py:130-176 | at every step of such a run both give the envelope one status, except that the pruned one may say `stale` where the full one says `known` or rejects the identity |
| `Pruning.PruningUnobservable` | kemi/gossip_ledger.py:293-373 | after any such run the pruned ledger and the never pruned one have the same snapshot and the same answers for every account |
| `LateTransfers.PruningUnobservableExactly` | kemi/gossip_ledger.py:152-155 | hearing an envelope leaves the two ledgers indistinguishable if and only if it is a replay, above the watermark, invalid, or neutral |
| `LateTransfers.LateTransferShows` | kemi/gossip_ledger.py:152-155 | two transfers of one sender heard in the wrong order around a prune: a balance differs by the whole amount |
| `Network.SafeStep` | kemi/gossip_ledger.py:89-176 | signing, delivery of anything unforged, pruning and adoption all keep: distinct seqs, seqs reserved, no trace of a double spend, balanced books |
| `Network.AlwaysSafe` | kemi/gossip_ledger.py:89-176 | so does every run of the network from empty replicas |
| `Network.HonestSenderNeverReported` | kemi/gossip_ledger.py:225-229 | in every state of every run no replica lists the honest sender among its double spenders |
| `Network.HonestSeqsDistinct` | kemi/gossip_ledger.py:95-126 | two transfers the honest sender ever signed with one seq are the same transfer |
| `Network.CreditsConservedEverywhere` | kemi/gossip_ledger.py:199-209 | on every replica of every run, balances minus the genesis credit sum to zero |
| `Network.WatermarksNeverFall` | kemi/gossip_ledger.py:335-373 | over every run, with prunes and adoptions anywhere, no account's watermark on any replica ever falls |
| `Feasible.NetworksExist` | kemi/identity.py:33-43 | there is a setup whose honest id answers to one key, with a digest that never collides |
| `LedgerSteps.PageIsNextStretch` | kemi/gossip_ledger.py:281-291 | what lies up to the old cursor followed by the page is exactly what lies up to the new cursor: nothing skipped, nothing repeated |
| `AntiEntropy.LinkedStep` | kemi/node.py:609-630 | source inserts, puller inserts and pages, in any interleaving, keep: the rows seen are the source's rows up to the cursor, and all are stored |
| `AntiEntropy.PullingIsComplete` | kemi/node.py:609-630 | after every run of such events the puller stores every row of the source up to its cursor, each brought once |
| `Reconciliation.BothLinkedStep` | kemi/node.py:609-630 | when two replicas page each other, every move of either one, a page applied to a table the other is paging included, keeps both directions linked |
| `Reconciliation.BothPullingsComplete` | kemi/node.py:609-630 | after every joint run from cursors at zero each replica stores every row of the other up to its cursor, each brought once |
| `Reconciliation.CaughtUpReplicasAgree` | kemi/node.py:600-630 | in every joint run: if each replica got an empty page, at whatever moment, and the other has stored nothing it heard directly since, both hold the same transfers, answers and snapshot |
| `Reconciliation.EmptyPagesAlone` | kemi/node.py:609-630 | two empty pages are not enough: a run in which both pages are empty and the replicas differ, because one heard a transfer in between |
| `AntiEntropy.Peer.ApplyRow` | kemi/node.py:621-625 | a row of a consistent source is stored, and counted as pulled exactly if it was new |
| `AntiEntropy.Peer.Apply` | kemi/node.py:621-625 | a page adds exactly its transfers; the count is the growth of the table |
| `AntiEntropy.Peer.PullPage` | kemi/node.py:613-629 | one answered request applies the next page and moves only this peer's cursor |
| `AntiEntropy.Peer.PullFrom` | kemi/node.py:609-630 | with k requests answered before the first failure, the smaller of 500 k and all rows beyond the cursor are read: exactly they are stored, the cursor moves over exactly them, and other cursors stay |
| `AntiEntropy.AnsweredRoundReadsAll` | kemi/node.py:609-630 | so if all twenty requests are answered and at most 10000 rows are new, the whole table has been read |
| `Committee.CommitteeIsBest` | kemi/node.py:513-521 | the committee has five members or all candidates, and nobody left out has earned more than a member |
| `Committee.TiesGoToTheEarlier` | kemi/node.py:518-521 | of candidates that have earned the same those found first are taken |
| `Committee.CommitteesOverlap` | kemi/node.py:513-521 | two committees ranked by any two opinions from any two candidate lists share at least their sizes less the number of all candidates |
| `Committee.SmallestOverlap` | kemi/node.py:513-521 | and for every two lists some two opinions leave exactly that many in common, or none: the bound is the best there is |
| `Committee.ProvidersShareWitnesses` | kemi/node.py:538-541 | if what two providers found leaves each at most one candidate the other lacks, they share one candidate of both; and two, or all of those, unless each has one of its own beside seven common ones |
| `Committee.OneShared` | kemi/node.py:538-541 | nine nodes, both providers among the closest, each finding the other and the same seven: some opinions leave one shared witness only |
| `Committee.TwoProvidersAlone` | kemi/node.py:538-541 | two providers that know only each other share none |
| `WitnessSearch.DrawCommittee` | kemi/node.py:538-541 | lookup, exclusion of sender and self, and ranking: the committee is the best of what the lookup promises this provider, and never holds the sender or the provider |
| `WitnessSearch.AtMostOneFurther` | kemi/dht.py:289-312 | what a lookup returns is the K closest live nodes without the querier, and at most one further node, in the place of a querier that is one of them |
| `WitnessSearch.LookupsShareWitnesses` | kemi/node.py:538-541 | two providers looking up one key share a witness unless both are among its K closest, and two if neither is or the swarm has at most K nodes (fewer only if fewer are candidates of both), whatever the tables did |
| `WitnessSearch.SameKnown` | kemi/dht.py:293-310 | while tables stay, two lookups that hear of each other's querier hear of the same nodes |
| `WitnessSearch.SteadyLookupsShareWitnesses` | kemi/node.py:538-541 | while tables stay, any two providers share a witness as long as any node is a candidate of both |
| `WitnessSearch.ChangingTablesShareNobody` | kemi/node.py:538-541 | if both providers are among the K closest and each list has another further node, both lists keep what a lookup promises and some opinions give committees without a common member |
| `ChangingTables.LookupsShareNobody` | kemi/node.py:538-541 | and it happens: ten live nodes, tables that cover them during both lookups, and the lists those two lookups return give two committees without a common member |
| `ChangingTables.AnswersIn` | kemi/dht.py:94-97 | in those tables a near node answers with all it knows, a far one with the eight near ones and not with its far neighbour |
| `ChangingTables.HearsOf` | kemi/dht.py:293-310 | so a near node that looks the key up hears of the near nodes and the far one in their tables, and of nobody else |
| `Witness.BothReceiptsProveDoubleSpend` | kemi/node.py:479-511 | whatever else it hears, a witness that signed for two rivals holds the proof and flags the sender |
| `Witness.RivalVetoedExactlyOnFirstContact` | kemi/node.py:486-511 | after a receipt, a valid rival is vetoed if and only if it was not stored before, and signed if and only if it was |
| `Witness.OneReceiptPerSlot` | kemi/node.py:479-511 | of two rivals, each asked for as the witness's first contact with the transfer, it signs at most one |
| `Witness.VetoedThenSigned` | kemi/node.py:486-511 | a rival that was vetoed is signed when it is asked for again |
| `Witness.BelowWatermarkSignsAnything` | kemi/node.py:486-511 | a valid transfer at or below the watermark gets a receipt |
| `Witness.RefusedExactly` | kemi/node.py:486-511 | refused exactly if invalid, vetoed exactly if in conflict, else a receipt for this transfer by this witness |
| `Witness.VetoCarriesProof` | kemi/node.py:492-499 | a veto carries a stored transfer of the same sender and seq and another id |
| `Witness.AtMostOneFunded` | kemi/node.py:555-585 | if one reachable witness sits on both committees and each check is its first contact with the transfer, at most one of the two checks passes |
| `Witness.PassesExactly` | kemi/node.py:555-585 | with two or more witnesses reached a check passes exactly if none objects and two signed a receipt for this transfer; with one, if that one did; with none it passes |
| `Witness.VetoedPaymentFundedLater` | kemi/node.py:555-585 | without first contact both pass: one provider takes a payment, a second is vetoed on its rival, and the check of a third that asks the same witness passes |
| `Witness.PushMeaning` | kemi/node.py:463-475 | the envelopes passed on are exactly those stored, in order, and the senders marked are exactly the newly provable double spenders or ones proved again |
| `Witness.DoubleSpendersStep` | kemi/node.py:466-472 | one envelope adds a double spender exactly when its status is `conflict`, and it is the sender |
| `Witness.PeerNode.OnLedgerPush` | kemi/node.py:458-475 | refuses more than 500 envelopes; else ledger, count, marks and forwarded envelopes are those of the whole sequence |
| `Witness.PeerNode.PushOne` | kemi/node.py:463-472 | one pushed envelope |
| `Witness.PeerNode.OnTxWitness` | kemi/node.py:479-511 | the reply and the new ledger are those of the witness specification, evidence included |
| `Witness.PeerNode.WitnessCheck` | kemi/node.py:555-585 | passes exactly if nobody vetoes and the receipts reach the smaller of two and the reachable witnesses; the first veto feeds its evidence to the ledger, passes it on and marks the sender, else nothing changes |
| `Witness.PeerNode.TakeEvidence` | kemi/node.py:575-578 | the evidence is applied in order and all of it passed on |
| `Scheduling.WinnerInRange` | kemi/consumer.py:149-156 | the winner is the first vote whose fingerprint has a majority, and there is none exactly if no vote has |
| `Scheduling.SaneAcquired` | kemi/consumer.py:127-140 | handing out a chunk keeps the invariant: distinct voters, results plus in flight within `needed`, decision beyond reach |
| `Scheduling.CompletedUndecided` | kemi/consumer.py:142-163 | a result on an open chunk either decides it so that nothing in flight can overturn it, or, if it was the last asked for, raises `needed` by one until it is two above the redundancy |
| `Scheduling.NeededExactly` | kemi/consumer.py:157-160 | an undecided chunk needs the redundancy, or one more than its votes, but never more than two extra |
| `Scheduling.UndecidedIsOpen` | kemi/consumer.py:127-160 | with nothing in flight and votes left it is open to every provider that has not voted and has attempts left |
| `Scheduling.CompletedDecided` | kemi/consumer.py:142-156 | a late result never changes what was accepted |
| `Scheduling.SaneCompleted` | kemi/consumer.py:142-163 | recording a result keeps the invariant and appends exactly this vote |
| `Scheduling.SaneFailed` | kemi/consumer.py:165-166 | a failure keeps the invariant and the decision |
| `Scheduling.OneMajority` | kemi/consumer.py:148-156 | two fingerprints with a majority are one, and it is the accepted one's |
| `SchedulerRuns.FirstEligibleMeans` | kemi/consumer.py:127-140 | the chunk handed out is the first that may be |
| `SchedulerRuns.PlayKeeps` | kemi/consumer.py:127-166 | each atomic step keeps every chunk sane and touches one chunk |
| `SchedulerRuns.MajorityIsForEver` | kemi/consumer.py:142-166 | in every interleaving, a fingerprint that has a majority at some state is the only one that ever has, and what was accepted stays accepted |
| `SchedulerRuns.WorkIsBounded` | kemi/consumer.py:37-39 | in every interleaving votes plus in flight stay within `needed`, `needed` within redundancy plus two, attempts within two, voters distinct |
| `SchedulerRuns.NobodyIsStuck` | kemi/consumer.py:127-163 | the same on every board of every run, and the worker of such a provider is handed a chunk no later in line |
| `SchedulerRuns.AcceptedExactly` | kemi/consumer.py:148-156 | in every run a result is accepted exactly when more than half of the redundancy agrees on it, and it is the earliest vote of that camp |
| `SchedulerRuns.AttemptsAreCounted` | kemi/consumer.py:127-140 | in every run the attempts of a provider at a chunk are the times it was handed that chunk |
| `SchedulerRuns.FirstBigGroupWins` | kemi/consumer.py:147-156 | the first fingerprint group of majority size, in dictionary order, is the camp of the specified winner and its first member cast the accepted vote |
| `SchedulerRuns.NoBigGroupNoWinner` | kemi/consumer.py:149-163 | if no group is that large there is no winner |
| `SchedulerRuns.Scheduler.constructor` | kemi/consumer.py:119-121 | every chunk starts open and sane |
| `SchedulerRuns.Scheduler.Done` | kemi/consumer.py:123-125 | done exactly if every chunk has an accepted result |
| `SchedulerRuns.Scheduler.Acquire` | kemi/consumer.py:127-140 | the loop hands out the first eligible chunk, or none, and records the attempt |
| `SchedulerRuns.Scheduler.Fingerprints` | kemi/consumer.py:108-112 | the dictionary filled vote by vote holds one group per fingerprint, each its whole camp, in order of first appearance |
| `SchedulerRuns.Scheduler.Tally` | kemi/consumer.py:147-156 | the accepted result is the winner's, the losers are exactly the providers of every other fingerprint |
| `SchedulerRuns.Scheduler.Complete` | kemi/consumer.py:142-163 | the whole new board after a result; the losers are exactly those who voted for another fingerprint than the accepted one |
| `SchedulerRuns.Scheduler.Fail` | kemi/consumer.py:165-166 | the whole new board after a failure |
| `Feasible.PrintsExist` | kemi/consumer.py:89-91 | results can be numbered without collisions: the hypothesis on fingerprints can be met |
| `Feasible.JobsExist` | kemi/consumer.py:305-335 | there is a caller with a provider at any price, negative ones included, that all job theorems apply to |
| `JobRun.OwnPaymentApplied` | kemi/consumer.py:418-420 | applying an own payment signed earlier lowers the balance by exactly its amount and occupies only its own seq |
| `JobRun.PendingCovered` | kemi/consumer.py:429-434 | at any prices the margin kept for requests in flight, or nothing if it is negative, covers every signed payment in flight that can take something |
| `JobRun.OrderlyStep` | kemi/consumer.py:342-427 | every event keeps board, pending payments and ledger in step, for every price |
| `JobRun.SolventStep` | kemi/consumer.py:359-420 | at any prices every event keeps the positive payments in flight within the balance and the balance at zero or above, or where an overdrawn sender started |
| `JobRun.SpentStep` | kemi/consumer.py:418-420 | with prices that are not negative every event keeps `spent` equal to the drop of the balance |
| `JobRun.SpentIsDropExactly` | kemi/consumer.py:418-420 | settling keeps `spent` equal to the drop of the balance if and only if the price is not negative |
| `JobAccounts.DispatchExactly` | kemi/consumer.py:355-371 | a worker's turn in full: nothing open to it, or the first open chunk taken, an attempt used, and either its price per item signed to this provider under a new seq and in flight, or, if balance less one full chunk at the dearest price per request in flight does not cover it, three strikes |
| `JobAccounts.AnswerExactly` | kemi/consumer.py:380-427 | what no answer, a refusal and results each do to chunk, payments, strikes, exposure, spent and ledger |
| `JobAccounts.ProviderIsPaid` | kemi/consumer.py:416-420 | a settled payment raises the provider's earnings and balance by its price per item |
| `JobAccounts.ThreeStrikesAreFinal` | kemi/consumer.py:350-362 | in every execution a worker with three strikes and nothing in flight never takes another turn |
| `JobAccounts.EveryCreditAccounted` | kemi/consumer.py:339-420 | at every step of every execution all credits ever signed are spent, exposed, freed by an unreachable provider, or in flight, each once |
| `JobAccounts.AdmittedExactly` | kemi/consumer.py:305-327 | a job is admitted exactly if there is something to do, enough providers for the redundancy and a balance for all items at the lowest price and full redundancy |
| `JobResults.CutPieces` | kemi/consumer.py:329-334 | the chunks put together again are the items, none longer than the chunk size |
| `JobResults.PiecesAreFull` | kemi/consumer.py:329-334 | all chunks but the last have exactly the chunk size |
| `JobResults.AdmittedBegins` | kemi/consumer.py:305-335 | a job that passes the admission checks starts with the chunks of its items, nothing spent and nothing in flight |
| `JobResults.JobStaysSolvent` | kemi/consumer.py:342-434 | at every step of every execution, at any prices: positive payments in flight stay within the balance, which is not driven below zero; `spent` is at most (redundancy + 2) x dearest price x items; no provider gets more than two attempts at a chunk; and, if no price is negative, `spent` is the drop of the balance |
| `JobResults.NegativePriceShows` | kemi/consumer.py:418-420 | one provider at a negative price, one dispatch and one answer: `spent` is -1, the balance has not moved |
| `JobResults.AcceptedIsRight` | kemi/consumer.py:148-156 | a chunk that fewer than a majority of providers answer wrongly can only accept the right result |
| `JobResults.JobReturnsTheTask` | kemi/consumer.py:438-449 | if that holds for each chunk, a job that returns gives the function applied to the items in order, for every chunk size and execution |
| `JobResults.RunPipeline` | kemi/consumer.py:606-636 | a report is that of one job execution per stage, each started from what the one before assembled; an error means no stage, or the first stage whose job fails |
| `JobResults.PipelineComposes` | kemi/consumer.py:606-636 | if in the execution of every stage the wrong votes are a minority on each chunk, the last report is the composition of the stages' functions mapped over the items in order |
| `JobRunning.JobRunner.constructor` | kemi/consumer.py:335-340 | a fresh runner |
| `JobRunning.JobRunner.PendingMargin` | kemi/consumer.py:429-434 | the loop over the chunks adds up the margin |
| `JobRunning.JobRunner.SendNext` | kemi/consumer.py:355-366 | a worker's turn is the specified dispatch: nothing, skipped for lack of credits, or sent |
| `JobRunning.JobRunner.SendTo` | kemi/consumer.py:359-371 | a request is signed and sent exactly if the balance less the margin covers it |
| `JobRunning.JobRunner.GiveUp` | kemi/consumer.py:380-397 | the chunk is free again, the provider has a strike, the promised amount counts as exposure or not |
| `JobRunning.JobRunner.OnUnreachable` | kemi/consumer.py:380-387 | an unreachable provider costs nothing |
| `JobRunning.JobRunner.OnRefused` | kemi/consumer.py:388-412 | a refusal or a malformed answer adds the amount to the exposure |
| `JobRunning.JobRunner.OnResults` | kemi/consumer.py:413-427 | the payment is applied, the results recorded, the losers named |
| `JobRunning.PendingIsBusy` | kemi/consumer.py:355-379 | in an orderly job every pending payment has its request in flight, so an answer always finds its chunk |
| `Xor.DistanceInjective` | kemi/dht.py:45-46 | two nodes at the same distance from one target are the same node |
| `Xor.SameBucketSamePrefix` | kemi/dht.py:76-78 | nodes in one bucket agree on every bit down to the one where they leave the owner |
| `Xor.BucketMateIsCloser` | kemi/dht.py:76-78 | every contact in the bucket of x is closer to x than the owner is |
| `Xor.BetweenBucketMates` | kemi/dht.py:76-78 | a node whose distance to a target lies between those of two nodes of one bucket is closer to the nearer of them than the table's owner is |
| `RoutingTables.SeenGood` | kemi/dht.py:83-87 | seeing a contact moves it to the end, keeps the bucket distinct and within K, and drops someone only from a full bucket |
| `RoutingTables.SeenExactly` | kemi/dht.py:83-87 | a known contact moves from its place to the end, a new one is appended, and from a bucket of eight the one not seen for longest falls out |
| `RoutingTables.AddGood` | kemi/dht.py:80-87 | `add` keeps every bucket distinct, short and holding only ids of its prefix, and touches one bucket |
| `RoutingTables.RemoveGood` | kemi/dht.py:89-92 | `remove` keeps the shape and removes exactly this id |
| `RoutingTables.ClosestMeans` | kemi/dht.py:94-97 | `closest` is sorted by distance, as long as it can be, and holds exactly the contacts with fewer than `count` closer ones |
| `RoutingTables.RoutingTable.constructor` | kemi/dht.py:72-74 | an empty table |
| `RoutingTables.RoutingTable.AddContact` | kemi/dht.py:80-87 | pop, append and evict in place give the specified table |
| `RoutingTables.RoutingTable.RemoveContact` | kemi/dht.py:89-92 | the specified removal |
| `RoutingTables.RoutingTable.Closest` | kemi/dht.py:94-97 | the specified answer, without changing the table |
| `Lookup.AddKeepsCovering` | kemi/dht.py:80-87 | adding a live contact, with eviction, never uncovers a bucket |
| `Lookup.AnswerReachesPast` | kemi/dht.py:94-97 | if a covering table has a contact its answer leaves out, the answer holds one between any of the K closest live nodes and that contact |
| `Lookup.NobodyCloseIsMissed` | kemi/dht.py:293-310 | once every known node was asked, every node among the K closest of all live nodes is known |
| `Lookup.RankedShortlist` | kemi/dht.py:311-312 | so the first K of the ranked shortlist contain all of them but the querier |
| `Lookup.AskRound` | kemi/dht.py:294-310 | one round asks at most ALPHA new contacts and learns exactly what they answer |
| `Lookup.RoundAsks` | kemi/dht.py:294-301 | a round asks the three closest contacts not asked yet, or all of them |
| `Lookup.FindClosest` | kemi/dht.py:289-312 | with tables that cover the live nodes at every round, the lookup terminates and returns, sorted, every live node but the querier that is among the K closest, and nothing farther when the querier is not one of them; the result is the K closest of the least set of nodes closed under the answers given |
| `RateLimit.WindowBound` | kemi/ratelimit.py:42-49 | in any window of any run the amount granted is at most the burst plus the rate times the window's length |
| `RateLimit.SteadyCallerIsServed` | kemi/ratelimit.py:42-49 | calls spaced so that as many tokens flow in between as each takes are all granted |
| `RateLimit.CallCosts` | kemi/ratelimit.py:42-49 | a refused call costs nothing at any later time, a granted one its amount, and a call is granted exactly if the burst and the tokens there are cover it |
| `RateLimit.TokenBucket.constructor` | kemi/ratelimit.py:36-40 | a full bucket |
| `RateLimit.TokenBucket.TakeTokens` | kemi/ratelimit.py:42-49 | refill, cap and take give the specified bucket and answer |
| `IPGuards.CountersAreExact` | kemi/ratelimit.py:86-99 | in every run an address's counter is its granted connects minus its effective disconnects, and within the limit, evictions included |
| `IPGuards.TableStaysSmall` | kemi/ratelimit.py:70-84 | the table never exceeds the cap or one more than the peak number of addresses with a connection open |
| `IPGuards.OpenConnectionIsKept` | kemi/ratelimit.py:79-84 | an address with a connection open is never dropped |
| `IPGuards.KeptBucketSeesItsCalls` | kemi/ratelimit.py:70-87 | while an address is kept its bucket is exactly the result of its own requests |
| `IPGuards.KeptWindowBound` | kemi/ratelimit.py:86-87 | in any stretch of any run over which an address is kept, the requests granted to it are at most the burst plus what flows in between its first and last |
| `IPGuards.LongestIdleGo` | kemi/ratelimit.py:79-84 | eviction drops a quarter of the idle addresses, at least one, none of them seen later than an idle one that stays |
| `IPGuards.NobodyDroppedWithRoom` | kemi/ratelimit.py:70-77 | below the cap, and for a known address, nobody is dropped; a new address starts with a full bucket |
| `IPGuards.NextKeeps` | kemi/ratelimit.py:70-99 | what each event does to every counter and to the size of the table |
| `IPGuards.IPGuard.constructor` | kemi/ratelimit.py:62-68 | an empty table |
| `IPGuards.IPGuard.Evict` | kemi/ratelimit.py:79-84 | removes the longest idle quarter of the idle entries, at least one if there is any, and no other |
| `IPGuards.IPGuard.StateOf` | kemi/ratelimit.py:70-77 | a known address is refreshed, a new one added after making room |
| `IPGuards.IPGuard.AllowRequest` | kemi/ratelimit.py:86-87 | a step of the run relation, with the bucket's answer |
| `IPGuards.IPGuard.TryConnect` | kemi/ratelimit.py:89-94 | a step of the run relation, granted exactly below the limit |
| `IPGuards.IPGuard.Release` | kemi/ratelimit.py:96-99 | a step of the run relation, never below zero |
| `Transformer.PrefixLayers` | kemi/model.py:161-200 | causality: any layer range on a prefix gives the prefix of running it on everything |
| `Transformer.LayersCompose` | kemi/model.py:193-200 | adjacent layer ranges one after the other are the joint range |
| `Transformer.GreedyMeans` | kemi/model.py:212-215 | the greedy choice is the first index of the largest logit |
| `Transformer.Attention` | kemi/model.py:161-177 | fails exactly with no head or more heads than columns, where the code divides by zero; else the in-place loops give, for each row, the projected causal attention of the specification |
| `Attention.AttentionEntry` | kemi/model.py:161-176 | every entry of a head is the sum of the values of the rows so far, weighted by the softmax of the scaled dot products of query and keys over the head's columns |
| `Attention.SoftmaxMeans` | kemi/model.py:168-175 | softmax weights are positive, add up to one and stand to each other as the exponentials of the score differences |
| `Attention.SameValuesPassOn` | kemi/model.py:161-177 | so rows that agree in their values pass that value on, whatever queries and keys are; the first row passes its own |
| `Attention.LayerNormIs` | kemi/model.py:180-190 | a norm is the row less its mean over the root of its variance, scaled and shifted |
| `Attention.LayerAdds` | kemi/model.py:180-190 | a layer adds attention over the normalised rows to the row, then the feed-forward network over the normalised sum |
| `Attention.EmbedIs` | kemi/model.py:155-158 | token i enters as its row of the table, modulo the vocabulary, plus position i |
| `Attention.PrefixLogits` | kemi/model.py:204-209 | the logits after a prompt are those at that place in any longer text |
| `Transformer.FillContext` | kemi/model.py:168-176 | head by head every entry of the context is filled with its head's mix, columns beyond the heads stay zero |
| `Transformer.FillColumns` | kemi/model.py:169-176 | one head of every row changes its own columns and nothing else |
| `Transformer.FillHead` | kemi/model.py:169-176 | one head of one row changes its own columns and nothing else |
| `Transformer.ForwardLayer` | kemi/model.py:180-190 | the two residual steps give the specified layer, or the failure of its attention |
| `Transformer.ForwardLayers` | kemi/model.py:193-200 | fails for ranges outside the model and for any layer of a model that cannot run, else runs the range |
| `Transformer.NextToken` | kemi/model.py:212-215 | the loop finds the first largest logit |
| `Sharding.PlanShards` | kemi/sharded.py:60-76 | the plan is gap-free from layer 0 to the last, widths differ by at most one, slices go to the providers in list order; exactly when planning fails |
| `Sharding.PlanIsWholeModel` | kemi/sharded.py:144-147 | running a gap-free plan slice by slice is running all layers |
| `Sharding.Poll` | kemi/sharded.py:105-126 | one exact count per distinct answer, for marks of any kind that tell answers apart; it ends exactly when an answer has a quorum and as many different answers are in as executions were wanted |
| `Sharding.RunStage` | kemi/sharded.py:97-132 | an honest majority wins; without a quorum the commonest answer does; `verified` exactly if two of those asked gave the returned answer |
| `Sharding.AgreementAsksEverybody` | kemi/sharded.py:111-113 | providers that all agree never end the poll early once two executions are wanted |
| `Sharding.MostVotesMeans` | kemi/sharded.py:127-130 | the plurality is the first answer with the most votes |
| `Sharding.RunStages` | kemi/sharded.py:144-149 | if each stage, asked for what the stages before it should have passed on, has an honest majority, the whole plan gives the plan's result |
| `Sharding.Generate` | kemi/sharded.py:134-156 | if that holds in every poll this generation takes, greedy generation returns exactly the local model's tokens, or fails as it would |
| `Sharding.GeneratedAreGreedy` | kemi/sharded.py:134-156 | exactly the wanted number of tokens follows the prompt, each the greedy choice after the window before it |
| `Sharding.WindowIs` | kemi/sharded.py:144-144 | the window is the last `max_seq` tokens, or all |
| `Field.CandidateIsRoot` | kemi/crypto.py:64-74 | if the number has a square root, the power and its correction by a root of -1 give one |
| `Field.InverseWorks` | kemi/crypto.py:39-40 | the power p - 2 inverts every number not divisible by p |
| `Field.PIs` | kemi/crypto.py:29 | the modulus is 2^255 - 19 |
| `Field.RemIsMod` | kemi/crypto.py:39-51 | the model's remainder is Python's |
| `Edwards.EdwardsAddAdds` | kemi/crypto.py:43-51 | the projective formula adds: representatives of two elements give a representative of their sum |
| `Edwards.PointEqualMeans` | kemi/crypto.py:103-104 | the cross-multiplied comparison holds if and only if the elements are equal |
| `Edwards.ScalarMultLoop` | kemi/crypto.py:54-61 | the loop is the double-and-add function |
| `Edwards.ScalarMultMultiplies` | kemi/crypto.py:54-61 | double-and-add gives the multiple, for every scalar and point |
| `PointCodec.CompressEncodes` | kemi/crypto.py:84-88 | compression depends only on the element: its y and the parity of its x |
| `PointCodec.RecoverFinds` | kemi/crypto.py:64-75 | the sign picks, of the two roots, the one of its parity; for x = 0 and sign 1 it is p |
| `PointCodec.DecompressUndoes` | kemi/crypto.py:91-100 | decompressing the encoding of an element gives back its coordinates |
| `PointCodec.DecompressExactly` | kemi/crypto.py:91-100 | 32 bytes decompress if and only if their low 255 bits are the y of a curve point, and the result represents it |
| `Signatures.BaseRepresents` | kemi/crypto.py:78-81 | the recovered base point exists and is the one with y = 4/5 and even x |
| `Signatures.VerifyExactly` | kemi/crypto.py:130-141 | a signature is accepted if and only if both points decode, s is below the order and s B = R + h A in the group, h being the digest of R, key and message modulo the order |
| `Signatures.ResponseSolves` | kemi/crypto.py:125-126 | reducing r + h a modulo the order still solves that equation |
| `Signatures.SignedVerifies` | kemi/crypto.py:115-141 | every signature made with a seed verifies under its public key, for every seed and message (sections 5.1.5 to 5.1.7 of RFC 8032) |
| `Signatures.KeyIs` | kemi/crypto.py:107-117 | the key encodes the multiple of the base point by the clamped first half of the hashed seed |
| `Signatures.NonceIs` | kemi/crypto.py:120-124 | the first half of a signature encodes the multiple by the digest, modulo the order, of the second half of the hashed seed and the message |
| `Signatures.ResponseIs` | kemi/crypto.py:125-127 | the second half is r + h a modulo the order, h being the digest of first half, key and message |
| `Signatures.SignatureBinds` | kemi/crypto.py:130-141 | under a key of full order a signature accepted for one message is accepted for another if and only if both give the same challenge |
| `Signatures.OrderIs` | kemi/crypto.py:30-30 | the order is 2^252 + 27742317777372353535851937790883648493 |
| `Clamping.OneClamp` | kemi/e2e.py:47-50 | the clamp of the ladder, the clamp of the signing key and the clamp of the bytes give one scalar, and clamping twice changes nothing |
| `Clamping.ByteClampBits` | kemi/e2e.py:93-98 | bit by bit what masking the first and last byte does to the number |
| `Clamping.SigningClampBits` | kemi/crypto.py:107-112 | bit by bit what masking the number does |
| `Clamping.ClampedRange` | kemi/e2e.py:47-50 | a clamped scalar is a multiple of 8 between 2^254 and 2^255 |
| `Montgomery.DoubledHolds` | kemi/e2e.py:61-77 | the doubling formula, with its constant 121665, holds the double of the element, derived from the Edwards law |
| `Differential.DifferentialLaw` | kemi/e2e.py:61-74 | the y coordinates of sum and difference of two elements determine each other, derived from the Edwards law |
| `Ladders.DiffHolds` | kemi/e2e.py:66-74 | the differential addition formula holds the sum, away from the elements of order at most 2 |
| `Ladders.DiffSwap` | kemi/e2e.py:57-74 | swapping the two points does not change the differential addition |
| `Ladders.X25519Loop` | kemi/e2e.py:46-80 | the loop that carries its swap flag from bit to bit computes the textbook ladder of section 5 of RFC 7748 |
| `Ladders.LadderHolds` | kemi/e2e.py:54-76 | after the bits read so far, n, the two points are n and n + 1 times the base |
| `Ladders.X25519Multiplies` | kemi/e2e.py:46-80 | for every scalar and every point whose low 255 bits are a u of an element, reduced or not, the neutral and the order-2 element included, the result is the u of the clamped multiple |
| `BoxKey.CurvePublicExactly` | kemi/e2e.py:83-90 | a decodable key converts to the u of the element it encodes, any other is refused |
| `BoxKey.SharedPoint` | kemi/e2e.py:211-213 | the shared secret with the holder of an element is the u of the secret multiple of it |
| `BoxKey.DerivedKeyIs` | kemi/e2e.py:199-214 | the derived key is the u of the clamped multiple of the other key's element, mixed with sixteen zero bytes |
| `BoxKey.OwnCurvePublic` | kemi/e2e.py:83-90 | a seed's own public key converts to the u of its secret multiple of the base point |
| `BoxKey.BothEndsAgree` | kemi/e2e.py:199-214 | both ends derive a key, and the same one, from either seed and the other's public key |
| `Poly1305.P1305Is` | kemi/e2e.py:162 | the modulus is 2^130 - 5 |
| `Poly1305.Accumulate` | kemi/e2e.py:169-172 | the accumulator loop is the polynomial of section 2.5 of RFC 8439, a short last block included |
| `Poly1305.Authenticate` | kemi/e2e.py:166-173 | the tag is that of the RFC, for every message and key |
| `Poly1305.TagNumber` | kemi/e2e.py:166-173 | the tag as a number: polynomial modulo 2^130 - 5 plus the second key half, modulo 2^128 |
| `Poly1305.OneMoreBlock` | kemi/e2e.py:169-172 | each further block is added with one bit beyond its end and the sum multiplied by r |
| `Poly1305.ClampIs` | kemi/e2e.py:163-163 | the bits of r that the RFC clears |
| `SecretBox.XSalsaStream` | kemi/e2e.py:150-155 | byte i of the stream is byte i mod 64 of block i / 64, for every length |
| `SecretBox.OpenSealed` | kemi/e2e.py:176-191 | opening a sealed box gives back the text, for every key, nonce and length |
| `SecretBox.OpensExactlySealed` | kemi/e2e.py:183-191 | a box opens to a text if and only if it is the sealing of that text |
| `SecretBox.SealedIs` | kemi/e2e.py:150-180 | bit by bit what a sealed box is: text against the numbered blocks of the stream from byte 32 on, and the tag over it under the first 32 |
| `SecretBox.SealBox` | kemi/e2e.py:176-180 | sealing over the generated stream |
| `SecretBox.OpenBox` | kemi/e2e.py:183-191 | opening: too short, not authentic, or the text |

## Left out

- Sockets, asyncio, datagrams, HTTP, the command line, relays, streaming, sandboxes: transport and interface.
- SHA-256, SHA-512, JSON, SQLite, PyNaCl: a digest is an injective function, SHA-512 an arbitrary 64-byte function, a
  table a sequence of rows in rowid order.
- The Salsa20 core (`_salsa20_rounds`, `_salsa20_block`, `_hsalsa20`) is a parameter of `SecretBox` and `BoxKey`.
- Primality of 2^255 - 19, non-residues and the curve's group law are hypotheses; nothing is said about key secrecy,
  the hardness of forging, or timing.
- Texts and their hexadecimal or UTF-8 encodings: node ids and keys are values; an unreadable envelope is one value.
- NaN, infinities and booleans as amounts or seqs; rounding below one micro-credit; floating-point error in the model
  arithmetic.
- `recent_txs`, `history`, `tx_count`: read-only listings.
- Clock skew between peers: one clock that does not run backwards in `AntiEntropy` and `JobRun`; elsewhere any time.
- Lookup.FindClosest: does not model unanswered requests; the code leaves an unanswered contact on the shortlist.
- Host and port of contacts, and peers that answer with ids that are not live.
- JobResults.JobReturnsTheTask: does not claim that a job returns; workers keep polling a chunk that has no majority and
  no provider left to try.
- JobResults.JobStaysSolvent: counts only transfers the job itself applies; `spent` as the drop of the balance only for
  prices that are not negative, because it is false otherwise.
- AntiEntropy.Peer.PullFrom: the source's table is fixed during one round of pages; `AntiEntropy.LinkedStep` and
  `Reconciliation.BothLinkedStep` cover inserts between pages.
- JobResults.RunPipeline: the job of a stage is a function backed by executions, as several workers run one job at
  once.
- Sharding.PlanShards: the providers of a plan are distinct if those of the given list are.
- WitnessSearch.SteadyLookupsShareWitnesses: requests add their sender to the tables they reach; the model keeps the
  tables fixed there, and lets them change freely in `WitnessSearch.LookupsShareWitnesses`.
- A prune of the consumer's own ledger between signing a payment and applying it.
- Encryption of chunks inside job messages, reputation records, provider ranking, `stream_generate`, `execute_on`.
- The 30 second witness cache, the random choice of gossip targets, reputation beyond which senders are marked.
- Chunks are values in a sequence field of the scheduler, updated in place by index; aliasing of a chunk object is not
  captured.
- Sampling at a temperature above zero, tokenizing, prices of stages; weights and scalar functions are uninterpreted.
- `reputation.py`, `economy.py`, `names.py`, `invite.py`, `synapse.py`, `voice.py`, web and demo code: easy members or
  heuristics without an exact specification.
