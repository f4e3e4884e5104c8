# Verified model of the PoLE node

A Dafny model of the parts of the PoLE (Proof of Live Engagement) node that hold
state, loops and arithmetic, with proofs over every input and every run:

- **Commitments** (`Borsh`, `WireLaws`, `Merkle`, `Batches`, `CommitLaws`, `Ingestion`,
  `PeerBatches`): the byte encoding of observations, the Merkle root over them, batch
  assembly, the epoch commit, and the ingestion of batches announced by peers.
- **Epoch aggregation** (`Sorting`, `Aggregation`, `RobustMedian`, `EpochAggregation`,
  `EpochGroups`, `GroupLaws`, `EpochOrder`, `Gvs`): grouping, one observation per collector,
  trimming, median, source and confidence, and the score of a group.
- **The collect tick** (`Progress`, `RewardCycles`, `RewardLaws`, `Rolling`, `RewardBlocks`,
  `RewardRuns`, `RewardTerms`, `Heartbeats`, `PlaySessions`, `PlayCoverage`, `Settlement`,
  `Witness`, `WitnessQuota`): the slot cursor, reward cycles and blocks, play proofs, automatic settlement and
  automatic witnessing, each as a state machine with invariants over all runs.
- **Splitting a pool** (`Apportionment`, `ShareLaws`): the proportional and the witness split.
- **Two in-place passes** (`CrossValidation`, `Paths`).

The modules named `...Laws` state what an operation's results are on its inputs and
outputs alone, by counting, bracketing or positions, without the functions that
compute them.

`Machine` holds the machine integers, `Records` the record types. Saturation, 32-bit
wrap-around and casts are written out wherever the node's arithmetic meets them.

Inputs the model does not compute are parameters: the hash functions, session ids, the
set of active apps, samples, payload responses, whether a settlement succeeds, and which
epochs are settled by other means. SHA-256 is an arbitrary function to 32 bytes;
results that need its strength assume no collision among the finitely many inputs
actually hashed, never injectivity.

## Where the code differs from what it says

Each of these is stated with a condition that decides it, and an input where the
condition does not give one.

- A stored batch is read back through a payload file named after its content id, which
  nothing ties to the payload: another accepted batch under the same id overwrites it,
  even when refused for quota (`PeerBatches.IntactIff`, `PeerBatches.OverwrittenPayload`).
- `src/mutual_proof.rs:373` takes every stored session for this node's own, but peers'
  sessions are written to the same directory (`src/node_daemon.rs:2216`) and are reused
  as if they were: a peer's session that sorts first takes this node's heartbeats
  (`PlayCoverage.RunHoldsIff`, `PlayCoverage.RivalTakesProof`).
- A session replaced under the same id hides an earlier signature from the limits on
  automatic witnessing: the one per claim (`Witness.AlwaysOnceIff`,
  `Witness.ConfusedTwice`) and the 64 per epoch (`WitnessQuota.AlwaysWithinQuotaIff`,
  `WitnessQuota.CrowdExists`); without a replacement both hold
  (`Witness.RunWithinLimits`).
- The tolerance check on a witness's figure saturates: from about 3.7 * 10^14 players on
  it accepts any deviation (`Witness.WithinExactIff`).
- Cross-validation is documented to lower an outlier's confidence; below 100,000 it
  raises it (`CrossValidation.DownscaledConfidence`).
- The even median saturates at 64 bits, so two middle counts at or above 2^63 give a
  median below both (`RobustMedian.MedianRobust`, `RobustMedian.EvenMedianMisses`).
- The 32-bit coverage sum wraps past 85,880 collectors (`Gvs.MonotoneUpToIff`,
  `Gvs.GroupScoreFallsPastBound`), and the 64-bit ramp of the time decay in very long
  epochs (`Gvs.DecayRisesIff`).
- Closing a reward cycle of weight one against a saturating target overflows in
  `integer_sqrt` and stops the node (`RewardCycles.AdjustedPlayerBlockReward`,
  `RewardCycles.AlwaysSurvivesIff`).
- The network weight reported to the adjustment cycle leaves out completed blocks in
  which nothing was played (`RewardBlocks.TickReportsAllIff`,
  `RewardBlocks.IdleBlockUnreported`), and a played game missing from the samples can be
  paid more than the fixed reward (`RewardBlocks.PlayedBlockPays`,
  `RewardBlocks.UnsampledGameOverpays`).
- The witness split is documented as exact; saturated credits overpay
  (`Apportionment.WitnessExactIff`, `Apportionment.SaturatedCreditsOverpay`).
- `latest_local_epoch` can name an epoch that never ran if slots are numbered from zero
  (`Progress.LatestCorrectIff`).
- The streaming settlement summary keeps an epoch for ever if it is settled by other
  means while unresolved (`Settlement.SummaryExactIff`, `Settlement.SettledElsewhereStays`),
  and forgets an error whenever the same tick also settled something
  (`Settlement.FailureShownIff`).
- Lexical path normalization can resolve a path that the file system does not
  (`Paths.SameMeaningIff`, `Paths.SkippedDirectoryMayBeMissing`).

## Model

| member | source | states |
|---|---|---|
| `Borsh.DecodeInvertsEncode` | src/records.rs:11-36 | decoding an encoded observation list gives the list back, for every list within the 32-bit lengths |
| `Borsh.EncodeInvertsDecode` | src/records.rs:11-36 | whatever decodes, decodes from exactly its own encoding: no second spelling, no trailing bytes |
| `Borsh.EncodeInjective` | src/node_runtime.rs:337-339 | different observations have different leaf bytes |
| `Borsh.EncodeCommitInjective` | src/node_aggregator.rs:253-257 | different batch commits have different bytes |
| `WireLaws.WriteIntIs` | src/records.rs:11-36 | integers are little-endian: byte i of a written integer counts the 256^i |
| `WireLaws.EncodeLayout` | src/records.rs:11-24 | an observation is its eleven fields in the order of the record, with one-byte kind tags 0 to 4 and four-byte length prefixes |
| `WireLaws.ListLayout` | src/node_pipeline.rs:251-252 | a payload is the four-byte number of observations and each encoding in turn |
| `WireLaws.CommitLayout` | src/records.rs:26-36 | a batch commit is its nine values in the order of the record |
| `Merkle.ComputeRoot` | src/node_pipeline.rs:313-346 | the level-replacing loop terminates with the recursively paired root, zero for no leaves |
| `Merkle.RootIsTopDown` | src/node_pipeline.rs:313-346 | the bottom-up root equals the root of a top-down halving of the leaves |
| `Merkle.RootIsDigest` | src/node_pipeline.rs:313-365 | the root over record leaves is the digest of an explicit tree of records |
| `Merkle.DigestBinds` | src/node_pipeline.rs:348-365 | equal digests mean equal trees, from the 0x00/0x01 prefixes and the absence of collisions among hashed inputs |
| `Merkle.RootCommitsToTree` | src/node_pipeline.rs:313-365 | two lists have the same root if and only if they have the same completed tree |
| `Merkle.CommitmentBinds` | src/primitives.rs:101-104 | root and leaf count together determine the records |
| `Merkle.RepeatedLastLeaf` | src/node_pipeline.rs:324-334 | for every hash and every odd length of at least three, appending the last leaf again leaves the root unchanged |
| `CommitLaws.RootIsTreeHash` | src/node_pipeline.rs:313-365 | on 2^h records the root is the tree hash of section 2.1 of RFC 6962: 0x00 before a record, 0x01 before two halves |
| `CommitLaws.RootOfThree` | src/node_pipeline.rs:313-365 | the bytes hashed for three records, the last paired with itself; no records give 32 zero bytes |
| `Batches.BatchBuilder.constructor` | src/node_pipeline.rs:211-217 | an empty builder for the epoch and collector |
| `Batches.BatchBuilder.Push` | src/node_pipeline.rs:219-235 | accepted if and only if epoch and collector match; appended then, unchanged otherwise |
| `Batches.BatchBuilder.Finalize` | src/node_pipeline.rs:237-288 | fails only on an empty batch; otherwise the observations are the stable sort of those pushed, every derived field of the batch agrees with them, and the content id is that of the payload hash |
| `Batches.CommitDeterminesBatch` | src/node_pipeline.rs:256-278 | two batches that agree with their observations, under content ids of any choosing, and have one commit are the same batch |
| `Batches.EpochCommitBinds` | src/node_runtime.rs:235-308 | for batches of this node and of peers under any content ids: equal accepted-batches commitments force equal batch lists, and so equal epoch commits; what these cover is `CommitLaws.CommitOpens` |
| `CommitLaws.CommitOpens` | src/node_runtime.rs:235-308 | leaf (observations in batches before i) + j of the observations commitment is the encoding of observation j of batch i, its count is their number modulo 2^32, the batches commitment covers every commit, and the seed hashes epoch and both roots |
| `CommitLaws.EnumerationUnique` | src/node_runtime.rs:257-263 | those leaves are all there are: every position belongs to one observation of one batch |
| `CommitLaws.ObservationsBind` | src/node_runtime.rs:257-287 | lists of batches with equal observations commitments have equal observations at every flattened position, however they are divided into batches |
| `CommitLaws.SeedBinds` | src/node_runtime.rs:275-278 | if the hash tells the two seed inputs apart, another epoch or either root changed changes the seed |
| `CommitLaws.CommitFails` | src/node_runtime.rs:235-242 | a commit is built if and only if the node may propose and there is a batch; the errors in that order |
| `CommitLaws.BatchOrder` | src/node_pipeline.rs:245-246 | the sort key orders by slot, then app, then time of observation |
| `CommitLaws.HexAt` | src/node_pipeline.rs:468-470 | byte i of the hash is digits 2i and 2i + 1 of its hexadecimal form, high digit first |
| `CommitLaws.PayloadCidInjective` | src/node_pipeline.rs:468-470 | content ids begin with cid://batch-payload/ and differ for different hashes |
| `Ingestion.ProducerAccepted` | src/node_daemon.rs:2357-2402 | every assembled batch, announced and served unchanged, passes every check and yields its observations |
| `Ingestion.AcceptIff` | src/node_daemon.rs:2357-2402 | a list is accepted if and only if it is not empty, of one collector and epoch, and every field of announcement and response is that of its encoding |
| `Ingestion.AcceptedIsProduced` | src/node_daemon.rs:2357-2402 | a payload accepted under an honest batch's root and count is that batch's payload, byte for byte, with its epoch, collector and hash |
| `Ingestion.RetentionBook.constructor` | src/storage_book.rs:86-92 | an empty book with the quota in bytes |
| `Ingestion.RetentionBook.RecordPayload` | src/storage_book.rs:144-193 | refused if and only if new and over quota; a known payload is returned unchanged, a new one added; used bytes stay the sum of the sizes |
| `Ingestion.RetentionBook.Remove` | src/storage_book.rs:195-216 | drops one record and its bytes |
| `Ingestion.RetentionBook.PruneExpired` | src/storage_book.rs:195-211 | exactly the expired records go and are returned in key order, and the byte count stays exact |
| `PeerBatches.AcceptedGenuine` | src/node_daemon.rs:2369-2402 | an accepted payload reproduces every field of its announcement and belongs under its artifact key |
| `PeerBatches.Judge` | src/node_daemon.rs:2352-2402 | a candidate reproduces its announcement and is not this node's own |
| `PeerBatches.FateLaw` | src/node_daemon.rs:2350-2454 | exactly which announcements are own, duplicates, stored and refused: by collector, acceptance, artifact key, ledger and quota |
| `PeerBatches.PeerStore.constructor` | src/node_daemon.rs:3272-3286 | no artifacts and no payload files |
| `PeerBatches.PeerStore.Settle` | src/node_daemon.rs:2404-2450 | whole new files and ledger: a duplicate changes nothing; otherwise the payload file is written even if the ledger then refuses, and the artifact only if it accepts |
| `PeerBatches.PeerStore.Take` | src/node_daemon.rs:2350-2454 | one announcement: files and ledger as specified, one artifact more exactly when accepted |
| `PeerBatches.PeerStore.Ingest` | src/node_daemon.rs:2199-2454 | every announcement ends in exactly one counter, each counter equals the number of announcements of its fate, artifacts grow by those accepted, and files and ledger are those of the run |
| `PeerBatches.PlacedKeeps` | src/node_daemon.rs:2404-2450 | artifacts only grow, by one for every announcement accepted |
| `PeerBatches.RecordBacked` | src/node_daemon.rs:2420-2428 | over every inbox, behind each ledger record is an accepted announcement of a peer with its content id, epoch, hash and size, kept for the retention period |
| `PeerBatches.ArtifactBacked` | src/node_daemon.rs:2429-2445 | over every inbox, every artifact is an accepted announcement of a peer |
| `PeerBatches.IntactIff` | src/node_daemon.rs:2420-2450 | over every inbox every stored batch, read back through its payload file, still reproduces its announcement, if and only if no accepted payload is written over that of a batch stored under another key |
| `PeerBatches.ClashLoses` | src/node_daemon.rs:2420-2450 | such a payload loses the stored batch whether it is then stored or refused for quota |
| `PeerBatches.LossStays` | src/node_daemon.rs:2410-2420 | a lost batch stays lost: its own payload is dropped as a duplicate |
| `PeerBatches.AddressedIntact` | src/node_daemon.rs:3407-3417 | if file names determine payloads, as honest content ids do, every inbox keeps all batches readable |
| `PeerBatches.OverwrittenPayload` | src/node_daemon.rs:2420-2450 | any two lists of peers' observations with different first slots or epochs, announced under one content id, are both accepted, and the first then reads as the second |
| `Aggregation.SelectBest` | src/node_aggregator.rs:259-284 | the fold keeps, for every collector present, one of its inputs of least rank |
| `Aggregation.DeduplicateByCollector` | src/node_aggregator.rs:259-270 | the map loop returns the selection in collector order |
| `Aggregation.DedupDistinct` | src/node_aggregator.rs:259-270 | no collector appears twice |
| `Aggregation.DedupPresent` | src/node_aggregator.rs:259-270 | exactly the collectors of the group appear |
| `Aggregation.DedupBest` | src/node_aggregator.rs:259-284 | every collector keeps exactly one input, and a least-ranked one |
| `GroupLaws.EarliestKept` | src/node_aggregator.rs:259-284 | of a collector the earliest observation is kept; at one time the one of fewer players, then by body hash, batch and signature |
| `Aggregation.PlayersOfSorted` | src/node_aggregator.rs:286-303 | the trim order sorts the player counts |
| `GroupLaws.ExtremesTrimmed` | src/node_aggregator.rs:286-303 | of five or more, exactly one least and one greatest are dropped, by players, collector, time, body hash and batch |
| `Aggregation.TrimKeepsMedian` | src/node_aggregator.rs:286-356 | trimming never changes the median and drops two observations from five on, none below |
| `GroupLaws.MedianLaw` | src/node_aggregator.rs:339-356 | by counting: with a and b the figures that at most (n-1)/2 and n/2 others lie below and more do not exceed, the median is a = b for odd n, half their sum rounded down for even n, and 2^63 - 1 if the sum does not fit |
| `GroupLaws.MiddleFigures` | src/node_aggregator.rs:339-356 | such figures exist among those counted |
| `GroupLaws.PublishedMedian` | src/node_aggregator.rs:158-166 | the same law for the published median over the published observations |
| `RobustMedian.MiddleBounded` | src/node_aggregator.rs:339-356 | with a faulty minority the middle entries lie within the honest range |
| `RobustMedian.MedianBounded` | src/node_aggregator.rs:339-356 | the median lies in the honest range if and only if the count is odd or the range starts below 2^63 |
| `RobustMedian.MedianRobust` | src/node_aggregator.rs:158-166 | with fewer than half of the distinct collectors arbitrary, however much each submits, the published median is within the range selected for the others, if and only if the count is odd or their minimum is below 2^63 |
| `RobustMedian.EvenMedianMisses` | src/node_aggregator.rs:339-356 | two honest collectors reporting one figure of 2^63 or more have a median that is not it |
| `EpochAggregation.CountKinds` | src/node_aggregator.rs:315-325 | the counts are the numbers of observations of each kind |
| `EpochAggregation.DominantSourceKind` | src/node_aggregator.rs:315-325 | a most frequent kind, the later one on a tie, `Steam` for none |
| `EpochAggregation.AverageBetween` | src/node_aggregator.rs:327-337 | the average confidence lies between the least and the greatest |
| `GroupLaws.PublishedSource` | src/node_aggregator.rs:315-325 | no kind has more of the published observations than the published kind, and of those with as many it is the last in the order of declaration |
| `GroupLaws.AverageExact` | src/node_aggregator.rs:327-337 | the average confidence is the sum of all over their number, rounded down; 1,000,000 without any |
| `GroupLaws.SourceRootCovers` | src/node_aggregator.rs:305-313 | the source root is over the distinct batch hashes of the observations in ascending order |
| `EpochAggregation.FactsOrderIndependent` | src/node_aggregator.rs:152-191 | permuting a group leaves collector count, accepted collectors, median and source-batch root unchanged |
| `EpochAggregation.FirstBestKept` | src/node_aggregator.rs:259-274 | among tied inputs the first one read is kept |
| `EpochAggregation.OrderIndependentIffNoTies` | src/node_aggregator.rs:259-337 | the kept observations are independent of order if and only if no collector's best rank is tied |
| `EpochGroups.GroupBatch` | src/node_aggregator.rs:123-150 | one batch's observations of the epoch are added to their groups in order, and counted |
| `EpochGroups.GroupInputs` | src/node_aggregator.rs:123-150 | the groups hold exactly the epoch's observations of their slot and app, in order, and the total counts them |
| `EpochGroups.GroupsPartition` | src/node_aggregator.rs:133-150 | group sizes sum to the number of observations: each is in exactly one group |
| `GroupLaws.EpochGroupInputs` | src/node_aggregator.rs:123-150 | each published group is made from the observations of its slot, app and epoch, each as often as the batches of its commit hash hold it, and from nothing else |
| `EpochGroups.PublishGroup` | src/node_aggregator.rs:152-215 | a published group: unique = distinct collectors, accepted + trimmed = unique with 0 or 2 trimmed, the median of all selected (what it is: `GroupLaws.PublishedMedian`), source, confidence, all factors of the score, and the source root |
| `EpochGroups.PublishedOrderIndependent` | src/node_aggregator.rs:152-215 | permuted inputs publish equal slot, app, counters, median, factors, score and source root, and with no tied best rank equal groups, source kind and confidence included |
| `EpochGroups.PublishedScoreExact` | src/node_gvs.rs:31-55 | a published score is the exact product of the published factors, at most 1.25 times the base, for any number of collectors |
| `EpochGroups.PublishAll` | src/node_aggregator.rs:152-233 | all groups published from their own inputs, with saturating totals |
| `EpochGroups.AggregateEpoch` | src/node_aggregator.rs:123-233 | one group per (slot, app) in ascending order, no observation lost, the counters are the sums over the groups |
| `EpochOrder.InputsOrderIndependent` | src/node_aggregator.rs:123-233 | the same inputs of an epoch in any other order publish the same keys and, group by group, the same facts; groups without ties are equal |
| `EpochOrder.EpochOrderIndependent` | src/node_aggregator.rs:123-233 | so do the same batches read in any other order |
| `Gvs.CoverageExact` | src/node_gvs.rs:116-119 | the bonus is 1.0 or more if and only if there are at most 85,880 collectors, and then it is the capped formula |
| `Gvs.TierWeightExact` | src/node_gvs.rs:57-103 | the interpolated tier weights as exact expressions up to 85,881 collectors, where nothing wraps |
| `Gvs.TierWeightMonotone` | src/node_gvs.rs:57-103 | the tier weight never falls with more collectors or players, and is at most 1.0 |
| `Gvs.TimeDecayMonotone` | src/node_gvs.rs:105-114 | the decay factor rises with the slot between 0.85 and 1.0 while its 64-bit product fits |
| `Gvs.DecayBracket` | src/node_gvs.rs:105-114 | the decay rises in proportion from 850,000 ppm at the first slot to 1,000,000 at the last, rounded down; an epoch of one slot has none |
| `Gvs.DecayRisesIff` | src/node_gvs.rs:105-114 | for every epoch length: the decay never falls with the slot if and only if that product fits or the epoch has at least 2^64 - 14 slots |
| `Gvs.ScoreExact` | src/node_gvs.rs:121-136 | the 128-bit product never saturates: the score is the exact floor of the four-factor product over 10^18, clamped to 64 bits, at most 1.25 times the base |
| `Gvs.FactorsExact` | src/node_gvs.rs:31-55 | with ordered tiers the published score is the exact product of the published factors, at most 5/4 of the base; the base is a million units a player up to 64 bits, and the tier is 1, 2 or 3 exactly by three collectors and a thousand players |
| `Gvs.GroupScoreMonotone` | src/node_gvs.rs:31-136 | up to 85,880 collectors, in every epoch length at which the decay never falls, more collectors, players or a later slot never lower the score |
| `Gvs.GroupScoreFallsPastBound` | src/node_gvs.rs:116-119 | in every epoch length one collector past the bound lowers the score of a group |
| `Gvs.MonotoneUpToIff` | src/node_gvs.rs:31-136 | for every epoch length: the score is monotone up to N collectors, for all ordered tiers, if and only if N is at most 85,880 and the decay never falls |
| `Progress.LocalNodeProgress.constructor` | src/node_daemon.rs:934-956 | the initial state, whose paired fields agree |
| `Progress.LocalNodeProgress.Advance` | src/node_daemon.rs:978-986 | the cursor moves by one slot, wrapping into the next epoch |
| `Progress.LocalNodeProgress.Normalize` | src/node_daemon.rs:1031-1058 | empty cycle fields are filled from the legacy ones, which then copy them |
| `Progress.LocalNodeProgress.SyncLegacy` | src/node_daemon.rs:1060-1071 | legacy fields take the cycle fields' values and nothing else changes |
| `Progress.NormalizeFixes` | src/node_daemon.rs:1031-1071 | normalization restores agreement, changes nothing exactly when fields agree, and is idempotent |
| `Progress.LoadTakesOver` | src/node_daemon.rs:958-1071 | loading keeps every cycle value and takes the legacy value over where there is none, in all pairs and those of the pending block; nothing else changes |
| `Progress.SaveLoadRoundTrip` | src/node_daemon.rs:958-976 | save then load is the identity if and only if the paired fields agree |
| `Progress.CursorCountsTicks` | src/node_daemon.rs:978-986 | over every run the cursor is the tick count in base `slots_per_epoch`, the slot always in 1..=slots_per_epoch |
| `Progress.LatestCorrectIff` | src/cli_support.rs:137-150 | the inferred epoch is that of the last tick, on every run, if and only if slots start at one, or the first epoch is zero, or an epoch has no slots |
| `RewardCycles.IntegerSqrt` | src/tokenomics.rs:210-221 | Newton's loop returns the floor of the square root, and overflows on the largest 128-bit value and no other |
| `RewardCycles.AdjustedPlayerBlockReward` | src/node_rewards.rs:998-1020 | the computation succeeds, with the specified reward (what it is: `RewardLaws.AdjustedLaw`), if and only if base or target is zero, or the weight is not one, or the scaled target is below 2^128 - 1 |
| `RewardLaws.AdjustedLaw` | src/node_rewards.rs:998-1020 | there are k, q and bounds lo, hi with k²·weight <= target·10^12 < (k+1)²·weight, q the floor of base·k/10^6, lo and hi those of the base at the cap, and the reward is q within lo and hi, at least one; saturated products at their bound |
| `RewardLaws.AdjustedDegenerate` | src/node_rewards.rs:1004-1009 | no base earns nothing; without target or weight the base stands |
| `RewardLaws.FourfoldHalves` | src/node_rewards.rs:998-1020 | with the cap open and not reached, a fourfold weight halves the reward up to rounding |
| `RewardCycles.AdjustedWithinCap` | src/node_rewards.rs:998-1020 | where it can be computed the reward is positive and within the cap around the base |
| `RewardCycles.AdjustedAntitone` | src/node_rewards.rs:998-1020 | a heavier network never earns a larger reward, and its reward can be computed if the lighter one's can |
| `RewardCycles.AdjustedAroundTarget` | src/node_rewards.rs:998-1020 | exactly the base at the target weight, at least it below, at most it above |
| `RewardCycles.CurrentFixedBlockReward` | src/node_daemon.rs:2094-2138 | stops the node exactly when it closes a cycle whose reward cannot be computed; otherwise the whole new state and the reward |
| `RewardCycles.TickInvariant` | src/node_daemon.rs:1284-1295 | a tick keeps the invariant: paired fields agree, the reward is the one its basis weight calls for, the cycle index does not fall |
| `RewardCycles.RunInvariant` | src/node_daemon.rs:1284-1295 | the invariant holds after every run |
| `RewardCycles.CycleMonotone` | src/node_daemon.rs:1631-1634 | over every run the cycle index never decreases |
| `RewardCycles.RewardConstantInCycle` | src/node_daemon.rs:2094-2138 | ticks of one cycle use one reward: max(1, base if the basis weight is zero, else the adjusted reward for it) |
| `RewardLaws.RunBased` | src/node_daemon.rs:2094-2138 | over every run the current total is the weight reported in the current cycle, and the reward is the one called for by the weight reported in the last cycle that ran before it, or the base in the first |
| `RewardCycles.RunRewardWithinCap` | src/node_daemon.rs:2094-2138 | over every run a tick stops the node exactly when it closes a cycle of weight one and the scaled target is 2^128 - 1 or more; every tick the node lives to see has a reward within the cap |
| `RewardCycles.AlwaysSurvivesIff` | src/node_daemon.rs:2094-2138 | no run stops the node if and only if target times 10^12 is below 2^128 - 1 |
| `RewardCycles.WeightConserved` | src/node_daemon.rs:1284-1292 | absent 128-bit saturation, reported weight = totals of closed cycles + current total |
| `RewardCycles.ReachableSaves` | src/node_daemon.rs:992-1029 | every reachable state whose pending blocks agree survives save and load |
| `RewardCycles.RunCursor` | src/node_daemon.rs:978-986 | the cursor of the full machine is the counted one |
| `Rolling.Roll` | src/node_rewards.rs:673-780 | the chunk-by-chunk loop computes the recursive specification of completed blocks and pending block |
| `Rolling.SecondsConserved` | src/node_rewards.rs:673-780 | block length times completed blocks plus the pending seconds is what went in, with the pending seconds below a block |
| `Rolling.MeasureConserved` | src/node_rewards.rs:673-780 | any additive quantity is held without loss by completed and pending blocks |
| `Rolling.MarksKept` | src/node_rewards.rs:724-778 | the first completed block carries the mark of the block the tick started from, every other that of a block opened in the tick |
| `Rolling.PendingMark` | src/node_rewards.rs:673-780 | the block left pending has the old mark if none was completed, else the new |
| `Rolling.ClosedGrown` | src/node_rewards.rs:673-780 | what holds of every block just grown holds of all blocks completed |
| `Rolling.Completed` | src/node_rewards.rs:673-780 | what a tick completes, and when: the block it starts from, then blocks all alike |
| `Rolling.TicksCompose` | src/node_rewards.rs:659-780 | a tick of a + b seconds does what ticks of a and of b do |
| `RewardBlocks.RecordTick` | src/node_rewards.rs:637-823 | the completed blocks and the pending block of a tick, from any pending block |
| `RewardBlocks.NetworkWeightLinear` | src/node_rewards.rs:1065-1081 | absent saturation, network weight is the rate per second times the duration |
| `RewardBlocks.TickSeconds` | src/node_rewards.rs:673-780 | completed blocks and pending seconds in closed form |
| `RewardBlocks.TickAgrees` | src/node_rewards.rs:91-107 | the paired fields of the pending block agree, and without seconds it is no block |
| `RewardBlocks.TickWeight` | src/node_rewards.rs:673-684 | all network weight of a tick is in a completed or the pending block |
| `RewardBlocks.TickPlay` | src/node_rewards.rs:686-701 | for every game: each second of a tick is credited exactly once if the game is the active one, and not at all otherwise |
| `RewardBlocks.TickRewards` | src/node_rewards.rs:659-780 | if the pending block has seconds and a reward, the first block completed, or the one left pending when none is, has its reward and cycle whatever the tick's; every other block has the tick's |
| `RewardBlocks.EntryOrder` | src/node_rewards.rs:708-714 | entries are ordered by process name, then app, then coefficient |
| `RewardBlocks.TickEntryOrder` | src/node_rewards.rs:708-714 | the entries of every completed block stand in that order |
| `RewardBlocks.LongTickIsTwo` | src/node_rewards.rs:637-823 | splitting a tick changes neither the blocks completed nor the block pending |
| `RewardBlocks.CompletedCycleWeight` | src/node_daemon.rs:2140-2150 | the seen-set loop counts each block index at its first record |
| `RewardBlocks.ReportCounts` | src/node_daemon.rs:2140-2150 | what it counts is the weight of the completed blocks that have entries |
| `RewardBlocks.ReportedAllIff` | src/node_daemon.rs:2140-2150 | all completed weight is reported if and only if every block without play weighs nothing |
| `RewardBlocks.TickReportsAllIff` | src/node_daemon.rs:2140-2150 | what a tick completes is reported in full if and only if a game is active, or nothing is completed, or the block it starts from had play or weighs nothing and no other completed block weighs something; stated on seconds, pending entries and weights |
| `RewardBlocks.IdleBlockUnreported` | src/node_daemon.rs:2140-2150 | a tick that fills a block without a game reports nothing of its weight |
| `RewardBlocks.ActiveTickReports` | src/node_daemon.rs:2140-2150 | a tick with an active game reports all the weight it completes |
| `RewardBlocks.RewardsExact` | src/node_rewards.rs:716-723 | every entry is paid the fixed reward times its seconds and coefficient over the network weight, rounded down; a block without network weight pays nothing |
| `RewardBlocks.BlockPaysAtMost` | src/node_rewards.rs:716-723 | a block's records never pay more than its fixed reward while the player's weight is within the network's |
| `RewardBlocks.OneEntryPaysIff` | src/node_rewards.rs:916-921 | a completed block of one entry pays at most its fixed reward if and only if reward times player weight is below (reward + 1) times network weight |
| `RewardBlocks.PlayedBlock` | src/node_rewards.rs:637-771 | a tick that plays one game for the length of a block completes one block, with the observed weight and that game as its only entry |
| `RewardBlocks.PlayedBlockPays` | src/node_rewards.rs:716-723 | it pays the floor of reward times the game's coefficient over the observed weight per second, sampled or not, and at most the reward if and only if reward times coefficient is below (reward + 1) times that weight |
| `RewardBlocks.UnsampledGameOverpays` | src/node_rewards.rs:716-723 | a tick playing a game that no sample names, with one player seen in another app of a tenth of its coefficient, pays exactly ten times the fixed reward |
| `RewardRuns.ReachableUnchanged` | src/node_daemon.rs:933-1071 | in every state ticks reach, legacy and cycle fields agree and save-then-load is the identity |
| `RewardRuns.RunSeconds` | src/node_daemon.rs:1293-1295 | over every run, blocks completed times block length plus pending seconds = all seconds ticked |
| `RewardTerms.BlockTerms` | src/node_rewards.rs:659-780 | over every run, block k carries the reward and cycle in force at the tick in which its first second fell |
| `RewardTerms.CycleInForce` | src/node_daemon.rs:1631-1634 | the cycle in force is the number of whole blocks in the seconds ticked, divided by the length of a cycle |
| `RewardRuns.RunWeight` | src/node_daemon.rs:1284-1292 | over every run, observed weight = closed cycles + current total + pending block + completed blocks without play |
| `RewardRuns.ActiveRunReports` | src/node_daemon.rs:2140-2150 | with a game active on every tick no completed weight goes unreported |
| `Apportionment.AllocateProportional` | src/node_rewards.rs:877-913 | the share and round-robin loops compute the specified split |
| `Apportionment.AllocateWitnessRewards` | src/node_rewards.rs:1351-1401 | the share and single-pass loops compute the specified split |
| `Apportionment.ProportionalExact` | src/node_rewards.rs:877-913 | the proportional split pays out exactly the pool, even when products saturate |
| `Apportionment.ProportionalFair` | src/node_rewards.rs:877-913 | absent saturation everyone gets the floor of the exact share or one more, the latter only with a remainder, and a larger weight never gets less |
| `ShareLaws.ProportionalIff` | src/node_rewards.rs:877-913 | while no product saturates an allocation is the one computed if and only if it sums to the pool, rounds every due down or up, and rounds up the largest remainders, equal ones to the larger id |
| `Apportionment.WitnessExactIff` | src/node_rewards.rs:1341-1401 | the witness split is exact if and only if whole shares fit the pool and one unit each makes up the rest |
| `Apportionment.WitnessFair` | src/node_rewards.rs:1341-1401 | absent saturation the witness split is exact and fair in the same sense |
| `ShareLaws.WitnessIff` | src/node_rewards.rs:1341-1401 | likewise for credits within 64 bits, equal remainders to the smaller address |
| `Apportionment.NoWeightNoPay` | src/node_rewards.rs:1362-1366 | an account of no weight gets nothing |
| `Apportionment.SaturatedCreditsOverpay` | src/node_rewards.rs:1355-1376 | two saturating credits share a pool of one and get two |
| `Heartbeats.BucketBelow` | src/node_daemon.rs:1688-1700 | every bucket is below ceil(block / bucket) |
| `Heartbeats.DistinctBucketsIff` | src/node_daemon.rs:1688-1700 | slots of a block get distinct buckets if and only if a bucket is no longer than a tick or the block has one slot |
| `Heartbeats.SlotForBucket` | src/node_daemon.rs:1688-1700 | if the tick divides both lengths, every bucket of the block is hit by one of its slots |
| `Heartbeats.SlotOfOffset` | src/node_daemon.rs:1694-1697 | block and offset determine the slot and back |
| `Heartbeats.SlotsFit` | src/node_daemon.rs:1688-1694 | a block has as many slots as whole ticks fit it, at least one |
| `Heartbeats.BucketLaw` | src/node_daemon.rs:1688-1700 | slots are numbered from one, block after block, and the bucket is the one in which the slot's first second lies |
| `PlaySessions.PlayStore.constructor` | src/mutual_proof.rs:296-330 | an empty store |
| `PlaySessions.PlayStore.RecordPlayHeartbeats` | src/node_daemon.rs:1711-1809 | one tick's pass over the active apps, in place, against the specification on stores |
| `PlaySessions.PlayStore.WriteBeat` | src/mutual_proof.rs:340-357 | one session and one bucket are written, all else stays |
| `PlaySessions.PlayStore.ReceiveSession` | src/node_daemon.rs:2214-2216 | a session announced by a peer replaces what is stored under its id |
| `PlaySessions.FindExact` | src/node_daemon.rs:1749-1753 | the session reused is the first in id order with the app, epoch and block, whoever played it |
| `PlaySessions.SaveBeatRising` | src/mutual_proof.rs:340-357 | saving a heartbeat keeps the list strictly increasing by bucket |
| `PlaySessions.TickCreates` | src/node_daemon.rs:1745-1776 | a tick leaves stored sessions as they are and creates sessions of this node alone, for active apps without one in the block, with the tick's epoch, slot and observation |
| `PlaySessions.ProvenanceOnePerBlock` | src/node_daemon.rs:1733-1805 | sessions that are kept or newly needed keep one of this node's per app, epoch and block |
| `PlaySessions.RecordSound` | src/node_daemon.rs:1711-1809 | a tick keeps: one session of this node's per app, epoch and block; heartbeat lists rising and below the bucket count |
| `PlaySessions.RunSound` | src/node_daemon.rs:1711-1809 | the same after every run from an empty store, with any peers' sessions saved in between |
| `PlaySessions.ReceiveOnePerBlockIff` | src/node_daemon.rs:2214-2216 | a received session keeps one of this node's per app, epoch and block if and only if it does not name this node, or repeats no claim of its stored under another id |
| `PlaySessions.ForgedSessionDoubles` | src/node_daemon.rs:2214-2216 | a copy of this node's session received under another id breaks it |
| `PlaySessions.BeatsBounded` | src/node_daemon.rs:1733-1805 | no list is longer than ceil(block / bucket) |
| `PlayCoverage.ReplayChangesNothing` | src/node_daemon.rs:1711-1809 | replaying a slot, with the same apps or fewer, changes nothing, whatever peers' sessions are stored |
| `PlayCoverage.SessionKept` | src/node_daemon.rs:1733-1805 | a stored session, whoever played it, survives every tick unchanged |
| `PlayCoverage.BeatsExact` | src/mutual_proof.rs:340-357 | a tick adds its bucket to the sessions its entries name, and nothing else |
| `PlayCoverage.EntryFound` | src/node_daemon.rs:1749-1776 | after a tick the session found for an active app is the one its heartbeat went to |
| `PlayCoverage.TickHoldsIff` | src/node_daemon.rs:1745-1805 | after a tick this node's sessions hold a bucket of a claim if and only if they did before, or the tick plays it and the session found is this node's or none |
| `PlayCoverage.ReceiveHoldsIff` | src/node_daemon.rs:2214-2216 | a peer's session under an id of its own takes nothing this node holds |
| `PlayCoverage.RunHoldsIff` | src/node_daemon.rs:1711-1809 | over every run with any peers' sessions in between: a bucket is held if and only if it was at the start or some tick earned it |
| `PlayCoverage.FullyProvedIff` | src/node_daemon.rs:1711-1809 | over every run a block is fully proved, by one session, if and only if each of its buckets is earned |
| `PlayCoverage.RivalTakesProof` | src/node_daemon.rs:1749-1755 | whatever session of a peer's comes first for the app, epoch and block, the heartbeat goes to it and this node has no session |
| `PlayCoverage.TakenIdLosesProof` | src/node_daemon.rs:2214-2216 | a peer's session saved under the id of one of this node's takes all that it proved |
| `PlayCoverage.RunCovers` | src/node_daemon.rs:1711-1809 | while no peer claims the app, epoch and block, every tick that plays it counts |
| `PlayCoverage.FullBlockFullyCovered` | src/node_daemon.rs:1675-1700 | playing every slot of a block yields one session of this node's with all its buckets, unless a peer claims the same app, epoch and block |
| `Settlement.PendingCompletedIff` | src/node_daemon.rs:2990-3003 | only completed epochs are pending, unless epoch zero is both default and current |
| `Settlement.SettledPrefix` | src/node_daemon.rs:3011-3043 | a tick settles the longest prefix of the pending epochs that succeeds |
| `Settlement.TickSettlesIff` | src/node_daemon.rs:2990-3043 | an epoch is settled if and only if it is due, succeeds, and every due epoch before it does; it is the error if and only if it is the first due one that fails |
| `Settlement.AutoSettlement.constructor` | src/node_daemon.rs:696-706 | nothing settled, an empty summary |
| `Settlement.AutoSettlement.PendingEpochs` | src/node_daemon.rs:2990-3003 | the epochs from the default to the last completed without an artifact, ascending |
| `Settlement.AutoSettlement.SettlePending` | src/node_daemon.rs:3011-3043 | settles up to the first failure, which it reports, and creates exactly those artifacts |
| `Settlement.AutoSettlement.UpdateSummary` | src/node_daemon.rs:795-812 | the whole new summary |
| `Settlement.AutoSettlement.RunTick` | src/node_daemon.rs:1339-1356 | report, artifacts and summary of one tick |
| `Settlement.SettledGapFree` | src/node_daemon.rs:2990-3043 | over every run the settled epochs are a gap-free range from the default epoch, as many as the summary counts, all completed |
| `Settlement.NoGapBehind` | src/node_daemon.rs:2990-3043 | over every run, with epochs settled by other means or not: settled is everything from the default epoch to the last one settled here, and beyond it only what was settled by other means |
| `Settlement.LastSettledNamed` | src/node_daemon.rs:806-810 | over every run the summary names the last epoch of that range |
| `Settlement.CursorForward` | src/node_daemon.rs:978-986 | the progress cursor's epoch never falls, as the settlement results assume |
| `Settlement.AllSucceed` | src/node_daemon.rs:3011-3043 | a tick without failures leaves no completed epoch open |
| `Settlement.SummaryExactIff` | src/node_daemon.rs:746-812 | over every run the summary lists the last tick's unresolved epochs plus those settled by other means while unresolved; it equals the former if and only if there are none of the latter |
| `Settlement.SettledElsewhereStays` | src/node_daemon.rs:795-812 | an epoch that failed and was then settled by other means stays listed with nothing unresolved |
| `Settlement.SummaryIsUnresolved` | src/node_daemon.rs:746-812 | with no settlement by other means the two lists are equal after every run |
| `Settlement.FailureShownIff` | src/node_daemon.rs:803-810 | a tick's failure is the summary's last error if and only if its first pending epoch is the one that failed |
| `Settlement.ErrorShownIff` | src/node_daemon.rs:795-812 | over every run the error shown is that of the last tick which settled or failed, if that tick settled nothing |
| `Witness.FirstReadingIff` | src/node_daemon.rs:2272-2283 | the first reading of the app in a payload, if it has one |
| `Witness.OwnObservationIff` | src/node_daemon.rs:2268-2287 | a figure is taken if and only if it is reading j of retained payload k, where the payload is of the epoch and decodes, no earlier reading of it is of the app, and no earlier payload of the epoch has one |
| `Witness.WithinExactIff` | src/node_daemon.rs:2291-2300 | the tolerance test is exact on every pair with a given larger figure if and only if that figure times 50,001 fits 64 bits |
| `Witness.WithinIff` | src/node_daemon.rs:2291-2301 | the test without its division, for all figures: the saturated difference is below 50,001 millionths of the larger |
| `Witness.SignatureIff` | src/node_daemon.rs:2218-2313 | a session is signed if and only if the node collects, neither played nor collected it, has no attestation for it, fewer than 64 in its epoch and none for its claim, and the first figure for its app in the retained payloads of its own epoch is close and under another id; the attestation carries that figure |
| `Witness.AutoWitness.constructor` | src/mutual_proof.rs:296-315 | the stores as found, nothing signed |
| `Witness.AutoWitness.FindOwn` | src/node_daemon.rs:2268-2287 | the first retained figure for the app in the epoch |
| `Witness.AutoWitness.CountAttested` | src/node_daemon.rs:2239-2245 | the number of stored sessions of the epoch with an attestation |
| `Witness.AutoWitness.Judge` | src/node_daemon.rs:2218-2313 | the attestation to sign, if any, changing nothing |
| `Witness.AutoWitness.OnMessage` | src/node_daemon.rs:2214-2347 | the whole new state of the stores and of what was signed, for either message |
| `Witness.RunSound` | src/node_daemon.rs:2214-2347 | over every interleaving, whatever is sent: no session signed twice, none that this node played or collected |
| `Witness.SignedBacked` | src/node_daemon.rs:2214-2347 | over every run, behind each signed session is the message that offered it, with a retained payload of the session's own epoch whose figure supports it and is the one attested |
| `Witness.StoredIsLatest` | src/node_daemon.rs:2214-2216 | a stored session is the one of the last message with its id |
| `Witness.AttestedNeverSigned` | src/node_daemon.rs:2224-2229 | once a peer's attestation arrives no session of its id is signed |
| `Witness.RunWithinLimits` | src/node_daemon.rs:2237-2267 | over every interleaving without a replaced signed session: at most 64 signed per epoch and one per epoch, peer and app |
| `Witness.DeterminedStable` | src/mutual_proof.rs:125-140 | session ids that determine their content make every run one without replacements |
| `Witness.AlwaysOnceIff` | src/node_daemon.rs:2216-2267 | for any set of sessions: every run over it signs each claim at most once if and only if no two sessions of it share an id with different claims while a third makes the first one's claim under another id |
| `Witness.ConfusedTwice` | src/node_daemon.rs:2216-2267 | three such sessions, sent in turn, have one claim signed twice |
| `WitnessQuota.AlwaysWithinQuotaIff` | src/node_daemon.rs:2237-2267 | for any set of sessions: every run over it signs at most 64 per epoch if and only if it holds no crowd, that is 65 signable sessions of one epoch with different ids, where one whose claim a later one repeats can be replaced by another claim, and one of the first 64 can be moved to another epoch |
| `WitnessQuota.RunPacked` | src/node_daemon.rs:2214-2347 | over every run the sessions signed in an epoch follow one another in that way |
| `WitnessQuota.CrowdBreaksQuota` | src/node_daemon.rs:2237-2267 | every crowd has a run that signs all 65 |
| `WitnessQuota.CrowdExists` | src/node_daemon.rs:2237-2267 | 65 players of one epoch and one session moved to the next are a crowd |
| `CrossValidation.CrossValidateSamples` | src/activity_collector.rs:341-374 | the grouped in-place pass computes the per-sample specification, and returns the number of outliers |
| `CrossValidation.DifferenceIff` | src/activity_collector.rs:330-374 | the truncating ppm test is exactly "at most 749,999 millionths of the strongest" |
| `CrossValidation.StrongestUntouched` | src/activity_collector.rs:341-374 | the strongest sample of an app, and an app's only sample, are unchanged |
| `CrossValidation.OutlierIff` | src/activity_collector.rs:341-374 | a sample is an outlier if and only if it is at most 749,999 millionths of another sample of its app, counted as at least one player |
| `CrossValidation.DownscaledConfidence` | src/activity_collector.rs:335-374 | only the confidence changes, to max(half, 100,000); lowered if and only if above 100,000 |
| `CrossValidation.StrongestAt` | src/activity_collector.rs:341-374 | the inner loop finds the app's maximum |
| `CrossValidation.IsOutlier` | src/activity_collector.rs:341-374 | the source's test decides the specification's outlier |
| `Paths.NormalizePath` | src/app_paths.rs:76-97 | the push and pop loop computes the normal form |
| `Paths.NormalizedForm` | src/app_paths.rs:76-97 | no ".", and no ".." directly after a name |
| `Paths.NormalizeIdempotent` | src/app_paths.rs:76-97 | normalizing twice is normalizing once |
| `Paths.NormalizePreservesMeaning` | src/app_paths.rs:76-97 | from every directory of every symlink-free tree, wherever the path leads its normal form leads too |
| `Paths.SameMeaningIff` | src/app_paths.rs:76-97 | the two paths lead to the same place, or both nowhere, if and only if the normal form leads nowhere or every name taken back by ".." exists |
| `Paths.SkippedDirectoryMayBeMissing` | src/app_paths.rs:76-97 | a path through a missing directory leads nowhere, its normal form somewhere |
| `Paths.NormalFormCanonical` | src/app_paths.rs:76-97 | in a tree where every directory exists, two relative paths mean the same if and only if their normal forms are equal |

## Left out

- Ed25519 signatures, bech32 addresses and the mixing inside `stable_hash32`: opaque functions, with no strength claimed beyond the stated absence of collisions.
- UTF-8 validity of text fields: text is bytes of any value, so the decoder also accepts what Rust's `String` refuses.
- The aggregates, rewards and availability commitments of the epoch commit, whose leaf counts are stored as 0 or 1, and storage receipts.
- JSON files, sockets, clocks and process detection: stores are maps, and what they deliver is a parameter. A write that fails half-way is not modelled; an artifact exists exactly when its settlement succeeded.
- CLI, status printing, HTTP control API, service control, Git updates, SBOM and genesis front ends: plumbing.
- The ledger transitions, governance and the Go chain.
- Overflow of 64-bit seconds and tick counters, which would take more ticks than a node can run; block counts and weights do saturate in the model.
- The order of `PlayerRewardBlockRecord` fields copied from the configuration, session ids in reward records, and the tick artifact: copies without logic.
- Which mapped game is active (`select_active_game_mapping`) and the launcher filter: the active game and apps are inputs.
- Witness: that an attested observation was collected by the witness itself, because the lookup scans every retained payload.
- Per-app and per-peer ordering of `BTreeMap` iteration beyond ascending keys; accounts in `Apportionment` stand for their position in that order.
- PlayCoverage.FullBlockFullyCovered: assumes, as all of `PlayCoverage` does, that this node's ids tell apart app, epoch and slot, which the mixing in `stable_hash32` does not promise, and that peers use neither this node's account nor its ids, which the node does not check; `PlayCoverage.TakenIdLosesProof` shows what an id of this node's loses.
- PlaySessions.RunSound: assumes that no session received names this node as its player, which the node does not check; `PlaySessions.ForgedSessionDoubles` shows what one does.
- EpochGroups.AggregateEpoch: the Merkle root over the published records is left out, because their chain JSON is not modelled.
