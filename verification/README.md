# Nodo: a verified model of its consensus, commitments and accounts

Nodo is a proof-of-stake node written in C++. This project models, in Dafny, the parts of it
whose correctness is not visible in any one function, and proves what they promise:

- **Agreement.** Validators vote, lock, unlock on certificates, change rounds, crash and reload
  from one durable slot (`Quorum`, `Certificates`, `ValidatorNode`, `Agreement`,
  `ConsensusRuns`, `SilentRound`, `Unlocking`). Per node, the vote pool and its collector
  (`VotePool`, `VotePoolRuns`, `VotePoolLimits`) and the finality registry with the fork choice
  (`Chain`, `Finality`, `ForkChoice`) keep that agreement.
- **Commitments.** The ordered record root (`OrderedRoot`), the sparse state trie (`SparseTrie`,
  `SparseProofs`, `SparseTree`) and the version 1 encoding and tree with its inclusion proofs
  (`V1Encoding`, `SplitTree`, `SplitProofs`, `V1Merkle`, `V1Proofs`), on the common base
  `MerkleBinding`.
- **Archives.** Segments as byte streams, cut into pieces and read back (`SegmentStream`,
  `ArchiveSegment`), the answers to storage challenges (`ArchivalSamples`), the assignment of
  segments to providers (`Assignment`, `AssignmentOrder`), the challenge ledger and its epochs (`ArchivalLedger`,
  `EpochRollup`) and the rewards (`ArchivalRewards`, `ArchivalJoining`, `ArchivalTarget`).
- **Accounts and governance.** Treasury spends (`Treasury`, `TreasuryRuns`, `TreasuryLaws`,
  `GovernanceExecutor`), coin lots and supply (`CoinLots`, `CoinLotRegistry`, `SupplyRuns`,
  `SupplyLaws`).
- **History.** Validator sets by height (`ValidatorSetHistory`) and participation counters
  (`Liveness`, `LivenessLaws`).

`Wrappers`, `Text`, `Ordering`, `Arithmetic` and `Sums` are shared helpers.

Code that updates fields, buffers or loop variables is a class or a method with loops here, and
is proved against functions on values; whole-run theorems are about those functions. Beside what never
goes wrong, each main operation has a law that says exactly when it acts and what it then does, in
terms of votes, heights, weights and amounts. Hash
functions are parameters. No theorem assumes one to be injective: a binding theorem says that the
two committed values are equal, or names two different inputs, both of them really hashed, with
one hash.

## Where the code and the promise part

Each of these is stated as a lemma over all inputs, with the exact condition.

- `permitsUnlock` does not compare the certificate's height with anything, so agreement holds
  short of two voted blocks with different headers and one hash
  (`ConsensusRuns.CertificatesAgree`).
- A height finalized inside the voting loop keeps its signed precommit in memory. The next
  height's first round is silent exactly then (`ValidatorNode.KeptPrecommitSilencesRound`), and a
  fault-free run gets there (`SilentRound.SilentRoundReachable`).
- The vote pool alone admits votes of a height again exactly when a prune passed it
  (`VotePoolLimits.ReadmittedIff`, `VotePoolLimits.SecondQuorumIff`); the collector in front of it
  is what makes a round's quorum exclusive (`VotePoolRuns.CollectorExclusive`).
- Its quorum progress adds prevotes to precommits, so two blocks can both report enough, exactly
  where a validator voted for both (`VotePoolLimits.ProgressSharedIff`).
- Its bound on conflict records fails for some addresses that contain the key separator
  (`VotePoolLimits.RecordsBoundedIff`).
- A sparse proof step copies a sibling's stored hash. Beside a leaf that was written with an
  empty hash the proof fails; otherwise it verifies (`SparseProofs.GeneratedProofVerifiesIff`).
- A treasury spend to the treasury's own account writes the credit over the debit
  (`TreasuryRuns.SpendConservesIff`).
- A creation record whose amount overflows the supply is stored before the addition fails; the
  audit fails exactly from there on (`SupplyRuns.AuditableStep`, `SupplyRuns.AuditableIff`,
  `SupplyRuns.OverflowReachable`).
- "A provider's reward does not shrink when others join" fails below the target: a new operator on
  its segment can move the segment to a tier that pays less (`ArchivalTarget.JoiningCutsReward`).
  `ArchivalJoining.NewOperatorMovesWeight` says exactly when; on other segments the promise holds
  (`ArchivalJoining.RewardKeptElsewhere`).
- A reward share is described as the rounded-down proportion; it is that for all amounts exactly
  when the whole fits 64 bits (`ArchivalRewards.ExactIff`). The sum bound holds always.

## Model

| member | source | states |
|---|---|---|
| `Quorum.RequiredWeight` | include/consensus/QuorumThreshold.hpp:22-30 | Equals floor(2W/3)+1 for every positive 64-bit total, with no intermediate value beyond 64 bits, and never exceeds the total. |
| `Quorum.ThresholdIsTight` | include/consensus/QuorumThreshold.hpp:22-30 | Two quorums overlap in more than W/3, and the honest remainder is a quorum exactly while the faulty weight is at most floor((W-1)/3). |
| `Quorum.QuorumIntersection` | include/consensus/QuorumThreshold.hpp:22-30 | Any two signer sets that reach the threshold share members of more than one third of the weight. |
| `Quorum.HonestWitness` | include/consensus/QuorumThreshold.hpp:22-30 | With less than one third faulty, any two quorums share an honest validator. |
| `Certificates.SignedWeightIsSetWeight` | src/consensus/QuorumCertificate.cpp:398-449 | The running vote-by-vote sum over distinct voters is the weight of the voter set and never passes the total. |
| `Certificates.CertificateIsQuorum` | src/consensus/QuorumCertificate.cpp:343-449 | The voters of every verified certificate are a quorum of the validator set it is checked against. |
| `Certificates.VerifyCertificate` | src/consensus/QuorumCertificate.cpp:398-449 | The structural checks and the pass over the votes accept exactly the certificates that verify. |
| `Certificates.TallyVotes` | src/consensus/QuorumCertificate.cpp:622-771 | The accumulation over candidate votes succeeds exactly when no voter repeats and every vote is good, with the full signed weight. |
| `Certificates.BuildFromVotes` | src/consensus/QuorumCertificate.cpp:622-771 | A certificate comes out exactly when the votes are certifiable, and every certificate that comes out verifies. |
| `Certificates.VerifiesIff` | src/consensus/QuorumCertificate.cpp:343-449 | A certificate verifies if and only if distinct active voters with more than two thirds of the set's weight each signed a precommit for exactly its block, parent, height and round, and it states that weight, the set's total, the threshold and the set's root. |
| `Certificates.VerifiedIsBuilt` | src/consensus/QuorumCertificate.cpp:343-771 | What verifies is exactly what the builder makes of its votes. |
| `ValidatorNode.KeptPrecommitSilencesRound` | src/node/consensus/ConsensusEventLoop.cpp:393-412 | After a finalization in the voting loop a safe prevote of the next height's first round is exposed if and only if no precommit stayed in memory, the write succeeds and the vote is well-formed; after the votes are cleared, or after a round change, the first condition falls away. |
| `ValidatorNode.RecoveryStore.Save` | src/consensus/ConsensusRecoveryStore.cpp:229-255 | The slot is replaced exactly when the state is a valid round state and the write succeeds. |
| `ValidatorNode.VotingLoop.SaveRecoveryState` | src/node/consensus/ConsensusEventLoop.cpp:800-811 | Writes the current lock and signed votes, or leaves the slot as it was. |
| `ValidatorNode.VotingLoop.CastPrevote` | src/node/consensus/ConsensusEventLoop.cpp:247-295 | A prevote is exposed exactly when the lock rule, with its unlock certificate checked vote by vote, allows it, it is the first of its round, and the durable slot already holds it. |
| `ValidatorNode.VotingLoop.IsSafeToVote` | src/node/consensus/ConsensusEventLoop.cpp:250-266 | Decides the lock rule: no lock, the locked block, or a verified certificate for this block from a round no older than the lock. |
| `ValidatorNode.CountPrevotes` | src/node/consensus/ConsensusEventLoop.cpp:205-221 | Each prevoter's weight is counted once, so the sum is the weight of the set of prevoters and fits 64 bits. |
| `ValidatorNode.VotingLoop.CastPrecommit` | src/node/consensus/ConsensusEventLoop.cpp:320-357 | With a quorum of counted prevotes a precommit locks the node and is exposed only after the slot holds it; a failed write restores the previous lock. |
| `ValidatorNode.VotingLoop.CastNilPrevote` | src/node/consensus/ConsensusEventLoop.cpp:296-319 | A nil prevote ends the round's prevoting; the slot refuses it. |
| `ValidatorNode.VotingLoop.CastNilPrecommit` | src/node/consensus/ConsensusEventLoop.cpp:358-381 | A nil precommit ends the round's precommitting; the slot refuses it. |
| `ValidatorNode.VotingLoop.AdvanceRound` | src/node/consensus/ConsensusEventLoop.cpp:782-798 | A round change drops the round's votes and keeps the lock. |
| `ValidatorNode.VotingLoop.LoadFromRecoveryState` | src/node/RuntimeStateLoader.cpp:434-464 | A restart restores exactly the slot, replaces a slot of an already finalized height, and refuses a slot of a later one. |
| `Agreement.NoConflictingPrevote` | src/consensus/ProposalJustification.cpp:113-162 | Once a precommit quorum stands behind a block in a round, no honest member of that quorum prevotes for another block of that height in any later round, short of one block hash in honest votes of two heights. |
| `Agreement.QuorumsAgree` | src/consensus/ProposalJustification.cpp:113-162 | Two precommit quorums of one height, in any rounds, back the same block, short of one block hash in honest votes of two heights. |
| `ConsensusRuns.PrevoteRespectsLock` | src/node/consensus/ConsensusEventLoop.cpp:247-266 | A prevote the node's own lock check lets through respects the newest precommit the validator ever exposed. |
| `ConsensusRuns.PrevoteKeeps` | src/node/consensus/ConsensusEventLoop.cpp:247-295 | Exposing a prevote keeps slot, memory and log in agreement. |
| `ConsensusRuns.PrecommitKeeps` | src/node/consensus/ConsensusEventLoop.cpp:320-357 | Exposing a precommit keeps slot, memory and log in agreement. |
| `ConsensusRuns.RestartKeeps` | src/node/RuntimeStateLoader.cpp:434-464 | A crash and reload loses no exposed vote and no lock. |
| `ConsensusRuns.RunKeeps` | src/consensus/ConsensusRoundManager.cpp:101-147 | The invariant tying every validator's memory and slot to the votes it exposed holds in every reachable state. |
| `ConsensusRuns.RunKeepsChains` | src/node/consensus/ConsensusEventLoop.cpp:698-703 | In every run each honest chain is valid, starts at genesis and ends just below its validator's height, and behind every exposed vote stands a block of that height with the hash of its own header. |
| `ConsensusRuns.TwoHeightsCollide` | src/core/Block.cpp:184-195 | One hash in votes of two heights exhibits two voted blocks with different headers and one hash, since a header names its height. |
| `ConsensusRuns.CertificatesAgree` | include/consensus/ProposalJustification.hpp:23-66 | Agreement: with less than one third of the weight faulty, in every run of votes, round changes, locks, unlocks, crashes and reloads, two verified certificates of one height certify one block, or two blocks that honest validators voted for have different headers with one hash. |
| `ConsensusRuns.FinalizedBlocksAgree` | include/consensus/ProposalJustification.hpp:23-66 | No two honest validators finalize different blocks at one height, or two blocks that honest validators voted for have different headers with one hash. |
| `ConsensusRuns.ChainsAgree` | include/consensus/ProposalJustification.hpp:23-66 | In every run the chains of any two honest validators carry the same headers at every height both have reached, or two different headers with one hash are at hand. |
| `ConsensusRuns.NoEquivocation` | include/consensus/ConsensusRecoveryStore.hpp:15-22 | However often it crashes, an honest validator exposes at most one prevote and one precommit per height and round. |
| `SilentRound.SilentAfterFinalize` | src/node/consensus/ConsensusEventLoop.cpp:393-412 | In any state, after a finalization in the voting loop an enabled prevote of the next height enters the network if and only if no precommit was left in memory. |
| `SilentRound.SilentRoundReachable` | src/node/consensus/ConsensusEventLoop.cpp:393-412 | A fault-free run with a working disk reaches the silence: a lone validator votes, finalizes height 1, and no prevote for any valid successor block leaves it, for every block hash. |
| `Unlocking.PrevoteExposedIff` | src/node/consensus/ConsensusEventLoop.cpp:247-295 | A prevote is exposed if and only if it is the round's first, the slot takes it, and the node holds no lock, is locked on this block, or sees a certificate for it that verifies and is no older than a lock of an earlier round. |
| `Unlocking.CertifiedBlockUnlocks` | src/consensus/ProposalJustification.cpp:113-162 | In every run, precommits for a block of a round no older than the lock, enough to certify it, let a validator locked on another block prevote it. |
| `Unlocking.UnlockReachable` | src/consensus/ProposalJustification.cpp:113-162 | With less than a third of the weight faulty, a run locks a validator in round 1 and lets it prevote another block in round 3 on the precommits of round 2. |
| `Unlocking.PrecommitExposedIff` | src/node/consensus/ConsensusEventLoop.cpp:320-357 | A precommit is exposed if and only if the node prevoted and did not precommit in the round, a quorum prevoted the block and the slot takes it; the node is then locked on that block and round. |
| `Unlocking.PrecommitPersistableIff` | src/consensus/ConsensusRecoveryStore.cpp:229-255 | The slot of a reached node takes a precommit if and only if it is for the block the node prevoted in this height and round. |
| `Unlocking.PrecommitFollowsPrevote` | src/node/consensus/ConsensusEventLoop.cpp:320-357 | In every run every precommit an honest validator exposed has an earlier prevote of that validator for the same block, height and round. |
| `Unlocking.RestartRestores` | src/node/RuntimeStateLoader.cpp:434-464 | A crash right after a saved vote changes nothing. |
| `Unlocking.RestartStartsOver` | src/node/RuntimeStateLoader.cpp:434-464 | A crash with an older height's slot starts the current height's first round, unlocked. |
| `Unlocking.NilEndsVoting` | src/node/consensus/ConsensusEventLoop.cpp:296-319 | A nil vote ends the round's voting of its kind and changes neither lock nor slot. |
| `VotePool.ValidatorKeyInjective` | src/consensus/VotePool.cpp:325-333 | The joined text key identifies validator, height, round and decision. |
| `VotePool.SubmitKeepsInv` | src/consensus/VotePool.cpp:143-187 | A submission keeps the five indexes of the pool mutually consistent. |
| `VotePool.PruneKeepsInv` | src/consensus/VotePool.cpp:401-450 | So does pruning. |
| `VotePoolRuns.RunKeepsInv` | src/consensus/VotePool.cpp:143-450 | The indexes stay consistent over every sequence of submissions and prunes. |
| `VotePoolRuns.OneQuorumPerRound` | src/consensus/VotePool.cpp:143-187 | At any moment at most one block per height and round has a precommit quorum in a pool. |
| `VotePoolRuns.OneQuorumPerRoundOverTime` | src/consensus/VotePool.cpp:143-187 | The same across time, as long as the height is not pruned in between. |
| `VotePoolRuns.CollectorExclusive` | src/consensus/NetworkVoteCollector.cpp:54-165 | Behind the collector, which admits only its current height and round and prunes below it, at most one block of a round ever gets a quorum. |
| `VotePoolRuns.QuorumProgress` | src/consensus/VotePool.cpp:207-246 | The reported weight is that of all the block's voters, whatever they decided. |
| `VotePoolRuns.Store.SubmitVote` | src/consensus/VotePool.cpp:143-187 | The in-place submission is the modelled step, status by status. |
| `VotePoolRuns.Store.PruneBelow` | src/consensus/VotePool.cpp:401-450 | The in-place loops over the indexes are the modelled prune. |
| `VotePoolRuns.AcceptedIff` | src/consensus/VotePool.cpp:143-187 | The pool accepts a vote if and only if it is complete, outside development carries a good signature, has a new id, and is its validator's first of this height, round and decision. |
| `VotePoolRuns.ListedVotesAreSigned` | src/consensus/VotePool.cpp:345-370 | In every run every listed vote is complete and, outside development, signed. |
| `VotePoolRuns.PrunesExactly` | src/consensus/VotePool.cpp:401-450 | A prune keeps exactly the votes, keys and conflicts of its height and above. |
| `VotePoolRuns.CollectedIff` | src/consensus/NetworkVoteCollector.cpp:54-165 | The collector passes a vote on if and only if its validator is eligible and it is for the collector's height, in its round or the next. |
| `VotePoolLimits.ReadmittedIff` | src/consensus/VotePool.cpp:143-187 | For every pool and prune, a validator that has voted is admitted again with another vote of the same height, round and decision if and only if the prune passed that height. |
| `VotePoolLimits.SecondQuorumIff` | src/consensus/VotePool.cpp:401-450 | For any weights and any pool with a precommit quorum, a prune followed by the same voters' precommits for another block gives that block a quorum of the same round if and only if the prune passed the height. |
| `VotePoolLimits.SecondQuorumReachable` | src/consensus/VotePool.cpp:401-450 | Such pools are reached by one accepted vote. |
| `VotePoolLimits.ProgressOverlap` | src/consensus/VotePool.cpp:207-246 | Two blocks of one round that both report enough weight share voters of more than a third of it, each with votes under two decisions. |
| `VotePoolLimits.ProgressExclusive` | src/consensus/VotePool.cpp:207-246 | While no validator has votes of a round under two decisions, at most one of its blocks reaches the required progress, whatever the weights. |
| `VotePoolLimits.ProgressSharedIff` | src/consensus/VotePool.cpp:207-246 | Some weights bring two blocks of a round to full progress together if and only if some validator voted for both. |
| `VotePoolLimits.SharedProgressReachable` | src/consensus/VotePool.cpp:207-246 | A pool where a validator voted for two blocks is reached by two accepted votes. |
| `VotePoolLimits.PrunesRightIff` | src/consensus/VotePool.cpp:427-448 | Pruning drops a conflict counter together with its votes at every height if and only if the text between the key's first two separators reads as the vote's height. |
| `VotePoolLimits.ConflictRecordsBounded` | src/consensus/VotePool.cpp:163-180 | Over every run a key whose height field is a 64-bit number no smaller than the vote's height has at most ten conflict records, and the counter is their number where the field is the height. |
| `VotePoolLimits.RecordsBoundedIff` | src/consensus/VotePool.cpp:163-180 | The bound of ten records per key holds in every run if and only if that condition on the address holds; otherwise a run records eleven. |
| `VotePoolLimits.SeparatorLosesCount` | src/consensus/VotePool.cpp:427-448 | Any address that ends in a separator and a zero fails the condition. |
| `Chain.HeaderInjective` | src/core/Block.cpp:184-195 | A header text determines the block's index, parent hash and commitments. |
| `Chain.HashedHeader` | src/core/Blockchain.cpp:84-106 | In a valid chain from height zero every block carries its own header's hash and links to a real hash, so no snapshot boundary hides inside. |
| `Chain.SharedHashSharesHistory` | src/core/Blockchain.cpp:157-190 | Two valid chains with one block hash at a height have the same hashes at every lower height, or two headers collide. |
| `Chain.ExtendsIff` | src/core/Blockchain.cpp:108-116 | A block extends a chain from genesis if and only if it has the next height, links to the tip, is later than it, has good records and carries its own header's hash. |
| `Chain.StartsIff` | src/core/Blockchain.cpp:108-116 | An empty chain takes exactly a genesis block with good records and its own header's hash. |
| `Chain.TimesGrow` | src/core/Blockchain.cpp:157-190 | Times strictly grow along a valid chain. |
| `Finality.BlockFinalizationRegistry.RegisterFinalizedBlock` | src/consensus/BlockFinalizer.cpp:506-554 | A height is registered once; a different hash is a conflict; a failed audit takes the insertion back. |
| `Finality.FinalizeBlock` | src/consensus/BlockFinalizer.cpp:738-859 | Every refusal in order; otherwise the block is appended and registered, and in a sound state the outcome is never a duplicate or a registration failure. |
| `Finality.AdoptionChecks` | src/consensus/ForkChoice.cpp:381-500 | What a decision to adopt has established about the two chains and their highest checkpoints. |
| `Finality.AdoptedChainKeepsRecord` | src/consensus/ForkChoice.cpp:342-379 | Comparing only the highest local checkpoint still keeps every earlier finalized block in the adopted chain, or two headers collide. |
| `Finality.RecordsOnlyGrow` | src/consensus/BlockFinalizer.cpp:506-554 | A finalized height keeps its record through every run. |
| `Finality.FinalityNeverLost` | include/consensus/ForkChoice.hpp:127-153 | In every run of finalize and adopt steps, a block finalized at any point is in the local chain at its height at every later point, or two block headers collide. |
| `Finality.AdoptionMakesProgress` | src/consensus/ForkChoice.cpp:467-500 | When the candidate's highest record is taken over with its chain, every adoption raises the finalized height, or keeps it and lengthens the chain, so adoptions cannot go round in circles. |
| `ForkChoice.ChoiceIff` | src/consensus/ForkChoice.cpp:381-500 | The candidate is adopted if and only if both chains and registries are usable, it holds the local checkpoint, its own is not lower nor a different block of that height, and it has a higher checkpoint or is longer; likewise exactly when the chains are equal and when the candidate is rejected. |
| `ForkChoice.ExtensionIsAdopted` | src/consensus/ForkChoice.cpp:467-500 | A node that meets a valid extension of its chain, with its own records, ends with that extension. |
| `ForkChoice.FinalizedIff` | src/consensus/BlockFinalizer.cpp:738-859 | A block is finalized if and only if it follows the tip and comes with a verified certificate for this very block without votes older than it; otherwise nothing changes. |
| `ForkChoice.RegistersIff` | src/consensus/BlockFinalizer.cpp:506-554 | A valid record is registered if and only if its height has none; otherwise it is a duplicate or a conflict by its block hash. |
| `MerkleBinding.TreeBinding` | src/core/MerkleTree.cpp:22-49 | Two hash trees with one root are the same tree, or two different inputs hashed on the way collide, for any hash function. |
| `OrderedRoot.ComputeLayer` | src/core/MerkleTree.cpp:29-49 | The loop hashes pairs layer by layer, pairing an odd last node with itself. |
| `OrderedRoot.BuildOrderedRoot` | src/core/MerkleTree.cpp:75-83 | The root of the index- and length-tagged leaves. |
| `OrderedRoot.TreeHoldsPayloads` | src/core/MerkleTree.cpp:29-49 | Duplicated odd nodes add no leaf: the tree holds exactly the payloads, each under its index. |
| `OrderedRoot.OrderedRootBinding` | include/core/MerkleTree.hpp:14-25 | Two payload lists of any lengths with one ordered root are equal, or two different texts hashed for them collide. |
| `OrderedRoot.RootOfThree` | src/core/MerkleTree.cpp:29-83 | The root of any three records as nested hashes of the literal texts: position and length in the leaves, left before right, the odd node with itself. |
| `SparseTrie.UpdateRepresents` | src/core/SparseMerkleTree.cpp:58-89 | An update keeps the stored trie standing for the key map with that key written. |
| `SparseTrie.SparseEqualsDense` | include/core/SparseMerkleTree.hpp:11-57 | After any updates the lazily stored trie's root is the hash of the complete tree of the final key map. |
| `SparseTrie.UpdateOrderIrrelevant` | src/core/SparseMerkleTree.cpp:58-93 | Order, repetition and empty leaf hashes do not show in the root. |
| `SparseTrie.RootBindsLeaf` | src/core/SparseMerkleTree.cpp:31-93 | Equal roots have equal leaf hashes under every key, or two node inputs of the complete trees collide. |
| `SparseProofs.ComputeReconstructedRoot` | src/core/MerkleTree.cpp:96-106 | The loop applies the steps from leaf to root. |
| `SparseProofs.GeneratedProofVerifies` | src/core/SparseMerkleTree.cpp:95-149 | A generated proof carries the key's leaf hash and verifies against the root when the neighbouring leaf was not written as empty. |
| `SparseProofs.GeneratedProofFails` | src/core/SparseMerkleTree.cpp:119-149 | Next to a leaf written with an empty hash the step carries the stored empty text, and the proof fails or a collision shows. |
| `SparseProofs.GeneratedProofVerifiesIff` | src/core/SparseMerkleTree.cpp:95-149 | Over any updates, short of a collision, a generated proof verifies exactly when the neighbouring leaf was not written as empty. |
| `SparseProofs.AcceptedLeafIsStored` | src/core/MerkleTree.cpp:96-114 | A full-length proof along a key that reaches the root carries the leaf hash stored under that key, or a collision shows. |
| `SparseTree.ParseKey` | src/core/SparseMerkleTree.cpp:38-56 | A key is read exactly when it has the right number of hexadecimal digits. |
| `SparseTree.SameKeyIff` | src/core/SparseMerkleTree.cpp:38-56 | Two keys name one leaf exactly when their digits agree, upper and lower case alike. |
| `SparseTree.NibbleIff` | src/core/SparseMerkleTree.cpp:38-56 | A digit's value is its place among the sixteen digits, in either case. |
| `SparseTree.PathIsNumber` | src/core/SparseMerkleTree.cpp:38-56 | A key's path spells the key's number in binary, highest bit first. |
| `SparseTree.PrecomputeDefaultHashes` | src/core/SparseMerkleTree.cpp:23-29 | The table holds the hash of the empty subtree of every height. |
| `SparseTree.SparseMerkleTree.Update` | src/core/SparseMerkleTree.cpp:58-89 | Writes one leaf and keeps the object standing for its contents; a malformed key changes nothing. |
| `SparseTree.SparseMerkleTree.Root` | src/core/SparseMerkleTree.cpp:91-93 | Returns the hash of the complete tree of the contents. |
| `SparseTree.SparseMerkleTree.GenerateProof` | src/core/SparseMerkleTree.cpp:95-117 | Returns the key's leaf hash with a proof that verifies unless the neighbouring leaf was written as empty. |
| `V1Encoding.UIntRoundTrip` | scripts/generate_v1_object_vectors.py:35-48 | Big-endian words read back as the number written. |
| `V1Encoding.UIntByte` | scripts/generate_v1_object_vectors.py:35-48 | Byte i of a word is the value divided by 256 to the number of bytes after it, modulo 256. |
| `V1Encoding.I64RoundTrip` | scripts/generate_v1_object_vectors.py:51-52 | So do two's-complement words. |
| `V1Encoding.BlobRoundTrip` | scripts/generate_v1_object_vectors.py:55-60 | A length-prefixed field followed by any bytes determines its contents and the remainder. |
| `V1Encoding.ReadBlobCanonical` | src/serialization/CanonicalReader.cpp:100-112 | Whatever reads as a field is that field's encoding. |
| `V1Encoding.ItemsRoundTrip` | scripts/generate_v1_object_vectors.py:63-64 | A structured list followed by any bytes determines its elements and the remainder. |
| `V1Encoding.BareItemsDecode` | scripts/generate_v1_object_vectors.py:63-64 | A list of bare elements determines them among lists whose elements have the same lengths. |
| `V1Encoding.BareItemsAmbiguous` | scripts/generate_v1_object_vectors.py:63-64 | Without that, two different bare lists can have one encoding. |
| `V1Encoding.ObjInjective` | scripts/generate_v1_object_vectors.py:67-68 | An object's bytes determine its kind and payload. |
| `V1Encoding.HashInputInjective` | scripts/generate_v1_object_vectors.py:31-32 | Domain and data can be recovered from the hash input when the domain has no zero byte. |
| `V1Encoding.ZeroByteInDomainIsAmbiguous` | scripts/generate_v1_object_vectors.py:31-32 | With a zero byte in the domain they cannot. |
| `V1Encoding.Reader.ReadUInt` | src/serialization/CanonicalReader.cpp:28-78 | Reads exactly the next word, or nothing when too few bytes are left. |
| `V1Encoding.Reader.ReadField` | src/serialization/CanonicalReader.cpp:86-112 | Reads exactly the next length-prefixed field within the size limit. |
| `SplitTree.ComputeSplit` | src/serialization/V1MerkleTree.cpp:22-29 | The doubling loop finds the split. |
| `SplitTree.SplitIsLargestPower` | src/serialization/V1MerkleTree.cpp:22-29 | The split is the largest power of two below the count, so both parts are shorter and not empty. |
| `SplitTree.TreeHoldsElements` | src/serialization/V1MerkleTree.cpp:47-56 | The split tree holds exactly the elements, each under its index. |
| `SplitProofs.BuildWithProofs` | src/serialization/V1MerkleTree.cpp:58-93 | One pass appends to every requested proof exactly its own path, in any order of requests, and returns the subtree hash. |
| `SplitProofs.RebuildPath` | src/serialization/V1MerkleTree.cpp:95-120 | Rebuilding from a leaf with its own path gives the subtree hash. |
| `SplitProofs.RebuildSound` | src/serialization/V1MerkleTree.cpp:95-120 | A rebuilt hash that matches used the true leaf and exactly the true path, or two node inputs collide. |
| `SplitProofs.PathLength` | src/serialization/V1MerkleTree.cpp:58-93 | A tree of at most 2^d leaves has paths of at most d siblings. |
| `V1Merkle.V1RootBinding` | src/serialization/V1MerkleTree.cpp:153-178 | Equal roots, even of different kinds, have one kind and one list (length, order, contents), or two different inputs that were hashed collide. |
| `V1Merkle.RootOfTwo` | src/serialization/V1MerkleTree.cpp:153-178 | The root of any two elements as nested hashes: position before element, left before right, count before tree. |
| `V1Proofs.Prove` | src/serialization/V1MerkleTree.cpp:180-203 | One proof per requested index, in order, exactly when the tree is within limits and every index is inside it. |
| `V1Proofs.HonestProofVerifies` | src/serialization/V1MerkleTree.cpp:205-241 | Every proof built for a tree within the limit is accepted and has at most 20 siblings. |
| `V1Proofs.AcceptedProofIsHonest` | src/serialization/V1MerkleTree.cpp:205-241 | An accepted proof names the true size, the true element at its index and exactly the honest siblings, or an input of the root and one of the proof collide. |
| `SegmentStream.PartInStream` | src/archive/ArchiveSegment.cpp:30-40 | Between a block's offset and the next lies exactly its frame. |
| `SegmentStream.PieceFits` | src/archive/ArchiveSegment.cpp:160-169 | Every piece lies in the stream; all but the last are full and none is empty. |
| `SegmentStream.PiecesRebuildStream` | include/archive/ArchiveSegment.hpp:15-26 | The pieces concatenate to the stream and the declared lengths sum to its length. |
| `SegmentStream.StreamRoundTrip` | src/archive/ArchiveSegment.cpp:30-40 | The stream reads back, frame by frame, as exactly its blocks with their heights. |
| `ArchiveSegment.CutIsPieces` | src/archive/ArchiveSegment.cpp:42-84 | Full pieces and a shorter rest are the pieces of what they concatenate to. |
| `ArchiveSegment.PieceAccumulator.Append` | src/archive/ArchiveSegment.cpp:46-60 | Takes all bytes in order, hashing every full piece, exactly while the pieces fit one tree. |
| `ArchiveSegment.PieceAccumulator.Finish` | src/archive/ArchiveSegment.cpp:62-66 | Leaves the hashes of the stream's pieces. |
| `ArchiveSegment.Build` | src/archive/ArchiveSegment.cpp:236-282 | An index comes out exactly when every block is present and well-formed and the pieces fit; its offsets, total, hashes and root are those of the stream. |
| `ArchiveSegment.ArchivableIff` | src/archive/ArchiveSegment.cpp:236-282 | A block can be archived if and only if it has one to 1048576 bytes and a hash of 64 lower-case hexadecimal digits. |
| `ArchiveSegment.ReadPiece` | src/archive/ArchiveSegment.cpp:284-332 | A piece is read exactly when every block it overlaps is present with its length unchanged, and is then that slice of the stream. |
| `ArchivalSamples.CheckSamples` | src/archive/ArchivalProof.cpp:306-329 | The check over a proof's samples accepts exactly when every challenged piece is answered with its length and a valid path. |
| `ArchivalSamples.AcceptedSampleIsArchived` | src/archive/ArchivalProof.cpp:306-329 | A sample accepted against a built segment's root is exactly the challenged piece of the archived stream with the tree's own siblings, or two hashed inputs collide. |
| `ArchivalSamples.BuildSamples` | src/archive/ArchivalProof.cpp:44-76 | Samples come out exactly when every challenged piece exists and the blocks under it are present with their lengths, and are then the pieces of the stream served now. |
| `ArchivalSamples.AnswerChallenge` | src/archive/ArchivalProof.cpp:44-76 | A provider whose blocks are unchanged can answer every challenge on a built segment, and its samples are accepted. |
| `ArchivalSamples.ChangedPieceIsRefused` | src/archive/ArchivalProof.cpp:306-329 | An answer from changed blocks of the same lengths is accepted if and only if the piece is still the archived one, or two hashed inputs collide. |
| `Assignment.BestOfWins` | src/archive/ArchiveAssignment.cpp:56-78 | The scan's winner is eligible and beats every other eligible provider in the planner's order, and there is none only if no one is eligible. |
| `Assignment.PlanIsGreedy` | include/archive/ArchiveAssignment.hpp:20-45 | In every plan each slot goes to the best eligible provider over the slots before it, and a segment has fewer than the target only when no one was eligible. |
| `AssignmentOrder.LowestRankWins` | src/archive/ArchiveAssignment.cpp:54-78 | Every slot is held by a provider whose bond, capacity and operator allow it, and everyone else of whom that holds has a higher rank for this segment and replica, or the same rank and a higher id. |
| `AssignmentOrder.ShortOnlyWithoutProviders` | src/archive/ArchiveAssignment.cpp:47-86 | A segment gets all its replicas, or no provider's bond, capacity and operator allow another. |
| `Ordering.LessIff` | src/archive/ArchiveAssignment.cpp:66-72 | Texts are ordered by the first position where they differ, a prefix first. |
| `Assignment.WithinLimits` | include/archive/ArchiveAssignment.hpp:20-45 | No provider exceeds its declared bytes or the slots its bond pays for. |
| `Assignment.IndependentReplicas` | include/archive/ArchiveAssignment.hpp:20-45 | No provider and no operator holds two slots of one segment. |
| `Assignment.SplittingBondGainsNothing` | src/archive/ArchiveProvider.cpp:83-88 | However a bond is split over identities, they may hold no more slots together than one identity with all of it. |
| `Assignment.FindBest` | src/archive/ArchiveAssignment.cpp:54-72 | The scan over remaining budgets, holders and operators finds that winner. |
| `Assignment.PlanSegment` | src/archive/ArchiveAssignment.cpp:47-86 | One segment's loop spends budgets exactly as slots are given. |
| `Assignment.ComputePlan` | src/archive/ArchiveAssignment.cpp:30-88 | The nested loops with running budgets produce the plan. |
| `GovernanceExecutor.ComputeTally` | src/node/GovernanceExecutor.cpp:493-536 | The tally fails exactly when a sum leaves 64 bits, and otherwise decides quorum and approval by the weights of the sets of voters. |
| `GovernanceExecutor.FinalizeProposal` | src/node/GovernanceExecutor.cpp:615-662 | The decision at the end of voting; an approved spend is queued, not paid. |
| `GovernanceExecutor.Executor.SubmitProposal` | src/node/GovernanceExecutor.cpp:693-738 | A proposal enters once, with voting heights that fit 64 bits. |
| `GovernanceExecutor.Executor.CastVote` | src/node/GovernanceExecutor.cpp:742-789 | A ballot counts exactly when the proposal is open, the weight is eligible and the validator has not voted. |
| `GovernanceExecutor.Executor.AdvanceToHeight` | src/node/GovernanceExecutor.cpp:936-971 | A height advance succeeds exactly when no due tally overflows, and then moves every proposal as specified; a failed one leaves each proposal as it was, opened, or fully advanced. |
| `GovernanceExecutor.Executor.TreasuryEpochSpentSoFar` | src/node/GovernanceExecutor.cpp:469-491 | The sum of the epoch's executed spends without one proposal. |
| `GovernanceExecutor.Executor.ExecuteQueuedTreasuryProposal` | src/node/GovernanceExecutor.cpp:973-1045 | A spend goes through exactly when it is queued, past its heights, accepted by every check and within 64 bits; otherwise nothing changes. |
| `TreasuryRuns.AdvanceKeeps` | src/node/GovernanceExecutor.cpp:936-971 | Height advances keep the payment history and the epoch sums. |
| `TreasuryRuns.ExecuteKeeps` | src/node/GovernanceExecutor.cpp:973-1045 | A payment keeps every epoch within its cap and is recorded once. |
| `TreasuryRuns.TreasurySafety` | include/node/GovernanceExecutor.hpp:295-344 | In every run under one policy no proposal is paid twice; the voters of every paid one were a quorum and those for it held the asked share, one ballot each; it was paid after its timelock, within the limits, with its own approval where the policy asks for one. |
| `TreasuryRuns.SpendConservesIff` | src/node/GovernanceExecutor.cpp:1019-1030 | A spend conserves the sum of all balances exactly when the recipient is not the treasury itself; then it keeps the credit without the debit. |
| `TreasuryRuns.SupplyOverRuns` | src/node/GovernanceExecutor.cpp:973-1045 | Over any run all balances sum to what they were plus what the treasury paid itself. |
| `Treasury.DecidedByVoters` | src/node/GovernanceExecutor.cpp:493-536 | With one ballot per validator, quorum and approval are about the weights of the sets of all voters and of those who said yes and no. |
| `TreasuryLaws.ProposalEntersIff` | src/node/GovernanceExecutor.cpp:693-738 | A proposal enters if and only if it is new and complete and its voting ends within 64 bits. |
| `TreasuryLaws.BallotCountsIff` | src/node/GovernanceExecutor.cpp:742-789 | A new proposal counts the first fitting ballot at exactly its period's heights after the delay, and at no other. |
| `TreasuryLaws.LaterBallotCountsIff` | src/node/GovernanceExecutor.cpp:742-789 | Any ballot counts if and only if the proposal is undecided and open, the weight fits and the validator has not voted. |
| `TreasuryLaws.DecisionIff` | src/node/GovernanceExecutor.cpp:615-662 | A due spend expires if and only if the voters are no quorum, is rejected if and only if they are one and do not approve, and is queued otherwise. |
| `TreasuryLaws.OtherDecisionIff` | src/node/GovernanceExecutor.cpp:936-971 | Any other approved proposal is applied from its effective height on, waits for it, or fails for good. |
| `TreasuryLaws.AdvanceIff` | src/node/GovernanceExecutor.cpp:936-971 | A height advance moves every proposal, or none: none exactly at height zero or when a due proposal's voters weigh more than 64 bits hold. |
| `TreasuryLaws.NoYesNeverQueued` | src/node/GovernanceExecutor.cpp:615-662 | In no run is a spend queued or paid that nobody said yes to. |
| `TreasuryLaws.YesNeverHurts` | src/node/GovernanceExecutor.cpp:524-533 | Turning a no into a yes never undoes an approval. |
| `TreasuryLaws.EpochPaymentsCapped` | src/node/GovernanceExecutor.cpp:469-491 | In every run the payments at the heights of each epoch of 43200 blocks together stay within the cap. |
| `TreasuryLaws.PaysIff` | src/node/GovernanceExecutor.cpp:973-1045 | In every run a queued spend is paid if and only if its timelock has passed, the treasury, the limit for a proposal and the cap over the epoch's payments allow the amount, and the policy's approval is there. |
| `ValidatorSetHistory.RecordRefines` | src/core/ValidatorRegistry.cpp:1167-1195 | Recording in the compressed form accepts and changes exactly what a table with one entry per height would. |
| `ValidatorSetHistory.RunsAreValid` | src/core/ValidatorRegistry.cpp:1214-1230 | After every sequence of recordings from nothing the history passes the validity check. |
| `ValidatorSetHistory.RunsAnswerLikeTable` | src/core/ValidatorRegistry.cpp:1167-1209 | After every sequence of recordings the compressed history answers at every height as a plain table with one entry per height does. |
| `ValidatorSetHistory.AcceptedIsRemembered` | src/core/ValidatorRegistry.cpp:1197-1209 | In every run an accepted height answers with its set after any further recordings. |
| `ValidatorSetHistory.StoredFormUnique` | include/core/ValidatorRegistry.hpp:283-320 | Valid histories that answer alike are equal. |
| `ValidatorSetHistory.WindowAgrees` | src/core/ValidatorRegistry.cpp:1255-1269 | A window is valid and answers like the full history from its first height on, and not before. |
| `ValidatorSetHistory.RestoreRoundTrip` | src/core/ValidatorRegistry.cpp:1271-1283 | For every run that recorded something, stored fields restore to a history with the same answers at every height if and only if they are the fields that run stored. |
| `ValidatorSetHistory.WindowRoundTrip` | src/core/ValidatorRegistry.cpp:1255-1283 | For every window of every run, stored fields restore to a history that answers like the full one from the window's start on and not before if and only if they are the window's fields. |
| `ValidatorSetHistory.ChangesAreStored` | src/core/ValidatorRegistry.cpp:1167-1195 | A set differs from the one before it exactly at the stored heights after the first. |
| `ValidatorSetHistory.BoundariesPointwise` | src/core/ValidatorRegistry.cpp:1232-1244 | The boundary check over stored changes is the check over all heights. |
| `ValidatorSetHistory.BoundariesIffEpochsShare` | src/core/ValidatorRegistry.cpp:1232-1244 | The boundary check holds if and only if all recorded heights of every epoch, counted from height one, have one set. |
| `ValidatorSetHistory.SetHistory.RecordSet` | src/core/ValidatorRegistry.cpp:1167-1195 | The in-place recording is the modelled one. |
| `ValidatorSetHistory.SetHistory.SetAtHeight` | src/core/ValidatorRegistry.cpp:1202-1209 | The search finds the set of the last change not after the height. |
| `ValidatorSetHistory.SetHistory.CheckBoundaries` | src/core/ValidatorRegistry.cpp:1232-1244 | The loop over stored changes decides the boundary check. |
| `CoinLots.AllocateInput` | src/core/CoinLotTransactionValidator.cpp:198-240 | One input is cut first for the recipient, then for the fee, the rest into change, with nothing lost. |
| `CoinLots.AllocateOutputs` | src/core/CoinLotTransactionValidator.cpp:152-242 | All inputs are cut into positive, individually named outputs that sum to them. |
| `CoinLots.TransferBalances` | include/core/CoinLotTransactionValidator.hpp:25-66 | Inputs that cover the debit equal recipient plus fee plus change, each paid in full. |
| `CoinLots.TransferConserves` | src/core/CoinLotTransactionValidator.cpp:278-329 | A transfer leaves the sum of live lots unchanged. |
| `CoinLots.TransferMovesBalances` | src/core/CoinLotTransactionValidator.cpp:111-329 | A transfer takes amount plus fee out of the sender's balance, gives the amount to the recipient and the fee to the pool, and touches no other balance. |
| `CoinLots.TransferKeepsLots` | src/core/CoinLotTransactionValidator.cpp:278-329 | Every lot is still there after a transfer: spent if it was an input, else untouched. |
| `CoinLots.SelectExplicit` | src/core/CoinLotTransactionValidator.cpp:340-380 | Named inputs are taken exactly when each is named once, spendable, and together they cover the debit. |
| `CoinLots.SelectInOrder` | src/core/CoinLotTransactionValidator.cpp:382-413 | Unnamed inputs are the shortest leading part of the sender's spendable lots that covers the debit, whenever those lots cover it. |
| `CoinLotRegistry.NamedDistinct` | src/core/CoinLotTransactionValidator.cpp:468-486 | Generated output ids never repeat within a transfer. |
| `CoinLotRegistry.BuildTransferPlan` | src/core/CoinLotTransactionValidator.cpp:111-276 | Every plan that is built is valid, and one is built whenever the transfer is well-formed, covered and its ids are free. |
| `CoinLotRegistry.Registry.AddLot` | src/core/CoinLotRegistry.cpp:23-37 | A lot enters exactly when it is valid and its id is new. |
| `CoinLotRegistry.Registry.MarkSpent` | src/core/CoinLotRegistry.cpp:199-220 | Only the owner's available lot is marked spent. |
| `CoinLotRegistry.Registry.LockForSecurity` | src/core/CoinLotRegistry.cpp:222-244 | Only the owner's available lot is locked, beyond its creation block. |
| `CoinLotRegistry.Registry.ApplyTransfer` | src/core/CoinLotTransactionValidator.cpp:278-329 | Spends all inputs and adds all outputs of a valid plan, or changes nothing. |
| `SupplyRuns.SupplyConserved` | include/core/State.hpp:77-122 | In every run of mints, rewards, transfers, locks and block advances the live lots sum to all accepted creation records. |
| `SupplyRuns.AuditableIff` | src/core/State.cpp:186-263 | A run passes the supply audit if and only if no accepted creation record overflowed the supply at its step; such a record is stored before the addition fails. |
| `SupplyRuns.AuditableStep` | src/core/State.cpp:186-263 | A step keeps an auditable state auditable if and only if it is not an accepted record whose amount no longer fits on top of the supply; an unauditable state stays so. |
| `SupplyRuns.NeverAuditableAgain` | src/core/State.cpp:418-460 | Once the audit fails it fails after every continuation. |
| `SupplyRuns.OverflowReachable` | src/core/State.cpp:186-223 | The failing runs: a record of the largest amount and any further record are both stored, and the live lots exceed the supply. |
| `SupplyRuns.LotsEndure` | src/core/CoinLotRegistry.cpp:199-257 | A lot never disappears, changes owner, amount or origin, or leaves the spent status. |
| `SupplyRuns.NoDoubleSpend` | include/core/CoinLotRegistry.hpp:62-76 | Two applied transfers of a run share no input and no transaction id. |
| `SupplyRuns.SumLiveLots` | src/core/State.cpp:446-457 | The sum of live lots, failing exactly when it leaves 64 bits. |
| `SupplyRuns.IsSupplyAuditable` | src/core/State.cpp:418-460 | The audit's loops over records, accounts and lots decide exactly the audit. |
| `SupplyLaws.CreationIff` | src/core/State.cpp:186-263 | A creation record is accepted if and only if it is complete and new and its lot id free; its recipient's balance then grows by its amount and no other changes. |
| `SupplyLaws.NoncesConsecutive` | src/core/State.cpp:274-358 | In every run a sender's transfers are applied in the order of their nonces, from one, without gaps. |
| `SupplyLaws.TransferAppliesIff` | src/core/State.cpp:274-358 | A transfer is applied if and only if its id is new, its nonce is its sender's next, and its plan is valid. |
| `SupplyLaws.AvailableCovers` | src/core/CoinLotTransactionValidator.cpp:382-413 | Without named inputs a transfer can be planned if and only if the sender's available lots together cover the amount and the fee and fit 64 bits. |
| `SupplyLaws.TamperingIsNoticed` | src/core/State.cpp:418-460 | The audit notices another supply, one record more, a lot with another live amount, and a bad record, lot or account. |
| `SupplyLaws.LocksIff` | src/core/CoinLotRegistry.cpp:222-244 | A lot is locked if and only if it is available and the lock ends after its creation, and is then spendable for no one. |
| `SupplyLaws.LockedUntilThen` | src/core/CoinLotRegistry.cpp:246-257 | Whatever happens, a locked lot stays as it is at every block before its lock ends, and at least until the next block. |
| `SupplyLaws.SpendableFromThen` | src/core/CoinLotRegistry.cpp:246-257 | The block advance that reaches that block makes the lot spendable for its owner again. |
| `ArchivalLedger.AnswersArePending` | src/archive/ArchivalScoreLedger.cpp:164-181 | The replay guard lets answers through to pending challenges only, so an accepted proof never overwrites an outcome. |
| `ArchivalLedger.LedgerRuns` | include/archive/ArchivalScoreLedger.hpp:64-130 | In every run issued is pending plus passed plus fraud plus missed, each fraud has exactly one evidence for the recorded proof, nothing else has any, and every closed epoch's totals still count its challenges. |
| `ArchivalLedger.OutcomesAreFinal` | include/archive/ArchivalScoreLedger.hpp:64-130 | A resolved challenge keeps its outcome and proof for the rest of every run. |
| `ArchivalLedger.OutcomeIsFirstVerdict` | src/archive/ArchivalScoreLedger.cpp:138-194 | In every run a challenge has the outcome of the first later step that answers or expires it: passed for a proof that holds, fraud for an invalid one, missed for an expiry past the deadline, and pending exactly while there is none. |
| `ArchivalLedger.NoInvalidNoFraud` | src/archive/ArchivalScoreLedger.cpp:164-181 | A challenge for which no invalid proof was submitted never becomes a fraud. |
| `ArchivalLedger.IssuesIff` | src/archive/ArchivalScoreLedger.cpp:121-136 | A challenge is issued if and only if it is well-formed and new and its height is in no closed epoch. |
| `ArchivalLedger.ClosesIff` | src/archive/ArchivalScoreLedger.cpp:206-271 | An epoch closes if and only if its range is new, meets no closed one and holds no pending challenge; its totals then count the range's challenges by outcome. |
| `EpochRollup.TallySlots` | src/archive/ArchivalScoreLedger.cpp:232-271 | Each slot's tally counts exactly its challenges, and the slots sum to the totals; a pending challenge stops it. |
| `EpochRollup.TallyProviders` | src/archive/ArchivalScoreLedger.cpp:273-284 | Each provider's issued and passed counts are the sums over its own slots, all sums stay the same, and a provider is marked exactly when one of its slots has a fraud. |
| `EpochRollup.ScoreLedger.IssueChallenge` | src/archive/ArchivalScoreLedger.cpp:121-136 | A challenge is issued exactly when it is well-formed, new and outside every closed epoch. |
| `EpochRollup.ScoreLedger.SubmitProof` | src/archive/ArchivalScoreLedger.cpp:138-181 | An answer to a pending challenge passes it when the proof holds and is a fraud with its evidence when it is invalid; the in-place submission is the modelled step. |
| `EpochRollup.ScoreLedger.ExpireAt` | src/archive/ArchivalScoreLedger.cpp:183-194 | Every pending challenge past its deadline becomes missed, and nothing else changes. |
| `EpochRollup.ScoreLedger.CloseEpoch` | src/archive/ArchivalScoreLedger.cpp:206-316 | An epoch is closed exactly when its range is free and resolved, with slot and provider tallies that sum to its totals. |
| `ArchivalRewards.ComputeProportional` | src/economics/ArchivalRewardSchedule.cpp:40-53 | The halving loop computes the share. |
| `ArchivalRewards.ExactIff` | src/economics/ArchivalRewardSchedule.cpp:37-53 | Shares of a whole are the rounded-down proportions, for all amounts and parts, exactly when the whole fits 64 bits. |
| `ArchivalRewards.SharesWithinAmount` | src/economics/ArchivalRewardSchedule.cpp:37-53 | Shares of parts that fit the whole never sum to more than the amount, whatever halving did to them. |
| `ArchivalRewards.FloorsAgree` | src/economics/ArchivalRewardSchedule.cpp:155-182 | The availability floor is the same as a ratio and in whole basis points. |
| `ArchivalRewards.ComputeWeights` | src/economics/ArchivalRewardSchedule.cpp:168-203 | Each provider's weight is the sum of its proven slots', and the total is their sum. |
| `ArchivalRewards.RewardsWithinBudget` | include/economics/ArchivalRewardSchedule.hpp:58-92 | Rewards never exceed the budget, nor the budget the emission cap. |
| `ArchivalRewards.NoProofNoReward` | src/economics/ArchivalRewardSchedule.cpp:169-182 | A provider earns nothing unless one of its slots was answered without fraud at or above the availability floor. |
| `ArchivalRewards.PayAll` | src/economics/ArchivalRewardSchedule.cpp:211-227 | Every provider with a positive share is listed with it, and the sum is what was distributed. |
| `ArchivalRewards.Settle` | src/economics/ArchivalRewardSchedule.cpp:103-232 | Nothing comes out exactly when the inputs are malformed or a value leaves 128 bits; otherwise distributed plus unminted is the budget, and the rewards are the specified ones. |
| `ArchivalRewards.CheckInputs` | src/economics/ArchivalRewardSchedule.cpp:117-167 | The passes over segments, slots and reliabilities accept exactly the well-formed inputs: known segments, one slot per provider and operator on each, one operator per provider, and no more slots than replicas. |
| `ArchivalTarget.AcceptedInputsIff` | src/economics/ArchivalRewardSchedule.cpp:117-167 | Inputs are accepted if and only if segments are distinct and not empty, slots are of listed segments and pass no more than was issued, a provider has one operator and neither has two slots of a segment, no segment has more slots than replicas, and no reliability exceeds the whole. |
| `ArchivalJoining.RewardKeptElsewhere` | include/economics/ArchivalRewardSchedule.hpp:67-69 | While the proven weight is within the target, any slots of other providers, inserted anywhere, that prove nothing on the provider's own segments leave its reward unchanged. |
| `ArchivalJoining.SharedRate` | src/economics/ArchivalRewardSchedule.cpp:201-216 | Beyond the target every reward is the share of its weight in the total proven weight. |
| `ArchivalJoining.UnratedIsFloor` | src/economics/ArchivalRewardSchedule.cpp:180-192 | A provider without a recorded reliability weighs as with the floor's. |
| `ArchivalJoining.NewOperatorMovesWeight` | include/economics/ArchivalRewardSchedule.hpp:67-69 | When a new operator proves a segment, another provider's weight is unchanged if and only if the segment's scarcity tier stays or its bytes, availability or reliability there are zero, and shrinks if and only if the tier pays less and they are not. |
| `ArchivalJoining.RewardUnderNewOperator` | include/economics/ArchivalRewardSchedule.hpp:67-69 | With valid tiers and within the target, a new operator on a provider's segment never raises its reward, and leaves it unchanged where the tier stays. |
| `ArchivalTarget.AffordableStaysWithinTarget` | include/economics/ArchivalRewardSchedule.hpp:67-69 | If no tier pays all its replicas more than the full target, no accepted epoch's weight passes the target. |
| `ArchivalTarget.ShippedAffordable` | src/config/HistoryParameters.cpp:21-131 | The tiers of the development and testnet parameters are valid and affordable, so the fixed rate always applies there. |
| `ArchivalTarget.FixedRateKept` | include/economics/ArchivalRewardSchedule.hpp:67-69 | With affordable tiers the promise holds in every accepted epoch against all who join on other segments. |
| `ArchivalTarget.JoiningCutsReward` | include/economics/ArchivalRewardSchedule.hpp:67-69 | The failing input: with the testnet parameters and within the target, a second operator on a provider's only segment cuts its reward by a third. |
| `Liveness.VerifiedSignerIndexes` | src/consensus/V1LivenessAccountability.cpp:49-79 | The walk over sorted signers accepts exactly ordered members with a quorum of weight, and finds their positions. |
| `Liveness.CountersMatchLog` | include/consensus/V1LivenessAccountability.hpp:54-59 | At every height of every run each counter is the number of the epoch's parent commits that list the validator, also across set changes. |
| `Liveness.BoundaryAssessments` | include/consensus/V1LivenessAccountability.hpp:54-59 | At every boundary the observed count is exactly the epoch length minus one and each signed count is the log's. |
| `Liveness.LimitsNeverRefuse` | src/consensus/V1LivenessAccountability.cpp:95-157 | In a run the limits on the counters never refuse a height: only the commit and the next set decide. |
| `LivenessLaws.CountedSetIsInForce` | src/consensus/V1LivenessAccountability.cpp:160-190 | In every run the counted set is the last one installed, and right after a boundary, and only then, the set before it is remembered. |
| `LivenessLaws.NextHeightIff` | src/consensus/V1LivenessAccountability.cpp:94-157 | In every run the next height is accepted if and only if it brings the commit of the height before, by a quorum of the set that was in force there, and a new set only at the end of an epoch. |
| `Liveness.Accountability.CountSigners` | src/consensus/V1LivenessAccountability.cpp:124-136 | Every listed validator's counter grows by one, once. |
| `Liveness.Accountability.Advance` | src/consensus/V1LivenessAccountability.cpp:94-190 | A height is accepted and applied exactly as specified; a refused one changes nothing. |

## Left out

- Signature mathematics, key storage and encryption: signature checks are parameters, and so is
  every hash function.
- Networking, RPC, the daemon, metrics and command line: only the steps they trigger are modelled.
- File formats: the recovery file is one slot that is replaced atomically; the recovery path is
  taken to be configured.
- Wall-clock timeouts: a round change can happen at any time. Nothing is claimed about progress.
- Proposer schedules and liveness fairness: the agreement proof holds for whatever is proposed, so
  who proposes is not part of it. Evidence records, finalized artifact sections and text
  serializations carry decisions that are made elsewhere.
- 64-bit wrap-around of heights, rounds, epochs and block counters, except where a row names it:
  these numbers are unbounded.
- `V1WeightedProposerSchedule`, `MerkleTree::buildRoot` on sorted sets and the replication report.
- Agreement.NoConflictingPrevote: the parent hash in votes is not used, because a block hash
  already determines it.
- ValidatorNode.VotingLoop.SaveRecoveryState: a loop without a recovery path reports success and
  writes nothing; such a node has no durable votes, and the runs here are of nodes with a path.
- ValidatorNode.VotingLoop.LoadFromRecoveryState: the slot is written by the same process, so a
  file of another version or chain, and the start-up refusals on the proposer, the round's start
  time and the validator set, are not modelled.
- ConsensusRuns.ChainsAgree: every node starts from genesis; nodes that start from a snapshot, whose
  boundary block carries a hash that is not recomputed, are not part of the runs.
- V1Merkle.V1RootBinding: tree kinds are any texts without a zero byte, a superset of the fixed
  list of kinds.
- SparseTree.SparseMerkleTree.Update: the node tree is a value held in a field; ownership of single
  nodes is not modelled. The number of key digits is a parameter, 64 in the node.
- SparseProofs.AcceptedLeafIsStored: asks for 64-character hashes, since a node input joins its two
  parts without a length.
- Finality.FinalityNeverLost: nothing in the repository applies the fork choice's decision. An
  adopted chain is taken over with the local registry kept, and with the candidate's highest
  record registered or not.
- Finality.FinalizeBlock: block records, their limits and the two-megabyte bound are one flag of a
  block.
- ArchiveSegment.ReadPiece: the index is one that was built; the branch for a piece past the segment's
  end can then never fire and is not repeated.
- ArchiveSegment.Build: the commitment's chain id and segment number are not modelled; its geometry is.
- Assignment.ComputePlan: a slot holds the provider's record instead of its id.
- GovernanceExecutor.Executor.ExecuteQueuedTreasuryProposal: an execution that fails halfway changes
  nothing, because the transaction executor discards the account view it worked on
  (src/node/ProtocolTransactionDomainExecutor.cpp:330-366). Parameter changes are modelled only as
  proposals that apply at a height or never. Defense mode is off and the treasury unlocked, as in
  the only caller.
- GovernanceExecutor.Executor.AdvanceToHeight: which proposals a failed advance reached is not stated,
  since any iteration order is allowed; in `TreasuryRuns` a failed advance changes nothing.
- ValidatorSetHistory.SetHistory.RecordSet: sets are compared by their serialized text; the shortcut
  for passing a stored set by reference is the same comparison.
- CoinLotRegistry.Registry.ApplyTransfer: the registry's map order is a parameter, and the proof
  holds for every order.
- SupplyRuns.SupplyConserved: slashing and `consumeLotAndCreateOutputs` are never called by the ledger
  state and are not steps. Account records are their next nonce; their block
  stamps are not modelled.
- EpochRollup.ScoreLedger.SubmitProof: the verdict on a proof is a parameter (refused, holds, or
  invalid); the replay guard in front of it is modelled.
- EpochRollup.ScoreLedger.CloseEpoch: closing an epoch again with the same range returns the stored
  summary in the node and nothing here; provider streaks, removals and reliability are not modelled.
- ArchivalRewards.Settle: which texts are identifiers is a parameter; the demand figure and the
  evidence digests are not modelled.
- Liveness.Accountability.Advance: the exact state bytes committed per height are not modelled.
- History parameters other than the ones the modelled code reads.
