/** Exactly when the fork choice adopts, keeps or calls equal, and exactly which blocks are
    finalized. Safety alone would also hold of a node that never adopts and never finalizes. */
module ForkChoice {
  import opened Wrappers
  import opened Quorum
  import opened Certificates
  import opened Chain
  import opened Finality

  /** The chain has the block of the registry's highest record, at its height. */
  ghost predicate HoldsTop(chain: seq<Block>, records: Records) {
    forall k: nat :: IsHighest(records, k) ==>
      k < |chain| && chain[k].hash == records[k].blockHash && chain[k].previousHash == records[k].previousHash
  }

  /** A chain from height zero with a registry whose highest record is in it. */
  ghost predicate Usable(h: string -> Digest, chain: seq<Block>, records: Records) {
    && ValidChain(h, chain) && ValidRecords(records)
    && chain[0].index == 0 && chain[|chain| - 1].hash != ""
    && HoldsTop(chain, records)
  }

  /** No finality conflict: the candidate has the local checkpoint, its own checkpoint is not
      lower, and two checkpoints of one height are one block. */
  ghost predicate Compatible(candidate: seq<Block>, mine: Records, theirs: Records) {
    && HoldsTop(candidate, mine)
    && forall j: nat, k: nat :: IsHighest(mine, j) && IsHighest(theirs, k) ==>
         j <= k && (j == k ==> mine[j].blockHash == theirs[k].blockHash)
  }

  /** A higher checkpoint, or a longer chain. */
  ghost predicate Ahead(local: seq<Block>, mine: Records, candidate: seq<Block>, theirs: Records) {
    HighestHeight(mine) < HighestHeight(theirs) || |local| < |candidate|
  }

  lemma HighestUnique(records: Records, k: nat)
    requires ValidRecords(records) && IsHighest(records, k)
    ensures Highest(records) == Some(records[k]) && HighestHeight(records) == k == records[k].blockIndex > 0
  {
    HighestIs(records, k);
  }

  lemma TopOf(records: Records)
    requires ValidRecords(records)
    ensures records == map[] ==> Highest(records) == None && HighestHeight(records) == 0 && forall k: nat :: !IsHighest(records, k)
    ensures records != map[] ==>
      && IsHighest(records, HighestHeight(records)) && Highest(records) == Some(records[HighestHeight(records)])
      && forall k: nat :: IsHighest(records, k) ==> k == HighestHeight(records)
  {
    if records != map[] {
      HighestExists(records);
      var k :| IsHighest(records, k);
      HighestUnique(records, k);
    }
  }

  lemma UsableIff(h: string -> Digest, chain: seq<Block>, records: Records)
    requires ValidChain(h, chain) && ValidRecords(records)
    ensures Summarizable(chain, records) <==> Usable(h, chain, records)
  {
    TopOf(records);
    IndexAt(h, chain, |chain| - 1);
  }

  /** The choice, outright. */
  lemma ChoiceIff(h: string -> Digest, local: seq<Block>, mine: Records, candidate: seq<Block>, theirs: Records, c: Choice)
    requires c == ChooseBestChain(h, local, mine, candidate, theirs)
    ensures c == ADOPT_CANDIDATE <==>
      && Usable(h, local, mine) && Usable(h, candidate, theirs) && Compatible(candidate, mine, theirs)
      && Ahead(local, mine, candidate, theirs)
    ensures c == EQUAL_CHAINS <==>
      && Usable(h, local, mine) && Usable(h, candidate, theirs) && Compatible(candidate, mine, theirs)
      && !Ahead(local, mine, candidate, theirs)
      && |candidate| == |local| && candidate[|candidate| - 1].hash == local[|local| - 1].hash
    ensures c.REJECT_CANDIDATE? <==>
      !(Usable(h, local, mine) && Usable(h, candidate, theirs) && Compatible(candidate, mine, theirs))
  {
    if ValidChain(h, local) && ValidRecords(mine) && ValidChain(h, candidate) && ValidRecords(theirs) {
      UsableIff(h, local, mine);
      UsableIff(h, candidate, theirs);
      TopOf(mine);
      TopOf(theirs);
    }
  }

  /** A node that meets a valid extension of its own chain, with its own records, ends with that
      extension and keeps its records. */
  lemma ExtensionIsAdopted(h: string -> Digest, s: State, more: seq<Block>, take: bool)
    requires Inv(h, s) && s.chain[0].index == 0 && more != [] && ValidChain(h, s.chain + more)
    ensures Apply(h, s, Meet(s.chain + more, s.records, take)) == State(s.chain + more, s.records)
  {
    var longer, theirs := s.chain + more, Highest(s.records);
    TopOf(s.records);
    TopInChain(h, s);
    ExtensionUsable(h, s.chain, s.records, longer);
    ChoiceIff(h, s.chain, s.records, longer, s.records, ChooseBestChain(h, s.chain, s.records, longer, s.records));
    if theirs.Some? {
      KnownIsNotRegistered(s.records, theirs.value);
    }
  }

  lemma KnownIsNotRegistered(records: Records, r: Record)
    requires r.blockIndex in records
    ensures Registered(records, r) == records
  {
  }

  lemma TopInChain(h: string -> Digest, s: State)
    requires Inv(h, s) && s.chain[0].index == 0
    ensures HoldsTop(s.chain, s.records)
  {
    forall k: nat | IsHighest(s.records, k) ensures k < |s.chain| && s.chain[k].hash == s.records[k].blockHash
      && s.chain[k].previousHash == s.records[k].previousHash
    {
      assert InChain(s.chain, s.records[k]);
    }
  }

  lemma ExtensionUsable(h: string -> Digest, chain: seq<Block>, records: Records, longer: seq<Block>)
    requires ValidChain(h, chain) && ValidChain(h, longer) && ValidRecords(records) && HoldsTop(chain, records)
    requires chain < longer && chain[0].index == 0
    ensures Usable(h, chain, records) && Usable(h, longer, records) && Compatible(longer, records, records)
  {
    TopOf(records);
    assert ValidNext(h, longer[|chain| - 1], longer[|chain|]);
    assert ValidNext(h, longer[|longer| - 2], longer[|longer| - 1]);
  }

  /** A block is finalized exactly when it follows the tip and comes with a certificate that was
      verified, is for this very block and holds no vote older than it; it is then the new tip,
      with its record. Otherwise nothing changes. */
  lemma FinalizedIff(h: string -> Digest, s: State, b: Block, c: Certificate, verified: bool, at: int, t: State)
    requires Inv(h, s) && t == Apply(h, s, Finalize(b, c, verified, at))
    ensures
      if (&& ValidNext(h, s.chain[|s.chain| - 1], b) && verified && StructurallyValid(c) && at > 0
          && c.height == b.index && c.hash == b.hash && c.previousHash == b.previousHash
          && forall i: nat :: i < |c.votes| ==> b.timestamp <= c.votes[i].createdAt)
      then t == State(s.chain + [b], s.records[b.index := Record(b.index, b.hash, b.previousHash, c.round, at, c)])
      else t == s
  {
    if Refusal(h, s.chain, s.records, b, c, verified, at).None? {
      FinalizeKeeps(h, s, b, c, verified, at);
    } else if ValidNext(h, s.chain[|s.chain| - 1], b) {
      NewHeight(h, s, b);
    }
  }

  /** A valid record enters a valid registry exactly when its height has none; a height keeps its
      first block, and says whether another record is for that block. */
  lemma RegistersIff(records: Records, r: Record, good: bool)
    requires ValidRecords(records)
    requires good <==>
      && r.blockIndex > 0 && r.round > 0 && r.finalizedAt > 0 && StructurallyValid(r.certificate)
      && r.blockIndex == r.certificate.height && r.blockHash == r.certificate.hash
      && r.previousHash == r.certificate.previousHash && r.round == r.certificate.round
    ensures RegisterStatus(records, r) ==
      if !good then INVALID_RECORD
      else if r.blockIndex !in records then REGISTERED
      else if records[r.blockIndex].blockHash == r.blockHash then DUPLICATE
      else CONFLICTING_FINALIZATION
    ensures Registered(records, r) == if good && r.blockIndex !in records then records[r.blockIndex := r] else records
  {
  }

  /** What follows the tip has no record yet. */
  lemma NewHeight(h: string -> Digest, s: State, b: Block)
    requires Inv(h, s) && ValidNext(h, s.chain[|s.chain| - 1], b)
    ensures b.index !in s.records && b.index > 0
  {
    IndexAt(h, s.chain, |s.chain| - 1);
    forall k | k in s.records ensures k != b.index {
      assert InChain(s.chain, s.records[k]);
    }
  }
}
