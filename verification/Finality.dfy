/** Finalized blocks: the registry, the finalizer that appends and registers, and the fork
    choice that looks only at the highest checkpoint, yet never loses a finalized block. */
module Finality {
  import opened Wrappers
  import opened Quorum
  import opened Certificates
  import opened Chain

  datatype Record = Record(
    blockIndex: nat, blockHash: string, previousHash: string, round: nat, finalizedAt: int, certificate: Certificate)

  type Records = map<nat, Record>

  predicate StructurallyValidRecord(r: Record) {
    && r.blockIndex > 0 && r.round > 0 && r.finalizedAt > 0
    && SafeScalar(r.blockHash) && SafeScalar(r.previousHash)
    && StructurallyValid(r.certificate)
    && r.certificate.height == r.blockIndex
    && r.certificate.hash == r.blockHash
    && r.certificate.previousHash == r.previousHash
    && r.certificate.round == r.round
  }

  predicate ValidRecords(records: Records) {
    forall k :: k in records ==> k > 0 && records[k].blockIndex == k && StructurallyValidRecord(records[k])
  }

  // --- Registering ------------------------------------------------------------------------------

  datatype RegistryStatus = REGISTERED | DUPLICATE | CONFLICTING_FINALIZATION | INVALID_RECORD | INVALID_REGISTRY

  predicate CanRegister(records: Records, r: Record) {
    StructurallyValidRecord(r) && (r.blockIndex in records ==> records[r.blockIndex].blockHash == r.blockHash)
  }

  function RegisterStatus(records: Records, r: Record): RegistryStatus {
    if !StructurallyValidRecord(r) then INVALID_RECORD
    else if r.blockIndex in records then
      var existing := records[r.blockIndex];
      if !StructurallyValidRecord(existing) then INVALID_REGISTRY
      else if existing.blockHash == r.blockHash then DUPLICATE
      else CONFLICTING_FINALIZATION
    else if ValidRecords(records[r.blockIndex := r]) then REGISTERED
    else INVALID_REGISTRY
  }

  function Registered(records: Records, r: Record): Records {
    if RegisterStatus(records, r) == REGISTERED then records[r.blockIndex := r] else records
  }

  // --- Finalizing -------------------------------------------------------------------------------

  datatype FinalizationStatus =
    FINALIZED | DUPLICATE_FINALIZATION | INVALID_BLOCKCHAIN | INVALID_BLOCK | INVALID_CERTIFICATE
    | CERTIFICATE_BLOCK_MISMATCH | INVALID_FINALIZATION_REGISTRY | ALREADY_FINALIZED_CONFLICT
    | APPEND_REJECTED | REGISTRATION_FAILED

  function RecordOf(b: Block, c: Certificate, finalizedAt: int): Record {
    Record(b.index, b.hash, b.previousHash, c.round, finalizedAt, c)
  }

  predicate MatchesBlock(b: Block, c: Certificate) {
    c.height == b.index && c.hash == b.hash && c.previousHash == b.previousHash
  }

  predicate VotesNotEarlier(c: Certificate, b: Block) {
    forall i: nat :: i < |c.votes| ==> c.votes[i].createdAt >= b.timestamp
  }

  /** What stops a block from being appended, if anything. `verified` says whether the
      certificate passed its check against the validator set. */
  function Refusal(h: string -> Digest, chain: seq<Block>, records: Records, b: Block, c: Certificate,
    verified: bool, finalizedAt: int): Option<FinalizationStatus>
  {
    if !ValidChain(h, chain) then Some(INVALID_BLOCKCHAIN)
    else if !ValidRecords(records) then Some(INVALID_FINALIZATION_REGISTRY)
    else if !ValidBlock(h, b) || IsGenesis(b) then Some(INVALID_BLOCK)
    else if finalizedAt <= 0 then Some(INVALID_BLOCK)
    else if !CanAppend(h, chain, b) then Some(APPEND_REJECTED)
    else if !verified then Some(INVALID_CERTIFICATE)
    else if !MatchesBlock(b, c) then Some(CERTIFICATE_BLOCK_MISMATCH)
    else if !VotesNotEarlier(c, b) then Some(INVALID_CERTIFICATE)
    else if !StructurallyValidRecord(RecordOf(b, c, finalizedAt)) then Some(INVALID_CERTIFICATE)
    else if !CanRegister(records, RecordOf(b, c, finalizedAt)) then Some(ALREADY_FINALIZED_CONFLICT)
    else None
  }

  // --- Choosing between chains --------------------------------------------------------------------

  predicate IsHighest(records: Records, k: nat) {
    k in records && forall j :: j in records ==> j <= k
  }

  lemma {:induction false} HighestExists(records: Records)
    requires records != map[]
    ensures exists k :: IsHighest(records, k)
  {
    var j :| j in records;
    var rest := map k | k in records && k != j :: records[k];
    if rest == map[] {
      assert forall k :: k in records ==> k == j by {
        forall k | k in records ensures k == j {
          assert k != j ==> k in rest;
        }
      }
      assert IsHighest(records, j);
    } else {
      assert rest.Keys == records.Keys - {j};
      HighestExists(rest);
      var m :| IsHighest(rest, m);
      assert IsHighest(records, if m < j then j else m) by {
        forall k | k in records ensures k <= if m < j then j else m {
          assert k != j ==> k in rest;
        }
      }
    }
  }

  /** The record with the greatest height. */
  ghost function Highest(records: Records): (r: Option<Record>)
    ensures r.None? <==> records == map[]
    ensures r.Some? ==> exists k :: IsHighest(records, k) && r.value == records[k]
  {
    if records == map[] then None
    else
      HighestExists(records);
      var k :| IsHighest(records, k);
      Some(records[k])
  }

  predicate CheckpointMatches(chain: seq<Block>, r: Record) {
    && StructurallyValidRecord(r)
    && r.blockIndex < |chain|
    && chain[r.blockIndex].hash == r.blockHash
    && chain[r.blockIndex].previousHash == r.previousHash
  }

  /** The summary of a chain is usable: it reaches exactly its length, and its highest
      checkpoint lies in it. */
  ghost predicate Summarizable(chain: seq<Block>, records: Records) {
    && chain != []
    && chain[|chain| - 1].index + 1 == |chain|
    && chain[|chain| - 1].hash != ""
    && (Highest(records).Some? ==>
          CheckpointMatches(chain, Highest(records).value)
          && Highest(records).value.blockIndex <= chain[|chain| - 1].index)
  }

  datatype RejectReason =
    INVALID_LOCAL_CHAIN | INVALID_CANDIDATE_CHAIN | INVALID_LOCAL_REGISTRY | INVALID_CANDIDATE_REGISTRY
    | CONFLICTS_WITH_LOCAL_FINALITY | BEHIND_LOCAL_FINALITY | FINALITY_CONFLICT

  datatype Choice = KEEP_LOCAL | ADOPT_CANDIDATE | EQUAL_CHAINS | REJECT_CANDIDATE(reason: RejectReason)

  ghost function ChooseBestChain(
    h: string -> Digest, local: seq<Block>, localRecords: Records, candidate: seq<Block>, candidateRecords: Records): Choice
  {
    if !ValidChain(h, local) then REJECT_CANDIDATE(INVALID_LOCAL_CHAIN)
    else if !ValidRecords(localRecords) then REJECT_CANDIDATE(INVALID_LOCAL_REGISTRY)
    else if !ValidChain(h, candidate) then REJECT_CANDIDATE(INVALID_CANDIDATE_CHAIN)
    else if !ValidRecords(candidateRecords) then REJECT_CANDIDATE(INVALID_CANDIDATE_REGISTRY)
    else if !Summarizable(local, localRecords) then REJECT_CANDIDATE(INVALID_LOCAL_CHAIN)
    else if !Summarizable(candidate, candidateRecords) then REJECT_CANDIDATE(INVALID_CANDIDATE_CHAIN)
    else
      var mine, theirs := Highest(localRecords), Highest(candidateRecords);
      if mine.Some? && !CheckpointMatches(candidate, mine.value) then REJECT_CANDIDATE(CONFLICTS_WITH_LOCAL_FINALITY)
      else if mine.Some? && theirs.Some? && theirs.value.blockIndex < mine.value.blockIndex then
        REJECT_CANDIDATE(BEHIND_LOCAL_FINALITY)
      else if mine.Some? && theirs.Some? && theirs.value.blockIndex == mine.value.blockIndex
        && theirs.value.blockHash != mine.value.blockHash then
        REJECT_CANDIDATE(FINALITY_CONFLICT)
      else if theirs.Some? && (mine.None? || theirs.value.blockIndex > mine.value.blockIndex) then ADOPT_CANDIDATE
      else if |candidate| > |local| then ADOPT_CANDIDATE
      else if |candidate| == |local| && candidate[|candidate| - 1].hash == local[|local| - 1].hash then EQUAL_CHAINS
      else KEEP_LOCAL
  }

  // --- Runs -----------------------------------------------------------------------------------------

  datatype State = State(chain: seq<Block>, records: Records)

  /** Finalizing a block; or meeting a candidate chain and, when the choice falls on it, taking
      it over, with its highest finalized record registered too if `take` says so. */
  datatype Step =
    | Finalize(block: Block, certificate: Certificate, verified: bool, finalizedAt: int)
    | Meet(candidate: seq<Block>, candidateRecords: Records, take: bool)

  ghost function Apply(h: string -> Digest, s: State, step: Step): State {
    match step
    case Finalize(b, c, verified, at) =>
      if Refusal(h, s.chain, s.records, b, c, verified, at).Some? then s
      else State(s.chain + [b], Registered(s.records, RecordOf(b, c, at)))
    case Meet(candidate, candidateRecords, take) =>
      if ChooseBestChain(h, s.chain, s.records, candidate, candidateRecords) != ADOPT_CANDIDATE then s
      else
        var theirs := Highest(candidateRecords);
        State(candidate, if take && theirs.Some? then Registered(s.records, theirs.value) else s.records)
  }

  /** The record's block is in the chain, at its height. */
  ghost predicate InChain(chain: seq<Block>, r: Record) {
    && chain != []
    && chain[0].index <= r.blockIndex < chain[0].index + |chain|
    && chain[r.blockIndex - chain[0].index].hash == r.blockHash
    && chain[r.blockIndex - chain[0].index].previousHash == r.previousHash
  }

  ghost predicate Inv(h: string -> Digest, s: State) {
    && ValidChain(h, s.chain)
    && ValidRecords(s.records)
    && forall k :: k in s.records ==> InChain(s.chain, s.records[k])
  }

  lemma {:induction false} FinalizeKeeps(h: string -> Digest, s: State, b: Block, c: Certificate, verified: bool, at: int)
    requires Inv(h, s) && Refusal(h, s.chain, s.records, b, c, verified, at).None?
    ensures RegisterStatus(s.records, RecordOf(b, c, at)) == REGISTERED
    ensures Inv(h, Apply(h, s, Finalize(b, c, verified, at)))
  {
    var r := RecordOf(b, c, at);
    AppendKeepsValid(h, s.chain, b);
    IndexAt(h, s.chain + [b], |s.chain|);
    assert r.blockIndex !in s.records by {
      forall k | k in s.records ensures k != r.blockIndex {
        assert InChain(s.chain, s.records[k]);
      }
    }
    var records := s.records[r.blockIndex := r];
    forall k | k in records ensures InChain(s.chain + [b], records[k]) {
      if k != r.blockIndex {
        assert InChain(s.chain, s.records[k]);
      }
    }
  }

  /** What an adoption has checked. */
  lemma {:induction false} AdoptionChecks(
    h: string -> Digest, local: seq<Block>, records: Records, candidate: seq<Block>, candidateRecords: Records)
    requires ChooseBestChain(h, local, records, candidate, candidateRecords) == ADOPT_CANDIDATE
    ensures ValidChain(h, local) && ValidChain(h, candidate) && local[0].index == 0 && candidate[0].index == 0
    ensures Highest(records).Some? ==>
      CheckpointMatches(local, Highest(records).value) && CheckpointMatches(candidate, Highest(records).value)
    ensures Highest(candidateRecords).Some? ==> CheckpointMatches(candidate, Highest(candidateRecords).value)
  {
    IndexAt(h, local, |local| - 1);
    IndexAt(h, candidate, |candidate| - 1);
  }

  /** Every record of the local registry is in an adopted chain, by linkage from the highest. */
  lemma {:induction false} LinkageKeepsRecord(
    h: string -> Digest, local: seq<Block>, candidate: seq<Block>, top: nat, r: Record)
    requires ValidChain(h, local) && ValidChain(h, candidate) && local[0].index == 0 && candidate[0].index == 0
    requires top < |local| && top < |candidate| && SameBlock(local[top], candidate[top])
    requires InChain(local, r) && r.blockIndex <= top
    ensures InChain(candidate, r) || HeadersCollide(h, local, candidate)
  {
    SharedHashSharesHistory(h, local, candidate, top, r.blockIndex);
  }

  lemma {:induction false} AdoptedChainKeepsRecord(
    h: string -> Digest, s: State, candidate: seq<Block>, candidateRecords: Records, k: nat)
    requires Inv(h, s) && k in s.records
    requires ChooseBestChain(h, s.chain, s.records, candidate, candidateRecords) == ADOPT_CANDIDATE
    ensures InChain(candidate, s.records[k]) || HeadersCollide(h, s.chain, candidate)
  {
    AdoptionChecks(h, s.chain, s.records, candidate, candidateRecords);
    assert InChain(s.chain, s.records[k]);
    LinkageKeepsRecord(h, s.chain, candidate, Highest(s.records).value.blockIndex, s.records[k]);
  }

  lemma {:induction false} RegisteredGrows(records: Records, r: Record)
    requires ValidRecords(records)
    ensures ValidRecords(Registered(records, r))
    ensures forall k :: k in records ==> k in Registered(records, r) && Registered(records, r)[k] == records[k]
    ensures forall k :: k in Registered(records, r) && k !in records ==> k == r.blockIndex && Registered(records, r)[k] == r
  {
  }

  lemma {:induction false} MeetKeeps(
    h: string -> Digest, s: State, candidate: seq<Block>, candidateRecords: Records, take: bool)
    requires Inv(h, s)
    requires !HeadersCollide(h, s.chain, candidate)
    ensures Inv(h, Apply(h, s, Meet(candidate, candidateRecords, take)))
  {
    if ChooseBestChain(h, s.chain, s.records, candidate, candidateRecords) == ADOPT_CANDIDATE {
      AdoptionChecks(h, s.chain, s.records, candidate, candidateRecords);
      var theirs := Highest(candidateRecords);
      var records := if take && theirs.Some? then Registered(s.records, theirs.value) else s.records;
      if take && theirs.Some? {
        RegisteredGrows(s.records, theirs.value);
      }
      forall k | k in records ensures InChain(candidate, records[k]) {
        if k in s.records {
          AdoptedChainKeepsRecord(h, s, candidate, candidateRecords, k);
        }
      }
    }
  }

  ghost function Run(h: string -> Digest, start: State, steps: seq<Step>): State {
    if steps == [] then start
    else Apply(h, Run(h, start, steps[..|steps| - 1]), steps[|steps| - 1])
  }

  /** No chain met on the way has a header that collides with one of the then local chain. */
  ghost predicate NoCollision(h: string -> Digest, start: State, steps: seq<Step>) {
    forall i: nat :: i < |steps| && steps[i].Meet? ==>
      !HeadersCollide(h, Run(h, start, steps[..i]).chain, steps[i].candidate)
  }

  lemma {:induction false} RunKeeps(h: string -> Digest, start: State, steps: seq<Step>)
    requires Inv(h, start) && NoCollision(h, start, steps)
    ensures Inv(h, Run(h, start, steps))
  {
    if steps != [] {
      var n := |steps| - 1;
      var front := steps[..n];
      assert forall i: nat :: i < n ==> front[i] == steps[i] && front[..i] == steps[..i];
      RunKeeps(h, start, front);
      var s := Run(h, start, front);
      match steps[n]
      case Finalize(b, c, verified, at) =>
        if Refusal(h, s.chain, s.records, b, c, verified, at).None? {
          FinalizeKeeps(h, s, b, c, verified, at);
        }
      case Meet(candidate, candidateRecords, take) =>
        MeetKeeps(h, s, candidate, candidateRecords, take);
    }
  }

  lemma {:induction false} ApplyGrows(h: string -> Digest, s: State, step: Step, k: nat)
    requires k in s.records
    ensures k in Apply(h, s, step).records && Apply(h, s, step).records[k] == s.records[k]
  {
  }

  /** Records are only ever added: a finalized height keeps its record, whatever happens. */
  lemma {:induction false} RecordsOnlyGrow(h: string -> Digest, start: State, steps: seq<Step>, i: nat, k: nat)
    requires i <= |steps| && k in Run(h, start, steps[..i]).records
    ensures k in Run(h, start, steps).records
    ensures Run(h, start, steps).records[k] == Run(h, start, steps[..i]).records[k]
    decreases |steps|
  {
    if i < |steps| {
      var front := steps[..|steps| - 1];
      assert front[..i] == steps[..i];
      RecordsOnlyGrow(h, start, front, i, k);
      ApplyGrows(h, Run(h, start, front), steps[|steps| - 1], k);
    } else {
      assert steps[..i] == steps;
    }
  }

  /** Finality is never lost. In every run, a block finalized at any point is, at every later
      point, in the local chain at its height, with the same hash and parent; the only way out
      is a collision of two block headers. */
  lemma {:induction false} FinalityNeverLost(h: string -> Digest, start: State, steps: seq<Step>, i: nat, k: nat)
    requires Inv(h, start) && i <= |steps| && k in Run(h, start, steps[..i]).records
    ensures InChain(Run(h, start, steps).chain, Run(h, start, steps[..i]).records[k]) || !NoCollision(h, start, steps)
  {
    if NoCollision(h, start, steps) {
      RunKeeps(h, start, steps);
      RecordsOnlyGrow(h, start, steps, i, k);
    }
  }

  // --- Progress -----------------------------------------------------------------------------------------

  ghost function HighestHeight(records: Records): nat {
    if Highest(records).Some? then Highest(records).value.blockIndex else 0
  }

  lemma {:induction false} HighestIs(records: Records, k: nat)
    requires ValidRecords(records) && IsHighest(records, k)
    ensures Highest(records) == Some(records[k]) && HighestHeight(records) == k
  {
  }

  /** Registering a record above all others makes it the highest. */
  lemma {:induction false} HigherBecomesHighest(records: Records, r: Record)
    requires ValidRecords(records) && StructurallyValidRecord(r) && HighestHeight(records) < r.blockIndex
    ensures HighestHeight(Registered(records, r)) == r.blockIndex
  {
    forall k | k in records ensures k < r.blockIndex {
      HighestExists(records);
    }
    assert Registered(records, r) == records[r.blockIndex := r];
    assert IsHighest(Registered(records, r), r.blockIndex);
    RegisteredGrows(records, r);
    HighestIs(Registered(records, r), r.blockIndex);
  }

  /** Taking over the candidate's highest record with its chain, every adoption raises the
      finalized height, or keeps it and lengthens the chain: adoptions cannot go round in
      circles. */
  lemma {:induction false} AdoptionMakesProgress(h: string -> Digest, s: State, candidate: seq<Block>, candidateRecords: Records)
    requires ChooseBestChain(h, s.chain, s.records, candidate, candidateRecords) == ADOPT_CANDIDATE
    ensures
      var t := Apply(h, s, Meet(candidate, candidateRecords, true));
      || HighestHeight(s.records) < HighestHeight(t.records)
      || (HighestHeight(s.records) == HighestHeight(t.records) && |s.chain| < |t.chain|)
  {
    var mine, theirs := Highest(s.records), Highest(candidateRecords);
    if theirs.Some? {
      if HighestHeight(s.records) < theirs.value.blockIndex {
        HigherBecomesHighest(s.records, theirs.value);
      } else {
        assert theirs.value.blockIndex in s.records;
        assert Registered(s.records, theirs.value) == s.records;
      }
    }
  }

  // --- The objects ------------------------------------------------------------------------------------

  class BlockFinalizationRegistry {
    var records: Records

    constructor ()
      ensures records == map[]
    {
      records := map[];
    }

    /** Inserts, audits, and takes the insertion back when the audit fails. */
    method RegisterFinalizedBlock(r: Record) returns (status: RegistryStatus)
      modifies this
      ensures status == RegisterStatus(old(records), r)
      ensures records == Registered(old(records), r)
    {
      if !StructurallyValidRecord(r) {
        return INVALID_RECORD;
      }
      if r.blockIndex in records {
        if !StructurallyValidRecord(records[r.blockIndex]) {
          return INVALID_REGISTRY;
        }
        return if records[r.blockIndex].blockHash == r.blockHash then DUPLICATE else CONFLICTING_FINALIZATION;
      }
      records := records[r.blockIndex := r];
      if !ValidRecords(records) {
        records := records - {r.blockIndex};
        assert records == old(records);
        return INVALID_REGISTRY;
      }
      return REGISTERED;
    }
  }

  class Blockchain {
    var blocks: seq<Block>

    constructor (genesis: Block)
      ensures blocks == [genesis]
    {
      blocks := [genesis];
    }
  }

  /** Appends and registers a block whose certificate was checked. */
  method FinalizeBlock(h: string -> Digest, chain: Blockchain, b: Block, c: Certificate, verified: bool,
    registry: BlockFinalizationRegistry, finalizedAt: int) returns (status: FinalizationStatus)
    modifies chain, registry
    ensures
      var s := State(old(chain.blocks), old(registry.records));
      State(chain.blocks, registry.records) == Apply(h, s, Finalize(b, c, verified, finalizedAt))
    ensures
      var refusal := Refusal(h, old(chain.blocks), old(registry.records), b, c, verified, finalizedAt);
      && (refusal.Some? ==> status == refusal.value)
      && (refusal.None? && Inv(h, State(old(chain.blocks), old(registry.records))) ==> status == FINALIZED)
  {
    if !ValidChain(h, chain.blocks) {
      return INVALID_BLOCKCHAIN;
    }
    if !ValidRecords(registry.records) {
      return INVALID_FINALIZATION_REGISTRY;
    }
    if !ValidBlock(h, b) || IsGenesis(b) || finalizedAt <= 0 {
      return INVALID_BLOCK;
    }
    if !CanAppend(h, chain.blocks, b) {
      return APPEND_REJECTED;
    }
    if !verified {
      return INVALID_CERTIFICATE;
    }
    if !MatchesBlock(b, c) {
      return CERTIFICATE_BLOCK_MISMATCH;
    }
    var r := RecordOf(b, c, finalizedAt);
    if !VotesNotEarlier(c, b) || !StructurallyValidRecord(r) {
      return INVALID_CERTIFICATE;
    }
    if !CanRegister(registry.records, r) {
      return ALREADY_FINALIZED_CONFLICT;
    }
    ghost var s := State(chain.blocks, registry.records);
    if Inv(h, s) {
      FinalizeKeeps(h, s, b, c, verified, finalizedAt);
    }
    chain.blocks := chain.blocks + [b];
    var registration := registry.RegisterFinalizedBlock(r);
    status := match registration
      case DUPLICATE => DUPLICATE_FINALIZATION
      case REGISTERED => FINALIZED
      case _ => REGISTRATION_FAILED;
  }
}
