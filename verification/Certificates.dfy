/** Validator votes and the quorum certificates assembled from them. */
module Certificates {
  import opened Quorum

  datatype Decision = UNKNOWN | REJECT | PREVOTE | PRECOMMIT

  /** A signed vote. `signature` stands for the key and signature material, which only the
      signature check looks at. */
  datatype Vote = Vote(
    validator: string, height: nat, hash: string, previousHash: string, round: nat,
    decision: Decision, createdAt: int, signature: string)
  {
    predicate MatchesBlock(h: nat, b: string, r: nat) {
      height == h && hash == b && round == r
    }
  }

  /** The set a certificate is checked against: weights of the validators eligible for
      consensus, the identities that are registered and active, and the set root. */
  datatype Registry = Registry(weights: Weights, active: set<string>, root: string) {
    ghost predicate Valid() {
      Total(weights) <= UINT64_MAX
    }

    function WeightFor(v: string): nat {
      if v in weights then weights[v] else 0
    }
  }

  datatype Certificate = Certificate(
    height: nat, hash: string, previousHash: string, round: nat,
    required: nat, total: nat, signed: nat, setRoot: string, votes: seq<Vote>)

  predicate SafeScalar(s: string) {
    s != "" && forall c :: c in s ==> c !in ";{}[]\n\r\t"
  }

  predicate DistinctVoters(votes: seq<Vote>) {
    forall i, j :: 0 <= i < j < |votes| ==> votes[i].validator != votes[j].validator
  }

  function Voters(votes: seq<Vote>): set<string> {
    set x | x in votes :: x.validator
  }

  /** Sum of the voters' weights in vote order, one vote at a time. */
  function SignedWeight(reg: Registry, votes: seq<Vote>): nat {
    if votes == [] then 0
    else SignedWeight(reg, votes[..|votes| - 1]) + reg.WeightFor(votes[|votes| - 1].validator)
  }

  lemma VotersAppend(front: seq<Vote>, last: Vote)
    ensures Voters(front + [last]) == Voters(front) + {last.validator}
  {
  }

  lemma LastVoterIsNew(votes: seq<Vote>)
    requires votes != [] && DistinctVoters(votes)
    ensures votes[|votes| - 1].validator !in Voters(votes[..|votes| - 1])
  {
  }

  /** Running sums over distinct voters are set weights, so they never pass the total. */
  lemma {:induction false} SignedWeightIsSetWeight(reg: Registry, votes: seq<Vote>)
    requires DistinctVoters(votes)
    ensures SignedWeight(reg, votes) == Weight(reg.weights, Voters(votes)) <= Total(reg.weights)
  {
    if votes != [] {
      var front, last := votes[..|votes| - 1], votes[|votes| - 1];
      SignedWeightIsSetWeight(reg, front);
      assert Voters(votes) == Voters(front) + {last.validator} by {
        VotersAppend(front, last);
        assert votes == front + [last];
      }
      LastVoterIsNew(votes);
      WeightPeel(reg.weights, Voters(votes), last.validator);
      assert Voters(votes) - {last.validator} == Voters(front);
    }
    WeightAtMostTotal(reg.weights, Voters(votes));
  }

  /** A vote a certificate for this block may carry. */
  predicate Supports(x: Vote, height: nat, hash: string, previousHash: string, round: nat) {
    x.MatchesBlock(height, hash, round) && x.previousHash == previousHash && x.decision == PRECOMMIT
  }

  predicate StructurallyValid(c: Certificate) {
    && 0 < c.height && 0 < c.round && 0 < c.required && 0 < c.total && 0 < c.signed
    && SafeScalar(c.hash) && SafeScalar(c.previousHash) && SafeScalar(c.setRoot)
    && c.required <= c.signed <= c.total <= UINT64_MAX
    && c.required == RequiredWeight(c.total)
    && c.votes != [] && DistinctVoters(c.votes)
    && forall x :: x in c.votes ==> Supports(x, c.height, c.hash, c.previousHash, c.round)
  }

  ghost predicate Verifies(c: Certificate, reg: Registry, sigOk: Vote -> bool) {
    && StructurallyValid(c)
    && reg.Valid()
    && Total(reg.weights) == c.total
    && reg.root == c.setRoot
    && (forall x :: x in c.votes ==>
          x.validator in reg.active && sigOk(x) && reg.WeightFor(x.validator) != 0)
    && SignedWeight(reg, c.votes) == c.signed
    && c.signed >= c.required
  }

  /** What a verifying certificate proves: a quorum of distinct validators each signed a
      precommit for exactly this block, height and round. */
  lemma CertificateIsQuorum(c: Certificate, reg: Registry, sigOk: Vote -> bool)
    requires Verifies(c, reg, sigOk)
    ensures IsQuorum(reg.weights, Voters(c.votes))
    ensures forall v :: v in Voters(c.votes) ==>
      exists x :: x in c.votes && x.validator == v && sigOk(x) && Supports(x, c.height, c.hash, c.previousHash, c.round)
  {
    SignedWeightIsSetWeight(reg, c.votes);
  }

  /** The structural checks, then one pass over the votes. */
  method VerifyCertificate(c: Certificate, reg: Registry, totalWeight: nat, sigOk: Vote -> bool)
    returns (ok: bool)
    requires totalWeight == Total(reg.weights)
    ensures ok <==> Verifies(c, reg, sigOk)
  {
    if !StructurallyValid(c) || totalWeight > UINT64_MAX || totalWeight != c.total || reg.root != c.setRoot {
      return false;
    }
    var signed := 0;
    for i := 0 to |c.votes|
      invariant signed == SignedWeight(reg, c.votes[..i])
      invariant forall k :: 0 <= k < i ==>
        c.votes[k].validator in reg.active && sigOk(c.votes[k]) && reg.WeightFor(c.votes[k].validator) != 0
    {
      var vote := c.votes[i];
      var weight := reg.WeightFor(vote.validator);
      if vote.validator !in reg.active || !sigOk(vote) || weight == 0 {
        return false;
      }
      assert c.votes[..i + 1][..i] == c.votes[..i];
      signed := signed + weight;
    }
    assert c.votes[..|c.votes|] == c.votes;
    return signed == c.signed && signed >= c.required;
  }

  datatype BuildResult = Certified(certificate: Certificate) | Rejected(status: BuildStatus)

  datatype BuildStatus =
    | INVALID_INPUT
    | INVALID_VALIDATOR_REGISTRY
    | INVALID_VOTE
    | UNREGISTERED_OR_INACTIVE_VOTER
    | DUPLICATE_VOTER
    | CONFLICTING_VOTE
    | NOT_ENOUGH_VALID_VOTES

  /** The checks a candidate vote must pass on its own. */
  predicate GoodVote(
    x: Vote, height: nat, hash: string, previousHash: string, round: nat, reg: Registry, sigOk: Vote -> bool)
  {
    && sigOk(x) && Supports(x, height, hash, previousHash, round)
    && x.validator in reg.active && reg.WeightFor(x.validator) != 0
  }

  predicate AllGood(
    votes: seq<Vote>, height: nat, hash: string, previousHash: string, round: nat,
    reg: Registry, sigOk: Vote -> bool)
  {
    forall k :: 0 <= k < |votes| ==> GoodVote(votes[k], height, hash, previousHash, round, reg, sigOk)
  }

  /** When a list of candidate votes certifies a block. */
  ghost predicate Certifiable(
    height: nat, hash: string, previousHash: string, round: nat, votes: seq<Vote>,
    reg: Registry, sigOk: Vote -> bool, numerator: nat, denominator: nat)
  {
    && 0 < height && 0 < round && SafeScalar(hash) && SafeScalar(previousHash) && SafeScalar(reg.root)
    && numerator == 2 && denominator == 3
    && DistinctVoters(votes)
    && AllGood(votes, height, hash, previousHash, round, reg, sigOk)
    && IsQuorum(reg.weights, Voters(votes))
  }

  /** The certificate that carries these votes. */
  ghost function CertificateOf(
    height: nat, hash: string, previousHash: string, round: nat, votes: seq<Vote>, reg: Registry): Certificate
    requires 0 < Total(reg.weights) <= UINT64_MAX
  {
    Certificate(height, hash, previousHash, round, RequiredWeight(Total(reg.weights)), Total(reg.weights),
                SignedWeight(reg, votes), reg.root, votes)
  }

  /** A signed precommit for exactly this block and round, by an active validator with weight. */
  ghost predicate Precommits(
    x: Vote, height: nat, hash: string, previousHash: string, round: nat, reg: Registry, sigOk: Vote -> bool)
  {
    && x.height == height && x.hash == hash && x.previousHash == previousHash && x.round == round
    && x.decision == PRECOMMIT && sigOk(x)
    && x.validator in reg.active && x.validator in reg.weights && reg.weights[x.validator] > 0
  }

  /** A certificate verifies exactly when distinct voters with more than two thirds of the set's
      weight each signed a precommit for its block, and it states that weight, the set's total
      and the set's root. */
  lemma {:induction false} VerifiesIff(c: Certificate, reg: Registry, sigOk: Vote -> bool)
    ensures Verifies(c, reg, sigOk) <==>
      && 0 < c.height && 0 < c.round && SafeScalar(c.hash) && SafeScalar(c.previousHash) && SafeScalar(c.setRoot)
      && 0 < c.total == Total(reg.weights) <= UINT64_MAX && c.setRoot == reg.root
      && c.required == 2 * c.total / 3 + 1
      && c.signed == Weight(reg.weights, Voters(c.votes)) && 3 * c.signed > 2 * c.total
      && DistinctVoters(c.votes)
      && forall x :: x in c.votes ==> Precommits(x, c.height, c.hash, c.previousHash, c.round, reg, sigOk)
  {
    if DistinctVoters(c.votes) {
      SignedWeightIsSetWeight(reg, c.votes);
    }
    if c.votes == [] {
      assert Voters(c.votes) == {};
    }
  }

  /** The builder's condition and the verifier's are one: what verifies is what its votes build. */
  lemma {:induction false} VerifiedIsBuilt(c: Certificate, reg: Registry, sigOk: Vote -> bool)
    ensures Verifies(c, reg, sigOk) <==>
      && Certifiable(c.height, c.hash, c.previousHash, c.round, c.votes, reg, sigOk, 2, 3)
      && c == CertificateOf(c.height, c.hash, c.previousHash, c.round, c.votes, reg)
  {
    if DistinctVoters(c.votes) {
      SignedWeightIsSetWeight(reg, c.votes);
    }
    if c.votes == [] {
      assert Voters(c.votes) == {};
    }
  }

  datatype Tally = Sum(signed: nat) | Failed(status: BuildStatus)

  /** The next vote extends the accepted prefix: it is counted once and the sum stays
      within the total of the set, so the running sum cannot overflow. */
  lemma {:induction false} TallyStep(votes: seq<Vote>, i: nat, reg: Registry)
    requires i < |votes| && DistinctVoters(votes[..i]) && votes[i].validator !in Voters(votes[..i])
    ensures DistinctVoters(votes[..i + 1])
    ensures Voters(votes[..i + 1]) == Voters(votes[..i]) + {votes[i].validator}
    ensures SignedWeight(reg, votes[..i + 1]) ==
      SignedWeight(reg, votes[..i]) + reg.WeightFor(votes[i].validator) <= Total(reg.weights)
  {
    var front, next := votes[..i], votes[..i + 1];
    assert next == front + [votes[i]] && next[..i] == front;
    forall j, k | 0 <= j < k < |next| ensures next[j].validator != next[k].validator {
      assert next[j] in front;
      assert next[j].validator in Voters(front);
    }
    VotersAppend(front, votes[i]);
    SignedWeightIsSetWeight(reg, next);
  }

  /** The loop over the candidate votes: it stops at the first vote that fails a check or
      repeats a voter, and otherwise returns the sum of all weights. */
  method TallyVotes(
    height: nat, hash: string, previousHash: string, round: nat, votes: seq<Vote>,
    reg: Registry, sigOk: Vote -> bool)
    returns (tally: Tally)
    requires Total(reg.weights) <= UINT64_MAX
    ensures tally.Sum? <==>
      DistinctVoters(votes) && AllGood(votes, height, hash, previousHash, round, reg, sigOk)
    ensures tally.Sum? ==> tally.signed == SignedWeight(reg, votes)
  {
    var seen: set<string> := {};
    var signed := 0;
    for i := 0 to |votes|
      invariant seen == Voters(votes[..i]) && DistinctVoters(votes[..i])
      invariant signed == SignedWeight(reg, votes[..i])
      invariant AllGood(votes[..i], height, hash, previousHash, round, reg, sigOk)
    {
      var vote := votes[i];
      if !sigOk(vote) {
        return Failed(INVALID_VOTE);
      }
      if !Supports(vote, height, hash, previousHash, round) {
        return Failed(CONFLICTING_VOTE);
      }
      if vote.validator !in reg.active {
        return Failed(UNREGISTERED_OR_INACTIVE_VOTER);
      }
      if vote.validator in seen {
        RepeatedVoter(votes, i);
        return Failed(DUPLICATE_VOTER);
      }
      var weight := reg.WeightFor(vote.validator);
      if weight == 0 {
        return Failed(UNREGISTERED_OR_INACTIVE_VOTER);
      }
      TallyStep(votes, i, reg);
      signed := signed + weight;
      seen := seen + {vote.validator};
    }
    assert votes[..|votes|] == votes;
    return Sum(signed);
  }

  lemma RepeatedVoter(votes: seq<Vote>, i: nat)
    requires i < |votes| && votes[i].validator in Voters(votes[..i])
    ensures !DistinctVoters(votes)
  {
  }

  /** Assembles a certificate. The registry reports its own total weight; a registry whose
      total does not fit a word is invalid. */
  method BuildFromVotes(
    height: nat, hash: string, previousHash: string, round: nat, votes: seq<Vote>,
    reg: Registry, totalWeight: nat, sigOk: Vote -> bool, numerator: nat, denominator: nat)
    returns (result: BuildResult)
    requires totalWeight == Total(reg.weights)
    ensures result.Certified? <==>
      Certifiable(height, hash, previousHash, round, votes, reg, sigOk, numerator, denominator)
    ensures result.Certified? ==>
      var c := result.certificate;
      && Verifies(c, reg, sigOk)
      && c.height == height && c.hash == hash && c.previousHash == previousHash && c.round == round
      && c.votes == votes
  {
    if height == 0 || round == 0 || !SafeScalar(hash) || !SafeScalar(previousHash) || votes == [] {
      assert votes == [] ==> Voters(votes) == {};
      return Rejected(INVALID_INPUT);
    }
    if totalWeight > UINT64_MAX || totalWeight == 0 {
      return Rejected(INVALID_VALIDATOR_REGISTRY);
    }
    if numerator != 2 || denominator != 3 {
      return Rejected(INVALID_INPUT);
    }
    var required := RequiredWeight(totalWeight);
    var tally := TallyVotes(height, hash, previousHash, round, votes, reg, sigOk);
    if tally.Failed? {
      return Rejected(tally.status);
    }
    var signed := tally.signed;
    SignedWeightIsSetWeight(reg, votes);
    if signed < required {
      return Rejected(NOT_ENOUGH_VALID_VOTES);
    }
    if !SafeScalar(reg.root) {
      return Rejected(INVALID_VOTE);
    }
    return Certified(Certificate(
      height, hash, previousHash, round, required, totalWeight, signed, reg.root, votes));
  }
}
