/** Governance proposals and treasury spends: voting, the decision, the timelock and the one
    explicit execution that moves the funds. */
module Treasury {
  import opened Wrappers
  import opened Quorum
  import opened Sums

  const EPOCH_BLOCKS: nat := 43200
  const TREASURY := "treasury-protocol-account"

  datatype Status = PENDING | ACTIVE | APPROVED | REJECTED | EXPIRED | QUEUED_FOR_EXECUTION | EXECUTED | FAILED_EXECUTION

  datatype Choice = YES | NO | ABSTAIN

  datatype Ballot = Ballot(validator: string, choice: Choice, weight: nat)

  /** A treasury spend, or anything else: a proposal that applies at some height, or never. */
  datatype Purpose =
    | Spend(recipient: string, amount: nat)
    | Other(effectiveHeight: nat, applicable: bool)

  datatype Payload = Payload(
    purpose: Purpose, title: string, startDelay: nat, period: nat,
    quorumNumerator: nat, quorumDenominator: nat, approvalNumerator: nat, approvalDenominator: nat)

  datatype Proposal = Proposal(
    proposer: string, payload: Payload, createdHeight: nat, votingStart: nat, votingEnd: nat, totalWeight: nat,
    status: Status, ballots: seq<Ballot>, decidedAt: nat, executableAt: nat, executedAt: nat)

  type Proposals = map<string, Proposal>

  datatype Account = Account(balance: nat, nonce: nat)

  type Accounts = map<string, Account>

  datatype Policy = Policy(version: string, maxPerEpoch: nat, maxPerProposal: nat, timelock: nat, requireApproval: bool)

  datatype Approval = Approval(valid: bool, proposalId: string)

  /** A payload that passed its own check. */
  predicate ValidPayload(p: Payload) {
    && p.period > 0 && p.title != ""
    && 0 < p.quorumNumerator <= p.quorumDenominator
    && 0 < p.approvalNumerator <= p.approvalDenominator
    && (p.purpose.Spend? ==> p.purpose.recipient != "" && 0 < p.purpose.amount <= INT64_MAX)
  }

  // --- Voting -------------------------------------------------------------------------------------

  function WeightOf(ballots: seq<Ballot>, choice: Choice): nat {
    if ballots == [] then 0
    else
      var last := ballots[|ballots| - 1];
      WeightOf(ballots[..|ballots| - 1], choice) + if last.choice == choice then last.weight else 0
  }

  function Participating(ballots: seq<Ballot>): nat {
    WeightOf(ballots, YES) + WeightOf(ballots, NO) + WeightOf(ballots, ABSTAIN)
  }

  predicate QuorumMet(p: Proposal) {
    p.totalWeight > 0
    && Participating(p.ballots) * p.payload.quorumDenominator >= p.totalWeight * p.payload.quorumNumerator
  }

  predicate ApprovalMet(p: Proposal) {
    var directional := WeightOf(p.ballots, YES) + WeightOf(p.ballots, NO);
    directional > 0
    && WeightOf(p.ballots, YES) * p.payload.approvalDenominator >= directional * p.payload.approvalNumerator
  }

  // --- The ballots as sets of voters ----------------------------------------------------------------

  ghost predicate OneBallotEach(ballots: seq<Ballot>) {
    forall i: nat, j: nat :: i < j < |ballots| ==> ballots[i].validator != ballots[j].validator
  }

  /** Who voted, and with what weight. */
  function BallotWeights(ballots: seq<Ballot>): Weights {
    if ballots == [] then map[]
    else BallotWeights(ballots[..|ballots| - 1])[ballots[|ballots| - 1].validator := ballots[|ballots| - 1].weight]
  }

  function Choosers(ballots: seq<Ballot>, choice: Choice): set<string> {
    set b | b in ballots && b.choice == choice :: b.validator
  }

  /** The voters hold the asked share of the total weight. */
  ghost predicate Quorate(p: Proposal) {
    && p.totalWeight > 0
    && Total(BallotWeights(p.ballots)) * p.payload.quorumDenominator >= p.totalWeight * p.payload.quorumNumerator
  }

  /** The voters who said yes hold the asked share of the weight of all who said yes or no. */
  ghost predicate ApprovedByVoters(p: Proposal) {
    var w, yes, no := BallotWeights(p.ballots), Choosers(p.ballots, YES), Choosers(p.ballots, NO);
    && Weight(w, yes + no) > 0
    && Weight(w, yes) * p.payload.approvalDenominator >= Weight(w, yes + no) * p.payload.approvalNumerator
  }

  lemma {:induction false} VotersAre(ballots: seq<Ballot>)
    ensures BallotWeights(ballots).Keys == set b | b in ballots :: b.validator
  {
    if ballots != [] {
      var front, last := ballots[..|ballots| - 1], ballots[|ballots| - 1];
      VotersAre(front);
      assert ballots == front + [last];
    }
  }

  lemma {:induction false} NewVoter(front: seq<Ballot>, last: Ballot, choice: Choice)
    requires OneBallotEach(front + [last])
    ensures OneBallotEach(front) && last.validator !in BallotWeights(front)
    ensures Choosers(front + [last], choice) == Choosers(front, choice) + if last.choice == choice then {last.validator} else {}
    ensures last.validator !in Choosers(front, choice)
  {
    var ballots := front + [last];
    assert forall i: nat :: i < |front| ==> front[i] == ballots[i] && ballots[i].validator != ballots[|front|].validator;
    VotersAre(front);
  }

  /** The running tally of a choice is the weight of the set of its voters. */
  lemma {:induction false} TallyIsVoters(ballots: seq<Ballot>, choice: Choice)
    requires OneBallotEach(ballots)
    ensures WeightOf(ballots, choice) == Weight(BallotWeights(ballots), Choosers(ballots, choice))
  {
    if ballots == [] {
      assert Choosers(ballots, choice) == {};
    } else {
      var front, last := ballots[..|ballots| - 1], ballots[|ballots| - 1];
      var voters := Choosers(front, choice);
      assert ballots == front + [last];
      NewVoter(front, last, choice);
      TallyIsVoters(front, choice);
      AddVoter(BallotWeights(front), voters, last.validator, last.weight);
      assert Choosers(ballots, choice) == if last.choice == choice then voters + {last.validator} else voters;
    }
  }

  lemma {:induction false} AddVoter(w: Weights, voters: set<string>, v: string, x: nat)
    requires v !in voters
    ensures Weight(w[v := x], voters) == Weight(w, voters)
    ensures Weight(w[v := x], voters + {v}) == Weight(w, voters) + x
  {
    WeightAgree(w, w[v := x], voters);
    WeightPeel(w[v := x], voters + {v}, v);
    assert voters + {v} - {v} == voters;
  }

  lemma {:induction false} ParticipatingIsAll(ballots: seq<Ballot>)
    requires OneBallotEach(ballots)
    ensures Participating(ballots) == Total(BallotWeights(ballots))
  {
    if ballots == [] {
      assert BallotWeights(ballots) == map[];
    } else {
      var front, last := ballots[..|ballots| - 1], ballots[|ballots| - 1];
      assert ballots == front + [last];
      NewVoter(front, last, YES);
      ParticipatingIsAll(front);
      TotalUpdate(BallotWeights(front), last.validator, last.weight);
    }
  }

  lemma {:induction false} ChoicesApart(ballots: seq<Ballot>)
    requires OneBallotEach(ballots)
    ensures Choosers(ballots, YES) !! Choosers(ballots, NO)
  {
    forall b, c | b in ballots && c in ballots && b.choice == YES && c.choice == NO ensures b.validator != c.validator {
      var i: nat :| i < |ballots| && ballots[i] == b;
      var j: nat :| j < |ballots| && ballots[j] == c;
      assert i != j;
    }
  }

  /** The decision is about the voters. */
  lemma {:induction false} DecidedByVoters(p: Proposal)
    requires OneBallotEach(p.ballots)
    ensures QuorumMet(p) <==> Quorate(p)
    ensures ApprovalMet(p) <==> ApprovedByVoters(p)
  {
    var w, yes, no := BallotWeights(p.ballots), Choosers(p.ballots, YES), Choosers(p.ballots, NO);
    ParticipatingIsAll(p.ballots);
    TallyIsVoters(p.ballots, YES);
    TallyIsVoters(p.ballots, NO);
    ChoicesApart(p.ballots);
    WeightSplit(w, yes + no, yes);
    assert (yes + no) * yes == yes && (yes + no) - yes == no;
  }

  /** The tally does not fit 64 bits. */
  predicate TallyOverflows(p: Proposal) {
    Participating(p.ballots) > UINT64_MAX
  }

  predicate HasVoted(p: Proposal, validator: string) {
    exists i: nat :: i < |p.ballots| && p.ballots[i].validator == validator
  }

  predicate MayVote(p: Proposal, ballot: Ballot, height: nat) {
    && (p.status == PENDING || p.status == ACTIVE)
    && ballot.validator != "" && 0 < ballot.weight <= p.totalWeight
    && p.createdHeight <= height && p.votingStart <= height <= p.votingEnd
    && !HasVoted(p, ballot.validator)
  }

  function Voted(p: Proposal, ballot: Ballot): Proposal {
    p.(status := ACTIVE, ballots := p.ballots + [ballot])
  }

  function Submitted(proposer: string, payload: Payload, height: nat, totalWeight: nat): Proposal
    requires payload.period > 0
  {
    var start := height + payload.startDelay;
    Proposal(proposer, payload, height, start, start + payload.period - 1, totalWeight,
      if height >= start then ACTIVE else PENDING, [], 0, 0, 0)
  }

  predicate MaySubmit(proposals: Proposals, id: string, proposer: string, payload: Payload, height: nat, totalWeight: nat) {
    && id != "" && proposer != "" && height > 0 && totalWeight > 0
    && id !in proposals
    && ValidPayload(payload)
    && height + payload.startDelay + payload.period - 1 <= UINT64_MAX
  }

  // --- The decision -------------------------------------------------------------------------------

  /** The decision at the end of voting. The execution height wraps around as a 64-bit word. */
  function Finalized(p: Proposal, height: nat, timelock: nat): Proposal {
    var decided := p.(decidedAt := height);
    if !QuorumMet(p) then decided.(status := EXPIRED)
    else if !ApprovalMet(p) then decided.(status := REJECTED)
    else match p.payload.purpose
      case Spend(_, _) =>
        decided.(status := QUEUED_FOR_EXECUTION, executableAt := (height + timelock) % (UINT64_MAX + 1))
      case Other(_, _) => ExecutedOther(decided, height)
  }

  function ExecutedOther(p: Proposal, height: nat): Proposal
    requires p.payload.purpose.Other?
  {
    if !p.payload.purpose.applicable then p.(status := FAILED_EXECUTION)
    else if height < p.payload.purpose.effectiveHeight then p.(status := QUEUED_FOR_EXECUTION)
    else p.(status := EXECUTED, executedAt := height)
  }

  function Opened(p: Proposal, height: nat): Proposal {
    if p.status == PENDING && height >= p.votingStart then p.(status := ACTIVE) else p
  }

  /** What a height advance does to one proposal. A queued spend is never executed by it. */
  function Advanced(p: Proposal, height: nat, timelock: nat): Proposal {
    var q := Opened(p, height);
    if q.status == ACTIVE && height > q.votingEnd then Finalized(q, height, timelock)
    else if q.status == QUEUED_FOR_EXECUTION && q.payload.purpose.Other? && height >= q.payload.purpose.effectiveHeight
      then ExecutedOther(q, height)
    else q
  }

  /** The proposal is due for its decision, but its tally overflows. */
  predicate TallyFails(p: Proposal, height: nat) {
    && (p.status == ACTIVE || (p.status == PENDING && height >= p.votingStart))
    && height > p.votingEnd && TallyOverflows(p)
  }

  predicate AdvanceFails(proposals: Proposals, height: nat) {
    height == 0 || exists id :: id in proposals && TallyFails(proposals[id], height)
  }

  function AdvancedAll(proposals: Proposals, height: nat, timelock: nat): Proposals {
    map id | id in proposals :: Advanced(proposals[id], height, timelock)
  }

  // --- Execution ----------------------------------------------------------------------------------

  function EpochOf(height: nat): nat
    requires height > 0
  {
    (height - 1) / EPOCH_BLOCKS + 1
  }

  predicate PaidIn(p: Proposal, epoch: nat) {
    p.payload.purpose.Spend? && p.status == EXECUTED && p.executedAt > 0 && EpochOf(p.executedAt) == epoch
  }

  /** What each proposal has spent in the epoch. */
  function SpentIn(proposals: Proposals, epoch: nat): map<string, nat> {
    map id | id in proposals :: if PaidIn(proposals[id], epoch) then proposals[id].payload.purpose.amount else 0
  }

  ghost function EpochSpent(proposals: Proposals, epoch: nat): nat {
    Total(SpentIn(proposals, epoch))
  }

  predicate Ready(proposals: Proposals, id: string, height: nat) {
    && id in proposals
    && proposals[id].status == QUEUED_FOR_EXECUTION
    && proposals[id].payload.purpose.Spend?
    && height >= proposals[id].executableAt
  }

  function Balance(accounts: Accounts, a: string): nat {
    if a in accounts then accounts[a].balance else 0
  }

  function Nonce(accounts: Accounts, a: string): nat {
    if a in accounts then accounts[a].nonce else 0
  }

  datatype SpendStatus =
    ACCEPTED | INVALID_POLICY | INVALID_PROPOSAL | INVALID_APPROVAL | APPROVAL_MISMATCH | TIMELOCK_OVERFLOW
    | TIMELOCK_NOT_SATISFIED | INSUFFICIENT_TREASURY_BALANCE | PROPOSAL_LIMIT_EXCEEDED | EPOCH_SPEND_OVERFLOW
    | EPOCH_LIMIT_EXCEEDED

  /** The checks a spend must pass, in order. The treasury is unlocked and defense mode is off. */
  function ValidateSpend(policy: Policy, approval: Approval, id: string, p: Proposal, balance: nat, height: nat,
    epochSpent: nat): SpendStatus
    requires p.payload.purpose.Spend?
  {
    var amount := p.payload.purpose.amount;
    if policy.version == "" then INVALID_POLICY
    else if id == "" || p.payload.purpose.recipient == "" || amount == 0 || p.payload.title == "" || p.proposer == ""
      then INVALID_PROPOSAL
    else if policy.requireApproval && !approval.valid then INVALID_APPROVAL
    else if policy.requireApproval && approval.proposalId != id then APPROVAL_MISMATCH
    else if policy.timelock > UINT64_MAX - p.decidedAt then TIMELOCK_OVERFLOW
    else if height < p.decidedAt + policy.timelock then TIMELOCK_NOT_SATISFIED
    else if amount > balance then INSUFFICIENT_TREASURY_BALANCE
    else if amount > policy.maxPerProposal then PROPOSAL_LIMIT_EXCEEDED
    else if amount > INT64_MAX - epochSpent then EPOCH_SPEND_OVERFLOW
    else if epochSpent + amount > policy.maxPerEpoch then EPOCH_LIMIT_EXCEEDED
    else ACCEPTED
  }

  /** Debits the treasury, then credits the recipient with its balance as it was before. */
  function Paid(accounts: Accounts, recipient: string, amount: nat): Accounts
    requires amount <= Balance(accounts, TREASURY)
  {
    var credit := Account(Balance(accounts, recipient) + amount, Nonce(accounts, recipient));
    accounts[TREASURY := Account(Balance(accounts, TREASURY) - amount, Nonce(accounts, TREASURY))][recipient := credit]
  }

  function ExecutedSpend(p: Proposal, height: nat): Proposal {
    p.(status := EXECUTED, executedAt := height)
  }

  function EpochSpentOthers(proposals: Proposals, epoch: nat, id: string): map<string, nat> {
    SpentIn(proposals, epoch) - {id}
  }

  /** A spend goes through: the proposal is ready, the check accepts it, and neither the epoch
      sum nor the recipient's balance leaves 64 bits. */
  ghost predicate Executes(
    proposals: Proposals, accounts: Accounts, policy: Policy, approval: Approval, id: string, height: nat) {
    && height > 0
    && Ready(proposals, id, height)
    && var spent := Total(EpochSpentOthers(proposals, EpochOf(height), id));
       && spent <= INT64_MAX
       && ValidateSpend(policy, approval, id, proposals[id], Balance(accounts, TREASURY), height, spent) == ACCEPTED
       && Balance(accounts, proposals[id].payload.purpose.recipient) + proposals[id].payload.purpose.amount <= INT64_MAX
  }
}
