/** What decides a proposal and what pays it, exactly: the voters, the voting window, the timelock
    and the payments of an epoch's blocks. Safety alone would also hold of a treasury that never
    pays. */
module TreasuryLaws {
  import opened Wrappers
  import opened Quorum
  import opened Sums
  import opened Arithmetic
  import opened Treasury
  import opened TreasuryRuns

  // --- Voting ---------------------------------------------------------------------------------------

  /** A proposal enters exactly when it is new, complete, and its voting ends within 64 bits. */
  lemma ProposalEntersIff(policy: Policy, s: State, id: string, proposer: string, payload: Payload, height: nat, total: nat)
    ensures
      var t := Apply(policy, s, Submit(id, proposer, payload, height, total));
      if (&& id != "" && id !in s.proposals && proposer != "" && height > 0 && total > 0
          && payload.period > 0 && payload.title != ""
          && 0 < payload.quorumNumerator <= payload.quorumDenominator
          && 0 < payload.approvalNumerator <= payload.approvalDenominator
          && (payload.purpose.Spend? ==> payload.purpose.recipient != "" && 0 < payload.purpose.amount <= INT64_MAX)
          && height + payload.startDelay + payload.period <= UINT64_MAX + 1)
      then
        && t.proposals.Keys == s.proposals.Keys + {id} && t.proposals[id].ballots == []
        && t.proposals[id].payload == payload && t.proposals[id].totalWeight == total && t.proposals[id].proposer == proposer
        && t.proposals[id].status == (if payload.startDelay == 0 then ACTIVE else PENDING)
      else t == s
  {
  }

  /** Voting on a new proposal is open for exactly `period` heights after the delay: at each of
      them the first ballot of a validator with a fitting weight is counted, and at no other. */
  lemma BallotCountsIff(
    policy: Policy, s: State, t: State, id: string, proposer: string, payload: Payload, height: nat, total: nat,
    ballot: Ballot, now: nat)
    requires MaySubmit(s.proposals, id, proposer, payload, height, total)
    requires t == Apply(policy, s, Submit(id, proposer, payload, height, total))
    ensures
      var u := Apply(policy, t, Vote(id, ballot, now));
      if (&& ballot.validator != "" && 0 < ballot.weight <= total
          && height + payload.startDelay <= now < height + payload.startDelay + payload.period)
      then u.proposals[id].ballots == [ballot] && u.proposals[id].status == ACTIVE
      else u == t
  {
  }

  /** On any proposal a ballot counts exactly in the window, while it is undecided, once per
      validator. */
  lemma LaterBallotCountsIff(policy: Policy, s: State, id: string, ballot: Ballot, now: nat)
    requires id in s.proposals
    ensures
      var p, u := s.proposals[id], Apply(policy, s, Vote(id, ballot, now));
      if (&& p.status in {PENDING, ACTIVE} && ballot.validator != "" && 0 < ballot.weight <= p.totalWeight
          && p.createdHeight <= now && p.votingStart <= now <= p.votingEnd
          && forall i: nat :: i < |p.ballots| ==> p.ballots[i].validator != ballot.validator)
      then u.proposals == s.proposals[id := p.(ballots := p.ballots + [ballot], status := ACTIVE)]
      else u == s
  {
  }

  // --- The decision -----------------------------------------------------------------------------------

  /** Open for the decision at a height: voting has started, and is over. */
  predicate Due(p: Proposal, height: nat) {
    (p.status == ACTIVE || (p.status == PENDING && p.votingStart <= height)) && p.votingEnd < height
  }

  /** A due spend expires without a quorum of the weight, is rejected without approval by its
      voters, and otherwise waits for its timelock. */
  lemma DecisionIff(p: Proposal, height: nat, timelock: nat, q: Proposal)
    requires OneBallotEach(p.ballots) && Due(p, height) && q == Advanced(p, height, timelock)
    ensures q.ballots == p.ballots && q.payload == p.payload && q.decidedAt == height
    ensures q.status == EXPIRED <==> !Quorate(p)
    ensures q.status == REJECTED <==> Quorate(p) && !ApprovedByVoters(p)
    ensures p.payload.purpose.Spend? ==>
      (q.status == QUEUED_FOR_EXECUTION <==> Quorate(p) && ApprovedByVoters(p))
    ensures p.payload.purpose.Spend? && Quorate(p) && ApprovedByVoters(p) ==>
      q.executableAt == (height + timelock) % (UINT64_MAX + 1)
  {
    DecidedByVoters(p);
  }

  /** Anything else that is approved is applied from its effective height on, waits for it, or
      fails for good. */
  lemma OtherDecisionIff(p: Proposal, height: nat, timelock: nat, q: Proposal)
    requires OneBallotEach(p.ballots) && p.payload.purpose.Other? && q == Advanced(p, height, timelock)
    requires (Due(p, height) && Quorate(p) && ApprovedByVoters(p))
      || (p.status == QUEUED_FOR_EXECUTION && p.payload.purpose.applicable)
    ensures q.status ==
      if !p.payload.purpose.applicable then FAILED_EXECUTION
      else if height < p.payload.purpose.effectiveHeight then QUEUED_FOR_EXECUTION
      else EXECUTED
  {
    DecidedByVoters(p);
  }

  /** An advance before the end of voting only opens it. */
  lemma UndecidedBefore(p: Proposal, height: nat, timelock: nat)
    requires p.status in {PENDING, ACTIVE} && !Due(p, height)
    ensures Advanced(p, height, timelock) ==
      if p.status == PENDING && p.votingStart <= height then p.(status := ACTIVE) else p
  {
  }

  /** A height advance moves every proposal, or none: none at height zero, and none when the voters
      of a due proposal together weigh more than 64 bits hold. It pays nothing. */
  lemma AdvanceIff(policy: Policy, s: State, height: nat, t: State)
    requires AllProposals(policy, s.proposals) && t == Apply(policy, s, Advance(height))
    ensures t.accounts == s.accounts && t.paid == s.paid && t.proposals.Keys == s.proposals.Keys
    ensures height > 0 && AllFit(s.proposals, height) ==>
      forall id :: id in s.proposals ==> t.proposals[id] == Advanced(s.proposals[id], height, policy.timelock)
    ensures height == 0 || !AllFit(s.proposals, height) ==> t == s
  {
    forall id | id in s.proposals ensures TallyFails(s.proposals[id], height) <==>
      Due(s.proposals[id], height) && Total(BallotWeights(s.proposals[id].ballots)) > UINT64_MAX
    {
      assert ProposalInv(policy, s.proposals[id]);
      ParticipatingIsAll(s.proposals[id].ballots);
    }
  }

  ghost predicate AllFit(proposals: Proposals, height: nat) {
    forall id :: id in proposals && Due(proposals[id], height) ==>
      Total(BallotWeights(proposals[id].ballots)) <= UINT64_MAX
  }

  /** In no run is a spend queued or paid that nobody said yes to. */
  lemma {:induction false} NoYesNeverQueued(policy: Policy, accounts: Accounts, steps: seq<Step>, s: State, id: string)
    requires s == Run(policy, State(map[], accounts, []), steps) && id in s.proposals
    requires s.proposals[id].payload.purpose.Spend? && s.proposals[id].status in {QUEUED_FOR_EXECUTION, EXECUTED}
    ensures exists i: nat :: i < |s.proposals[id].ballots| && s.proposals[id].ballots[i].choice == YES
  {
    TreasurySafety(policy, accounts, steps);
    YesNeeded(s.proposals[id]);
  }

  lemma YesNeeded(p: Proposal)
    requires ApprovedByVoters(p) && p.payload.approvalNumerator > 0
    ensures exists i: nat :: i < |p.ballots| && p.ballots[i].choice == YES
  {
    var w, yes, no := BallotWeights(p.ballots), Choosers(p.ballots, YES), Choosers(p.ballots, NO);
    MulMono(Weight(w, yes + no), 1, p.payload.approvalNumerator);
    assert Weight(w, {}) == 0 && yes != {};
    var b :| b in p.ballots && b.choice == YES;
  }

  lemma {:induction false} TurnedTally(ballots: seq<Ballot>, i: nat, choice: Choice)
    requires i < |ballots| && ballots[i].choice == NO
    ensures
      var turned := ballots[i := ballots[i].(choice := YES)];
      && WeightOf(turned, YES) == WeightOf(ballots, YES) + ballots[i].weight
      && WeightOf(turned, NO) + ballots[i].weight == WeightOf(ballots, NO)
      && WeightOf(turned, ABSTAIN) == WeightOf(ballots, ABSTAIN)
  {
    var turned := ballots[i := ballots[i].(choice := YES)];
    var n := |ballots| - 1;
    if i < n {
      TurnedTally(ballots[..n], i, choice);
      assert turned[..n] == ballots[..n][i := ballots[i].(choice := YES)];
    } else {
      assert turned[..n] == ballots[..n];
    }
  }

  /** Turning a no into a yes never undoes an approval. */
  lemma YesNeverHurts(p: Proposal, i: nat, height: nat, timelock: nat, q: Proposal)
    requires i < |p.ballots| && p.ballots[i].choice == NO && Due(p, height) && p.payload.purpose.Spend?
    requires q == p.(ballots := p.ballots[i := p.ballots[i].(choice := YES)])
    requires Advanced(p, height, timelock).status == QUEUED_FOR_EXECUTION
    ensures Advanced(q, height, timelock).status == QUEUED_FOR_EXECUTION
  {
    TurnedTally(p.ballots, i, YES);
    MulMono(p.payload.approvalDenominator, WeightOf(p.ballots, YES), WeightOf(q.ballots, YES));
  }

  // --- Epochs -----------------------------------------------------------------------------------------

  /** Epoch `e` is the blocks after `e - 1` full epochs up to the end of the `e`-th. */
  lemma EpochIsWindow(height: nat, e: nat)
    requires height > 0 && e > 0
    ensures EpochOf(height) == e <==> EPOCH_BLOCKS * (e - 1) < height <= EPOCH_BLOCKS * e
  {
    Division(height - 1, EPOCH_BLOCKS);
    if EPOCH_BLOCKS * (e - 1) < height <= EPOCH_BLOCKS * e {
      DivUnique(height - 1, EPOCH_BLOCKS, e - 1);
    }
  }

  /** What was paid at the heights after `lo` up to `hi`. */
  function PaidWithin(paid: seq<Payment>, lo: nat, hi: nat): nat {
    if paid == [] then 0
    else
      var last := paid[|paid| - 1];
      PaidWithin(paid[..|paid| - 1], lo, hi) + if lo < last.height <= hi then last.amount else 0
  }

  lemma {:induction false} QuietStep(policy: Policy, s: State, step: Step, t: State, e: nat)
    requires Inv(policy, s) && t == Apply(policy, s, step) && !step.Execute?
    ensures EpochSpent(t.proposals, e) == EpochSpent(s.proposals, e) && t.paid == s.paid
  {
    match step
    case Submit(id, proposer, payload, height, total) =>
      if MaySubmit(s.proposals, id, proposer, payload, height, total) {
        SpentUpdate(s.proposals, id, Submitted(proposer, payload, height, total), e);
      }
    case Vote(id, ballot, height) =>
      if id in s.proposals && MayVote(s.proposals[id], ballot, height) {
        SpentUpdate(s.proposals, id, Voted(s.proposals[id], ballot), e);
      }
    case Advance(height) =>
      AdvanceSpendsNothing(policy, s.proposals, height, e);
  }

  lemma {:induction false} PayingStep(s: State, id: string, t: State, e: nat, lo: nat, hi: nat)
    requires PaysOne(s, id, t) && e > 0 && lo == EPOCH_BLOCKS * (e - 1) && hi == EPOCH_BLOCKS * e
    requires t.paid[|s.paid|].height > 0
    ensures EpochSpent(t.proposals, e) + PaidWithin(s.paid, lo, hi) == EpochSpent(s.proposals, e) + PaidWithin(t.paid, lo, hi)
  {
    var height := t.paid[|s.paid|].height;
    SpentUpdate(s.proposals, id, ExecutedSpend(s.proposals[id], height), e);
    EpochIsWindow(height, e);
  }

  lemma {:induction false} StepPays(policy: Policy, s: State, step: Step, t: State, e: nat, lo: nat, hi: nat)
    requires Inv(policy, s) && t == Apply(policy, s, step) && e > 0
    requires lo == EPOCH_BLOCKS * (e - 1) && hi == EPOCH_BLOCKS * e
    requires EpochSpent(s.proposals, e) == PaidWithin(s.paid, lo, hi)
    ensures EpochSpent(t.proposals, e) == PaidWithin(t.paid, lo, hi)
  {
    if !step.Execute? {
      QuietStep(policy, s, step, t, e);
    } else if Executes(s.proposals, s.accounts, policy, step.approval, step.id, step.height) {
      PayingStep(s, step.id, t, e, lo, hi);
    }
  }

  lemma {:induction false} SpentIsPaid(policy: Policy, accounts: Accounts, steps: seq<Step>, s: State, e: nat)
    requires s == Run(policy, State(map[], accounts, []), steps) && e > 0
    ensures EpochSpent(s.proposals, e) == PaidWithin(s.paid, EPOCH_BLOCKS * (e - 1), EPOCH_BLOCKS * e)
  {
    if steps == [] {
      assert SpentIn(map[], e) == map[];
    } else {
      var front := steps[..|steps| - 1];
      var before := Run(policy, State(map[], accounts, []), front);
      SpentIsPaid(policy, accounts, front, before, e);
      TreasurySafety(policy, accounts, front);
      StepPays(policy, before, steps[|steps| - 1], s, e, EPOCH_BLOCKS * (e - 1), EPOCH_BLOCKS * e);
    }
  }

  /** In every run the payments at the heights of each epoch together stay within the cap. */
  lemma {:induction false} EpochPaymentsCapped(policy: Policy, accounts: Accounts, steps: seq<Step>, e: nat)
    requires e > 0
    ensures PaidWithin(Run(policy, State(map[], accounts, []), steps).paid, EPOCH_BLOCKS * (e - 1), EPOCH_BLOCKS * e)
      <= policy.maxPerEpoch
  {
    SpentIsPaid(policy, accounts, steps, Run(policy, State(map[], accounts, []), steps), e);
    TreasurySafety(policy, accounts, steps);
  }

  // --- Payment ------------------------------------------------------------------------------------------

  /** What an execution asks for, where `spent` was paid before at the heights of its epoch. */
  predicate Payable(policy: Policy, s: State, id: string, approval: Approval, height: nat, spent: nat) {
    && id in s.proposals && s.proposals[id].status == QUEUED_FOR_EXECUTION && s.proposals[id].payload.purpose.Spend?
    && var p := s.proposals[id];
       var amount := p.payload.purpose.amount;
       && height > 0 && p.executableAt <= height && p.decidedAt + policy.timelock <= height
       && p.decidedAt + policy.timelock <= UINT64_MAX
       && policy.version != "" && id != "" && p.proposer != ""
       && (policy.requireApproval ==> approval.valid && approval.proposalId == id)
       && amount <= Balance(s.accounts, TREASURY) && amount <= policy.maxPerProposal
       && spent + amount <= INT64_MAX && spent + amount <= policy.maxPerEpoch
       && Balance(s.accounts, p.payload.purpose.recipient) + amount <= INT64_MAX
  }

  lemma {:induction false} ExecutesIff(policy: Policy, s: State, id: string, approval: Approval, height: nat, spent: nat)
    requires id in s.proposals ==> ValidPayload(s.proposals[id].payload)
    requires height > 0 && id in s.proposals && s.proposals[id].status != EXECUTED ==>
      spent == Total(EpochSpentOthers(s.proposals, EpochOf(height), id))
    ensures Executes(s.proposals, s.accounts, policy, approval, id, height) <==> Payable(policy, s, id, approval, height, spent)
  {
  }

  /** In every run a queued spend is paid exactly when its timelock has passed, the treasury and
      the limits for a proposal and for the payments of its epoch's blocks allow the amount, and
      the policy's approval is there; a paid spend is one payment of its amount to its recipient. */
  lemma {:induction false} PaysIff(
    policy: Policy, accounts: Accounts, steps: seq<Step>, s: State, id: string, approval: Approval, height: nat,
    e: nat, t: State)
    requires s == Run(policy, State(map[], accounts, []), steps) && t == Apply(policy, s, Execute(id, approval, height))
    requires e > 0 && (height > 0 ==> EPOCH_BLOCKS * (e - 1) < height <= EPOCH_BLOCKS * e)
    ensures if Payable(policy, s, id, approval, height, PaidWithin(s.paid, EPOCH_BLOCKS * (e - 1), EPOCH_BLOCKS * e))
      then
        var purpose := s.proposals[id].payload.purpose;
        && t.proposals == s.proposals[id := s.proposals[id].(status := EXECUTED, executedAt := height)]
        && t.accounts == Paid(s.accounts, purpose.recipient, purpose.amount)
        && |t.paid| == |s.paid| + 1 && t.paid[|s.paid|].amount == purpose.amount
      else t == s
  {
    TreasurySafety(policy, accounts, steps);
    if id in s.proposals {
      assert ProposalInv(policy, s.proposals[id]);
      if height > 0 {
        EpochIsWindow(height, e);
      }
      NotYetSpent(policy, accounts, steps, s, id, e);
    }
    ExecutesIff(policy, s, id, approval, height, PaidWithin(s.paid, EPOCH_BLOCKS * (e - 1), EPOCH_BLOCKS * e));
  }

  /** What the others have spent in an epoch is what was paid in it. */
  lemma {:induction false} NotYetSpent(policy: Policy, accounts: Accounts, steps: seq<Step>, s: State, id: string, e: nat)
    requires s == Run(policy, State(map[], accounts, []), steps) && e > 0 && id in s.proposals
    ensures s.proposals[id].status == EXECUTED
      || Total(EpochSpentOthers(s.proposals, e, id)) == PaidWithin(s.paid, EPOCH_BLOCKS * (e - 1), EPOCH_BLOCKS * e)
  {
    SpentIsPaid(policy, accounts, steps, s, e);
    TotalRemove(SpentIn(s.proposals, e), id);
  }
}
