/** Every run of submissions, votes, height advances and executions under one policy: each
    approved spend is paid at most once, after its timelock and within the epoch's cap. */
module TreasuryRuns {
  import opened Wrappers
  import opened Quorum
  import opened Sums
  import opened Treasury

  /** `approved` says whether a valid approval of this very proposal came with the execution. */
  datatype Payment = Payment(id: string, recipient: string, amount: nat, height: nat, approved: bool)

  /** `paid` is the history of executed spends. */
  datatype State = State(proposals: Proposals, accounts: Accounts, paid: seq<Payment>)

  datatype Step =
    | Submit(id: string, proposer: string, payload: Payload, height: nat, totalWeight: nat)
    | Vote(id: string, ballot: Ballot, height: nat)
    | Advance(height: nat)
    | Execute(id: string, approval: Approval, height: nat)

  ghost function Apply(policy: Policy, s: State, step: Step): State {
    match step
    case Submit(id, proposer, payload, height, totalWeight) =>
      if MaySubmit(s.proposals, id, proposer, payload, height, totalWeight)
      then s.(proposals := s.proposals[id := Submitted(proposer, payload, height, totalWeight)])
      else s
    case Vote(id, ballot, height) =>
      if id in s.proposals && MayVote(s.proposals[id], ballot, height)
      then s.(proposals := s.proposals[id := Voted(s.proposals[id], ballot)])
      else s
    case Advance(height) =>
      if AdvanceFails(s.proposals, height) then s
      else s.(proposals := AdvancedAll(s.proposals, height, policy.timelock))
    case Execute(id, approval, height) =>
      if Executes(s.proposals, s.accounts, policy, approval, id, height) then
        var p := s.proposals[id];
        State(s.proposals[id := ExecutedSpend(p, height)],
          Paid(s.accounts, p.payload.purpose.recipient, p.payload.purpose.amount),
          s.paid + [Payment(id, p.payload.purpose.recipient, p.payload.purpose.amount, height,
            approval.valid && approval.proposalId == id)])
      else s
  }

  ghost function Run(policy: Policy, start: State, steps: seq<Step>): State {
    if steps == [] then start else Apply(policy, Run(policy, start, steps[..|steps| - 1]), steps[|steps| - 1])
  }

  // --- One proposal ---------------------------------------------------------------------------------

  /** What holds of every treasury proposal: one ballot per validator, a quorum of the weight and
      approval by the voters once it is queued, and payment only after the timelock. */
  ghost predicate ProposalInv(policy: Policy, p: Proposal) {
    && ValidPayload(p.payload) && OneBallotEach(p.ballots)
    && (p.payload.purpose.Spend? ==>
         && p.status != APPROVED
         && (p.status in {QUEUED_FOR_EXECUTION, EXECUTED} ==> Quorate(p) && ApprovedByVoters(p) && p.votingEnd < p.decidedAt)
         && (p.status == EXECUTED ==>
               && p.executedAt > 0 && p.decidedAt + policy.timelock <= p.executedAt
               && p.payload.purpose.amount <= policy.maxPerProposal))
  }

  lemma {:induction false} VotedInv(policy: Policy, p: Proposal, ballot: Ballot, height: nat)
    requires ProposalInv(policy, p) && MayVote(p, ballot, height)
    ensures ProposalInv(policy, Voted(p, ballot))
  {
  }

  lemma {:induction false} AdvancedInv(policy: Policy, p: Proposal, height: nat)
    requires ProposalInv(policy, p)
    ensures ProposalInv(policy, Advanced(p, height, policy.timelock))
    ensures Advanced(p, height, policy.timelock).payload == p.payload
    ensures p.payload.purpose.Spend? ==>
      && (Advanced(p, height, policy.timelock).status == EXECUTED <==> p.status == EXECUTED)
      && (p.status == EXECUTED ==> Advanced(p, height, policy.timelock) == p)
  {
    DecidedByVoters(p);
  }

  // --- The whole state ------------------------------------------------------------------------------

  ghost predicate IsPaid(proposals: Proposals, id: string) {
    id in proposals && proposals[id].payload.purpose.Spend? && proposals[id].status == EXECUTED
  }

  /** The payments are the executed spends, each once. */
  ghost predicate PaymentsMatch(s: State) {
    && (forall i: nat, j: nat :: i < j < |s.paid| ==> s.paid[i].id != s.paid[j].id)
    && (forall i: nat :: i < |s.paid| ==>
          && IsPaid(s.proposals, s.paid[i].id)
          && s.proposals[s.paid[i].id].payload.purpose == Spend(s.paid[i].recipient, s.paid[i].amount)
          && s.proposals[s.paid[i].id].executedAt == s.paid[i].height)
    && (forall id :: IsPaid(s.proposals, id) ==> exists i: nat :: i < |s.paid| && s.paid[i].id == id)
  }

  ghost predicate AllProposals(policy: Policy, proposals: Proposals) {
    forall id :: id in proposals ==> ProposalInv(policy, proposals[id])
  }

  ghost predicate WithinCap(policy: Policy, proposals: Proposals) {
    forall epoch: nat :: EpochSpent(proposals, epoch) <= policy.maxPerEpoch
  }

  /** Where the policy asks for approvals, every payment had its own. */
  ghost predicate AllApproved(policy: Policy, paid: seq<Payment>) {
    policy.requireApproval ==> forall i: nat :: i < |paid| ==> paid[i].approved
  }

  ghost predicate Inv(policy: Policy, s: State) {
    && AllProposals(policy, s.proposals) && WithinCap(policy, s.proposals)
    && PaymentsMatch(s) && AllApproved(policy, s.paid)
  }

  lemma {:induction false} SpentUpdate(proposals: Proposals, id: string, p: Proposal, epoch: nat)
    ensures EpochSpent(proposals[id := p], epoch) + At(SpentIn(proposals, epoch), id)
      == EpochSpent(proposals, epoch) + if PaidIn(p, epoch) then p.payload.purpose.amount else 0
  {
    var v := if PaidIn(p, epoch) then p.payload.purpose.amount else 0;
    assert SpentIn(proposals[id := p], epoch) == SpentIn(proposals, epoch)[id := v];
    TotalUpdate(SpentIn(proposals, epoch), id, v);
  }

  /** A change to one proposal that is unpaid before and after moves nothing. */
  lemma {:induction false} UnpaidUpdate(policy: Policy, s: State, id: string, p: Proposal)
    requires Inv(policy, s) && ProposalInv(policy, p)
    requires !IsPaid(s.proposals, id) && (p.payload.purpose.Spend? ==> p.status != EXECUTED)
    ensures Inv(policy, s.(proposals := s.proposals[id := p]))
  {
    var t := s.(proposals := s.proposals[id := p]);
    forall epoch: nat ensures EpochSpent(t.proposals, epoch) <= policy.maxPerEpoch {
      SpentUpdate(s.proposals, id, p, epoch);
    }
    forall x | IsPaid(t.proposals, x) ensures exists i: nat :: i < |t.paid| && t.paid[i].id == x {
      assert IsPaid(s.proposals, x);
    }
  }

  lemma {:induction false} AdvanceSpendsNothing(policy: Policy, proposals: Proposals, height: nat, epoch: nat)
    requires AllProposals(policy, proposals)
    ensures EpochSpent(AdvancedAll(proposals, height, policy.timelock), epoch) == EpochSpent(proposals, epoch)
  {
    var after := AdvancedAll(proposals, height, policy.timelock);
    forall id | id in proposals ensures SpentIn(after, epoch)[id] == SpentIn(proposals, epoch)[id] {
      AdvancedInv(policy, proposals[id], height);
    }
    assert SpentIn(after, epoch) == SpentIn(proposals, epoch);
  }

  lemma {:induction false} AdvanceKeeps(policy: Policy, s: State, height: nat)
    requires Inv(policy, s)
    ensures Inv(policy, s.(proposals := AdvancedAll(s.proposals, height, policy.timelock)))
  {
    var after := AdvancedAll(s.proposals, height, policy.timelock);
    forall id | id in s.proposals
      ensures ProposalInv(policy, after[id]) && after[id].payload == s.proposals[id].payload
      ensures IsPaid(after, id) <==> IsPaid(s.proposals, id)
      ensures IsPaid(after, id) ==> after[id] == s.proposals[id]
    {
      AdvancedInv(policy, s.proposals[id], height);
    }
    forall epoch: nat ensures EpochSpent(after, epoch) <= policy.maxPerEpoch {
      AdvanceSpendsNothing(policy, s.proposals, height, epoch);
    }
    assert PaymentsMatch(s.(proposals := after));
  }

  lemma {:induction false} ExecuteWithinCap(policy: Policy, s: State, id: string, approval: Approval, height: nat, p: Proposal)
    requires WithinCap(policy, s.proposals) && Executes(s.proposals, s.accounts, policy, approval, id, height)
    requires p == ExecutedSpend(s.proposals[id], height)
    ensures WithinCap(policy, s.proposals[id := p])
  {
    var after := s.proposals[id := p];
    forall epoch: nat ensures EpochSpent(after, epoch) <= policy.maxPerEpoch {
      SpentUpdate(s.proposals, id, p, epoch);
      TotalRemove(SpentIn(s.proposals, epoch), id);
    }
  }

  lemma {:induction false} ExecuteKeeps(policy: Policy, s: State, id: string, approval: Approval, height: nat)
    requires Inv(policy, s) && Executes(s.proposals, s.accounts, policy, approval, id, height)
    ensures Inv(policy, Apply(policy, s, Execute(id, approval, height)))
  {
    ExecuteWithinCap(policy, s, id, approval, height, ExecutedSpend(s.proposals[id], height));
    ExecutedPaymentsMatch(s, id, Apply(policy, s, Execute(id, approval, height)));
  }

  /** One more executed spend, and one more payment for it. */
  ghost predicate PaysOne(s: State, id: string, t: State) {
    && id in s.proposals && s.proposals[id].status != EXECUTED && s.proposals[id].payload.purpose.Spend?
    && |t.paid| == |s.paid| + 1 && t.paid[..|s.paid|] == s.paid
    && var pay, purpose := t.paid[|s.paid|], s.proposals[id].payload.purpose;
       && pay.id == id && pay.recipient == purpose.recipient && pay.amount == purpose.amount
       && t.proposals == s.proposals[id := ExecutedSpend(s.proposals[id], pay.height)]
  }

  lemma {:induction false} ExecutedPaymentsMatch(s: State, id: string, t: State)
    requires PaymentsMatch(s) && PaysOne(s, id, t)
    ensures PaymentsMatch(t)
  {
    assert !IsPaid(s.proposals, id);
    forall i: nat | i < |s.paid| ensures s.paid[i].id != id && t.paid[i] == s.paid[i] {
      assert IsPaid(s.proposals, s.paid[i].id);
    }
    forall x | IsPaid(t.proposals, x) ensures exists i: nat :: i < |t.paid| && t.paid[i].id == x {
      if x == id {
        assert t.paid[|s.paid|].id == x;
      } else {
        assert IsPaid(s.proposals, x);
        var i: nat :| i < |s.paid| && s.paid[i].id == x;
        assert t.paid[i].id == x;
      }
    }
  }

  lemma {:induction false} ApplyKeeps(policy: Policy, s: State, step: Step)
    requires Inv(policy, s)
    ensures Inv(policy, Apply(policy, s, step))
  {
    match step
    case Submit(id, proposer, payload, height, totalWeight) =>
      if MaySubmit(s.proposals, id, proposer, payload, height, totalWeight) {
        UnpaidUpdate(policy, s, id, Submitted(proposer, payload, height, totalWeight));
      }
    case Vote(id, ballot, height) =>
      if id in s.proposals && MayVote(s.proposals[id], ballot, height) {
        VotedInv(policy, s.proposals[id], ballot, height);
        UnpaidUpdate(policy, s, id, Voted(s.proposals[id], ballot));
      }
    case Advance(height) =>
      AdvanceKeeps(policy, s, height);
    case Execute(id, approval, height) =>
      if Executes(s.proposals, s.accounts, policy, approval, id, height) {
        ExecuteKeeps(policy, s, id, approval, height);
      }
  }

  /** Treasury safety. From an empty executor, after any steps: no proposal is paid twice, every
      payment was approved by one ballot per validator and made no earlier than its timelock,
      within the limit for one proposal, with its own approval where the policy asks for one, and
      no epoch's payments exceed the cap. */
  lemma {:induction false} TreasurySafety(policy: Policy, accounts: Accounts, steps: seq<Step>)
    ensures Inv(policy, Run(policy, State(map[], accounts, []), steps))
  {
    if steps == [] {
      assert forall epoch: nat :: SpentIn(map[], epoch) == map[];
    } else {
      TreasurySafety(policy, accounts, steps[..|steps| - 1]);
      ApplyKeeps(policy, Run(policy, State(map[], accounts, []), steps[..|steps| - 1]), steps[|steps| - 1]);
    }
  }

  // --- Conservation ---------------------------------------------------------------------------------

  ghost function Balances(accounts: Accounts): map<string, nat> {
    map a | a in accounts :: accounts[a].balance
  }

  ghost function Supply(accounts: Accounts): nat {
    Total(Balances(accounts))
  }

  /** The sum of all balances is conserved exactly when the treasury does not pay itself;
      paying itself, it keeps the credit without the debit. */
  lemma {:induction false} SpendConservesIff(accounts: Accounts, recipient: string, amount: nat)
    requires 0 < amount <= Balance(accounts, TREASURY)
    ensures Supply(Paid(accounts, recipient, amount)) == Supply(accounts) <==> recipient != TREASURY
    ensures Supply(Paid(accounts, recipient, amount)) == Supply(accounts) + if recipient == TREASURY then amount else 0
    ensures recipient != TREASURY ==>
      && Balance(Paid(accounts, recipient, amount), TREASURY) == Balance(accounts, TREASURY) - amount
      && Balance(Paid(accounts, recipient, amount), recipient) == Balance(accounts, recipient) + amount
    ensures forall a :: a != TREASURY && a != recipient ==> Balance(Paid(accounts, recipient, amount), a) == Balance(accounts, a)
    ensures forall a :: Nonce(Paid(accounts, recipient, amount), a) == Nonce(accounts, a)
  {
    var w := Balances(accounts);
    var x := w[TREASURY := Balance(accounts, TREASURY) - amount];
    var y := x[recipient := Balance(accounts, recipient) + amount];
    assert Balances(Paid(accounts, recipient, amount)) == y;
    TotalUpdate(w, TREASURY, Balance(accounts, TREASURY) - amount);
    TotalUpdate(x, recipient, Balance(accounts, recipient) + amount);
  }

  function PaidToItself(paid: seq<Payment>): nat {
    if paid == [] then 0
    else PaidToItself(paid[..|paid| - 1]) + if paid[|paid| - 1].recipient == TREASURY then paid[|paid| - 1].amount else 0
  }

  lemma {:induction false} StepSupply(policy: Policy, s: State, step: Step, t: State)
    requires t == Apply(policy, s, step)
    ensures Supply(t.accounts) + PaidToItself(s.paid) == Supply(s.accounts) + PaidToItself(t.paid)
  {
    if step.Execute? && Executes(s.proposals, s.accounts, policy, step.approval, step.id, step.height) {
      var purpose := s.proposals[step.id].payload.purpose;
      SpendConservesIff(s.accounts, purpose.recipient, purpose.amount);
      assert t.paid[..|s.paid|] == s.paid;
    }
  }

  /** Over any run, all balances sum to what they were, plus what the treasury paid itself. */
  lemma {:induction false} SupplyOverRuns(policy: Policy, start: State, steps: seq<Step>)
    requires start.paid == []
    ensures Supply(Run(policy, start, steps).accounts) == Supply(start.accounts) + PaidToItself(Run(policy, start, steps).paid)
  {
    if steps != [] {
      var front := steps[..|steps| - 1];
      SupplyOverRuns(policy, start, front);
      StepSupply(policy, Run(policy, start, front), steps[|steps| - 1], Run(policy, start, steps));
    }
  }
}
