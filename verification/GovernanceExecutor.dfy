/** The governance executor object. A call that the node would abort with an exception returns
    `false`; its caller then discards the state it worked on. */
module GovernanceExecutor {
  import opened Wrappers
  import opened Quorum
  import opened Sums
  import opened Treasury
  import opened TreasuryRuns

  lemma {:induction false} WeightsGrow(ballots: seq<Ballot>, i: nat)
    requires i <= |ballots|
    ensures forall c: Choice :: WeightOf(ballots[..i], c) <= WeightOf(ballots, c)
    decreases |ballots| - i
  {
    if i < |ballots| {
      WeightsGrow(ballots, i + 1);
      assert ballots[..i + 1][..i] == ballots[..i];
    } else {
      assert ballots[..i] == ballots;
    }
  }

  /** Adds up the ballots in 64-bit words; fails exactly when a sum does not fit. */
  method ComputeTally(p: Proposal) returns (ok: bool, quorumMet: bool, approvalMet: bool)
    ensures ok <==> !TallyOverflows(p)
    ensures ok ==> quorumMet == QuorumMet(p) && approvalMet == ApprovalMet(p)
    ensures ok && OneBallotEach(p.ballots) ==> quorumMet == Quorate(p) && approvalMet == ApprovedByVoters(p)
  {
    if OneBallotEach(p.ballots) {
      DecidedByVoters(p);
    }
    var yes, no, abstain := 0, 0, 0;
    ok, quorumMet, approvalMet := false, false, false;
    for i := 0 to |p.ballots|
      invariant yes == WeightOf(p.ballots[..i], YES) <= UINT64_MAX
      invariant no == WeightOf(p.ballots[..i], NO) <= UINT64_MAX
      invariant abstain == WeightOf(p.ballots[..i], ABSTAIN) <= UINT64_MAX
    {
      var ballot := p.ballots[i];
      assert p.ballots[..i + 1][..i] == p.ballots[..i];
      WeightsGrow(p.ballots, i + 1);
      var sum := ballot.weight + match ballot.choice case YES => yes case NO => no case ABSTAIN => abstain;
      assert sum == WeightOf(p.ballots[..i + 1], ballot.choice);
      if sum > UINT64_MAX {
        return;
      }
      match ballot.choice
      case YES => yes := sum;
      case NO => no := sum;
      case ABSTAIN => abstain := sum;
    }
    assert p.ballots[..|p.ballots|] == p.ballots;
    if yes + no > UINT64_MAX || yes + no + abstain > UINT64_MAX {
      return;
    }
    ok := true;
    quorumMet := p.totalWeight > 0
      && (yes + no + abstain) * p.payload.quorumDenominator >= p.totalWeight * p.payload.quorumNumerator;
    approvalMet := yes + no > 0 && yes * p.payload.approvalDenominator >= (yes + no) * p.payload.approvalNumerator;
  }

  /** Closes the voting on one proposal. */
  method FinalizeProposal(p: Proposal, height: nat, timelock: nat) returns (ok: bool, q: Proposal)
    ensures ok <==> !TallyOverflows(p)
    ensures q == if ok then Finalized(p, height, timelock) else p
  {
    var quorumMet, approvalMet;
    ok, quorumMet, approvalMet := ComputeTally(p);
    if !ok {
      return ok, p;
    }
    q := p.(decidedAt := height);
    if !quorumMet {
      q := q.(status := EXPIRED);
    } else if !approvalMet {
      q := q.(status := REJECTED);
    } else if q.payload.purpose.Spend? {
      q := q.(executableAt := (height + timelock) % (UINT64_MAX + 1));
      q := q.(status := QUEUED_FOR_EXECUTION);
    } else {
      q := ExecutedOther(q, height);
    }
  }

  class Executor {
    var proposals: Proposals

    constructor ()
      ensures proposals == map[]
    {
      proposals := map[];
    }

    method SubmitProposal(id: string, proposer: string, payload: Payload, height: nat, totalWeight: nat) returns (ok: bool)
      modifies this
      ensures ok <==> MaySubmit(old(proposals), id, proposer, payload, height, totalWeight)
      ensures proposals == if ok then old(proposals)[id := Submitted(proposer, payload, height, totalWeight)] else old(proposals)
    {
      if id == "" || proposer == "" || height == 0 || totalWeight == 0 {
        return false;
      }
      if id in proposals || !ValidPayload(payload) {
        return false;
      }
      var start := height + payload.startDelay;
      if start > UINT64_MAX || start + (payload.period - 1) > UINT64_MAX {
        return false;
      }
      proposals := proposals[id := Proposal(proposer, payload, height, start, start + (payload.period - 1), totalWeight,
        if height >= start then ACTIVE else PENDING, [], 0, 0, 0)];
      ok := true;
    }

    method CastVote(id: string, ballot: Ballot, height: nat) returns (ok: bool)
      modifies this
      ensures ok <==> id in old(proposals) && MayVote(old(proposals)[id], ballot, height)
      ensures proposals == if ok then old(proposals)[id := Voted(old(proposals)[id], ballot)] else old(proposals)
    {
      if id !in proposals {
        return false;
      }
      var p := proposals[id];
      if p.status != PENDING && p.status != ACTIVE {
        return false;
      }
      if ballot.validator == "" || ballot.weight == 0 || ballot.weight > p.totalWeight || height < p.createdHeight {
        return false;
      }
      if height < p.votingStart || height > p.votingEnd || HasVoted(p, ballot.validator) {
        return false;
      }
      proposals := proposals[id := p.(status := ACTIVE, ballots := p.ballots + [ballot])];
      ok := true;
    }

    /** What a height advance does to one proposal; fails when its tally overflows. */
    method AdvanceOne(id: string, height: nat, timelock: nat) returns (ok: bool)
      requires id in proposals
      modifies this
      ensures ok <==> !TallyFails(old(proposals)[id], height)
      ensures ok ==> proposals == old(proposals)[id := Advanced(old(proposals)[id], height, timelock)]
      ensures !ok ==> proposals == old(proposals)[id := Opened(old(proposals)[id], height)]
    {
      var p := proposals[id];
      ok := true;
      if p.status == PENDING && height >= p.votingStart {
        p := p.(status := ACTIVE);
      }
      if p.status == ACTIVE && height > p.votingEnd {
        ok, p := FinalizeProposal(p, height, timelock);
      } else if p.status == QUEUED_FOR_EXECUTION && p.payload.purpose.Other? && height >= p.payload.purpose.effectiveHeight {
        p := ExecutedOther(p, height);
      }
      proposals := proposals[id := p];
    }

    method AdvanceToHeight(height: nat, timelock: nat) returns (ok: bool)
      modifies this
      ensures ok <==> !AdvanceFails(old(proposals), height)
      ensures ok ==> proposals == AdvancedAll(old(proposals), height, timelock)
      ensures height == 0 ==> proposals == old(proposals)
      ensures proposals.Keys == old(proposals).Keys
      ensures forall id :: id in proposals ==>
        proposals[id] in {old(proposals)[id], Advanced(old(proposals)[id], height, timelock), Opened(old(proposals)[id], height)}
    {
      if height == 0 {
        return false;
      }
      ok := true;
      var rest := proposals.Keys;
      while rest != {}
        invariant rest <= old(proposals).Keys && proposals.Keys == old(proposals).Keys
        invariant forall id :: id in rest ==> proposals[id] == old(proposals)[id]
        invariant forall id :: id in proposals && id !in rest ==>
          && proposals[id] == Advanced(old(proposals)[id], height, timelock)
          && !TallyFails(old(proposals)[id], height)
      {
        var id :| id in rest;
        ok := AdvanceOne(id, height, timelock);
        if !ok {
          return;
        }
        rest := rest - {id};
      }
      ok := true;
    }

    /** The sum of the epoch's executed spends, without one proposal; fails when it does not fit
        a 64-bit amount. */
    method TreasuryEpochSpentSoFar(height: nat, excluded: string) returns (ok: bool, total: nat)
      requires height > 0
      ensures ok <==> Total(EpochSpentOthers(proposals, EpochOf(height), excluded)) <= INT64_MAX
      ensures ok ==> total == Total(EpochSpentOthers(proposals, EpochOf(height), excluded))
    {
      ghost var amounts := EpochSpentOthers(proposals, EpochOf(height), excluded);
      var rest := proposals.Keys - {excluded};
      assert amounts.Keys == rest;
      ok, total := true, 0;
      while rest != {}
        invariant ok && rest <= amounts.Keys
        invariant total + Weight(amounts, rest) == Total(amounts)
        invariant total <= INT64_MAX
      {
        var id :| id in rest;
        WeightPeel(amounts, rest, id);
        rest := rest - {id};
        if PaidIn(proposals[id], EpochOf(height)) {
          total := total + proposals[id].payload.purpose.amount;
          if total > INT64_MAX {
            return false, total;
          }
        }
      }
    }

    /** Moves the funds of one queued spend, or changes nothing. */
    method ExecuteQueuedTreasuryProposal(id: string, height: nat, policy: Policy, approval: Approval, accounts: Accounts)
      returns (ok: bool, accounts': Accounts)
      modifies this
      ensures ok <==> Executes(old(proposals), accounts, policy, approval, id, height)
      ensures
        var s := State(old(proposals), accounts, []);
        var t := Apply(policy, s, Execute(id, approval, height));
        proposals == t.proposals && accounts' == t.accounts
    {
      ok, accounts' := false, accounts;
      if height == 0 || !Ready(proposals, id, height) {
        return;
      }
      var p := proposals[id];
      var amount := p.payload.purpose.amount;
      var fits, spent := TreasuryEpochSpentSoFar(height, id);
      if !fits {
        return;
      }
      var treasury := Balance(accounts, TREASURY);
      if ValidateSpend(policy, approval, id, p, treasury, height, spent) != ACCEPTED {
        return;
      }
      var recipient := p.payload.purpose.recipient;
      var credit := Account(Balance(accounts, recipient) + amount, Nonce(accounts, recipient));
      if credit.balance > INT64_MAX {
        return;
      }
      accounts' := accounts[TREASURY := Account(treasury - amount, Nonce(accounts, TREASURY))];
      accounts' := accounts'[recipient := credit];
      proposals := proposals[id := p.(status := EXECUTED, executedAt := height)];
      ok := true;
    }
  }
}
