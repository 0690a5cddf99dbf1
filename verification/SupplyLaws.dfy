/** What gets into the ledger, exactly: creation records, transfers in nonce order, and locks that
    hold until their block and no longer. */
module SupplyLaws {
  import opened Wrappers
  import opened Quorum
  import opened Sums
  import opened CoinLots
  import opened CoinLotRegistry
  import opened SupplyRuns

  // --- Creation ---------------------------------------------------------------------------------------

  /** A creation record is accepted exactly when it is complete and new and its lot id is free. Its
      recipient's balance then grows by its amount, and no one else's changes. */
  lemma {:induction false} CreationIff(s: State, r: Creation, owner: string, t: State)
    requires t == Apply(s, Create(r))
    ensures
      if (&& r.id != "" && r.recipient != "" && 0 < r.amount <= INT64_MAX && LotId(r) !in s.lots
          && forall i: nat :: i < |s.records| ==> s.records[i].origin != r.origin || s.records[i].id != r.id)
      then
        && t.records == s.records + [r] && Spendable(t.lots, LotId(r), r.recipient)
        && BalanceOf(t.lots, owner) == BalanceOf(s.lots, owner) + if owner == r.recipient then r.amount else 0
      else t == s
  {
    if Creates(s, r) {
      LiveSumUpdate(s.lots, LotId(r), NewLot(r, s.block), Some(owner));
    }
  }

  // --- Nonces -----------------------------------------------------------------------------------------

  ghost predicate SendsAt(steps: seq<Step>, i: nat, sender: string) {
    MovesAt(steps, i) && steps[i].transfer.from == sender
  }

  /** How many of the first `n` steps were transfers of this sender that were applied. */
  ghost function Sent(steps: seq<Step>, n: nat, sender: string): nat
    requires n <= |steps|
  {
    if n == 0 then 0
    else Sent(steps, n - 1, sender) + if SendsAt(steps, n - 1, sender) then 1 else 0
  }

  lemma SendsAtPrefix(steps: seq<Step>, m: nat, i: nat, sender: string)
    requires i < m <= |steps|
    ensures SendsAt(steps[..m], i, sender) <==> SendsAt(steps, i, sender)
  {
    assert steps[..m][..i] == steps[..i] && steps[..m][i] == steps[i];
  }

  lemma {:induction false} SentPrefix(steps: seq<Step>, m: nat, n: nat, sender: string)
    requires n <= m <= |steps|
    ensures Sent(steps[..m], n, sender) == Sent(steps, n, sender)
  {
    if n > 0 {
      SentPrefix(steps, m, n - 1, sender);
      SendsAtPrefix(steps, m, n - 1, sender);
    }
  }

  /** Every account's next nonce is one more than the number of its transfers so far. */
  lemma {:induction false} NonceCounts(steps: seq<Step>, sender: string)
    ensures sender in Run(steps).nonces ==> Run(steps).nonces[sender] == 1 + Sent(steps, |steps|, sender)
    ensures sender !in Run(steps).nonces ==> Sent(steps, |steps|, sender) == 0
  {
    if steps != [] {
      var n := |steps| - 1;
      var front := steps[..n];
      NonceCounts(front, sender);
      SentPrefix(steps, n, n, sender);
      NonceStep(Run(front), steps[n], sender);
    }
  }

  lemma {:induction false} NonceStep(s: State, step: Step, sender: string)
    ensures
      var t := Apply(s, step);
      if step.Move? && Moves(s, step.transfer, step.plan) && step.transfer.from == sender
      then sender in s.nonces && sender in t.nonces && t.nonces[sender] == s.nonces[sender] + 1
      else
        && (sender in s.nonces ==> sender in t.nonces && t.nonces[sender] == s.nonces[sender])
        && (sender in t.nonces && sender !in s.nonces ==> t.nonces[sender] == 1)
  {
  }

  /** In every run the transfers of one sender are applied in the order of their nonces, without
      gaps: an applied transfer's nonce counts its sender's transfers before it. */
  lemma {:induction false} NoncesConsecutive(steps: seq<Step>, i: nat)
    requires MovesAt(steps, i)
    ensures steps[i].transfer.nonce == 1 + Sent(steps, i, steps[i].transfer.from)
  {
    NonceCounts(steps[..i], steps[i].transfer.from);
    SentPrefix(steps, i, i, steps[i].transfer.from);
  }

  /** A transfer with a valid plan is applied exactly when it is new, complete, and has its
      sender's next nonce. */
  lemma TransferAppliesIff(steps: seq<Step>, s: State, x: Transfer, plan: Plan, t: State)
    requires s == Run(steps) && t == Apply(s, Move(x, plan))
    ensures
      if (&& x.id !in s.applied && x.from in s.nonces && x.nonce == 1 + Sent(steps, |steps|, x.from) < UINT64_MAX
          && ValidPlan(s.lots, x, plan))
      then t.lots == Applied(s.lots, x, plan, s.block) && t.applied == s.applied + [x.id] && t.records == s.records
      else t == s
  {
    NonceCounts(steps, x.from);
    SupplyConserved(steps);
  }

  // --- Locks --------------------------------------------------------------------------------------------

  ghost function RunFrom(s: State, steps: seq<Step>): State {
    if steps == [] then s else Apply(RunFrom(s, steps[..|steps| - 1]), steps[|steps| - 1])
  }

  /** A lot is locked exactly when it is available and the lock ends after its creation. */
  lemma LocksIff(s: State, id: string, until: nat)
    ensures
      var t := Apply(s, Lock(id, until));
      if id in s.lots && s.lots[id].owner != "" && s.lots[id].status == AVAILABLE && s.lots[id].createdAt < until
      then
        && t.lots == s.lots[id := s.lots[id].(status := LOCKED_FOR_SECURITY, lockedUntil := until)]
        && forall owner :: !Spendable(t.lots, id, owner)
      else t == s
  {
  }

  /** One step leaves a locked lot alone, except the block advance that its lock ends at. */
  lemma {:induction false} LockedStep(s: State, step: Step, id: string)
    requires id in s.lots && s.lots[id].status == LOCKED_FOR_SECURITY
    ensures
      var t := Apply(s, step);
      && id in t.lots && t.block == (if step.AdvanceBlock? then s.block + 1 else s.block)
      && t.lots[id] ==
         if step.AdvanceBlock? && s.lots[id].lockedUntil <= s.block + 1
         then s.lots[id].(status := AVAILABLE, lockedUntil := 0) else s.lots[id]
  {
    if step.Move? && Moves(s, step.transfer, step.plan) {
      TransferKeepsLots(s.lots, step.transfer, step.plan, s.block, id);
      LockedIsNoInput(s, step.transfer, step.plan, id);
    }
  }

  lemma LockedIsNoInput(s: State, t: Transfer, plan: Plan, id: string)
    requires Moves(s, t, plan) && id in s.lots && s.lots[id].status == LOCKED_FOR_SECURITY
    ensures id !in plan.inputs
  {
  }

  /** The first block at which a lot that is locked now can be spent again: where its lock ends,
      but no earlier than the next block. */
  function FreeFrom(block: nat, until: nat): nat {
    if until <= block then block + 1 else until
  }

  /** Whatever happens, a locked lot stays locked at every block before that one. */
  lemma {:induction false} LockedUntilThen(s: State, steps: seq<Step>, id: string, t: State)
    requires id in s.lots && s.lots[id].status == LOCKED_FOR_SECURITY && t == RunFrom(s, steps)
    ensures s.block <= t.block
    ensures t.block < FreeFrom(s.block, s.lots[id].lockedUntil) ==> id in t.lots && t.lots[id] == s.lots[id]
  {
    if steps != [] {
      var front, last := steps[..|steps| - 1], steps[|steps| - 1];
      var u := RunFrom(s, front);
      LockedUntilThen(s, front, id, u);
      if u.block < FreeFrom(s.block, s.lots[id].lockedUntil) {
        LockedStep(u, last, id);
      }
    }
  }

  /** And the block advance that reaches it makes the lot spendable for its owner again. */
  lemma {:induction false} SpendableFromThen(s: State, steps: seq<Step>, id: string, t: State)
    requires id in s.lots && s.lots[id].status == LOCKED_FOR_SECURITY && t == RunFrom(s, steps)
    requires t.block + 1 == FreeFrom(s.block, s.lots[id].lockedUntil) && s.lots[id].owner != ""
    ensures Spendable(Apply(t, AdvanceBlock).lots, id, s.lots[id].owner)
    ensures Apply(t, AdvanceBlock).lots[id].amount == s.lots[id].amount
  {
    LockedUntilThen(s, steps, id, t);
    LockedStep(t, AdvanceBlock, id);
  }

  // --- Covering a transfer --------------------------------------------------------------------------------

  /** What each lot adds to what an owner can spend. */
  function AvailableAmounts(lots: Lots, owner: string): map<string, nat> {
    map id | id in lots :: if lots[id].owner == owner && lots[id].status == AVAILABLE then lots[id].amount else 0
  }

  lemma {:induction false} SpendableSum(lots: Lots, order: seq<string>, owner: string)
    requires Distinct(order) && owner != ""
    ensures AmountOf(lots, SpendableIn(lots, order, owner)) == Weight(AvailableAmounts(lots, owner), set id | id in order)
  {
    if order == [] {
      assert (set id | id in order) == {};
    } else {
      var front, last := order[..|order| - 1], order[|order| - 1];
      SpendableSum(lots, front, owner);
      var ids := set id | id in order;
      assert order == front + [last] && last !in front;
      assert ids - {last} == set id | id in front;
      WeightPeel(AvailableAmounts(lots, owner), ids, last);
      if Spendable(lots, last, owner) {
        AmountAppend(lots, SpendableIn(lots, front, owner), last);
      }
    }
  }

  /** A sender whose available lots together cover the amount and the fee can always pay: the
      planner, which walks all lots in any order, finds inputs. */
  lemma {:induction false} AvailableCovers(lots: Lots, order: seq<string>, t: Transfer)
    requires Distinct(order) && lots.Keys == (set id | id in order) && t.from != "" && t.explicit == []
    ensures Coverable(lots, order, t) <==>
      t.amount + t.fee <= Total(AvailableAmounts(lots, t.from)) <= INT64_MAX
  {
    SpendableSum(lots, order, t.from);
    assert AvailableAmounts(lots, t.from).Keys == lots.Keys;
  }

  // --- The audit --------------------------------------------------------------------------------------------

  /** The audit notices any change to one part of an auditable state: another supply, one record
      more, a lot with another live amount, a bad record, account or lot. */
  lemma {:induction false} TamperingIsNoticed(s: State, supply: nat, r: Creation, id: string, lot: Lot, address: string)
    requires Auditable(s)
    ensures supply != s.supply ==> !Auditable(s.(supply := supply))
    ensures r.amount > 0 || r.id == "" || r.recipient == "" ==> !Auditable(s.(records := s.records + [r]))
    ensures LiveAmount(lot, None) != (if id in s.lots then LiveAmount(s.lots[id], None) else 0) ==>
      !Auditable(s.(lots := s.lots[id := lot]))
    ensures id == "" || lot.owner == "" || lot.origin == "" || lot.amount == 0 ==> !Auditable(s.(lots := s.lots[id := lot]))
    ensures !Auditable(s.(nonces := s.nonces[address := 0]))
    ensures !Auditable(s.(nonces := s.nonces["" := 1]))
  {
    CreatedSumAppend(s.records, r);
    LiveSumUpdate(s.lots, id, lot, None);
    var more := s.records + [r];
    assert more[|s.records|] == r;
    var nonces := s.nonces[address := 0];
    assert address in nonces && nonces[address] == 0;
    assert "" in s.nonces["" := 1];
    var lots := s.lots[id := lot];
    assert id in lots && lots[id] == lot;
  }
}
