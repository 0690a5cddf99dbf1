/** The ledger state over whole runs of mints, rewards, transfers, locks and block advances:
    live lots always sum to all accepted creation records, and spent lots stay spent. */
module SupplyRuns {
  import opened Wrappers
  import opened Quorum
  import opened Sums
  import opened CoinLots
  import opened CoinLotRegistry

  datatype Origin = MINT | GENESIS_REWARD

  datatype Creation = Creation(origin: Origin, id: string, recipient: string, amount: nat)

  /** `nonces` holds the next nonce of every known account. */
  datatype State = State(
    lots: Lots, records: seq<Creation>, supply: nat, block: nat, nonces: map<string, nat>, applied: seq<string>)

  const GENESIS := State(map[], [], 0, 0, map[], [])

  datatype Step =
    | Create(record: Creation)
    | Move(transfer: Transfer, plan: Plan)
    | Lock(id: string, until: nat)
    | AdvanceBlock

  function LotId(r: Creation): string {
    (match r.origin case MINT => "coinlot_from_" case GENESIS_REWARD => "reward_lot_") + r.id
  }

  predicate ValidRecord(r: Creation) {
    r.id != "" && r.recipient != "" && 0 < r.amount <= INT64_MAX
  }

  predicate Known(records: seq<Creation>, r: Creation) {
    exists i: nat :: i < |records| && records[i].origin == r.origin && records[i].id == r.id
  }

  function NewLot(r: Creation, block: nat): Lot {
    Lot(r.id, r.recipient, r.amount, AVAILABLE, block, 0)
  }

  function WithAccount(nonces: map<string, nat>, address: string): map<string, nat> {
    if address in nonces then nonces else nonces[address := 1]
  }

  predicate Creates(s: State, r: Creation) {
    ValidRecord(r) && !Known(s.records, r) && LotId(r) !in s.lots
  }

  /** The lot and the record are stored before the supply is added up; an addition that
      overflows aborts there, with the supply left as it was. */
  function Created(s: State, r: Creation): State {
    s.(lots := s.lots[LotId(r) := NewLot(r, s.block)],
       records := s.records + [r],
       nonces := WithAccount(s.nonces, r.recipient),
       supply := if s.supply + r.amount <= INT64_MAX then s.supply + r.amount else s.supply)
  }

  ghost predicate Moves(s: State, t: Transfer, plan: Plan) {
    && WellFormed(t) && t.id !in s.applied
    && t.from in s.nonces && s.nonces[t.from] == t.nonce < UINT64_MAX
    && ValidLots(s.lots) && ValidPlan(s.lots, t, plan)
  }

  function MovedNonces(nonces: map<string, nat>, t: Transfer): map<string, nat> {
    var known := WithAccount(nonces, t.to);
    (if t.fee > 0 then WithAccount(known, FEE_POOL) else known)[t.from := t.nonce + 1]
  }

  function MaturedAll(lots: Lots, block: nat): Lots {
    map id | id in lots :: Matured(lots[id], block)
  }

  predicate Locks(s: State, id: string, until: nat) {
    id in s.lots && s.lots[id].owner != "" && s.lots[id].status == AVAILABLE && s.lots[id].createdAt < until
  }

  function NextBlock(s: State): State {
    s.(block := s.block + 1, lots := MaturedAll(s.lots, s.block + 1))
  }

  ghost function Apply(s: State, step: Step): State {
    match step
    case Create(r) => if Creates(s, r) then Created(s, r) else s
    case Move(t, plan) =>
      if Moves(s, t, plan)
      then s.(lots := Applied(s.lots, t, plan, s.block), nonces := MovedNonces(s.nonces, t), applied := s.applied + [t.id])
      else s
    case Lock(id, until) =>
      if Locks(s, id, until)
      then s.(lots := s.lots[id := s.lots[id].(status := LOCKED_FOR_SECURITY, lockedUntil := until)])
      else s
    case AdvanceBlock => NextBlock(s)
  }

  ghost function Run(steps: seq<Step>): State {
    if steps == [] then GENESIS else Apply(Run(steps[..|steps| - 1]), steps[|steps| - 1])
  }

  // --- Conservation -----------------------------------------------------------------------------------

  function CreatedSum(records: seq<Creation>): nat {
    if records == [] then 0 else CreatedSum(records[..|records| - 1]) + records[|records| - 1].amount
  }

  predicate ValidRecords(records: seq<Creation>) {
    forall i: nat :: i < |records| ==> ValidRecord(records[i])
  }

  predicate ValidAccounts(nonces: map<string, nat>) {
    forall a :: a in nonces ==> a != "" && nonces[a] != 0
  }

  ghost predicate Inv(s: State) {
    && ValidLots(s.lots) && ValidRecords(s.records) && ValidAccounts(s.nonces)
    && LiveSum(s.lots) == CreatedSum(s.records)
    && s.supply <= INT64_MAX
    && (CreatedSum(s.records) <= INT64_MAX ==> s.supply == CreatedSum(s.records))
    && Distinct(s.applied)
  }

  lemma {:induction false} CreatedSumAppend(records: seq<Creation>, r: Creation)
    ensures CreatedSum(records + [r]) == CreatedSum(records) + r.amount
  {
    assert (records + [r])[..|records|] == records;
  }

  lemma {:induction false} CreateKeeps(s: State, r: Creation)
    requires Inv(s)
    ensures Inv(Apply(s, Create(r)))
  {
    if Creates(s, r) {
      LiveSumUpdate(s.lots, LotId(r), NewLot(r, s.block), None);
      CreatedSumAppend(s.records, r);
    }
  }

  lemma {:induction false} MoveKeepsValid(s: State, t: Transfer, plan: Plan)
    requires Inv(s) && Moves(s, t, plan)
    ensures ValidLots(Applied(s.lots, t, plan, s.block))
  {
    var after := Applied(s.lots, t, plan, s.block);
    forall id | id in after ensures id != "" && ValidLot(after[id]) {
      if id in s.lots {
        TransferKeepsLots(s.lots, t, plan, s.block, id);
      } else {
        TransferCreates(s.lots, t, plan, s.block, id);
      }
    }
  }

  lemma {:induction false} AdvanceKeeps(lots: Lots, block: nat)
    requires ValidLots(lots)
    ensures ValidLots(MaturedAll(lots, block)) && LiveSum(MaturedAll(lots, block)) == LiveSum(lots)
  {
    assert LiveAmounts(MaturedAll(lots, block), None) == LiveAmounts(lots, None);
  }

  lemma {:induction false} MoveKeeps(s: State, t: Transfer, plan: Plan)
    requires Inv(s)
    ensures Inv(Apply(s, Move(t, plan)))
  {
    if Moves(s, t, plan) {
      MoveKeepsValid(s, t, plan);
      TransferConserves(s.lots, t, plan, s.block);
      forall i: nat | i < |s.applied| ensures s.applied[i] != t.id {
        assert s.applied[i] in s.applied;
      }
    }
  }

  lemma {:induction false} LockKeeps(s: State, id: string, until: nat)
    requires Inv(s)
    ensures Inv(Apply(s, Lock(id, until)))
  {
    if Locks(s, id, until) {
      LiveSumUpdate(s.lots, id, s.lots[id].(status := LOCKED_FOR_SECURITY, lockedUntil := until), None);
    }
  }

  lemma {:induction false} NextBlockFacts(s: State, t: State)
    requires ValidLots(s.lots) && t == NextBlock(s)
    ensures ValidLots(t.lots) && LiveSum(t.lots) == LiveSum(s.lots)
    ensures t.records == s.records && t.supply == s.supply && t.applied == s.applied && t.nonces == s.nonces
  {
    AdvanceKeeps(s.lots, s.block + 1);
  }

  lemma {:induction false} NextBlockKeeps(s: State, t: State)
    requires Inv(s) && t == NextBlock(s)
    ensures Inv(t)
  {
    NextBlockFacts(s, t);
    SameSumKeeps(s, t);
  }

  lemma {:induction false} SameSumKeeps(s: State, t: State)
    requires Inv(s) && ValidLots(t.lots) && LiveSum(t.lots) == LiveSum(s.lots)
    requires t.records == s.records && t.supply == s.supply && t.applied == s.applied && t.nonces == s.nonces
    ensures Inv(t)
  {
  }

  lemma {:induction false} ApplyKeeps(s: State, step: Step)
    requires Inv(s)
    ensures Inv(Apply(s, step))
  {
    match step
    case Create(r) => CreateKeeps(s, r);
    case Move(t, plan) => MoveKeeps(s, t, plan);
    case Lock(id, until) => LockKeeps(s, id, until);
    case AdvanceBlock => NextBlockKeeps(s, NextBlock(s));
  }

  /** After every run the live lots sum to all accepted creation records. */
  lemma {:induction false} SupplyConserved(steps: seq<Step>)
    ensures Inv(Run(steps))
    ensures LiveSum(Run(steps).lots) == CreatedSum(Run(steps).records)
  {
    if steps == [] {
      assert LiveAmounts(map[], None) == map[];
    } else {
      SupplyConserved(steps[..|steps| - 1]);
      ApplyKeeps(Run(steps[..|steps| - 1]), steps[|steps| - 1]);
    }
  }

  /** The audit: every record, account and lot is valid, the created sum fits, is the recorded
      supply, and is what the live lots hold. */
  ghost predicate Auditable(s: State) {
    && ValidRecords(s.records) && CreatedSum(s.records) <= INT64_MAX
    && CreatedSum(s.records) == s.supply
    && ValidAccounts(s.nonces) && ValidLots(s.lots)
    && LiveSum(s.lots) == s.supply
  }

  /** An accepted creation record whose amount no longer fits on top of the supply. It is stored
      before the addition fails. */
  ghost predicate Overflows(s: State, step: Step) {
    step.Create? && Creates(s, step.record) && s.supply + step.record.amount > INT64_MAX
  }

  lemma {:induction false} AuditableStep(s: State, step: Step)
    requires Inv(s)
    ensures Auditable(Apply(s, step)) <==> Auditable(s) && !Overflows(s, step)
  {
    ApplyKeeps(s, step);
    if step.Create? {
      CreatedSumAppend(s.records, step.record);
    }
  }

  ghost predicate OverflowsAt(steps: seq<Step>, i: nat) {
    i < |steps| && Overflows(Run(steps[..i]), steps[i])
  }

  /** A run passes the audit exactly while no accepted record has overflowed the supply, so once
      one has, no later state passes. */
  lemma {:induction false} AuditableIff(steps: seq<Step>)
    ensures Auditable(Run(steps)) <==> forall i: nat :: !OverflowsAt(steps, i)
  {
    SupplyConserved(steps);
    if steps != [] {
      var front, n := steps[..|steps| - 1], |steps| - 1;
      AuditableIff(front);
      SupplyConserved(front);
      AuditableStep(Run(front), steps[n]);
      forall i: nat ensures OverflowsAt(steps, i) <==> OverflowsAt(front, i) || (i == n && Overflows(Run(front), steps[n])) {
        if i < n {
          assert front[..i] == steps[..i];
        }
      }
      assert Overflows(Run(front), steps[n]) <==> OverflowsAt(steps, n) && !OverflowsAt(front, n);
    }
  }

  lemma {:induction false} NeverAuditableAgain(steps: seq<Step>, more: seq<Step>)
    requires !Auditable(Run(steps))
    ensures !Auditable(Run(steps + more))
  {
    AuditableIff(steps);
    AuditableIff(steps + more);
    var i: nat :| OverflowsAt(steps, i);
    assert (steps + more)[..i] == steps[..i];
    assert OverflowsAt(steps + more, i);
  }

  /** A failing run: the largest amount, then any further record. */
  lemma {:induction false} OverflowReachable(first: Creation, second: Creation, s: State)
    requires ValidRecord(first) && ValidRecord(second) && first.amount == INT64_MAX
    requires first.origin == second.origin && first.id != second.id
    requires s == Run([Create(first), Create(second)])
    ensures !Auditable(s) && s.records == [first, second]
    ensures s.supply == INT64_MAX < LiveSum(s.lots)
  {
    var steps := [Create(first), Create(second)];
    SupplyConserved(steps);
    var one := Created(GENESIS, first);
    assert steps[..1] == [Create(first)] && [Create(first)][..0] == [];
    assert Run(steps[..1]) == one && one.records == [first] && one.lots == map[LotId(first) := NewLot(first, 0)];
    LotIdsDiffer(first, second);
    assert Creates(one, second) && s == Created(one, second);
    CreatedSumAppend([], first);
    CreatedSumAppend([first], second);
    assert [] + [first] == [first] && [first] + [second] == [first, second];
  }

  lemma LotIdsDiffer(a: Creation, b: Creation)
    requires a.origin == b.origin && a.id != b.id
    ensures LotId(a) != LotId(b)
  {
    var n := if a.origin.MINT? then |"coinlot_from_"| else |"reward_lot_"|;
    assert LotId(a)[n..] == a.id && LotId(b)[n..] == b.id;
  }

  // --- Spent lots -------------------------------------------------------------------------------------

  /** A lot never disappears or changes owner, amount or origin, and never leaves SPENT. */
  ghost predicate Endures(before: Lots, after: Lots, id: string) {
    id in before ==>
      && id in after
      && after[id].owner == before[id].owner && after[id].amount == before[id].amount && after[id].origin == before[id].origin
      && (before[id].status == SPENT ==> after[id].status == SPENT)
  }

  lemma {:induction false} ApplyEndures(s: State, step: Step, id: string)
    ensures Endures(s.lots, Apply(s, step).lots, id)
  {
    if step.Move? && Moves(s, step.transfer, step.plan) && id in s.lots {
      TransferKeepsLots(s.lots, step.transfer, step.plan, s.block, id);
    }
  }

  lemma {:induction false} LotsEndure(steps: seq<Step>, i: nat, id: string)
    requires i <= |steps|
    ensures Endures(Run(steps[..i]).lots, Run(steps).lots, id)
    decreases |steps|
  {
    if i == |steps| {
      assert steps[..i] == steps;
    } else {
      var front := steps[..|steps| - 1];
      assert front[..i] == steps[..i];
      LotsEndure(front, i, id);
      ApplyEndures(Run(front), steps[|steps| - 1], id);
    }
  }

  /** Transfer number `i` of a run is applied, with these inputs. */
  ghost predicate MovesAt(steps: seq<Step>, i: nat) {
    i < |steps| && steps[i].Move? && Moves(Run(steps[..i]), steps[i].transfer, steps[i].plan)
  }

  /** No lot is ever spent twice: two applied transfers of a run share no input, and have
      different transaction ids. */
  lemma {:induction false} NoDoubleSpend(steps: seq<Step>, i: nat, j: nat, id: string)
    requires i < j && MovesAt(steps, i) && MovesAt(steps, j)
    ensures id in steps[i].plan.inputs ==> id !in steps[j].plan.inputs
    ensures steps[i].transfer.id != steps[j].transfer.id
  {
    var s := Run(steps[..i]);
    var t, plan := steps[i].transfer, steps[i].plan;
    assert steps[..i + 1][..i] == steps[..i];
    assert steps[..j][..i + 1] == steps[..i + 1];
    if id in plan.inputs {
      var k: nat :| k < |plan.inputs| && plan.inputs[k] == id;
      assert Spendable(s.lots, plan.inputs[k], t.from);
      TransferKeepsLots(s.lots, t, plan, s.block, id);
      LotsEndure(steps[..j], i + 1, id);
      SpentIsNoInput(Run(steps[..j]), steps[j].transfer, steps[j].plan, id);
    }
    AppliedGrow(steps[..j], i + 1, t.id);
  }

  lemma {:induction false} SpentIsNoInput(s: State, t: Transfer, plan: Plan, id: string)
    requires Moves(s, t, plan) && id in s.lots && s.lots[id].status == SPENT
    ensures id !in plan.inputs
  {
  }

  lemma {:induction false} AppliedGrow(steps: seq<Step>, i: nat, id: string)
    requires i <= |steps| && id in Run(steps[..i]).applied
    ensures id in Run(steps).applied
    decreases |steps|
  {
    if i == |steps| {
      assert steps[..i] == steps;
    } else {
      var front := steps[..|steps| - 1];
      assert front[..i] == steps[..i];
      AppliedGrow(front, i, id);
    }
  }

  // --- The audit's loop -------------------------------------------------------------------------------

  /** Adds up the live lots as 64-bit amounts; fails when the sum does not fit. */
  method SumLiveLots(lots: Lots) returns (ok: bool, total: nat)
    ensures ok <==> LiveSum(lots) <= INT64_MAX
    ensures ok ==> total == LiveSum(lots)
  {
    var amounts := LiveAmounts(lots, None);
    var rest := lots.Keys;
    assert amounts.Keys == rest;
    ok, total := true, 0;
    while rest != {}
      invariant rest <= lots.Keys && total + Weight(amounts, rest) == Total(amounts)
      invariant ok && total <= INT64_MAX
    {
      var id :| id in rest;
      WeightPeel(amounts, rest, id);
      rest := rest - {id};
      if lots[id].status == AVAILABLE || lots[id].status == LOCKED_FOR_SECURITY {
        total := total + lots[id].amount;
        if total > INT64_MAX {
          return false, total;
        }
      }
    }
  }

  method IsSupplyAuditable(s: State) returns (ok: bool)
    ensures ok <==> Auditable(s)
  {
    var created := 0;
    for i := 0 to |s.records|
      invariant created == CreatedSum(s.records[..i]) <= INT64_MAX && ValidRecords(s.records[..i])
    {
      if !ValidRecord(s.records[i]) {
        return false;
      }
      assert s.records[..i + 1][..i] == s.records[..i];
      created := created + s.records[i].amount;
      if created > INT64_MAX {
        CreatedGrows(s.records, i + 1);
        return false;
      }
    }
    assert s.records[..|s.records|] == s.records;
    if created != s.supply || !ValidAccounts(s.nonces) || !ValidLots(s.lots) {
      return false;
    }
    var fits, live := SumLiveLots(s.lots);
    ok := fits && live == s.supply;
  }

  lemma {:induction false} CreatedGrows(records: seq<Creation>, n: nat)
    requires n <= |records|
    ensures CreatedSum(records[..n]) <= CreatedSum(records)
    decreases |records|
  {
    if n < |records| {
      assert records[..|records| - 1][..n] == records[..n];
      CreatedGrows(records[..|records| - 1], n);
    } else {
      assert records[..n] == records;
    }
  }
}
