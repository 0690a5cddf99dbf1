/** Coin lots and transfers between them: what a transfer spends and creates, and how the sum of
    live lots moves. */
module CoinLots {
  import opened Wrappers
  import opened Quorum
  import opened Sums
  import opened Text

  const FEE_POOL := "nodo_fee_pool"

  datatype LotStatus = AVAILABLE | LOCKED_FOR_SECURITY | SPENT | SLASHED

  datatype Lot = Lot(origin: string, owner: string, amount: nat, status: LotStatus, createdAt: nat, lockedUntil: nat)

  /** The registry: lots by id. */
  type Lots = map<string, Lot>

  predicate ValidLot(lot: Lot) {
    && lot.origin != "" && lot.owner != "" && 0 < lot.amount <= INT64_MAX
    && (lot.status == LOCKED_FOR_SECURITY ==> lot.createdAt < lot.lockedUntil)
  }

  predicate ValidLots(lots: Lots) {
    forall id :: id in lots ==> id != "" && ValidLot(lots[id])
  }

  predicate Live(lot: Lot) {
    lot.status == AVAILABLE || lot.status == LOCKED_FOR_SECURITY
  }

  predicate Spendable(lots: Lots, id: string, owner: string) {
    id in lots && owner != "" && lots[id].owner == owner && lots[id].status == AVAILABLE
  }

  function Spent(lot: Lot): Lot {
    lot.(status := SPENT, lockedUntil := 0)
  }

  function Matured(lot: Lot, block: nat): Lot {
    if lot.status == LOCKED_FOR_SECURITY && block >= lot.lockedUntil
    then lot.(status := AVAILABLE, lockedUntil := 0) else lot
  }

  // --- The live sum ---------------------------------------------------------------------------------

  /** What a lot adds to a balance: of one owner, or of everybody. */
  function LiveAmount(lot: Lot, owner: Option<string>): nat {
    if Live(lot) && (owner.None? || owner.value == lot.owner) then lot.amount else 0
  }

  function LiveAmounts(lots: Lots, owner: Option<string>): map<string, nat> {
    map id | id in lots :: LiveAmount(lots[id], owner)
  }

  ghost function LiveSumOf(lots: Lots, owner: Option<string>): nat {
    Total(LiveAmounts(lots, owner))
  }

  /** All live lots. */
  ghost function LiveSum(lots: Lots): nat {
    LiveSumOf(lots, None)
  }

  ghost function BalanceOf(lots: Lots, owner: string): nat {
    LiveSumOf(lots, Some(owner))
  }

  lemma {:induction false} LiveSumUpdate(lots: Lots, id: string, lot: Lot, owner: Option<string>)
    ensures LiveSumOf(lots[id := lot], owner) + (if id in lots then LiveAmount(lots[id], owner) else 0)
      == LiveSumOf(lots, owner) + LiveAmount(lot, owner)
  {
    assert LiveAmounts(lots[id := lot], owner) == LiveAmounts(lots, owner)[id := LiveAmount(lot, owner)];
    TotalUpdate(LiveAmounts(lots, owner), id, LiveAmount(lot, owner));
  }

  // --- Allocating inputs to outputs -----------------------------------------------------------------

  datatype Kind = RECIPIENT | FEE | CHANGE

  datatype Output = Output(id: string, kind: Kind, input: string, amount: nat)

  datatype Input = Input(id: string, amount: nat)

  function Min(a: nat, b: nat): nat {
    if a <= b then a else b
  }

  function KindName(kind: Kind): string {
    match kind case RECIPIENT => "recipient" case FEE => "fee" case CHANGE => "change"
  }

  function OutputId(tx: string, input: string, kind: Kind, index: nat): string {
    "coinlot_from_tx_" + tx + "_input_" + input + "_" + KindName(kind) + "_" + Decimal(index)
  }

  function InputSum(inputs: seq<Input>): nat {
    if inputs == [] then 0 else InputSum(inputs[..|inputs| - 1]) + inputs[|inputs| - 1].amount
  }

  function OutputSum(outputs: seq<Output>): nat {
    if outputs == [] then 0 else OutputSum(outputs[..|outputs| - 1]) + outputs[|outputs| - 1].amount
  }

  function SumOf(outputs: seq<Output>, kind: Kind): nat {
    if outputs == [] then 0
    else
      var last := outputs[|outputs| - 1];
      SumOf(outputs[..|outputs| - 1], kind) + if last.kind == kind then last.amount else 0
  }

  lemma {:induction false} OutputAppend(outputs: seq<Output>, output: Output)
    ensures OutputSum(outputs + [output]) == OutputSum(outputs) + output.amount
    ensures forall kind: Kind ::
      SumOf(outputs + [output], kind) == SumOf(outputs, kind) + if output.kind == kind then output.amount else 0
  {
  }

  lemma {:induction false} SumsByKind(outputs: seq<Output>)
    ensures OutputSum(outputs) == SumOf(outputs, RECIPIENT) + SumOf(outputs, FEE) + SumOf(outputs, CHANGE)
  {
    if outputs != [] {
      SumsByKind(outputs[..|outputs| - 1]);
    }
  }

  /** How far the outputs of a transfer have served the recipient and the fee: nothing goes to
      the fee before the recipient has all, and nothing to change before the fee is paid. */
  ghost predicate Allocates(outputs: seq<Output>, collected: nat, amount: nat, fee: nat) {
    && OutputSum(outputs) == collected
    && SumOf(outputs, RECIPIENT) <= amount && SumOf(outputs, FEE) <= fee
    && (SumOf(outputs, RECIPIENT) < amount ==> SumOf(outputs, RECIPIENT) == collected)
    && (SumOf(outputs, FEE) < fee ==> SumOf(outputs, RECIPIENT) + SumOf(outputs, FEE) == collected)
  }

  /** Outputs are positive and named after transaction, input, kind and position. */
  ghost predicate Named(tx: string, outputs: seq<Output>) {
    && (forall k: nat :: k < |outputs| ==> outputs[k].amount > 0)
    && forall k: nat :: k < |outputs| ==> outputs[k].id == OutputId(tx, outputs[k].input, outputs[k].kind, k)
  }

  lemma {:induction false} NamedAppend(tx: string, outputs: seq<Output>, output: Output)
    requires Named(tx, outputs) && output.amount > 0
    requires output.id == OutputId(tx, output.input, output.kind, |outputs|)
    ensures Named(tx, outputs + [output])
  {
  }

  function InputIds(inputs: seq<Input>): seq<string> {
    seq(|inputs|, i requires 0 <= i < |inputs| => inputs[i].id)
  }

  ghost predicate Sourced(outputs: seq<Output>, ids: seq<string>) {
    forall k: nat :: k < |outputs| ==> outputs[k].input in ids
  }

  /** Adds one output and what it serves. */
  method AddOutput(tx: string, input: string, kind: Kind, part: nat, outputs: seq<Output>, ghost ids: seq<string>)
    returns (more: seq<Output>)
    requires part > 0 && Named(tx, outputs) && Sourced(outputs, ids) && input in ids
    ensures Named(tx, more) && Sourced(more, ids) && OutputSum(more) == OutputSum(outputs) + part
    ensures SumOf(more, RECIPIENT) == SumOf(outputs, RECIPIENT) + if kind == RECIPIENT then part else 0
    ensures SumOf(more, FEE) == SumOf(outputs, FEE) + if kind == FEE then part else 0
  {
    var output := Output(OutputId(tx, input, kind, |outputs|), kind, input, part);
    OutputAppend(outputs, output);
    NamedAppend(tx, outputs, output);
    more := outputs + [output];
  }

  /** Cuts one input: first the recipient's amount, then the fee, and the rest back to the
      sender. */
  method AllocateInput(tx: string, input: Input, outputs: seq<Output>, ghost collected: nat, amount: nat, fee: nat,
    recipientLeft: nat, feeLeft: nat, ghost ids: seq<string>) returns (more: seq<Output>, recipientLeft': nat, feeLeft': nat)
    requires Named(tx, outputs) && Sourced(outputs, ids) && input.id in ids && Allocates(outputs, collected, amount, fee)
    requires recipientLeft == amount - SumOf(outputs, RECIPIENT) && feeLeft == fee - SumOf(outputs, FEE)
    ensures Named(tx, more) && Sourced(more, ids) && Allocates(more, collected + input.amount, amount, fee)
    ensures recipientLeft' == amount - SumOf(more, RECIPIENT) && feeLeft' == fee - SumOf(more, FEE)
  {
    more, recipientLeft', feeLeft' := outputs, recipientLeft, feeLeft;
    var left: nat := input.amount;
    while left > 0
      invariant left <= input.amount && Named(tx, more) && Sourced(more, ids)
      invariant Allocates(more, collected + input.amount - left, amount, fee)
      invariant recipientLeft' == amount - SumOf(more, RECIPIENT) && feeLeft' == fee - SumOf(more, FEE)
    {
      if recipientLeft' > 0 {
        var part := Min(left, recipientLeft');
        more := AddOutput(tx, input.id, RECIPIENT, part, more, ids);
        left, recipientLeft' := left - part, recipientLeft' - part;
        continue;
      }
      if feeLeft' > 0 {
        var part := Min(left, feeLeft');
        more := AddOutput(tx, input.id, FEE, part, more, ids);
        left, feeLeft' := left - part, feeLeft' - part;
        continue;
      }
      more := AddOutput(tx, input.id, CHANGE, left, more, ids);
      left := 0;
    }
  }

  method AllocateOutputs(tx: string, inputs: seq<Input>, amount: nat, fee: nat) returns (outputs: seq<Output>)
    ensures Named(tx, outputs) && Sourced(outputs, InputIds(inputs)) && Allocates(outputs, InputSum(inputs), amount, fee)
  {
    ghost var ids := InputIds(inputs);
    outputs := [];
    var recipientLeft, feeLeft := amount, fee;
    for i := 0 to |inputs|
      invariant Named(tx, outputs) && Sourced(outputs, ids) && Allocates(outputs, InputSum(inputs[..i]), amount, fee)
      invariant recipientLeft == amount - SumOf(outputs, RECIPIENT) && feeLeft == fee - SumOf(outputs, FEE)
    {
      assert inputs[..i + 1][..i] == inputs[..i];
      assert ids[i] == inputs[i].id;
      outputs, recipientLeft, feeLeft :=
        AllocateInput(tx, inputs[i], outputs, InputSum(inputs[..i]), amount, fee, recipientLeft, feeLeft, ids);
    }
    assert inputs[..|inputs|] == inputs;
  }

  /** When the inputs cover amount and fee, they equal recipient plus fee plus change, each paid
      in full. */
  lemma {:induction false} TransferBalances(outputs: seq<Output>, collected: nat, amount: nat, fee: nat)
    requires Allocates(outputs, collected, amount, fee) && amount + fee <= collected
    ensures SumOf(outputs, RECIPIENT) == amount && SumOf(outputs, FEE) == fee
    ensures SumOf(outputs, CHANGE) == collected - amount - fee
  {
    SumsByKind(outputs);
  }

  // --- Applying -------------------------------------------------------------------------------------

  datatype Transfer = Transfer(
    id: string, from: string, to: string, amount: nat, fee: nat, nonce: nat, explicit: seq<string>)

  function OwnerOf(t: Transfer, kind: Kind): string {
    match kind case RECIPIENT => t.to case FEE => FEE_POOL case CHANGE => t.from
  }

  function OutputLot(t: Transfer, lots: Lots, o: Output, block: nat): Lot
    requires o.input in lots
  {
    Lot(lots[o.input].origin, OwnerOf(t, o.kind), o.amount, AVAILABLE, block, 0)
  }

  function SpendAll(lots: Lots, ids: seq<string>): Lots
    requires forall i: nat :: i < |ids| ==> ids[i] in lots
  {
    if ids == [] then lots
    else
      var rest := SpendAll(lots, ids[..|ids| - 1]);
      rest[ids[|ids| - 1] := Spent(lots[ids[|ids| - 1]])]
  }

  predicate Distinct(ids: seq<string>) {
    forall i: nat, j: nat :: i < j < |ids| ==> ids[i] != ids[j]
  }

  lemma {:induction false} SpendAllAt(lots: Lots, ids: seq<string>, id: string)
    requires forall i: nat :: i < |ids| ==> ids[i] in lots
    ensures SpendAll(lots, ids).Keys == lots.Keys
    ensures id in lots ==> SpendAll(lots, ids)[id] == if id in ids then Spent(lots[id]) else lots[id]
  {
    if ids != [] {
      SpendAllAt(lots, ids[..|ids| - 1], id);
      assert id in ids <==> id in ids[..|ids| - 1] || id == ids[|ids| - 1];
    }
  }

  function AmountOf(lots: Lots, ids: seq<string>): nat
    requires forall i: nat :: i < |ids| ==> ids[i] in lots
  {
    if ids == [] then 0 else AmountOf(lots, ids[..|ids| - 1]) + lots[ids[|ids| - 1]].amount
  }

  /** What the lots add to a balance. */
  function ShareOf(lots: Lots, ids: seq<string>, owner: Option<string>): nat
    requires forall i: nat :: i < |ids| ==> ids[i] in lots
  {
    if ids == [] then 0 else ShareOf(lots, ids[..|ids| - 1], owner) + LiveAmount(lots[ids[|ids| - 1]], owner)
  }

  /** Spending distinct lots takes exactly what they added out of every balance. */
  lemma {:induction false} SpendAllSum(lots: Lots, ids: seq<string>, owner: Option<string>)
    requires Distinct(ids) && forall i: nat :: i < |ids| ==> ids[i] in lots
    ensures LiveSumOf(SpendAll(lots, ids), owner) + ShareOf(lots, ids, owner) == LiveSumOf(lots, owner)
  {
    if ids != [] {
      var front, last := ids[..|ids| - 1], ids[|ids| - 1];
      SpendAllSum(lots, front, owner);
      SpendAllAt(lots, front, last);
      assert last !in front;
      LiveSumUpdate(SpendAll(lots, front), last, Spent(lots[last]), owner);
    }
  }

  /** Lots of one owner are its own: they count for it and for everybody, not for others. */
  lemma {:induction false} ShareOfOwner(lots: Lots, ids: seq<string>, from: string, owner: Option<string>)
    requires forall i: nat :: i < |ids| ==> ids[i] in lots && Spendable(lots, ids[i], from)
    ensures ShareOf(lots, ids, owner) == if owner.None? || owner.value == from then AmountOf(lots, ids) else 0
  {
    if ids != [] {
      ShareOfOwner(lots, ids[..|ids| - 1], from, owner);
    }
  }

  /** Adds lots under their ids, in order. */
  function AddAll(lots: Lots, ids: seq<string>, more: seq<Lot>): Lots
    requires |ids| == |more|
  {
    if ids == [] then lots
    else AddAll(lots, ids[..|ids| - 1], more[..|more| - 1])[ids[|ids| - 1] := more[|more| - 1]]
  }

  function LotSum(more: seq<Lot>, owner: Option<string>): nat {
    if more == [] then 0 else LotSum(more[..|more| - 1], owner) + LiveAmount(more[|more| - 1], owner)
  }

  lemma {:induction false} AddAllAt(lots: Lots, ids: seq<string>, more: seq<Lot>, id: string)
    requires |ids| == |more| && Distinct(ids)
    ensures id in AddAll(lots, ids, more) <==> id in lots || id in ids
    ensures id !in ids && id in lots ==> AddAll(lots, ids, more)[id] == lots[id]
    ensures forall i: nat :: i < |ids| && ids[i] == id ==> AddAll(lots, ids, more)[id] == more[i]
  {
    if ids != [] {
      var front := ids[..|ids| - 1];
      AddAllAt(lots, front, more[..|more| - 1], id);
      assert id in ids <==> id in front || id == ids[|ids| - 1];
      forall i: nat | i < |ids| && ids[i] == id ensures AddAll(lots, ids, more)[id] == more[i] {
        if i < |front| {
          assert front[i] == id && id != ids[|ids| - 1];
        }
      }
    }
  }

  lemma {:induction false} AddAllSum(lots: Lots, ids: seq<string>, more: seq<Lot>, owner: Option<string>)
    requires |ids| == |more| && Distinct(ids) && forall i: nat :: i < |ids| ==> ids[i] !in lots
    ensures LiveSumOf(AddAll(lots, ids, more), owner) == LiveSumOf(lots, owner) + LotSum(more, owner)
  {
    if ids != [] {
      var front, last := ids[..|ids| - 1], ids[|ids| - 1];
      AddAllSum(lots, front, more[..|more| - 1], owner);
      AddAllAt(lots, front, more[..|more| - 1], last);
      assert last !in front;
      LiveSumUpdate(AddAll(lots, front, more[..|more| - 1]), last, more[|more| - 1], owner);
    }
  }

  // --- A transfer plan --------------------------------------------------------------------------------

  datatype Plan = Plan(inputs: seq<string>, outputs: seq<Output>)

  function OutputIds(outputs: seq<Output>): seq<string> {
    seq(|outputs|, i requires 0 <= i < |outputs| => outputs[i].id)
  }

  function OutputLots(t: Transfer, lots: Lots, outputs: seq<Output>, block: nat): seq<Lot>
    requires forall i: nat :: i < |outputs| ==> outputs[i].input in lots
  {
    seq(|outputs|, i requires 0 <= i < |outputs| => OutputLot(t, lots, outputs[i], block))
  }

  ghost predicate AllSpendable(lots: Lots, ids: seq<string>, owner: string) {
    forall i: nat :: i < |ids| ==> Spendable(lots, ids[i], owner)
  }

  /** What a plan must satisfy to be applied: distinct spendable inputs that cover the debit,
      and new outputs that serve it. */
  ghost predicate ValidPlan(lots: Lots, t: Transfer, plan: Plan) {
    && t.id != "" && t.from != "" && t.to != "" && t.from != t.to
    && 0 < t.amount && t.amount + t.fee <= INT64_MAX
    && plan.inputs != [] && Distinct(plan.inputs) && AllSpendable(lots, plan.inputs, t.from)
    && t.amount + t.fee <= AmountOf(lots, plan.inputs) <= INT64_MAX
    && Allocates(plan.outputs, AmountOf(lots, plan.inputs), t.amount, t.fee)
    && Distinct(OutputIds(plan.outputs))
    && (forall i: nat :: i < |plan.outputs| ==>
          plan.outputs[i].input in plan.inputs && plan.outputs[i].id !in lots && plan.outputs[i].id != ""
          && 0 < plan.outputs[i].amount)
  }

  lemma {:induction false} InputsAreLots(lots: Lots, t: Transfer, plan: Plan)
    requires ValidPlan(lots, t, plan)
    ensures forall i: nat :: i < |plan.outputs| ==> plan.outputs[i].input in lots
  {
  }

  ghost function Applied(lots: Lots, t: Transfer, plan: Plan, block: nat): Lots
    requires ValidPlan(lots, t, plan)
  {
    InputsAreLots(lots, t, plan);
    AddAll(SpendAll(lots, plan.inputs), OutputIds(plan.outputs), OutputLots(t, lots, plan.outputs, block))
  }

  /** What the outputs add to a balance: each kind goes to its own owner. */
  function OutputsFor(t: Transfer, outputs: seq<Output>, owner: Option<string>): nat {
    if owner.None? then OutputSum(outputs)
    else
      (if owner.value == t.to then SumOf(outputs, RECIPIENT) else 0)
      + (if owner.value == FEE_POOL then SumOf(outputs, FEE) else 0)
      + if owner.value == t.from then SumOf(outputs, CHANGE) else 0
  }

  lemma {:induction false} LotSumIsOutputSum(t: Transfer, lots: Lots, outputs: seq<Output>, block: nat, owner: Option<string>)
    requires forall i: nat :: i < |outputs| ==> outputs[i].input in lots
    ensures LotSum(OutputLots(t, lots, outputs, block), owner) == OutputsFor(t, outputs, owner)
  {
    if outputs != [] {
      var front := outputs[..|outputs| - 1];
      LotSumIsOutputSum(t, lots, front, block, owner);
      assert OutputLots(t, lots, outputs, block)[..|outputs| - 1] == OutputLots(t, lots, front, block);
    }
  }

  lemma {:induction false} TransferSums(lots: Lots, t: Transfer, plan: Plan, block: nat, owner: Option<string>)
    requires ValidPlan(lots, t, plan)
    ensures LiveSumOf(Applied(lots, t, plan, block), owner)
      + (if owner.None? || owner.value == t.from then AmountOf(lots, plan.inputs) else 0)
      == LiveSumOf(lots, owner) + OutputsFor(t, plan.outputs, owner)
  {
    InputsAreLots(lots, t, plan);
    SpendAllSum(lots, plan.inputs, owner);
    ShareOfOwner(lots, plan.inputs, t.from, owner);
    SpendAllAt(lots, plan.inputs, "");
    LotSumIsOutputSum(t, lots, plan.outputs, block, owner);
    AddAllSum(SpendAll(lots, plan.inputs), OutputIds(plan.outputs), OutputLots(t, lots, plan.outputs, block), owner);
  }

  /** A transfer leaves the sum of live lots unchanged. */
  lemma {:induction false} TransferConserves(lots: Lots, t: Transfer, plan: Plan, block: nat)
    requires ValidPlan(lots, t, plan)
    ensures LiveSum(Applied(lots, t, plan, block)) == LiveSum(lots)
  {
    TransferSums(lots, t, plan, block, None);
  }

  /** It moves the amount to the recipient and the fee to the pool, out of the sender's balance,
      and touches no other. */
  lemma {:induction false} TransferMovesBalances(lots: Lots, t: Transfer, plan: Plan, block: nat, owner: string)
    requires ValidPlan(lots, t, plan)
    ensures BalanceOf(Applied(lots, t, plan, block), owner) + (if owner == t.from then t.amount + t.fee else 0)
      == BalanceOf(lots, owner) + (if owner == t.to then t.amount else 0) + (if owner == FEE_POOL then t.fee else 0)
  {
    TransferSums(lots, t, plan, block, Some(owner));
    TransferBalances(plan.outputs, AmountOf(lots, plan.inputs), t.amount, t.fee);
  }

  /** Every lot is still there after a transfer: spent if it was an input, else untouched. */
  lemma {:induction false} TransferKeepsLots(lots: Lots, t: Transfer, plan: Plan, block: nat, id: string)
    requires ValidPlan(lots, t, plan) && id in lots
    ensures id in Applied(lots, t, plan, block)
    ensures Applied(lots, t, plan, block)[id] == if id in plan.inputs then Spent(lots[id]) else lots[id]
  {
    InputsAreLots(lots, t, plan);
    SpendAllAt(lots, plan.inputs, id);
    AddAllAt(SpendAll(lots, plan.inputs), OutputIds(plan.outputs), OutputLots(t, lots, plan.outputs, block), id);
  }

  /** Lots that a transfer creates are its outputs. */
  lemma {:induction false} TransferCreates(lots: Lots, t: Transfer, plan: Plan, block: nat, id: string)
    requires ValidPlan(lots, t, plan) && id !in lots && id in Applied(lots, t, plan, block)
    ensures id != "" && Applied(lots, t, plan, block)[id].status == AVAILABLE
    ensures ValidLots(lots) ==> ValidLot(Applied(lots, t, plan, block)[id])
  {
    InputsAreLots(lots, t, plan);
    var ids := OutputIds(plan.outputs);
    SpendAllAt(lots, plan.inputs, id);
    AddAllAt(SpendAll(lots, plan.inputs), ids, OutputLots(t, lots, plan.outputs, block), id);
    var i: nat :| i < |ids| && ids[i] == id;
    OutputAtMostSum(plan.outputs, i);
  }

  lemma {:induction false} OutputLotsValid(lots: Lots, t: Transfer, plan: Plan, block: nat)
    requires ValidPlan(lots, t, plan) && ValidLots(lots)
    ensures forall i: nat :: i < |plan.outputs| ==> plan.outputs[i].input in lots
    ensures forall i: nat :: i < |plan.outputs| ==> ValidLot(OutputLot(t, lots, plan.outputs[i], block))
  {
    InputsAreLots(lots, t, plan);
    forall i: nat | i < |plan.outputs| ensures ValidLot(OutputLot(t, lots, plan.outputs[i], block)) {
      OutputAtMostSum(plan.outputs, i);
    }
  }

  lemma {:induction false} OutputAtMostSum(outputs: seq<Output>, i: nat)
    requires i < |outputs|
    ensures outputs[i].amount <= OutputSum(outputs)
    decreases |outputs|
  {
    if i < |outputs| - 1 {
      OutputAtMostSum(outputs[..|outputs| - 1], i);
    }
  }

  // --- Choosing the inputs ----------------------------------------------------------------------------

  lemma {:induction false} AmountAppend(lots: Lots, ids: seq<string>, id: string)
    requires id in lots && forall i: nat :: i < |ids| ==> ids[i] in lots
    ensures AmountOf(lots, ids + [id]) == AmountOf(lots, ids) + lots[id].amount
  {
  }

  /** Exactly the lots the sender named: each once, each spendable, and enough of them. */
  method SelectExplicit(lots: Lots, t: Transfer, debit: nat) returns (r: Option<seq<string>>)
    ensures r.Some? <==>
      && Distinct(t.explicit) && AllSpendable(lots, t.explicit, t.from)
      && debit <= AmountOf(lots, t.explicit) <= INT64_MAX
    ensures r.Some? ==> r.value == t.explicit
  {
    var collected := 0;
    var seen: set<string> := {};
    for i := 0 to |t.explicit|
      invariant AllSpendable(lots, t.explicit[..i], t.from) && Distinct(t.explicit[..i])
      invariant forall id :: id in seen <==> id in t.explicit[..i]
      invariant collected == AmountOf(lots, t.explicit[..i]) <= INT64_MAX
    {
      var id := t.explicit[i];
      assert t.explicit[..i + 1] == t.explicit[..i] + [id];
      if id in seen || !Spendable(lots, id, t.from) {
        return None;
      }
      AmountAppend(lots, t.explicit[..i], id);
      seen, collected := seen + {id}, collected + lots[id].amount;
      if collected > INT64_MAX {
        assert AllSpendable(lots, t.explicit, t.from) ==> AmountOf(lots, t.explicit) > INT64_MAX by {
          if AllSpendable(lots, t.explicit, t.from) {
            AmountGrows(lots, t.explicit, i + 1);
          }
        }
        return None;
      }
    }
    assert t.explicit[..|t.explicit|] == t.explicit;
    r := if collected < debit then None else Some(t.explicit);
  }

  lemma {:induction false} AmountGrows(lots: Lots, ids: seq<string>, n: nat)
    requires n <= |ids| && forall i: nat :: i < |ids| ==> ids[i] in lots
    ensures AmountOf(lots, ids[..n]) <= AmountOf(lots, ids)
    decreases |ids|
  {
    if n < |ids| {
      assert ids[..|ids| - 1][..n] == ids[..n];
      AmountGrows(lots, ids[..|ids| - 1], n);
    } else {
      assert ids[..n] == ids;
    }
  }

  /** The sender's spendable lots among the given ids. */
  function SpendableIn(lots: Lots, order: seq<string>, owner: string): (ids: seq<string>)
    ensures forall i: nat :: i < |ids| ==> ids[i] in lots
  {
    if order == [] then []
    else
      var front, last := SpendableIn(lots, order[..|order| - 1], owner), order[|order| - 1];
      if Spendable(lots, last, owner) then front + [last] else front
  }

  lemma {:induction false} SpendableInMembers(lots: Lots, order: seq<string>, owner: string)
    requires Distinct(order)
    ensures Distinct(SpendableIn(lots, order, owner)) && AllSpendable(lots, SpendableIn(lots, order, owner), owner)
    ensures forall id :: id in SpendableIn(lots, order, owner) ==> id in order
  {
    if order != [] {
      var front, last := order[..|order| - 1], order[|order| - 1];
      SpendableInMembers(lots, front, owner);
      assert last !in front;
    }
  }

  /** Without named lots: the sender's spendable lots in registry order, only as many as cover
      the debit. It fails only when all of them together do not, or exceed 64 bits on the way. */
  method SelectInOrder(lots: Lots, order: seq<string>, t: Transfer, debit: nat) returns (r: Option<seq<string>>)
    requires Distinct(order)
    ensures r.Some? ==>
      && Distinct(r.value) && AllSpendable(lots, r.value, t.from)
      && debit <= AmountOf(lots, r.value) <= INT64_MAX
      && r.value <= SpendableIn(lots, order, t.from)
      && (r.value != [] && debit > 0 ==> AmountOf(lots, r.value[..|r.value| - 1]) < debit)
    ensures r.None? ==>
      var all := SpendableIn(lots, order, t.from);
      AmountOf(lots, all) < debit || AmountOf(lots, all) > INT64_MAX
  {
    var selected: seq<string> := [];
    var collected := 0;
    for i := 0 to |order|
      invariant selected == SpendableIn(lots, order[..i], t.from)
      invariant collected == AmountOf(lots, selected) <= INT64_MAX
      invariant selected != [] ==> collected < debit
    {
      var id := order[i];
      assert order[..i + 1][..i] == order[..i];
      assert Distinct(order[..i + 1]);
      if Spendable(lots, id, t.from) {
        AmountAppend(lots, selected, id);
        assert (selected + [id])[..|selected|] == selected;
        selected, collected := selected + [id], collected + lots[id].amount;
        SpendableInGrows(lots, order, t.from, i + 1);
        if collected > INT64_MAX {
          return None;
        }
        if collected >= debit {
          SpendableInMembers(lots, order[..i + 1], t.from);
          return Some(selected);
        }
      }
    }
    assert order[..|order|] == order;
    SpendableInMembers(lots, order, t.from);
    r := if collected < debit then None else Some(selected);
  }

  lemma {:induction false} SpendableInGrows(lots: Lots, order: seq<string>, owner: string, n: nat)
    requires n <= |order|
    ensures AmountOf(lots, SpendableIn(lots, order[..n], owner)) <= AmountOf(lots, SpendableIn(lots, order, owner))
    ensures SpendableIn(lots, order[..n], owner) <= SpendableIn(lots, order, owner)
    decreases |order|
  {
    if n < |order| {
      var front := order[..|order| - 1];
      assert front[..n] == order[..n];
      SpendableInGrows(lots, front, owner, n);
      if Spendable(lots, order[|order| - 1], owner) {
        AmountAppend(lots, SpendableIn(lots, front, owner), order[|order| - 1]);
      }
    } else {
      assert order[..n] == order;
    }
  }
}
