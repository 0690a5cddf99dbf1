/** The coin lot registry and the transfer that is planned against it and applied to it. */
module CoinLotRegistry {
  import opened Wrappers
  import opened Text
  import opened Sums
  import opened CoinLots

  // --- Planning -----------------------------------------------------------------------------------

  function IdPrefix(t: Transfer): string {
    "coinlot_from_tx_" + t.id + "_input_"
  }

  /** No lot carries an id that this transfer could give an output. */
  predicate IdsFree(lots: Lots, t: Transfer) {
    forall id :: id in lots ==> !(IdPrefix(t) <= id)
  }

  /** The position is the part after the last underscore, so outputs never share an id. */
  lemma {:induction false} OutputIdsDiffer(tx: string, a: Output, i: nat, b: Output, j: nat)
    requires a.id == OutputId(tx, a.input, a.kind, i) && b.id == OutputId(tx, b.input, b.kind, j) && a.id == b.id
    ensures i == j
  {
    DecimalRoundTrip(i);
    DecimalRoundTrip(j);
    var x := "coinlot_from_tx_" + tx + "_input_" + a.input + "_" + KindName(a.kind);
    var y := "coinlot_from_tx_" + tx + "_input_" + b.input + "_" + KindName(b.kind);
    assert a.id == x + ['_'] + Decimal(i) && b.id == y + ['_'] + Decimal(j);
    SplitLast(x, Decimal(i), y, Decimal(j), '_');
    DecimalInjective(i, j);
  }

  lemma {:induction false} NamedDistinct(tx: string, outputs: seq<Output>)
    requires Named(tx, outputs)
    ensures Distinct(OutputIds(outputs))
  {
    forall i: nat, j: nat | i < j < |outputs| ensures outputs[i].id != outputs[j].id {
      if outputs[i].id == outputs[j].id {
        OutputIdsDiffer(tx, outputs[i], i, outputs[j], j);
      }
    }
  }

  lemma {:induction false} NamedPrefix(t: Transfer, o: Output, i: nat)
    requires o.id == OutputId(t.id, o.input, o.kind, i)
    ensures IdPrefix(t) <= o.id
  {
  }

  method InputsOf(lots: Lots, ids: seq<string>) returns (inputs: seq<Input>)
    requires forall i: nat :: i < |ids| ==> ids[i] in lots
    ensures |inputs| == |ids| && forall i: nat :: i < |ids| ==> inputs[i] == Input(ids[i], lots[ids[i]].amount)
    ensures InputSum(inputs) == AmountOf(lots, ids)
  {
    inputs := [];
    for i := 0 to |ids|
      invariant |inputs| == i && forall k: nat :: k < i ==> inputs[k] == Input(ids[k], lots[ids[k]].amount)
      invariant InputSum(inputs) == AmountOf(lots, ids[..i])
    {
      assert ids[..i + 1][..i] == ids[..i];
      var more := inputs + [Input(ids[i], lots[ids[i]].amount)];
      assert more[..i] == inputs;
      inputs := more;
    }
    assert ids[..|ids|] == ids;
  }

  /** Whether the sender's lots can cover the transfer. */
  ghost predicate Coverable(lots: Lots, order: seq<string>, t: Transfer) {
    var debit := t.amount + t.fee;
    if t.explicit != [] then
      Distinct(t.explicit) && AllSpendable(lots, t.explicit, t.from) && debit <= AmountOf(lots, t.explicit) <= INT64_MAX
    else debit <= AmountOf(lots, SpendableIn(lots, order, t.from)) <= INT64_MAX
  }

  predicate WellFormed(t: Transfer) {
    && t.id != "" && t.from != "" && t.to != "" && t.from != t.to
    && 0 < t.amount && t.nonce > 0 && t.amount + t.fee <= INT64_MAX
  }

  method SelectInputs(lots: Lots, order: seq<string>, t: Transfer) returns (ids: Option<seq<string>>)
    requires Distinct(order) && WellFormed(t)
    ensures ids.Some? ==>
      && ids.value != [] && Distinct(ids.value) && AllSpendable(lots, ids.value, t.from)
      && t.amount + t.fee <= AmountOf(lots, ids.value) <= INT64_MAX
    ensures Coverable(lots, order, t) ==> ids.Some?
  {
    if t.explicit != [] {
      ids := SelectExplicit(lots, t, t.amount + t.fee);
    } else {
      ids := SelectInOrder(lots, order, t, t.amount + t.fee);
    }
  }

  /** Every plan that is built is valid, and one is built whenever the transfer is well-formed
      and covered and no lot occupies an output's id. `order` lists the lots in registry order. */
  method BuildTransferPlan(lots: Lots, order: seq<string>, t: Transfer) returns (r: Option<Plan>)
    requires Distinct(order)
    ensures r.Some? ==> ValidPlan(lots, t, r.value) && WellFormed(t) && ValidLots(lots)
    ensures WellFormed(t) && ValidLots(lots) && Coverable(lots, order, t) && IdsFree(lots, t) ==> r.Some?
  {
    if !WellFormed(t) || !ValidLots(lots) {
      return None;
    }
    var ids := SelectInputs(lots, order, t);
    if ids.None? {
      return None;
    }
    var inputs := InputsOf(lots, ids.value);
    var outputs := AllocateOutputs(t.id, inputs, t.amount, t.fee);
    assert InputIds(inputs) == ids.value;
    for i := 0 to |outputs|
      invariant forall k: nat :: k < i ==> outputs[k].id !in lots
    {
      NamedPrefix(t, outputs[i], i);
      if outputs[i].id in lots {
        return None;
      }
    }
    NamedDistinct(t.id, outputs);
    NamedNonEmpty(t, outputs);
    r := Some(Plan(ids.value, outputs));
  }

  lemma {:induction false} NamedNonEmpty(t: Transfer, outputs: seq<Output>)
    requires Named(t.id, outputs)
    ensures forall i: nat :: i < |outputs| ==> outputs[i].id != ""
  {
  }

  // --- The object -----------------------------------------------------------------------------------

  class Registry {
    var lots: Lots

    constructor ()
      ensures lots == map[]
    {
      lots := map[];
    }

    method AddLot(id: string, lot: Lot) returns (ok: bool)
      modifies this
      ensures ok <==> ValidLot(lot) && id != "" && id !in old(lots)
      ensures lots == if ok then old(lots)[id := lot] else old(lots)
    {
      if !ValidLot(lot) || id == "" || id in lots {
        return false;
      }
      lots := lots[id := lot];
      ok := true;
    }

    method MarkSpent(id: string, owner: string) returns (ok: bool)
      modifies this
      ensures ok <==> Spendable(old(lots), id, owner)
      ensures lots == if ok then old(lots)[id := Spent(old(lots)[id])] else old(lots)
    {
      if !Spendable(lots, id, owner) {
        return false;
      }
      lots := lots[id := lots[id].(status := SPENT, lockedUntil := 0)];
      ok := true;
    }

    method LockForSecurity(id: string, owner: string, until: nat) returns (ok: bool)
      modifies this
      ensures ok <==> Spendable(old(lots), id, owner) && old(lots)[id].createdAt < until
      ensures lots ==
        if ok then old(lots)[id := old(lots)[id].(status := LOCKED_FOR_SECURITY, lockedUntil := until)] else old(lots)
    {
      if !Spendable(lots, id, owner) || until <= lots[id].createdAt {
        return false;
      }
      lots := lots[id := lots[id].(status := LOCKED_FOR_SECURITY, lockedUntil := until)];
      ok := true;
    }

    /** Spends all inputs, then adds all outputs; or changes nothing. */
    method ApplyTransfer(order: seq<string>, t: Transfer, block: nat) returns (ok: bool, ghost plan: Plan)
      requires Distinct(order)
      modifies this
      ensures ok ==> ValidPlan(old(lots), t, plan) && lots == Applied(old(lots), t, plan, block)
      ensures !ok ==> lots == old(lots)
      ensures WellFormed(t) && ValidLots(old(lots)) && Coverable(old(lots), order, t) && IdsFree(old(lots), t) ==> ok
    {
      plan := Plan([], []);
      var built := BuildTransferPlan(lots, order, t);
      if built.None? {
        return false, plan;
      }
      var p := built.value;
      plan := p;
      ghost var before := lots;
      OutputLotsValid(lots, t, p, block);
      var more := OutputLots(t, lots, p.outputs, block);
      SpendInputs(p.inputs, t.from);
      SpendAllAt(before, p.inputs, "");
      AddOutputs(OutputIds(p.outputs), more);
      ok := true;
    }

    method SpendInputs(ids: seq<string>, owner: string)
      requires Distinct(ids) && AllSpendable(lots, ids, owner)
      modifies this
      ensures lots == SpendAll(old(lots), ids)
    {
      for i := 0 to |ids|
        invariant lots == SpendAll(old(lots), ids[..i])
      {
        assert ids[..i + 1][..i] == ids[..i];
        assert Spendable(old(lots), ids[i], owner);
        SpendAllAt(old(lots), ids[..i], ids[i]);
        assert ids[i] !in ids[..i];
        var _ := MarkSpent(ids[i], owner);
      }
      assert ids[..|ids|] == ids;
    }

    method AddOutputs(ids: seq<string>, more: seq<Lot>)
      requires |ids| == |more| && Distinct(ids)
      requires forall i: nat :: i < |ids| ==> ids[i] !in lots && ids[i] != "" && ValidLot(more[i])
      modifies this
      ensures lots == AddAll(old(lots), ids, more)
    {
      for i := 0 to |ids|
        invariant lots == AddAll(old(lots), ids[..i], more[..i])
      {
        assert ids[..i + 1][..i] == ids[..i] && more[..i + 1][..i] == more[..i];
        AddAllAt(old(lots), ids[..i], more[..i], ids[i]);
        assert ids[i] !in ids[..i];
        var _ := AddLot(ids[i], more[i]);
      }
      assert ids[..|ids|] == ids && more[..|more|] == more;
    }
  }
}
