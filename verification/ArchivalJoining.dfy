/** What other providers do to one provider's archival reward. Below the target the documentation
    promises that it does not shrink when others join. It depends on the others through the
    scarcity of the segments the provider proves, and in no other way. */
module ArchivalJoining {
  import opened Wrappers
  import opened Quorum
  import opened Sums
  import opened Arithmetic
  import opened ArchivalRewards

  // --- A provider's weight, from its own slots ------------------------------------------------------

  function Own(slots: seq<Slot>, p: string): seq<Slot> {
    if slots == [] then []
    else
      var last := slots[|slots| - 1];
      Own(slots[..|slots| - 1], p) + if last.provider == p then [last] else []
  }

  function SumWeights(params: Parameters, x: Inputs, own: seq<Slot>): nat {
    if own == [] then 0 else SumWeights(params, x, own[..|own| - 1]) + SlotWeight(params, x, own[|own| - 1])
  }

  lemma {:induction false} SumWeightsAppend(params: Parameters, x: Inputs, own: seq<Slot>, s: Slot)
    ensures SumWeights(params, x, own + [s]) == SumWeights(params, x, own) + SlotWeight(params, x, s)
  {
    assert (own + [s])[..|own|] == own;
  }

  /** The weight a provider collects is the sum over its own slots. */
  lemma {:induction false} WeightIsOwn(params: Parameters, x: Inputs, n: nat, p: string)
    requires n <= |x.slots|
    ensures At(WeightsUpTo(params, x, n), p) == SumWeights(params, x, Own(x.slots[..n], p))
  {
    if n > 0 {
      WeightIsOwn(params, x, n - 1, p);
      assert x.slots[..n][..n - 1] == x.slots[..n - 1];
      var own, s := Own(x.slots[..n - 1], p), x.slots[n - 1];
      if s.provider == p {
        SumWeightsAppend(params, x, own, s);
      } else {
        assert own + [] == own;
      }
    }
  }

  lemma {:induction false} OwnConcat(a: seq<Slot>, b: seq<Slot>, p: string)
    ensures Own(a + b, p) == Own(a, p) + Own(b, p)
  {
    if b == [] {
      assert a + b == a;
    } else {
      OwnConcat(a, b[..|b| - 1], p);
      assert (a + b)[..|a + b| - 1] == a + b[..|b| - 1];
    }
  }

  lemma {:induction false} OwnOfOthers(slots: seq<Slot>, p: string)
    requires forall s :: s in slots ==> s.provider != p
    ensures Own(slots, p) == []
  {
    if slots != [] {
      OwnOfOthers(slots[..|slots| - 1], p);
    }
  }

  lemma {:induction false} OwnMembers(slots: seq<Slot>, p: string, s: Slot)
    ensures s in Own(slots, p) <==> s in slots && s.provider == p
  {
    if slots != [] {
      OwnMembers(slots[..|slots| - 1], p, s);
      assert slots == slots[..|slots| - 1] + [slots[|slots| - 1]];
    }
  }

  lemma {:induction false} SumsAgree(params: Parameters, x: Inputs, y: Inputs, own: seq<Slot>)
    requires forall s :: s in own ==> SlotWeight(params, x, s) == SlotWeight(params, y, s)
    ensures SumWeights(params, x, own) == SumWeights(params, y, own)
  {
    if own != [] {
      SumsAgree(params, x, y, own[..|own| - 1]);
    }
  }

  // --- Slots of other providers ---------------------------------------------------------------------

  /** `y` is `x` with further slots of other providers somewhere in the list. */
  ghost predicate Joins(x: Inputs, y: Inputs, p: string, a: seq<Slot>, extra: seq<Slot>, b: seq<Slot>) {
    && x.slots == a + b && y.slots == a + extra + b
    && y.cap == x.cap && y.segments == x.segments && y.reliability == x.reliability
    && forall e :: e in extra ==> e.provider != p
  }

  lemma {:induction false} OwnUnmoved(x: Inputs, y: Inputs, p: string, a: seq<Slot>, extra: seq<Slot>, b: seq<Slot>)
    requires Joins(x, y, p, a, extra, b)
    ensures Own(y.slots, p) == Own(x.slots, p)
  {
    OwnConcat(a, b, p);
    OwnConcat(a + extra, b, p);
    OwnConcat(a, extra, p);
    OwnOfOthers(extra, p);
  }

  predicate ProvesOn(params: Parameters, slots: seq<Slot>, p: string, segment: nat) {
    exists i :: 0 <= i < |slots| && slots[i].provider == p && slots[i].segment == segment && Proven(params, slots[i])
  }

  /** New proofs stay off the segments that `p` proves. */
  ghost predicate Elsewhere(params: Parameters, x: Inputs, p: string, extra: seq<Slot>) {
    forall e :: e in extra && Proven(params, e) ==> !ProvesOn(params, x.slots, p, e.segment)
  }

  lemma {:induction false} OperatorsUnmoved(
    params: Parameters, a: seq<Slot>, extra: seq<Slot>, b: seq<Slot>, segment: nat)
    requires forall e :: e in extra && Proven(params, e) ==> e.segment != segment
    ensures ProvenOperators(params, a + extra + b, segment) == ProvenOperators(params, a + b, segment)
  {
    var x, y := a + b, a + extra + b;
    assert forall t :: |a| <= t < |a| + |extra| ==> y[t] in extra;
    forall o | o in ProvenOperators(params, y, segment) ensures o in ProvenOperators(params, x, segment) {
      var i :| 0 <= i < |y| && y[i].segment == segment && Proven(params, y[i]) && y[i].operator == o;
      var j := if i < |a| then i else i - |extra|;
      assert x[j] == y[i];
    }
    forall o | o in ProvenOperators(params, x, segment) ensures o in ProvenOperators(params, y, segment) {
      var i :| 0 <= i < |x| && x[i].segment == segment && Proven(params, x[i]) && x[i].operator == o;
      var j := if i < |a| then i else i + |extra|;
      assert y[j] == x[i];
    }
  }

  /** Slots of others on segments that `p` does not prove leave its weight as it was. */
  lemma {:induction false} WeightKeptElsewhere(
    params: Parameters, x: Inputs, y: Inputs, p: string, a: seq<Slot>, extra: seq<Slot>, b: seq<Slot>)
    requires Joins(x, y, p, a, extra, b) && Elsewhere(params, x, p, extra)
    ensures At(WeightsOf(params, y), p) == At(WeightsOf(params, x), p)
  {
    var own := Own(x.slots, p);
    forall s | s in own ensures SlotWeight(params, x, s) == SlotWeight(params, y, s) {
      OwnMembers(x.slots, p, s);
      if Proven(params, s) {
        OperatorsUnmoved(params, a, extra, b, s.segment);
      }
    }
    SumsAgree(params, x, y, own);
    OwnUnmoved(x, y, p, a, extra, b);
    WholeWeight(params, x, p);
    WholeWeight(params, y, p);
  }

  lemma {:induction false} WholeWeight(params: Parameters, x: Inputs, p: string)
    ensures At(WeightsOf(params, x), p) == SumWeights(params, x, Own(x.slots, p))
  {
    WeightIsOwn(params, x, |x.slots|, p);
    assert x.slots[..|x.slots|] == x.slots;
  }

  ghost predicate WithinTarget(params: Parameters, x: Inputs) {
    Total(WeightsOf(params, x)) <= TargetOf(params, x.segments)
  }

  /** Within the target a reward is a fixed rate on the provider's own weight. */
  lemma {:induction false} FixedRate(params: Parameters, x: Inputs, p: string)
    requires WithinTarget(params, x)
    ensures At(RewardsOf(params, x), p) ==
      Proportional(Budget(params, x.cap), At(WeightsOf(params, x), p), TargetOf(params, x.segments))
  {
  }

  /** Beyond the target all rewards are shares of the total proven weight. */
  lemma {:induction false} SharedRate(params: Parameters, x: Inputs, p: string)
    requires !WithinTarget(params, x)
    ensures At(RewardsOf(params, x), p) ==
      Proportional(Budget(params, x.cap), At(WeightsOf(params, x), p), Total(WeightsOf(params, x)))
  {
  }

  /** A provider without a recorded reliability weighs as if it had the floor's. */
  lemma {:induction false} UnratedIsFloor(params: Parameters, x: Inputs, p: string, s: Slot)
    requires p !in x.reliability
    ensures SlotWeight(params, x, s) == SlotWeight(params, x.(reliability := x.reliability[p := params.reliabilityFloor]), s)
  {
  }

  /** The promise holds for others that join on segments the provider does not prove: however
      many they are and whatever they prove there, its reward is unchanged. */
  lemma {:induction false} RewardKeptElsewhere(
    params: Parameters, x: Inputs, y: Inputs, p: string, a: seq<Slot>, extra: seq<Slot>, b: seq<Slot>)
    requires Joins(x, y, p, a, extra, b) && Elsewhere(params, x, p, extra)
    requires WithinTarget(params, x) && WithinTarget(params, y)
    ensures At(RewardsOf(params, y), p) == At(RewardsOf(params, x), p)
  {
    WeightKeptElsewhere(params, x, y, p, a, extra, b);
    FixedRate(params, x, p);
    FixedRate(params, y, p);
  }

  // --- A new operator on a segment of the provider ---------------------------------------------------

  function Product3(a: nat, b: nat, c: nat): nat {
    MulNonNegative(a, b);
    MulNonNegative(a * b, c);
    a * b * c
  }

  /** Everything in the provider's weight on a segment but the scarcity: bytes, availability and
      reliability. */
  function OtherFactors(params: Parameters, x: Inputs, own: seq<Slot>, segment: nat): nat {
    if own == [] then 0
    else OtherFactors(params, x, own[..|own| - 1], segment) + SlotFactors(params, x, own[|own| - 1], segment)
  }

  function SlotFactors(params: Parameters, x: Inputs, s: Slot, segment: nat): nat {
    if s.segment == segment && Proven(params, s)
    then Product3(BytesOf(x.segments, segment), Availability(s), Reliability(params, x, s.provider))
    else 0
  }

  lemma {:induction false} ScarcityFactor(bytes: nat, scarcity: nat, availability: nat, reliability: nat)
    ensures Product4(bytes, scarcity, availability, reliability) == Product3(bytes, availability, reliability) * scarcity
  {
    var ba := bytes * availability;
    assert bytes * scarcity * availability == ba * scarcity;
    assert ba * scarcity * reliability == ba * reliability * scarcity;
  }

  /** One slot's weight moves with the scarcity of its segment alone. */
  lemma {:induction false} SlotMoves(params: Parameters, x: Inputs, y: Inputs, s: Slot, segment: nat, k: nat)
    requires y.segments == x.segments && y.reliability == x.reliability
    requires |ProvenOperators(params, x.slots, segment)| == k && |ProvenOperators(params, y.slots, segment)| == k + 1
    requires s.segment != segment ==>
      ProvenOperators(params, y.slots, s.segment) == ProvenOperators(params, x.slots, s.segment)
    ensures SlotWeight(params, y, s) + SlotFactors(params, x, s, segment) * Scarcity(params.tiers, k)
      == SlotWeight(params, x, s) + SlotFactors(params, x, s, segment) * Scarcity(params.tiers, k + 1)
  {
    if s.segment == segment && Proven(params, s) {
      var bytes, availability, reliability := BytesOf(x.segments, segment), Availability(s), Reliability(params, x, s.provider);
      ScarcityFactor(bytes, Scarcity(params.tiers, k), availability, reliability);
      ScarcityFactor(bytes, Scarcity(params.tiers, k + 1), availability, reliability);
    }
  }

  ghost predicate Moves(weightX: nat, weightY: nat, factors: nat, scarcityX: nat, scarcityY: nat) {
    weightY + factors * scarcityX == weightX + factors * scarcityY
  }

  lemma {:induction false} MovesAdd(wx: nat, wy: nat, f: nat, vx: nat, vy: nat, g: nat, c: nat, d: nat)
    requires Moves(wx, wy, f, c, d) && Moves(vx, vy, g, c, d)
    ensures Moves(wx + vx, wy + vy, f + g, c, d)
  {
    assert (f + g) * c == f * c + g * c && (f + g) * d == f * d + g * d;
  }

  lemma {:induction false} SumMoves(params: Parameters, x: Inputs, y: Inputs, own: seq<Slot>, segment: nat, k: nat)
    requires y.segments == x.segments && y.reliability == x.reliability
    requires |ProvenOperators(params, x.slots, segment)| == k && |ProvenOperators(params, y.slots, segment)| == k + 1
    requires forall s: nat :: s != segment ==> ProvenOperators(params, y.slots, s) == ProvenOperators(params, x.slots, s)
    ensures Moves(SumWeights(params, x, own), SumWeights(params, y, own), OtherFactors(params, x, own, segment),
      Scarcity(params.tiers, k), Scarcity(params.tiers, k + 1))
  {
    if own != [] {
      var front, s := own[..|own| - 1], own[|own| - 1];
      SumMoves(params, x, y, front, segment, k);
      SlotMoves(params, x, y, s, segment, k);
      MovesAdd(SumWeights(params, x, front), SumWeights(params, y, front), OtherFactors(params, x, front, segment),
        SlotWeight(params, x, s), SlotWeight(params, y, s), SlotFactors(params, x, s, segment),
        Scarcity(params.tiers, k), Scarcity(params.tiers, k + 1));
    }
  }

  lemma {:induction false} OperatorAdded(params: Parameters, a: seq<Slot>, s: Slot, b: seq<Slot>)
    requires Proven(params, s)
    ensures ProvenOperators(params, a + [s] + b, s.segment) == ProvenOperators(params, a + b, s.segment) + {s.operator}
  {
    var x, y := a + b, a + [s] + b;
    forall o | o in ProvenOperators(params, y, s.segment)
      ensures o in ProvenOperators(params, x, s.segment) + {s.operator}
    {
      var i :| 0 <= i < |y| && y[i].segment == s.segment && Proven(params, y[i]) && y[i].operator == o;
      if i != |a| {
        var j := if i < |a| then i else i - 1;
        assert x[j] == y[i];
      }
    }
    forall o | o in ProvenOperators(params, x, s.segment) ensures o in ProvenOperators(params, y, s.segment) {
      var i :| 0 <= i < |x| && x[i].segment == s.segment && Proven(params, x[i]) && x[i].operator == o;
      var j := if i < |a| then i else i + 1;
      assert y[j] == x[i];
    }
    assert y[|a|] == s;
  }

  lemma {:induction false} MovesIff(wx: nat, wy: nat, f: nat, c: nat, d: nat)
    requires Moves(wx, wy, f, c, d)
    ensures wx == wy <==> f == 0 || c == d
    ensures wy < wx <==> f > 0 && d < c
  {
    if f > 0 {
      if d < c {
        MulMono(f, d + 1, c);
        assert f * (d + 1) == f * d + f;
      } else if c < d {
        MulMono(f, c + 1, d);
        assert f * (c + 1) == f * c + f;
      }
    }
  }

  /** One more proven operator on a segment: every other provider's weight is unchanged exactly
      when the segment stays in its scarcity tier or the provider's other factors there are zero,
      and shrinks exactly when the tier falls and they are not. */
  lemma {:induction false} NewOperatorMovesWeight(
    params: Parameters, x: Inputs, y: Inputs, p: string, a: seq<Slot>, s: Slot, b: seq<Slot>, k: nat, f: nat)
    requires Joins(x, y, p, a, [s], b) && Proven(params, s)
    requires s.operator !in ProvenOperators(params, x.slots, s.segment)
    requires k == |ProvenOperators(params, x.slots, s.segment)|
    requires f == OtherFactors(params, x, Own(x.slots, p), s.segment)
    ensures At(WeightsOf(params, y), p) == At(WeightsOf(params, x), p) <==>
      f == 0 || Scarcity(params.tiers, k + 1) == Scarcity(params.tiers, k)
    ensures At(WeightsOf(params, y), p) < At(WeightsOf(params, x), p) <==>
      f > 0 && Scarcity(params.tiers, k + 1) < Scarcity(params.tiers, k)
  {
    var own := Own(x.slots, p);
    assert s in [s];
    OwnUnmoved(x, y, p, a, [s], b);
    OperatorAdded(params, a, s, b);
    forall t: nat | t != s.segment ensures ProvenOperators(params, y.slots, t) == ProvenOperators(params, x.slots, t) {
      OperatorsUnmoved(params, a, [s], b, t);
    }
    SumMoves(params, x, y, own, s.segment, k);
    WholeWeight(params, x, p);
    WholeWeight(params, y, p);
    MovesIff(At(WeightsOf(params, x), p), At(WeightsOf(params, y), p), f,
      Scarcity(params.tiers, k), Scarcity(params.tiers, k + 1));
  }

  // --- Valid tiers ----------------------------------------------------------------------------------

  /** Tiers ask for fewer and fewer proven replicas, down to one, and never pay less for it. */
  predicate ValidTiers(tiers: seq<Tier>) {
    && tiers != [] && tiers[|tiers| - 1].minProven == 1
    && forall i: nat :: 0 < i < |tiers| ==>
         tiers[i].minProven < tiers[i - 1].minProven && tiers[i - 1].multiplier <= tiers[i].multiplier
  }

  /** A later tier pays at least as much as the first. */
  lemma {:induction false} ScarcityAtLeast(tiers: seq<Tier>, k: nat)
    requires ValidTiers(tiers) && k > 0
    ensures Scarcity(tiers, k) >= tiers[0].multiplier
  {
    if k < tiers[0].minProven {
      ScarcityAtLeast(tiers[1..], k);
    }
  }

  lemma {:induction false} ScarcityFalls(tiers: seq<Tier>, k: nat)
    requires ValidTiers(tiers) && k > 0
    ensures Scarcity(tiers, k + 1) <= Scarcity(tiers, k)
  {
    if k + 1 < tiers[0].minProven {
      ScarcityFalls(tiers[1..], k);
    } else if k < tiers[0].minProven {
      ScarcityAtLeast(tiers, k);
    }
  }

  lemma {:induction false} ProportionalMono(amount: nat, part: nat, more: nat, whole: nat)
    requires part <= more
    ensures Proportional(amount, part, whole) <= Proportional(amount, more, whole)
  {
    if whole > 0 {
      HalveFits(whole);
      HalveMono(part, more, Shifts(whole));
      MulMono(amount, Halve(part, Shifts(whole)), Halve(more, Shifts(whole)));
      FloorMono(amount * Halve(part, Shifts(whole)), amount * Halve(more, Shifts(whole)), Halve(whole, Shifts(whole)));
    }
  }

  /** With valid tiers and within the target, a new operator on one of the provider's segments
      never raises its reward, and leaves it as it was where the scarcity tier stays. */
  lemma {:induction false} RewardUnderNewOperator(
    params: Parameters, x: Inputs, y: Inputs, p: string, a: seq<Slot>, s: Slot, b: seq<Slot>, k: nat)
    requires Joins(x, y, p, a, [s], b) && Proven(params, s) && ValidTiers(params.tiers)
    requires s.operator !in ProvenOperators(params, x.slots, s.segment)
    requires k == |ProvenOperators(params, x.slots, s.segment)|
    requires WithinTarget(params, x) && WithinTarget(params, y) && k > 0
    ensures At(RewardsOf(params, y), p) <= At(RewardsOf(params, x), p)
    ensures Scarcity(params.tiers, k + 1) == Scarcity(params.tiers, k) ==>
      At(RewardsOf(params, y), p) == At(RewardsOf(params, x), p)
  {
    NewOperatorMovesWeight(params, x, y, p, a, s, b, k, OtherFactors(params, x, Own(x.slots, p), s.segment));
    ScarcityFalls(params.tiers, k);
    FixedRate(params, x, p);
    FixedRate(params, y, p);
    ProportionalMono(Budget(params, x.cap), At(WeightsOf(params, y), p), At(WeightsOf(params, x), p),
      TargetOf(params, x.segments));
  }
}
