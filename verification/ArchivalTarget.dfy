/** Where the proven weight can pass the reward target. Each tier pays `k` proven replicas of a
    segment no more than its full target in every shipped parameter set, so there the fixed rate
    always applies. */
module ArchivalTarget {
  import opened Wrappers
  import opened Quorum
  import opened Sums
  import opened Arithmetic
  import opened ArchivalRewards
  import opened ArchivalJoining

  /** All replicas of a segment together, at the scarcity their number earns, weigh no more than
      the full number of replicas at unit weight. */
  predicate Affordable(params: Parameters) {
    forall k: nat :: k <= params.replicas ==> k * Scarcity(params.tiers, k) <= params.replicas * BASIS_POINTS
  }

  lemma {:induction false} TotalIsSum(params: Parameters, x: Inputs, n: nat)
    requires n <= |x.slots|
    ensures Total(WeightsUpTo(params, x, n)) == SumWeights(params, x, x.slots[..n])
  {
    if n > 0 {
      TotalIsSum(params, x, n - 1);
      assert x.slots[..n][..n - 1] == x.slots[..n - 1];
      var before, s := WeightsUpTo(params, x, n - 1), x.slots[n - 1];
      if Proven(params, s) {
        TotalUpdate(before, s.provider, At(before, s.provider) + SlotWeight(params, x, s));
      }
    }
  }

  // --- What is accepted -------------------------------------------------------------------------------

  lemma {:induction false} SlotsCounted(slots: seq<Slot>, n: nat, g: nat)
    requires n <= |slots|
    ensures SlotsOn(slots[..n], g) == |set i: nat | i < n && slots[i].segment == g|
  {
    var now := set i: nat | i < n && slots[i].segment == g;
    if n == 0 {
      assert now == {};
    } else {
      SlotsCounted(slots, n - 1, g);
      var before := set i: nat | i < n - 1 && slots[i].segment == g;
      assert slots[..n][..n - 1] == slots[..n - 1];
      assert now == before + (if slots[n - 1].segment == g then {n - 1} else {});
    }
  }

  /** Inputs are accepted exactly when: segments are distinct and not empty; every slot names its
      provider and operator, passed no more than was issued, and is of a listed segment; a
      provider has one operator, and no provider or operator two slots of a segment; no segment
      has more slots than replicas; and no reliability exceeds the whole. */
  lemma {:induction false} AcceptedInputsIff(params: Parameters, x: Inputs, safeId: string -> bool)
    ensures WellFormed(params, x, safeId) <==>
      && (forall i: nat :: i < |x.segments| ==> x.segments[i].bytes > 0)
      && (forall i: nat, j: nat :: i < j < |x.segments| ==> x.segments[i].index != x.segments[j].index)
      && (forall i: nat :: i < |x.slots| ==>
            && safeId(x.slots[i].provider) && safeId(x.slots[i].operator) && x.slots[i].passed <= x.slots[i].issued
            && Lists(x.segments, x.slots[i].segment))
      && (forall i: nat, j: nat :: i < j < |x.slots| ==>
            if x.slots[i].provider == x.slots[j].provider
            then x.slots[i].operator == x.slots[j].operator && x.slots[i].segment != x.slots[j].segment
            else x.slots[i].operator != x.slots[j].operator || x.slots[i].segment != x.slots[j].segment)
      && (forall g: nat :: |SlotsAt(x.slots, g)| <= params.replicas)
      && (forall p :: p in x.reliability ==> x.reliability[p] <= BASIS_POINTS && safeId(p))
  {
    assert x.slots[..|x.slots|] == x.slots;
    forall g: nat ensures SlotsOn(x.slots, g) == |SlotsAt(x.slots, g)| {
      SlotsCounted(x.slots, |x.slots|, g);
    }
    forall i: nat, j: nat | i < j < |x.slots| ensures Compatible(x.slots[i], x.slots[j]) <==>
      if x.slots[i].provider == x.slots[j].provider
      then x.slots[i].operator == x.slots[j].operator && x.slots[i].segment != x.slots[j].segment
      else x.slots[i].operator != x.slots[j].operator || x.slots[i].segment != x.slots[j].segment
    {
    }
    forall i: nat | i < |x.slots| ensures GoodSlot(x.segments, x.slots[i], safeId) <==>
      && safeId(x.slots[i].provider) && safeId(x.slots[i].operator) && x.slots[i].passed <= x.slots[i].issued
      && Lists(x.segments, x.slots[i].segment)
    {
    }
  }

  function SlotsAt(slots: seq<Slot>, g: nat): set<nat> {
    set i: nat | i < |slots| && slots[i].segment == g
  }

  // --- Grouping the slots by segment ----------------------------------------------------------------

  function SumOn(params: Parameters, x: Inputs, slots: seq<Slot>, segment: nat): nat {
    if slots == [] then 0
    else
      SumOn(params, x, slots[..|slots| - 1], segment)
      + if slots[|slots| - 1].segment == segment then SlotWeight(params, x, slots[|slots| - 1]) else 0
  }

  function SumOver(params: Parameters, x: Inputs, slots: seq<Slot>, segments: seq<Segment>): nat {
    if segments == [] then 0
    else
      SumOver(params, x, slots, segments[..|segments| - 1])
      + SumOn(params, x, slots, segments[|segments| - 1].index)
  }

  ghost predicate Lists(segments: seq<Segment>, index: nat) {
    exists i: nat :: i < |segments| && segments[i].index == index
  }

  lemma ListsLast(segments: seq<Segment>, index: nat)
    requires segments != [] && GoodSegments(segments)
    ensures Lists(segments, index) <==> Lists(segments[..|segments| - 1], index) || segments[|segments| - 1].index == index
    ensures Lists(segments[..|segments| - 1], index) ==> segments[|segments| - 1].index != index
  {
    var front := segments[..|segments| - 1];
    assert forall i: nat :: i < |front| ==> front[i] == segments[i];
    if Lists(segments, index) && segments[|segments| - 1].index != index {
      var i: nat :| i < |segments| && segments[i].index == index;
      assert front[i].index == index;
    }
    if Lists(front, index) {
      var i: nat :| i < |front| && front[i].index == index;
      assert segments[i].index == index;
    }
  }

  /** One more slot adds its weight to its own segment, once. */
  lemma {:induction false} SlotCountedOnce(params: Parameters, x: Inputs, slots: seq<Slot>, s: Slot, segments: seq<Segment>)
    requires GoodSegments(segments)
    ensures SumOver(params, x, slots + [s], segments) == SumOver(params, x, slots, segments)
      + if Lists(segments, s.segment) then SlotWeight(params, x, s) else 0
  {
    if segments != [] {
      var front, last := segments[..|segments| - 1], segments[|segments| - 1];
      SlotCountedOnce(params, x, slots, s, front);
      assert (slots + [s])[..|slots|] == slots;
      ListsLast(segments, s.segment);
    }
  }

  lemma {:induction false} SumOverNothing(params: Parameters, x: Inputs, segments: seq<Segment>)
    ensures SumOver(params, x, [], segments) == 0
  {
    if segments != [] {
      SumOverNothing(params, x, segments[..|segments| - 1]);
    }
  }

  lemma {:induction false} SumBySegment(params: Parameters, x: Inputs, slots: seq<Slot>, segments: seq<Segment>)
    requires GoodSegments(segments) && forall s :: s in slots ==> Lists(segments, s.segment)
    ensures SumWeights(params, x, slots) == SumOver(params, x, slots, segments)
  {
    if slots == [] {
      SumOverNothing(params, x, segments);
    } else {
      var front, last := slots[..|slots| - 1], slots[|slots| - 1];
      SumBySegment(params, x, front, segments);
      SlotCountedOnce(params, x, front, last, segments);
      assert slots == front + [last];
    }
  }

  // --- One segment ----------------------------------------------------------------------------------

  function ProvenOn(params: Parameters, slots: seq<Slot>, segment: nat): nat {
    if slots == [] then 0
    else
      ProvenOn(params, slots[..|slots| - 1], segment)
      + if slots[|slots| - 1].segment == segment && Proven(params, slots[|slots| - 1]) then 1 else 0
  }

  ghost predicate OperatorsDiffer(slots: seq<Slot>) {
    forall i: nat, j: nat :: i < j < |slots| ==> Compatible(slots[i], slots[j])
  }

  lemma NewOperator(params: Parameters, front: seq<Slot>, last: Slot)
    requires OperatorsDiffer(front + [last])
    ensures OperatorsDiffer(front) && last.operator !in ProvenOperators(params, front, last.segment)
  {
    var slots := front + [last];
    forall i: nat, j: nat | i < j < |front| ensures Compatible(front[i], front[j]) {
      assert Compatible(slots[i], slots[j]);
    }
    forall i: nat | i < |front| && front[i].segment == last.segment ensures front[i].operator != last.operator {
      assert Compatible(slots[i], slots[|front|]);
    }
  }

  /** Slots of one segment have different operators, so the proven ones are counted by them. */
  lemma {:induction false} ProvenCount(params: Parameters, slots: seq<Slot>, segment: nat)
    requires OperatorsDiffer(slots)
    ensures ProvenOn(params, slots, segment) == |ProvenOperators(params, slots, segment)| <= SlotsOn(slots, segment)
  {
    if slots != [] {
      var front, last := slots[..|slots| - 1], slots[|slots| - 1];
      assert slots == front + [last];
      NewOperator(params, front, last);
      ProvenCount(params, front, segment);
      assert slots == front + [last] + [] && front == front + [];
      if last.segment == segment && Proven(params, last) {
        OperatorAdded(params, front, last, []);
      } else {
        OperatorsUnmoved(params, front, [last], [], segment);
      }
    }
  }

  /** A proven slot never weighs more than its segment's bytes at its scarcity. */
  lemma {:induction false} SlotAtMost(params: Parameters, x: Inputs, s: Slot, bytes: nat, scarcity: nat)
    requires s.passed <= s.issued && Reliability(params, x, s.provider) <= BASIS_POINTS
    requires bytes == BytesOf(x.segments, s.segment)
    requires scarcity == Scarcity(params.tiers, |ProvenOperators(params, x.slots, s.segment)|)
    ensures SlotWeight(params, x, s) <= Product4(bytes, scarcity, BASIS_POINTS, BASIS_POINTS)
    ensures !Proven(params, s) ==> SlotWeight(params, x, s) == 0
  {
    if Proven(params, s) {
      assert Availability(s) <= BASIS_POINTS by {
        MulMono(BASIS_POINTS, s.passed, s.issued);
        FloorMono(s.passed * BASIS_POINTS, s.issued * BASIS_POINTS, s.issued);
        DivUnique(s.issued * BASIS_POINTS, s.issued, BASIS_POINTS);
      }
      var base := bytes * scarcity;
      MulNonNegative(bytes, scarcity);
      MulMono(base, Availability(s), BASIS_POINTS);
      MulNonNegative(base, Availability(s));
      MulMono(base * Availability(s), Reliability(params, x, s.provider), BASIS_POINTS);
      MulMono(BASIS_POINTS, base * Availability(s), base * BASIS_POINTS);
    }
  }

  function Times(k: nat, unit: nat): nat {
    MulNonNegative(k, unit);
    k * unit
  }

  lemma TimesNext(k: nat, unit: nat)
    ensures Times(k + 1, unit) == Times(k, unit) + unit
  {
  }

  lemma {:induction false} SegmentAtMost(
    params: Parameters, x: Inputs, slots: seq<Slot>, segment: nat, bytes: nat, scarcity: nat, unit: nat)
    requires forall s :: s in slots ==> s.passed <= s.issued && Reliability(params, x, s.provider) <= BASIS_POINTS
    requires bytes == BytesOf(x.segments, segment)
    requires scarcity == Scarcity(params.tiers, |ProvenOperators(params, x.slots, segment)|)
    requires unit == Product4(bytes, scarcity, BASIS_POINTS, BASIS_POINTS)
    ensures SumOn(params, x, slots, segment) <= Times(ProvenOn(params, slots, segment), unit)
  {
    if slots != [] {
      var front, last := slots[..|slots| - 1], slots[|slots| - 1];
      SegmentAtMost(params, x, front, segment, bytes, scarcity, unit);
      if last.segment == segment {
        SlotAtMost(params, x, last, bytes, scarcity);
      }
      TimesNext(ProvenOn(params, front, segment), unit);
    }
  }

  lemma {:induction false} UnitWithinTarget(k: nat, bytes: nat, scarcity: nat, replicas: nat)
    requires k * scarcity <= replicas * BASIS_POINTS
    ensures Times(k, Product4(bytes, scarcity, BASIS_POINTS, BASIS_POINTS)) <= Product4(bytes, replicas, UNIT_WEIGHT, 1)
  {
    var square := BASIS_POINTS * BASIS_POINTS;
    var c, d := k * scarcity, replicas * BASIS_POINTS;
    MulNonNegative(k, scarcity);
    MulMono(bytes, c, d);
    assert k * (bytes * scarcity * BASIS_POINTS * BASIS_POINTS) == bytes * c * square by {
      assert k * (bytes * scarcity) == bytes * c;
      assert bytes * scarcity * BASIS_POINTS * BASIS_POINTS == bytes * scarcity * square;
    }
    assert bytes * replicas * UNIT_WEIGHT * 1 == bytes * d * square;
  }

  // --- The whole epoch ------------------------------------------------------------------------------

  lemma {:induction false} BytesFound(segments: seq<Segment>, i: nat)
    requires GoodSegments(segments) && i < |segments|
    ensures BytesOf(segments, segments[i].index) == segments[i].bytes
  {
    if i > 0 {
      var rest := segments[1..];
      assert forall j: nat :: j < |rest| ==> rest[j] == segments[j + 1];
      assert rest[i - 1] == segments[i];
      BytesFound(rest, i - 1);
    }
  }

  ghost predicate Payable(params: Parameters, x: Inputs, safeId: string -> bool) {
    WellFormed(params, x, safeId) && Affordable(params) && params.reliabilityFloor <= BASIS_POINTS
  }

  lemma {:induction false} SegmentWithinTarget(params: Parameters, x: Inputs, safeId: string -> bool, i: nat)
    requires Payable(params, x, safeId) && i < |x.segments|
    ensures SumOn(params, x, x.slots, x.segments[i].index) <= Product4(x.segments[i].bytes, params.replicas, UNIT_WEIGHT, 1)
  {
    var g, bytes := x.segments[i].index, x.segments[i].bytes;
    BytesFound(x.segments, i);
    ProvenCount(params, x.slots, g);
    var k := |ProvenOperators(params, x.slots, g)|;
    var scarcity := Scarcity(params.tiers, k);
    SegmentAtMost(params, x, x.slots, g, bytes, scarcity, Product4(bytes, scarcity, BASIS_POINTS, BASIS_POINTS));
    assert SlotsOn(x.slots, g) <= params.replicas;
    UnitWithinTarget(k, bytes, scarcity, params.replicas);
  }

  lemma {:induction false} SegmentsWithinTarget(params: Parameters, x: Inputs, safeId: string -> bool, n: nat)
    requires Payable(params, x, safeId) && n <= |x.segments|
    ensures SumOver(params, x, x.slots, x.segments[..n]) <= TargetOf(params, x.segments[..n])
  {
    if n > 0 {
      SegmentsWithinTarget(params, x, safeId, n - 1);
      SegmentWithinTarget(params, x, safeId, n - 1);
      assert x.segments[..n][..n - 1] == x.segments[..n - 1];
    }
  }

  /** With affordable tiers no accepted epoch passes the target: the budget is never shared pro
      rata, and every weighted byte earns the fixed rate. */
  lemma {:induction false} AffordableStaysWithinTarget(params: Parameters, x: Inputs, safeId: string -> bool)
    requires Payable(params, x, safeId)
    ensures WithinTarget(params, x)
  {
    TotalIsSum(params, x, |x.slots|);
    assert x.slots[..|x.slots|] == x.slots && x.segments[..|x.segments|] == x.segments;
    forall s | s in x.slots ensures Lists(x.segments, s.segment) {
      var i :| 0 <= i < |x.slots| && x.slots[i] == s;
      assert GoodSlot(x.segments, x.slots[i], safeId);
    }
    SumBySegment(params, x, x.slots, x.segments);
    SegmentsWithinTarget(params, x, safeId, |x.segments|);
  }

  /** So with affordable tiers the promise holds, in every accepted epoch, against all others that
      join on segments the provider does not prove. */
  lemma {:induction false} FixedRateKept(
    params: Parameters, x: Inputs, y: Inputs, p: string, a: seq<Slot>, extra: seq<Slot>, b: seq<Slot>,
    safeId: string -> bool)
    requires Payable(params, x, safeId) && Payable(params, y, safeId)
    requires Joins(x, y, p, a, extra, b) && Elsewhere(params, x, p, extra)
    ensures At(RewardsOf(params, y), p) == At(RewardsOf(params, x), p)
  {
    AffordableStaysWithinTarget(params, x, safeId);
    AffordableStaysWithinTarget(params, y, safeId);
    RewardKeptElsewhere(params, x, y, p, a, extra, b);
  }

  // --- The shipped parameters -----------------------------------------------------------------------

  const TESTNET := Parameters(5, 9_000, 5_000, 1_000,
    [Tier(5, 10_000), Tier(4, 12_500), Tier(3, 15_000), Tier(2, 20_000), Tier(1, 30_000)])

  const DEVELOPMENT := Parameters(3, 8_000, 5_000, 1_000, [Tier(3, 10_000), Tier(2, 15_000), Tier(1, 25_000)])

  lemma TestnetScarcity(k: nat)
    ensures Scarcity(TESTNET.tiers, k) ==
      if k == 0 then 0 else if k == 1 then 30_000 else if k == 2 then 20_000
      else if k == 3 then 15_000 else if k == 4 then 12_500 else 10_000
  {
    var t := TESTNET.tiers;
    assert t[1..] == [Tier(4, 12_500), Tier(3, 15_000), Tier(2, 20_000), Tier(1, 30_000)];
    assert t[1..][1..] == [Tier(3, 15_000), Tier(2, 20_000), Tier(1, 30_000)];
    assert t[1..][1..][1..] == [Tier(2, 20_000), Tier(1, 30_000)];
    assert t[1..][1..][1..][1..] == [Tier(1, 30_000)];
  }

  lemma DevelopmentScarcity(k: nat)
    ensures Scarcity(DEVELOPMENT.tiers, k) ==
      if k == 0 then 0 else if k == 1 then 25_000 else if k == 2 then 15_000 else 10_000
  {
    var t := DEVELOPMENT.tiers;
    assert t[1..] == [Tier(2, 15_000), Tier(1, 25_000)];
    assert t[1..][1..] == [Tier(1, 25_000)];
  }

  /** Both shipped schedules are affordable and their tiers valid. */
  lemma ShippedAffordable()
    ensures Affordable(TESTNET) && Affordable(DEVELOPMENT)
    ensures ValidTiers(TESTNET.tiers) && ValidTiers(DEVELOPMENT.tiers)
  {
    forall k: nat | k <= TESTNET.replicas
      ensures k * Scarcity(TESTNET.tiers, k) <= TESTNET.replicas * BASIS_POINTS
    {
      TestnetScarcity(k);
    }
    forall k: nat | k <= DEVELOPMENT.replicas
      ensures k * Scarcity(DEVELOPMENT.tiers, k) <= DEVELOPMENT.replicas * BASIS_POINTS
    {
      DevelopmentScarcity(k);
    }
  }

  // --- The promise fails ----------------------------------------------------------------------------

  const FIRST := Slot("p", "operator-p", 0, 10, 10, false)
  const SECOND := Slot("q", "operator-q", 0, 10, 10, false)

  function Epoch(slots: seq<Slot>): Inputs {
    Inputs(1_000_000, [Segment(0, 1)], slots, map["p" := 10_000, "q" := 10_000])
  }

  /** The second provider joins with another operator: nothing else changes. */
  lemma {:induction false} EpochsWellFormed(safeId: string -> bool)
    requires safeId("p") && safeId("q") && safeId("operator-p") && safeId("operator-q")
    ensures WellFormed(TESTNET, Epoch([FIRST]), safeId) && WellFormed(TESTNET, Epoch([FIRST, SECOND]), safeId)
  {
    var x, y := Epoch([FIRST]), Epoch([FIRST, SECOND]);
    assert x.segments[0].index == 0;
    assert [FIRST, SECOND][..1] == [FIRST] && [FIRST][..0] == [];
    forall g: nat ensures SlotsOn([FIRST], g) <= 1 && SlotsOn([FIRST, SECOND], g) <= 2 {
      assert SlotsOn([], g) == 0;
    }
  }

  lemma {:induction false} FirstProof(slots: seq<Slot>, operators: set<string>)
    requires (slots, operators) == ([FIRST], {"operator-p"})
      || (slots, operators) == ([FIRST, SECOND], {"operator-p", "operator-q"})
    ensures Proven(TESTNET, FIRST) && Proven(TESTNET, SECOND) && Availability(FIRST) == BASIS_POINTS
    ensures ProvenOperators(TESTNET, slots, 0) == operators && Own(slots, "p") == [FIRST]
  {
    DivUnique(10 * BASIS_POINTS, 10, BASIS_POINTS);
    assert slots[0] == FIRST;
    assert |slots| == 2 ==> slots[1] == SECOND && slots[..1] == [FIRST];
    assert [FIRST][..0] == [] && Own([FIRST], "p") == [FIRST];
  }

  lemma {:induction false} FirstWeighs(slots: seq<Slot>, operators: set<string>)
    requires (slots, operators) == ([FIRST], {"operator-p"})
      || (slots, operators) == ([FIRST, SECOND], {"operator-p", "operator-q"})
    ensures At(WeightsOf(TESTNET, Epoch(slots)), "p") == Scarcity(TESTNET.tiers, |operators|) * (BASIS_POINTS * BASIS_POINTS)
  {
    FirstProof(slots, operators);
    WholeWeight(TESTNET, Epoch(slots), "p");
    SumWeightsAppend(TESTNET, Epoch(slots), [], FIRST);
    assert [] + [FIRST] == [FIRST];
    SlotOfOneByte(Epoch(slots), FIRST, Scarcity(TESTNET.tiers, |operators|));
  }

  lemma {:induction false} SlotOfOneByte(x: Inputs, s: Slot, scarcity: nat)
    requires Proven(TESTNET, s) && Availability(s) == BASIS_POINTS && s.segment == 0 && x.segments == [Segment(0, 1)]
    requires s.provider in x.reliability && x.reliability[s.provider] == BASIS_POINTS
    requires scarcity == Scarcity(TESTNET.tiers, |ProvenOperators(TESTNET, x.slots, 0)|)
    ensures SlotWeight(TESTNET, x, s) == scarcity * (BASIS_POINTS * BASIS_POINTS)
  {
    assert BytesOf(x.segments, 0) == 1;
  }

  lemma {:induction false} FirstEarns(x: Inputs, units: nat)
    requires WithinTarget(TESTNET, x) && x.cap == 1_000_000 && x.segments == [Segment(0, 1)]
    requires At(WeightsOf(TESTNET, x), "p") == units * UNIT_WEIGHT
    ensures At(RewardsOf(TESTNET, x), "p") == 20_000 * units
  {
    var target := 5 * UNIT_WEIGHT;
    FixedRate(TESTNET, x, "p");
    assert x.segments[..0] == [] && TargetOf(TESTNET, []) == 0;
    assert TargetOf(TESTNET, x.segments) == target;
    DivUnique(1_000_000 * 1_000, BASIS_POINTS, 100_000);
    assert Budget(TESTNET, x.cap) == 100_000;
    ExactShare(100_000, units * UNIT_WEIGHT, target);
    DivUnique(100_000 * (units * UNIT_WEIGHT), target, 20_000 * units);
  }

  lemma {:induction false} EpochPays(x: Inputs, slots: seq<Slot>, operators: set<string>, units: nat, safeId: string -> bool)
    requires (slots, operators) == ([FIRST], {"operator-p"})
      || (slots, operators) == ([FIRST, SECOND], {"operator-p", "operator-q"})
    requires x == Epoch(slots) && WellFormed(TESTNET, x, safeId) && Scarcity(TESTNET.tiers, |operators|) == units * BASIS_POINTS
    ensures WithinTarget(TESTNET, x) && At(RewardsOf(TESTNET, x), "p") == 20_000 * units
  {
    ShippedAffordable();
    AffordableStaysWithinTarget(TESTNET, x, safeId);
    FirstWeighs(slots, operators);
    FirstEarns(x, units);
  }

  /** The failing input, with the testnet parameters: a second operator proves the segment of the
      only provider, the epoch stays within the target, and the first reward falls by a third. */
  lemma {:induction false} JoiningCutsReward(safeId: string -> bool, x: Inputs, y: Inputs)
    requires safeId("p") && safeId("q") && safeId("operator-p") && safeId("operator-q")
    requires x == Epoch([FIRST]) && y == Epoch([FIRST, SECOND])
    ensures WellFormed(TESTNET, x, safeId) && WellFormed(TESTNET, y, safeId)
    ensures WithinTarget(TESTNET, x) && WithinTarget(TESTNET, y)
    ensures At(RewardsOf(TESTNET, x), "p") == 60_000 && At(RewardsOf(TESTNET, y), "p") == 40_000
  {
    EpochsWellFormed(safeId);
    var one, two := {"operator-p"}, {"operator-p", "operator-q"};
    TestnetScarcity(|one|);
    TestnetScarcity(|two|);
    EpochPays(x, [FIRST], one, 3, safeId);
    EpochPays(y, [FIRST, SECOND], two, 2, safeId);
  }
}
