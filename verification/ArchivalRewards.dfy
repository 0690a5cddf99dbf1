/** Archival rewards: a fixed budget is shared in proportion to proven work, rounding down, and
    never exceeded. */
module ArchivalRewards {
  import opened Wrappers
  import opened Quorum
  import opened Sums
  import opened Arithmetic

  const BASIS_POINTS: nat := 10_000
  const UNIT_WEIGHT: nat := BASIS_POINTS * BASIS_POINTS * BASIS_POINTS
  const WIDE_MAX: nat := 0xFFFF_FFFF_FFFF_FFFF_FFFF_FFFF_FFFF_FFFF

  // --- One share ------------------------------------------------------------------------------------

  function Halve(n: nat, times: nat): nat {
    if times == 0 then n else Halve(n / 2, times - 1)
  }

  /** How often a number is halved until it fits 64 bits. */
  function Shifts(whole: nat): nat {
    if whole <= UINT64_MAX then 0 else 1 + Shifts(whole / 2)
  }

  /** The share of `amount` for `part` out of `whole`, both first halved alike until the whole
      fits 64 bits. */
  function Proportional(amount: nat, part: nat, whole: nat): nat {
    if amount == 0 || part == 0 || whole == 0 then 0
    else
      HalveFits(whole);
      MulDiv(amount, Halve(part, Shifts(whole)), Halve(whole, Shifts(whole)))
  }

  lemma {:induction false} HalveFits(whole: nat)
    ensures Halve(whole, Shifts(whole)) <= UINT64_MAX
    ensures whole > 0 ==> Halve(whole, Shifts(whole)) > 0
  {
    if whole > UINT64_MAX {
      HalveFits(whole / 2);
    }
  }

  method ComputeProportional(amount: nat, part: nat, whole: nat) returns (share: nat)
    requires part <= whole && amount <= INT64_MAX
    ensures share == Proportional(amount, part, whole)
  {
    if amount == 0 || part == 0 || whole == 0 {
      return 0;
    }
    HalveFits(whole);
    var p, w := part, whole;
    while w > UINT64_MAX
      invariant w > 0 && Halve(p, Shifts(w)) == Halve(part, Shifts(whole)) && Halve(w, Shifts(w)) == Halve(whole, Shifts(whole))
    {
      p, w := p / 2, w / 2;
    }
    share := MulDiv(amount, p, w);
  }

  /** The share is the plain rounded-down proportion while the whole fits 64 bits. */
  lemma {:induction false} ExactShare(amount: nat, part: nat, whole: nat)
    requires 0 < whole <= UINT64_MAX
    ensures Proportional(amount, part, whole) == MulDiv(amount, part, whole)
  {
  }

  lemma {:induction false} HalveIsDivision(n: nat, times: nat)
    ensures Halve(n, times) == n / Pow2(times)
  {
    if times > 0 {
      HalveIsDivision(n / 2, times - 1);
      DivDiv(n, 2, Pow2(times - 1));
    }
  }

  /** Halving stops as soon as the number fits. */
  lemma {:induction false} HalveStaysLarge(whole: nat)
    requires whole > UINT64_MAX
    ensures Shifts(whole) >= 1 && Halve(whole, Shifts(whole)) > INT64_MAX
  {
    if whole / 2 > UINT64_MAX {
      HalveStaysLarge(whole / 2);
    }
  }

  /** The whole loses a bit: a share of all but one part takes everything. */
  lemma {:induction false} OddWholeInexact(whole: nat, d: nat)
    requires whole > UINT64_MAX && d == Pow2(Shifts(whole)) && whole % d != 0
    ensures Proportional(1, whole - 1, whole) != MulDiv(1, whole - 1, whole)
  {
    HalveIsDivision(whole, Shifts(whole));
    HalveIsDivision(whole - 1, Shifts(whole));
    Division(whole, d);
    DivUnique(whole - 1, d, whole / d);
    HalveFits(whole);
    DivUnique(whole - 1, whole, 0);
  }

  lemma {:induction false} LargeEnough(a: nat, d: nat, w: nat)
    requires a == (w - 1) / 2 && w >= 10 && d >= 2
    ensures a * (3 * d - 1) >= d * w
  {
    var x := a * d;
    assert a * (3 * d - 1) == 3 * x - a;
    MulMono(a, 2, d);
    MulMono(d, 2 * w, 5 * a);
    assert d * (5 * a) == 5 * x && d * (2 * w) == 2 * (d * w);
  }

  /** The whole loses nothing, but a part does: a share that should be one becomes none. */
  lemma {:induction false} EvenWholeInexact(whole: nat, d: nat, w: nat)
    requires whole > UINT64_MAX && d == Pow2(Shifts(whole)) && d >= 2
    requires whole == d * w && INT64_MAX < w <= UINT64_MAX && w == Halve(whole, Shifts(whole))
    ensures 3 * d - 1 <= whole && (w - 1) / 2 <= INT64_MAX
    ensures Proportional((w - 1) / 2, 3 * d - 1, whole) != MulDiv((w - 1) / 2, 3 * d - 1, whole)
  {
    var a, part := (w - 1) / 2, 3 * d - 1;
    MulMono(d, 3, w);
    HalveIsDivision(part, Shifts(whole));
    DivUnique(part, d, 2);
    DivUnique(a * 2, w, 0);
    LargeEnough(a, d, w);
    FloorAtLeast(a * part, whole, 1);
  }

  ghost predicate AlwaysExact(whole: nat) {
    forall amount: nat, part: nat :: amount <= INT64_MAX && part <= whole ==>
      whole > 0 && Proportional(amount, part, whole) == MulDiv(amount, part, whole)
  }

  /** The shares of a whole are the plain rounded-down proportions exactly when the whole fits 64
      bits. */
  lemma {:induction false} ExactIff(whole: nat)
    requires whole > 0
    ensures AlwaysExact(whole) <==> whole <= UINT64_MAX
  {
    if whole <= UINT64_MAX {
      forall amount: nat, part: nat | amount <= INT64_MAX && part <= whole
        ensures Proportional(amount, part, whole) == MulDiv(amount, part, whole)
      {
        ExactShare(amount, part, whole);
      }
    } else {
      HalveStaysLarge(whole);
      HalveFits(whole);
      var d := Pow2(Shifts(whole));
      HalveIsDivision(whole, Shifts(whole));
      if whole % d != 0 {
        OddWholeInexact(whole, d);
      } else {
        EvenWholeInexact(whole, d, whole / d);
      }
    }
  }

  // --- All shares -----------------------------------------------------------------------------------

  lemma {:induction false} HalvesAdd(a: nat, b: nat, times: nat)
    ensures Halve(a, times) + Halve(b, times) <= Halve(a + b, times)
  {
    if times > 0 {
      HalvesAdd(a / 2, b / 2, times - 1);
      HalveMono(a / 2 + b / 2, (a + b) / 2, times - 1);
    }
  }

  lemma {:induction false} HalveMono(a: nat, b: nat, times: nat)
    requires a <= b
    ensures Halve(a, times) <= Halve(b, times)
  {
    if times > 0 {
      HalveMono(a / 2, b / 2, times - 1);
    }
  }

  function Shares(amount: nat, weights: Weights, whole: nat): Weights {
    map p | p in weights :: Proportional(amount, weights[p], whole)
  }

  lemma {:induction false} MulDivAdd(amount: nat, x: nat, y: nat, z: nat, w: nat)
    requires w > 0 && x + y <= z
    ensures MulDiv(amount, x, w) + MulDiv(amount, y, w) <= MulDiv(amount, z, w)
  {
    FloorsAdd(amount * x, amount * y, w);
    assert amount * x + amount * y == amount * (x + y);
    MulMono(amount, x + y, z);
    FloorMono(amount * (x + y), amount * z, w);
  }

  /** Any group's shares together stay within the amount, in proportion to the group. */
  lemma {:induction false} SharesOf(amount: nat, weights: Weights, whole: nat, group: set<string>)
    requires whole > 0
    ensures Halve(whole, Shifts(whole)) > 0
    ensures Weight(Shares(amount, weights, whole), group)
      <= MulDiv(amount, Halve(Weight(weights, group), Shifts(whole)), Halve(whole, Shifts(whole)))
  {
    HalveFits(whole);
    if group != {} {
      var p :| p in group;
      var rest := group - {p};
      SharesOf(amount, weights, whole, rest);
      WeightPeel(weights, group, p);
      WeightPeel(Shares(amount, weights, whole), group, p);
      var k := Shifts(whole);
      HalvesAdd(At(weights, p), Weight(weights, rest), k);
      ShareAtMost(amount, At(weights, p), whole);
      MulDivAdd(amount, Halve(At(weights, p), k), Halve(Weight(weights, rest), k),
        Halve(Weight(weights, group), k), Halve(whole, k));
    }
  }

  lemma {:induction false} ShareAtMost(amount: nat, part: nat, whole: nat)
    requires whole > 0
    ensures Halve(whole, Shifts(whole)) > 0
    ensures Proportional(amount, part, whole) <= MulDiv(amount, Halve(part, Shifts(whole)), Halve(whole, Shifts(whole)))
  {
    HalveFits(whole);
  }

  /** Weights that together do not exceed the whole never earn more than the amount. */
  lemma {:induction false} SharesWithinAmount(amount: nat, weights: Weights, whole: nat)
    requires Total(weights) <= whole && whole > 0
    ensures Total(Shares(amount, weights, whole)) <= amount
  {
    HalveFits(whole);
    var k, w := Shifts(whole), Halve(whole, Shifts(whole));
    SharesOf(amount, weights, whole, weights.Keys);
    assert Shares(amount, weights, whole).Keys == weights.Keys;
    HalveMono(Total(weights), whole, k);
    MulDivAdd(amount, Halve(Total(weights), k), 0, w, w);
    DivUnique(amount * w, w, amount);
  }

  // --- The weights ----------------------------------------------------------------------------------

  datatype Slot = Slot(provider: string, operator: string, segment: nat, issued: nat, passed: nat, fraud: bool)

  datatype Segment = Segment(index: nat, bytes: nat)

  datatype Tier = Tier(minProven: nat, multiplier: nat)

  datatype Parameters = Parameters(
    replicas: nat, minAvailability: nat, reliabilityFloor: nat, share: nat, tiers: seq<Tier>)

  datatype Inputs = Inputs(cap: nat, segments: seq<Segment>, slots: seq<Slot>, reliability: map<string, nat>)

  /** A slot that earns: answered challenges without fraud, at or above the availability floor. */
  predicate Proven(params: Parameters, s: Slot) {
    s.issued != 0 && s.passed != 0 && !s.fraud && s.passed * BASIS_POINTS >= s.issued * params.minAvailability
  }

  function Availability(s: Slot): nat {
    if s.issued == 0 then 0 else MulDiv(s.passed, BASIS_POINTS, s.issued)
  }

  /** The availability floor is the same whether compared as a ratio or in whole basis points. */
  lemma {:induction false} FloorsAgree(params: Parameters, s: Slot)
    ensures Proven(params, s) <==>
      s.issued != 0 && s.passed != 0 && !s.fraud && Availability(s) >= params.minAvailability
  {
    if s.issued != 0 {
      if s.passed * BASIS_POINTS >= s.issued * params.minAvailability {
        FloorAtLeast(s.passed * BASIS_POINTS, s.issued, params.minAvailability);
      } else if Availability(s) >= params.minAvailability {
        MulMono(s.issued, params.minAvailability, Availability(s));
      }
    }
  }

  function Scarcity(tiers: seq<Tier>, proven: nat): nat {
    if proven == 0 || tiers == [] then 0
    else if proven >= tiers[0].minProven then tiers[0].multiplier
    else Scarcity(tiers[1..], proven)
  }

  function ProvenOperators(params: Parameters, slots: seq<Slot>, segment: nat): set<string> {
    set i | 0 <= i < |slots| && slots[i].segment == segment && Proven(params, slots[i]) :: slots[i].operator
  }

  function BytesOf(segments: seq<Segment>, index: nat): nat {
    if segments == [] then 0
    else if segments[0].index == index then segments[0].bytes
    else BytesOf(segments[1..], index)
  }

  function Reliability(params: Parameters, x: Inputs, provider: string): nat {
    if provider in x.reliability then x.reliability[provider] else params.reliabilityFloor
  }

  function Product4(a: nat, b: nat, c: nat, d: nat): nat {
    MulNonNegative(a, b);
    MulNonNegative(a * b, c);
    MulNonNegative(a * b * c, d);
    a * b * c * d
  }

  function SlotWeight(params: Parameters, x: Inputs, s: Slot): nat {
    if !Proven(params, s) then 0
    else Product4(BytesOf(x.segments, s.segment),
      Scarcity(params.tiers, |ProvenOperators(params, x.slots, s.segment)|),
      Availability(s), Reliability(params, x, s.provider))
  }

  /** Each provider's weight over the first `n` slots. */
  function WeightsUpTo(params: Parameters, x: Inputs, n: nat): Weights
    requires n <= |x.slots|
  {
    if n == 0 then map[]
    else
      var before, s := WeightsUpTo(params, x, n - 1), x.slots[n - 1];
      if Proven(params, s) then before[s.provider := At(before, s.provider) + SlotWeight(params, x, s)] else before
  }

  function WeightsOf(params: Parameters, x: Inputs): Weights {
    WeightsUpTo(params, x, |x.slots|)
  }

  function TargetOf(params: Parameters, segments: seq<Segment>): nat {
    if segments == [] then 0
    else TargetOf(params, segments[..|segments| - 1]) + Product4(segments[|segments| - 1].bytes, params.replicas, UNIT_WEIGHT, 1)
  }

  method ComputeWeights(params: Parameters, x: Inputs) returns (weights: Weights, total: nat)
    ensures weights == WeightsOf(params, x) && total == Total(weights)
  {
    weights, total := map[], 0;
    for i := 0 to |x.slots|
      invariant weights == WeightsUpTo(params, x, i) && total == Total(weights)
    {
      var s := x.slots[i];
      FloorsAgree(params, s);
      if s.issued == 0 || s.passed == 0 || s.fraud {
        continue;
      }
      if Availability(s) < params.minAvailability {
        continue;
      }
      var weight := SlotWeight(params, x, s);
      TotalUpdate(weights, s.provider, At(weights, s.provider) + weight);
      weights := weights[s.provider := At(weights, s.provider) + weight];
      total := total + weight;
    }
  }

  // --- Well-formed inputs ---------------------------------------------------------------------------

  function SlotsOn(slots: seq<Slot>, segment: nat): nat {
    if slots == [] then 0
    else SlotsOn(slots[..|slots| - 1], segment) + if slots[|slots| - 1].segment == segment then 1 else 0
  }

  predicate GoodSegments(segments: seq<Segment>) {
    && (forall i: nat :: i < |segments| ==> segments[i].bytes != 0)
    && forall i: nat, j: nat :: i < j < |segments| ==> segments[i].index != segments[j].index
  }

  predicate GoodSlot(segments: seq<Segment>, s: Slot, safeId: string -> bool) {
    && safeId(s.provider) && safeId(s.operator) && s.passed <= s.issued
    && exists i: nat :: i < |segments| && segments[i].index == s.segment
  }

  /** Two slots of one segment belong to different providers and operators, and a provider has
      one operator. */
  predicate Compatible(s: Slot, t: Slot) {
    && (s.segment == t.segment ==> s.provider != t.provider && s.operator != t.operator)
    && (s.provider == t.provider ==> s.operator == t.operator)
  }

  ghost predicate GoodSlots(params: Parameters, segments: seq<Segment>, slots: seq<Slot>, safeId: string -> bool) {
    && (forall i: nat :: i < |slots| ==> GoodSlot(segments, slots[i], safeId))
    && (forall i: nat, j: nat :: i < j < |slots| ==> Compatible(slots[i], slots[j]))
    && forall g: nat :: SlotsOn(slots, g) <= params.replicas
  }

  predicate GoodReliability(reliability: map<string, nat>, safeId: string -> bool) {
    forall p :: p in reliability ==> reliability[p] <= BASIS_POINTS && safeId(p)
  }

  ghost predicate WellFormed(params: Parameters, x: Inputs, safeId: string -> bool) {
    && GoodSegments(x.segments) && GoodSlots(params, x.segments, x.slots, safeId)
    && GoodReliability(x.reliability, safeId)
  }

  method CheckSegments(segments: seq<Segment>) returns (ok: bool)
    ensures ok <==> GoodSegments(segments)
  {
    var seen: set<nat> := {};
    for i := 0 to |segments|
      invariant seen == set k | 0 <= k < i :: segments[k].index
      invariant GoodSegments(segments[..i])
    {
      if segments[i].bytes == 0 || segments[i].index in seen {
        return false;
      }
      seen := seen + {segments[i].index};
    }
    assert segments[..|segments|] == segments;
    ok := true;
  }

  lemma {:induction false} SlotsOnGrows(slots: seq<Slot>, n: nat, segment: nat)
    requires n <= |slots|
    ensures SlotsOn(slots[..n], segment) <= SlotsOn(slots, segment)
  {
    if n < |slots| {
      SlotsOnGrows(slots[..|slots| - 1], n, segment);
      assert slots[..|slots| - 1][..n] == slots[..n];
    } else {
      assert slots[..n] == slots;
    }
  }

  lemma {:induction false} GoodSlotsExtend(
    params: Parameters, segments: seq<Segment>, slots: seq<Slot>, i: nat, safeId: string -> bool)
    requires i < |slots| && GoodSlots(params, segments, slots[..i], safeId) && GoodSlot(segments, slots[i], safeId)
    requires forall t :: t in slots[..i] ==> Compatible(t, slots[i])
    requires SlotsOn(slots[..i], slots[i].segment) + 1 <= params.replicas
    ensures GoodSlots(params, segments, slots[..i + 1], safeId)
  {
    var next := slots[..i + 1];
    assert next[..i] == slots[..i];
    forall k: nat | k < |next| ensures GoodSlot(segments, next[k], safeId) {
      assert k < i ==> next[k] == slots[..i][k];
    }
    forall j: nat, k: nat | j < k < |next| ensures Compatible(next[j], next[k]) {
      assert next[j] == slots[..i][j];
      assert k < i ==> next[k] == slots[..i][k];
    }
    forall g: nat ensures SlotsOn(next, g) <= params.replicas {
      assert SlotsOn(slots[..i], g) <= params.replicas;
    }
  }

  /** What the pass over the slots has noted so far. */
  datatype Seen = Seen(
    providers: set<(string, nat)>, operators: set<(string, nat)>, operatorOf: map<string, string>, counts: map<nat, nat>)

  predicate Clashes(seen: Seen, s: Slot) {
    || (s.provider, s.segment) in seen.providers || (s.operator, s.segment) in seen.operators
    || (s.provider in seen.operatorOf && seen.operatorOf[s.provider] != s.operator)
  }

  function Note(seen: Seen, s: Slot): Seen {
    Seen(seen.providers + {(s.provider, s.segment)}, seen.operators + {(s.operator, s.segment)},
         seen.operatorOf[s.provider := s.operator], seen.counts[s.segment := At(seen.counts, s.segment) + 1])
  }

  ghost predicate Records(seen: Seen, slots: seq<Slot>) {
    && seen.providers == ProviderKeys(slots) && seen.operators == OperatorKeys(slots)
    && OperatorsNoted(seen.operatorOf, slots)
    && forall g: nat :: At(seen.counts, g) == SlotsOn(slots, g)
  }

  function ProviderKeys(slots: seq<Slot>): set<(string, nat)> {
    set t | t in slots :: (t.provider, t.segment)
  }

  function OperatorKeys(slots: seq<Slot>): set<(string, nat)> {
    set t | t in slots :: (t.operator, t.segment)
  }

  ghost predicate OperatorsNoted(operatorOf: map<string, string>, slots: seq<Slot>) {
    && (forall t :: t in slots ==> t.provider in operatorOf && operatorOf[t.provider] == t.operator)
    && (forall q :: q in operatorOf ==> exists t :: t in slots && t.provider == q)
  }

  lemma KeysAppend(slots: seq<Slot>, s: Slot)
    ensures ProviderKeys(slots + [s]) == ProviderKeys(slots) + {(s.provider, s.segment)}
    ensures OperatorKeys(slots + [s]) == OperatorKeys(slots) + {(s.operator, s.segment)}
  {
  }

  lemma OperatorNoted(operatorOf: map<string, string>, slots: seq<Slot>, s: Slot)
    requires OperatorsNoted(operatorOf, slots) && (s.provider in operatorOf ==> operatorOf[s.provider] == s.operator)
    ensures OperatorsNoted(operatorOf[s.provider := s.operator], slots + [s])
  {
    var next := operatorOf[s.provider := s.operator];
    assert forall t :: t in slots + [s] <==> t in slots || t == s;
    forall q | q in next ensures exists t :: t in slots + [s] && t.provider == q {
      if q == s.provider {
        assert s in slots + [s];
      } else {
        var t :| t in slots && t.provider == q;
        assert t in slots + [s];
      }
    }
  }

  lemma {:induction false} NoteRecords(seen: Seen, slots: seq<Slot>, s: Slot)
    requires Records(seen, slots) && !Clashes(seen, s)
    ensures Records(Note(seen, s), slots + [s])
  {
    assert (slots + [s])[..|slots|] == slots;
    KeysAppend(slots, s);
    OperatorNoted(seen.operatorOf, slots, s);
  }

  lemma {:induction false} ClashIff(seen: Seen, slots: seq<Slot>, s: Slot)
    requires Records(seen, slots)
    ensures Clashes(seen, s) <==> exists t :: t in slots && !Compatible(t, s)
  {
    if Clashes(seen, s) && s.provider in seen.operatorOf && seen.operatorOf[s.provider] != s.operator {
      var t :| t in slots && t.provider == s.provider;
      assert !Compatible(t, s);
    }
  }

  method CheckSlots(params: Parameters, segments: seq<Segment>, slots: seq<Slot>, safeId: string -> bool)
    returns (ok: bool)
    ensures ok <==> GoodSlots(params, segments, slots, safeId)
  {
    var seen := Seen({}, {}, map[], map[]);
    for i := 0 to |slots|
      invariant GoodSlots(params, segments, slots[..i], safeId) && Records(seen, slots[..i])
    {
      var s := slots[i];
      assert slots[..i + 1] == slots[..i] + [s];
      ClashIff(seen, slots[..i], s);
      if !GoodSlot(segments, s, safeId) || Clashes(seen, s) {
        return false;
      }
      if At(seen.counts, s.segment) + 1 > params.replicas {
        assert slots[..i + 1][..i] == slots[..i];
        SlotsOnGrows(slots, i + 1, s.segment);
        return false;
      }
      GoodSlotsExtend(params, segments, slots, i, safeId);
      NoteRecords(seen, slots[..i], s);
      seen := Note(seen, s);
    }
    assert slots[..|slots|] == slots;
    ok := true;
  }

  method CheckInputs(params: Parameters, x: Inputs, safeId: string -> bool) returns (ok: bool)
    ensures ok <==> WellFormed(params, x, safeId)
  {
    ok := CheckSegments(x.segments);
    if ok {
      ok := CheckSlots(params, x.segments, x.slots, safeId);
    }
    return ok && GoodReliability(x.reliability, safeId);
  }

  // --- The settlement -------------------------------------------------------------------------------

  datatype Settlement = Settlement(budget: nat, distributed: nat, unminted: nat, rewards: Weights)

  function Budget(params: Parameters, cap: nat): nat {
    MulDiv(cap, params.share, BASIS_POINTS)
  }

  function Denominator(target: nat, total: nat): nat {
    if target < total then total else target
  }

  /** What each provider earns; providers that earn nothing are not listed. */
  ghost function RewardsOf(params: Parameters, x: Inputs): Weights {
    var weights := WeightsOf(params, x);
    var whole := Denominator(TargetOf(params, x.segments), Total(weights));
    map p | p in weights && Proportional(Budget(params, x.cap), weights[p], whole) > 0
      :: Proportional(Budget(params, x.cap), weights[p], whole)
  }

  lemma {:induction false} BudgetWithinCap(params: Parameters, cap: nat)
    requires params.share <= BASIS_POINTS
    ensures Budget(params, cap) <= cap
  {
  }

  lemma {:induction false} SubMapSum(big: Weights, small: Weights)
    requires small.Keys <= big.Keys && forall k :: k in small ==> small[k] == big[k]
    ensures Total(small) <= Total(big)
  {
    WeightAgree(small, big, small.Keys);
    WeightMono(big, small.Keys, big.Keys);
  }

  /** The rewards never exceed the budget, nor the budget the emission cap. */
  lemma {:induction false} RewardsWithinBudget(params: Parameters, x: Inputs)
    requires params.share <= BASIS_POINTS
    ensures Total(RewardsOf(params, x)) <= Budget(params, x.cap) <= x.cap
  {
    BudgetWithinCap(params, x.cap);
    var weights := WeightsOf(params, x);
    var whole := Denominator(TargetOf(params, x.segments), Total(weights));
    var all := Shares(Budget(params, x.cap), weights, whole);
    SubMapSum(all, RewardsOf(params, x));
    if whole > 0 {
      SharesWithinAmount(Budget(params, x.cap), weights, whole);
    } else {
      assert RewardsOf(params, x) == map[];
    }
  }

  lemma {:induction false} UnprovenWeightless(params: Parameters, x: Inputs, n: nat, p: string)
    requires n <= |x.slots| && forall i: nat :: i < |x.slots| && x.slots[i].provider == p ==> !Proven(params, x.slots[i])
    ensures p !in WeightsUpTo(params, x, n)
  {
    if n > 0 {
      UnprovenWeightless(params, x, n - 1, p);
    }
  }

  /** No proof, no reward: a provider earns nothing unless one of its slots was answered without
      fraud and at or above the availability floor. */
  lemma {:induction false} NoProofNoReward(params: Parameters, x: Inputs, p: string)
    requires forall i: nat :: i < |x.slots| && x.slots[i].provider == p ==> !Proven(params, x.slots[i])
    ensures p !in RewardsOf(params, x)
  {
    UnprovenWeightless(params, x, |x.slots|, p);
  }

  method ComputeTarget(params: Parameters, segments: seq<Segment>) returns (target: nat)
    ensures target == TargetOf(params, segments)
  {
    target := 0;
    for i := 0 to |segments|
      invariant target == TargetOf(params, segments[..i])
    {
      assert segments[..i + 1][..i] == segments[..i];
      target := target + Product4(segments[i].bytes, params.replicas, UNIT_WEIGHT, 1);
    }
    assert segments[..|segments|] == segments;
  }

  /** Nothing when the inputs are malformed or an intermediate value leaves 128 bits. */
  method Settle(params: Parameters, x: Inputs, safeId: string -> bool) returns (r: Option<Settlement>)
    requires params.share <= BASIS_POINTS && x.cap <= INT64_MAX
    ensures r.Some? <==>
      && WellFormed(params, x, safeId)
      && var target, total := TargetOf(params, x.segments), Total(WeightsOf(params, x));
         target <= WIDE_MAX && total <= WIDE_MAX && (target != 0 ==> total * BASIS_POINTS <= WIDE_MAX)
    ensures r.Some? ==>
      && r.value.budget == Budget(params, x.cap)
      && r.value.rewards == RewardsOf(params, x)
      && r.value.distributed == Total(r.value.rewards)
      && r.value.distributed + r.value.unminted == r.value.budget <= x.cap
  {
    RewardsWithinBudget(params, x);
    var budget := Budget(params, x.cap);
    var good := CheckInputs(params, x, safeId);
    if !good {
      return None;
    }
    var target := ComputeTarget(params, x.segments);
    var weights, total := ComputeWeights(params, x);
    if target > WIDE_MAX || total > WIDE_MAX || (target != 0 && total * BASIS_POINTS > WIDE_MAX) {
      return None;
    }
    var rewards, distributed := PayAll(budget, weights, Denominator(target, total));
    assert rewards == RewardsOf(params, x);
    r := Some(Settlement(budget, distributed, budget - distributed, rewards));
  }

  method PayAll(budget: nat, weights: Weights, whole: nat) returns (rewards: Weights, distributed: nat)
    requires budget <= INT64_MAX && Total(weights) <= whole
    ensures rewards == map p | p in weights && Proportional(budget, weights[p], whole) > 0
      :: Proportional(budget, weights[p], whole)
    ensures distributed == Total(rewards)
  {
    rewards, distributed := map[], 0;
    var rest := weights.Keys;
    while rest != {}
      invariant rest <= weights.Keys && rewards.Keys !! rest && distributed == Total(rewards)
      invariant forall p :: p in rewards ==> p in weights && rewards[p] == Proportional(budget, weights[p], whole) > 0
      invariant forall p :: p in weights && p !in rest && p !in rewards ==> Proportional(budget, weights[p], whole) == 0
    {
      var p :| p in rest;
      EntryAtMostTotal(weights, p);
      var amount := ComputeProportional(budget, weights[p], whole);
      if amount > 0 {
        TotalUpdate(rewards, p, amount);
        rewards, distributed := rewards[p := amount], distributed + amount;
      }
      rest := rest - {p};
    }
  }
}
