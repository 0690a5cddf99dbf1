/** Who gets a slot, in terms of ranks, bonds and bytes: the provider with the lowest rank among
    those that could still serve, ties to the lower id. */
module AssignmentOrder {
  import opened Wrappers
  import opened Ordering
  import opened Quorum
  import opened Sums
  import opened Arithmetic
  import opened Assignment

  // --- What a provider has used -----------------------------------------------------------------------

  /** The positions of a provider's slots. */
  function PositionsOf(slots: seq<Slot>, id: string): set<nat> {
    set m: nat | m < |slots| && slots[m].provider.id == id
  }

  function BytesAt(n: Network, slots: seq<Slot>, id: string): map<nat, nat> {
    map m: nat | m < |slots| && slots[m].provider.id == id :: SegmentSize(n, slots[m].segment)
  }

  lemma {:induction false} PositionsGrow(n: Network, front: seq<Slot>, last: Slot, id: string)
    ensures PositionsOf(front + [last], id) ==
      PositionsOf(front, id) + (if last.provider.id == id then {|front|} else {})
    ensures BytesAt(n, front + [last], id) ==
      if last.provider.id == id then BytesAt(n, front, id)[|front| := SegmentSize(n, last.segment)] else BytesAt(n, front, id)
  {
    var slots := front + [last];
    assert forall m: nat :: m < |front| ==> slots[m] == front[m];
  }

  /** The used slots are the provider's own. */
  lemma {:induction false} UsedSlotsAreOwn(n: Network, slots: seq<Slot>, id: string)
    ensures UsedSlots(slots, id) == |PositionsOf(slots, id)|
  {
    if slots != [] {
      var front, last := slots[..|slots| - 1], slots[|slots| - 1];
      UsedSlotsAreOwn(n, front, id);
      assert slots == front + [last];
      PositionsGrow(n, front, last, id);
      assert |front| !in PositionsOf(front, id);
    }
  }

  /** The used bytes are the sizes of the segments in the provider's own slots. */
  lemma {:induction false} UsedBytesAreOwn(n: Network, slots: seq<Slot>, id: string)
    ensures UsedBytes(n, slots, id) == Total(BytesAt(n, slots, id))
  {
    if slots == [] {
      assert BytesAt(n, slots, id) == map[];
    } else {
      var front, last := slots[..|slots| - 1], slots[|slots| - 1];
      UsedBytesAreOwn(n, front, id);
      assert slots == front + [last];
      PositionsGrow(n, front, last, id);
      OneMore(BytesAt(n, front, id), |front|, SegmentSize(n, last.segment));
    }
  }

  lemma OneMore(w: map<nat, nat>, k: nat, v: nat)
    requires k !in w
    ensures Total(w[k := v]) == Total(w) + v
  {
    TotalUpdate(w, k, v);
  }

  // --- Who could serve ----------------------------------------------------------------------------------

  /** The provider's bond pays for one more slot, its capacity holds the segment, and neither it
      nor its operator has a replica of the segment. */
  ghost predicate CouldServe(n: Network, slots: seq<Slot>, segment: nat, p: Provider)
    requires segment < |n.segments|
  {
    && (|PositionsOf(slots, p.id)| + 1) * n.minBond <= p.bond
    && Total(BytesAt(n, slots, p.id)) + n.segments[segment] <= p.capacity
    && forall m: nat :: m < |slots| && slots[m].segment == segment ==>
         slots[m].provider.id != p.id && slots[m].provider.operator != p.operator
  }

  lemma {:induction false} BondPays(used: nat, minBond: nat, bond: nat)
    requires minBond > 0
    ensures used < bond / minBond <==> (used + 1) * minBond <= bond
  {
    Division(bond, minBond);
    if used < bond / minBond {
      MulMono(minBond, used + 1, bond / minBond);
    } else {
      MulMono(minBond, bond / minBond + 1, used + 1);
    }
  }

  lemma {:induction false} EligibleIff(n: Network, slots: seq<Slot>, segment: nat, p: Provider)
    requires n.minBond > 0 && segment < |n.segments|
    ensures Eligible(n, slots, segment, p) <==> CouldServe(n, slots, segment, p)
  {
    UsedSlotsAreOwn(n, slots, p.id);
    UsedBytesAreOwn(n, slots, p.id);
    BondPays(UsedSlots(slots, p.id), n.minBond, p.bond);
  }

  // --- The order ------------------------------------------------------------------------------------------

  /** Every slot of the plan is held by a registered provider that could serve it, and whoever
      else could have served it has a higher rank for this segment and replica, or the same rank
      and a higher id. Replicas of a segment count up from zero. */
  lemma {:induction false} LowestRankWins(n: Network, slots: seq<Slot>, k: nat, j: nat)
    requires ValidNetwork(n) && slots == Plan(n) && k < |slots| && j < |n.providers|
    ensures slots[k].segment < |n.segments| && slots[k].provider in n.providers
    ensures slots[k].replica == |set m: nat | m < k && slots[m].segment == slots[k].segment|
    ensures CouldServe(n, slots[..k], slots[k].segment, slots[k].provider)
    ensures
      var p, winner := n.providers[j], slots[k].provider;
      var theirs := n.rank(slots[k].segment, slots[k].replica, p.key);
      var best := n.rank(slots[k].segment, slots[k].replica, winner.key);
      CouldServe(n, slots[..k], slots[k].segment, p) ==>
        p == winner || Less(best, theirs) || (best == theirs && Less(winner.id, p.id))
  {
    PlanIsGreedy(n);
    assert GreedyAt(n, slots, k);
    EligibleIff(n, slots[..k], slots[k].segment, slots[k].provider);
    EligibleIff(n, slots[..k], slots[k].segment, n.providers[j]);
    CountIs(slots, k, slots[k].segment);
  }

  lemma {:induction false} CountIs(slots: seq<Slot>, k: nat, segment: nat)
    requires k <= |slots|
    ensures CountOf(slots[..k], segment) == |set m: nat | m < k && slots[m].segment == segment|
  {
    var now := set m: nat | m < k && slots[m].segment == segment;
    if k > 0 {
      CountIs(slots, k - 1, segment);
      var before := set m: nat | m < k - 1 && slots[m].segment == segment;
      assert slots[..k][..k - 1] == slots[..k - 1];
      assert now == before + (if slots[k - 1].segment == segment then {k - 1} else {});
    } else {
      assert now == {};
    }
  }

  /** A segment gets all its replicas, or, when its turn ends, no provider could serve it. */
  lemma {:induction false} ShortOnlyWithoutProviders(n: Network, slots: seq<Slot>, i: nat) returns (e: nat)
    requires ValidNetwork(n) && slots == Plan(n) && i < |n.segments|
    ensures e <= |slots|
    ensures forall m: nat :: m < |slots| ==> (m < e ==> slots[m].segment <= i) && (e <= m ==> i < slots[m].segment)
    ensures |set m: nat | m < e && slots[m].segment == i| == n.target
      || forall j: nat :: j < |n.providers| ==> !CouldServe(n, slots[..e], i, n.providers[j])
  {
    PlanIsGreedy(n);
    assert Served(n, slots, i);
    e :| e <= |slots| && ServedAt(n, slots, i, e);
    CountIs(slots, e, i);
    forall j: nat | j < |n.providers| ensures Eligible(n, slots[..e], i, n.providers[j]) <==> CouldServe(n, slots[..e], i, n.providers[j]) {
      EligibleIff(n, slots[..e], i, n.providers[j]);
    }
    assert forall m: nat :: m < e ==> slots[..e][m] == slots[m];
  }
}
