/** Archive assignment: for every segment and replica slot the eligible provider with the lowest
    rank wins, under capacity, bond and one-slot-per-operator limits. */
module Assignment {
  import opened Wrappers
  import opened Ordering
  import opened Arithmetic

  datatype Provider = Provider(id: string, operator: string, capacity: nat, bond: nat, key: string)

  /** `segments` holds the segment sizes, by segment index; `rank` is the hash of segment,
      replica and assignment key. */
  datatype Network = Network(
    providers: seq<Provider>, segments: seq<nat>, target: nat, minBond: nat, rank: (nat, nat, string) -> string)

  datatype Slot = Slot(segment: nat, replica: nat, provider: Provider)

  /** Active providers come from a registry keyed by id; a slot needs a positive bond. */
  ghost predicate ValidNetwork(n: Network) {
    && n.minBond > 0
    && forall i: nat, j: nat :: i < j < |n.providers| ==> n.providers[i].id != n.providers[j].id
  }

  function MaxSlots(n: Network, p: Provider): nat
    requires n.minBond > 0
  {
    p.bond / n.minBond
  }

  function Rank(n: Network, segment: nat, replica: nat, p: Provider): string {
    n.rank(segment, replica, p.key)
  }

  /** Lower rank first, ties by lower provider id. */
  predicate Better(n: Network, segment: nat, replica: nat, p: Provider, q: Provider) {
    var a, b := Rank(n, segment, replica, p), Rank(n, segment, replica, q);
    Less(a, b) || (a == b && Less(p.id, q.id))
  }

  lemma {:induction false} BetterTrans(n: Network, segment: nat, replica: nat, p: Provider, q: Provider, r: Provider)
    requires Better(n, segment, replica, p, q) && Better(n, segment, replica, q, r)
    ensures Better(n, segment, replica, p, r)
  {
    var a, b, c := Rank(n, segment, replica, p), Rank(n, segment, replica, q), Rank(n, segment, replica, r);
    if Less(a, b) && Less(b, c) {
      LessTrans(a, b, c);
    } else if a == b && b == c {
      LessTrans(p.id, q.id, r.id);
    }
  }

  lemma {:induction false} BetterTotal(n: Network, segment: nat, replica: nat, p: Provider, q: Provider)
    requires p.id != q.id
    ensures Better(n, segment, replica, p, q) || Better(n, segment, replica, q, p)
  {
    LessTotal(Rank(n, segment, replica, p), Rank(n, segment, replica, q));
    LessTotal(p.id, q.id);
  }

  // --- What a list of slots uses --------------------------------------------------------------------

  function SegmentSize(n: Network, i: nat): nat {
    if i < |n.segments| then n.segments[i] else 0
  }

  function UsedBytes(n: Network, slots: seq<Slot>, id: string): nat {
    if slots == [] then 0
    else
      var last := slots[|slots| - 1];
      UsedBytes(n, slots[..|slots| - 1], id) + if last.provider.id == id then SegmentSize(n, last.segment) else 0
  }

  function UsedSlots(slots: seq<Slot>, id: string): nat {
    if slots == [] then 0
    else UsedSlots(slots[..|slots| - 1], id) + if slots[|slots| - 1].provider.id == id then 1 else 0
  }

  function CountOf(slots: seq<Slot>, segment: nat): nat {
    if slots == [] then 0
    else CountOf(slots[..|slots| - 1], segment) + if slots[|slots| - 1].segment == segment then 1 else 0
  }

  predicate Holds(slots: seq<Slot>, segment: nat, id: string) {
    exists k: nat :: k < |slots| && slots[k].segment == segment && slots[k].provider.id == id
  }

  predicate Operates(slots: seq<Slot>, segment: nat, operator: string) {
    exists k: nat :: k < |slots| && slots[k].segment == segment && slots[k].provider.operator == operator
  }

  predicate Eligible(n: Network, slots: seq<Slot>, segment: nat, p: Provider)
    requires n.minBond > 0
  {
    && UsedSlots(slots, p.id) < MaxSlots(n, p)
    && UsedBytes(n, slots, p.id) + SegmentSize(n, segment) <= p.capacity
    && !Holds(slots, segment, p.id)
    && !Operates(slots, segment, p.operator)
  }

  // --- The winner -----------------------------------------------------------------------------------

  /** The winner among the first `m` providers. */
  function BestOf(n: Network, slots: seq<Slot>, segment: nat, replica: nat, m: nat): Option<Provider>
    requires n.minBond > 0 && m <= |n.providers|
  {
    if m == 0 then None
    else
      var best, p := BestOf(n, slots, segment, replica, m - 1), n.providers[m - 1];
      if !Eligible(n, slots, segment, p) then best
      else if best.None? || Better(n, segment, replica, p, best.value) then Some(p)
      else best
  }

  /** It is eligible and beats every other eligible provider; there is none only if none is
      eligible. */
  ghost predicate IsWinner(n: Network, slots: seq<Slot>, segment: nat, replica: nat, m: nat, best: Option<Provider>)
    requires n.minBond > 0 && m <= |n.providers|
  {
    match best
    case None => forall j: nat :: j < m ==> !Eligible(n, slots, segment, n.providers[j])
    case Some(b) =>
      && (exists j: nat :: j < m && n.providers[j] == b)
      && Eligible(n, slots, segment, b)
      && forall j: nat :: j < m && Eligible(n, slots, segment, n.providers[j]) ==>
          n.providers[j] == b || Better(n, segment, replica, b, n.providers[j])
  }

  lemma {:induction false} BestOfWins(n: Network, slots: seq<Slot>, segment: nat, replica: nat, m: nat)
    requires ValidNetwork(n) && m <= |n.providers|
    ensures IsWinner(n, slots, segment, replica, m, BestOf(n, slots, segment, replica, m))
  {
    if m > 0 {
      BestOfWins(n, slots, segment, replica, m - 1);
      var before, p := BestOf(n, slots, segment, replica, m - 1), n.providers[m - 1];
      if Eligible(n, slots, segment, p) && before.Some? {
        var b := before.value;
        var j: nat :| j < m - 1 && n.providers[j] == b;
        BetterTotal(n, segment, replica, p, b);
        if Better(n, segment, replica, p, b) {
          forall j: nat | j < m && Eligible(n, slots, segment, n.providers[j])
            ensures n.providers[j] == p || Better(n, segment, replica, p, n.providers[j])
          {
            if j < m - 1 && n.providers[j] != b {
              BetterTrans(n, segment, replica, p, b, n.providers[j]);
            }
          }
        }
      }
    }
  }

  // --- The plan -------------------------------------------------------------------------------------

  /** Segment by segment and replica by replica; a segment ends early when no one is eligible. */
  function PlanFrom(n: Network, i: nat, r: nat, slots: seq<Slot>): seq<Slot>
    requires n.minBond > 0 && i <= |n.segments| && r <= n.target
    decreases |n.segments| - i, n.target - r
  {
    if i == |n.segments| then slots
    else if r == n.target then PlanFrom(n, i + 1, 0, slots)
    else match BestOf(n, slots, i, r, |n.providers|)
      case None => PlanFrom(n, i + 1, 0, slots)
      case Some(p) => PlanFrom(n, i, r + 1, slots + [Slot(i, r, p)])
  }

  function Plan(n: Network): seq<Slot>
    requires n.minBond > 0
  {
    PlanFrom(n, 0, 0, [])
  }

  /** Each slot went to the winner over the slots before it, and replicas count up. */
  ghost predicate GreedyAt(n: Network, slots: seq<Slot>, k: nat)
    requires n.minBond > 0 && k < |slots|
  {
    && slots[k].segment < |n.segments| && slots[k].replica < n.target
    && slots[k].replica == CountOf(slots[..k], slots[k].segment)
    && IsWinner(n, slots[..k], slots[k].segment, slots[k].replica, |n.providers|, Some(slots[k].provider))
  }

  ghost predicate Greedy(n: Network, slots: seq<Slot>)
    requires n.minBond > 0
  {
    forall k: nat :: k < |slots| ==> GreedyAt(n, slots, k)
  }

  ghost predicate UpTo(slots: seq<Slot>, i: nat) {
    forall k: nat :: k < |slots| ==> slots[k].segment <= i
  }

  /** A segment is served: all replicas, or as many as there were eligible providers when its
      turn ended after the first `e` slots. */
  ghost predicate ServedAt(n: Network, slots: seq<Slot>, i: nat, e: nat)
    requires n.minBond > 0 && e <= |slots|
  {
    && UpTo(slots[..e], i)
    && (forall k: nat :: e <= k < |slots| ==> i < slots[k].segment)
    && (CountOf(slots[..e], i) == n.target
        || forall j: nat :: j < |n.providers| ==> !Eligible(n, slots[..e], i, n.providers[j]))
  }

  ghost predicate Served(n: Network, slots: seq<Slot>, i: nat)
    requires n.minBond > 0
  {
    exists e: nat :: e <= |slots| && ServedAt(n, slots, i, e)
  }

  // --- Every plan -----------------------------------------------------------------------------------

  lemma {:induction false} GreedyAppend(n: Network, slots: seq<Slot>, slot: Slot)
    requires n.minBond > 0 && Greedy(n, slots)
    requires slot.segment < |n.segments| && slot.replica < n.target && slot.replica == CountOf(slots, slot.segment)
    requires IsWinner(n, slots, slot.segment, slot.replica, |n.providers|, Some(slot.provider))
    ensures Greedy(n, slots + [slot])
  {
    var more := slots + [slot];
    forall k: nat | k < |more| ensures GreedyAt(n, more, k) {
      if k < |slots| {
        assert GreedyAt(n, slots, k);
        assert more[..k] == slots[..k];
      } else {
        assert more[..k] == slots;
      }
    }
  }

  lemma {:induction false} ServedAppend(n: Network, slots: seq<Slot>, slot: Slot, i: nat)
    requires n.minBond > 0 && Served(n, slots, i) && i < slot.segment
    ensures Served(n, slots + [slot], i)
  {
    var e: nat :| e <= |slots| && ServedAt(n, slots, i, e);
    assert (slots + [slot])[..e] == slots[..e];
    assert ServedAt(n, slots + [slot], i, e);
  }

  lemma {:induction false} NoneBeyond(slots: seq<Slot>, i: nat, j: nat)
    requires UpTo(slots, i) && i < j
    ensures CountOf(slots, j) == 0
  {
    if slots != [] {
      var front := slots[..|slots| - 1];
      assert forall k: nat :: k < |front| ==> front[k] == slots[k];
      NoneBeyond(front, i, j);
    }
  }

  lemma {:induction false} ServedNow(n: Network, slots: seq<Slot>, i: nat)
    requires n.minBond > 0 && UpTo(slots, i)
    requires CountOf(slots, i) == n.target || forall j: nat :: j < |n.providers| ==> !Eligible(n, slots, i, n.providers[j])
    ensures Served(n, slots, i)
  {
    assert slots[..|slots|] == slots;
    assert ServedAt(n, slots, i, |slots|);
  }

  lemma {:induction false} PlanFromServes(n: Network, i: nat, r: nat, slots: seq<Slot>)
    requires ValidNetwork(n) && i <= |n.segments| && r <= n.target
    requires Greedy(n, slots) && UpTo(slots, i) && r == CountOf(slots, i)
    requires forall j: nat :: j < i ==> Served(n, slots, j)
    ensures Greedy(n, PlanFrom(n, i, r, slots))
    ensures forall j: nat :: j < |n.segments| ==> Served(n, PlanFrom(n, i, r, slots), j)
    decreases |n.segments| - i, n.target - r
  {
    if i < |n.segments| {
      BestOfWins(n, slots, i, r, |n.providers|);
      var best := BestOf(n, slots, i, r, |n.providers|);
      if r == n.target || best.None? {
        ServedNow(n, slots, i);
        NoneBeyond(slots, i, i + 1);
        PlanFromServes(n, i + 1, 0, slots);
      } else {
        var slot := Slot(i, r, best.value);
        GreedyAppend(n, slots, slot);
        forall j: nat | j < i ensures Served(n, slots + [slot], j) {
          ServedAppend(n, slots, slot, j);
        }
        assert (slots + [slot])[..|slots|] == slots;
        PlanFromServes(n, i, r + 1, slots + [slot]);
      }
    }
  }

  /** Every slot of every plan goes to the best eligible provider, and a slot stays empty only
      when no provider was eligible for it. */
  lemma {:induction false} PlanIsGreedy(n: Network)
    requires ValidNetwork(n)
    ensures Greedy(n, Plan(n))
    ensures forall i: nat :: i < |n.segments| ==> Served(n, Plan(n), i)
  {
    PlanFromServes(n, 0, 0, []);
  }

  /** No provider exceeds its declared capacity or the slots its bond pays for. */
  lemma {:induction false} WithinLimits(n: Network, slots: seq<Slot>, j: nat)
    requires ValidNetwork(n) && Greedy(n, slots) && j < |n.providers|
    ensures UsedBytes(n, slots, n.providers[j].id) <= n.providers[j].capacity
    ensures UsedSlots(slots, n.providers[j].id) <= MaxSlots(n, n.providers[j])
  {
    if slots != [] {
      var k := |slots| - 1;
      var front := slots[..k];
      assert GreedyAt(n, slots, k);
      forall m: nat | m < k ensures GreedyAt(n, front, m) {
        assert GreedyAt(n, slots, m);
        assert front[..m] == slots[..m];
      }
      WithinLimits(n, front, j);
      var w: nat :| w < |n.providers| && n.providers[w] == slots[k].provider;
      assert slots[k].provider.id == n.providers[j].id ==> w == j;
    }
  }

  /** One provider, and one operator, never holds two replicas of a segment. */
  lemma {:induction false} IndependentReplicas(n: Network, slots: seq<Slot>, j: nat, k: nat)
    requires n.minBond > 0 && Greedy(n, slots) && j < k < |slots| && slots[j].segment == slots[k].segment
    ensures slots[j].provider.id != slots[k].provider.id
    ensures slots[j].provider.operator != slots[k].provider.operator
  {
    assert GreedyAt(n, slots, k);
    assert slots[..k][j] == slots[j];
  }

  // --- Splitting bond -------------------------------------------------------------------------------

  function Bonds(ps: seq<Provider>): nat {
    if ps == [] then 0 else Bonds(ps[..|ps| - 1]) + ps[|ps| - 1].bond
  }

  function Allowances(n: Network, ps: seq<Provider>): nat
    requires n.minBond > 0
  {
    if ps == [] then 0 else Allowances(n, ps[..|ps| - 1]) + MaxSlots(n, ps[|ps| - 1])
  }

  /** However a bond is split over identities, together they may hold no more slots than one
      identity with the whole bond. */
  lemma {:induction false} SplittingBondGainsNothing(n: Network, ps: seq<Provider>)
    requires n.minBond > 0
    ensures Allowances(n, ps) <= Bonds(ps) / n.minBond
  {
    if ps != [] {
      SplittingBondGainsNothing(n, ps[..|ps| - 1]);
      FloorsAdd(Bonds(ps[..|ps| - 1]), ps[|ps| - 1].bond, n.minBond);
    }
  }

  // --- The planner's loops ----------------------------------------------------------------------------

  datatype Budget = Budget(bytes: nat, slots: nat)

  /** The budgets hold what the slots so far have left of each provider's limits. */
  ghost predicate BudgetsMatch(n: Network, budgets: map<string, Budget>, slots: seq<Slot>)
    requires n.minBond > 0
  {
    forall j: nat :: j < |n.providers| ==>
      && n.providers[j].id in budgets
      && budgets[n.providers[j].id].bytes + UsedBytes(n, slots, n.providers[j].id) == n.providers[j].capacity
      && budgets[n.providers[j].id].slots + UsedSlots(slots, n.providers[j].id) == MaxSlots(n, n.providers[j])
  }

  ghost predicate TakenMatch(slots: seq<Slot>, segment: nat, holders: set<string>, operators: set<string>) {
    && (forall id :: id in holders <==> Holds(slots, segment, id))
    && (forall op :: op in operators <==> Operates(slots, segment, op))
  }

  method MakeBudgets(n: Network) returns (budgets: map<string, Budget>)
    requires ValidNetwork(n)
    ensures BudgetsMatch(n, budgets, [])
  {
    budgets := map[];
    for j := 0 to |n.providers|
      invariant forall k: nat :: k < j ==>
        && n.providers[k].id in budgets
        && budgets[n.providers[k].id] == Budget(n.providers[k].capacity, MaxSlots(n, n.providers[k]))
    {
      var p := n.providers[j];
      budgets := budgets[p.id := Budget(p.capacity, MaxSlots(n, p))];
    }
  }

  method FindBest(n: Network, i: nat, r: nat, budgets: map<string, Budget>, holders: set<string>, operators: set<string>,
    ghost slots: seq<Slot>) returns (best: Option<Provider>)
    requires ValidNetwork(n) && i < |n.segments|
    requires BudgetsMatch(n, budgets, slots) && TakenMatch(slots, i, holders, operators)
    ensures best == BestOf(n, slots, i, r, |n.providers|)
  {
    best := None;
    for m := 0 to |n.providers|
      invariant best == BestOf(n, slots, i, r, m)
    {
      var p := n.providers[m];
      var budget := budgets[p.id];
      if budget.slots == 0 || budget.bytes < n.segments[i] || p.id in holders || p.operator in operators {
        continue;
      }
      if best.None? || Better(n, i, r, p, best.value) {
        best := Some(p);
      }
    }
  }

  lemma {:induction false} BudgetsSpend(n: Network, budgets: map<string, Budget>, slots: seq<Slot>, slot: Slot)
    requires ValidNetwork(n) && BudgetsMatch(n, budgets, slots) && Eligible(n, slots, slot.segment, slot.provider)
    requires exists j: nat :: j < |n.providers| && n.providers[j] == slot.provider
    ensures slot.provider.id in budgets
    ensures
      var budget := budgets[slot.provider.id];
      && SegmentSize(n, slot.segment) <= budget.bytes && budget.slots > 0
      && BudgetsMatch(n, budgets[slot.provider.id := Budget(budget.bytes - SegmentSize(n, slot.segment), budget.slots - 1)],
           slots + [slot])
  {
  }

  lemma {:induction false} TakenGrows(slots: seq<Slot>, slot: Slot, holders: set<string>, operators: set<string>)
    requires TakenMatch(slots, slot.segment, holders, operators)
    ensures TakenMatch(slots + [slot], slot.segment, holders + {slot.provider.id}, operators + {slot.provider.operator})
  {
    var more := slots + [slot];
    assert more[|slots|] == slot;
    forall id ensures Holds(more, slot.segment, id) <==> Holds(slots, slot.segment, id) || id == slot.provider.id {
      if Holds(slots, slot.segment, id) {
        var k: nat :| k < |slots| && slots[k].segment == slot.segment && slots[k].provider.id == id;
        assert more[k] == slots[k];
      }
    }
    forall op ensures Operates(more, slot.segment, op) <==> Operates(slots, slot.segment, op) || op == slot.provider.operator {
      if Operates(slots, slot.segment, op) {
        var k: nat :| k < |slots| && slots[k].segment == slot.segment && slots[k].provider.operator == op;
        assert more[k] == slots[k];
      }
    }
  }

  /** The replicas of one segment, until the target is met or no one is eligible. */
  method PlanSegment(n: Network, i: nat, budgets: map<string, Budget>, slots: seq<Slot>)
    returns (budgets': map<string, Budget>, slots': seq<Slot>)
    requires ValidNetwork(n) && i < |n.segments| && BudgetsMatch(n, budgets, slots)
    requires forall k: nat :: k < |slots| ==> slots[k].segment < i
    ensures BudgetsMatch(n, budgets', slots')
    ensures forall k: nat :: k < |slots'| ==> slots'[k].segment <= i
    ensures PlanFrom(n, i, 0, slots) == PlanFrom(n, i + 1, 0, slots')
  {
    budgets', slots' := budgets, slots;
    var holders: set<string>, operators: set<string> := {}, {};
    var r := 0;
    while r < n.target
      invariant r <= n.target && BudgetsMatch(n, budgets', slots') && TakenMatch(slots', i, holders, operators)
      invariant forall k: nat :: k < |slots'| ==> slots'[k].segment <= i
      invariant PlanFrom(n, i, 0, slots) == PlanFrom(n, i, r, slots')
    {
      var best := FindBest(n, i, r, budgets', holders, operators, slots');
      if best.None? {
        return;
      }
      var winner := best.value;
      BestOfWins(n, slots', i, r, |n.providers|);
      BudgetsSpend(n, budgets', slots', Slot(i, r, winner));
      TakenGrows(slots', Slot(i, r, winner), holders, operators);
      var budget := budgets'[winner.id];
      budgets' := budgets'[winner.id := Budget(budget.bytes - n.segments[i], budget.slots - 1)];
      holders, operators := holders + {winner.id}, operators + {winner.operator};
      slots' := slots' + [Slot(i, r, winner)];
      r := r + 1;
    }
  }

  method ComputePlan(n: Network) returns (slots: seq<Slot>)
    requires ValidNetwork(n)
    ensures slots == Plan(n)
  {
    var budgets := MakeBudgets(n);
    slots := [];
    for i := 0 to |n.segments|
      invariant BudgetsMatch(n, budgets, slots)
      invariant forall k: nat :: k < |slots| ==> slots[k].segment < i
      invariant PlanFrom(n, i, 0, slots) == Plan(n)
    {
      budgets, slots := PlanSegment(n, i, budgets, slots);
    }
  }
}
