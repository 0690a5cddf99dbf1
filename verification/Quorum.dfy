/** Weighted quorums: the strict two-thirds threshold and why any two quorums of one
    validator set share an honest member. */
module Quorum {

  const UINT64_MAX: nat := 0xFFFF_FFFF_FFFF_FFFF

  /** A validator set: the consensus weight of every eligible validator address. */
  type Weights = map<string, nat>

  /** The combined weight, or the sum of any amounts, of the members of `s` that belong to the set. */
  ghost function Weight<K(!new)>(w: map<K, nat>, s: set<K>): nat {
    if s == {} then 0
    else
      var v :| v in s;
      (if v in w then w[v] else 0) + Weight(w, s - {v})
  }

  ghost function Total<K(!new)>(w: map<K, nat>): nat {
    Weight(w, w.Keys)
  }

  /** `:|` in Weight picks some member; any member gives the same sum. */
  lemma {:induction false} WeightPeel<K(!new)>(w: map<K, nat>, s: set<K>, v: K)
    requires v in s
    ensures Weight(w, s) == (if v in w then w[v] else 0) + Weight(w, s - {v})
  {
    var u :| u in s && Weight(w, s) == (if u in w then w[u] else 0) + Weight(w, s - {u});
    if u != v {
      WeightPeel(w, s - {u}, v);
      WeightPeel(w, s - {v}, u);
      assert s - {u} - {v} == s - {v} - {u};
    }
  }

  lemma {:induction false} WeightSplit<K(!new)>(w: map<K, nat>, s: set<K>, t: set<K>)
    ensures Weight(w, s) == Weight(w, s * t) + Weight(w, s - t)
  {
    if s != {} {
      var v :| v in s;
      WeightPeel(w, s, v);
      WeightSplit(w, s - {v}, t);
      if v in t {
        WeightPeel(w, s * t, v);
        assert (s * t) - {v} == (s - {v}) * t && (s - {v}) - t == s - t;
      } else {
        WeightPeel(w, s - t, v);
        assert (s - t) - {v} == (s - {v}) - t && (s - {v}) * t == s * t;
      }
    }
  }

  lemma WeightMono<K(!new)>(w: map<K, nat>, s: set<K>, t: set<K>)
    requires s <= t
    ensures Weight(w, s) <= Weight(w, t)
  {
    WeightSplit(w, t, s);
    assert t * s == s;
  }

  lemma {:induction false} WeightInside<K(!new)>(w: map<K, nat>, s: set<K>)
    ensures Weight(w, s) == Weight(w, s * w.Keys)
  {
    WeightSplit(w, s, w.Keys);
    WeightOutside(w, s - w.Keys);
  }

  lemma {:induction false} WeightOutside<K(!new)>(w: map<K, nat>, s: set<K>)
    requires s !! w.Keys
    ensures Weight(w, s) == 0
  {
    if s != {} {
      var v :| v in s;
      WeightPeel(w, s, v);
      WeightOutside(w, s - {v});
    }
  }

  lemma WeightAtMostTotal<K(!new)>(w: map<K, nat>, s: set<K>)
    ensures Weight(w, s) <= Total(w)
  {
    WeightInside(w, s);
    WeightMono(w, s * w.Keys, w.Keys);
  }

  /** The threshold exactly as it is computed on 64-bit words: one division, two
      subtractions, so no intermediate value leaves the word. */
  function RequiredWeight(total: nat): (r: nat)
    requires 0 < total <= UINT64_MAX
    ensures r == 2 * total / 3 + 1
    ensures r <= total
  {
    total - (total - 1) / 3
  }

  /** Two quorums overlap in more than a third of the total, and the honest remainder is
      still a quorum at the largest tolerated fault weight, but not beyond it. */
  lemma ThresholdIsTight(total: nat, faulty: nat)
    requires 0 < total <= UINT64_MAX && faulty <= total
    ensures 3 * (2 * RequiredWeight(total) - total) > total
    ensures total - faulty >= RequiredWeight(total) <==> faulty <= (total - 1) / 3
    ensures 3 * faulty < total <==> faulty <= (total - 1) / 3
  {
  }

  ghost predicate IsQuorum(w: Weights, s: set<string>) {
    0 < Total(w) <= UINT64_MAX && Weight(w, s) >= RequiredWeight(Total(w))
  }

  /** Less than one third of the weight is faulty. */
  ghost predicate FaultBound(w: Weights, honest: set<string>) {
    3 * Weight(w, w.Keys - honest) < Total(w)
  }

  lemma QuorumMono(w: Weights, s: set<string>, t: set<string>)
    requires IsQuorum(w, s) && s <= t
    ensures IsQuorum(w, t)
  {
    WeightMono(w, s, t);
  }

  lemma QuorumIntersection(w: Weights, s: set<string>, t: set<string>)
    requires IsQuorum(w, s) && IsQuorum(w, t)
    ensures 3 * Weight(w, s * t) > Total(w)
  {
    WeightInside(w, s);
    WeightInside(w, t);
    var a, b := s * w.Keys, t * w.Keys;
    WeightSplit(w, w.Keys, a);
    assert w.Keys * a == a;
    WeightSplit(w, b, a);
    WeightMono(w, b - a, w.Keys - a);
    WeightMono(w, b * a, s * t);
  }

  /** Any two quorums of one set share an honest validator. */
  lemma HonestWitness(w: Weights, honest: set<string>, s: set<string>, t: set<string>) returns (v: string)
    requires FaultBound(w, honest) && IsQuorum(w, s) && IsQuorum(w, t)
    ensures v in s && v in t && v in honest && v in w
  {
    QuorumIntersection(w, s, t);
    WeightInside(w, s * t);
    var common := s * t * w.Keys;
    WeightSplit(w, common, honest);
    WeightMono(w, common - honest, w.Keys - honest);
    assert Weight(w, common * honest) > 0;
    assert common * honest != {};
    v :| v in common * honest;
  }
}
