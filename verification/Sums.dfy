/** Sums over maps of amounts, and how one entry changes them. */
module Sums {
  import opened Quorum

  /** The largest amount of coin units. */
  const INT64_MAX: nat := 0x7FFF_FFFF_FFFF_FFFF

  lemma {:induction false} WeightAgree<K(!new)>(w: map<K, nat>, x: map<K, nat>, s: set<K>)
    requires forall k :: k in s ==> (k in w <==> k in x) && (k in w ==> w[k] == x[k])
    ensures Weight(w, s) == Weight(x, s)
  {
    if s != {} {
      var v :| v in s;
      WeightPeel(w, s, v);
      WeightPeel(x, s, v);
      WeightAgree(w, x, s - {v});
    }
  }

  function At<K>(w: map<K, nat>, k: K): nat {
    if k in w then w[k] else 0
  }

  /** Storing a value under one key changes the sum by the difference at that key. */
  lemma {:induction false} TotalUpdate<K(!new)>(w: map<K, nat>, k: K, v: nat)
    ensures Total(w[k := v]) + At(w, k) == Total(w) + v
  {
    var x := w[k := v];
    WeightPeel(x, x.Keys, k);
    assert x.Keys - {k} == w.Keys - {k};
    WeightAgree(w, x, w.Keys - {k});
    if k in w {
      WeightPeel(w, w.Keys, k);
    } else {
      assert w.Keys - {k} == w.Keys;
    }
  }

  lemma {:induction false} TotalRemove<K(!new)>(w: map<K, nat>, k: K)
    ensures Total(w - {k}) + At(w, k) == Total(w)
  {
    var x := w - {k};
    assert x.Keys == w.Keys - {k};
    WeightAgree(w, x, x.Keys);
    if k in w {
      WeightPeel(w, w.Keys, k);
    } else {
      assert x == w;
    }
  }

  /** No entry exceeds the sum. */
  lemma {:induction false} EntryAtMostTotal<K(!new)>(w: map<K, nat>, k: K)
    ensures At(w, k) <= Total(w)
  {
    if k in w {
      WeightPeel(w, w.Keys, k);
    }
  }
}
