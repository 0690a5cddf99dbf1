/** The tree shape of section 2.1 of RFC 6962: a list of leaves is split at the largest power
    of two below its length, down to single leaves. */
module SplitTree {
  import opened MerkleBinding
  import opened Arithmetic

  // --- The split -----------------------------------------------------------------------------

  /** Doubling until the next power would reach the count. */
  function SplitFrom(k: nat, count: nat): (split: nat)
    requires 0 < k < count
    ensures k <= split < count <= 2 * split
    decreases count - k
  {
    if 2 * k < count then SplitFrom(2 * k, count) else k
  }

  function Split(count: nat): (split: nat)
    requires count >= 2
    ensures 0 < split < count <= 2 * split
  {
    SplitFrom(1, count)
  }

  method ComputeSplit(count: nat) returns (split: nat)
    requires count >= 2
    ensures split == Split(count)
  {
    split := 1;
    while split <= (count - 1) / 2
      invariant 0 < split < count && SplitFrom(split, count) == Split(count)
      decreases count - split
    {
      split := split * 2;
    }
  }

  lemma {:induction false} SplitFromIsPower(m: nat, count: nat) returns (n: nat)
    requires Pow2(m) < count
    ensures SplitFrom(Pow2(m), count) == Pow2(n)
    decreases count - Pow2(m)
  {
    n := m;
    if 2 * Pow2(m) < count {
      n := SplitFromIsPower(m + 1, count);
    }
  }

  /** The split is a power of two below the count, and no larger one is. */
  lemma {:induction false} SplitIsLargestPower(count: nat) returns (n: nat)
    requires count >= 2
    ensures Split(count) == Pow2(n) < count
    ensures forall m: nat :: Pow2(m) < count ==> m <= n
  {
    n := SplitFromIsPower(0, count);
    forall m: nat | n < m ensures Pow2(m) >= count {
      Pow2Mono(n + 1, m);
    }
  }

  lemma {:induction false} SplitFits(count: nat, depth: nat)
    requires 2 <= count <= Pow2(depth)
    ensures depth > 0 && Split(count) <= Pow2(depth - 1) && count - Split(count) <= Pow2(depth - 1)
  {
    var n := SplitIsLargestPower(count);
    if depth <= n {
      Pow2Mono(depth, n);
    } else {
      Pow2Mono(n, depth - 1);
    }
  }

  // --- The tree ------------------------------------------------------------------------------

  /** The digest of an inner node. */
  function Join<P, T, D>(s: Scheme<P, T, D>, left: D, right: D): D {
    s.hash(s.node(left, right))
  }

  function LeafHashes<P, T, D>(s: Scheme<P, T, D>, elements: seq<P>): seq<D> {
    seq(|elements|, i requires 0 <= i < |elements| => LeafHash(s, i, elements[i]))
  }

  function LeafHash<P, T, D>(s: Scheme<P, T, D>, index: nat, element: P): D {
    s.hash(s.leaf(index, element))
  }

  /** The hash over the leaves from `begin` up to `end`. */
  function Subtree<P, T, D>(s: Scheme<P, T, D>, leaves: seq<D>, begin: nat, end: nat): D
    requires begin < end <= |leaves|
    decreases end - begin
  {
    if end - begin == 1 then leaves[begin]
    else
      var middle := begin + Split(end - begin);
      Join(s, Subtree(s, leaves, begin, middle), Subtree(s, leaves, middle, end))
  }

  /** The tree behind the recursion. */
  function TreeOf<P>(elements: seq<P>, begin: nat, end: nat): Tree<P>
    requires begin < end <= |elements|
    decreases end - begin
  {
    if end - begin == 1 then Leaf(begin, elements[begin])
    else
      var middle := begin + Split(end - begin);
      Node(TreeOf(elements, begin, middle), TreeOf(elements, middle, end))
  }

  lemma {:induction false} SubtreeIsDigest<P, T, D>(
    s: Scheme<P, T, D>, elements: seq<P>, begin: nat, end: nat)
    requires begin < end <= |elements|
    ensures Subtree(s, LeafHashes(s, elements), begin, end)
         == Digest(s, TreeOf(elements, begin, end))
    decreases end - begin
  {
    if end - begin > 1 {
      var middle := begin + Split(end - begin);
      SubtreeIsDigest(s, elements, begin, middle);
      SubtreeIsDigest(s, elements, middle, end);
    }
  }

  lemma {:induction false} TreeLeaves<P>(elements: seq<P>, begin: nat, end: nat, i: nat, p: P)
    requires begin < end <= |elements|
    ensures (i, p) in Leaves(TreeOf(elements, begin, end)) <==> begin <= i < end && elements[i] == p
    decreases end - begin
  {
    if end - begin > 1 {
      var middle := begin + Split(end - begin);
      TreeLeaves(elements, begin, middle, i, p);
      TreeLeaves(elements, middle, end, i, p);
    }
  }

  lemma {:induction false} TreeHoldsElements<P(!new)>(elements: seq<P>)
    requires elements != []
    ensures Holds(TreeOf(elements, 0, |elements|), elements)
  {
    forall i: nat, p
      ensures (i, p) in Leaves(TreeOf(elements, 0, |elements|)) <==> i < |elements| && elements[i] == p
    {
      TreeLeaves(elements, 0, |elements|, i, p);
    }
  }
}
