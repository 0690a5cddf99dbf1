/** Inclusion paths in the split tree: built for many leaves in one pass, and rebuilt from a
    leaf to the top. */
module SplitProofs {
  import opened Wrappers
  import opened MerkleBinding
  import opened SplitTree
  import opened Arithmetic

  /** The siblings of leaf `i`, from the leaf upwards. */
  function Path<P, T, D>(s: Scheme<P, T, D>, leaves: seq<D>, begin: nat, end: nat, i: nat): seq<D>
    requires begin <= i < end <= |leaves|
    decreases end - begin
  {
    if end - begin == 1 then []
    else
      var middle := begin + Split(end - begin);
      if i < middle then
        Path(s, leaves, begin, middle, i) + [Subtree(s, leaves, middle, end)]
      else
        Path(s, leaves, middle, end, i) + [Subtree(s, leaves, begin, middle)]
  }

  /** Hashes upwards from a leaf, taking siblings from the end; also how many are left. */
  function Rebuild<P, T, D>(s: Scheme<P, T, D>, count: nat, index: nat, leaf: D,
    siblings: seq<D>, remaining: nat): (r: Option<(D, nat)>)
    requires index < count && remaining <= |siblings|
    ensures r.Some? ==> r.value.1 <= remaining
  {
    if count == 1 then Some((leaf, remaining))
    else if remaining == 0 then None
    else
      var sibling := siblings[remaining - 1];
      var split := Split(count);
      if index < split then
        match Rebuild(s, split, index, leaf, siblings, remaining - 1)
        case None => None
        case Some((left, rest)) => Some((Join(s, left, sibling), rest))
      else
        match Rebuild(s, count - split, index - split, leaf, siblings, remaining - 1)
        case None => None
        case Some((right, rest)) => Some((Join(s, sibling, right), rest))
  }

  // --- Honest proofs are accepted -------------------------------------------------------------

  lemma {:induction false} RebuildPath<P, T, D>(
    s: Scheme<P, T, D>, leaves: seq<D>, begin: nat, end: nat, i: nat, siblings: seq<D>, rest: nat, remaining: nat)
    requires begin <= i < end <= |leaves| && rest <= remaining <= |siblings|
    requires siblings[rest..remaining] == Path(s, leaves, begin, end, i)
    ensures Rebuild(s, end - begin, i - begin, leaves[i], siblings, remaining)
         == Some((Subtree(s, leaves, begin, end), rest))
    decreases end - begin
  {
    if end - begin > 1 {
      var middle := begin + Split(end - begin);
      var a, b := Subtree(s, leaves, begin, middle), Subtree(s, leaves, middle, end);
      if i < middle {
        LastSibling(siblings, rest, remaining, Path(s, leaves, begin, middle, i), b);
        RebuildPath(s, leaves, begin, middle, i, siblings, rest, remaining - 1);
      } else {
        LastSibling(siblings, rest, remaining, Path(s, leaves, middle, end, i), a);
        RebuildPath(s, leaves, middle, end, i, siblings, rest, remaining - 1);
      }
    }
  }

  lemma {:induction false} LastSibling<D>(siblings: seq<D>, rest: nat, remaining: nat, path: seq<D>, last: D)
    requires rest <= remaining <= |siblings| && siblings[rest..remaining] == path + [last]
    ensures rest < remaining && siblings[rest..remaining - 1] == path && siblings[remaining - 1] == last
  {
    var p := siblings[rest..remaining];
    assert p[..|p| - 1] == path && p[|p| - 1] == last;
  }

  /** A tree over at most 2^depth leaves has paths of at most `depth` siblings. */
  lemma {:induction false} PathLength<P, T, D>(
    s: Scheme<P, T, D>, leaves: seq<D>, begin: nat, end: nat, i: nat, depth: nat)
    requires begin <= i < end <= |leaves| && end - begin <= Pow2(depth)
    ensures |Path(s, leaves, begin, end, i)| <= depth
    decreases end - begin
  {
    var p := Path(s, leaves, begin, end, i);
    if end - begin > 1 {
      var middle := begin + Split(end - begin);
      SplitFits(end - begin, depth);
      if i < middle {
        PathLength(s, leaves, begin, middle, i, depth - 1);
        assert |p| == |Path(s, leaves, begin, middle, i)| + 1;
      } else {
        PathLength(s, leaves, middle, end, i, depth - 1);
        assert |p| == |Path(s, leaves, middle, end, i)| + 1;
      }
      assert |p| <= depth;
    } else {
      assert |p| == 0;
    }
    assert |p| <= depth;
  }

  // --- Accepted proofs are honest -------------------------------------------------------------

  /** Every input hashed while a proof is rebuilt, above the leaf. */
  ghost function RebuildInputs<P, T, D>(s: Scheme<P, T, D>, count: nat, index: nat, leaf: D,
    siblings: seq<D>, remaining: nat): iset<T>
    requires index < count && remaining <= |siblings|
  {
    if count == 1 || remaining == 0 then iset{}
    else
      var sibling := siblings[remaining - 1];
      var split := Split(count);
      if index < split then
        var below := Rebuild(s, split, index, leaf, siblings, remaining - 1);
        RebuildInputs(s, split, index, leaf, siblings, remaining - 1)
        + (if below.Some? then iset{s.node(below.value.0, sibling)} else iset{})
      else
        var below := Rebuild(s, count - split, index - split, leaf, siblings, remaining - 1);
        RebuildInputs(s, count - split, index - split, leaf, siblings, remaining - 1)
        + (if below.Some? then iset{s.node(sibling, below.value.0)} else iset{})
  }

  /** Every input hashed above the leaves. */
  ghost function SubtreeInputs<P, T, D>(s: Scheme<P, T, D>, leaves: seq<D>, begin: nat, end: nat): iset<T>
    requires begin < end <= |leaves|
    decreases end - begin
  {
    if end - begin == 1 then iset{}
    else
      var middle := begin + Split(end - begin);
      iset{s.node(Subtree(s, leaves, begin, middle), Subtree(s, leaves, middle, end))}
      + SubtreeInputs(s, leaves, begin, middle)
      + SubtreeInputs(s, leaves, middle, end)
  }

  lemma {:induction false} SubtreeInputsHashed<P, T, D>(s: Scheme<P, T, D>, elements: seq<P>, begin: nat, end: nat)
    requires begin < end <= |elements|
    ensures SubtreeInputs(s, LeafHashes(s, elements), begin, end)
         <= Inputs(s, TreeOf(elements, begin, end))
    decreases end - begin
  {
    if end - begin > 1 {
      var middle := begin + Split(end - begin);
      SubtreeInputsHashed(s, elements, begin, middle);
      SubtreeInputsHashed(s, elements, middle, end);
      SubtreeIsDigest(s, elements, begin, middle);
      SubtreeIsDigest(s, elements, middle, end);
    }
  }

  ghost predicate NodeInjective<P, T(!new), D(!new)>(s: Scheme<P, T, D>) {
    forall a, b, c, d :: s.node(a, b) == s.node(c, d) ==> a == c && b == d
  }

  /** What a rebuilt hash that matches the real one proves. */
  ghost predicate Honest<P, T, D>(s: Scheme<P, T, D>, leaves: seq<D>, begin: nat, end: nat, i: nat,
    leaf: D, siblings: seq<D>, remaining: nat)
    requires begin <= i < end <= |leaves| && remaining <= |siblings|
  {
    var r := Rebuild(s, end - begin, i - begin, leaf, siblings, remaining);
    && r.Some?
    && leaf == leaves[i]
    && siblings[r.value.1..remaining] == Path(s, leaves, begin, end, i)
  }

  ghost predicate RebuildCollides<P, T(!new), D(!new)>(s: Scheme<P, T, D>, leaves: seq<D>, begin: nat, end: nat, i: nat,
    leaf: D, siblings: seq<D>, remaining: nat)
    requires begin <= i < end <= |leaves| && remaining <= |siblings|
  {
    Collides(s.hash, SubtreeInputs(s, leaves, begin, end),
      RebuildInputs(s, end - begin, i - begin, leaf, siblings, remaining))
  }

  /** A rebuilt subtree hash that matches the real one used the real leaf and the real path. */
  lemma {:induction false} RebuildSound<P, T(!new), D(!new)>(
    s: Scheme<P, T, D>, leaves: seq<D>, begin: nat, end: nat, i: nat,
    leaf: D, siblings: seq<D>, remaining: nat)
    requires NodeInjective(s) && begin <= i < end <= |leaves| && remaining <= |siblings|
    requires var r := Rebuild(s, end - begin, i - begin, leaf, siblings, remaining);
      r.Some? && r.value.0 == Subtree(s, leaves, begin, end)
    ensures
      || Honest(s, leaves, begin, end, i, leaf, siblings, remaining)
      || RebuildCollides(s, leaves, begin, end, i, leaf, siblings, remaining)
    decreases end - begin, 1
  {
    if end - begin > 1 {
      if i < begin + Split(end - begin) {
        RebuildSoundLeft(s, leaves, begin, end, i, leaf, siblings, remaining);
      } else {
        RebuildSoundRight(s, leaves, begin, end, i, leaf, siblings, remaining);
      }
    }
  }

  lemma {:induction false} RebuildSoundLeft<P, T(!new), D(!new)>(
    s: Scheme<P, T, D>, leaves: seq<D>, begin: nat, end: nat, i: nat,
    leaf: D, siblings: seq<D>, remaining: nat)
    requires NodeInjective(s) && begin <= i < end <= |leaves| && remaining <= |siblings|
    requires end - begin > 1 && i < begin + Split(end - begin)
    requires var r := Rebuild(s, end - begin, i - begin, leaf, siblings, remaining);
      r.Some? && r.value.0 == Subtree(s, leaves, begin, end)
    ensures
      || Honest(s, leaves, begin, end, i, leaf, siblings, remaining)
      || RebuildCollides(s, leaves, begin, end, i, leaf, siblings, remaining)
    decreases end - begin, 0
  {
    var middle := begin + Split(end - begin);
    var sibling := siblings[remaining - 1];
    var a, b := Subtree(s, leaves, begin, middle), Subtree(s, leaves, middle, end);
    var (d, rest) := Rebuild(s, middle - begin, i - begin, leaf, siblings, remaining - 1).value;
    if s.node(d, sibling) == s.node(a, b) {
      RebuildSound(s, leaves, begin, middle, i, leaf, siblings, remaining - 1);
      if Honest(s, leaves, begin, middle, i, leaf, siblings, remaining - 1) {
        assert siblings[rest..remaining] == siblings[rest..remaining - 1] + [sibling];
      } else {
        CollidesMono(s.hash, SubtreeInputs(s, leaves, begin, middle),
          RebuildInputs(s, middle - begin, i - begin, leaf, siblings, remaining - 1),
          SubtreeInputs(s, leaves, begin, end),
          RebuildInputs(s, end - begin, i - begin, leaf, siblings, remaining));
      }
    }
  }

  lemma {:induction false} RebuildSoundRight<P, T(!new), D(!new)>(
    s: Scheme<P, T, D>, leaves: seq<D>, begin: nat, end: nat, i: nat,
    leaf: D, siblings: seq<D>, remaining: nat)
    requires NodeInjective(s) && begin <= i < end <= |leaves| && remaining <= |siblings|
    requires end - begin > 1 && begin + Split(end - begin) <= i
    requires var r := Rebuild(s, end - begin, i - begin, leaf, siblings, remaining);
      r.Some? && r.value.0 == Subtree(s, leaves, begin, end)
    ensures
      || Honest(s, leaves, begin, end, i, leaf, siblings, remaining)
      || RebuildCollides(s, leaves, begin, end, i, leaf, siblings, remaining)
    decreases end - begin, 0
  {
    var middle := begin + Split(end - begin);
    var sibling := siblings[remaining - 1];
    var a, b := Subtree(s, leaves, begin, middle), Subtree(s, leaves, middle, end);
    var (d, rest) := Rebuild(s, end - middle, i - middle, leaf, siblings, remaining - 1).value;
    if s.node(sibling, d) == s.node(a, b) {
      RebuildSound(s, leaves, middle, end, i, leaf, siblings, remaining - 1);
      if Honest(s, leaves, middle, end, i, leaf, siblings, remaining - 1) {
        assert siblings[rest..remaining] == siblings[rest..remaining - 1] + [sibling];
      } else {
        CollidesMono(s.hash, SubtreeInputs(s, leaves, middle, end),
          RebuildInputs(s, end - middle, i - middle, leaf, siblings, remaining - 1),
          SubtreeInputs(s, leaves, begin, end),
          RebuildInputs(s, end - begin, i - begin, leaf, siblings, remaining));
      }
    }
  }

  lemma {:induction false} LeafInputsHashed<P, T, D>(s: Scheme<P, T, D>, elements: seq<P>, begin: nat, end: nat, i: nat)
    requires begin <= i < end <= |elements|
    ensures s.leaf(i, elements[i]) in Inputs(s, TreeOf(elements, begin, end))
    decreases end - begin
  {
    if end - begin > 1 {
      var middle := begin + Split(end - begin);
      if i < middle {
        LeafInputsHashed(s, elements, begin, middle, i);
      } else {
        LeafInputsHashed(s, elements, middle, end, i);
      }
    }
  }

  // --- Building all proofs in one pass --------------------------------------------------------

  datatype Pending = Pending(index: nat, slot: nat)

  ghost predicate DistinctSlots(pending: seq<Pending>) {
    forall j: nat, k: nat :: j < k < |pending| ==> pending[j].slot != pending[k].slot
  }

  /** Slot `slot` waits in `pending`. */
  ghost predicate Waits(pending: seq<Pending>, slot: nat) {
    exists k: nat :: k < |pending| && pending[k].slot == slot
  }

  /** Every pending entry asks for the index wanted in its slot, within the range. */
  ghost predicate Asks(pending: seq<Pending>, wanted: seq<nat>, begin: nat, end: nat) {
    forall k: nat :: k < |pending| ==>
      && pending[k].slot < |wanted|
      && wanted[pending[k].slot] == pending[k].index
      && begin <= pending[k].index < end
  }

  /** A list divided into the entries below `middle` and the others. */
  ghost predicate Parted(pending: seq<Pending>, left: seq<Pending>, right: seq<Pending>, wanted: seq<nat>, middle: nat) {
    forall slot: nat :: slot < |wanted| ==>
      && (Waits(left, slot) <==> Waits(pending, slot) && wanted[slot] < middle)
      && (Waits(right, slot) <==> Waits(pending, slot) && wanted[slot] >= middle)
  }

  /** Splits the pending entries at `middle`, keeping their order. */
  method Partition(pending: seq<Pending>, middle: nat, ghost wanted: seq<nat>, ghost begin: nat, ghost end: nat)
    returns (left: seq<Pending>, right: seq<Pending>)
    requires DistinctSlots(pending) && Asks(pending, wanted, begin, end) && begin <= middle <= end
    ensures DistinctSlots(left) && Asks(left, wanted, begin, middle)
    ensures DistinctSlots(right) && Asks(right, wanted, middle, end)
    ensures Parted(pending, left, right, wanted, middle)
  {
    left, right := [], [];
    for k := 0 to |pending|
      invariant DistinctSlots(left) && Asks(left, wanted, begin, middle)
      invariant DistinctSlots(right) && Asks(right, wanted, middle, end)
      invariant Parted(pending[..k], left, right, wanted, middle)
    {
      var item := pending[k];
      assert pending[..k + 1] == pending[..k] + [item];
      WaitsAppend(pending[..k], item);
      assert !Waits(pending[..k], item.slot);
      if item.index < middle {
        WaitsAppend(left, item);
        DistinctAppend(left, item);
        left := left + [item];
      } else {
        WaitsAppend(right, item);
        DistinctAppend(right, item);
        right := right + [item];
      }
    }
    assert pending[..|pending|] == pending;
  }

  lemma {:induction false} WaitsAppend(pending: seq<Pending>, item: Pending)
    ensures forall slot: nat :: Waits(pending + [item], slot) <==> Waits(pending, slot) || slot == item.slot
  {
    forall slot: nat ensures Waits(pending + [item], slot) <==> Waits(pending, slot) || slot == item.slot {
      if Waits(pending, slot) {
        var k: nat :| k < |pending| && pending[k].slot == slot;
        assert (pending + [item])[k].slot == slot;
      }
      assert (pending + [item])[|pending|] == item;
    }
  }

  lemma {:induction false} DistinctAppend(pending: seq<Pending>, item: Pending)
    requires DistinctSlots(pending) && !Waits(pending, item.slot)
    ensures DistinctSlots(pending + [item])
  {
  }

  ghost predicate Appended<D>(items: seq<Pending>, sibling: D, before: seq<seq<D>>, after: seq<seq<D>>) {
    && |before| == |after|
    && forall slot: nat :: slot < |after| ==>
        after[slot] == if Waits(items, slot) then before[slot] + [sibling] else before[slot]
  }

  /** Pushes one sibling onto every proof in the list, once each. */
  method AppendTo<D>(items: seq<Pending>, sibling: D, proofs: array<seq<D>>)
    requires DistinctSlots(items) && forall k: nat :: k < |items| ==> items[k].slot < proofs.Length
    modifies proofs
    ensures Appended(items, sibling, old(proofs[..]), proofs[..])
  {
    for k := 0 to |items|
      invariant Appended(items[..k], sibling, old(proofs[..]), proofs[..])
    {
      assert items[..k + 1] == items[..k] + [items[k]];
      WaitsAppend(items[..k], items[k]);
      assert !Waits(items[..k], items[k].slot);
      proofs[items[k].slot] := proofs[items[k].slot] + [sibling];
    }
    assert items[..|items|] == items;
  }

  /** Each waiting slot got the path of its wanted leaf appended; the others kept their proofs. */
  ghost predicate Extended<P, T, D>(s: Scheme<P, T, D>, leaves: seq<D>, begin: nat, end: nat,
    pending: seq<Pending>, wanted: seq<nat>, before: seq<seq<D>>, after: seq<seq<D>>)
    requires begin < end <= |leaves|
  {
    && |before| == |after| == |wanted|
    && forall slot: nat :: slot < |wanted| ==>
        if Waits(pending, slot)
        then begin <= wanted[slot] < end && after[slot] == before[slot] + Path(s, leaves, begin, end, wanted[slot])
        else after[slot] == before[slot]
  }

  lemma {:induction false} ExtendedCompose<P, T, D>(s: Scheme<P, T, D>, leaves: seq<D>, begin: nat, end: nat,
    pending: seq<Pending>, left: seq<Pending>, right: seq<Pending>, wanted: seq<nat>,
    middle: nat, leftHash: D, rightHash: D,
    p0: seq<seq<D>>, p1: seq<seq<D>>, p2: seq<seq<D>>, p3: seq<seq<D>>, p4: seq<seq<D>>)
    requires begin + 1 < end <= |leaves| && middle == begin + Split(end - begin)
    requires leftHash == Subtree(s, leaves, begin, middle) && rightHash == Subtree(s, leaves, middle, end)
    requires Parted(pending, left, right, wanted, middle)
    requires Extended(s, leaves, begin, middle, left, wanted, p0, p1)
    requires Extended(s, leaves, middle, end, right, wanted, p1, p2)
    requires Appended(left, rightHash, p2, p3)
    requires Appended(right, leftHash, p3, p4)
    ensures Extended(s, leaves, begin, end, pending, wanted, p0, p4)
  {
    forall slot: nat | slot < |wanted|
      ensures if Waits(pending, slot)
        then begin <= wanted[slot] < end && p4[slot] == p0[slot] + Path(s, leaves, begin, end, wanted[slot])
        else p4[slot] == p0[slot]
    {
      if Waits(pending, slot) {
        var i := wanted[slot];
        if i < middle {
          assert p1[slot] == p2[slot] && p3[slot] == p4[slot];
          PathAppends(s, leaves, begin, end, middle, i, p0[slot], Path(s, leaves, begin, middle, i), rightHash);
        } else {
          assert p0[slot] == p1[slot] && p2[slot] == p3[slot];
          PathAppends(s, leaves, begin, end, middle, i, p0[slot], Path(s, leaves, middle, end, i), leftHash);
        }
      }
    }
  }

  lemma {:induction false} PathAppends<P, T, D>(s: Scheme<P, T, D>, leaves: seq<D>, begin: nat, end: nat, middle: nat,
    i: nat, before: seq<D>, path: seq<D>, sibling: D)
    requires begin + 1 < end <= |leaves| && middle == begin + Split(end - begin) && begin <= i < end
    requires i < middle ==> path == Path(s, leaves, begin, middle, i) && sibling == Subtree(s, leaves, middle, end)
    requires i >= middle ==> path == Path(s, leaves, middle, end, i) && sibling == Subtree(s, leaves, begin, middle)
    ensures before + path + [sibling] == before + Path(s, leaves, begin, end, i)
  {
  }

  method BuildWithProofs<P, T, D>(s: Scheme<P, T, D>, leaves: seq<D>, begin: nat, end: nat,
    pending: seq<Pending>, ghost wanted: seq<nat>, proofs: array<seq<D>>) returns (root: D)
    requires begin < end <= |leaves| && |wanted| == proofs.Length
    requires DistinctSlots(pending) && Asks(pending, wanted, begin, end)
    modifies proofs
    ensures root == Subtree(s, leaves, begin, end)
    ensures Extended(s, leaves, begin, end, pending, wanted, old(proofs[..]), proofs[..])
    decreases end - begin
  {
    if pending == [] {
      return Subtree(s, leaves, begin, end);
    }
    if end - begin == 1 {
      return leaves[begin];
    }
    var middle := begin + Split(end - begin);
    var left, right := Partition(pending, middle, wanted, begin, end);
    ghost var p0 := proofs[..];
    var leftHash := BuildWithProofs(s, leaves, begin, middle, left, wanted, proofs);
    ghost var p1 := proofs[..];
    var rightHash := BuildWithProofs(s, leaves, middle, end, right, wanted, proofs);
    ghost var p2 := proofs[..];
    AppendTo(left, rightHash, proofs);
    ghost var p3 := proofs[..];
    AppendTo(right, leftHash, proofs);
    ExtendedCompose(s, leaves, begin, end, pending, left, right, wanted, middle, leftHash, rightHash,
      p0, p1, p2, p3, proofs[..]);
    root := Join(s, leftHash, rightHash);
  }
}
