/** Inclusion proofs for the version 1 tree: every honest proof is accepted, and every accepted
    proof is the honest proof of the element it names. */
module V1Proofs {
  import opened Wrappers
  import opened V1Encoding
  import opened MerkleBinding
  import opened SplitTree
  import opened Arithmetic
  import opened SplitProofs
  import opened V1Merkle

  datatype InclusionProof = InclusionProof(leafIndex: nat, treeSize: nat, siblings: seq<Hash32>)

  predicate VerifyLeafHash(hash: Bytes -> Hash32, kind: Kind, root: Hash32, proof: InclusionProof, leaf: Hash32) {
    && 0 < proof.treeSize <= MAX_LEAVES
    && proof.leafIndex < proof.treeSize
    && |proof.siblings| <= MAX_PROOF_SIBLINGS
    && match RebuildProof(hash, kind, proof, leaf)
       case None => false
       case Some((tree, left)) => left == 0 && Counted(hash, kind, proof.treeSize, tree) == root
  }

  function RebuildProof(hash: Bytes -> Hash32, kind: Kind, proof: InclusionProof, leaf: Hash32): Option<(Hash32, nat)>
    requires proof.leafIndex < proof.treeSize
  {
    Rebuild(V1Scheme(hash, kind), proof.treeSize, proof.leafIndex, leaf, proof.siblings, |proof.siblings|)
  }

  predicate Verify(hash: Bytes -> Hash32, kind: Kind, root: Hash32, proof: InclusionProof, element: Bytes) {
    && 0 < proof.treeSize <= MAX_LEAVES
    && proof.leafIndex < proof.treeSize
    && VerifyLeafHash(hash, kind, root, proof, LeafHash(V1Scheme(hash, kind), proof.leafIndex, element))
  }

  // --- Honest proofs are accepted -------------------------------------------------------------

  lemma {:induction false} MaxLeavesIsPow2()
    ensures Pow2(20) == MAX_LEAVES
  {
    assert Pow2(10) == 1024;
  }

  /** The proof of leaf `i`, as it is built. */
  function HonestProof(hash: Bytes -> Hash32, kind: Kind, leaves: seq<Hash32>, i: nat): InclusionProof
    requires i < |leaves|
  {
    InclusionProof(i, |leaves|, Path(V1Scheme(hash, kind), leaves, 0, |leaves|, i))
  }

  lemma {:induction false} HonestProofRebuilds(hash: Bytes -> Hash32, kind: Kind, leaves: seq<Hash32>, i: nat)
    requires i < |leaves| <= MAX_LEAVES
    ensures |HonestProof(hash, kind, leaves, i).siblings| <= 20
    ensures RebuildProof(hash, kind, HonestProof(hash, kind, leaves, i), leaves[i])
         == Some((Subtree(V1Scheme(hash, kind), leaves, 0, |leaves|), 0))
  {
    MaxLeavesIsPow2();
    PathLength(V1Scheme(hash, kind), leaves, 0, |leaves|, i, 20);
    WholePathRebuilds(V1Scheme(hash, kind), leaves, i, Path(V1Scheme(hash, kind), leaves, 0, |leaves|, i));
  }

  lemma {:induction false} WholePathRebuilds<P, T, D>(s: Scheme<P, T, D>, leaves: seq<D>, i: nat, siblings: seq<D>)
    requires i < |leaves| && siblings == Path(s, leaves, 0, |leaves|, i)
    ensures Rebuild(s, |leaves|, i, leaves[i], siblings, |siblings|) == Some((Subtree(s, leaves, 0, |leaves|), 0))
  {
    assert siblings[0..|siblings|] == siblings;
    RebuildPath(s, leaves, 0, |leaves|, i, siblings, 0, |siblings|);
  }

  /** The proof built for any leaf of any tree within the limit verifies against its root, and
      has at most 20 siblings. */
  lemma {:induction false} HonestProofVerifies(
    hash: Bytes -> Hash32, kind: Kind, elements: seq<Bytes>, leaves: seq<Hash32>, i: nat)
    requires i < |elements| <= MAX_LEAVES && leaves == LeafHashes(V1Scheme(hash, kind), elements)
    ensures |HonestProof(hash, kind, leaves, i).siblings| <= 20
    ensures Verify(hash, kind, Root(hash, kind, elements).value, HonestProof(hash, kind, leaves, i), elements[i])
  {
    HonestProofRebuilds(hash, kind, leaves, i);
    assert leaves[i] == LeafHash(V1Scheme(hash, kind), i, elements[i]);
  }

  // --- Accepted proofs are honest -------------------------------------------------------------

  /** Every input hashed while a proof is checked. */
  ghost function ProofInputs(hash: Bytes -> Hash32, kind: Kind, proof: InclusionProof, element: Bytes): iset<Bytes>
    requires proof.leafIndex < proof.treeSize <= MAX_LEAVES
  {
    var s, n := V1Scheme(hash, kind), |proof.siblings|;
    var leaf := LeafHash(s, proof.leafIndex, element);
    var r := RebuildProof(hash, kind, proof, leaf);
    iset{LeafInput(kind, proof.leafIndex, element)}
    + RebuildInputs(s, proof.treeSize, proof.leafIndex, leaf, proof.siblings, n)
    + (if r.Some? then iset{RootInput(kind, proof.treeSize, r.value.0)} else iset{})
  }

  /** A proof accepted against the root of a list names its true size, an element at its true
      position and exactly the honest siblings; otherwise an input hashed for the root and one
      hashed for the proof collide. */
  lemma {:induction false} AcceptedProofIsHonest(
    hash: Bytes -> Hash32, kind: Kind, elements: seq<Bytes>, leaves: seq<Hash32>, proof: InclusionProof, element: Bytes)
    requires Root(hash, kind, elements).Some? && leaves == LeafHashes(V1Scheme(hash, kind), elements)
    requires Verify(hash, kind, Root(hash, kind, elements).value, proof, element)
    ensures
      || (&& proof.leafIndex < |elements|
          && proof == HonestProof(hash, kind, leaves, proof.leafIndex)
          && elements[proof.leafIndex] == element)
      || Collides(hash, RootInputs(hash, kind, elements), ProofInputs(hash, kind, proof, element))
  {
    var s := V1Scheme(hash, kind);
    var leaf := LeafHash(s, proof.leafIndex, element);
    var d := RebuildProof(hash, kind, proof, leaf).value.0;
    var x, data := TopInput(hash, kind, elements);
    var y := RootInput(kind, proof.treeSize, d);
    if x == y {
      DomainsApart(if elements == [] then EMPTY_LABEL else ROOT_LABEL, kind, data, ROOT_LABEL, kind, U32(proof.treeSize) + d);
      U32Prefix(|elements|, Digest(s, TreeOf(elements, 0, |elements|)), proof.treeSize, d);
      SubtreeIsDigest(s, elements, 0, |elements|);
      AlignedProofIsHonest(hash, kind, elements, leaves, proof, element);
    } else {
      assert y in ProofInputs(hash, kind, proof, element);
    }
  }

  lemma {:induction false} NodesSeparated(hash: Bytes -> Hash32, kind: Kind)
    ensures NodeInjective(V1Scheme(hash, kind))
  {
    V1SchemeSeparated(hash, kind);
  }

  lemma {:induction false} LeafCollision(
    hash: Bytes -> Hash32, kind: Kind, elements: seq<Bytes>, proof: InclusionProof, element: Bytes)
    requires proof.leafIndex < |elements| == proof.treeSize <= MAX_LEAVES && elements[proof.leafIndex] != element
    requires hash(LeafInput(kind, proof.leafIndex, elements[proof.leafIndex])) == hash(LeafInput(kind, proof.leafIndex, element))
    ensures Collides(hash, RootInputs(hash, kind, elements), ProofInputs(hash, kind, proof, element))
  {
    var i := proof.leafIndex;
    LeafInputsHashed(V1Scheme(hash, kind), elements, 0, |elements|, i);
    LeafInputsApart(kind, i, elements[i], element);
    assert LeafInput(kind, i, elements[i]) in RootInputs(hash, kind, elements);
    assert LeafInput(kind, i, element) in ProofInputs(hash, kind, proof, element);
  }

  lemma {:induction false} AlignedProofIsHonest(
    hash: Bytes -> Hash32, kind: Kind, elements: seq<Bytes>, leaves: seq<Hash32>, proof: InclusionProof, element: Bytes)
    requires 0 < |elements| == proof.treeSize <= MAX_LEAVES && leaves == LeafHashes(V1Scheme(hash, kind), elements)
    requires proof.leafIndex < proof.treeSize
    requires RebuildProof(hash, kind, proof, LeafHash(V1Scheme(hash, kind), proof.leafIndex, element))
      == Some((Subtree(V1Scheme(hash, kind), leaves, 0, |leaves|), 0))
    ensures
      || (proof == HonestProof(hash, kind, leaves, proof.leafIndex) && elements[proof.leafIndex] == element)
      || Collides(hash, RootInputs(hash, kind, elements), ProofInputs(hash, kind, proof, element))
  {
    var s, i, n := V1Scheme(hash, kind), proof.leafIndex, |proof.siblings|;
    var leaf := LeafHash(s, i, element);
    NodesSeparated(hash, kind);
    RebuildSound(s, leaves, 0, |leaves|, i, leaf, proof.siblings, n);
    if RebuildCollides(s, leaves, 0, |leaves|, i, leaf, proof.siblings, n) {
      SubtreeInputsHashed(s, elements, 0, |elements|);
      CollidesMono(hash, SubtreeInputs(s, leaves, 0, |leaves|),
        RebuildInputs(s, |leaves|, i, leaf, proof.siblings, n),
        RootInputs(hash, kind, elements), ProofInputs(hash, kind, proof, element));
    } else {
      assert proof.siblings[0..n] == proof.siblings;
      if elements[i] != element {
        LeafCollision(hash, kind, elements, proof, element);
      }
    }
  }

  lemma {:induction false} LeafInputsApart(kind: Kind, i: nat, p: Bytes, q: Bytes)
    requires p != q && i < MAX_LEAVES
    ensures LeafInput(kind, i, p) != LeafInput(kind, i, q)
  {
    if LeafInput(kind, i, p) == LeafInput(kind, i, q) {
      DomainsApart(LEAF_LABEL, kind, U32(i) + p, LEAF_LABEL, kind, U32(i) + q);
      U32Prefix(i, p, i, q);
    }
  }

  // --- Building ---------------------------------------------------------------------------------

  /** One proof per requested index, in the order requested; nothing when the tree is empty
      or too large or an index lies outside it. */
  method Prove(hash: Bytes -> Hash32, kind: Kind, leaves: seq<Hash32>, indices: seq<nat>)
    returns (r: Option<seq<InclusionProof>>)
    ensures r.Some? <==> 0 < |leaves| <= MAX_LEAVES && forall k: nat :: k < |indices| ==> indices[k] < |leaves|
    ensures r.Some? ==> |r.value| == |indices|
    ensures r.Some? ==> forall k: nat :: k < |indices| ==> r.value[k] == HonestProof(hash, kind, leaves, indices[k])
  {
    if leaves == [] || |leaves| > MAX_LEAVES {
      return None;
    }
    var proofs := new seq<Hash32>[|indices|](_ => []);
    var pending: seq<Pending> := [];
    for slot := 0 to |indices|
      invariant |pending| == slot && forall k: nat :: k < slot ==> pending[k] == Pending(indices[k], k)
      invariant forall k: nat :: k < slot ==> indices[k] < |leaves|
      invariant forall k: nat :: k < |indices| ==> proofs[k] == []
    {
      if indices[slot] >= |leaves| {
        return None;
      }
      pending := pending + [Pending(indices[slot], slot)];
    }
    var _ := BuildWithProofs(V1Scheme(hash, kind), leaves, 0, |leaves|, pending, indices, proofs);
    var result: seq<InclusionProof> := [];
    for k := 0 to |indices|
      invariant |result| == k && forall j: nat :: j < k ==> result[j] == HonestProof(hash, kind, leaves, indices[j])
    {
      assert pending[k].slot == k && Waits(pending, k);
      result := result + [InclusionProof(indices[k], |leaves|, proofs[k])];
    }
    r := Some(result);
  }
}
