/** Proofs out of the sparse trie, and the trie object itself. */
module SparseProofs {
  import opened Wrappers
  import opened MerkleBinding
  import opened OrderedRoot
  import opened SparseTrie

  datatype Step = Step(siblingHash: string, siblingIsLeft: bool)

  /** Steps run from the leaf to the root. */
  datatype Proof = Proof(leafHash: string, steps: seq<Step>)

  function Apply(h: string -> Hex, current: string, step: Step): string {
    HashNode(h, StepLeft(current, step), StepRight(current, step))
  }

  function StepLeft(current: string, step: Step): string {
    if step.siblingIsLeft then step.siblingHash else current
  }

  function StepRight(current: string, step: Step): string {
    if step.siblingIsLeft then current else step.siblingHash
  }

  function ReconstructRoot(h: string -> Hex, leaf: string, steps: seq<Step>): string {
    if steps == [] then leaf
    else Apply(h, ReconstructRoot(h, leaf, steps[..|steps| - 1]), steps[|steps| - 1])
  }

  method ComputeReconstructedRoot(h: string -> Hex, proof: Proof) returns (root: string)
    ensures root == ReconstructRoot(h, proof.leafHash, proof.steps)
  {
    root := proof.leafHash;
    for i := 0 to |proof.steps|
      invariant root == ReconstructRoot(h, proof.leafHash, proof.steps[..i])
    {
      assert proof.steps[..i + 1][..i] == proof.steps[..i];
      root := Apply(h, root, proof.steps[i]);
    }
    assert proof.steps[..|proof.steps|] == proof.steps;
  }

  predicate Verify(h: string -> Hex, proof: Proof, root: string) {
    proof.leafHash != "" && ReconstructRoot(h, proof.leafHash, proof.steps) == root
  }

  // --- Generating -------------------------------------------------------------------------------

  /** The steps from the root downwards. A stored sibling contributes its hash as stored. */
  function CollectSteps(h: string -> Hex, t: Trie, bits: Bits): (steps: seq<Step>)
    ensures |steps| == |bits|
  {
    if bits == [] then []
    else [FirstStep(h, t, bits)] + CollectSteps(h, Child(t, bits[0]), bits[1..])
  }

  function FirstStep(h: string -> Hex, t: Trie, bits: Bits): Step
    requires bits != []
  {
    var sibling := Child(t, !bits[0]);
    Step(if sibling.Null? then Default(h, |bits| - 1) else sibling.hash, bits[0])
  }

  function Descend(t: Trie, bits: Bits): Trie {
    if bits == [] then t else Descend(Child(t, bits[0]), bits[1..])
  }

  function Reversed(steps: seq<Step>): (r: seq<Step>)
    ensures |r| == |steps|
  {
    if steps == [] then [] else Reversed(steps[1..]) + [steps[0]]
  }

  function GeneratedProof(h: string -> Hex, t: Trie, bits: Bits): Proof {
    Proof(NodeHash(h, Descend(t, bits), 0), Reversed(CollectSteps(h, t, bits)))
  }

  // --- When a generated proof verifies ----------------------------------------------------------

  /** The key that differs in its last bit. */
  function SiblingKey(key: Bits): Bits
    requires key != []
  {
    key[..|key| - 1] + [!key[|key| - 1]]
  }

  /** The neighbouring leaf was written with an empty leaf hash. */
  ghost predicate EmptySibling(m: KeyMap, key: Bits) {
    key != [] && SiblingKey(key) in m && m[SiblingKey(key)] == ""
  }

  /** The same reconstruction, over steps listed from the root downwards. */
  function Climb(h: string -> Hex, leaf: string, down: seq<Step>): string {
    if down == [] then leaf else Apply(h, Climb(h, leaf, down[1..]), down[0])
  }

  ghost function ClimbInputs(h: string -> Hex, leaf: string, down: seq<Step>): iset<string> {
    if down == [] then iset{}
    else StepInput(Climb(h, leaf, down[1..]), down[0]) + ClimbInputs(h, leaf, down[1..])
  }

  ghost function StepInput(current: string, step: Step): iset<string> {
    iset{RawNodeInput(StepLeft(current, step), StepRight(current, step))}
  }

  /** Every node input hashed while a proof is checked. */
  ghost function ProofInputs(h: string -> Hex, leaf: string, steps: seq<Step>): iset<string> {
    if steps == [] then iset{}
    else
      var before := steps[..|steps| - 1];
      StepInput(ReconstructRoot(h, leaf, before), steps[|steps| - 1]) + ProofInputs(h, leaf, before)
  }

  lemma {:induction false} ReconstructIsClimb(h: string -> Hex, leaf: string, down: seq<Step>)
    ensures ReconstructRoot(h, leaf, Reversed(down)) == Climb(h, leaf, down)
    ensures ProofInputs(h, leaf, Reversed(down)) == ClimbInputs(h, leaf, down)
  {
    if down != [] {
      var r := Reversed(down);
      assert r[..|r| - 1] == Reversed(down[1..]) && r[|r| - 1] == down[0];
      ReconstructIsClimb(h, leaf, down[1..]);
    }
  }

  /** Above the leaves a stored hash is never empty, so the step holds the true sibling. */
  lemma {:induction false} SiblingHash(h: string -> Hex, t: Trie, m: KeyMap, prefix: Bits, bits: Bits)
    requires bits != [] && Represents(h, t, m, prefix, |bits|)
    requires |bits| > 1 || !EmptySibling(m, prefix + bits)
    ensures FirstStep(h, t, bits) == Step(NodeHash(h, Child(t, !bits[0]), |bits| - 1), bits[0])
  {
  }

  /** The step next to a leaf written as empty carries an empty text, not the empty leaf's hash. */
  lemma {:induction false} EmptySiblingStep(h: string -> Hex, t: Trie, m: KeyMap, prefix: Bits, bits: Bits)
    requires Represents(h, t, m, prefix, 1) && |bits| == 1 && EmptySibling(m, prefix + bits)
    ensures FirstStep(h, t, bits) == Step("", bits[0])
    ensures NodeHash(h, Child(t, !bits[0]), 0) == h("")
  {
  }

  lemma {:induction false} NodeHashStep(h: string -> Hex, t: Trie, m: KeyMap, prefix: Bits, level: nat)
    requires Represents(h, t, m, prefix, level) && level > 0
    ensures NodeHash(h, t, level) == HashNode(h, NodeHash(h, Child(t, false), level - 1), NodeHash(h, Child(t, true), level - 1))
  {
  }

  /** A generated proof reaches the root when the neighbouring leaf was not written as empty. */
  lemma {:induction false} GeneratedProofClimbs(
    h: string -> Hex, t: Trie, m: KeyMap, prefix: Bits, bits: Bits, leaf: string, down: seq<Step>)
    requires Represents(h, t, m, prefix, |bits|) && !EmptySibling(m, prefix + bits)
    requires leaf == NodeHash(h, Descend(t, bits), 0) && down == CollectSteps(h, t, bits)
    ensures Climb(h, leaf, down) == NodeHash(h, t, |bits|)
    decreases |bits|
  {
    if bits != [] {
      var b := bits[0];
      assert down[1..] == CollectSteps(h, Child(t, b), bits[1..]);
      SiblingHash(h, t, m, prefix, bits);
      NodeHashStep(h, t, m, prefix, |bits|);
      ChildRepresents(h, t, m, prefix, |bits|, b);
      assert prefix + [b] + bits[1..] == prefix + bits;
      GeneratedProofClimbs(h, Child(t, b), m, prefix + [b], bits[1..], leaf, down[1..]);
    }
  }

  lemma {:induction false} RawInputsApart(a: string, b: string, c: string, d: string)
    requires a != c || b != d
    requires |a| == |c| || |b| == |d|
    ensures RawNodeInput(a, b) != RawNodeInput(c, d)
  {
    if RawNodeInput(a, b) == RawNodeInput(c, d) {
      RawInputInjective(a, b, c, d);
    }
  }

  /** The top input of the complete tree, through the stored children. */
  lemma {:induction false} TopDenseInput(h: string -> Hex, t: Trie, m: KeyMap, prefix: Bits, level: nat)
    requires Represents(h, t, m, prefix, level) && level > 0
    ensures RawNodeInput(NodeHash(h, Child(t, false), level - 1), NodeHash(h, Child(t, true), level - 1))
         in DenseInputs(h, m, prefix, level)
  {
    ChildRepresents(h, t, m, prefix, level, false);
    ChildRepresents(h, t, m, prefix, level, true);
    RepresentsDense(h, Child(t, false), m, prefix + [false], level - 1);
    RepresentsDense(h, Child(t, true), m, prefix + [true], level - 1);
  }

  /** A step with a wrong hash below it or a wrong sibling reaches another hash, or collides. */
  lemma {:induction false} WrongStep(
    h: string -> Hex, t: Trie, m: KeyMap, prefix: Bits, level: nat, current: string, step: Step)
    requires level > 0 && Represents(h, t, m, prefix, level)
    requires
      || (current != NodeHash(h, Child(t, step.siblingIsLeft), level - 1)
          && step.siblingHash == NodeHash(h, Child(t, !step.siblingIsLeft), level - 1))
      || (current == NodeHash(h, Child(t, step.siblingIsLeft), level - 1)
          && step.siblingHash != NodeHash(h, Child(t, !step.siblingIsLeft), level - 1))
    ensures
      || Apply(h, current, step) != NodeHash(h, t, level)
      || Collides(h, DenseInputs(h, m, prefix, level), StepInput(current, step))
  {
    RawInputsApart(StepLeft(current, step), StepRight(current, step),
      NodeHash(h, Child(t, false), level - 1), NodeHash(h, Child(t, true), level - 1));
    TopDenseInput(h, t, m, prefix, level);
    NodeHashStep(h, t, m, prefix, level);
  }

  /** Beside a leaf written as empty the generated proof fails, unless a node input of the
      complete tree collides with one of the proof. */
  lemma {:induction false} EmptySiblingBreaksProof(
    h: string -> Hex, t: Trie, m: KeyMap, prefix: Bits, bits: Bits, leaf: string, down: seq<Step>)
    requires bits != [] && Represents(h, t, m, prefix, |bits|) && EmptySibling(m, prefix + bits)
    requires leaf == NodeHash(h, Descend(t, bits), 0) && down == CollectSteps(h, t, bits)
    ensures
      || Climb(h, leaf, down) != NodeHash(h, t, |bits|)
      || Collides(h, DenseInputs(h, m, prefix, |bits|), ClimbInputs(h, leaf, down))
    decreases |bits|
  {
    var b, level := bits[0], |bits| - 1;
    var next := prefix + [b];
    var current := Climb(h, leaf, down[1..]);
    assert next == if b then prefix + [true] else prefix + [false];
    assert next + bits[1..] == prefix + bits;
    assert down[1..] == CollectSteps(h, Child(t, b), bits[1..]);
    ChildRepresents(h, t, m, prefix, |bits|, b);
    if level == 0 {
      EmptySiblingStep(h, t, m, prefix, bits);
    } else {
      SiblingHash(h, t, m, prefix, bits);
      EmptySiblingBreaksProof(h, Child(t, b), m, next, bits[1..], leaf, down[1..]);
    }
    if level > 0 && Collides(h, DenseInputs(h, m, next, level), ClimbInputs(h, leaf, down[1..])) {
      CollidesMono(h, DenseInputs(h, m, next, level), ClimbInputs(h, leaf, down[1..]),
        DenseInputs(h, m, prefix, |bits|), ClimbInputs(h, leaf, down));
    } else {
      WrongStep(h, t, m, prefix, |bits|, current, down[0]);
      if Apply(h, current, down[0]) == NodeHash(h, t, |bits|) {
        CollidesMono(h, DenseInputs(h, m, prefix, |bits|), StepInput(current, down[0]),
          DenseInputs(h, m, prefix, |bits|), ClimbInputs(h, leaf, down));
      }
    }
  }

  lemma {:induction false} DescendRepresents(h: string -> Hex, t: Trie, m: KeyMap, prefix: Bits, bits: Bits)
    requires Represents(h, t, m, prefix, |bits|)
    ensures Represents(h, Descend(t, bits), m, prefix + bits, 0)
    ensures NodeHash(h, Descend(t, bits), 0) == LeafValue(h, m, prefix + bits)
    decreases |bits|
  {
    if bits == [] {
      assert prefix + bits == prefix;
    } else {
      ChildRepresents(h, t, m, prefix, |bits|, bits[0]);
      assert prefix + [bits[0]] + bits[1..] == prefix + bits;
      DescendRepresents(h, Child(t, bits[0]), m, prefix + [bits[0]], bits[1..]);
    }
  }

  /** The proof generated for a key carries the key's leaf hash and verifies against the root
      when the neighbouring leaf was not written as empty. */
  lemma {:induction false} GeneratedProofVerifies(h: string -> Hex, t: Trie, m: KeyMap, key: Bits, p: Proof)
    requires Represents(h, t, m, [], |key|) && p == GeneratedProof(h, t, key)
    ensures p.leafHash == LeafValue(h, m, key)
    ensures !EmptySibling(m, key) ==> Verify(h, p, NodeHash(h, t, |key|))
  {
    assert [] + key == key;
    DescendRepresents(h, t, m, [], key);
    if !EmptySibling(m, key) {
      ReconstructIsClimb(h, p.leafHash, CollectSteps(h, t, key));
      GeneratedProofClimbs(h, t, m, [], key, p.leafHash, CollectSteps(h, t, key));
    }
  }

  /** Otherwise it fails, or two node inputs collide. */
  lemma {:induction false} GeneratedProofFails(h: string -> Hex, t: Trie, m: KeyMap, key: Bits, p: Proof)
    requires Represents(h, t, m, [], |key|) && p == GeneratedProof(h, t, key) && EmptySibling(m, key)
    ensures
      || !Verify(h, p, NodeHash(h, t, |key|))
      || Collides(h, DenseInputs(h, m, [], |key|), ProofInputs(h, p.leafHash, p.steps))
  {
    assert [] + key == key;
    ReconstructIsClimb(h, p.leafHash, CollectSteps(h, t, key));
    EmptySiblingBreaksProof(h, t, m, [], key, p.leafHash, CollectSteps(h, t, key));
  }

  /** After any updates, with the root of the complete tree: a generated proof verifies exactly
      when the neighbouring leaf was not written as empty, short of a collision. */
  lemma {:induction false} GeneratedProofVerifiesIff(h: string -> Hex, writes: seq<Write>, key: Bits, p: Proof)
    requires Keyed(writes, |key|) && p == GeneratedProof(h, Build(h, writes), key)
    requires !Collides(h, DenseInputs(h, FinalMap(writes), [], |key|), ProofInputs(h, p.leafHash, p.steps))
    ensures Verify(h, p, Dense(h, FinalMap(writes), [], |key|)) <==> !EmptySibling(FinalMap(writes), key)
  {
    var t, m := Build(h, writes), FinalMap(writes);
    BuildRepresents(h, writes, |key|);
    RepresentsDense(h, t, m, [], |key|);
    if EmptySibling(m, key) {
      GeneratedProofFails(h, t, m, key, p);
    } else {
      GeneratedProofVerifies(h, t, m, key, p);
    }
  }

  // --- What an accepted proof proves ------------------------------------------------------------

  /** The steps follow the key's bits and carry full-length hashes. */
  ghost predicate Along(steps: seq<Step>, bits: Bits) {
    && |steps| == |bits|
    && forall i: nat :: i < |steps| ==>
        |steps[i].siblingHash| == 64 && steps[i].siblingIsLeft == bits[|bits| - 1 - i]
  }

  lemma {:induction false} ReconstructLength(h: string -> Hex, leaf: string, steps: seq<Step>)
    requires |leaf| == 64
    ensures |ReconstructRoot(h, leaf, steps)| == 64
  {
  }

  /** A full-length proof along a key that reaches the root carries the leaf hash the tree holds
      under that key, or a node input of the tree collides with one of the proof. */
  lemma {:induction false} AcceptedLeafIsStored(
    h: string -> Hex, m: KeyMap, prefix: Bits, bits: Bits, leaf: string, steps: seq<Step>)
    requires FixedLength(m) && |leaf| == 64 && Along(steps, bits)
    requires ReconstructRoot(h, leaf, steps) == Dense(h, m, prefix, |bits|)
    ensures
      || leaf == LeafValue(h, m, prefix + bits)
      || Collides(h, DenseInputs(h, m, prefix, |bits|), ProofInputs(h, leaf, steps))
    decreases |bits|
  {
    if bits == [] {
      assert prefix + bits == prefix;
    } else {
      var b, level := bits[0], |bits| - 1;
      var next := prefix + [b];
      assert next == if b then prefix + [true] else prefix + [false];
      assert next + bits[1..] == prefix + bits;
      var before, step := steps[..level], steps[level];
      var current := ReconstructRoot(h, leaf, before);
      ReconstructLength(h, leaf, before);
      if RawNodeInput(StepLeft(current, step), StepRight(current, step))
         == RawNodeInput(Dense(h, m, prefix + [false], level), Dense(h, m, prefix + [true], level)) {
        StepMatches(h, m, prefix, level, b, current, step);
        AcceptedLeafIsStored(h, m, next, bits[1..], leaf, before);
        if leaf != LeafValue(h, m, prefix + bits) {
          CollidesMono(h, DenseInputs(h, m, next, level), ProofInputs(h, leaf, before),
            DenseInputs(h, m, prefix, |bits|), ProofInputs(h, leaf, steps));
        }
      }
    }
  }

  lemma {:induction false} StepMatches(
    h: string -> Hex, m: KeyMap, prefix: Bits, level: nat, b: bool, current: string, step: Step)
    requires FixedLength(m) && |current| == 64 && |step.siblingHash| == 64 && step.siblingIsLeft == b
    requires RawNodeInput(StepLeft(current, step), StepRight(current, step))
      == RawNodeInput(Dense(h, m, prefix + [false], level), Dense(h, m, prefix + [true], level))
    ensures current == Dense(h, m, prefix + [b], level)
  {
    var l, r := Dense(h, m, prefix + [false], level), Dense(h, m, prefix + [true], level);
    DenseLength(h, m, prefix + [false], level);
    RawInputInjective(StepLeft(current, step), StepRight(current, step), l, r);
  }
}
