/** The ordered Merkle root over block records: pairs of nodes are hashed layer by layer, an
    odd last node is paired with itself, and no count is stored. It still binds the list. */
module OrderedRoot {
  import opened Text
  import opened MerkleBinding

  /** Hash output: 64 hexadecimal characters. */
  type Hex = s: string | |s| == 64 witness seq(64, _ => '0')

  const LEAF_PREFIX := "NODO_MERKLE_LEAF:"
  const NODE_PREFIX := "NODO_MERKLE_NODE:"
  const EMPTY_PAYLOAD := "NODO_MERKLE_EMPTY"
  const RECORD_TAG := "NODO_BLOCK_RECORD_0.6:"

  function LeafInput(index: nat, payload: string): string {
    LEAF_PREFIX + (RECORD_TAG + (Decimal(index) + ":" + (Decimal(|payload|) + ":" + payload)))
  }

  function NodeInput(left: Hex, right: Hex): string {
    NODE_PREFIX + (left + right)
  }

  function OrderedScheme(hash: string -> Hex): Scheme<string, string, Hex> {
    Scheme(LeafInput, NodeInput, hash)
  }

  /** Every layer halves, rounding up. */
  function NextLayer(hash: string -> Hex, layer: seq<Hex>): seq<Hex> {
    seq((|layer| + 1) / 2, k requires 0 <= k < (|layer| + 1) / 2 =>
      hash(NodeInput(layer[2 * k], if 2 * k + 1 < |layer| then layer[2 * k + 1] else layer[2 * k])))
  }

  function HashLayer(hash: string -> Hex, layer: seq<Hex>): Hex
    decreases |layer|
  {
    if layer == [] then hash(EMPTY_PAYLOAD)
    else if |layer| == 1 then layer[0]
    else HashLayer(hash, NextLayer(hash, layer))
  }

  function HashOrderedLeaf(hash: string -> Hex, index: nat, payload: string): Hex {
    hash(LeafInput(index, payload))
  }

  function LeafHashes(hash: string -> Hex, payloads: seq<string>): seq<Hex> {
    seq(|payloads|, i requires 0 <= i < |payloads| => HashOrderedLeaf(hash, i, payloads[i]))
  }

  function Root(hash: string -> Hex, payloads: seq<string>): Hex {
    HashLayer(hash, LeafHashes(hash, payloads))
  }

  // --- The loops ------------------------------------------------------------------------

  method ComputeLayer(hash: string -> Hex, layer: seq<Hex>) returns (root: Hex)
    ensures root == HashLayer(hash, layer)
    decreases |layer|
  {
    if layer == [] {
      return hash(EMPTY_PAYLOAD);
    }
    if |layer| == 1 {
      return layer[0];
    }
    var next: seq<Hex> := [];
    var i := 0;
    while i < |layer|
      invariant 0 <= i <= |layer| + 1 && i == 2 * |next| && |next| <= (|layer| + 1) / 2
      invariant forall k :: 0 <= k < |next| ==> next[k] == NextLayer(hash, layer)[k]
    {
      var left := layer[i];
      var right := if i + 1 < |layer| then layer[i + 1] else layer[i];
      next := next + [hash(NodeInput(left, right))];
      i := i + 2;
    }
    assert next == NextLayer(hash, layer);
    root := ComputeLayer(hash, next);
  }

  method BuildOrderedRoot(hash: string -> Hex, payloads: seq<string>) returns (root: Hex)
    ensures root == Root(hash, payloads)
  {
    var leaves: seq<Hex> := [];
    for i := 0 to |payloads|
      invariant |leaves| == i && forall k :: 0 <= k < i ==> leaves[k] == hash(LeafInput(k, payloads[k]))
    {
      leaves := leaves + [hash(LeafInput(i, payloads[i]))];
    }
    assert leaves == LeafHashes(hash, payloads);
    root := ComputeLayer(hash, leaves);
  }

  /** The root of three records, spelled out: leaves carry their position and length, the left node
      comes first, and the odd one is paired with itself. */
  lemma {:induction false} RootOfThree(hash: string -> Hex, p: string, q: string, r: string, x: Hex, y: Hex, z: Hex)
    requires x == hash("NODO_MERKLE_LEAF:" + ("NODO_BLOCK_RECORD_0.6:" + (Decimal(0) + ":" + (Decimal(|p|) + ":" + p))))
    requires y == hash("NODO_MERKLE_LEAF:" + ("NODO_BLOCK_RECORD_0.6:" + (Decimal(1) + ":" + (Decimal(|q|) + ":" + q))))
    requires z == hash("NODO_MERKLE_LEAF:" + ("NODO_BLOCK_RECORD_0.6:" + (Decimal(2) + ":" + (Decimal(|r|) + ":" + r))))
    ensures Root(hash, [p, q, r]) ==
      hash("NODO_MERKLE_NODE:" + (hash("NODO_MERKLE_NODE:" + (x + y)) + hash("NODO_MERKLE_NODE:" + (z + z))))
  {
    ThreeLeaves(hash, [p, q, r], x, y, z);
    LayerOfThree(hash, x, y, z);
  }

  lemma {:induction false} ThreeLeaves(hash: string -> Hex, ps: seq<string>, x: Hex, y: Hex, z: Hex)
    requires |ps| == 3
    requires x == hash(LeafInput(0, ps[0])) && y == hash(LeafInput(1, ps[1])) && z == hash(LeafInput(2, ps[2]))
    ensures LeafHashes(hash, ps) == [x, y, z]
  {
  }

  lemma {:induction false} LayerOfThree(hash: string -> Hex, x: Hex, y: Hex, z: Hex)
    ensures HashLayer(hash, [x, y, z]) ==
      hash("NODO_MERKLE_NODE:" + (hash("NODO_MERKLE_NODE:" + (x + y)) + hash("NODO_MERKLE_NODE:" + (z + z))))
  {
    var a, b := hash(NodeInput(x, y)), hash(NodeInput(z, z));
    LayerStep(hash, [x, y, z], [a, b]);
    LayerStep(hash, [a, b], [hash(NodeInput(a, b))]);
  }

  lemma {:induction false} LayerStep(hash: string -> Hex, layer: seq<Hex>, next: seq<Hex>)
    requires |layer| > 1 && |next| == (|layer| + 1) / 2
    requires forall k: nat :: k < |next| ==>
      next[k] == hash(NodeInput(layer[2 * k], if 2 * k + 1 < |layer| then layer[2 * k + 1] else layer[2 * k]))
    ensures HashLayer(hash, layer) == HashLayer(hash, next)
  {
    assert NextLayer(hash, layer) == next;
  }

  // --- The tree behind the layers ---------------------------------------------------------

  function PairUp(ts: seq<Tree<string>>): seq<Tree<string>> {
    seq((|ts| + 1) / 2, k requires 0 <= k < (|ts| + 1) / 2 =>
      Node(ts[2 * k], if 2 * k + 1 < |ts| then ts[2 * k + 1] else ts[2 * k]))
  }

  function Top(ts: seq<Tree<string>>): Tree<string>
    requires ts != []
    decreases |ts|
  {
    if |ts| == 1 then ts[0] else Top(PairUp(ts))
  }

  function LeafTrees(payloads: seq<string>): seq<Tree<string>> {
    seq(|payloads|, i requires 0 <= i < |payloads| => Leaf(i, payloads[i]))
  }

  function Digests(s: Scheme<string, string, Hex>, ts: seq<Tree<string>>): seq<Hex> {
    seq(|ts|, i requires 0 <= i < |ts| => Digest(s, ts[i]))
  }

  lemma {:induction false} LayersHashTheTree(hash: string -> Hex, ts: seq<Tree<string>>)
    requires ts != []
    ensures HashLayer(hash, Digests(OrderedScheme(hash), ts)) == Digest(OrderedScheme(hash), Top(ts))
    decreases |ts|
  {
    if |ts| > 1 {
      var s := OrderedScheme(hash);
      forall k | 0 <= k < |PairUp(ts)|
        ensures NextLayer(hash, Digests(s, ts))[k] == Digests(s, PairUp(ts))[k]
      {
        var l, r := ts[2 * k], if 2 * k + 1 < |ts| then ts[2 * k + 1] else ts[2 * k];
        assert Digest(s, Node(l, r)) == hash(NodeInput(Digest(s, l), Digest(s, r)));
      }
      assert NextLayer(hash, Digests(s, ts)) == Digests(s, PairUp(ts));
      LayersHashTheTree(hash, PairUp(ts));
    }
  }

  ghost predicate InSome(x: (nat, string), ts: seq<Tree<string>>) {
    exists k :: 0 <= k < |ts| && x in Leaves(ts[k])
  }

  /** Pairing an odd node with itself duplicates subtrees but adds no leaf. */
  lemma PairUpLeaves(ts: seq<Tree<string>>, x: (nat, string))
    ensures InSome(x, PairUp(ts)) <==> InSome(x, ts)
  {
    var us := PairUp(ts);
    if InSome(x, ts) {
      var k :| 0 <= k < |ts| && x in Leaves(ts[k]);
      assert x in Leaves(us[k / 2]);
    }
    if InSome(x, us) {
      var k :| 0 <= k < |us| && x in Leaves(us[k]);
      assert x in Leaves(ts[2 * k]) || (2 * k + 1 < |ts| && x in Leaves(ts[2 * k + 1]));
    }
  }

  lemma {:induction false} TopLeaves(ts: seq<Tree<string>>, x: (nat, string))
    requires ts != []
    ensures x in Leaves(Top(ts)) <==> InSome(x, ts)
    decreases |ts|
  {
    if |ts| > 1 {
      PairUpLeaves(ts, x);
      TopLeaves(PairUp(ts), x);
    }
  }

  lemma TreeHoldsPayloads(payloads: seq<string>)
    requires payloads != []
    ensures Holds(Top(LeafTrees(payloads)), payloads)
  {
    var ts := LeafTrees(payloads);
    forall i: nat, p ensures (i, p) in Leaves(Top(ts)) <==> i < |payloads| && payloads[i] == p {
      TopLeaves(ts, (i, p));
      if i < |payloads| && payloads[i] == p {
        assert (i, p) in Leaves(ts[i]);
      }
    }
  }

  // --- Binding ------------------------------------------------------------------------------

  lemma LeafInputInjective(i: nat, p: string, j: nat, q: string)
    requires LeafInput(i, p) == LeafInput(j, q)
    ensures i == j && p == q
  {
    var n := |LEAF_PREFIX + RECORD_TAG|;
    var a, b := Decimal(|p|) + ":" + p, Decimal(|q|) + ":" + q;
    assert LeafInput(i, p)[n..] == Decimal(i) + ":" + a && LeafInput(j, q)[n..] == Decimal(j) + ":" + b;
    DecimalRoundTrip(i);
    DecimalRoundTrip(j);
    DecimalRoundTrip(|p|);
    DecimalRoundTrip(|q|);
    SplitFirst(Decimal(i), a, Decimal(j), b, ':');
    SplitFirst(Decimal(|p|), p, Decimal(|q|), q, ':');
    DecimalInjective(i, j);
  }

  lemma NodeInputInjective(a: Hex, b: Hex, c: Hex, d: Hex)
    requires NodeInput(a, b) == NodeInput(c, d)
    ensures a == c && b == d
  {
    var n := |NODE_PREFIX|;
    assert NodeInput(a, b)[n..n + 64] == a && NodeInput(c, d)[n..n + 64] == c;
    assert NodeInput(a, b)[n + 64..] == b && NodeInput(c, d)[n + 64..] == d;
  }

  lemma OrderedSchemeSeparated(hash: string -> Hex, bound: nat)
    ensures Separated(OrderedScheme(hash), bound)
  {
    var s := OrderedScheme(hash);
    forall i: nat, p, j: nat, q | s.leaf(i, p) == s.leaf(j, q) ensures i == j && p == q {
      LeafInputInjective(i, p, j, q);
    }
    forall a, b, c, d | s.node(a, b) == s.node(c, d) ensures a == c && b == d {
      NodeInputInjective(a, b, c, d);
    }
    forall i: nat, p, a, b ensures s.leaf(i, p) != s.node(a, b) {
      assert s.leaf(i, p)[12] == 'L' && s.node(a, b)[12] == 'N';
    }
  }

  /** Every input hashed while the root of a list is built. */
  ghost function RootInputs(hash: string -> Hex, payloads: seq<string>): iset<string> {
    if payloads == [] then iset{EMPTY_PAYLOAD}
    else Inputs(OrderedScheme(hash), Top(LeafTrees(payloads)))
  }

  lemma RootOfTree(hash: string -> Hex, payloads: seq<string>)
    requires payloads != []
    ensures Root(hash, payloads) == Digest(OrderedScheme(hash), Top(LeafTrees(payloads)))
  {
    LayersHashTheTree(hash, LeafTrees(payloads));
    var s := OrderedScheme(hash);
    forall i | 0 <= i < |payloads| ensures LeafHashes(hash, payloads)[i] == Digests(s, LeafTrees(payloads))[i] {
      assert Digest(s, Leaf(i, payloads[i])) == hash(LeafInput(i, payloads[i]));
    }
    assert LeafHashes(hash, payloads) == Digests(s, LeafTrees(payloads));
  }

  /** Two record lists of any lengths with one ordered root are the same list, or two
      different texts hashed while building the two roots collide. */
  lemma OrderedRootBinding(hash: string -> Hex, xs: seq<string>, ys: seq<string>)
    requires Root(hash, xs) == Root(hash, ys)
    ensures xs == ys || Collides(hash, RootInputs(hash, xs), RootInputs(hash, ys))
  {
    var s := OrderedScheme(hash);
    if xs != [] && ys != [] {
      RootOfTree(hash, xs);
      RootOfTree(hash, ys);
      TreeHoldsPayloads(xs);
      TreeHoldsPayloads(ys);
      OrderedSchemeSeparated(hash, |xs| + |ys|);
      RootBinding(s, |xs| + |ys|, Top(LeafTrees(xs)), xs, Top(LeafTrees(ys)), ys);
    } else if xs != [] {
      RootOfTree(hash, xs);
      EmptyDiffers(hash, Top(LeafTrees(xs)));
    } else if ys != [] {
      RootOfTree(hash, ys);
      EmptyDiffers(hash, Top(LeafTrees(ys)));
    }
  }

  /** The empty list's input is neither a leaf nor a node. */
  lemma EmptyDiffers(hash: string -> Hex, t: Tree<string>)
    ensures Input(OrderedScheme(hash), t) != EMPTY_PAYLOAD
    ensures Input(OrderedScheme(hash), t) in Inputs(OrderedScheme(hash), t)
  {
  }
}
