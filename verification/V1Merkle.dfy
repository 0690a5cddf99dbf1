/** The version 1 Merkle tree: ordered, with the count committed in the root, split at the
    largest power of two below the number of leaves as in section 2.1 of RFC 6962. */
module V1Merkle {
  import opened Wrappers
  import opened V1Encoding
  import opened MerkleBinding
  import opened SplitTree

  type Hash32 = b: Bytes | |b| == 32 witness seq(32, _ => 0)

  const MAX_LEAVES: nat := 1_048_576
  const MAX_PROOF_SIBLINGS: nat := 64

  // "MERKLE-LEAF/", "MERKLE-NODE/", "MERKLE-ROOT/" and "MERKLE-EMPTY/" in ASCII.
  const MERKLE: Bytes := [0x4D, 0x45, 0x52, 0x4B, 0x4C, 0x45, 0x2D]
  const LEAF_LABEL: Bytes := MERKLE + [0x4C, 0x45, 0x41, 0x46, 0x2F]
  const NODE_LABEL: Bytes := MERKLE + [0x4E, 0x4F, 0x44, 0x45, 0x2F]
  const ROOT_LABEL: Bytes := MERKLE + [0x52, 0x4F, 0x4F, 0x54, 0x2F]
  const EMPTY_LABEL: Bytes := MERKLE + [0x45, 0x4D, 0x50, 0x54, 0x59, 0x2F]

  /** A tree kind is a text without zero bytes. */
  type Kind = k: Bytes | 0 !in k

  /** Indexes beyond 32 bits have no encoding; every use stays below that. */
  function LeafInput(kind: Kind, index: nat, element: Bytes): Bytes {
    HashInput(LEAF_LABEL + kind, (if index <= MAX_U32 then U32(index) else []) + element)
  }

  function NodeInput(kind: Kind, left: Hash32, right: Hash32): Bytes {
    HashInput(NODE_LABEL + kind, left + right)
  }

  function RootInput(kind: Kind, count: nat, tree: Hash32): Bytes
    requires count <= MAX_U32
  {
    HashInput(ROOT_LABEL + kind, U32(count) + tree)
  }

  function EmptyInput(kind: Kind): Bytes {
    HashInput(EMPTY_LABEL + kind, [])
  }

  function V1Scheme(hash: Bytes -> Hash32, kind: Kind): Scheme<Bytes, Bytes, Hash32> {
    Scheme((i, e) => LeafInput(kind, i, e), (l, r) => NodeInput(kind, l, r), hash)
  }

  // --- The root ------------------------------------------------------------------------------

  function Counted(hash: Bytes -> Hash32, kind: Kind, count: nat, tree: Hash32): Hash32
    requires count <= MAX_U32
  {
    hash(RootInput(kind, count, tree))
  }

  function RootFromLeafHashes(hash: Bytes -> Hash32, kind: Kind, leaves: seq<Hash32>): Option<Hash32> {
    if |leaves| > MAX_LEAVES then None
    else if leaves == [] then Some(hash(EmptyInput(kind)))
    else Some(Counted(hash, kind, |leaves|, Subtree(V1Scheme(hash, kind), leaves, 0, |leaves|)))
  }

  function Root(hash: Bytes -> Hash32, kind: Kind, elements: seq<Bytes>): Option<Hash32> {
    RootFromLeafHashes(hash, kind, LeafHashes(V1Scheme(hash, kind), elements))
  }

  /** The root of two elements, spelled out: each leaf hashes its position with the element, the left
      node comes first, and the count is hashed in last. */
  lemma RootOfTwo(hash: Bytes -> Hash32, kind: Kind, p: Bytes, q: Bytes, x: Hash32, y: Hash32, tree: Hash32)
    requires x == hash(HASH_PREFIX + (LEAF_LABEL + kind + [0] + (U32(0) + p)))
    requires y == hash(HASH_PREFIX + (LEAF_LABEL + kind + [0] + (U32(1) + q)))
    requires tree == hash(HASH_PREFIX + (NODE_LABEL + kind + [0] + (x + y)))
    ensures Root(hash, kind, [p, q]) == Some(hash(HASH_PREFIX + (ROOT_LABEL + kind + [0] + (U32(2) + tree))))
  {
    var s := V1Scheme(hash, kind);
    var leaves := LeafHashes(s, [p, q]);
    assert leaves == [x, y];
    var n := SplitIsLargestPower(2);
    assert Split(2) == 1;
    assert Subtree(s, leaves, 0, 1) == x && Subtree(s, leaves, 1, 2) == y;
    assert Subtree(s, leaves, 0, 2) == tree;
  }

  // --- Binding -------------------------------------------------------------------------------

  /** Domains of different labels or kinds give different inputs. */
  lemma {:induction false} DomainsApart(tag: Bytes, kind: Kind, data: Bytes, tag': Bytes, kind': Kind, data': Bytes)
    requires tag in {LEAF_LABEL, NODE_LABEL, ROOT_LABEL, EMPTY_LABEL}
    requires tag' in {LEAF_LABEL, NODE_LABEL, ROOT_LABEL, EMPTY_LABEL}
    requires HashInput(tag + kind, data) == HashInput(tag' + kind', data')
    ensures tag == tag' && kind == kind' && data == data'
  {
    var d, e := tag + kind, tag' + kind';
    assert 0 !in d && 0 !in e;
    HashInputInjective(d, data, e, data');
    assert d[7] == tag[7] && e[7] == tag'[7];
    assert kind == d[|tag|..] && kind' == e[|tag'|..];
  }

  lemma {:induction false} U32Prefix(m: nat, x: Bytes, n: nat, y: Bytes)
    requires m <= MAX_U32 && n <= MAX_U32 && U32(m) + x == U32(n) + y
    ensures m == n && x == y
  {
    var a, b := U32(m) + x, U32(n) + y;
    assert a[..4] == U32(m) && b[..4] == U32(n) && a[4..] == x && b[4..] == y;
    U32Injective(m, n);
  }

  lemma {:induction false} NodeInputInjective(kind: Kind, a: Hash32, b: Hash32, c: Hash32, d: Hash32)
    requires NodeInput(kind, a, b) == NodeInput(kind, c, d)
    ensures a == c && b == d
  {
    DomainsApart(NODE_LABEL, kind, a + b, NODE_LABEL, kind, c + d);
    assert (a + b)[..32] == a && (c + d)[..32] == c && (a + b)[32..] == b && (c + d)[32..] == d;
  }

  lemma {:induction false} V1SchemeSeparated(hash: Bytes -> Hash32, kind: Kind)
    ensures Separated(V1Scheme(hash, kind), MAX_LEAVES)
  {
    var s := V1Scheme(hash, kind);
    forall i: nat, p, j: nat, q | i < MAX_LEAVES && j < MAX_LEAVES && s.leaf(i, p) == s.leaf(j, q)
      ensures i == j && p == q
    {
      DomainsApart(LEAF_LABEL, kind, U32(i) + p, LEAF_LABEL, kind, U32(j) + q);
      U32Prefix(i, p, j, q);
    }
    forall a, b, c, d | s.node(a, b) == s.node(c, d) ensures a == c && b == d {
      NodeInputInjective(kind, a, b, c, d);
    }
    forall i: nat, p, a, b | i < MAX_LEAVES ensures s.leaf(i, p) != s.node(a, b) {
      LeafIsNoNode(kind, i, p, a, b);
    }
  }

  lemma {:induction false} LeafIsNoNode(kind: Kind, i: nat, p: Bytes, a: Hash32, b: Hash32)
    ensures LeafInput(kind, i, p) != NodeInput(kind, a, b)
  {
    assert LeafInput(kind, i, p)[15] == LEAF_LABEL[7] && NodeInput(kind, a, b)[15] == NODE_LABEL[7];
  }

  /** Every input hashed while the root is built. */
  ghost function RootInputs(hash: Bytes -> Hash32, kind: Kind, elements: seq<Bytes>): iset<Bytes> {
    if elements == [] || |elements| > MAX_LEAVES then iset{EmptyInput(kind)}
    else
      var t := TreeOf(elements, 0, |elements|);
      iset{RootInput(kind, |elements|, Digest(V1Scheme(hash, kind), t))} + Inputs(V1Scheme(hash, kind), t)
  }

  /** Equal roots, even of different kinds, have one kind and one list (length, order and
      contents), or two different byte strings that were hashed collide. */
  lemma {:induction false} V1RootBinding(hash: Bytes -> Hash32, k: Kind, xs: seq<Bytes>, l: Kind, ys: seq<Bytes>)
    requires Root(hash, k, xs).Some? && Root(hash, k, xs) == Root(hash, l, ys)
    ensures (k == l && xs == ys) || Collides(hash, RootInputs(hash, k, xs), RootInputs(hash, l, ys))
  {
    var x, a := TopInput(hash, k, xs);
    var y, b := TopInput(hash, l, ys);
    if x == y {
      DomainsApart(if xs == [] then EMPTY_LABEL else ROOT_LABEL, k, a, if ys == [] then EMPTY_LABEL else ROOT_LABEL, l, b);
      if xs != [] {
        SubtreeIsDigest(V1Scheme(hash, k), xs, 0, |xs|);
        SubtreeIsDigest(V1Scheme(hash, k), ys, 0, |ys|);
        var t, u := TreeOf(xs, 0, |xs|), TreeOf(ys, 0, |ys|);
        var s := V1Scheme(hash, k);
        U32Prefix(|xs|, Digest(s, t), |ys|, Digest(s, u));
        TreeHoldsElements(xs);
        TreeHoldsElements(ys);
        V1SchemeSeparated(hash, k);
        RootBinding(s, MAX_LEAVES, t, xs, u, ys);
        if xs != ys {
          CollidesMono(hash, Inputs(s, t), Inputs(s, u), RootInputs(hash, k, xs), RootInputs(hash, k, ys));
        }
      }
    }
  }

  /** The last input hashed for a root, and the data in it. */
  lemma {:induction false} TopInput(hash: Bytes -> Hash32, kind: Kind, xs: seq<Bytes>) returns (input: Bytes, data: Bytes)
    requires Root(hash, kind, xs).Some?
    ensures input in RootInputs(hash, kind, xs) && Root(hash, kind, xs) == Some(hash(input))
    ensures xs == [] ==> data == [] && input == HashInput(EMPTY_LABEL + kind, data)
    ensures xs != [] ==>
      && data == U32(|xs|) + Digest(V1Scheme(hash, kind), TreeOf(xs, 0, |xs|))
      && input == HashInput(ROOT_LABEL + kind, data)
  {
    if xs == [] {
      return EmptyInput(kind), [];
    }
    SubtreeIsDigest(V1Scheme(hash, kind), xs, 0, |xs|);
    data := U32(|xs|) + Digest(V1Scheme(hash, kind), TreeOf(xs, 0, |xs|));
    input := HashInput(ROOT_LABEL + kind, data);
  }
}
