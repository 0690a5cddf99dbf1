/** The sparse Merkle trie of depth 256: only touched paths are stored, yet the root is the hash
    of the complete tree over all 256-bit keys. */
module SparseTrie {
  import opened MerkleBinding
  import opened OrderedRoot

  type Bits = seq<bool>
  /** Leaf hashes by key. A leaf hash may be any text; the empty text counts as absent. */
  type KeyMap = map<Bits, string>

  datatype Trie = Null | Branch(hash: string, left: Trie, right: Trie)

  function RawNodeInput(left: string, right: string): string {
    NODE_PREFIX + (left + right)
  }

  function HashNode(h: string -> Hex, left: string, right: string): Hex {
    h(RawNodeInput(left, right))
  }

  /** The hash of a subtree of the given height without any key. */
  function Default(h: string -> Hex, level: nat): Hex {
    if level == 0 then h("") else HashNode(h, Default(h, level - 1), Default(h, level - 1))
  }

  function NodeHash(h: string -> Hex, t: Trie, level: nat): string {
    if t.Null? || t.hash == "" then Default(h, level) else t.hash
  }

  function Child(t: Trie, right: bool): Trie {
    if t.Null? then Null else if right then t.right else t.left
  }

  /** Stores a leaf hash under the remaining bits of its key and rehashes the path to it. */
  function Updated(h: string -> Hex, t: Trie, bits: Bits, value: string): Trie {
    if bits == [] then Branch(value, Child(t, false), Child(t, true))
    else
      var left := if bits[0] then Child(t, false) else Updated(h, Child(t, false), bits[1..], value);
      var right := if bits[0] then Updated(h, Child(t, true), bits[1..], value) else Child(t, true);
      Branch(HashNode(h, NodeHash(h, left, |bits| - 1), NodeHash(h, right, |bits| - 1)), left, right)
  }

  // --- The complete tree ----------------------------------------------------------------------

  function LeafValue(h: string -> Hex, m: KeyMap, key: Bits): string {
    if key in m && m[key] != "" then m[key] else h("")
  }

  /** The hash of the complete tree of the given height over all keys with this prefix. */
  ghost function Dense(h: string -> Hex, m: KeyMap, prefix: Bits, level: nat): string
    decreases level
  {
    if level == 0 then LeafValue(h, m, prefix)
    else HashNode(h, Dense(h, m, prefix + [false], level - 1), Dense(h, m, prefix + [true], level - 1))
  }

  ghost predicate NoKeyUnder(m: KeyMap, prefix: Bits) {
    forall k :: k in m ==> !(prefix <= k)
  }

  /** A stored subtree stands for the keys with its prefix: a missing node for none, a leaf for
      its own key, and an inner node's hash is that of its two children. */
  ghost predicate Represents(h: string -> Hex, t: Trie, m: KeyMap, prefix: Bits, level: nat)
    decreases level
  {
    match t
    case Null => NoKeyUnder(m, prefix)
    case Branch(hash, left, right) =>
      if level == 0 then prefix in m && m[prefix] == hash
      else
        && hash == HashNode(h, NodeHash(h, left, level - 1), NodeHash(h, right, level - 1))
        && Represents(h, left, m, prefix + [false], level - 1)
        && Represents(h, right, m, prefix + [true], level - 1)
  }

  lemma {:induction false} DenseDefault(h: string -> Hex, m: KeyMap, prefix: Bits, level: nat)
    requires NoKeyUnder(m, prefix)
    ensures Dense(h, m, prefix, level) == Default(h, level)
    decreases level
  {
    if level > 0 {
      forall b: bool, k | k in m ensures !(prefix + [b] <= k) {
        assert prefix + [b] <= k ==> prefix <= k;
      }
      DenseDefault(h, m, prefix + [false], level - 1);
      DenseDefault(h, m, prefix + [true], level - 1);
    }
  }

  lemma {:induction false} RepresentsDense(h: string -> Hex, t: Trie, m: KeyMap, prefix: Bits, level: nat)
    requires Represents(h, t, m, prefix, level)
    ensures NodeHash(h, t, level) == Dense(h, m, prefix, level)
    decreases level
  {
    if t.Null? {
      DenseDefault(h, m, prefix, level);
    } else if level > 0 {
      RepresentsDense(h, t.left, m, prefix + [false], level - 1);
      RepresentsDense(h, t.right, m, prefix + [true], level - 1);
    }
  }

  // --- Updates keep the representation --------------------------------------------------------

  /** Storing a key outside a subtree leaves that subtree valid. */
  lemma {:induction false} RepresentsElsewhere(
    h: string -> Hex, t: Trie, m: KeyMap, prefix: Bits, level: nat, key: Bits, value: string)
    requires Represents(h, t, m, prefix, level) && !(prefix <= key)
    ensures Represents(h, t, m[key := value], prefix, level)
    decreases level
  {
    if t.Branch? && level > 0 {
      RepresentsElsewhere(h, t.left, m, prefix + [false], level - 1, key, value);
      RepresentsElsewhere(h, t.right, m, prefix + [true], level - 1, key, value);
    }
  }

  lemma {:induction false} ChildRepresents(h: string -> Hex, t: Trie, m: KeyMap, prefix: Bits, level: nat, b: bool)
    requires Represents(h, t, m, prefix, level) && level > 0
    ensures Represents(h, Child(t, b), m, prefix + [b], level - 1)
  {
  }

  lemma {:induction false} UpdateRepresents(
    h: string -> Hex, t: Trie, m: KeyMap, prefix: Bits, bits: Bits, value: string)
    requires Represents(h, t, m, prefix, |bits|)
    ensures Represents(h, Updated(h, t, bits, value), m[prefix + bits := value], prefix, |bits|)
    decreases |bits|
  {
    var key := prefix + bits;
    if bits == [] {
      assert key == prefix;
    } else {
      var b := bits[0];
      var level := |bits| - 1;
      ChildRepresents(h, t, m, prefix, |bits|, b);
      ChildRepresents(h, t, m, prefix, |bits|, !b);
      assert key == prefix + [b] + bits[1..];
      UpdateRepresents(h, Child(t, b), m, prefix + [b], bits[1..], value);
      assert key[|prefix|] == b && (prefix + [!b])[|prefix|] == !b;
      RepresentsElsewhere(h, Child(t, !b), m, prefix + [!b], level, key, value);
    }
  }

  // --- Whole runs -------------------------------------------------------------------------------

  datatype Write = Write(key: Bits, value: string)

  ghost predicate Keyed(writes: seq<Write>, depth: nat) {
    forall i: nat :: i < |writes| ==> |writes[i].key| == depth
  }

  function Build(h: string -> Hex, writes: seq<Write>): Trie {
    if writes == [] then Null
    else var last := writes[|writes| - 1];
      Updated(h, Build(h, writes[..|writes| - 1]), last.key, last.value)
  }

  function FinalMap(writes: seq<Write>): KeyMap {
    if writes == [] then map[]
    else var last := writes[|writes| - 1];
      FinalMap(writes[..|writes| - 1])[last.key := last.value]
  }

  lemma {:induction false} BuildRepresents(h: string -> Hex, writes: seq<Write>, depth: nat)
    requires Keyed(writes, depth)
    ensures Represents(h, Build(h, writes), FinalMap(writes), [], depth)
  {
    if writes != [] {
      var last, before := writes[|writes| - 1], writes[..|writes| - 1];
      BuildRepresents(h, before, depth);
      UpdateRepresents(h, Build(h, before), FinalMap(before), [], last.key, last.value);
      assert [] + last.key == last.key;
    }
  }

  /** After any sequence of updates the root is the hash of the complete tree. The depth is 256
      in the node; nothing depends on it. */
  lemma {:induction false} SparseEqualsDense(h: string -> Hex, writes: seq<Write>, depth: nat)
    requires Keyed(writes, depth)
    ensures NodeHash(h, Build(h, writes), depth) == Dense(h, FinalMap(writes), [], depth)
  {
    BuildRepresents(h, writes, depth);
    RepresentsDense(h, Build(h, writes), FinalMap(writes), [], depth);
  }

  /** Both maps put the same leaf under every key of the subtree. */
  ghost predicate SameLeaves(h: string -> Hex, m: KeyMap, n: KeyMap, prefix: Bits, level: nat) {
    forall k: Bits :: prefix <= k && |k| == |prefix| + level ==> LeafValue(h, m, k) == LeafValue(h, n, k)
  }

  lemma {:induction false} SameLeavesBelow(h: string -> Hex, m: KeyMap, n: KeyMap, prefix: Bits, level: nat, b: bool)
    requires SameLeaves(h, m, n, prefix, level) && level > 0
    ensures SameLeaves(h, m, n, prefix + [b], level - 1)
  {
  }

  lemma {:induction false} DenseByLeaves(h: string -> Hex, m: KeyMap, n: KeyMap, prefix: Bits, level: nat)
    requires SameLeaves(h, m, n, prefix, level)
    ensures Dense(h, m, prefix, level) == Dense(h, n, prefix, level)
    decreases level
  {
    if level > 0 {
      SameLeavesBelow(h, m, n, prefix, level, false);
      SameLeavesBelow(h, m, n, prefix, level, true);
      DenseByLeaves(h, m, n, prefix + [false], level - 1);
      DenseByLeaves(h, m, n, prefix + [true], level - 1);
    }
  }

  /** Order, repetition and empty leaf hashes leave no trace: only what each key finally holds
      decides the root. */
  lemma {:induction false} UpdateOrderIrrelevant(h: string -> Hex, xs: seq<Write>, ys: seq<Write>, depth: nat)
    requires Keyed(xs, depth) && Keyed(ys, depth)
    requires forall k: Bits :: |k| == depth ==> LeafValue(h, FinalMap(xs), k) == LeafValue(h, FinalMap(ys), k)
    ensures NodeHash(h, Build(h, xs), depth) == NodeHash(h, Build(h, ys), depth)
  {
    SparseEqualsDense(h, xs, depth);
    SparseEqualsDense(h, ys, depth);
    DenseByLeaves(h, FinalMap(xs), FinalMap(ys), [], depth);
  }

  // --- The root binds every key ---------------------------------------------------------------

  ghost predicate FixedLength(m: KeyMap) {
    forall k :: k in m ==> |m[k]| == 64 || m[k] == ""
  }

  lemma {:induction false} DenseLength(h: string -> Hex, m: KeyMap, prefix: Bits, level: nat)
    requires FixedLength(m)
    ensures |Dense(h, m, prefix, level)| == 64
  {
  }

  lemma {:induction false} RawInputInjective(a: string, b: string, c: string, d: string)
    requires RawNodeInput(a, b) == RawNodeInput(c, d) && (|a| == |c| || |b| == |d|)
    ensures a == c && b == d
  {
    var n := |NODE_PREFIX|;
    var x, y := RawNodeInput(a, b), RawNodeInput(c, d);
    assert x[n..] == a + b && y[n..] == c + d;
    assert |a + b| == |c + d| && |a| == |c|;
    assert a == (a + b)[..|a|] && c == (c + d)[..|c|] && b == (a + b)[|a|..] && d == (c + d)[|c|..];
  }

  /** The node inputs of the complete tree. */
  ghost function DenseInputs(h: string -> Hex, m: KeyMap, prefix: Bits, level: nat): iset<string>
    decreases level
  {
    if level == 0 then iset{}
    else
      iset{RawNodeInput(Dense(h, m, prefix + [false], level - 1), Dense(h, m, prefix + [true], level - 1))}
      + DenseInputs(h, m, prefix + [false], level - 1)
      + DenseInputs(h, m, prefix + [true], level - 1)
  }

  /** Two key maps with one root have the same leaf hash under every key, or two different node
      inputs of their complete trees collide. */
  lemma {:induction false} RootBindsLeaf(h: string -> Hex, m: KeyMap, n: KeyMap, prefix: Bits, bits: Bits)
    requires FixedLength(m) && FixedLength(n)
    requires Dense(h, m, prefix, |bits|) == Dense(h, n, prefix, |bits|)
    ensures
      || LeafValue(h, m, prefix + bits) == LeafValue(h, n, prefix + bits)
      || Collides(h, DenseInputs(h, m, prefix, |bits|), DenseInputs(h, n, prefix, |bits|))
    decreases |bits|
  {
    if bits == [] {
      assert prefix + bits == prefix;
    } else {
      var level := |bits| - 1;
      var next := prefix + [bits[0]];
      assert prefix + bits == next + bits[1..];
      assert next == if bits[0] then prefix + [true] else prefix + [false];
      var a, b := Dense(h, m, prefix + [false], level), Dense(h, m, prefix + [true], level);
      var c, d := Dense(h, n, prefix + [false], level), Dense(h, n, prefix + [true], level);
      if RawNodeInput(a, b) == RawNodeInput(c, d) {
        DenseLength(h, m, prefix + [false], level);
        DenseLength(h, n, prefix + [false], level);
        RawInputInjective(a, b, c, d);
        RootBindsLeaf(h, m, n, next, bits[1..]);
        if LeafValue(h, m, prefix + bits) != LeafValue(h, n, prefix + bits) {
          CollidesMono(h, DenseInputs(h, m, next, level), DenseInputs(h, n, next, level),
            DenseInputs(h, m, prefix, |bits|), DenseInputs(h, n, prefix, |bits|));
        }
      }
    }
  }
}
