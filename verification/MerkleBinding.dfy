/** Binding of hash trees, for any hash function: two trees with one root are the same tree,
    or two different inputs that were hashed on the way collide. */
module MerkleBinding {

  /** How a tree is hashed: the bytes hashed for a leaf and for an inner node, and the hash. */
  datatype Scheme<!P, !T, !D> = Scheme(leaf: (nat, P) -> T, node: (D, D) -> T, hash: T -> D)

  /** Leaf and node inputs can be told apart, and each determines its parts, for leaf
      indexes below `bound`. */
  ghost predicate Separated<P(!new), T(!new), D(!new)>(s: Scheme<P, T, D>, bound: nat) {
    && (forall i: nat, p, j: nat, q :: i < bound && j < bound && s.leaf(i, p) == s.leaf(j, q) ==> i == j && p == q)
    && (forall a, b, c, d :: s.node(a, b) == s.node(c, d) ==> a == c && b == d)
    && (forall i: nat, p, a, b :: i < bound ==> s.leaf(i, p) != s.node(a, b))
  }

  /** Indexed payloads at the leaves. */
  datatype Tree<P> = Leaf(index: nat, payload: P) | Node(left: Tree<P>, right: Tree<P>)

  predicate Bounded<P>(t: Tree<P>, bound: nat) {
    match t
    case Leaf(i, _) => i < bound
    case Node(l, r) => Bounded(l, bound) && Bounded(r, bound)
  }

  function Input<P, T, D>(s: Scheme<P, T, D>, t: Tree<P>): T
    decreases t, 0
  {
    match t
    case Leaf(i, p) => s.leaf(i, p)
    case Node(l, r) => s.node(Digest(s, l), Digest(s, r))
  }

  function Digest<P, T, D>(s: Scheme<P, T, D>, t: Tree<P>): D
    decreases t, 1
  {
    s.hash(Input(s, t))
  }

  /** Every input hashed to compute the digest. */
  ghost function Inputs<P, T, D>(s: Scheme<P, T, D>, t: Tree<P>): iset<T> {
    iset{Input(s, t)} + match t case Leaf(_, _) => iset{} case Node(l, r) => Inputs(s, l) + Inputs(s, r)
  }

  /** Two different inputs out of the given ones have one hash. */
  ghost predicate Collides<T(!new), D>(hash: T -> D, xs: iset<T>, ys: iset<T>) {
    exists x, y :: x in xs && y in ys && x != y && hash(x) == hash(y)
  }

  lemma CollidesMono<T(!new), D>(hash: T -> D, xs: iset<T>, ys: iset<T>, xs': iset<T>, ys': iset<T>)
    requires Collides(hash, xs, ys) && xs <= xs' && ys <= ys'
    ensures Collides(hash, xs', ys')
  {
  }

  lemma {:induction false} TreeBinding<P(!new), T(!new), D(!new)>(
    s: Scheme<P, T, D>, bound: nat, t: Tree<P>, u: Tree<P>)
    requires Separated(s, bound) && Bounded(t, bound) && Bounded(u, bound) && Digest(s, t) == Digest(s, u)
    ensures t == u || Collides(s.hash, Inputs(s, t), Inputs(s, u))
  {
    if Input(s, t) == Input(s, u) {
      if t.Node? && u.Node? {
        TreeBinding(s, bound, t.left, u.left);
        TreeBinding(s, bound, t.right, u.right);
        if t.left != u.left {
          CollidesMono(s.hash, Inputs(s, t.left), Inputs(s, u.left), Inputs(s, t), Inputs(s, u));
        } else if t.right != u.right {
          CollidesMono(s.hash, Inputs(s, t.right), Inputs(s, u.right), Inputs(s, t), Inputs(s, u));
        }
      }
    } else {
      assert Input(s, t) in Inputs(s, t) && Input(s, u) in Inputs(s, u);
    }
  }

  // --- The leaves of a tree and the list they come from -----------------------------------

  ghost function Leaves<P>(t: Tree<P>): iset<(nat, P)> {
    match t
    case Leaf(i, p) => iset{(i, p)}
    case Node(l, r) => Leaves(l) + Leaves(r)
  }

  /** The leaves of `t` are exactly the entries of `xs`, each under its own index. */
  ghost predicate Holds<P(!new)>(t: Tree<P>, xs: seq<P>) {
    forall i: nat, p :: (i, p) in Leaves(t) <==> i < |xs| && xs[i] == p
  }

  lemma HoldsLength<P(!new)>(t: Tree<P>, xs: seq<P>, ys: seq<P>)
    requires Holds(t, xs) && Holds(t, ys)
    ensures |xs| <= |ys|
  {
    if |xs| > 0 {
      assert (|xs| - 1, xs[|xs| - 1]) in Leaves(t);
    }
  }

  /** A tree holds one list only: its length, order and contents. */
  lemma HoldsUnique<P(!new)>(t: Tree<P>, xs: seq<P>, ys: seq<P>)
    requires Holds(t, xs) && Holds(t, ys)
    ensures xs == ys
  {
    HoldsLength(t, xs, ys);
    HoldsLength(t, ys, xs);
    forall i: nat | i < |xs| ensures ys[i] == xs[i] {
      assert (i, xs[i]) in Leaves(t);
    }
  }

  lemma {:induction false} LeavesBounded<P(!new)>(t: Tree<P>, bound: nat)
    requires forall i: nat, p :: (i, p) in Leaves(t) ==> i < bound
    ensures Bounded(t, bound)
  {
    match t
    case Leaf(i, p) => assert (i, p) in Leaves(t);
    case Node(l, r) =>
      LeavesBounded(l, bound);
      LeavesBounded(r, bound);
  }

  lemma RootBinding<P(!new), T(!new), D(!new)>(
    s: Scheme<P, T, D>, bound: nat, t: Tree<P>, xs: seq<P>, u: Tree<P>, ys: seq<P>)
    requires Separated(s, bound) && |xs| <= bound && |ys| <= bound
    requires Digest(s, t) == Digest(s, u) && Holds(t, xs) && Holds(u, ys)
    ensures xs == ys || Collides(s.hash, Inputs(s, t), Inputs(s, u))
  {
    LeavesBounded(t, bound);
    LeavesBounded(u, bound);
    TreeBinding(s, bound, t, u);
    if t == u {
      HoldsUnique(t, xs, ys);
    }
  }
}
