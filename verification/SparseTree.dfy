/** The trie object: hexadecimal keys, updates in place, root and proofs. */
module SparseTree {
  import opened Wrappers
  import opened OrderedRoot
  import opened SparseTrie
  import opened SparseProofs

  // --- Keys -------------------------------------------------------------------------------------

  function Nibble(c: char): Option<nat> {
    if '0' <= c <= '9' then Some(c as nat - '0' as nat)
    else if 'a' <= c <= 'f' then Some(c as nat - 'a' as nat + 10)
    else if 'A' <= c <= 'F' then Some(c as nat - 'A' as nat + 10)
    else None
  }

  /** The four bits of a digit, highest first. */
  function NibbleBits(v: nat): Bits {
    [v / 8 % 2 == 1, v / 4 % 2 == 1, v / 2 % 2 == 1, v % 2 == 1]
  }

  function HexBits(hex: string): Option<Bits> {
    if hex == "" then Some([])
    else match (HexBits(hex[..|hex| - 1]), Nibble(hex[|hex| - 1]))
      case (Some(bits), Some(v)) => Some(bits + NibbleBits(v))
      case _ => None
  }

  /** A key has a fixed number of digits, 64 in the node. */
  function HexToBits(hex: string, digits: nat): Option<Bits> {
    if |hex| != digits then None else HexBits(hex)
  }

  lemma {:induction false} HexBitsLength(hex: string)
    ensures HexBits(hex).Some? <==> forall i: nat :: i < |hex| ==> Nibble(hex[i]).Some?
    ensures HexBits(hex).Some? ==> |HexBits(hex).value| == 4 * |hex|
  {
    if hex != "" {
      var front := hex[..|hex| - 1];
      HexBitsLength(front);
      assert forall i: nat :: i < |front| ==> hex[i] == front[i];
    }
  }

  lemma {:induction false} NibbleBitsInjective(v: nat, w: nat)
    requires v < 16 && w < 16 && NibbleBits(v) == NibbleBits(w)
    ensures v == w
  {
    assert NibbleBits(v)[0] == NibbleBits(w)[0] && NibbleBits(v)[1] == NibbleBits(w)[1];
    assert NibbleBits(v)[2] == NibbleBits(w)[2] && NibbleBits(v)[3] == NibbleBits(w)[3];
  }

  /** Two keys name one leaf exactly when their digits agree, upper and lower case alike. */
  lemma {:induction false} SameKeyIff(a: string, b: string)
    requires |a| == |b| && HexBits(a).Some? && HexBits(b).Some?
    ensures HexBits(a) == HexBits(b) <==> forall i: nat :: i < |a| ==> Nibble(a[i]) == Nibble(b[i])
  {
    if a != "" {
      var n := |a| - 1;
      var c, d := a[..n], b[..n];
      SameKeyIff(c, d);
      HexBitsLength(c);
      HexBitsLength(d);
      var x, y := HexBits(c).value, HexBits(d).value;
      var v, w := Nibble(a[n]).value, Nibble(b[n]).value;
      assert (x + NibbleBits(v))[..4 * n] == x && (y + NibbleBits(w))[..4 * n] == y;
      assert (x + NibbleBits(v))[4 * n..] == NibbleBits(v) && (y + NibbleBits(w))[4 * n..] == NibbleBits(w);
      if HexBits(a) == HexBits(b) {
        NibbleBitsInjective(v, w);
      }
      assert forall i: nat :: i < n ==> a[i] == c[i] && b[i] == d[i];
    }
  }

  const LOWER := "0123456789abcdef"
  const UPPER := "0123456789ABCDEF"

  /** A digit's value is its place in the list of digits. */
  lemma {:induction false} NibbleIff(c: char, v: nat)
    ensures Nibble(c) == Some(v) <==> v < 16 && (c == LOWER[v] || c == UPPER[v])
  {
  }

  /** The number that bits denote, highest first. */
  function BitsValue(bits: Bits): nat {
    if bits == [] then 0 else 2 * BitsValue(bits[..|bits| - 1]) + if bits[|bits| - 1] then 1 else 0
  }

  /** The number that hexadecimal digits denote. */
  function HexValue(hex: string): nat {
    if hex == "" then 0
    else 16 * HexValue(hex[..|hex| - 1]) + match Nibble(hex[|hex| - 1]) case Some(v) => v case None => 0
  }

  function Bit(b: bool): nat {
    if b then 1 else 0
  }

  lemma {:induction false} BitsValueAppend(bits: Bits, b: bool, more: Bits)
    requires more == bits + [b]
    ensures BitsValue(more) == 2 * BitsValue(bits) + Bit(b)
  {
    assert more[..|bits|] == bits;
  }

  lemma {:induction false} NibbleDigits(v: nat)
    requires v < 16
    ensures v == 8 * (v / 8 % 2) + 4 * (v / 4 % 2) + 2 * (v / 2 % 2) + v % 2
  {
  }

  lemma {:induction false} FourBits(w: Bits, x: Bits, y: Bits, z: Bits, u: Bits, a: bool, b: bool, c: bool, d: bool)
    requires x == w + [a] && y == x + [b] && z == y + [c] && u == z + [d]
    ensures BitsValue(u) == 16 * BitsValue(w) + 8 * Bit(a) + 4 * Bit(b) + 2 * Bit(c) + Bit(d)
  {
    BitsValueAppend(w, a, x);
    BitsValueAppend(x, b, y);
    BitsValueAppend(y, c, z);
    BitsValueAppend(z, d, u);
  }

  lemma {:induction false} NibbleBitsValue(bits: Bits, v: nat)
    requires v < 16
    ensures BitsValue(bits + NibbleBits(v)) == 16 * BitsValue(bits) + v
  {
    var a, b, c, d := v / 8 % 2 == 1, v / 4 % 2 == 1, v / 2 % 2 == 1, v % 2 == 1;
    var x := bits + [a];
    var y := x + [b];
    var z := y + [c];
    assert bits + NibbleBits(v) == z + [d];
    FourBits(bits, x, y, z, z + [d], a, b, c, d);
    NibbleDigits(v);
  }

  /** A key's path spells its number in binary. */
  lemma {:induction false} PathIsNumber(hex: string)
    requires HexBits(hex).Some?
    ensures BitsValue(HexBits(hex).value) == HexValue(hex)
  {
    if hex != "" {
      PathIsNumber(hex[..|hex| - 1]);
      NibbleBitsValue(HexBits(hex[..|hex| - 1]).value, Nibble(hex[|hex| - 1]).value);
    }
  }

  method ParseKey(hex: string, digits: nat) returns (bits: Option<Bits>)
    ensures bits == HexToBits(hex, digits)
    ensures bits.Some? ==> |bits.value| == 4 * digits
    ensures bits.Some? <==> |hex| == digits && forall i: nat :: i < |hex| ==> Nibble(hex[i]).Some?
  {
    HexBitsLength(hex);
    if |hex| != digits {
      return None;
    }
    var read: Bits := [];
    for i := 0 to |hex|
      invariant HexBits(hex[..i]) == Some(read)
    {
      var v := Nibble(hex[i]);
      assert hex[..i + 1][..i] == hex[..i];
      if v.None? {
        return None;
      }
      read := read + NibbleBits(v.value);
    }
    assert hex[..|hex|] == hex;
    bits := Some(read);
  }

  // --- The object -------------------------------------------------------------------------------

  /** The hashes of empty subtrees of every height up to the depth. */
  method PrecomputeDefaultHashes(h: string -> Hex, depth: nat) returns (defaults: seq<Hex>)
    ensures |defaults| == depth + 1 && forall i: nat :: i <= depth ==> defaults[i] == Default(h, i)
  {
    defaults := [h("")];
    for i := 1 to depth + 1
      invariant |defaults| == i && forall j: nat :: j < i ==> defaults[j] == Default(h, j)
    {
      defaults := defaults + [HashNode(h, defaults[i - 1], defaults[i - 1])];
    }
  }

  class SparseMerkleTree {
    const hash: string -> Hex
    const digits: nat
    const depth: nat
    const defaults: seq<Hex>
    var root: Trie
    ghost var contents: KeyMap

    ghost predicate Valid()
      reads this
    {
      && depth == 4 * digits
      && |defaults| == depth + 1
      && (forall i: nat :: i <= depth ==> defaults[i] == Default(hash, i))
      && Represents(hash, root, contents, [], depth)
    }

    /** The node uses 64 digits: 256 levels. */
    constructor (hash: string -> Hex, digits: nat)
      ensures Valid() && this.hash == hash && this.digits == digits && contents == map[]
    {
      var defaults := PrecomputeDefaultHashes(hash, 4 * digits);
      this.hash, this.digits, this.depth, this.defaults := hash, digits, 4 * digits, defaults;
      root, contents := Null, map[];
    }

    /** Writes one leaf; a malformed key changes nothing. */
    method Update(keyHex: string, value: string) returns (ok: bool)
      requires Valid()
      modifies this
      ensures Valid()
      ensures ok <==> HexToBits(keyHex, digits).Some?
      ensures contents == if ok then old(contents)[HexToBits(keyHex, digits).value := value] else old(contents)
      ensures !ok ==> root == old(root)
    {
      var bits := ParseKey(keyHex, digits);
      if bits.None? {
        return false;
      }
      UpdateRepresents(hash, root, contents, [], bits.value, value);
      assert [] + bits.value == bits.value;
      root := Updated(hash, root, bits.value, value);
      contents := contents[bits.value := value];
      ok := true;
    }

    method Root() returns (r: string)
      requires Valid()
      ensures r == Dense(hash, contents, [], depth)
    {
      RepresentsDense(hash, root, contents, [], depth);
      r := if root.Null? || root.hash == "" then defaults[depth] else root.hash;
    }

    /** The proof carries the key's leaf, and verifies unless the neighbouring leaf was written
        as empty. */
    method GenerateProof(keyHex: string) returns (proof: Option<Proof>)
      requires Valid()
      ensures proof.Some? <==> HexToBits(keyHex, digits).Some?
      ensures proof.Some? ==>
        var key := HexToBits(keyHex, digits).value;
        && |proof.value.steps| == depth
        && proof.value.leafHash == LeafValue(hash, contents, key)
        && (!EmptySibling(contents, key) ==> Verify(hash, proof.value, Dense(hash, contents, [], depth)))
    {
      var bits := ParseKey(keyHex, digits);
      if bits.None? {
        return None;
      }
      var key := bits.value;
      var current := root;
      for i := 0 to depth
        invariant Descend(current, key[i..]) == Descend(root, key)
      {
        current := Child(current, key[i]);
        assert key[i..][1..] == key[i + 1..];
      }
      var leaf := if current.Null? || current.hash == "" then defaults[0] else current.hash;
      var p := Proof(leaf, Reversed(CollectSteps(hash, root, key)));
      GeneratedProofVerifies(hash, root, contents, key, p);
      RepresentsDense(hash, root, contents, [], depth);
      proof := Some(p);
    }
  }
}
