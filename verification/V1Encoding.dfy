/** The version 1 binary encoding: big-endian words, length-prefixed fields, counted lists,
    and the domain-separated hash input. Every form decodes in one way only. */
module V1Encoding {
  import opened Wrappers
  import opened Arithmetic

  newtype Byte = x: int | 0 <= x < 256
  type Bytes = seq<Byte>

  function Pow256(width: nat): nat {
    if width == 0 then 1 else 256 * Pow256(width - 1)
  }

  /** `value` as `width` bytes, most significant first; a value that does not fit is an error. */
  function UInt(value: nat, width: nat): (bs: Bytes)
    requires value < Pow256(width)
    ensures |bs| == width
  {
    if width == 0 then [] else UInt(value / 256, width - 1) + [(value % 256) as Byte]
  }

  function FromUInt(bs: Bytes): (value: nat)
    ensures value < Pow256(|bs|)
  {
    if bs == [] then 0 else 256 * FromUInt(bs[..|bs| - 1]) + bs[|bs| - 1] as nat
  }

  /** Big-endian: byte `i` counts the powers of 256 that the bytes after it leave. */
  lemma {:induction false} UIntByte(value: nat, width: nat, i: nat)
    requires value < Pow256(width) && i < width
    ensures Pow256(width - 1 - i) > 0 && UInt(value, width)[i] as nat == value / Pow256(width - 1 - i) % 256
  {
    if i < width - 1 {
      var p := Pow256(width - 2 - i);
      UIntByte(value / 256, width - 1, i);
      DivDiv(value, 256, p);
    }
  }

  lemma {:induction false} UIntRoundTrip(value: nat, width: nat)
    requires value < Pow256(width)
    ensures FromUInt(UInt(value, width)) == value
  {
    if width > 0 {
      UIntRoundTrip(value / 256, width - 1);
      assert UInt(value, width)[..width - 1] == UInt(value / 256, width - 1);
    }
  }

  lemma {:induction false} FromUIntRoundTrip(bs: Bytes)
    ensures UInt(FromUInt(bs), |bs|) == bs
  {
    if bs != [] {
      FromUIntRoundTrip(bs[..|bs| - 1]);
      assert bs == bs[..|bs| - 1] + [bs[|bs| - 1]];
    }
  }

  lemma Widths()
    ensures Pow256(2) == 0x1_0000 && Pow256(4) == 0x1_0000_0000 && Pow256(8) == 0x1_0000_0000_0000_0000
  {
  }

  /** Two's complement on eight bytes. */
  function I64(value: int): Bytes
    requires -0x8000_0000_0000_0000 <= value < 0x8000_0000_0000_0000
  {
    Widths();
    UInt(if value < 0 then value + 0x1_0000_0000_0000_0000 else value, 8)
  }

  function FromI64(bs: Bytes): int
    requires |bs| == 8
  {
    var u := FromUInt(bs);
    if u < 0x8000_0000_0000_0000 then u else u - 0x1_0000_0000_0000_0000
  }

  lemma I64RoundTrip(value: int)
    requires -0x8000_0000_0000_0000 <= value < 0x8000_0000_0000_0000
    ensures |I64(value)| == 8 && FromI64(I64(value)) == value
  {
    Widths();
    UIntRoundTrip(if value < 0 then value + 0x1_0000_0000_0000_0000 else value, 8);
  }

  const MAX_U32: nat := 0xFFFF_FFFF

  function U32(value: nat): (bs: Bytes)
    requires value <= MAX_U32
    ensures |bs| == 4
  {
    Widths();
    UInt(value, 4)
  }

  lemma U32Injective(m: nat, n: nat)
    requires m <= MAX_U32 && n <= MAX_U32 && U32(m) == U32(n)
    ensures m == n
  {
    Widths();
    UIntRoundTrip(m, 4);
    UIntRoundTrip(n, 4);
  }

  /** A length-prefixed field. */
  function Blob(data: Bytes): Bytes
    requires |data| <= MAX_U32
  {
    U32(|data|) + data
  }

  /** Reading a field: its contents and what follows, or nothing if the bytes are cut short. */
  function ReadBlob(bs: Bytes): Option<(Bytes, Bytes)> {
    if |bs| < 4 then None
    else
      var n := FromUInt(bs[..4]);
      if |bs| < 4 + n then None else Some((bs[4..4 + n], bs[4 + n..]))
  }

  /** A field followed by anything reads back as that field and that remainder. */
  lemma BlobRoundTrip(data: Bytes, rest: Bytes)
    requires |data| <= MAX_U32
    ensures ReadBlob(Blob(data) + rest) == Some((data, rest))
  {
    var bs := Blob(data) + rest;
    Widths();
    UIntRoundTrip(|data|, 4);
    assert bs[..4] == U32(|data|);
    assert bs[4..4 + |data|] == data && bs[4 + |data|..] == rest;
  }

  /** And only the encoding of a field reads as one: the form is canonical. */
  lemma ReadBlobCanonical(bs: Bytes, data: Bytes, rest: Bytes)
    requires ReadBlob(bs) == Some((data, rest))
    ensures |data| <= MAX_U32 && bs == Blob(data) + rest
  {
    Widths();
    FromUIntRoundTrip(bs[..4]);
    assert bs == bs[..4] + bs[4..4 + |data|] + bs[4 + |data|..];
  }

  predicate Encodable(values: seq<Bytes>) {
    |values| <= MAX_U32 && forall v :: v in values ==> |v| <= MAX_U32
  }

  function Concat(parts: seq<Bytes>): Bytes {
    if parts == [] then [] else parts[0] + Concat(parts[1..])
  }

  function Blobs(values: seq<Bytes>): seq<Bytes>
    requires Encodable(values)
  {
    seq(|values|, i requires 0 <= i < |values| => assert values[i] in values; Blob(values[i]))
  }

  /** A counted list: of length-prefixed elements, or of bare ones. */
  function Items(values: seq<Bytes>, structured: bool): Bytes
    requires Encodable(values)
  {
    U32(|values|) + Concat(if structured then Blobs(values) else values)
  }

  /** Reading `count` length-prefixed elements. */
  function ReadBlobs(bs: Bytes, count: nat): Option<(seq<Bytes>, Bytes)> {
    if count == 0 then Some(([], bs))
    else match ReadBlob(bs)
      case None => None
      case Some((data, rest)) =>
        match ReadBlobs(rest, count - 1)
        case None => None
        case Some((more, rest')) => Some(([data] + more, rest'))
  }

  function ReadItems(bs: Bytes): Option<(seq<Bytes>, Bytes)> {
    if |bs| < 4 then None else ReadBlobs(bs[4..], FromUInt(bs[..4]))
  }

  lemma BlobsPeel(values: seq<Bytes>)
    requires Encodable(values) && values != []
    ensures values[0] in values && Encodable(values[1..])
    ensures Concat(Blobs(values)) == Blob(values[0]) + Concat(Blobs(values[1..]))
  {
    assert forall v :: v in values[1..] ==> v in values;
    assert Blobs(values)[1..] == Blobs(values[1..]);
  }

  lemma ReadBlobsStep(bs: Bytes, data: Bytes, rest: Bytes, count: nat, more: seq<Bytes>, rest': Bytes)
    requires ReadBlob(bs) == Some((data, rest)) && ReadBlobs(rest, count) == Some((more, rest'))
    ensures ReadBlobs(bs, count + 1) == Some(([data] + more, rest'))
  {
  }

  lemma {:induction false} BlobsRoundTrip(values: seq<Bytes>, rest: Bytes)
    requires Encodable(values)
    ensures ReadBlobs(Concat(Blobs(values)) + rest, |values|) == Some((values, rest))
  {
    var bs := Concat(Blobs(values)) + rest;
    if values == [] {
      assert bs == rest;
    } else {
      BlobsPeel(values);
      var tail := Concat(Blobs(values[1..])) + rest;
      assert bs == Blob(values[0]) + tail;
      BlobRoundTrip(values[0], tail);
      BlobsRoundTrip(values[1..], rest);
      ReadBlobsStep(bs, values[0], tail, |values| - 1, values[1..], rest);
      assert [values[0]] + values[1..] == values;
    }
  }

  /** A structured list followed by anything reads back as that list and that remainder. */
  lemma ItemsRoundTrip(values: seq<Bytes>, rest: Bytes)
    requires Encodable(values)
    ensures ReadItems(Items(values, true) + rest) == Some((values, rest))
  {
    var body := Concat(Blobs(values));
    var bs := Items(values, true) + rest;
    Widths();
    UIntRoundTrip(|values|, 4);
    assert bs[..4] == U32(|values|) && bs[4..] == body + rest;
    BlobsRoundTrip(values, rest);
  }

  /** Bare elements carry no lengths. Two bare lists with one encoding are equal exactly when
      their elements have equal lengths, as elements of one fixed-width type do. */
  lemma BareItemsDecode(vs: seq<Bytes>, ws: seq<Bytes>, r: Bytes, r': Bytes)
    requires Encodable(vs) && Encodable(ws) && Items(vs, false) + r == Items(ws, false) + r'
    ensures |vs| == |ws|
    ensures (vs == ws && r == r') <==> forall i :: 0 <= i < |vs| ==> |vs[i]| == |ws[i]|
  {
    assert (Items(vs, false) + r)[..4] == U32(|vs|) && (Items(ws, false) + r')[..4] == U32(|ws|);
    U32Injective(|vs|, |ws|);
    assert (Items(vs, false) + r)[4..] == Concat(vs) + r && (Items(ws, false) + r')[4..] == Concat(ws) + r';
    if forall i :: 0 <= i < |vs| ==> |vs[i]| == |ws[i]| {
      ConcatSplit(vs, ws, r, r');
    }
  }

  lemma {:induction false} ConcatSplit(vs: seq<Bytes>, ws: seq<Bytes>, r: Bytes, r': Bytes)
    requires |vs| == |ws| && Concat(vs) + r == Concat(ws) + r'
    requires forall i :: 0 <= i < |vs| ==> |vs[i]| == |ws[i]|
    ensures vs == ws && r == r'
  {
    if vs == [] {
      assert Concat(vs) + r == r && Concat(ws) + r' == r';
    } else {
      var a, b := Concat(vs[1..]) + r, Concat(ws[1..]) + r';
      assert Concat(vs) + r == vs[0] + a && Concat(ws) + r' == ws[0] + b;
      assert (vs[0] + a)[..|vs[0]|] == vs[0] && (ws[0] + b)[..|vs[0]|] == ws[0];
      assert (vs[0] + a)[|vs[0]|..] == a && (ws[0] + b)[|vs[0]|..] == b;
      ConcatSplit(vs[1..], ws[1..], r, r');
      assert vs == [vs[0]] + vs[1..] && ws == [ws[0]] + ws[1..];
    }
  }

  /** Without equal lengths the bare form is ambiguous. */
  lemma BareItemsAmbiguous()
    ensures Items([[1], [2, 3]], false) == Items([[1, 2], [3]], false)
  {
  }

  // --- Objects and hash inputs ---------------------------------------------------------------

  const MAGIC: Bytes := [0x4E, 0x4F, 0x44, 0x4F]
  const HASH_PREFIX: Bytes := [0x4E, 0x4F, 0x44, 0x4F, 0x2F, 0x56, 0x31, 0x2F]

  /** A top-level object: magic, version 1, kind, payload. */
  function Obj(kind: nat, payload: Bytes): Bytes
    requires kind < 0x1_0000
  {
    Widths();
    MAGIC + UInt(1, 2) + UInt(kind, 2) + payload
  }

  lemma ObjInjective(kind: nat, payload: Bytes, kind': nat, payload': Bytes)
    requires kind < 0x1_0000 && kind' < 0x1_0000 && Obj(kind, payload) == Obj(kind', payload')
    ensures kind == kind' && payload == payload'
  {
    Widths();
    var a, b := Obj(kind, payload), Obj(kind', payload');
    assert a[6..8] == UInt(kind, 2) && b[6..8] == UInt(kind', 2) && a[8..] == payload && b[8..] == payload';
    UIntRoundTrip(kind, 2);
    UIntRoundTrip(kind', 2);
  }

  /** What is hashed: the fixed prefix, the domain, a zero byte, the data. */
  function HashInput(domain: Bytes, data: Bytes): Bytes {
    HASH_PREFIX + (domain + [0] + data)
  }

  /** A domain without a zero byte, and the data, can be recovered from the hash input. */
  lemma HashInputInjective(d: Bytes, x: Bytes, e: Bytes, y: Bytes)
    requires 0 !in d && 0 !in e && HashInput(d, x) == HashInput(e, y)
    ensures d == e && x == y
  {
    var a, b := d + [0] + x, e + [0] + y;
    assert HashInput(d, x)[8..] == a && HashInput(e, y)[8..] == b;
    assert a[|d|] == 0 && b[|e|] == 0;
    assert forall k :: 0 <= k < |d| ==> a[k] == d[k];
    assert forall k :: 0 <= k < |e| ==> b[k] == e[k];
    assert d == a[..|d|] && e == b[..|e|] && x == a[|d| + 1..] && y == b[|e| + 1..];
  }

  lemma ZeroByteInDomainIsAmbiguous()
    ensures HashInput([0], []) == HashInput([], [0])
  {
  }

  // --- The reader ------------------------------------------------------------------------------

  /** A cursor over bytes; a failed read reports it instead of returning a value. */
  class Reader {
    const bytes: Bytes
    const maxFieldBytes: nat
    var position: nat

    ghost predicate Valid()
      reads this
    {
      position <= |bytes|
    }

    constructor (bytes: Bytes, maxFieldBytes: nat)
      ensures Valid() && this.bytes == bytes && this.maxFieldBytes == maxFieldBytes && position == 0
    {
      this.bytes, this.maxFieldBytes, position := bytes, maxFieldBytes, 0;
    }

    method ReadUInt(width: nat) returns (value: Option<nat>)
      requires Valid()
      modifies this
      ensures Valid()
      ensures value.Some? <==> old(position) + width <= |bytes|
      ensures value.Some? ==>
        position == old(position) + width && value.value == FromUInt(bytes[old(position)..position])
      ensures value.None? ==> position == old(position)
    {
      if width > |bytes| - position {
        return None;
      }
      var start := position;
      var total: nat := 0;
      for i := 0 to width
        invariant position == start + i <= |bytes|
        invariant total == FromUInt(bytes[start..position])
      {
        total := 256 * total + bytes[position] as nat;
        position := position + 1;
        assert bytes[start..position][..i] == bytes[start..position - 1];
      }
      return Some(total);
    }

    /** Reads a length-prefixed field of at most the configured size. */
    method ReadField() returns (data: Option<Bytes>)
      requires Valid()
      modifies this
      ensures Valid()
      ensures
        var parsed := ReadBlob(bytes[old(position)..]);
        data == if parsed.Some? && |parsed.value.0| <= maxFieldBytes then Some(parsed.value.0) else None
      ensures data.Some? ==> bytes[position..] == ReadBlob(bytes[old(position)..]).value.1
    {
      ghost var tail := bytes[position..];
      var start := position;
      var length := ReadUInt(4);
      if length.None? {
        return None;
      }
      var n := length.value;
      assert tail[..4] == bytes[start..start + 4];
      if n > maxFieldBytes || n > |bytes| - position {
        return None;
      }
      assert tail[4..4 + n] == bytes[position..position + n];
      assert tail[4 + n..] == bytes[position + n..];
      data := Some(bytes[position..position + n]);
      position := position + n;
    }
  }
}
