/** The archived byte stream of a segment, block offsets in it, and its fixed-size pieces. */
module SegmentStream {
  import opened Wrappers
  import opened V1Encoding
  import opened Arithmetic

  /** Big-endian, keeping only the lowest `width` bytes. */
  function BigEndian(value: nat, width: nat): (bs: Bytes)
    ensures |bs| == width
    decreases width, value
  {
    if width == 0 then [] else BigEndian(value / 256, width - 1) + [(value % 256) as Byte]
  }

  const FRAMING: nat := 12

  function FramedBlock(height: nat, block: Bytes): (frame: Bytes)
    ensures |frame| == FRAMING + |block|
  {
    BigEndian(height, 8) + BigEndian(|block|, 4) + block
  }

  function FrameAt(first: nat, blocks: seq<Bytes>, i: nat): Bytes
    requires i < |blocks|
  {
    FramedBlock(first + i, blocks[i])
  }

  function Frames(first: nat, blocks: seq<Bytes>): seq<Bytes> {
    seq(|blocks|, i requires 0 <= i < |blocks| => FrameAt(first, blocks, i))
  }

  /** For every height in order: height, length, block bytes. */
  function Stream(first: nat, blocks: seq<Bytes>): Bytes {
    Concat(Frames(first, blocks))
  }

  // --- Offsets ------------------------------------------------------------------------------------

  function Offset(parts: seq<Bytes>, i: nat): nat
    requires i <= |parts|
  {
    |Concat(parts[..i])|
  }

  lemma {:induction false} ConcatAppend(parts: seq<Bytes>, more: seq<Bytes>)
    ensures Concat(parts + more) == Concat(parts) + Concat(more)
  {
    if parts == [] {
      assert parts + more == more;
    } else {
      assert (parts + more)[1..] == parts[1..] + more;
      ConcatAppend(parts[1..], more);
    }
  }

  lemma {:induction false} ConcatOne(part: Bytes)
    ensures Concat([part]) == part
  {
  }

  lemma {:induction false} OffsetStep(parts: seq<Bytes>, i: nat)
    requires i < |parts|
    ensures Offset(parts, i + 1) == Offset(parts, i) + |parts[i]|
    ensures Concat(parts[..i + 1]) == Concat(parts[..i]) + parts[i]
  {
    assert parts[..i + 1] == parts[..i] + [parts[i]];
    ConcatAppend(parts[..i], [parts[i]]);
    ConcatOne(parts[i]);
  }

  lemma {:induction false} OffsetEnds(parts: seq<Bytes>)
    ensures Offset(parts, 0) == 0 && Offset(parts, |parts|) == |Concat(parts)|
  {
    assert parts[..|parts|] == parts;
  }

  lemma {:induction false} OffsetMono(parts: seq<Bytes>, i: nat, j: nat)
    requires i <= j <= |parts|
    ensures Offset(parts, i) <= Offset(parts, j)
    decreases j
  {
    if i < j {
      OffsetMono(parts, i, j - 1);
      OffsetStep(parts, j - 1);
    }
  }

  /** Between its offset and the next lies exactly the part. */
  lemma {:induction false} PartInStream(parts: seq<Bytes>, i: nat)
    requires i < |parts|
    ensures Offset(parts, i) + |parts[i]| <= |Concat(parts)|
    ensures Concat(parts)[Offset(parts, i)..Offset(parts, i) + |parts[i]|] == parts[i]
  {
    OffsetStep(parts, i);
    assert parts == parts[..i + 1] + parts[i + 1..];
    ConcatAppend(parts[..i + 1], parts[i + 1..]);
  }

  // --- Reading the stream back --------------------------------------------------------------------

  /** The heights and blocks that a stream spells, frame by frame. */
  function ParseFrames(bs: Bytes): Option<seq<(nat, Bytes)>>
    decreases |bs|
  {
    if bs == [] then Some([])
    else if |bs| < FRAMING then None
    else
      var n := FromUInt(bs[8..12]);
      if |bs| < FRAMING + n then None
      else match ParseFrames(bs[FRAMING + n..])
        case None => None
        case Some(rest) => Some([(FromUInt(bs[..8]), bs[FRAMING..FRAMING + n])] + rest)
  }

  lemma {:induction false} BigEndianIsUInt(value: nat, width: nat)
    requires value < Pow256(width)
    ensures BigEndian(value, width) == UInt(value, width) && FromUInt(BigEndian(value, width)) == value
  {
    UIntRoundTrip(value, width);
    if width > 0 {
      BigEndianIsUInt(value / 256, width - 1);
    }
  }

  /** A frame reads back as its height and its block, and leaves what follows it. */
  lemma {:induction false} FrameReads(height: nat, block: Bytes, rest: Bytes, bs: Bytes)
    requires height < Pow256(8) && |block| < Pow256(4) && bs == FramedBlock(height, block) + rest
    ensures FromUInt(bs[..8]) == height && FromUInt(bs[8..12]) == |block|
    ensures bs[FRAMING..FRAMING + |block|] == block && bs[FRAMING + |block|..] == rest
  {
    BigEndianIsUInt(height, 8);
    BigEndianIsUInt(|block|, 4);
    assert bs[..8] == BigEndian(height, 8) && bs[8..12] == BigEndian(|block|, 4);
  }

  function Numbered(first: nat, blocks: seq<Bytes>): seq<(nat, Bytes)> {
    seq(|blocks|, i requires 0 <= i < |blocks| => (first + i, blocks[i]))
  }

  lemma {:induction false} FramesFirst(first: nat, blocks: seq<Bytes>)
    requires blocks != []
    ensures Stream(first, blocks) == FramedBlock(first, blocks[0]) + Stream(first + 1, blocks[1..])
    ensures Numbered(first, blocks) == [(first, blocks[0])] + Numbered(first + 1, blocks[1..])
  {
    assert Frames(first, blocks)[1..] == Frames(first + 1, blocks[1..]);
  }

  /** The archived stream reads back as exactly its blocks, each with its height, in order. */
  lemma {:induction false} StreamRoundTrip(first: nat, blocks: seq<Bytes>)
    requires first + |blocks| <= Pow256(8) && forall i: nat :: i < |blocks| ==> |blocks[i]| < Pow256(4)
    ensures ParseFrames(Stream(first, blocks)) == Some(Numbered(first, blocks))
    decreases |blocks|
  {
    if blocks != [] {
      FramesFirst(first, blocks);
      FrameReads(first, blocks[0], Stream(first + 1, blocks[1..]), Stream(first, blocks));
      StreamRoundTrip(first + 1, blocks[1..]);
    } else {
      assert Frames(first, blocks) == [] && Numbered(first, blocks) == [];
    }
  }

  // --- Pieces -------------------------------------------------------------------------------------

  function Min(a: int, b: int): int {
    if a < b then a else b
  }

  function Max(a: int, b: int): int {
    if a < b then b else a
  }

  /** Enough pieces to hold the stream; none for an empty one. */
  function PieceCount(total: nat, pieceBytes: nat): nat
    requires pieceBytes > 0
  {
    if total == 0 then 0 else (total - 1) / pieceBytes + 1
  }

  function PieceLength(total: nat, pieceBytes: nat, i: nat): int
    requires pieceBytes > 0
  {
    if i + 1 < PieceCount(total, pieceBytes) then pieceBytes else total - pieceBytes * i
  }

  /** Every piece starts inside the stream; all but the last are full. */
  lemma {:induction false} PieceFits(total: nat, pieceBytes: nat, i: nat)
    requires pieceBytes > 0 && i < PieceCount(total, pieceBytes)
    ensures 0 < PieceLength(total, pieceBytes, i) <= pieceBytes
    ensures pieceBytes * i + PieceLength(total, pieceBytes, i) == Min(pieceBytes * (i + 1), total)
  {
    var q := (total - 1) / pieceBytes;
    Division(total - 1, pieceBytes);
    if i < q {
      MulMono(pieceBytes, i + 1, q);
    }
  }

  function Piece(stream: Bytes, pieceBytes: nat, i: nat): Bytes
    requires pieceBytes > 0 && i < PieceCount(|stream|, pieceBytes)
  {
    PieceFits(|stream|, pieceBytes, i);
    stream[pieceBytes * i..pieceBytes * i + PieceLength(|stream|, pieceBytes, i)]
  }

  function Pieces(stream: Bytes, pieceBytes: nat): seq<Bytes>
    requires pieceBytes > 0
  {
    seq(PieceCount(|stream|, pieceBytes), i requires 0 <= i < PieceCount(|stream|, pieceBytes) => Piece(stream, pieceBytes, i))
  }

  lemma {:induction false} FirstPieces(stream: Bytes, pieceBytes: nat, n: nat)
    requires pieceBytes > 0 && n <= PieceCount(|stream|, pieceBytes)
    ensures 0 <= Min(pieceBytes * n, |stream|)
    ensures Concat(Pieces(stream, pieceBytes)[..n]) == stream[..Min(pieceBytes * n, |stream|)]
  {
    if n > 0 {
      FirstPieces(stream, pieceBytes, n - 1);
      PieceFits(|stream|, pieceBytes, n - 1);
      OffsetStep(Pieces(stream, pieceBytes), n - 1);
      if n > 1 {
        PieceFits(|stream|, pieceBytes, n - 2);
      }
    }
  }

  function Sum(ns: seq<int>): int {
    if ns == [] then 0 else ns[0] + Sum(ns[1..])
  }

  lemma {:induction false} SumOfLengths(parts: seq<Bytes>, ns: seq<int>)
    requires |ns| == |parts| && forall i: nat :: i < |ns| ==> ns[i] == |parts[i]|
    ensures Sum(ns) == |Concat(parts)|
  {
    if parts != [] {
      SumOfLengths(parts[1..], ns[1..]);
    }
  }

  lemma {:induction false} PiecesConcat(stream: Bytes, pieceBytes: nat)
    requires pieceBytes > 0
    ensures Concat(Pieces(stream, pieceBytes)) == stream
  {
    var n := PieceCount(|stream|, pieceBytes);
    FirstPieces(stream, pieceBytes, n);
    assert Pieces(stream, pieceBytes)[..n] == Pieces(stream, pieceBytes);
    if n > 0 {
      PieceFits(|stream|, pieceBytes, n - 1);
    }
  }

  function PieceLengths(total: nat, pieceBytes: nat): seq<int>
    requires pieceBytes > 0
  {
    seq(PieceCount(total, pieceBytes), i requires 0 <= i => PieceLength(total, pieceBytes, i))
  }

  /** The pieces concatenate to the stream, and the declared lengths sum to its length. */
  lemma {:induction false} PiecesRebuildStream(stream: Bytes, pieceBytes: nat)
    requires pieceBytes > 0
    ensures Concat(Pieces(stream, pieceBytes)) == stream
    ensures Sum(PieceLengths(|stream|, pieceBytes)) == |stream|
  {
    PiecesConcat(stream, pieceBytes);
    var pieces, lengths := Pieces(stream, pieceBytes), PieceLengths(|stream|, pieceBytes);
    forall i: nat | i < |pieces| ensures lengths[i] == |pieces[i]| {
      PieceFits(|stream|, pieceBytes, i);
    }
    SumOfLengths(pieces, lengths);
  }
}
