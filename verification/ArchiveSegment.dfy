/** Building a segment's piece hashes and block offsets in one pass, and reading one piece back
    from the blocks it overlaps. */
module ArchiveSegment {
  import opened Wrappers
  import opened V1Encoding
  import opened Arithmetic
  import opened V1Merkle
  import opened SplitTree
  import opened SegmentStream

  // "archive" in ASCII.
  const ARCHIVE: Kind := [0x61, 0x72, 0x63, 0x68, 0x69, 0x76, 0x65]

  const MAX_BLOCK_BYTES: nat := 1024 * 1024

  datatype ArchivedBlock = ArchivedBlock(blockHash: string, blockBytes: Bytes)

  function PieceHash(hash: Bytes -> Hash32, i: nat, piece: Bytes): Hash32 {
    LeafHash(V1Scheme(hash, ARCHIVE), i, piece)
  }

  function PieceHashes(hash: Bytes -> Hash32, pieces: seq<Bytes>): seq<Hash32> {
    seq(|pieces|, i requires 0 <= i < |pieces| => PieceHash(hash, i, pieces[i]))
  }

  // --- Cutting into pieces ------------------------------------------------------------------------

  ghost predicate AllFull(pieces: seq<Bytes>, pieceBytes: nat) {
    forall i: nat :: i < |pieces| ==> |pieces[i]| == pieceBytes
  }

  lemma {:induction false} FullOffset(pieces: seq<Bytes>, pieceBytes: nat, i: nat)
    requires AllFull(pieces, pieceBytes) && i <= |pieces|
    ensures Offset(pieces, i) == pieceBytes * i
  {
    if i > 0 {
      FullOffset(pieces, pieceBytes, i - 1);
      OffsetStep(pieces, i - 1);
    }
  }

  lemma {:induction false} CutCount(pieceBytes: nat, full: nat, rest: nat)
    requires rest < pieceBytes
    ensures PieceCount(pieceBytes * full + rest, pieceBytes) == if rest == 0 then full else full + 1
  {
    if rest > 0 {
      DivUnique(pieceBytes * full + rest - 1, pieceBytes, full);
    } else if full > 0 {
      DivUnique(pieceBytes * full - 1, pieceBytes, full - 1);
    }
  }

  /** Full pieces and a shorter rest are the pieces of what they concatenate to. */
  lemma {:induction false} CutIsPieces(pieces: seq<Bytes>, rest: Bytes, pieceBytes: nat, stream: Bytes)
    requires AllFull(pieces, pieceBytes) && |rest| < pieceBytes && stream == Concat(pieces) + rest
    ensures Pieces(stream, pieceBytes) == if rest == [] then pieces else pieces + [rest]
  {
    var n := |pieces|;
    FullOffset(pieces, pieceBytes, n);
    OffsetEnds(pieces);
    CutCount(pieceBytes, n, |rest|);
    var all := Pieces(stream, pieceBytes);
    forall i: nat | i < n ensures all[i] == pieces[i] {
      FullOffset(pieces, pieceBytes, i);
      PartInStream(pieces, i);
      PieceFits(|stream|, pieceBytes, i);
      MulMono(pieceBytes, i + 1, n);
    }
    if rest != [] {
      PieceFits(|stream|, pieceBytes, n);
      assert all[n] == rest;
    }
  }

  /** Collects a byte stream and hashes each piece as soon as it is full. */
  class PieceAccumulator {
    const hash: Bytes -> Hash32
    const pieceBytes: nat
    var piece: Bytes
    var leaves: seq<Hash32>
    var total: nat
    ghost var pieces: seq<Bytes>
    ghost var stream: Bytes

    ghost predicate Valid()
      reads this
    {
      && 0 < pieceBytes
      && |piece| < pieceBytes
      && AllFull(pieces, pieceBytes)
      && |pieces| <= MAX_LEAVES
      && leaves == PieceHashes(hash, pieces)
      && stream == Concat(pieces) + piece
      && total == |stream|
    }

    constructor (hash: Bytes -> Hash32, pieceBytes: nat)
      requires pieceBytes > 0
      ensures Valid() && this.hash == hash && this.pieceBytes == pieceBytes && stream == []
    {
      this.hash, this.pieceBytes := hash, pieceBytes;
      piece, leaves, total, pieces, stream := [], [], 0, [], [];
    }

    /** Hashes the current piece; there is room for a limited number only. */
    method Flush() returns (ok: bool)
      requires leaves == PieceHashes(hash, pieces)
      modifies this
      ensures ok <==> |old(pieces)| < MAX_LEAVES
      ensures ok ==> piece == [] && pieces == old(pieces) + [old(piece)] && leaves == PieceHashes(hash, pieces)
      ensures stream == old(stream) && total == old(total)
      ensures !ok ==> pieces == old(pieces)
    {
      if |leaves| >= MAX_LEAVES {
        return false;
      }
      leaves := leaves + [PieceHash(hash, |leaves|, piece)];
      pieces := pieces + [piece];
      piece := [];
      ok := true;
    }

    lemma {:induction false} StreamSize()
      requires Valid()
      ensures |stream| == pieceBytes * |pieces| + |piece| < pieceBytes * (MAX_LEAVES + 1)
    {
      FullOffset(pieces, pieceBytes, |pieces|);
      OffsetEnds(pieces);
      MulMono(pieceBytes, |pieces|, MAX_LEAVES);
    }

    /** Takes bytes that fit into the current piece. */
    method Take(chunk: Bytes) returns (ok: bool)
      requires Valid() && |piece| + |chunk| <= pieceBytes
      modifies this
      ensures ok ==> Valid()
      ensures stream == old(stream) + chunk
      ensures ok <==> |stream| < pieceBytes * (MAX_LEAVES + 1)
    {
      StreamSize();
      piece := piece + chunk;
      stream := stream + chunk;
      assert stream == Concat(pieces) + piece;
      total := total + |chunk|;
      ok := true;
      if |piece| == pieceBytes {
        ConcatAppend(pieces, [piece]);
        ConcatOne(piece);
        ok := Flush();
      }
      if ok {
        assert AllFull(pieces, pieceBytes);
        StreamSize();
      }
    }

    method Append(bytes: Bytes) returns (ok: bool)
      requires Valid()
      modifies this
      ensures ok ==> Valid()
      ensures ok ==> stream == old(stream) + bytes
      ensures ok <==> |old(stream)| + |bytes| < pieceBytes * (MAX_LEAVES + 1)
    {
      var offset := 0;
      while offset < |bytes|
        invariant offset <= |bytes| && Valid()
        invariant stream == old(stream) + bytes[..offset]
      {
        var take := Min(pieceBytes - |piece|, |bytes| - offset);
        assert bytes[..offset + take] == bytes[..offset] + bytes[offset..offset + take];
        ok := Take(bytes[offset..offset + take]);
        offset := offset + take;
        if !ok {
          return;
        }
      }
      StreamSize();
      assert bytes[..|bytes|] == bytes;
      ok := true;
    }

    /** Hashes what is left; afterwards the hashes are those of the stream's pieces. */
    method Finish() returns (ok: bool)
      requires Valid()
      modifies this
      ensures ok <==> PieceCount(|old(stream)|, pieceBytes) <= MAX_LEAVES
      ensures ok ==> leaves == PieceHashes(hash, Pieces(old(stream), pieceBytes))
      ensures total == old(total)
    {
      CutIsPieces(pieces, piece, pieceBytes, stream);
      ok := true;
      if piece != [] {
        ok := Flush();
      }
    }
  }

  // --- Building -----------------------------------------------------------------------------------

  datatype Index = Index(
    first: nat, last: nat, pieceBytes: nat, total: nat, leaves: seq<Hash32>, root: Hash32,
    lastBlockHash: string, offsets: seq<nat>)

  predicate IsDigestHex(s: string) {
    |s| == 64 && forall i: nat :: i < |s| ==> '0' <= s[i] <= '9' || 'a' <= s[i] <= 'f'
  }

  predicate Archivable(block: Option<ArchivedBlock>) {
    block.Some? && 0 < |block.value.blockBytes| <= MAX_BLOCK_BYTES && IsDigestHex(block.value.blockHash)
  }

  /** The offsets are those of the framed blocks, and the total is their length. */
  ghost predicate Describes(x: Index, blocks: seq<Bytes>) {
    && x.first <= x.last && |blocks| == x.last - x.first + 1 == |x.offsets|
    && 0 < x.pieceBytes
    && x.total == |Stream(x.first, blocks)|
    && forall i: nat :: i < |blocks| ==> x.offsets[i] == Offset(Frames(x.first, blocks), i)
  }

  function Fetch(source: nat -> Option<ArchivedBlock>, height: nat): Option<ArchivedBlock> {
    source(height)
  }

  function BlockBytes(block: Option<ArchivedBlock>): Bytes {
    if block.Some? then block.value.blockBytes else []
  }

  ghost function BlocksOf(source: nat -> Option<ArchivedBlock>, first: nat, count: nat): (blocks: seq<Bytes>)
    ensures |blocks| == count && forall i: nat :: i < count ==> blocks[i] == BlockBytes(Fetch(source, first + i))
  {
    seq(count, i requires 0 <= i => BlockBytes(Fetch(source, first + i)))
  }

  lemma {:induction false} FramesAppend(first: nat, blocks: seq<Bytes>, block: Bytes)
    ensures Frames(first, blocks + [block]) == Frames(first, blocks) + [FramedBlock(first + |blocks|, block)]
    ensures Stream(first, blocks + [block]) == Stream(first, blocks) + FramedBlock(first + |blocks|, block)
  {
    var b := blocks + [block];
    assert forall i: nat :: i < |blocks| ==> FrameAt(first, b, i) == FrameAt(first, blocks, i);
    assert Frames(first, b) == Frames(first, blocks) + [FramedBlock(first + |blocks|, block)];
    ConcatAppend(Frames(first, blocks), [FramedBlock(first + |blocks|, block)]);
    ConcatOne(FramedBlock(first + |blocks|, block));
  }

  lemma {:induction false} StreamPrefix(first: nat, blocks: seq<Bytes>, k: nat)
    requires k <= |blocks|
    ensures |Stream(first, blocks[..k])| <= |Stream(first, blocks)|
    ensures Offset(Frames(first, blocks), k) == |Stream(first, blocks[..k])|
  {
    var frames := Frames(first, blocks);
    assert forall i: nat :: i < k ==> FrameAt(first, blocks, i) == FrameAt(first, blocks[..k], i);
    assert frames[..k] == Frames(first, blocks[..k]);
    OffsetMono(frames, k, |blocks|);
    OffsetEnds(frames);
  }

  /** More bytes than the largest tree can hold need more pieces than it has leaves. */
  lemma {:induction false} TooManyPieces(total: nat, pieceBytes: nat)
    requires pieceBytes > 0 && total >= pieceBytes * (MAX_LEAVES + 1)
    ensures PieceCount(total, pieceBytes) > MAX_LEAVES
  {
    Division(total - 1, pieceBytes);
    if (total - 1) / pieceBytes < MAX_LEAVES {
      MulMono(pieceBytes, (total - 1) / pieceBytes + 1, MAX_LEAVES);
    }
  }

  lemma {:induction false} BlockStep(first: nat, blocks: seq<Bytes>, k: nat)
    requires k < |blocks|
    ensures Offset(Frames(first, blocks), k) == |Stream(first, blocks[..k])|
    ensures Stream(first, blocks[..k + 1]) == Stream(first, blocks[..k]) + FramedBlock(first + k, blocks[k])
    ensures |Stream(first, blocks[..k + 1])| <= |Stream(first, blocks)|
  {
    StreamPrefix(first, blocks, k);
    StreamPrefix(first, blocks, k + 1);
    assert blocks[..k + 1] == blocks[..k] + [blocks[k]];
    FramesAppend(first, blocks[..k], blocks[k]);
  }

  ghost predicate AllArchivable(source: nat -> Option<ArchivedBlock>, first: nat, end: nat) {
    forall height: nat :: first <= height < end ==> Archivable(Fetch(source, height))
  }

  const HEX_DIGITS := "0123456789abcdef"

  lemma HexDigitIff(c: char)
    ensures '0' <= c <= '9' || 'a' <= c <= 'f' <==> c in HEX_DIGITS
  {
    if '0' <= c <= '9' {
      assert c == HEX_DIGITS[c as int - '0' as int];
    } else if 'a' <= c <= 'f' {
      assert c == HEX_DIGITS[c as int - 'a' as int + 10];
    }
  }

  /** A block can be archived exactly when it has one to 1048576 bytes and a hash of 64 lower-case
      hexadecimal digits. */
  lemma ArchivableIff(block: ArchivedBlock)
    ensures Archivable(Some(block)) <==>
      && 1 <= |block.blockBytes| <= 1_048_576 && |block.blockHash| == 64
      && forall i: nat :: i < 64 ==> block.blockHash[i] in HEX_DIGITS
  {
    forall c ensures '0' <= c <= '9' || 'a' <= c <= 'f' <==> c in HEX_DIGITS {
      HexDigitIff(c);
    }
  }

  /** One more block extends the stream by its frame. */
  ghost predicate GrowsAt(first: nat, blocks: seq<Bytes>, sofar: seq<Bytes>, k: nat)
    requires |sofar| == |blocks| + 1 && k < |blocks|
  {
    && sofar[k + 1] == sofar[k] + FramedBlock(first + k, blocks[k])
    && |sofar[k + 1]| <= |sofar[|blocks|]|
  }

  /** The stream after each number of blocks. */
  ghost predicate Grows(first: nat, blocks: seq<Bytes>, sofar: seq<Bytes>) {
    && |sofar| == |blocks| + 1 && sofar[0] == []
    && forall k: nat :: k < |blocks| ==> GrowsAt(first, blocks, sofar, k)
  }

  ghost function Prefixes(first: nat, blocks: seq<Bytes>): (sofar: seq<Bytes>)
    ensures |sofar| == |blocks| + 1 && forall k: nat :: k <= |blocks| ==> sofar[k] == Stream(first, blocks[..k])
  {
    seq(|blocks| + 1, k requires 0 <= k <= |blocks| => Stream(first, blocks[..k]))
  }

  lemma {:induction false} PrefixesGrow(first: nat, blocks: seq<Bytes>, sofar: seq<Bytes>)
    requires sofar == Prefixes(first, blocks)
    ensures Grows(first, blocks, sofar)
    ensures sofar[|blocks|] == Stream(first, blocks)
    ensures forall k: nat :: k < |blocks| ==> |sofar[k]| == Offset(Frames(first, blocks), k)
  {
    assert blocks[..|blocks|] == blocks;
    assert Stream(first, blocks[..0]) == [];
    forall k: nat | k < |blocks|
      ensures GrowsAt(first, blocks, sofar, k) && |sofar[k]| == Offset(Frames(first, blocks), k)
    {
      BlockStep(first, blocks, k);
    }
  }

  /** The stream grows by the framed blocks the source has. */
  ghost predicate Feeds(source: nat -> Option<ArchivedBlock>, first: nat, blocks: seq<Bytes>, sofar: seq<Bytes>) {
    && Grows(first, blocks, sofar)
    && forall i: nat :: i < |blocks| ==> blocks[i] == BlockBytes(Fetch(source, first + i))
  }

  /** Feeds one framed block into the accumulator and says where it starts. */
  method AppendBlock(pieces: PieceAccumulator, first: nat, k: nat, source: nat -> Option<ArchivedBlock>,
    ghost blocks: seq<Bytes>, ghost sofar: seq<Bytes>) returns (ok: bool, offset: nat)
    requires pieces.Valid() && Feeds(source, first, blocks, sofar) && k < |blocks| && pieces.stream == sofar[k]
    modifies pieces
    ensures ok ==> Archivable(Fetch(source, first + k)) && offset == |sofar[k]|
    ensures ok ==> pieces.Valid() && pieces.stream == sofar[k + 1]
    ensures !ok ==> !Archivable(Fetch(source, first + k)) || PieceCount(|sofar[|blocks|]|, pieces.pieceBytes) > MAX_LEAVES
  {
    var block := Fetch(source, first + k);
    if !Archivable(block) {
      return false, 0;
    }
    offset := pieces.total;
    assert GrowsAt(first, blocks, sofar, k);
    ok := pieces.Append(FramedBlock(first + k, block.value.blockBytes));
    if !ok {
      TooManyPieces(|sofar[|blocks|]|, pieces.pieceBytes);
    }
  }

  /** Feeds the framed blocks into the accumulator, noting where each starts. */
  method Collect(pieces: PieceAccumulator, first: nat, count: nat, source: nat -> Option<ArchivedBlock>,
    ghost blocks: seq<Bytes>, ghost sofar: seq<Bytes>) returns (ok: bool, offsets: seq<nat>)
    requires |blocks| == count && Feeds(source, first, blocks, sofar)
    requires pieces.Valid() && pieces.stream == []
    modifies pieces
    ensures ok ==> pieces.Valid() && pieces.stream == sofar[count] && AllArchivable(source, first, first + count)
    ensures ok ==> |offsets| == count && (forall i: nat :: i < count ==> offsets[i] == |sofar[i]|)
    ensures !ok ==>
      !AllArchivable(source, first, first + count) || PieceCount(|sofar[count]|, pieces.pieceBytes) > MAX_LEAVES
  {
    ok, offsets := true, [];
    for k := 0 to count
      invariant pieces.Valid() && pieces.stream == sofar[k] && AllArchivable(source, first, first + k)
      invariant ok && |offsets| == k && forall i: nat :: i < k ==> offsets[i] == |sofar[i]|
    {
      var offset;
      ok, offset := AppendBlock(pieces, first, k, source, blocks, sofar);
      if !ok {
        return;
      }
      offsets := offsets + [offset];
    }
  }

  /** The segment is built exactly when every block is present and well-formed and the pieces
      fit one tree. The index then describes those blocks, and its hashes are the leaves of
      the tree over the stream's pieces. */
  method Build(hash: Bytes -> Hash32, first: nat, last: nat, pieceBytes: nat, source: nat -> Option<ArchivedBlock>)
    returns (r: Option<Index>)
    requires first <= last && pieceBytes > 0
    ensures r.Some? <==>
      && AllArchivable(source, first, last + 1)
      && PieceCount(|Stream(first, BlocksOf(source, first, last - first + 1))|, pieceBytes) <= MAX_LEAVES
    ensures r.Some? ==>
      && Describes(r.value, BlocksOf(source, first, last - first + 1))
      && r.value.first == first && r.value.last == last && r.value.pieceBytes == pieceBytes
      && r.value.leaves == PieceHashes(hash, Pieces(Stream(first, BlocksOf(source, first, last - first + 1)), pieceBytes))
      && Some(r.value.root) == RootFromLeafHashes(hash, ARCHIVE, r.value.leaves)
      && r.value.lastBlockHash == Fetch(source, last).value.blockHash
  {
    ghost var blocks := BlocksOf(source, first, last - first + 1);
    var pieces := new PieceAccumulator(hash, pieceBytes);
    ghost var sofar := Prefixes(first, blocks);
    PrefixesGrow(first, blocks, sofar);
    var ok, offsets := Collect(pieces, first, last - first + 1, source, blocks, sofar);
    if !ok {
      return None;
    }
    ok := pieces.Finish();
    if !ok {
      return None;
    }
    var root := RootFromLeafHashes(hash, ARCHIVE, pieces.leaves);
    assert Archivable(Fetch(source, last));
    var lastBlockHash := Fetch(source, last).value.blockHash;
    r := Some(Index(first, last, pieceBytes, pieces.total, pieces.leaves, root.value, lastBlockHash, offsets));
  }

  // --- Reading --------------------------------------------------------------------------------------

  /** The last position whose offset is not beyond `start`. */
  method LastNotAfter(offsets: seq<nat>, start: nat) returns (b: nat)
    requires offsets != [] && offsets[0] <= start
    requires forall i: nat, j: nat :: i <= j < |offsets| ==> offsets[i] <= offsets[j]
    ensures b < |offsets| && offsets[b] <= start
    ensures b + 1 < |offsets| ==> start < offsets[b + 1]
  {
    var lo, hi := 0, |offsets|;
    while lo + 1 < hi
      invariant lo < hi <= |offsets| && offsets[lo] <= start
      invariant hi < |offsets| ==> start < offsets[hi]
    {
      var mid := (lo + hi) / 2;
      if offsets[mid] <= start {
        lo := mid;
      } else {
        hi := mid;
      }
    }
    b := lo;
  }

  /** The source still has the block, with its length unchanged. */
  ghost predicate Present(source: nat -> Option<ArchivedBlock>, first: nat, blocks: seq<Bytes>, i: nat)
    requires i < |blocks|
  {
    Fetch(source, first + i).Some? && |Fetch(source, first + i).value.blockBytes| == |blocks[i]|
  }

  /** The blocks as the source has them now, where present. */
  ghost function Served(source: nat -> Option<ArchivedBlock>, first: nat, blocks: seq<Bytes>): seq<Bytes> {
    seq(|blocks|, i requires 0 <= i < |blocks| =>
      if Present(source, first, blocks, i) then Fetch(source, first + i).value.blockBytes else blocks[i])
  }

  ghost predicate Overlaps(frames: seq<Bytes>, i: nat, start: nat, end: int)
    requires i < |frames|
  {
    Offset(frames, i) < end && start < Offset(frames, i + 1)
  }

  lemma {:induction false} SameLengthsSameOffsets(parts: seq<Bytes>, others: seq<Bytes>, i: nat)
    requires |parts| == |others| && i <= |parts|
    requires forall k: nat :: k < |parts| ==> |parts[k]| == |others[k]|
    ensures Offset(parts, i) == Offset(others, i)
  {
    if i > 0 {
      SameLengthsSameOffsets(parts, others, i - 1);
      OffsetStep(parts, i - 1);
      OffsetStep(others, i - 1);
    }
  }

  lemma {:induction false} ServedFrames(source: nat -> Option<ArchivedBlock>, first: nat, blocks: seq<Bytes>, i: nat)
    requires i <= |blocks|
    ensures Offset(Frames(first, Served(source, first, blocks)), i) == Offset(Frames(first, blocks), i)
    ensures |Stream(first, Served(source, first, blocks))| == |Stream(first, blocks)|
  {
    var parts, others := Frames(first, Served(source, first, blocks)), Frames(first, blocks);
    forall k: nat | k < |parts| ensures |parts[k]| == |others[k]| {
      assert parts[k] == FramedBlock(first + k, Served(source, first, blocks)[k]);
    }
    SameLengthsSameOffsets(parts, others, i);
    SameLengthsSameOffsets(parts, others, |parts|);
    OffsetEnds(parts);
    OffsetEnds(others);
  }

  /** How served block `i` lies in the stream: from `off[i]` up to `off[i + 1]`. */
  ghost predicate LaidAt(
    source: nat -> Option<ArchivedBlock>, x: Index, blocks: seq<Bytes>, off: seq<nat>, stream: Bytes, i: nat)
    requires |off| == |blocks| + 1 && i < |blocks|
  {
    && off[i + 1] == off[i] + FRAMING + |blocks[i]| <= |stream|
    && (Present(source, x.first, blocks, i) ==>
          stream[off[i]..off[i + 1]] == FramedBlock(x.first + i, Fetch(source, x.first + i).value.blockBytes))
  }

  ghost predicate Laid(source: nat -> Option<ArchivedBlock>, x: Index, blocks: seq<Bytes>, off: seq<nat>, stream: Bytes) {
    && |off| == |blocks| + 1 && |x.offsets| == |blocks| > 0
    && off[0] == 0 && off[|blocks|] == x.total == |stream|
    && (forall i: nat :: i < |blocks| ==> x.offsets[i] == off[i])
    && (forall i: nat :: i < |blocks| ==> LaidAt(source, x, blocks, off, stream, i))
  }

  ghost function OffsetsOf(frames: seq<Bytes>): (off: seq<nat>)
    ensures |off| == |frames| + 1 && forall i: nat :: i <= |frames| ==> off[i] == Offset(frames, i)
  {
    seq(|frames| + 1, i requires 0 <= i <= |frames| => Offset(frames, i))
  }

  lemma {:induction false} BlockInStream(source: nat -> Option<ArchivedBlock>, first: nat, blocks: seq<Bytes>, i: nat,
    frames: seq<Bytes>, from: nat, to: nat, stream: Bytes)
    requires i < |blocks| && frames == Frames(first, Served(source, first, blocks)) && stream == Concat(frames)
    requires from == Offset(Frames(first, blocks), i) && to == Offset(Frames(first, blocks), i + 1)
    ensures to == from + FRAMING + |blocks[i]| <= |stream| && stream[from..to] == frames[i]
  {
    ServedFrames(source, first, blocks, i);
    OffsetStep(Frames(first, blocks), i);
    ServedLength(source, first, blocks, i);
    PartInStream(frames, i);
  }

  lemma {:induction false} ServedLength(source: nat -> Option<ArchivedBlock>, first: nat, blocks: seq<Bytes>, i: nat)
    requires i < |blocks|
    ensures |Frames(first, Served(source, first, blocks))[i]| == |Frames(first, blocks)[i]| == FRAMING + |blocks[i]|
  {
    assert Frames(first, Served(source, first, blocks))[i] == FramedBlock(first + i, Served(source, first, blocks)[i]);
  }

  lemma {:induction false} BlockLaid(
    source: nat -> Option<ArchivedBlock>, x: Index, blocks: seq<Bytes>, off: seq<nat>, stream: Bytes, i: nat)
    requires i < |blocks| && off == OffsetsOf(Frames(x.first, blocks))
    requires stream == Stream(x.first, Served(source, x.first, blocks))
    ensures LaidAt(source, x, blocks, off, stream, i)
  {
    var frames := Frames(x.first, Served(source, x.first, blocks));
    BlockInStream(source, x.first, blocks, i, frames, off[i], off[i + 1], stream);
    assert frames[i] == FrameAt(x.first, Served(source, x.first, blocks), i);
  }

  lemma {:induction false} LaidOut(
    source: nat -> Option<ArchivedBlock>, x: Index, blocks: seq<Bytes>, off: seq<nat>, stream: Bytes)
    requires Describes(x, blocks)
    requires off == OffsetsOf(Frames(x.first, blocks)) && stream == Stream(x.first, Served(source, x.first, blocks))
    ensures Laid(source, x, blocks, off, stream)
  {
    OffsetEnds(Frames(x.first, blocks));
    ServedFrames(source, x.first, blocks, 0);
    forall i: nat | i < |blocks| ensures LaidAt(source, x, blocks, off, stream, i) {
      BlockLaid(source, x, blocks, off, stream, i);
    }
  }

  lemma {:induction false} LaidInOrder(
    source: nat -> Option<ArchivedBlock>, x: Index, blocks: seq<Bytes>, off: seq<nat>, stream: Bytes,
    i: nat, j: nat)
    requires Laid(source, x, blocks, off, stream) && i <= j <= |blocks|
    ensures off[i] <= off[j]
    decreases j
  {
    if i < j {
      LaidInOrder(source, x, blocks, off, stream, i, j - 1);
      assert LaidAt(source, x, blocks, off, stream, j - 1);
    }
  }

  /** The part of one overlapping block that lies inside the range, if the block is present. */
  method ReadBlock(x: Index, b: nat, start: nat, end: nat, source: nat -> Option<ArchivedBlock>,
    ghost blocks: seq<Bytes>, ghost off: seq<nat>, ghost stream: Bytes) returns (ok: bool, part: Bytes)
    requires Laid(source, x, blocks, off, stream) && start < end <= x.total
    requires b < |blocks| && off[b] < end && start < off[b + 1]
    ensures ok <==> Present(source, x.first, blocks, b)
    ensures off[b] <= off[b + 1] <= |stream|
    ensures ok ==> part == stream[Max(start, off[b])..Min(end, off[b + 1])]
  {
    assert LaidAt(source, x, blocks, off, stream, b);
    var archived := Fetch(source, x.first + b);
    if archived.None? {
      return false, [];
    }
    var framed := FramedBlock(x.first + b, archived.value.blockBytes);
    var blockStart := x.offsets[b];
    var blockEnd := if b + 1 < |x.offsets| then x.offsets[b + 1] else x.total;
    if blockEnd - blockStart != |framed| {
      return false, [];
    }
    var lo, hi := Max(start, blockStart) - blockStart, Min(end, blockEnd) - blockStart;
    SliceOfSlice(stream, blockStart, blockEnd, lo, hi);
    ok, part := true, framed[lo..hi];
  }

  lemma {:induction false} SliceOfSlice(stream: Bytes, from: nat, to: nat, lo: nat, hi: nat)
    requires from <= to <= |stream| && lo <= hi <= to - from
    ensures stream[from..to][lo..hi] == stream[from + lo..from + hi]
  {
    var a, b := stream[from..to][lo..hi], stream[from + lo..from + hi];
    assert |a| == |b|;
    forall i: nat | i < |a| ensures a[i] == b[i] {
      assert a[i] == stream[from..to][lo + i];
    }
  }

  /** Reads block after block from the one that holds the start until the range is full; stops
      at a block that is missing or changed its length. */
  method ReadBlocks(x: Index, from: nat, start: nat, end: nat, source: nat -> Option<ArchivedBlock>,
    ghost blocks: seq<Bytes>, ghost off: seq<nat>, ghost stream: Bytes) returns (ok: bool, piece: Bytes, b: nat)
    requires Laid(source, x, blocks, off, stream) && start < end <= x.total
    requires from < |blocks| && off[from] <= start < off[from + 1]
    ensures from <= b <= |blocks|
    ensures ok ==> end <= off[b] && piece == stream[start..end]
    ensures ok ==> forall i: nat :: from <= i < b ==> Present(source, x.first, blocks, i)
    ensures !ok ==> b < |blocks| && off[b] < end && start < off[b + 1] && !Present(source, x.first, blocks, b)
  {
    ok, piece, b := true, [], from;
    ghost var reached := start;
    while |piece| < end - start
      invariant ok && from <= b <= |blocks|
      invariant reached == if b == from then start else Min(end, off[b])
      invariant start <= reached <= end && piece == stream[start..reached]
      invariant b < |blocks| ==> start < off[b + 1]
      invariant forall i: nat :: from <= i < b ==> Present(source, x.first, blocks, i)
      decreases |blocks| - b
    {
      var part;
      ok, part := ReadBlock(x, b, start, end, source, blocks, off, stream);
      if !ok {
        return;
      }
      if b + 1 < |blocks| {
        assert LaidAt(source, x, blocks, off, stream, b + 1);
      }
      assert stream[start..reached] + part == stream[start..Min(end, off[b + 1])];
      reached := Min(end, off[b + 1]);
      piece, b := piece + part, b + 1;
    }
  }

  method ReadRange(x: Index, start: nat, end: nat, source: nat -> Option<ArchivedBlock>,
    ghost blocks: seq<Bytes>, ghost off: seq<nat>, ghost stream: Bytes) returns (r: Option<Bytes>)
    requires Laid(source, x, blocks, off, stream) && start < end <= x.total
    ensures r.Some? <==>
      forall i: nat :: i < |blocks| && off[i] < end && start < off[i + 1] ==> Present(source, x.first, blocks, i)
    ensures r.Some? ==> r.value == stream[start..end]
  {
    forall i: nat, j: nat | i <= j < |x.offsets| ensures x.offsets[i] <= x.offsets[j] {
      LaidInOrder(source, x, blocks, off, stream, i, j);
    }
    var from := LastNotAfter(x.offsets, start);
    var ok, piece, to := ReadBlocks(x, from, start, end, source, blocks, off, stream);
    if !ok {
      return None;
    }
    forall i: nat | i < |blocks|
      ensures off[i] < end && start < off[i + 1] ==> Present(source, x.first, blocks, i)
    {
      if i < from {
        LaidInOrder(source, x, blocks, off, stream, i + 1, from);
      } else if to <= i {
        LaidInOrder(source, x, blocks, off, stream, to, i);
      }
    }
    r := Some(piece);
  }

  /** Every block that a piece overlaps is present with its length unchanged. */
  ghost predicate Readable(x: Index, blocks: seq<Bytes>, source: nat -> Option<ArchivedBlock>, pieceIndex: nat)
    requires x.pieceBytes > 0
  {
    forall i: nat :: i < |blocks|
      && Overlaps(Frames(x.first, blocks), i, x.pieceBytes * pieceIndex,
           x.pieceBytes * pieceIndex + PieceLength(x.total, x.pieceBytes, pieceIndex))
      ==> Present(source, x.first, blocks, i)
  }

  /** One piece out of the blocks it overlaps: it is read exactly when each of those is present
      with its length unchanged, and is then that slice of the stream of the blocks now served. */
  method ReadPiece(x: Index, pieceIndex: nat, source: nat -> Option<ArchivedBlock>, ghost blocks: seq<Bytes>)
    returns (r: Option<Bytes>)
    requires Describes(x, blocks)
    ensures |Stream(x.first, Served(source, x.first, blocks))| == x.total
    ensures r.Some? <==>
      pieceIndex < PieceCount(x.total, x.pieceBytes) && Readable(x, blocks, source, pieceIndex)
    ensures r.Some? ==> r.value == Piece(Stream(x.first, Served(source, x.first, blocks)), x.pieceBytes, pieceIndex)
  {
    ghost var off, stream := OffsetsOf(Frames(x.first, blocks)), Stream(x.first, Served(source, x.first, blocks));
    LaidOut(source, x, blocks, off, stream);
    if pieceIndex >= PieceCount(x.total, x.pieceBytes) {
      return None;
    }
    PieceFits(x.total, x.pieceBytes, pieceIndex);
    var length := PieceLength(x.total, x.pieceBytes, pieceIndex);
    var start := x.pieceBytes * pieceIndex;
    r := ReadRange(x, start, start + length, source, blocks, off, stream);
  }
}
