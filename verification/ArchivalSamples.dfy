/** Answering a storage challenge: the challenged pieces are read back, proved against the
    segment's root, and checked. */
module ArchivalSamples {
  import opened Wrappers
  import opened V1Encoding
  import opened MerkleBinding
  import opened SplitTree
  import opened V1Merkle
  import opened V1Proofs
  import opened SegmentStream
  import opened ArchiveSegment

  datatype Sample = Sample(pieceIndex: nat, piece: Bytes, siblings: seq<Hash32>)

  /** The index was built from these blocks. */
  ghost predicate BuiltFrom(hash: Bytes -> Hash32, x: Index, blocks: seq<Bytes>) {
    && Describes(x, blocks)
    && x.leaves == PieceHashes(hash, Pieces(Stream(x.first, blocks), x.pieceBytes))
    && Some(x.root) == RootFromLeafHashes(hash, ARCHIVE, x.leaves)
  }

  /** The index's leaves and root are those of the tree over the stream's pieces. */
  lemma {:induction false} LeavesAreTree(hash: Bytes -> Hash32, x: Index, blocks: seq<Bytes>, pieces: seq<Bytes>)
    requires BuiltFrom(hash, x, blocks) && pieces == Pieces(Stream(x.first, blocks), x.pieceBytes)
    ensures x.leaves == LeafHashes(V1Scheme(hash, ARCHIVE), pieces) && Root(hash, ARCHIVE, pieces) == Some(x.root)
    ensures |x.leaves| == |pieces| == PieceCount(x.total, x.pieceBytes) <= MAX_LEAVES
  {
    var leaves := LeafHashes(V1Scheme(hash, ARCHIVE), pieces);
    assert |x.leaves| == |leaves| && forall i: nat :: i < |leaves| ==> x.leaves[i] == leaves[i];
  }

  function PathOf(x: Index, sample: Sample): InclusionProof {
    InclusionProof(sample.pieceIndex, |x.leaves|, sample.siblings)
  }

  /** A sample answers for the challenged piece. */
  predicate SampleHolds(hash: Bytes -> Hash32, x: Index, pieceIndex: nat, sample: Sample)
    requires x.pieceBytes > 0
  {
    && sample.pieceIndex == pieceIndex
    && |sample.piece| == PieceLength(x.total, x.pieceBytes, pieceIndex)
    && Verify(hash, ARCHIVE, x.root, PathOf(x, sample), sample.piece)
  }

  predicate SamplesHold(hash: Bytes -> Hash32, x: Index, indices: seq<nat>, samples: seq<Sample>)
    requires x.pieceBytes > 0
  {
    |samples| == |indices| && forall k: nat :: k < |indices| ==> SampleHolds(hash, x, indices[k], samples[k])
  }

  /** The check of a proof's samples stops at the first that fails. */
  method CheckSamples(hash: Bytes -> Hash32, x: Index, indices: seq<nat>, samples: seq<Sample>) returns (ok: bool)
    requires x.pieceBytes > 0
    ensures ok <==> SamplesHold(hash, x, indices, samples)
  {
    if |samples| != |indices| {
      return false;
    }
    for k := 0 to |samples|
      invariant forall j: nat :: j < k ==> SampleHolds(hash, x, indices[j], samples[j])
    {
      if samples[k].pieceIndex != indices[k] {
        return false;
      }
      if |samples[k].piece| != PieceLength(x.total, x.pieceBytes, samples[k].pieceIndex)
         || !Verify(hash, ARCHIVE, x.root, PathOf(x, samples[k]), samples[k].piece)
      {
        return false;
      }
    }
    ok := true;
  }

  // --- What an accepted sample shows ------------------------------------------------------------------

  ghost predicate SampleCollides(hash: Bytes -> Hash32, pieces: seq<Bytes>, x: Index, sample: Sample)
    requires sample.pieceIndex < |x.leaves| <= MAX_LEAVES
  {
    Collides(hash, RootInputs(hash, ARCHIVE, pieces), ProofInputs(hash, ARCHIVE, PathOf(x, sample), sample.piece))
  }

  /** An accepted sample is exactly the challenged piece of the archived stream, with the siblings
      of the built tree; otherwise two hashed inputs collide. */
  lemma {:induction false} AcceptedSampleIsArchived(
    hash: Bytes -> Hash32, x: Index, blocks: seq<Bytes>, pieceIndex: nat, sample: Sample, stream: Bytes)
    requires BuiltFrom(hash, x, blocks) && SampleHolds(hash, x, pieceIndex, sample) && stream == Stream(x.first, blocks)
    ensures pieceIndex < PieceCount(|stream|, x.pieceBytes) == |x.leaves|
    ensures
      || sample == Sample(pieceIndex, Piece(stream, x.pieceBytes, pieceIndex),
           HonestProof(hash, ARCHIVE, x.leaves, pieceIndex).siblings)
      || SampleCollides(hash, Pieces(stream, x.pieceBytes), x, sample)
  {
    var pieces := Pieces(stream, x.pieceBytes);
    LeavesAreTree(hash, x, blocks, pieces);
    AcceptedProofIsHonest(hash, ARCHIVE, pieces, x.leaves, PathOf(x, sample), sample.piece);
  }

  // --- What the provider answers ----------------------------------------------------------------------

  /** The honest answer for a piece of the stream. */
  function Answer(hash: Bytes -> Hash32, x: Index, stream: Bytes, pieceIndex: nat): Sample
    requires x.pieceBytes > 0 && pieceIndex < PieceCount(|stream|, x.pieceBytes) && pieceIndex < |x.leaves|
  {
    Sample(pieceIndex, Piece(stream, x.pieceBytes, pieceIndex), HonestProof(hash, ARCHIVE, x.leaves, pieceIndex).siblings)
  }

  ghost predicate Answers(hash: Bytes -> Hash32, x: Index, stream: Bytes, pieceIndex: nat, sample: Sample)
    requires x.pieceBytes > 0
  {
    && pieceIndex < PieceCount(|stream|, x.pieceBytes) && pieceIndex < |x.leaves|
    && sample == Answer(hash, x, stream, pieceIndex)
  }

  ghost predicate Available(x: Index, blocks: seq<Bytes>, source: nat -> Option<ArchivedBlock>, pieceIndex: nat)
    requires x.pieceBytes > 0
  {
    pieceIndex < |x.leaves| && Readable(x, blocks, source, pieceIndex)
  }

  method ReadSample(hash: Bytes -> Hash32, x: Index, path: InclusionProof, pieceIndex: nat,
    source: nat -> Option<ArchivedBlock>, ghost blocks: seq<Bytes>, ghost stream: Bytes) returns (r: Option<Sample>)
    requires BuiltFrom(hash, x, blocks) && stream == Stream(x.first, Served(source, x.first, blocks))
    requires pieceIndex < |x.leaves| && path == HonestProof(hash, ARCHIVE, x.leaves, pieceIndex)
    ensures r.Some? <==> Available(x, blocks, source, pieceIndex)
    ensures r.Some? ==> Answers(hash, x, stream, pieceIndex, r.value)
  {
    var piece := ReadPiece(x, pieceIndex, source, blocks);
    LeavesAreTree(hash, x, blocks, Pieces(Stream(x.first, blocks), x.pieceBytes));
    r := if piece.None? then None else Some(Sample(pieceIndex, piece.value, path.siblings));
  }

  ghost predicate IsPath(hash: Bytes -> Hash32, x: Index, pieceIndex: nat, path: InclusionProof) {
    pieceIndex < |x.leaves| && path == HonestProof(hash, ARCHIVE, x.leaves, pieceIndex)
  }

  /** The samples so far answer the first challenged pieces. */
  ghost predicate AnswersAll(hash: Bytes -> Hash32, x: Index, stream: Bytes, indices: seq<nat>, samples: seq<Sample>)
    requires x.pieceBytes > 0
  {
    |samples| <= |indices| && forall k: nat :: k < |samples| ==> Answers(hash, x, stream, indices[k], samples[k])
  }

  ghost predicate AllAvailable(x: Index, blocks: seq<Bytes>, source: nat -> Option<ArchivedBlock>, indices: seq<nat>, n: nat)
    requires x.pieceBytes > 0 && n <= |indices|
  {
    forall k: nat :: k < n ==> Available(x, blocks, source, indices[k])
  }

  lemma AnswersMore(hash: Bytes -> Hash32, x: Index, stream: Bytes, indices: seq<nat>, samples: seq<Sample>, sample: Sample)
    requires x.pieceBytes > 0 && AnswersAll(hash, x, stream, indices, samples) && |samples| < |indices|
    requires Answers(hash, x, stream, indices[|samples|], sample)
    ensures AnswersAll(hash, x, stream, indices, samples + [sample])
  {
  }

  method ReadSamples(hash: Bytes -> Hash32, x: Index, paths: seq<InclusionProof>, indices: seq<nat>,
    source: nat -> Option<ArchivedBlock>, ghost blocks: seq<Bytes>, ghost stream: Bytes) returns (r: Option<seq<Sample>>)
    requires BuiltFrom(hash, x, blocks) && stream == Stream(x.first, Served(source, x.first, blocks))
    requires |paths| == |indices| && forall k: nat :: k < |indices| ==> IsPath(hash, x, indices[k], paths[k])
    ensures r.Some? <==> AllAvailable(x, blocks, source, indices, |indices|)
    ensures r.Some? ==> |r.value| == |indices| && AnswersAll(hash, x, stream, indices, r.value)
  {
    var samples: seq<Sample> := [];
    for k := 0 to |indices|
      invariant |samples| == k && AllAvailable(x, blocks, source, indices, k)
      invariant AnswersAll(hash, x, stream, indices, samples)
    {
      assert IsPath(hash, x, indices[k], paths[k]);
      var sample := ReadSample(hash, x, paths[k], indices[k], source, blocks, stream);
      if sample.None? {
        return None;
      }
      AnswersMore(hash, x, stream, indices, samples, sample.value);
      samples := samples + [sample.value];
    }
    r := Some(samples);
  }

  /** The provider's samples come out exactly when every challenged piece exists and is readable,
      and are then the answers for the stream of the blocks it serves now. */
  method BuildSamples(hash: Bytes -> Hash32, x: Index, indices: seq<nat>, source: nat -> Option<ArchivedBlock>,
    ghost blocks: seq<Bytes>, ghost stream: Bytes) returns (r: Option<seq<Sample>>)
    requires BuiltFrom(hash, x, blocks) && stream == Stream(x.first, Served(source, x.first, blocks))
    ensures r.Some? <==> x.leaves != [] && AllAvailable(x, blocks, source, indices, |indices|)
    ensures r.Some? ==> |r.value| == |indices| && AnswersAll(hash, x, stream, indices, r.value)
  {
    LeavesAreTree(hash, x, blocks, Pieces(Stream(x.first, blocks), x.pieceBytes));
    var paths := Prove(hash, ARCHIVE, x.leaves, indices);
    if paths.None? {
      return None;
    }
    r := ReadSamples(hash, x, paths.value, indices, source, blocks, stream);
  }

  /** The source still has every archived block, byte for byte. */
  ghost predicate Unchanged(source: nat -> Option<ArchivedBlock>, first: nat, blocks: seq<Bytes>) {
    forall i: nat :: i < |blocks| ==> UnchangedAt(source, first, blocks, i)
  }

  ghost predicate UnchangedAt(source: nat -> Option<ArchivedBlock>, first: nat, blocks: seq<Bytes>, i: nat)
    requires i < |blocks|
  {
    Fetch(source, first + i).Some? && Fetch(source, first + i).value.blockBytes == blocks[i]
  }

  lemma {:induction false} UnchangedIsServed(source: nat -> Option<ArchivedBlock>, first: nat, blocks: seq<Bytes>)
    requires Unchanged(source, first, blocks)
    ensures Served(source, first, blocks) == blocks
    ensures forall i: nat :: i < |blocks| ==> Present(source, first, blocks, i)
  {
    var served := Served(source, first, blocks);
    forall i: nat | i < |blocks| ensures Present(source, first, blocks, i) && served[i] == blocks[i] {
      assert UnchangedAt(source, first, blocks, i);
    }
    assert served == blocks;
  }

  lemma {:induction false} PieceHasLength(stream: Bytes, pieceBytes: nat, i: nat)
    requires pieceBytes > 0 && i < PieceCount(|stream|, pieceBytes)
    ensures |Piece(stream, pieceBytes, i)| == PieceLength(|stream|, pieceBytes, i)
  {
    PieceFits(|stream|, pieceBytes, i);
  }

  /** The honest answer for the archived stream is accepted. */
  lemma {:induction false} AnswerHolds(
    hash: Bytes -> Hash32, x: Index, blocks: seq<Bytes>, pieceIndex: nat, stream: Bytes, sample: Sample)
    requires BuiltFrom(hash, x, blocks) && stream == Stream(x.first, blocks) && Answers(hash, x, stream, pieceIndex, sample)
    ensures SampleHolds(hash, x, pieceIndex, sample)
  {
    var pieces := Pieces(stream, x.pieceBytes);
    LeavesAreTree(hash, x, blocks, pieces);
    PieceHasLength(stream, x.pieceBytes, pieceIndex);
    HonestProofVerifies(hash, ARCHIVE, pieces, x.leaves, pieceIndex);
    assert PathOf(x, sample) == HonestProof(hash, ARCHIVE, x.leaves, pieceIndex);
    assert pieces[pieceIndex] == sample.piece;
  }

  /** From archive to verdict: a provider whose blocks are unchanged can answer every challenge on
      the segment, and its samples are accepted. */
  method AnswerChallenge(hash: Bytes -> Hash32, x: Index, indices: seq<nat>, source: nat -> Option<ArchivedBlock>,
    ghost blocks: seq<Bytes>) returns (samples: seq<Sample>)
    requires BuiltFrom(hash, x, blocks) && Unchanged(source, x.first, blocks)
    requires x.leaves != [] && forall k: nat :: k < |indices| ==> indices[k] < |x.leaves|
    ensures SamplesHold(hash, x, indices, samples)
  {
    UnchangedIsServed(source, x.first, blocks);
    var r := BuildSamples(hash, x, indices, source, blocks, Stream(x.first, blocks));
    forall k: nat | k < |indices| ensures SampleHolds(hash, x, indices[k], r.value[k]) {
      AnswerHolds(hash, x, blocks, indices[k], Stream(x.first, blocks), r.value[k]);
    }
    samples := r.value;
  }

  /** A provider that serves changed blocks of unchanged length is found out on every piece the
      change reaches: its answer is accepted exactly when the piece is still the archived one, or
      two hashed inputs collide. */
  lemma {:induction false} ChangedPieceIsRefused(
    hash: Bytes -> Hash32, x: Index, blocks: seq<Bytes>, pieceIndex: nat, stream: Bytes, served: Bytes)
    requires BuiltFrom(hash, x, blocks) && stream == Stream(x.first, blocks) && |served| == |stream|
    requires pieceIndex < |x.leaves| && pieceIndex < PieceCount(|stream|, x.pieceBytes)
    ensures
      || (SampleHolds(hash, x, pieceIndex, Answer(hash, x, served, pieceIndex)) <==>
            Piece(served, x.pieceBytes, pieceIndex) == Piece(stream, x.pieceBytes, pieceIndex))
      || (|x.leaves| <= MAX_LEAVES
          && SampleCollides(hash, Pieces(stream, x.pieceBytes), x, Answer(hash, x, served, pieceIndex)))
  {
    var sample := Answer(hash, x, served, pieceIndex);
    LeavesAreTree(hash, x, blocks, Pieces(stream, x.pieceBytes));
    if SampleHolds(hash, x, pieceIndex, sample) {
      AcceptedSampleIsArchived(hash, x, blocks, pieceIndex, sample, stream);
    } else if Piece(served, x.pieceBytes, pieceIndex) == Piece(stream, x.pieceBytes, pieceIndex) {
      AnswerHolds(hash, x, blocks, pieceIndex, stream, sample);
    }
  }
}
