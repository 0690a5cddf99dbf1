/** Blocks, their hash linkage, and what a shared block hash says about two chains. */
module Chain {
  import opened Text
  import opened Quorum

  predicate IsHex(s: string) {
    |s| == 64 && forall c :: c in s ==> '0' <= c <= '9' || 'a' <= c <= 'f'
  }

  /** A SHA-256 hash in hexadecimal. */
  type Digest = s: string | IsHex(s) witness seq(64, _ => '0')

  const GENESIS := "GENESIS"
  const SNAPSHOT := "SNAPSHOT"

  /** `commitments` is the rest of the header: record count, record root, state and receipt
      roots. `recordsOk` says that the records are present, valid and within the size limits. */
  datatype Block = Block(
    index: nat, previousHash: string, hash: string, timestamp: int, commitments: string, recordsOk: bool)

  function SignedDecimal(n: int): string {
    if n < 0 then "-" + Decimal(-n) else Decimal(n)
  }

  function HeaderRest(b: Block): string {
    "timestamp=" + SignedDecimal(b.timestamp) + ";" + b.commitments + "}"
  }

  function Header(b: Block): string {
    "BlockHeader{index=" + (Decimal(b.index) + ";" + ("previousHash=" + (b.previousHash + ";" + HeaderRest(b))))
  }

  predicate ValidBlock(h: string -> Digest, b: Block) {
    && b.previousHash != "" && b.hash != ""
    && (b.recordsOk || b.previousHash == SNAPSHOT)
    && b.timestamp > 0
    && (b.previousHash != SNAPSHOT ==> b.hash == h(Header(b)))
    && (b.index == 0 ==> b.previousHash == GENESIS)
    && (b.index > 0 ==> b.previousHash != GENESIS)
  }

  predicate IsGenesis(b: Block) {
    b.index == 0 && b.previousHash == GENESIS
  }

  predicate ValidNext(h: string -> Digest, p: Block, b: Block) {
    && ValidBlock(h, p) && ValidBlock(h, b)
    && !IsGenesis(b)
    && p.index != UINT64_MAX && b.index == p.index + 1
    && b.previousHash == p.hash
    && b.timestamp > p.timestamp
  }

  /** A chain starts at genesis or at a snapshot boundary. */
  predicate ValidChain(h: string -> Digest, chain: seq<Block>) {
    && chain != []
    && (chain[0].previousHash != SNAPSHOT ==> ValidBlock(h, chain[0]) && IsGenesis(chain[0]))
    && forall i: nat :: 0 < i < |chain| ==> ValidNext(h, chain[i - 1], chain[i])
  }

  predicate CanAppend(h: string -> Digest, chain: seq<Block>, b: Block) {
    if chain == [] then ValidBlock(h, b) && IsGenesis(b) else ValidNext(h, chain[|chain| - 1], b)
  }

  lemma AppendKeepsValid(h: string -> Digest, chain: seq<Block>, b: Block)
    requires ValidChain(h, chain) && CanAppend(h, chain, b)
    ensures ValidChain(h, chain + [b])
  {
  }

  /** Heights follow positions. */
  lemma {:induction false} IndexAt(h: string -> Digest, chain: seq<Block>, i: nat)
    requires ValidChain(h, chain) && i < |chain|
    ensures chain[i].index == chain[0].index + i
  {
    if i > 0 {
      IndexAt(h, chain, i - 1);
    }
  }

  /** In a chain from height zero, every block but a lone snapshot boundary carries its own
      header's hash, and links to a hash. */
  lemma {:induction false} HashedHeader(h: string -> Digest, chain: seq<Block>, i: nat)
    requires ValidChain(h, chain) && chain[0].index == 0 && i < |chain| && |chain| > 1
    ensures chain[i].hash == h(Header(chain[i]))
    ensures i > 0 ==> IsHex(chain[i].previousHash)
  {
    if i > 0 {
      HashedHeader(h, chain, i - 1);
      assert ValidNext(h, chain[i - 1], chain[i]);
      assert chain[i].previousHash == h(Header(chain[i - 1]));
    } else {
      assert ValidNext(h, chain[0], chain[1]);
    }
  }

  /** Times grow along a chain. */
  lemma {:induction false} TimesGrow(h: string -> Digest, chain: seq<Block>, i: nat, j: nat)
    requires ValidChain(h, chain) && i < j < |chain|
    ensures 0 < chain[i].timestamp < chain[j].timestamp
    decreases j
  {
    assert ValidNext(h, chain[j - 1], chain[j]);
    if i < j - 1 {
      TimesGrow(h, chain, i, j - 1);
    }
  }

  /** What extends a chain from genesis: the next height, linked to the tip, later than it, with
      good records and the hash of its own header. Nothing else does. */
  lemma {:induction false} ExtendsIff(h: string -> Digest, chain: seq<Block>, b: Block)
    requires ValidChain(h, chain) && IsGenesis(chain[0])
    ensures CanAppend(h, chain, b) <==>
      && b.index == |chain| <= UINT64_MAX && b.previousHash == chain[|chain| - 1].hash
      && chain[|chain| - 1].timestamp < b.timestamp && b.recordsOk && b.hash == h(Header(b))
  {
    var n := |chain| - 1;
    IndexAt(h, chain, n);
    TipIsHashed(h, chain);
    HeightsFit(h, chain, n);
  }

  /** An empty chain takes exactly a genesis block with the hash of its own header. */
  lemma StartsIff(h: string -> Digest, b: Block)
    ensures CanAppend(h, [], b) <==>
      b.index == 0 && b.previousHash == "GENESIS" && 0 < b.timestamp && b.recordsOk && b.hash == h(Header(b))
  {
  }

  lemma {:induction false} HeightsFit(h: string -> Digest, chain: seq<Block>, i: nat)
    requires ValidChain(h, chain) && chain[0].index == 0 && i < |chain|
    ensures i <= UINT64_MAX
  {
    if i > 0 {
      HeightsFit(h, chain, i - 1);
      IndexAt(h, chain, i - 1);
      assert ValidNext(h, chain[i - 1], chain[i]);
    }
  }

  lemma {:induction false} TipIsHashed(h: string -> Digest, chain: seq<Block>)
    requires ValidChain(h, chain) && IsGenesis(chain[0])
    ensures ValidBlock(h, chain[|chain| - 1]) && IsHex(chain[|chain| - 1].hash)
  {
    var n := |chain| - 1;
    if n > 0 {
      HashedHeader(h, chain, n);
      assert ValidNext(h, chain[n - 1], chain[n]);
    }
  }

  lemma {:induction false} HeaderInjective(a: Block, b: Block)
    requires Header(a) == Header(b) && IsHex(a.previousHash) && IsHex(b.previousHash)
    ensures a.index == b.index && a.previousHash == b.previousHash && HeaderRest(a) == HeaderRest(b)
  {
    var m, n := |"BlockHeader{index="|, |"previousHash="|;
    var x := "previousHash=" + (a.previousHash + ";" + HeaderRest(a));
    var y := "previousHash=" + (b.previousHash + ";" + HeaderRest(b));
    assert Header(a)[m..] == Decimal(a.index) + ";" + x && Header(b)[m..] == Decimal(b.index) + ";" + y;
    DecimalRoundTrip(a.index);
    DecimalRoundTrip(b.index);
    SplitFirst(Decimal(a.index), x, Decimal(b.index), y, ';');
    DecimalInjective(a.index, b.index);
    assert x[n..] == a.previousHash + ";" + HeaderRest(a) && y[n..] == b.previousHash + ";" + HeaderRest(b);
    SplitFirst(a.previousHash, HeaderRest(a), b.previousHash, HeaderRest(b), ';');
  }

  // --- Two chains with a common block hash ------------------------------------------------------

  /** Blocks of the two chains at one height have different headers with one hash. */
  ghost predicate HeadersCollide(h: string -> Digest, a: seq<Block>, b: seq<Block>) {
    exists i: nat :: i < |a| && i < |b| && Header(a[i]) != Header(b[i]) && h(Header(a[i])) == h(Header(b[i]))
  }

  predicate SameBlock(a: Block, b: Block) {
    a.hash == b.hash && a.previousHash == b.previousHash
  }

  /** A common hash at one height gives common hashes at every lower height, by linkage. */
  lemma {:induction false} SharedHashSharesHistory(h: string -> Digest, a: seq<Block>, b: seq<Block>, k: nat, i: nat)
    requires ValidChain(h, a) && ValidChain(h, b) && a[0].index == 0 && b[0].index == 0
    requires i <= k < |a| && k < |b| && SameBlock(a[k], b[k])
    ensures SameBlock(a[i], b[i]) || HeadersCollide(h, a, b)
    decreases k
  {
    if i < k {
      HashedHeader(h, a, k);
      HashedHeader(h, b, k);
      HashedHeader(h, a, k - 1);
      HashedHeader(h, b, k - 1);
      assert ValidNext(h, a[k - 1], a[k]) && ValidNext(h, b[k - 1], b[k]);
      assert a[k - 1].hash == b[k - 1].hash;
      if Header(a[k - 1]) == Header(b[k - 1]) {
        if k > 1 {
          HeaderInjective(a[k - 1], b[k - 1]);
        } else {
          assert a[0].previousHash == GENESIS && b[0].previousHash == GENESIS by {
            assert ValidBlock(h, a[0]) && ValidBlock(h, b[0]);
          }
        }
        SharedHashSharesHistory(h, a, b, k - 1, i);
      }
    }
  }
}
