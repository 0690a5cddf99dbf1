/** The pool of received votes, its five indexes, and why one pool can certify at most one
    block per height and round. */
module VotePool {
  import opened Wrappers
  import opened Quorum
  import opened Certificates
  import opened Text

  datatype Status = Accepted | Duplicate | Conflicting | Invalid

  datatype BlockKey = BlockKey(height: nat, round: nat, hash: string)

  const MAX_CONFLICTS_PER_KEY: nat := 10

  /** The pool as a value: votes by block, the first vote of every validator per height,
      round and decision, the ids of those votes, and the recorded conflicts. */
  datatype Pool = Pool(
    byBlock: map<BlockKey, seq<Vote>>, byValidator: map<string, Vote>, ids: set<string>,
    conflicting: seq<Vote>, conflictCounts: map<string, nat>)

  const EMPTY := Pool(map[], map[], {}, [], map[])

  function DecisionText(d: Decision): string {
    match d
    case UNKNOWN => "UNKNOWN"
    case REJECT => "REJECT"
    case PREVOTE => "PREVOTE"
    case PRECOMMIT => "PRECOMMIT"
  }

  function ValidatorKey(x: Vote): string {
    x.validator + "#" + Decimal(x.height) + "#" + Decimal(x.round) + "#" + DecisionText(x.decision)
  }

  function BlockKeyOf(x: Vote): BlockKey {
    BlockKey(x.height, x.round, x.hash)
  }

  /** The joined key names one validator, height, round and decision even if an address
      contains the separator, because it can be read from the right. */
  lemma ValidatorKeyInjective(x: Vote, y: Vote)
    requires ValidatorKey(x) == ValidatorKey(y)
    ensures x.validator == y.validator && x.height == y.height && x.round == y.round && x.decision == y.decision
  {
    forall n ensures '#' !in Decimal(n) {
      DecimalRoundTrip(n);
    }
    SplitLast(x.validator + "#" + Decimal(x.height) + "#" + Decimal(x.round), DecisionText(x.decision),
              y.validator + "#" + Decimal(y.height) + "#" + Decimal(y.round), DecisionText(y.decision), '#');
    assert x.decision == y.decision;
    SplitLast(x.validator + "#" + Decimal(x.height), Decimal(x.round),
              y.validator + "#" + Decimal(y.height), Decimal(y.round), '#');
    SplitLast(x.validator, Decimal(x.height), y.validator, Decimal(y.height), '#');
    DecimalInjective(x.height, y.height);
    DecimalInjective(x.round, y.round);
  }

  predicate SameDecision(x: Vote, y: Vote) {
    && x.validator == y.validator && x.height == y.height && x.hash == y.hash
    && x.previousHash == y.previousHash && x.round == y.round && x.decision == y.decision
  }

  /** Shape checks, then the signature unless the policy is a development one. */
  predicate MinimallyValid(x: Vote, development: bool, sigOk: Vote -> bool) {
    && x.validator != "" && x.height != 0 && x.hash != "" && x.previousHash != "" && x.round != 0
    && x.decision != UNKNOWN && x.createdAt > 0
    && (development || sigOk(x))
  }

  function VotesAt(p: Pool, k: BlockKey): seq<Vote> {
    if k in p.byBlock then p.byBlock[k] else []
  }

  function CountAt(p: Pool, k: string): nat {
    if k in p.conflictCounts then p.conflictCounts[k] else 0
  }

  function SubmitStatus(p: Pool, x: Vote, valid: bool, id: string): Status {
    if !valid || id == "" then Invalid
    else if id in p.ids then Duplicate
    else if ValidatorKey(x) !in p.byValidator then Accepted
    else if SameDecision(p.byValidator[ValidatorKey(x)], x) then Duplicate
    else Conflicting
  }

  function Submit(p: Pool, x: Vote, valid: bool, id: string): Pool {
    var key, block := ValidatorKey(x), BlockKeyOf(x);
    match SubmitStatus(p, x, valid, id)
    case Accepted =>
      p.(byBlock := p.byBlock[block := VotesAt(p, block) + [x]],
         byValidator := p.byValidator[key := x], ids := p.ids + {id})
    case Conflicting =>
      if CountAt(p, key) >= MAX_CONFLICTS_PER_KEY then p
      else p.(conflicting := p.conflicting + [x], conflictCounts := p.conflictCounts[key := CountAt(p, key) + 1])
    case _ => p
  }

  function KeepFrom(votes: seq<Vote>, height: nat): seq<Vote> {
    if votes == [] then []
    else
      var last := votes[|votes| - 1];
      KeepFrom(votes[..|votes| - 1], height) + (if last.height < height then [] else [last])
  }

  function SkipSpaces(s: string): string {
    if s != [] && (s[0] == ' ' || '\t' <= s[0] <= '\r') then SkipSpaces(s[1..]) else s
  }

  function LeadingDigits(s: string): (d: string)
    ensures forall c :: c in d ==> IsDigit(c)
  {
    if s != [] && IsDigit(s[0]) then [s[0]] + LeadingDigits(s[1..]) else []
  }

  /** The number at the start of a text, read as leniently as `std::stoull` does: leading white
      space, a sign, and anything after the digits are allowed, and a minus wraps around. */
  function ParseWord(s: string): Option<int> {
    var t := SkipSpaces(s);
    var d := LeadingDigits(if t != [] && t[0] in "+-" then t[1..] else t);
    if d == [] || Value(d) > UINT64_MAX then None
    else Some(if t[0] == '-' && Value(d) != 0 then UINT64_MAX + 1 - Value(d) else Value(d))
  }

  /** Whether pruning drops a conflict counter. The height is read back out of the key, from
      the left; a part that holds no 64-bit number drops the counter too. */
  predicate DropsCount(key: string, height: nat) {
    var i := IndexOf(key, '#');
    i < |key| &&
    var rest := key[i + 1..];
    var j := IndexOf(rest, '#');
    j < |rest| &&
    match ParseWord(rest[..j])
    case None => true
    case Some(n) => n < height
  }

  function Prune(p: Pool, height: nat, idOf: Vote -> string): Pool {
    Pool(
      map k | k in p.byBlock && k.height >= height :: p.byBlock[k],
      map k | k in p.byValidator && p.byValidator[k].height >= height :: p.byValidator[k],
      p.ids - (set k | k in p.byValidator && p.byValidator[k].height < height :: idOf(p.byValidator[k])),
      KeepFrom(p.conflicting, height),
      map k | k in p.conflictCounts && !DropsCount(k, height) :: p.conflictCounts[k])
  }

  // --- The indexes stay consistent ------------------------------------------------------

  predicate ListedVote(p: Pool, b: BlockKey, x: Vote) {
    BlockKeyOf(x) == b && ValidatorKey(x) in p.byValidator && p.byValidator[ValidatorKey(x)] == x
  }

  ghost predicate BlocksConsistent(p: Pool) {
    forall b, i :: b in p.byBlock && 0 <= i < |p.byBlock[b]| ==> ListedVote(p, b, p.byBlock[b][i])
  }

  /** Within one block no validator is listed twice for one decision. */
  ghost predicate BlocksDistinct(p: Pool) {
    forall b, i, j :: b in p.byBlock && 0 <= i < j < |p.byBlock[b]| ==>
      ValidatorKey(p.byBlock[b][i]) != ValidatorKey(p.byBlock[b][j])
  }

  ghost predicate ValidatorsConsistent(p: Pool) {
    forall k :: k in p.byValidator ==>
      k == ValidatorKey(p.byValidator[k]) && p.byValidator[k] in VotesAt(p, BlockKeyOf(p.byValidator[k]))
  }

  ghost function IdsOf(m: map<string, Vote>, idOf: Vote -> string): set<string> {
    set k | k in m :: idOf(m[k])
  }

  ghost predicate DistinctIds(m: map<string, Vote>, idOf: Vote -> string) {
    forall k, l :: k in m && l in m && idOf(m[k]) == idOf(m[l]) ==> k == l
  }

  ghost predicate IdsConsistent(p: Pool, idOf: Vote -> string) {
    p.ids == IdsOf(p.byValidator, idOf) && DistinctIds(p.byValidator, idOf)
  }

  ghost predicate PoolInv(p: Pool, idOf: Vote -> string) {
    BlocksConsistent(p) && BlocksDistinct(p) && ValidatorsConsistent(p) && IdsConsistent(p, idOf)
  }

  lemma AcceptKeepsBlocks(p: Pool, x: Vote, id: string)
    requires BlocksConsistent(p) && BlocksDistinct(p) && SubmitStatus(p, x, true, id) == Accepted
    ensures BlocksConsistent(Submit(p, x, true, id)) && BlocksDistinct(Submit(p, x, true, id))
  {
    var q, key, block := Submit(p, x, true, id), ValidatorKey(x), BlockKeyOf(x);
    var before := VotesAt(p, block);
    forall b, i | b in q.byBlock && 0 <= i < |q.byBlock[b]| ensures ListedVote(q, b, q.byBlock[b][i]) {
      if b != block || i < |before| {
        assert ListedVote(p, b, p.byBlock[b][i]);
      }
    }
    forall b, i, j | b in q.byBlock && 0 <= i < j < |q.byBlock[b]|
      ensures ValidatorKey(q.byBlock[b][i]) != ValidatorKey(q.byBlock[b][j])
    {
      assert b in p.byBlock && q.byBlock[b][i] == p.byBlock[b][i];
      assert ListedVote(p, b, p.byBlock[b][i]);
      if b != block || j < |before| {
        assert q.byBlock[b][j] == p.byBlock[b][j];
      }
    }
  }

  lemma AcceptKeepsValidators(p: Pool, x: Vote, id: string)
    requires ValidatorsConsistent(p) && SubmitStatus(p, x, true, id) == Accepted
    ensures ValidatorsConsistent(Submit(p, x, true, id))
  {
  }

  lemma AcceptKeepsIds(p: Pool, x: Vote, idOf: Vote -> string)
    requires IdsConsistent(p, idOf) && SubmitStatus(p, x, true, idOf(x)) == Accepted
    ensures IdsConsistent(Submit(p, x, true, idOf(x)), idOf)
  {
    var q, key := Submit(p, x, true, idOf(x)), ValidatorKey(x);
    assert q.byValidator == p.byValidator[key := x] && q.ids == p.ids + {idOf(x)};
    MapIdsExtend(p.byValidator, key, x, idOf);
  }

  /** Ids of distinct entries stay distinct when an entry with a new key and id is added. */
  lemma MapIdsExtend(m: map<string, Vote>, key: string, x: Vote, idOf: Vote -> string)
    requires key !in m && idOf(x) !in IdsOf(m, idOf) && DistinctIds(m, idOf)
    ensures IdsOf(m[key := x], idOf) == IdsOf(m, idOf) + {idOf(x)} && DistinctIds(m[key := x], idOf)
  {
    var n := m[key := x];
    assert n[key] == x && forall k :: k in m ==> n[k] == m[k] && idOf(n[k]) in IdsOf(m, idOf);
    forall id | id in IdsOf(n, idOf) ensures id in IdsOf(m, idOf) + {idOf(x)} {
      var k :| k in n && idOf(n[k]) == id;
    }
    forall id | id in IdsOf(m, idOf) + {idOf(x)} ensures id in IdsOf(n, idOf) {
      if id != idOf(x) {
        var k :| k in m && idOf(m[k]) == id;
        assert k in n && idOf(n[k]) == id;
      } else {
        assert key in n && idOf(n[key]) == id;
      }
    }
  }

  lemma SubmitKeepsInv(p: Pool, x: Vote, valid: bool, idOf: Vote -> string)
    requires PoolInv(p, idOf)
    ensures PoolInv(Submit(p, x, valid, idOf(x)), idOf)
  {
    if SubmitStatus(p, x, valid, idOf(x)) == Accepted {
      AcceptKeepsBlocks(p, x, idOf(x));
      AcceptKeepsValidators(p, x, idOf(x));
      AcceptKeepsIds(p, x, idOf);
    }
  }

  lemma PruneKeepsBlocks(p: Pool, height: nat, idOf: Vote -> string)
    requires BlocksConsistent(p) && BlocksDistinct(p)
    ensures BlocksConsistent(Prune(p, height, idOf)) && BlocksDistinct(Prune(p, height, idOf))
  {
  }

  /** The removed ids belong to removed votes only, because no two listed votes share one. */
  lemma PruneKeepsIds(p: Pool, height: nat, idOf: Vote -> string)
    requires IdsConsistent(p, idOf)
    ensures IdsConsistent(Prune(p, height, idOf), idOf)
  {
    var m, q, ids := p.byValidator, Prune(p, height, idOf).byValidator, Prune(p, height, idOf).ids;
    forall id | id in ids ensures id in IdsOf(q, idOf) {
      var k :| k in m && idOf(m[k]) == id;
      assert k in q && q[k] == m[k];
    }
    forall id | id in IdsOf(q, idOf) ensures id in ids {
      var k :| k in q && idOf(q[k]) == id;
      assert m[k] == q[k] && id in IdsOf(m, idOf);
    }
  }

  lemma PruneKeepsInv(p: Pool, height: nat, idOf: Vote -> string)
    requires PoolInv(p, idOf)
    ensures PoolInv(Prune(p, height, idOf), idOf)
  {
    PruneKeepsBlocks(p, height, idOf);
    PruneKeepsIds(p, height, idOf);
  }
}
