/** Runs of one vote pool, the network collector in front of it, and the pool as an object. */
module VotePoolRuns {
  import opened Quorum
  import opened Certificates
  import opened Text
  import opened VotePool

  datatype Op = SubmitVote(x: Vote, valid: bool) | PruneBelow(height: nat)

  function ApplyOp(p: Pool, op: Op, idOf: Vote -> string): Pool {
    match op
    case SubmitVote(x, valid) => Submit(p, x, valid, idOf(x))
    case PruneBelow(height) => Prune(p, height, idOf)
  }

  function RunOps(p: Pool, ops: seq<Op>, idOf: Vote -> string): Pool {
    if ops == [] then p else ApplyOp(RunOps(p, ops[..|ops| - 1], idOf), ops[|ops| - 1], idOf)
  }

  /** The five indexes agree after every sequence of submissions and prunes. */
  lemma {:induction false} RunKeepsInv(p: Pool, ops: seq<Op>, idOf: Vote -> string)
    requires PoolInv(p, idOf)
    ensures PoolInv(RunOps(p, ops, idOf), idOf)
  {
    if ops != [] {
      var front, last := ops[..|ops| - 1], ops[|ops| - 1];
      RunKeepsInv(p, front, idOf);
      match last
      case SubmitVote(x, valid) => SubmitKeepsInv(RunOps(p, front, idOf), x, valid, idOf);
      case PruneBelow(height) => PruneKeepsInv(RunOps(p, front, idOf), height, idOf);
    }
  }

  lemma EmptyInv(idOf: Vote -> string)
    ensures PoolInv(EMPTY, idOf)
  {
  }

  // --- Exclusivity ------------------------------------------------------------------------

  /** The validators whose precommit for the block the pool holds. */
  ghost function PrecommitVoters(p: Pool, h: nat, r: nat, hash: string): set<string> {
    set x | x in VotesAt(p, BlockKey(h, r, hash)) && x.decision == PRECOMMIT :: x.validator
  }

  ghost predicate HasPrecommitQuorum(p: Pool, w: Weights, h: nat, r: nat, hash: string) {
    IsQuorum(w, PrecommitVoters(p, h, r, hash))
  }

  lemma ListedIn(p: Pool, b: BlockKey, x: Vote)
    requires BlocksConsistent(p) && x in VotesAt(p, b)
    ensures ListedVote(p, b, x)
  {
  }

  /** A validator counts for at most one block per height, round and decision. */
  lemma VotersDisjoint(p: Pool, idOf: Vote -> string, h: nat, r: nat, a: string, b: string)
    requires PoolInv(p, idOf) && a != b
    ensures PrecommitVoters(p, h, r, a) !! PrecommitVoters(p, h, r, b)
  {
  }

  /** No assumption on faults: one pool never holds two precommit quorums of one round. */
  lemma OneQuorumPerRound(p: Pool, idOf: Vote -> string, w: Weights, h: nat, r: nat, a: string, b: string)
    requires PoolInv(p, idOf)
    requires HasPrecommitQuorum(p, w, h, r, a) && HasPrecommitQuorum(p, w, h, r, b)
    ensures a == b
  {
    if a != b {
      VotersDisjoint(p, idOf, h, r, a, b);
      QuorumIntersection(w, PrecommitVoters(p, h, r, a), PrecommitVoters(p, h, r, b));
    }
  }

  predicate NeverPrunes(ops: seq<Op>, h: nat) {
    forall i :: 0 <= i < |ops| && ops[i].PruneBelow? ==> ops[i].height <= h
  }

  /** Until a prune passes its height, an accepted vote stays where it is. */
  lemma {:induction false} VotePersists(p: Pool, ops: seq<Op>, idOf: Vote -> string, x: Vote)
    requires NeverPrunes(ops, x.height) && x in VotesAt(p, BlockKeyOf(x))
    ensures x in VotesAt(RunOps(p, ops, idOf), BlockKeyOf(x))
  {
    if ops != [] {
      var front, last := ops[..|ops| - 1], ops[|ops| - 1];
      VotePersists(p, front, idOf, x);
      if last.SubmitVote? {
        var q := RunOps(p, front, idOf);
        SubmitExtends(q, last.x, last.valid, idOf(last.x), BlockKeyOf(x));
      }
    }
  }

  lemma SubmitExtends(p: Pool, x: Vote, valid: bool, id: string, b: BlockKey)
    ensures VotesAt(p, b) <= VotesAt(Submit(p, x, valid, id), b)
  {
  }

  /** Over time: if `a` has a quorum now and, with no prune passing the height in between,
      `b` has one later, they are the same block. */
  lemma OneQuorumPerRoundOverTime(
    before: seq<Op>, after: seq<Op>, idOf: Vote -> string, w: Weights, h: nat, r: nat, a: string, b: string)
    requires NeverPrunes(after, h)
    requires HasPrecommitQuorum(RunOps(EMPTY, before, idOf), w, h, r, a)
    requires HasPrecommitQuorum(RunOps(RunOps(EMPTY, before, idOf), after, idOf), w, h, r, b)
    ensures a == b
  {
    var p := RunOps(EMPTY, before, idOf);
    var q := RunOps(p, after, idOf);
    EmptyInv(idOf);
    RunKeepsInv(EMPTY, before, idOf);
    RunKeepsInv(p, after, idOf);
    forall v | v in PrecommitVoters(p, h, r, a) ensures v in PrecommitVoters(q, h, r, a) {
      var x :| x in VotesAt(p, BlockKey(h, r, a)) && x.decision == PRECOMMIT && x.validator == v;
      ListedIn(p, BlockKey(h, r, a), x);
      VotePersists(p, after, idOf, x);
    }
    QuorumMono(w, PrecommitVoters(p, h, r, a), PrecommitVoters(q, h, r, a));
    OneQuorumPerRound(q, idOf, w, h, r, a, b);
  }

  // --- The collector: stale votes never reach the pool -------------------------------------

  datatype Collector = Collector(pool: Pool, height: nat, round: nat)

  datatype Event = NetworkVote(x: Vote, valid: bool, eligible: bool) | RoundChange(round: nat)

  /** A vote is admitted only for the collector's own height, in its round or the next. */
  predicate Admitted(c: Collector, x: Vote, eligible: bool) {
    && eligible && x.height == c.height && x.round >= c.round
    && !(x.round > c.round && (c.round == UINT64_MAX || x.round != c.round + 1))
  }

  /** A collector lives for one height; a round change prunes below that height. */
  function Receive(c: Collector, e: Event, idOf: Vote -> string): Collector {
    match e
    case NetworkVote(x, valid, eligible) =>
      if Admitted(c, x, eligible) then c.(pool := Submit(c.pool, x, valid, idOf(x))) else c
    case RoundChange(round) => c.(round := round, pool := Prune(c.pool, c.height, idOf))
  }

  function ReceiveAll(c: Collector, events: seq<Event>, idOf: Vote -> string): Collector {
    if events == [] then c else Receive(ReceiveAll(c, events[..|events| - 1], idOf), events[|events| - 1], idOf)
  }

  predicate OnlyHeight(ops: seq<Op>, height: nat) {
    forall i :: 0 <= i < |ops| && ops[i].SubmitVote? ==> ops[i].x.height == height
  }

  lemma RunOpsAppend(p: Pool, ops: seq<Op>, op: Op, idOf: Vote -> string)
    ensures RunOps(p, ops + [op], idOf) == ApplyOp(RunOps(p, ops, idOf), op, idOf)
  {
    assert (ops + [op])[..|ops|] == ops;
  }

  /** What one event does to the pool behind a collector. */
  lemma CollectorStep(c: Collector, e: Event, idOf: Vote -> string) returns (ops: seq<Op>)
    ensures |ops| <= 1 && NeverPrunes(ops, c.height) && OnlyHeight(ops, c.height)
    ensures Receive(c, e, idOf).pool == if ops == [] then c.pool else ApplyOp(c.pool, ops[0], idOf)
    ensures Receive(c, e, idOf).height == c.height
  {
    ops :=
      if e.RoundChange? then [PruneBelow(c.height)]
      else if Admitted(c, e.x, e.eligible) then [SubmitVote(e.x, e.valid)]
      else [];
  }

  /** The pool behind a collector sees a run that never prunes the collector's height, and
      only votes of that height. */
  lemma {:induction false} CollectorRun(c: Collector, events: seq<Event>, idOf: Vote -> string) returns (ops: seq<Op>)
    ensures ReceiveAll(c, events, idOf).pool == RunOps(c.pool, ops, idOf)
    ensures ReceiveAll(c, events, idOf).height == c.height
    ensures NeverPrunes(ops, c.height) && OnlyHeight(ops, c.height)
  {
    ops := [];
    if events != [] {
      var front := events[..|events| - 1];
      ops := CollectorRun(c, front, idOf);
      var more := CollectorStep(ReceiveAll(c, front, idOf), events[|events| - 1], idOf);
      if more != [] {
        RunOpsAppend(c.pool, ops, more[0], idOf);
        ops := ops + [more[0]];
      }
    }
  }

  /** In the whole life of a collector, whatever arrives, at most one block per round of its
      height ever reaches a precommit quorum. */
  lemma CollectorExclusive(
    height: nat, round: nat, before: seq<Event>, after: seq<Event>, idOf: Vote -> string,
    w: Weights, h: nat, r: nat, a: string, b: string)
    requires
      var c := ReceiveAll(Collector(EMPTY, height, round), before, idOf);
      && HasPrecommitQuorum(c.pool, w, h, r, a)
      && HasPrecommitQuorum(ReceiveAll(c, after, idOf).pool, w, h, r, b)
    ensures a == b
  {
    var c0 := Collector(EMPTY, height, round);
    var c := ReceiveAll(c0, before, idOf);
    var ops := CollectorRun(c0, before, idOf);
    var more := CollectorRun(c, after, idOf);
    if h == height {
      OneQuorumPerRoundOverTime(ops, more, idOf, w, h, r, a, b);
    } else {
      OnlyOwnHeight(ops, idOf, height, BlockKey(h, r, a));
    }
  }

  lemma {:induction false} OnlyOwnHeight(ops: seq<Op>, idOf: Vote -> string, height: nat, b: BlockKey)
    requires OnlyHeight(ops, height)
    requires b.height != height
    ensures VotesAt(RunOps(EMPTY, ops, idOf), b) == []
  {
    if ops != [] {
      OnlyOwnHeight(ops[..|ops| - 1], idOf, height, b);
    }
  }

  // --- Progress counting --------------------------------------------------------------------

  /** The progress report counts every voter of the block once, whatever the decision. */
  method QuorumProgress(p: Pool, b: BlockKey, reg: Registry) returns (accepted: nat)
    requires Total(reg.weights) <= UINT64_MAX
    ensures accepted == Weight(reg.weights, Voters(VotesAt(p, b))) <= UINT64_MAX
  {
    var votes := VotesAt(p, b);
    var seen: set<string> := {};
    accepted := 0;
    for i := 0 to |votes|
      invariant seen == Voters(votes[..i])
      invariant accepted == Weight(reg.weights, seen)
    {
      var v := votes[i].validator;
      assert votes[..i + 1] == votes[..i] + [votes[i]];
      VotersAppend(votes[..i], votes[i]);
      if v in seen {
        assert seen + {v} == seen;
      } else {
        WeightPeel(reg.weights, seen + {v}, v);
        assert seen + {v} - {v} == seen;
        seen := seen + {v};
        accepted := accepted + reg.WeightFor(v);
      }
    }
    assert votes[..|votes|] == votes;
    WeightAtMostTotal(reg.weights, seen);
  }

  // --- What gets in ------------------------------------------------------------------------------

  /** A vote that names a validator, a block and its parent, a height and a round, decides
      something, has a time, and outside development carries a good signature. */
  ghost predicate SignedVote(x: Vote, development: bool, sigOk: Vote -> bool) {
    && x.validator != "" && x.hash != "" && x.previousHash != "" && x.height > 0 && x.round > 0
    && x.decision in {REJECT, PREVOTE, PRECOMMIT} && x.createdAt > 0
    && (!development ==> sigOk(x))
  }

  /** The pool takes a vote exactly when it is such a vote, its id is new, and its validator has
      cast none of this height, round and decision. */
  lemma AcceptedIff(p: Pool, x: Vote, development: bool, sigOk: Vote -> bool, idOf: Vote -> string)
    requires PoolInv(p, idOf)
    ensures SubmitStatus(p, x, MinimallyValid(x, development, sigOk), idOf(x)) == Accepted <==>
      && SignedVote(x, development, sigOk) && idOf(x) != "" && idOf(x) !in p.ids
      && forall k :: k in p.byValidator ==> !SameSlot(p.byValidator[k], x)
  {
    var key := ValidatorKey(x);
    if key in p.byValidator {
      ValidatorKeyInjective(p.byValidator[key], x);
    }
    forall k | k in p.byValidator && SameSlot(p.byValidator[k], x) ensures key in p.byValidator {
      SameSlotSameKey(p.byValidator[k], x);
    }
  }

  predicate SameSlot(x: Vote, y: Vote) {
    x.validator == y.validator && x.height == y.height && x.round == y.round && x.decision == y.decision
  }

  lemma SameSlotSameKey(x: Vote, y: Vote)
    requires SameSlot(x, y)
    ensures ValidatorKey(x) == ValidatorKey(y)
  {
  }

  /** The submissions of a run were judged by the pool's own checks. */
  ghost predicate Judged(ops: seq<Op>, development: bool, sigOk: Vote -> bool) {
    forall i :: 0 <= i < |ops| && ops[i].SubmitVote? ==> ops[i].valid == MinimallyValid(ops[i].x, development, sigOk)
  }

  ghost predicate AllSigned(p: Pool, development: bool, sigOk: Vote -> bool) {
    forall k :: k in p.byValidator ==> SignedVote(p.byValidator[k], development, sigOk)
  }

  /** So in every run every listed vote is a complete one, and outside development it is signed. */
  lemma {:induction false} ListedVotesAreSigned(
    ops: seq<Op>, development: bool, sigOk: Vote -> bool, idOf: Vote -> string, b: BlockKey, x: Vote)
    requires Judged(ops, development, sigOk) && x in VotesAt(RunOps(EMPTY, ops, idOf), b)
    ensures SignedVote(x, development, sigOk)
  {
    EmptyInv(idOf);
    RunKeepsInv(EMPTY, ops, idOf);
    ListedIn(RunOps(EMPTY, ops, idOf), b, x);
    RunKeepsSigned(ops, development, sigOk, idOf);
  }

  lemma {:induction false} RunKeepsSigned(ops: seq<Op>, development: bool, sigOk: Vote -> bool, idOf: Vote -> string)
    requires Judged(ops, development, sigOk)
    ensures AllSigned(RunOps(EMPTY, ops, idOf), development, sigOk)
  {
    if ops != [] {
      var front, last := ops[..|ops| - 1], ops[|ops| - 1];
      RunKeepsSigned(front, development, sigOk, idOf);
      StepKeepsSigned(RunOps(EMPTY, front, idOf), last, development, sigOk, idOf);
    }
  }

  lemma StepKeepsSigned(p: Pool, op: Op, development: bool, sigOk: Vote -> bool, idOf: Vote -> string)
    requires AllSigned(p, development, sigOk)
    requires op.SubmitVote? ==> op.valid == MinimallyValid(op.x, development, sigOk)
    ensures AllSigned(ApplyOp(p, op, idOf), development, sigOk)
  {
  }

  /** A prune keeps exactly the votes, keys and conflicts of its height and above. */
  lemma {:induction false} PrunesExactly(p: Pool, height: nat, idOf: Vote -> string, b: BlockKey, x: Vote, k: string)
    ensures VotesAt(Prune(p, height, idOf), b) == if b.height < height then [] else VotesAt(p, b)
    ensures k in Prune(p, height, idOf).byValidator <==> k in p.byValidator && height <= p.byValidator[k].height
    ensures x in Prune(p, height, idOf).conflicting <==> x in p.conflicting && height <= x.height
  {
    KeptVotes(p.conflicting, height, x);
  }

  lemma {:induction false} KeptVotes(votes: seq<Vote>, height: nat, x: Vote)
    ensures x in KeepFrom(votes, height) <==> x in votes && height <= x.height
  {
    if votes != [] {
      KeptVotes(votes[..|votes| - 1], height, x);
      assert votes == votes[..|votes| - 1] + [votes[|votes| - 1]];
    }
  }

  /** A collector takes a vote exactly when it is an eligible validator's first of its kind for the
      collector's height, in the current round or the next. */
  lemma CollectedIff(c: Collector, x: Vote, valid: bool, eligible: bool, idOf: Vote -> string, d: Collector)
    requires d == Receive(c, NetworkVote(x, valid, eligible), idOf) && c.round <= UINT64_MAX && x.round <= UINT64_MAX
    ensures d.height == c.height && d.round == c.round
    ensures d.pool ==
      if eligible && x.height == c.height && (x.round == c.round || x.round == c.round + 1)
      then Submit(c.pool, x, valid, idOf(x)) else c.pool
  {
  }

  // --- The pool as an object --------------------------------------------------------------------

  class Store {
    const idOf: Vote -> string
    var byBlock: map<BlockKey, seq<Vote>>
    var byValidator: map<string, Vote>
    var ids: set<string>
    var conflicting: seq<Vote>
    var conflictCounts: map<string, nat>

    ghost function State(): Pool
      reads this
    {
      Pool(byBlock, byValidator, ids, conflicting, conflictCounts)
    }

    ghost predicate Valid()
      reads this
    {
      PoolInv(State(), idOf)
    }

    constructor (idOf: Vote -> string)
      ensures Valid() && this.idOf == idOf && State() == EMPTY
    {
      this.idOf := idOf;
      byBlock, byValidator, ids, conflicting, conflictCounts := map[], map[], {}, [], map[];
    }

    method SubmitVote(x: Vote, development: bool, sigOk: Vote -> bool) returns (status: Status)
      requires Valid()
      modifies this
      ensures Valid()
      ensures status == SubmitStatus(old(State()), x, MinimallyValid(x, development, sigOk), idOf(x))
      ensures State() == Submit(old(State()), x, MinimallyValid(x, development, sigOk), idOf(x))
    {
      SubmitKeepsInv(State(), x, MinimallyValid(x, development, sigOk), idOf);
      status := Insert(x, MinimallyValid(x, development, sigOk));
    }

    method Insert(x: Vote, valid: bool) returns (status: Status)
      modifies this
      ensures status == SubmitStatus(old(State()), x, valid, idOf(x))
      ensures State() == Submit(old(State()), x, valid, idOf(x))
    {
      if !valid {
        return Invalid;
      }
      var id := idOf(x);
      if id == "" {
        return Invalid;
      }
      if id in ids {
        return Duplicate;
      }
      var key := ValidatorKey(x);
      if key in byValidator {
        if SameDecision(byValidator[key], x) {
          return Duplicate;
        }
        var count := if key in conflictCounts then conflictCounts[key] else 0;
        if count >= MAX_CONFLICTS_PER_KEY {
          return Conflicting;
        }
        conflicting := conflicting + [x];
        conflictCounts := conflictCounts[key := count + 1];
        return Conflicting;
      }
      var block := BlockKeyOf(x);
      byBlock := byBlock[block := (if block in byBlock then byBlock[block] else []) + [x]];
      byValidator := byValidator[key := x];
      ids := ids + {id};
      return Accepted;
    }

    /** Four passes, one per index. */
    method PruneBelow(height: nat)
      requires Valid()
      modifies this
      ensures Valid() && State() == Prune(old(State()), height, idOf)
    {
      PruneKeepsInv(State(), height, idOf);
      ghost var p := State();
      PruneBlocks(height);
      PruneValidators(height);
      PruneConflicts(height);
      PruneCounts(height);
      assert State() == Prune(p, height, idOf);
    }

    method PruneBlocks(height: nat)
      modifies `byBlock
      ensures byBlock == map k | k in old(byBlock) && k.height >= height :: old(byBlock)[k]
    {
      var todo := byBlock.Keys;
      while todo != {}
        invariant todo <= byBlock.Keys
        invariant byBlock == map k | k in old(byBlock) && (k in todo || k.height >= height) :: old(byBlock)[k]
        decreases todo
      {
        var k :| k in todo;
        if k.height < height {
          byBlock := byBlock - {k};
        }
        todo := todo - {k};
      }
    }

    method PruneValidators(height: nat)
      modifies `byValidator, `ids
      ensures byValidator == map k | k in old(byValidator) && old(byValidator)[k].height >= height :: old(byValidator)[k]
      ensures ids == old(ids)
        - (set k | k in old(byValidator) && old(byValidator)[k].height < height :: idOf(old(byValidator)[k]))
    {
      var todo := byValidator.Keys;
      while todo != {}
        invariant todo <= byValidator.Keys
        invariant byValidator ==
          map k | k in old(byValidator) && (k in todo || old(byValidator)[k].height >= height) :: old(byValidator)[k]
        invariant ids == old(ids) -
          (set k | k in old(byValidator) && k !in todo && old(byValidator)[k].height < height :: idOf(old(byValidator)[k]))
        decreases todo
      {
        var k :| k in todo;
        if byValidator[k].height < height {
          ids := ids - {idOf(byValidator[k])};
          byValidator := byValidator - {k};
        }
        todo := todo - {k};
      }
    }

    method PruneConflicts(height: nat)
      modifies `conflicting
      ensures conflicting == KeepFrom(old(conflicting), height)
    {
      var kept: seq<Vote> := [];
      for i := 0 to |conflicting|
        invariant conflicting == old(conflicting)
        invariant kept == KeepFrom(conflicting[..i], height)
      {
        assert conflicting[..i + 1][..i] == conflicting[..i];
        if conflicting[i].height >= height {
          kept := kept + [conflicting[i]];
        }
      }
      assert conflicting[..|conflicting|] == conflicting;
      conflicting := kept;
    }

    method PruneCounts(height: nat)
      modifies `conflictCounts
      ensures conflictCounts == map k | k in old(conflictCounts) && !DropsCount(k, height) :: old(conflictCounts)[k]
    {
      var todo := conflictCounts.Keys;
      while todo != {}
        invariant todo <= conflictCounts.Keys
        invariant conflictCounts ==
          map k | k in old(conflictCounts) && (k in todo || !DropsCount(k, height)) :: old(conflictCounts)[k]
        decreases todo
      {
        var k :| k in todo;
        if DropsCount(k, height) {
          conflictCounts := conflictCounts - {k};
        }
        todo := todo - {k};
      }
    }
  }
}
