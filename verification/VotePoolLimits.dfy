/** Where the guarantees of one vote pool end: after a prune, in the progress report, and for
    addresses that contain the key separator. Each limit is stated exactly. */
module VotePoolLimits {
  import opened Wrappers
  import opened Quorum
  import opened Certificates
  import opened Text
  import opened VotePool
  import opened VotePoolRuns

  // --- Pruned heights ----------------------------------------------------------------------

  /** A validator that has voted is admitted again, with another vote of that height, round and
      decision, exactly when the prune passed the height. */
  lemma ReadmittedIff(p: Pool, k: nat, x: Vote, idOf: Vote -> string)
    requires PoolInv(p, idOf) && ValidatorKey(x) in p.byValidator
    requires idOf(x) != "" && idOf(x) !in p.ids
    ensures SubmitStatus(Prune(p, k, idOf), x, true, idOf(x)) == Accepted <==> x.height < k
  {
    ValidatorKeyInjective(x, p.byValidator[ValidatorKey(x)]);
  }

  function Submissions(votes: seq<Vote>): (ops: seq<Op>)
    ensures |ops| == |votes| && forall i :: 0 <= i < |ops| ==> ops[i] == SubmitVote(votes[i], true)
  {
    seq(|votes|, i requires 0 <= i < |votes| => SubmitVote(votes[i], true))
  }

  /** Votes that meet neither a listed vote nor each other, by key or by id. */
  ghost predicate AllFresh(p: Pool, votes: seq<Vote>, idOf: Vote -> string) {
    && (forall i :: 0 <= i < |votes| ==>
          idOf(votes[i]) != "" && idOf(votes[i]) !in p.ids && ValidatorKey(votes[i]) !in p.byValidator)
    && forall i, j :: 0 <= i < j < |votes| ==>
         ValidatorKey(votes[i]) != ValidatorKey(votes[j]) && idOf(votes[i]) != idOf(votes[j])
  }

  function KeysOf(votes: seq<Vote>): set<string> {
    set x | x in votes :: ValidatorKey(x)
  }

  function IdSet(votes: seq<Vote>, idOf: Vote -> string): set<string> {
    set x | x in votes :: idOf(x)
  }

  lemma SetsAppend(front: seq<Vote>, last: Vote, idOf: Vote -> string)
    ensures KeysOf(front + [last]) == KeysOf(front) + {ValidatorKey(last)}
    ensures IdSet(front + [last], idOf) == IdSet(front, idOf) + {idOf(last)}
  {
  }

  lemma LastIsFresh(p: Pool, votes: seq<Vote>, idOf: Vote -> string, front: seq<Vote>, last: Vote)
    requires votes == front + [last] && AllFresh(p, votes, idOf)
    ensures AllFresh(p, front, idOf) && ValidatorKey(last) !in KeysOf(front) && idOf(last) !in IdSet(front, idOf)
    ensures idOf(last) != "" && idOf(last) !in p.ids && ValidatorKey(last) !in p.byValidator
  {
    assert votes[|front|] == last;
    forall i | 0 <= i < |front|
      ensures ValidatorKey(front[i]) != ValidatorKey(last) && idOf(front[i]) != idOf(last) && front[i] == votes[i]
    {
      assert ValidatorKey(votes[i]) != ValidatorKey(votes[|front|]);
    }
  }

  ghost predicate AllListed(q: Pool, votes: seq<Vote>) {
    forall x :: x in votes ==> x in VotesAt(q, BlockKeyOf(x))
  }

  lemma AcceptLists(m: Pool, front: seq<Vote>, last: Vote, id: string)
    requires AllListed(m, front) && SubmitStatus(m, last, true, id) == Accepted
    ensures AllListed(Submit(m, last, true, id), front + [last])
  {
    var q := Submit(m, last, true, id);
    forall x | x in front + [last] ensures x in VotesAt(q, BlockKeyOf(x)) {
      SubmitExtends(m, last, true, id, BlockKeyOf(x));
    }
  }

  /** The indexes grew by the votes' keys and ids, and every vote is listed. */
  ghost predicate Grown(p: Pool, q: Pool, votes: seq<Vote>, idOf: Vote -> string) {
    && q.byValidator.Keys == p.byValidator.Keys + KeysOf(votes)
    && q.ids == p.ids + IdSet(votes, idOf) && AllListed(q, votes)
  }

  lemma FreshStep(p: Pool, front: seq<Vote>, last: Vote, idOf: Vote -> string, m: Pool)
    requires Grown(p, m, front, idOf)
    requires ValidatorKey(last) !in KeysOf(front) && idOf(last) !in IdSet(front, idOf)
    requires idOf(last) != "" && idOf(last) !in p.ids && ValidatorKey(last) !in p.byValidator
    ensures Grown(p, Submit(m, last, true, idOf(last)), front + [last], idOf)
  {
    assert ValidatorKey(last) !in m.byValidator.Keys;
    assert SubmitStatus(m, last, true, idOf(last)) == Accepted;
    SetsAppend(front, last, idOf);
    AcceptLists(m, front, last, idOf(last));
  }

  lemma SubmissionsAppend(p: Pool, front: seq<Vote>, last: Vote, idOf: Vote -> string)
    ensures RunOps(p, Submissions(front + [last]), idOf) ==
      Submit(RunOps(p, Submissions(front), idOf), last, true, idOf(last))
  {
    assert Submissions(front + [last]) == Submissions(front) + [SubmitVote(last, true)];
    RunOpsAppend(p, Submissions(front), SubmitVote(last, true), idOf);
  }

  /** Fresh votes are all accepted. */
  lemma {:induction false} FreshAccepted(p: Pool, votes: seq<Vote>, idOf: Vote -> string)
    requires AllFresh(p, votes, idOf)
    ensures Grown(p, RunOps(p, Submissions(votes), idOf), votes, idOf)
  {
    if votes == [] {
      assert Submissions(votes) == [];
    } else {
      var front, last := votes[..|votes| - 1], votes[|votes| - 1];
      assert votes == front + [last];
      LastIsFresh(p, votes, idOf, front, last);
      FreshAccepted(p, front, idOf);
      FreshStep(p, front, last, idOf, RunOps(p, Submissions(front), idOf));
      SubmissionsAppend(p, front, last, idOf);
    }
  }

  /** The same voters precommit another block of the round, with new ids. */
  ghost predicate VoteAgain(
    p: Pool, h: nat, r: nat, a: string, b: string, votes: seq<Vote>, idOf: Vote -> string)
  {
    && (forall x :: x in votes ==> x.MatchesBlock(h, b, r) && x.decision == PRECOMMIT)
    && DistinctVoters(votes) && Voters(votes) == PrecommitVoters(p, h, r, a)
    && (forall i :: 0 <= i < |votes| ==> idOf(votes[i]) != "" && idOf(votes[i]) !in p.ids)
    && forall i, j :: 0 <= i < j < |votes| ==> idOf(votes[i]) != idOf(votes[j])
  }

  lemma FreshAfterPrune(
    p: Pool, k: nat, h: nat, r: nat, a: string, b: string, votes: seq<Vote>, idOf: Vote -> string)
    requires PoolInv(p, idOf) && VoteAgain(p, h, r, a, b, votes, idOf) && h < k
    ensures AllFresh(Prune(p, k, idOf), votes, idOf)
  {
    forall i | 0 <= i < |votes| ensures ValidatorKey(votes[i]) !in Prune(p, k, idOf).byValidator {
      assert votes[i] in votes;
      PrunedKeyFree(p, k, votes[i], idOf);
    }
    forall i, j | 0 <= i < j < |votes| ensures ValidatorKey(votes[i]) != ValidatorKey(votes[j]) {
      KeysApart(votes[i], votes[j]);
    }
  }

  lemma KeysApart(x: Vote, y: Vote)
    requires x.validator != y.validator
    ensures ValidatorKey(x) != ValidatorKey(y)
  {
    if ValidatorKey(x) == ValidatorKey(y) {
      ValidatorKeyInjective(x, y);
    }
  }

  /** A prune past a height frees all its keys. */
  lemma PrunedKeyFree(p: Pool, k: nat, x: Vote, idOf: Vote -> string)
    requires ValidatorsConsistent(p) && x.height < k
    ensures ValidatorKey(x) !in Prune(p, k, idOf).byValidator
  {
    var key := ValidatorKey(x);
    if key in p.byValidator {
      var y := p.byValidator[key];
      assert key == ValidatorKey(y);
      ValidatorKeyInjective(x, y);
    }
  }

  /** After a quorum for `a`, a prune and the same voters' precommits for `b` give a quorum for
      `b` in the same round exactly when the prune passed the height. */
  lemma SecondQuorumIff(
    p: Pool, k: nat, w: Weights, h: nat, r: nat, a: string, b: string, votes: seq<Vote>, idOf: Vote -> string, q: Pool)
    requires PoolInv(p, idOf) && HasPrecommitQuorum(p, w, h, r, a) && a != b
    requires VoteAgain(p, h, r, a, b, votes, idOf)
    requires q == RunOps(Prune(p, k, idOf), Submissions(votes), idOf)
    ensures HasPrecommitQuorum(q, w, h, r, b) <==> h < k
  {
    if h < k {
      FreshAfterPrune(p, k, h, r, a, b, votes, idOf);
      FreshAccepted(Prune(p, k, idOf), votes, idOf);
      forall v | v in Voters(votes) ensures v in PrecommitVoters(q, h, r, b) {
        var x :| x in votes && x.validator == v;
        assert x in VotesAt(q, BlockKeyOf(x));
      }
      QuorumMono(w, Voters(votes), PrecommitVoters(q, h, r, b));
    } else {
      FirstQuorumStays(p, k, w, h, r, a, votes, idOf, q);
      if HasPrecommitQuorum(q, w, h, r, b) {
        OneQuorumPerRound(q, idOf, w, h, r, a, b);
      }
    }
  }

  lemma FirstQuorumStays(
    p: Pool, k: nat, w: Weights, h: nat, r: nat, a: string, votes: seq<Vote>, idOf: Vote -> string, q: Pool)
    requires PoolInv(p, idOf) && HasPrecommitQuorum(p, w, h, r, a) && k <= h
    requires q == RunOps(Prune(p, k, idOf), Submissions(votes), idOf)
    ensures PoolInv(q, idOf) && HasPrecommitQuorum(q, w, h, r, a)
  {
    var m := Prune(p, k, idOf);
    PruneKeepsInv(p, k, idOf);
    RunKeepsInv(m, Submissions(votes), idOf);
    forall v | v in PrecommitVoters(p, h, r, a) ensures v in PrecommitVoters(q, h, r, a) {
      var x :| x in VotesAt(p, BlockKey(h, r, a)) && x.decision == PRECOMMIT && x.validator == v;
      ListedIn(p, BlockKey(h, r, a), x);
      VotePersists(m, Submissions(votes), idOf, x);
    }
    QuorumMono(w, PrecommitVoters(p, h, r, a), PrecommitVoters(q, h, r, a));
  }

  // --- Progress ------------------------------------------------------------------------------

  ghost predicate ReachesProgress(p: Pool, w: Weights, h: nat, r: nat, hash: string) {
    IsQuorum(w, Voters(VotesAt(p, BlockKey(h, r, hash))))
  }

  /** `v` has a vote for each of the two blocks, under two decisions. */
  ghost predicate VotedTwice(p: Pool, h: nat, r: nat, a: string, b: string, v: string) {
    exists x, y ::
      && x in VotesAt(p, BlockKey(h, r, a)) && y in VotesAt(p, BlockKey(h, r, b))
      && x.validator == v && y.validator == v && x.decision != y.decision
  }

  lemma SharedVoter(p: Pool, idOf: Vote -> string, h: nat, r: nat, a: string, b: string, v: string)
    requires PoolInv(p, idOf) && a != b
    ensures v in Voters(VotesAt(p, BlockKey(h, r, a))) * Voters(VotesAt(p, BlockKey(h, r, b))) <==>
      VotedTwice(p, h, r, a, b, v)
  {
    var one, two := VotesAt(p, BlockKey(h, r, a)), VotesAt(p, BlockKey(h, r, b));
    if v in Voters(one) * Voters(two) {
      var x :| x in one && x.validator == v;
      var y :| y in two && y.validator == v;
      ListedIn(p, BlockKey(h, r, a), x);
      ListedIn(p, BlockKey(h, r, b), y);
    }
  }

  /** Two blocks of one round that both reach the threshold in the progress report share voters
      of more than a third of the weight, each with votes under two decisions. */
  lemma ProgressOverlap(p: Pool, idOf: Vote -> string, w: Weights, h: nat, r: nat, a: string, b: string, both: set<string>)
    requires PoolInv(p, idOf) && a != b
    requires ReachesProgress(p, w, h, r, a) && ReachesProgress(p, w, h, r, b)
    requires both == Voters(VotesAt(p, BlockKey(h, r, a))) * Voters(VotesAt(p, BlockKey(h, r, b)))
    ensures 3 * Weight(w, both) > Total(w)
    ensures forall v :: v in both ==> VotedTwice(p, h, r, a, b, v)
  {
    QuorumIntersection(w, Voters(VotesAt(p, BlockKey(h, r, a))), Voters(VotesAt(p, BlockKey(h, r, b))));
    forall v | v in both ensures VotedTwice(p, h, r, a, b, v) {
      SharedVoter(p, idOf, h, r, a, b, v);
    }
  }

  /** No validator has votes of this round under two decisions. */
  ghost predicate OneDecisionEach(p: Pool, h: nat, r: nat) {
    forall k, l :: k in p.byValidator && l in p.byValidator ==>
      !TwoDecisions(p.byValidator[k], p.byValidator[l], h, r)
  }

  predicate TwoDecisions(x: Vote, y: Vote, h: nat, r: nat) {
    && x.height == h && x.round == r && y.height == h && y.round == r
    && x.validator == y.validator && x.decision != y.decision
  }

  lemma NeverTwice(p: Pool, h: nat, r: nat, a: string, b: string, v: string)
    requires BlocksConsistent(p) && OneDecisionEach(p, h, r)
    ensures !VotedTwice(p, h, r, a, b, v)
  {
    forall x, y | x in VotesAt(p, BlockKey(h, r, a)) && y in VotesAt(p, BlockKey(h, r, b)) && x.validator == v && y.validator == v
      ensures x.decision == y.decision
    {
      ListedIn(p, BlockKey(h, r, a), x);
      ListedIn(p, BlockKey(h, r, b), y);
      assert !TwoDecisions(p.byValidator[ValidatorKey(x)], p.byValidator[ValidatorKey(y)], h, r);
    }
  }

  /** Then at most one block of the round reaches the required progress, whatever the weights. */
  lemma ProgressExclusive(p: Pool, idOf: Vote -> string, w: Weights, h: nat, r: nat, a: string, b: string)
    requires PoolInv(p, idOf) && OneDecisionEach(p, h, r)
    requires ReachesProgress(p, w, h, r, a) && ReachesProgress(p, w, h, r, b)
    ensures a == b
  {
    if a != b {
      var both := Voters(VotesAt(p, BlockKey(h, r, a))) * Voters(VotesAt(p, BlockKey(h, r, b)));
      ProgressOverlap(p, idOf, w, h, r, a, b, both);
      assert both != {};
      var v :| v in both;
      NeverTwice(p, h, r, a, b, v);
    }
  }

  /** Exactly: some weights bring two blocks to full progress together if and only if some
      validator voted for both. */
  lemma ProgressSharedIff(p: Pool, idOf: Vote -> string, h: nat, r: nat, a: string, b: string)
    requires PoolInv(p, idOf) && a != b
    ensures (exists w: Weights :: ReachesProgress(p, w, h, r, a) && ReachesProgress(p, w, h, r, b)) <==>
      exists v :: VotedTwice(p, h, r, a, b, v)
  {
    if w: Weights :| ReachesProgress(p, w, h, r, a) && ReachesProgress(p, w, h, r, b) {
      var v := SomeSharedVoter(p, idOf, w, h, r, a, b);
    }
    if v :| VotedTwice(p, h, r, a, b, v) {
      SharedVoterSuffices(p, idOf, h, r, a, b, v);
    }
  }

  lemma SomeSharedVoter(p: Pool, idOf: Vote -> string, w: Weights, h: nat, r: nat, a: string, b: string) returns (v: string)
    requires PoolInv(p, idOf) && a != b
    requires ReachesProgress(p, w, h, r, a) && ReachesProgress(p, w, h, r, b)
    ensures VotedTwice(p, h, r, a, b, v)
  {
    var both := Voters(VotesAt(p, BlockKey(h, r, a))) * Voters(VotesAt(p, BlockKey(h, r, b)));
    ProgressOverlap(p, idOf, w, h, r, a, b, both);
    assert both != {};
    v :| v in both;
  }

  lemma SharedVoterSuffices(p: Pool, idOf: Vote -> string, h: nat, r: nat, a: string, b: string, v: string)
    requires PoolInv(p, idOf) && a != b && VotedTwice(p, h, r, a, b, v)
    ensures ReachesProgress(p, map[v := 1], h, r, a) && ReachesProgress(p, map[v := 1], h, r, b)
  {
    SharedVoter(p, idOf, h, r, a, b, v);
    SingleWeight(v, 1);
    QuorumMono(map[v := 1], {v}, Voters(VotesAt(p, BlockKey(h, r, a))));
    QuorumMono(map[v := 1], {v}, Voters(VotesAt(p, BlockKey(h, r, b))));
  }

  lemma SingleWeight(v: string, n: nat)
    ensures Weight(map[v := n], {v}) == n && Total(map[v := n]) == n
  {
    var w: Weights := map[v := n];
    WeightPeel(w, {v}, v);
    assert {v} - {v} == {} && w.Keys == {v};
  }

  function SampleVote(hash: string, d: Decision): Vote {
    Vote("v", 1, hash, "p", 1, d, 1, "s")
  }

  /** A reachable pool where it happens: one validator prevotes for one block and precommits
      another. */
  lemma SharedProgressReachable(idOf: Vote -> string)
    requires idOf(SampleVote("a", PREVOTE)) != "" && idOf(SampleVote("b", PRECOMMIT)) != ""
    requires idOf(SampleVote("a", PREVOTE)) != idOf(SampleVote("b", PRECOMMIT))
    ensures
      var p := RunOps(EMPTY, Submissions([SampleVote("a", PREVOTE), SampleVote("b", PRECOMMIT)]), idOf);
      VotedTwice(p, 1, 1, "a", "b", "v")
  {
    var x, y := SampleVote("a", PREVOTE), SampleVote("b", PRECOMMIT);
    if ValidatorKey(x) == ValidatorKey(y) {
      ValidatorKeyInjective(x, y);
    }
    var votes := [x, y];
    var p := RunOps(EMPTY, Submissions(votes), idOf);
    FreshAccepted(EMPTY, votes, idOf);
    assert x in votes && y in votes;
    assert x in VotesAt(p, BlockKey(1, 1, "a")) && y in VotesAt(p, BlockKey(1, 1, "b"));
  }

  /** Reachable pools where the second quorum can follow: one validator with all the weight, and
      its precommits for two blocks. */
  lemma SecondQuorumReachable(idOf: Vote -> string, x: Vote, y: Vote, w: Weights, p: Pool)
    requires x.decision == PRECOMMIT && y == x.(hash := y.hash, createdAt := y.createdAt, signature := y.signature)
    requires idOf(x) != "" && idOf(y) != "" && idOf(x) != idOf(y) && w == map[x.validator := 1]
    requires p == Submit(EMPTY, x, true, idOf(x))
    ensures PoolInv(p, idOf) && HasPrecommitQuorum(p, w, x.height, x.round, x.hash)
    ensures VoteAgain(p, x.height, x.round, x.hash, y.hash, [y], idOf)
  {
    FirstVoteInv(x, idOf, p);
    FirstVote(x, idOf(x), p);
    SingleWeight(x.validator, 1);
    LoneVoter(y);
  }

  lemma LoneVoter(y: Vote)
    ensures Voters([y]) == {y.validator} && DistinctVoters([y])
  {
  }

  lemma FirstVoteInv(x: Vote, idOf: Vote -> string, p: Pool)
    requires p == Submit(EMPTY, x, true, idOf(x))
    ensures PoolInv(p, idOf)
  {
    EmptyInv(idOf);
    SubmitKeepsInv(EMPTY, x, true, idOf);
  }

  lemma FirstVote(x: Vote, id: string, p: Pool)
    requires p == Submit(EMPTY, x, true, id) && id != "" && x.decision == PRECOMMIT
    ensures p.ids == {id} && PrecommitVoters(p, x.height, x.round, x.hash) == {x.validator}
  {
    assert SubmitStatus(EMPTY, x, true, id) == Accepted;
    assert VotesAt(p, BlockKeyOf(x)) == [x];
  }

  // --- Conflict records ------------------------------------------------------------------------

  function ConflictsOn(votes: seq<Vote>, key: string): nat {
    if votes == [] then 0
    else ConflictsOn(votes[..|votes| - 1], key) + (if ValidatorKey(votes[|votes| - 1]) == key then 1 else 0)
  }

  /** The part of a vote's key that pruning takes for the height: the text between the first two
      separators, which is inside the address if that has a separator. */
  function HeightField(x: Vote): string {
    var i := IndexOf(x.validator, '#');
    if i == |x.validator| then Decimal(x.height)
    else
      var rest := x.validator[i + 1..];
      rest[..IndexOf(rest, '#')]
  }

  lemma {:induction false} AllDigits(s: string)
    requires forall c :: c in s ==> IsDigit(c)
    ensures LeadingDigits(s) == s
  {
    if s != [] {
      AllDigits(s[1..]);
    }
  }

  lemma {:induction false} ParseDecimal(n: nat)
    ensures ParseWord(Decimal(n)) == if n <= UINT64_MAX then Some(n) else None
  {
    DecimalRoundTrip(n);
    assert IsDigit(Decimal(n)[0]);
    AllDigits(Decimal(n));
  }

  /** Pruning to `height` drops a counter with this text in the place of the height. */
  predicate DroppedBy(field: string, height: nat) {
    Below(ParseWord(field), height)
  }

  predicate Below(n: Option<int>, height: nat) {
    n.None? || n.value < height
  }

  lemma BelowIff(n: Option<int>, h: nat)
    ensures (forall k: nat :: Below(n, k) <==> h < k) <==> n == Some(h)
  {
    assert Below(n, h) || !Below(n, h);
    assert Below(n, h + 1) || !Below(n, h + 1);
  }

  /** Pruning looks at the text between the first two separators of the key. */
  lemma DropsByField(a: string, n: string, tail: string, height: nat)
    requires '#' !in a && '#' !in n
    ensures DropsCount(a + "#" + (n + "#" + tail), height) <==> DroppedBy(n, height)
  {
    IndexOfJoin(a, n + "#" + tail, '#');
    IndexOfJoin(n, tail, '#');
  }

  lemma DropsPlain(x: Vote, height: nat)
    requires '#' !in x.validator
    ensures DropsCount(ValidatorKey(x), height) <==> DroppedBy(Decimal(x.height), height)
  {
    DecimalRoundTrip(x.height);
    assert ValidatorKey(x) == x.validator + "#" + KeyTail(x);
    DropsByField(x.validator, Decimal(x.height), Decimal(x.round) + "#" + DecisionText(x.decision), height);
  }

  lemma DropsInside(x: Vote, a: string, rest: string, field: string, height: nat)
    requires x.validator == a + "#" + rest && '#' !in a && field == rest[..IndexOf(rest, '#')]
    ensures DropsCount(ValidatorKey(x), height) <==> DroppedBy(field, height)
  {
    var j, tail := IndexOf(rest, '#'), KeyTail(x);
    if j == |rest| {
      assert rest == field;
      JoinOnce(x.validator, a, field, tail);
      DropsByField(a, field, tail, height);
    } else {
      assert rest == field + "#" + rest[j + 1..];
      JoinTwice(x.validator, a, field, rest[j + 1..], tail);
      DropsByField(a, field, rest[j + 1..] + "#" + tail, height);
    }
  }

  lemma DropsIff(x: Vote, height: nat)
    ensures DropsCount(ValidatorKey(x), height) <==> DroppedBy(HeightField(x), height)
  {
    var v, i := x.validator, IndexOf(x.validator, '#');
    if i == |v| {
      assert v[..i] == v;
      DropsPlain(x, height);
    } else {
      assert v == v[..i] + "#" + v[i + 1..];
      DropsInside(x, v[..i], v[i + 1..], HeightField(x), height);
    }
  }

  /** A key is the address, a separator and this. */
  function KeyTail(x: Vote): (t: string)
    ensures ValidatorKey(x) == x.validator + "#" + t
  {
    Decimal(x.height) + "#" + (Decimal(x.round) + "#" + DecisionText(x.decision))
  }

  lemma JoinOnce(v: string, a: string, f: string, tail: string)
    requires v == a + "#" + f
    ensures v + "#" + tail == a + "#" + (f + "#" + tail)
  {
  }

  lemma JoinTwice(v: string, a: string, f: string, g: string, tail: string)
    requires v == a + "#" + (f + "#" + g)
    ensures v + "#" + tail == a + "#" + (f + "#" + (g + "#" + tail))
  {
  }

  /** Pruning drops a counter together with its votes exactly when the field it reads is the
      vote's height. */
  lemma PrunesRightIff(x: Vote)
    ensures (forall height: nat :: DropsCount(ValidatorKey(x), height) <==> x.height < height) <==>
      ParseWord(HeightField(x)) == Some(x.height)
  {
    var n := ParseWord(HeightField(x));
    forall height: nat ensures DropsCount(ValidatorKey(x), height) <==> Below(n, height) {
      DropsIff(x, height);
    }
    BelowIff(n, x.height);
  }

  lemma {:induction false} KeepFromConflicts(votes: seq<Vote>, height: nat, x: Vote)
    ensures ConflictsOn(KeepFrom(votes, height), ValidatorKey(x)) ==
      if x.height < height then 0 else ConflictsOn(votes, ValidatorKey(x))
  {
    if votes != [] {
      var front, last := votes[..|votes| - 1], votes[|votes| - 1];
      KeepFromConflicts(front, height, x);
      var kept := KeepFrom(front, height);
      assert (kept + [last])[..|kept|] == kept && kept + [] == kept;
      if ValidatorKey(last) == ValidatorKey(x) {
        ValidatorKeyInjective(last, x);
      }
    }
  }

  /** The counter of a vote's key never falls behind: pruning keeps it as long as the votes. */
  predicate CountKept(x: Vote) {
    ParseWord(HeightField(x)).Some? && ParseWord(HeightField(x)).value >= x.height
  }

  ghost predicate Bounded(p: Pool, x: Vote) {
    ConflictsOn(p.conflicting, ValidatorKey(x)) <= CountAt(p, ValidatorKey(x)) <= MAX_CONFLICTS_PER_KEY
  }

  ghost predicate Counted(p: Pool, x: Vote) {
    ConflictsOn(p.conflicting, ValidatorKey(x)) == CountAt(p, ValidatorKey(x)) <= MAX_CONFLICTS_PER_KEY
  }

  lemma ConflictsAppend(votes: seq<Vote>, y: Vote, key: string)
    ensures ConflictsOn(votes + [y], key) == ConflictsOn(votes, key) + if ValidatorKey(y) == key then 1 else 0
  {
    assert (votes + [y])[..|votes|] == votes;
  }

  /** A submission records nothing, or one conflict under a key that has room, counting it. */
  lemma SubmitEffect(p: Pool, y: Vote, valid: bool, id: string, q: Pool)
    requires q == Submit(p, y, valid, id)
    ensures
      || (q.conflicting == p.conflicting && q.conflictCounts == p.conflictCounts)
      || (&& CountAt(p, ValidatorKey(y)) < MAX_CONFLICTS_PER_KEY && q.conflicting == p.conflicting + [y]
          && q.conflictCounts == p.conflictCounts[ValidatorKey(y) := CountAt(p, ValidatorKey(y)) + 1])
  {
  }

  lemma SubmitCounts(p: Pool, y: Vote, valid: bool, id: string, x: Vote)
    ensures Bounded(p, x) ==> Bounded(Submit(p, y, valid, id), x)
    ensures Counted(p, x) ==> Counted(Submit(p, y, valid, id), x)
  {
    var q := Submit(p, y, valid, id);
    SubmitEffect(p, y, valid, id, q);
    ConflictsAppend(p.conflicting, y, ValidatorKey(x));
  }

  /** At most ten conflicting votes are recorded under a key in every run, and the counter is
      their number where pruning reads the vote's own height. */
  lemma {:induction false} ConflictRecordsBounded(ops: seq<Op>, idOf: Vote -> string, x: Vote)
    requires CountKept(x)
    ensures Bounded(RunOps(EMPTY, ops, idOf), x)
    ensures ParseWord(HeightField(x)) == Some(x.height) ==> Counted(RunOps(EMPTY, ops, idOf), x)
  {
    if ops != [] {
      var front, last := ops[..|ops| - 1], ops[|ops| - 1];
      ConflictRecordsBounded(front, idOf, x);
      var p := RunOps(EMPTY, front, idOf);
      match last
      case SubmitVote(y, valid) => SubmitCounts(p, y, valid, idOf(y), x);
      case PruneBelow(height) =>
        DropsIff(x, height);
        KeepFromConflicts(p.conflicting, height, x);
    }
  }

  /** A separator-free address is counted exactly. */
  lemma PlainAddressCounted(x: Vote)
    requires '#' !in x.validator && x.height <= UINT64_MAX
    ensures CountKept(x) && ParseWord(HeightField(x)) == Some(x.height)
  {
    ParseDecimal(x.height);
  }

  // One vote, the same conflicting vote ten times, a prune, and the conflicting vote again.

  function Repeat(y: Vote, n: nat): seq<Op> {
    if n == 0 then [] else Repeat(y, n - 1) + [SubmitVote(y, true)]
  }

  function Flood(x: Vote, y: Vote, n: nat): seq<Op> {
    [SubmitVote(x, true)] + Repeat(y, n)
  }

  predicate Conflict(x: Vote, y: Vote, idOf: Vote -> string) {
    && ValidatorKey(x) == ValidatorKey(y) && x.hash != y.hash
    && idOf(x) != "" && idOf(y) != "" && idOf(x) != idOf(y)
  }

  /** The pool holds `x`, and conflicts of its key `n` times. */
  ghost predicate Flooded(p: Pool, x: Vote, n: nat, idOf: Vote -> string) {
    && ValidatorKey(x) in p.byValidator && p.byValidator[ValidatorKey(x)] == x && p.ids == {idOf(x)}
    && p.byValidator == map[ValidatorKey(x) := x]
    && ConflictsOn(p.conflicting, ValidatorKey(x)) == n
  }

  lemma ConflictRecorded(p: Pool, x: Vote, y: Vote, n: nat, idOf: Vote -> string)
    requires Conflict(x, y, idOf) && Flooded(p, x, n, idOf) && CountAt(p, ValidatorKey(x)) < MAX_CONFLICTS_PER_KEY
    ensures var q := Submit(p, y, true, idOf(y));
      Flooded(q, x, n + 1, idOf) && CountAt(q, ValidatorKey(x)) == CountAt(p, ValidatorKey(x)) + 1
  {
    assert SubmitStatus(p, y, true, idOf(y)) == Conflicting;
    ConflictsAppend(p.conflicting, y, ValidatorKey(x));
  }

  lemma {:induction false} FloodFills(x: Vote, y: Vote, n: nat, idOf: Vote -> string, p: Pool)
    requires Conflict(x, y, idOf) && n <= MAX_CONFLICTS_PER_KEY && p == RunOps(EMPTY, Flood(x, y, n), idOf)
    ensures Flooded(p, x, n, idOf) && CountAt(p, ValidatorKey(x)) == n
  {
    if n == 0 {
      assert Flood(x, y, 0) == [SubmitVote(x, true)] && [SubmitVote(x, true)][..0] == [];
      assert p == Submit(EMPTY, x, true, idOf(x));
    } else {
      var ops := Flood(x, y, n);
      assert ops[..|ops| - 1] == Flood(x, y, n - 1) && ops[|ops| - 1] == SubmitVote(y, true);
      var q := RunOps(EMPTY, Flood(x, y, n - 1), idOf);
      FloodFills(x, y, n - 1, idOf, q);
      ConflictRecorded(q, x, y, n - 1, idOf);
    }
  }

  /** A prune that drops the counter but not the vote leaves all its records. */
  lemma FloodPruned(p: Pool, x: Vote, n: nat, height: nat, idOf: Vote -> string)
    requires Flooded(p, x, n, idOf) && DropsCount(ValidatorKey(x), height) && height <= x.height
    ensures Flooded(Prune(p, height, idOf), x, n, idOf) && CountAt(Prune(p, height, idOf), ValidatorKey(x)) == 0
  {
    KeepFromConflicts(p.conflicting, height, x);
  }

  ghost predicate AlwaysBounded(x: Vote, idOf: Vote -> string) {
    forall ops: seq<Op> :: ConflictsOn(RunOps(EMPTY, ops, idOf).conflicting, ValidatorKey(x)) <= MAX_CONFLICTS_PER_KEY
  }

  lemma FloodOverflows(x: Vote, y: Vote, height: nat, idOf: Vote -> string)
    requires Conflict(x, y, idOf) && DropsCount(ValidatorKey(x), height) && height <= x.height
    ensures !AlwaysBounded(x, idOf)
  {
    var ops, max := Flood(x, y, MAX_CONFLICTS_PER_KEY), MAX_CONFLICTS_PER_KEY;
    var p := RunOps(EMPTY, ops, idOf);
    FloodFills(x, y, max, idOf, p);
    FloodPruned(p, x, max, height, idOf);
    ConflictRecorded(Prune(p, height, idOf), x, y, max, idOf);
    RunOpsAppend(EMPTY, ops, PruneBelow(height), idOf);
    RunOpsAppend(EMPTY, ops + [PruneBelow(height)], SubmitVote(y, true), idOf);
    NotBounded(x, idOf, ops + [PruneBelow(height)] + [SubmitVote(y, true)]);
  }

  lemma NotBounded(x: Vote, idOf: Vote -> string, ops: seq<Op>)
    requires ConflictsOn(RunOps(EMPTY, ops, idOf).conflicting, ValidatorKey(x)) > MAX_CONFLICTS_PER_KEY
    ensures !AlwaysBounded(x, idOf)
  {
  }

  /** The bound of ten holds in every run exactly when the field that pruning reads is a number no
      smaller than the vote's height; otherwise a run records eleven. */
  lemma RecordsBoundedIff(x: Vote, y: Vote, idOf: Vote -> string)
    requires Conflict(x, y, idOf)
    ensures AlwaysBounded(x, idOf) <==> CountKept(x)
  {
    if CountKept(x) {
      forall ops: seq<Op>
        ensures ConflictsOn(RunOps(EMPTY, ops, idOf).conflicting, ValidatorKey(x)) <= MAX_CONFLICTS_PER_KEY
      {
        ConflictRecordsBounded(ops, idOf, x);
      }
    } else {
      DropsIff(x, x.height);
      FloodOverflows(x, y, x.height, idOf);
    }
  }

  /** The addresses for which it fails are easy to make: a zero after a separator will do. */
  lemma SeparatorLosesCount(x: Vote, a: string)
    requires '#' !in a && x.validator == a + "#" + "0" && x.height > 0
    ensures !CountKept(x)
  {
    IndexOfJoin(a, "0", '#');
    assert HeightField(x) == "0" == Decimal(0);
    ParseDecimal(0);
  }
}
