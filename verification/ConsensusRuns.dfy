/** Runs of the voting protocol: any interleaving of votes, round changes, finalizations,
    crashes and restarts of the honest validators, against faulty validators that may sign
    anything. Every run keeps the log rules that give agreement. */
module ConsensusRuns {
  import opened Wrappers
  import opened Quorum
  import opened Certificates
  import opened Chain
  import opened ValidatorNode
  import opened Agreement

  datatype Finalized = Finalized(validator: string, height: nat, hash: string)

  /** Every honest validator's node and chain, the votes they exposed with the blocks they
      voted for, and what they finalized. */
  datatype System = System(
    nodes: map<string, Node>, chains: map<string, seq<Block>>,
    log: seq<Vote>, voted: seq<Block>, finalized: seq<Finalized>)

  /** One step of one validator on block `b`. `ioOk` says whether a slot write reaches the disk;
      `prevoters` are the validators whose prevotes the node has counted. */
  datatype Action =
    | Prevote(v: string, b: Block, now: int, sig: string, j: Justification, ioOk: bool)
    | NilPrevote(v: string, now: int, sig: string, ioOk: bool)
    | Precommit(v: string, b: Block, now: int, sig: string, prevoters: set<string>, ioOk: bool)
    | NilPrecommit(v: string, now: int, sig: string, ioOk: bool)
    | AdvanceRound(v: string)
    | Finalize(v: string, b: Block, certificate: Certificate, keepVotes: bool, snapshot: bool)
    | Restart(v: string)

  const NIL := "nil"

  /** The common start of every chain is a valid genesis block. */
  predicate Rooted(cfg: Config) {
    ValidBlock(cfg.hash, cfg.genesis) && IsGenesis(cfg.genesis)
  }

  ghost function Initial(cfg: Config): System {
    System(map v | v in cfg.honest :: Node(v, 1, 1, "", 0, false, false, None, None, FreshRound(1)),
           map v | v in cfg.honest :: [cfg.genesis], [], [], [])
  }

  /** A vote or a finalization concerns a valid block of the node's height that extends its
      chain. Certificates are verified, and none can contain a forged honest vote. */
  ghost predicate Enabled(cfg: Config, s: System, a: Action) {
    && a.v in s.nodes && a.v in s.chains
    && (a.Prevote? || a.Precommit? || a.Finalize? ==>
          a.b.index == s.nodes[a.v].height && CanAppend(cfg.hash, s.chains[a.v], a.b))
    && (a.Prevote? && a.j.UnlockCertificate? ==> Authentic(cfg, s.log, a.j.certificate))
    && (a.Finalize? ==>
          && Authentic(cfg, s.log, a.certificate)
          && a.certificate.height == a.b.index && a.certificate.hash == a.b.hash
          && a.certificate.previousHash == a.b.previousHash
          && Verifies(a.certificate, cfg.registryAt(a.certificate.height), cfg.sigOk))
  }

  ghost function StepNode(cfg: Config, log: seq<Vote>, n: Node, a: Action): Outcome {
    var validators := cfg.registryAt(n.height);
    match a
    case Prevote(_, b, now, sig, j, ioOk) =>
      PrevoteStep(n, SignVote(n, b.hash, b.previousHash, PREVOTE, now, sig),
                  SafeToPrevote(n, b.hash, j, validators, cfg.sigOk), ioOk)
    case NilPrevote(_, now, sig, ioOk) =>
      Outcome(NilPrevoteStep(n, SignVote(n, NIL, NIL, REJECT, now, sig), ioOk), [])
    case Precommit(_, b, now, sig, prevoters, ioOk) =>
      PrecommitStep(n, SignVote(n, b.hash, b.previousHash, PRECOMMIT, now, sig),
                    Backed(cfg, log, validators, n.height, b.hash, n.round, PREVOTE, prevoters), ioOk)
    case NilPrecommit(_, now, sig, ioOk) =>
      Outcome(NilPrecommitStep(n, SignVote(n, NIL, NIL, REJECT, now, sig), ioOk), [])
    case AdvanceRound(_) => Outcome(AdvanceRoundStep(n), [])
    case Finalize(_, b, certificate, keepVotes, snapshot) => Outcome(FinalizeStep(n, keepVotes, snapshot), [])
    case Restart(_) => Outcome(RestartStep(n), [])
  }

  /** An action that is not enabled changes nothing. */
  ghost function Apply(cfg: Config, s: System, a: Action): System {
    if !Enabled(cfg, s, a) then s
    else
      var o := StepNode(cfg, s.log, s.nodes[a.v], a);
      System(s.nodes[a.v := o.node],
             if a.Finalize? then s.chains[a.v := s.chains[a.v] + [a.b]] else s.chains,
             s.log + o.exposed,
             if (a.Prevote? || a.Precommit?) && o.exposed != [] then s.voted + [a.b] else s.voted,
             if a.Finalize? then s.finalized + [Finalized(a.v, a.certificate.height, a.certificate.hash)]
             else s.finalized)
  }

  ghost function Run(cfg: Config, actions: seq<Action>): System {
    if actions == [] then Initial(cfg)
    else Apply(cfg, Run(cfg, actions[..|actions| - 1]), actions[|actions| - 1])
  }

  // --- What every reachable node state keeps ------------------------------------------

  /** A cast vote is below the node's height, or the slot of the current height covers it:
      no later than the slot's round, recorded there if from that round, and a precommit is
      never newer than the lock. */
  predicate VoteCovered(n: Node, x: Vote) {
    || x.height < n.height
    || (&& x.height == n.height == n.slot.height
        && x.round <= n.slot.round
        && (x.round == n.slot.round && x.decision == PREVOTE ==> n.slot.prevote == Some(x))
        && (x.round == n.slot.round && x.decision == PRECOMMIT ==> n.slot.precommit == Some(x))
        && (x.decision == PRECOMMIT ==>
              n.lockedHash != "" && x.round <= n.lockedRound && (x.round == n.lockedRound ==> x.hash == n.lockedHash)))
  }

  ghost predicate VotesCovered(n: Node, log: seq<Vote>) {
    forall i :: 0 <= i < |log| && log[i].validator == n.address ==> VoteCovered(n, log[i])
  }

  predicate VoteInSlot(n: Node, vote: Option<Vote>, slotVote: Option<Vote>, d: Decision) {
    vote.Some? && IsRoundVote(vote.value, n.height, n.round, d) ==>
      n.slot.height == n.height && n.slot.round == n.round && slotVote == vote
  }

  /** The slot never runs ahead of memory, and at equal rounds memory knows its votes. */
  predicate SlotAgrees(n: Node) {
    && 0 < n.height && 0 < n.round && n.slot.height <= n.height && Persistable(n.slot)
    && (n.slot.height == n.height ==>
          && n.slot.round <= n.round && n.slot.lockedHash == n.lockedHash && n.slot.lockedRound == n.lockedRound)
    && (n.slot.height == n.height && n.slot.round == n.round ==>
          && (n.slot.prevote.Some? ==> n.votedPrevote && n.prevote == n.slot.prevote)
          && (n.slot.precommit.Some? ==> n.votedPrecommit && n.precommit == n.slot.precommit))
    && (n.slot.height < n.height ==> n.lockedHash == "" && n.lockedRound == 0)
    && (n.prevote.Some? ==> n.prevote.value.height <= n.height)
    && (n.precommit.Some? ==> n.precommit.value.height <= n.height)
    && VoteInSlot(n, n.prevote, n.slot.prevote, PREVOTE)
    && VoteInSlot(n, n.precommit, n.slot.precommit, PRECOMMIT)
  }

  ghost predicate NodeInv(n: Node, log: seq<Vote>) {
    && SlotAgrees(n)
    && VotesCovered(n, log)
    && (n.lockedHash != "" ==> Voted(log, n.address, n.height, n.lockedHash, n.lockedRound, PRECOMMIT))
  }

  ghost predicate FinalizedBacked(cfg: Config, log: seq<Vote>, f: Finalized) {
    exists r: nat, s :: Backed(cfg, log, cfg.registryAt(f.height), f.height, f.hash, r, PRECOMMIT, s)
  }

  ghost predicate Inv(cfg: Config, s: System) {
    && s.nodes.Keys == cfg.honest
    && (forall v :: v in s.nodes ==> s.nodes[v].address == v && NodeInv(s.nodes[v], s.log))
    && HonestLog(cfg, s.log)
    && (forall f :: f in s.finalized ==> FinalizedBacked(cfg, s.log, f))
  }

  /** A step keeps the node invariant, and a vote it exposes follows the log rules. */
  ghost predicate StepKeeps(cfg: Config, n: Node, log: seq<Vote>, o: Outcome) {
    && o.node.address == n.address
    && NodeInv(o.node, log + o.exposed)
    && |o.exposed| <= 1
    && (o.exposed != [] ==> o.exposed[0].validator == n.address && Admissible(cfg, log, o.exposed[0]))
  }

  // --- Proof, one step at a time -------------------------------------------------------

  lemma VotedAppend(log: seq<Vote>, x: Vote, v: string, h: nat, b: string, r: nat, d: Decision)
    requires Voted(log, v, h, b, r, d)
    ensures Voted(log + [x], v, h, b, r, d)
  {
    var i := VotedAt(log, v, h, b, r, d);
    assert (log + [x])[i] == log[i];
  }

  lemma OtherNodeKeeps(n: Node, log: seq<Vote>, x: Vote)
    requires NodeInv(n, log) && x.validator != n.address
    ensures NodeInv(n, log + [x])
  {
    if n.lockedHash != "" {
      VotedAppend(log, x, n.address, n.height, n.lockedHash, n.lockedRound, PRECOMMIT);
    }
  }

  /** A verified, unforged certificate is backed by the honest votes in the log. */
  lemma CertificateBacked(cfg: Config, log: seq<Vote>, c: Certificate, reg: Registry)
    requires Verifies(c, reg, cfg.sigOk) && Authentic(cfg, log, c)
    ensures Backed(cfg, log, reg, c.height, c.hash, c.round, PRECOMMIT, Voters(c.votes))
  {
    CertificateIsQuorum(c, reg, cfg.sigOk);
    forall v | v in Voters(c.votes) && v in cfg.honest ensures Voted(log, v, c.height, c.hash, c.round, PRECOMMIT) {
      var x :| x in c.votes && x.validator == v && cfg.sigOk(x) && Supports(x, c.height, c.hash, c.previousHash, c.round);
      assert x in log;
    }
  }

  lemma FreshVoteNotRepeated(n: Node, log: seq<Vote>, x: Vote)
    requires NodeInv(n, log)
    requires x.validator == n.address && x.height == n.height && x.round == n.round
    requires (x.decision == PREVOTE && !n.votedPrevote) || (x.decision == PRECOMMIT && !n.votedPrecommit)
    ensures NotRepeated(log, x)
  {
  }

  lemma PrevoteRespectsLock(cfg: Config, n: Node, log: seq<Vote>, hash: string, j: Justification, x: Vote)
    requires NodeInv(n, log) && SafeToPrevote(n, hash, j, cfg.registryAt(n.height), cfg.sigOk)
    requires j.UnlockCertificate? ==> Authentic(cfg, log, j.certificate)
    requires x.validator == n.address && x.height == n.height && x.hash == hash
    ensures LockRespected(cfg, log, x)
  {
    if n.lockedHash == "" {
      forall i | 0 <= i < |log| && log[i].validator == x.validator && log[i].height == x.height
        ensures log[i].decision != PRECOMMIT
      {
        assert VoteCovered(n, log[i]);
      }
    } else {
      assert NewestPrecommit(log, x.validator, x.height, n.lockedHash, n.lockedRound) by {
        forall i | 0 <= i < |log| && log[i].validator == n.address && log[i].height == n.height && log[i].decision == PRECOMMIT
          ensures log[i].round <= n.lockedRound
        {
          assert VoteCovered(n, log[i]);
        }
      }
      if hash != n.lockedHash {
        CertificateBacked(cfg, log, j.certificate, cfg.registryAt(n.height));
        assert UnlockedBy(cfg, log, x, n.lockedRound, j.certificate.height, j.certificate.round, Voters(j.certificate.votes));
      }
    }
  }

  /** After a vote is saved and exposed, the slot covers it and everything before it. */
  lemma SavedVoteCovered(n: Node, m: Node, log: seq<Vote>, x: Vote)
    requires NodeInv(n, log) && SlotAgrees(m) && NotRepeated(log, x)
    requires m.address == n.address == x.validator && m.height == n.height == x.height && m.round == n.round == x.round
    requires m.slot == Snapshot(m)
    requires x.decision == PREVOTE ==>
      !n.votedPrevote && m.prevote == Some(x) && m.precommit == n.precommit
      && m.lockedHash == n.lockedHash && m.lockedRound == n.lockedRound
    requires x.decision == PRECOMMIT ==>
      !n.votedPrecommit && m.precommit == Some(x) && m.prevote == n.prevote && m.lockedHash == x.hash && m.lockedRound == x.round
    requires x.decision == PREVOTE || x.decision == PRECOMMIT
    ensures NodeInv(m, log + [x])
  {
    var next := log + [x];
    forall i | 0 <= i < |next| && next[i].validator == m.address ensures VoteCovered(m, next[i]) {
      if i < |log| {
        assert VoteCovered(n, log[i]);
        if next[i].height == m.height && next[i].round == m.round {
          assert next[i].decision != x.decision;
        }
      }
    }
    if x.decision == PREVOTE && n.lockedHash != "" {
      VotedAppend(log, x, n.address, n.height, n.lockedHash, n.lockedRound, PRECOMMIT);
    }
    assert next[|log|] == x;
  }

  lemma PrevoteKeeps(cfg: Config, n: Node, log: seq<Vote>, a: Action)
    requires a.Prevote? && NodeInv(n, log) && n.address in cfg.honest
    requires a.j.UnlockCertificate? ==> Authentic(cfg, log, a.j.certificate)
    ensures StepKeeps(cfg, n, log, StepNode(cfg, log, n, a))
  {
    var o := StepNode(cfg, log, n, a);
    if o.exposed != [] {
      var x := o.exposed[0];
      FreshVoteNotRepeated(n, log, x);
      PrevoteRespectsLock(cfg, n, log, a.b.hash, a.j, x);
      SavedVoteCovered(n, o.node, log, x);
    } else {
      assert log + [] == log;
    }
  }

  lemma PrecommitKeeps(cfg: Config, n: Node, log: seq<Vote>, a: Action)
    requires a.Precommit? && NodeInv(n, log) && n.address in cfg.honest
    ensures StepKeeps(cfg, n, log, StepNode(cfg, log, n, a))
  {
    var o := StepNode(cfg, log, n, a);
    if o.exposed != [] {
      var x := o.exposed[0];
      FreshVoteNotRepeated(n, log, x);
      SavedVoteCovered(n, o.node, log, x);
      assert Backed(cfg, log, cfg.registryAt(x.height), x.height, x.hash, x.round, PREVOTE, a.prevoters);
    } else {
      assert log + [] == log;
    }
  }

  lemma NilKeeps(cfg: Config, n: Node, log: seq<Vote>, a: Action)
    requires (a.NilPrevote? || a.NilPrecommit?) && NodeInv(n, log)
    ensures StepKeeps(cfg, n, log, StepNode(cfg, log, n, a))
  {
    var o := StepNode(cfg, log, n, a);
    assert o.node.slot == n.slot;
    assert log + [] == log;
  }

  lemma MoveKeeps(cfg: Config, n: Node, log: seq<Vote>, a: Action)
    requires (a.AdvanceRound? || a.Finalize?) && NodeInv(n, log)
    ensures StepKeeps(cfg, n, log, StepNode(cfg, log, n, a))
  {
    var o := StepNode(cfg, log, n, a);
    forall i | 0 <= i < |log| && log[i].validator == n.address ensures VoteCovered(o.node, log[i]) {
      assert VoteCovered(n, log[i]);
    }
    assert log + [] == log;
  }

  lemma RestartKeeps(cfg: Config, n: Node, log: seq<Vote>, a: Action)
    requires a.Restart? && NodeInv(n, log)
    ensures StepKeeps(cfg, n, log, StepNode(cfg, log, n, a))
  {
    var m := StepNode(cfg, log, n, a).node;
    forall i | 0 <= i < |log| && log[i].validator == n.address ensures VoteCovered(m, log[i]) {
      assert VoteCovered(n, log[i]);
    }
    assert log + [] == log;
  }

  lemma FinalizedStaysBacked(cfg: Config, log: seq<Vote>, more: seq<Vote>, f: Finalized)
    requires FinalizedBacked(cfg, log, f)
    ensures FinalizedBacked(cfg, log + more, f)
  {
    var r: nat, s :| Backed(cfg, log, cfg.registryAt(f.height), f.height, f.hash, r, PRECOMMIT, s);
    assert (log + more)[..|log|] == log;
    BackedMono(cfg, log + more, |log|, cfg.registryAt(f.height), f.height, f.hash, r, PRECOMMIT, s);
  }

  lemma StepNodeKeeps(cfg: Config, s: System, a: Action)
    requires Inv(cfg, s) && Enabled(cfg, s, a)
    ensures StepKeeps(cfg, s.nodes[a.v], s.log, StepNode(cfg, s.log, s.nodes[a.v], a))
  {
    var n := s.nodes[a.v];
    if a.Prevote? {
      PrevoteKeeps(cfg, n, s.log, a);
    } else if a.Precommit? {
      PrecommitKeeps(cfg, n, s.log, a);
    } else if a.NilPrevote? || a.NilPrecommit? {
      NilKeeps(cfg, n, s.log, a);
    } else if a.Restart? {
      RestartKeeps(cfg, n, s.log, a);
    } else {
      MoveKeeps(cfg, n, s.log, a);
    }
  }

  lemma ApplyKeeps(cfg: Config, s: System, a: Action)
    requires Inv(cfg, s)
    ensures Inv(cfg, Apply(cfg, s, a))
  {
    if Enabled(cfg, s, a) {
      var o := StepNode(cfg, s.log, s.nodes[a.v], a);
      StepNodeKeeps(cfg, s, a);
      NodesKeep(cfg, s, a, o);
      var t := Apply(cfg, s, a);
      forall f | f in t.finalized ensures FinalizedBacked(cfg, t.log, f) {
        if f !in s.finalized {
          CertificateBacked(cfg, s.log, a.certificate, cfg.registryAt(a.certificate.height));
          assert FinalizedBacked(cfg, s.log, f);
        }
        FinalizedStaysBacked(cfg, s.log, o.exposed, f);
      }
    }
  }

  lemma NodesKeep(cfg: Config, s: System, a: Action, o: Outcome)
    requires Inv(cfg, s) && a.v in s.nodes && StepKeeps(cfg, s.nodes[a.v], s.log, o)
    ensures HonestLog(cfg, s.log + o.exposed)
    ensures forall v :: v in s.nodes && v != a.v ==> NodeInv(s.nodes[v], s.log + o.exposed)
  {
    if o.exposed == [] {
      assert s.log + o.exposed == s.log;
    } else {
      assert o.exposed == [o.exposed[0]];
      HonestLogAppend(cfg, s.log, o.exposed[0]);
      forall v | v in s.nodes && v != a.v ensures NodeInv(s.nodes[v], s.log + o.exposed) {
        OtherNodeKeeps(s.nodes[v], s.log, o.exposed[0]);
      }
    }
  }

  lemma {:induction false} RunKeeps(cfg: Config, actions: seq<Action>)
    ensures Inv(cfg, Run(cfg, actions))
  {
    if actions != [] {
      RunKeeps(cfg, actions[..|actions| - 1]);
      ApplyKeeps(cfg, Run(cfg, actions[..|actions| - 1]), actions[|actions| - 1]);
    }
  }

  // --- Chains and voted blocks ---------------------------------------------------------

  /** The block behind an honest vote: of the vote's height, linked to a hash, and hashed from
      its own header. */
  predicate VotesFor(cfg: Config, x: Vote, b: Block) {
    b.index == x.height && b.hash == x.hash && b.hash == cfg.hash(Header(b)) && IsHex(b.previousHash)
  }

  ghost predicate VotedBlocks(cfg: Config, s: System) {
    |s.voted| == |s.log| && forall i :: 0 <= i < |s.log| ==> VotesFor(cfg, s.log[i], s.voted[i])
  }

  /** A node's chain is valid, ends just below its height, and each block after genesis was
      finalized by this node. */
  ghost predicate ChainKept(cfg: Config, v: string, height: nat, chain: seq<Block>, finalized: seq<Finalized>) {
    && ValidChain(cfg.hash, chain) && chain[0] == cfg.genesis && |chain| == height
    && forall i :: 0 < i < |chain| ==> Finalized(v, i, chain[i].hash) in finalized
  }

  ghost predicate ChainsKept(cfg: Config, s: System) {
    && s.nodes.Keys == cfg.honest && s.chains.Keys == cfg.honest
    && forall v :: v in cfg.honest ==> ChainKept(cfg, v, s.nodes[v].height, s.chains[v], s.finalized)
  }

  /** What extends a chain from genesis carries its own header's hash and links to a hash. */
  lemma ExtensionIsHashed(cfg: Config, chain: seq<Block>, b: Block)
    requires Rooted(cfg) && ValidChain(cfg.hash, chain) && chain[0] == cfg.genesis && CanAppend(cfg.hash, chain, b)
    ensures b.hash == cfg.hash(Header(b)) && IsHex(b.previousHash)
  {
    AppendKeepsValid(cfg.hash, chain, b);
    HashedHeader(cfg.hash, chain + [b], |chain|);
    assert (chain + [b])[|chain|] == b;
  }

  lemma StepHeight(cfg: Config, log: seq<Vote>, n: Node, a: Action)
    ensures StepNode(cfg, log, n, a).node.height == if a.Finalize? then n.height + 1 else n.height
    ensures var e := StepNode(cfg, log, n, a).exposed;
      e == [] || ((a.Prevote? || a.Precommit?) && |e| == 1 && e[0].height == n.height && e[0].hash == a.b.hash)
  {
  }

  lemma ChainGrows(cfg: Config, v: string, chain: seq<Block>, finalized: seq<Finalized>, b: Block)
    requires Rooted(cfg) && ChainKept(cfg, v, b.index, chain, finalized) && CanAppend(cfg.hash, chain, b)
    ensures ChainKept(cfg, v, b.index + 1, chain + [b], finalized + [Finalized(v, b.index, b.hash)])
  {
    AppendKeepsValid(cfg.hash, chain, b);
    forall i | 0 < i <= |chain| ensures Finalized(v, i, (chain + [b])[i].hash) in finalized + [Finalized(v, b.index, b.hash)] {
      assert i < |chain| ==> Finalized(v, i, chain[i].hash) in finalized;
    }
  }

  lemma ApplyKeepsChains(cfg: Config, s: System, a: Action)
    requires Rooted(cfg) && ChainsKept(cfg, s)
    ensures ChainsKept(cfg, Apply(cfg, s, a))
  {
    if Enabled(cfg, s, a) {
      var t := Apply(cfg, s, a);
      StepHeight(cfg, s.log, s.nodes[a.v], a);
      forall v | v in cfg.honest ensures ChainKept(cfg, v, t.nodes[v].height, t.chains[v], t.finalized) {
        assert ChainKept(cfg, v, s.nodes[v].height, s.chains[v], s.finalized);
        if v == a.v && a.Finalize? {
          ChainGrows(cfg, v, s.chains[v], s.finalized, a.b);
        }
      }
    }
  }

  lemma ApplyKeepsVoted(cfg: Config, s: System, a: Action)
    requires Rooted(cfg) && ChainsKept(cfg, s) && VotedBlocks(cfg, s)
    ensures VotedBlocks(cfg, Apply(cfg, s, a))
  {
    if Enabled(cfg, s, a) {
      StepHeight(cfg, s.log, s.nodes[a.v], a);
      if a.Prevote? || a.Precommit? {
        assert ChainKept(cfg, a.v, s.nodes[a.v].height, s.chains[a.v], s.finalized);
        ExtensionIsHashed(cfg, s.chains[a.v], a.b);
      }
    }
  }

  lemma {:induction false} RunKeepsChains(cfg: Config, actions: seq<Action>)
    requires Rooted(cfg)
    ensures ChainsKept(cfg, Run(cfg, actions)) && VotedBlocks(cfg, Run(cfg, actions))
  {
    if actions != [] {
      RunKeepsChains(cfg, actions[..|actions| - 1]);
      ApplyKeepsChains(cfg, Run(cfg, actions[..|actions| - 1]), actions[|actions| - 1]);
      ApplyKeepsVoted(cfg, Run(cfg, actions[..|actions| - 1]), actions[|actions| - 1]);
    }
  }

  /** Two blocks honest validators voted for have different headers with one hash. */
  ghost predicate VotedHeadersCollide(cfg: Config, voted: seq<Block>) {
    exists i, j :: 0 <= i < |voted| && 0 <= j < |voted|
      && Header(voted[i]) != Header(voted[j]) && cfg.hash(Header(voted[i])) == cfg.hash(Header(voted[j]))
  }

  /** One hash at two heights needs two headers, because a header names its height. */
  lemma TwoHeightsCollide(cfg: Config, s: System)
    requires VotedBlocks(cfg, s) && HashAtTwoHeights(cfg, s.log)
    ensures VotedHeadersCollide(cfg, s.voted)
  {
    var i, j :| 0 <= i < |s.log| && 0 <= j < |s.log| && s.log[i].hash == s.log[j].hash
      && s.log[i].height != s.log[j].height;
    assert VotesFor(cfg, s.log[i], s.voted[i]) && VotesFor(cfg, s.log[j], s.voted[j]);
    if Header(s.voted[i]) == Header(s.voted[j]) {
      HeaderInjective(s.voted[i], s.voted[j]);
    }
  }

  // --- Agreement -----------------------------------------------------------------------

  /** Agreement: whatever the validators do, and however often they crash and restart, two
      verified certificates of one height certify the same block - or two blocks that honest
      validators voted for have different headers with one hash. */
  lemma CertificatesAgree(cfg: Config, actions: seq<Action>, c1: Certificate, c2: Certificate)
    requires FaultsBounded(cfg) && Rooted(cfg) && c1.height == c2.height
    requires Verifies(c1, cfg.registryAt(c1.height), cfg.sigOk) && Authentic(cfg, Run(cfg, actions).log, c1)
    requires Verifies(c2, cfg.registryAt(c2.height), cfg.sigOk) && Authentic(cfg, Run(cfg, actions).log, c2)
    ensures c1.hash == c2.hash || VotedHeadersCollide(cfg, Run(cfg, actions).voted)
  {
    var log, reg := Run(cfg, actions).log, cfg.registryAt(c1.height);
    RunKeeps(cfg, actions);
    CertificateBacked(cfg, log, c1, reg);
    CertificateBacked(cfg, log, c2, reg);
    if c1.round <= c2.round {
      QuorumsAgree(cfg, log, c1.height, c1.hash, c1.round, Voters(c1.votes), c2.hash, c2.round, Voters(c2.votes));
    } else {
      QuorumsAgree(cfg, log, c1.height, c2.hash, c2.round, Voters(c2.votes), c1.hash, c1.round, Voters(c1.votes));
    }
    if c1.hash != c2.hash {
      RunKeepsChains(cfg, actions);
      TwoHeightsCollide(cfg, Run(cfg, actions));
    }
  }

  lemma FinalizedAgree(cfg: Config, s: System, f: Finalized, g: Finalized)
    requires FaultsBounded(cfg) && Inv(cfg, s) && VotedBlocks(cfg, s)
    requires f in s.finalized && g in s.finalized && f.height == g.height
    ensures f.hash == g.hash || VotedHeadersCollide(cfg, s.voted)
  {
    var reg := cfg.registryAt(f.height);
    var r: nat, p :| Backed(cfg, s.log, reg, f.height, f.hash, r, PRECOMMIT, p);
    var r': nat, q :| Backed(cfg, s.log, reg, g.height, g.hash, r', PRECOMMIT, q);
    if r <= r' {
      QuorumsAgree(cfg, s.log, f.height, f.hash, r, p, g.hash, r', q);
    } else {
      QuorumsAgree(cfg, s.log, f.height, g.hash, r', q, f.hash, r, p);
    }
    if f.hash != g.hash {
      TwoHeightsCollide(cfg, s);
    }
  }

  /** No two honest validators ever finalize different blocks at one height, or two voted
      headers collide. */
  lemma FinalizedBlocksAgree(cfg: Config, actions: seq<Action>, f: Finalized, g: Finalized)
    requires FaultsBounded(cfg) && Rooted(cfg) && f.height == g.height
    requires f in Run(cfg, actions).finalized && g in Run(cfg, actions).finalized
    ensures f.hash == g.hash || VotedHeadersCollide(cfg, Run(cfg, actions).voted)
  {
    RunKeeps(cfg, actions);
    RunKeepsChains(cfg, actions);
    FinalizedAgree(cfg, Run(cfg, actions), f, g);
  }

  lemma SameHashSameHeader(cfg: Config, a: seq<Block>, b: seq<Block>, i: nat)
    requires Rooted(cfg) && ValidChain(cfg.hash, a) && ValidChain(cfg.hash, b)
    requires a[0] == cfg.genesis == b[0] && 0 < i < |a| && i < |b|
    ensures a[i].hash == b[i].hash ==> Header(a[i]) == Header(b[i]) || HeadersCollide(cfg.hash, a, b)
  {
    HashedHeader(cfg.hash, a, i);
    HashedHeader(cfg.hash, b, i);
  }

  ghost predicate SameHeaderAt(cfg: Config, s: System, v: string, w: string, i: nat)
    requires v in s.chains && i < |s.chains[v]| && w in s.chains && i < |s.chains[w]|
  {
    || Header(s.chains[v][i]) == Header(s.chains[w][i])
    || HeadersCollide(cfg.hash, s.chains[v], s.chains[w])
    || VotedHeadersCollide(cfg, s.voted)
  }

  lemma ReachedChainsAgree(cfg: Config, s: System, v: string, w: string, i: nat)
    requires FaultsBounded(cfg) && Rooted(cfg) && Inv(cfg, s) && ChainsKept(cfg, s) && VotedBlocks(cfg, s)
    requires v in s.chains && i < |s.chains[v]| && w in s.chains && i < |s.chains[w]|
    ensures SameHeaderAt(cfg, s, v, w, i)
  {
    assert ChainKept(cfg, v, s.nodes[v].height, s.chains[v], s.finalized);
    assert ChainKept(cfg, w, s.nodes[w].height, s.chains[w], s.finalized);
    if i > 0 {
      FinalizedAgree(cfg, s, Finalized(v, i, s.chains[v][i].hash), Finalized(w, i, s.chains[w][i].hash));
      SameHashSameHeader(cfg, s.chains[v], s.chains[w], i);
    }
  }

  /** In every run the chains of two honest validators carry the same headers at every height
      both have reached, or two different headers with one hash are at hand. */
  lemma ChainsAgree(cfg: Config, actions: seq<Action>, v: string, w: string, i: nat)
    requires FaultsBounded(cfg) && Rooted(cfg)
    requires v in Run(cfg, actions).chains && i < |Run(cfg, actions).chains[v]|
    requires w in Run(cfg, actions).chains && i < |Run(cfg, actions).chains[w]|
    ensures SameHeaderAt(cfg, Run(cfg, actions), v, w, i)
  {
    RunKeeps(cfg, actions);
    RunKeepsChains(cfg, actions);
    ReachedChainsAgree(cfg, Run(cfg, actions), v, w, i);
  }

  /** Crashes never make a validator vote twice: in every run each honest validator casts at
      most one prevote and one precommit per height and round. */
  lemma NoEquivocation(cfg: Config, actions: seq<Action>, i: nat, j: nat)
    requires i < |Run(cfg, actions).log| && j < |Run(cfg, actions).log|
    requires
      var log := Run(cfg, actions).log;
      && log[i].validator == log[j].validator && log[i].height == log[j].height
      && log[i].round == log[j].round && log[i].decision == log[j].decision
    ensures i == j
  {
    var log := Run(cfg, actions).log;
    RunKeeps(cfg, actions);
    if i < j {
      TwoVotes(cfg, log, i, j);
    } else if j < i {
      TwoVotes(cfg, log, j, i);
    }
  }
}
