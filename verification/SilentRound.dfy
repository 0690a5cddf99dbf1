/** A property the voting loop does not have: a validator that can write its slot and holds no
    lock prevotes. After a finalization in the loop the first round of the next height is
    silent exactly while the old precommit is in memory; a run from the start reaches it. */
module SilentRound {
  import opened Wrappers
  import opened Quorum
  import opened Certificates
  import opened Chain
  import opened ValidatorNode
  import opened Agreement
  import opened ConsensusRuns

  /** After the voting loop finalizes a height, an enabled prevote of the next height is exposed
      exactly when no precommit of the finalized height is left in the node's memory. */
  lemma SilentAfterFinalize(cfg: Config, s: System, f: Action, a: Action)
    requires Enabled(cfg, s, f) && f.Finalize? && f.keepVotes
    requires a.Prevote? && a.ioOk && a.v == f.v == s.nodes[f.v].address != ""
    requires Enabled(cfg, Apply(cfg, s, f), a)
    ensures |Apply(cfg, Apply(cfg, s, f), a).log| == |s.log| + 1 <==> s.nodes[f.v].precommit.None?
    ensures s.nodes[f.v].precommit.Some? ==> Apply(cfg, Apply(cfg, s, f), a).log == s.log
  {
    var n, t := s.nodes[f.v], Apply(cfg, s, f);
    var m := t.nodes[f.v];
    assert m == FinalizeStep(n, true, f.snapshot) && t.log == s.log + [];
    var x := SignVote(m, a.b.hash, a.b.previousHash, PREVOTE, a.now, a.sig);
    assert SafeToPrevote(m, a.b.hash, a.j, cfg.registryAt(m.height), cfg.sigOk);
    KeptPrecommitSilencesRound(n, x, f.snapshot, true);
    assert StepNode(cfg, t.log, m, a) == PrevoteStep(m, x, true, true);
    assert Apply(cfg, t, a).log == t.log + PrevoteStep(m, x, true, true).exposed;
    assert ValidBlock(cfg.hash, a.b);
  }

  // A network of one honest validator, for every block hash and signature scheme that accepts
  // its votes: it votes for a block, finalizes it on its own certificate, and falls silent.

  const SOLO := "validator"
  const SOLO_SET := Registry(map[SOLO := 1], {SOLO}, "root")

  /** A block with the hash of its own header. */
  function Sealed(h: string -> Digest, index: nat, previousHash: string, timestamp: int): (b: Block)
    ensures b.hash == h(Header(b)) && b.index == index && b.previousHash == previousHash && b.timestamp == timestamp
    ensures b.recordsOk
  {
    var b := Block(index, previousHash, "", timestamp, "", true);
    b.(hash := h(Header(b)))
  }

  function SoloConfig(h: string -> Digest): Config {
    Config({SOLO}, (n: nat) => SOLO_SET, (x: Vote) => true, h, Sealed(h, 0, GENESIS, 1))
  }

  function FirstBlock(h: string -> Digest): Block {
    Sealed(h, 1, SoloConfig(h).genesis.hash, 2)
  }

  function SoloVote(b: Block, d: Decision): Vote {
    Vote(SOLO, 1, b.hash, b.previousHash, 1, d, 0, "")
  }

  function SoloCertificate(b: Block): Certificate {
    Certificate(1, b.hash, b.previousHash, 1, 1, 1, 1, "root", [SoloVote(b, PRECOMMIT)])
  }

  lemma SoloWeighs(h: string -> Digest)
    ensures Total(SOLO_SET.weights) == 1
    ensures IsQuorum(SOLO_SET.weights, {SOLO}) && FaultsBounded(SoloConfig(h))
  {
    var w := SOLO_SET.weights;
    WeightPeel(w, {SOLO}, SOLO);
    assert {SOLO} - {SOLO} == {} && w.Keys == {SOLO} && w.Keys - {SOLO} == {};
  }

  lemma HexIsSafe(s: string)
    requires IsHex(s)
    ensures SafeScalar(s)
  {
  }

  lemma SoloCertificateVerifies(h: string -> Digest, b: Block)
    requires IsHex(b.hash) && IsHex(b.previousHash)
    ensures Verifies(SoloCertificate(b), SOLO_SET, SoloConfig(h).sigOk)
  {
    SoloWeighs(h);
    HexIsSafe(b.hash);
    HexIsSafe(b.previousHash);
    var votes := [SoloVote(b, PRECOMMIT)];
    assert votes[..0] == [] && SignedWeight(SOLO_SET, votes) == 1;
  }

  function SoloPrevote(h: string -> Digest): Action {
    Prevote(SOLO, FirstBlock(h), 0, "", NoJustification, true)
  }

  function SoloPrecommit(h: string -> Digest): Action {
    Precommit(SOLO, FirstBlock(h), 0, "", {SOLO}, true)
  }

  function SoloFinalize(h: string -> Digest): Action {
    Finalize(SOLO, FirstBlock(h), SoloCertificate(FirstBlock(h)), true, false)
  }

  function SoloPrevoted(h: string -> Digest): Node {
    var p := Some(SoloVote(FirstBlock(h), PREVOTE));
    Node(SOLO, 1, 1, "", 0, true, false, p, None, RoundState(1, 1, "", 0, p, None))
  }

  function SoloVoted(h: string -> Digest): Node {
    var b := FirstBlock(h);
    var p, q := Some(SoloVote(b, PREVOTE)), Some(SoloVote(b, PRECOMMIT));
    Node(SOLO, 1, 1, b.hash, 1, true, true, p, q, RoundState(1, 1, b.hash, 1, p, q))
  }

  lemma SoloPrevotes(h: string -> Digest, s: System, t: System)
    requires s == Initial(SoloConfig(h)) && t == Apply(SoloConfig(h), s, SoloPrevote(h))
    ensures t.nodes == map[SOLO := SoloPrevoted(h)] && t.chains == map[SOLO := [SoloConfig(h).genesis]]
    ensures t.log == [SoloVote(FirstBlock(h), PREVOTE)]
  {
    var n := s.nodes[SOLO];
    assert Enabled(SoloConfig(h), s, SoloPrevote(h));
    var m := n.(prevote := Some(SoloVote(FirstBlock(h), PREVOTE)));
    assert Persistable(Snapshot(m));
  }

  lemma SoloPrecommits(h: string -> Digest, s: System, t: System)
    requires s.nodes == map[SOLO := SoloPrevoted(h)] && s.chains == map[SOLO := [SoloConfig(h).genesis]]
    requires s.log == [SoloVote(FirstBlock(h), PREVOTE)] && t == Apply(SoloConfig(h), s, SoloPrecommit(h))
    ensures t.nodes == map[SOLO := SoloVoted(h)] && t.chains == map[SOLO := [SoloConfig(h).genesis]]
    ensures t.log == [SoloVote(FirstBlock(h), PREVOTE), SoloVote(FirstBlock(h), PRECOMMIT)]
  {
    var cfg, b := SoloConfig(h), FirstBlock(h);
    SoloWeighs(h);
    assert Enabled(cfg, s, SoloPrecommit(h));
    assert s.log[0] == SoloVote(b, PREVOTE);
    assert Backed(cfg, s.log, SOLO_SET, 1, b.hash, 1, PREVOTE, {SOLO});
    assert Persistable(SoloVoted(h).slot);
  }

  lemma RunAppend(cfg: Config, actions: seq<Action>, a: Action)
    ensures Run(cfg, actions + [a]) == Apply(cfg, Run(cfg, actions), a)
  {
    assert (actions + [a])[..|actions|] == actions;
  }

  lemma {:induction false} SoloReaches(h: string -> Digest, s: System)
    requires s == Run(SoloConfig(h), [] + [SoloPrevote(h)] + [SoloPrecommit(h)])
    ensures s.nodes == map[SOLO := SoloVoted(h)] && s.chains == map[SOLO := [SoloConfig(h).genesis]]
    ensures s.log == [SoloVote(FirstBlock(h), PREVOTE), SoloVote(FirstBlock(h), PRECOMMIT)]
  {
    var cfg := SoloConfig(h);
    var s1 := Run(cfg, [] + [SoloPrevote(h)]);
    RunAppend(cfg, [], SoloPrevote(h));
    RunAppend(cfg, [] + [SoloPrevote(h)], SoloPrecommit(h));
    SoloPrevotes(h, Initial(cfg), s1);
    SoloPrecommits(h, s1, s);
  }

  lemma SoloFinalizes(h: string -> Digest, s: System, t: System, a: Action)
    requires s.nodes == map[SOLO := SoloVoted(h)] && s.chains == map[SOLO := [SoloConfig(h).genesis]]
    requires s.log == [SoloVote(FirstBlock(h), PREVOTE), SoloVote(FirstBlock(h), PRECOMMIT)]
    requires t == Apply(SoloConfig(h), s, SoloFinalize(h))
    requires a.Prevote? && a.v == SOLO && a.j.NoJustification? && a.ioOk && ValidNext(h, FirstBlock(h), a.b)
    ensures Enabled(SoloConfig(h), t, a) && Finalized(SOLO, 1, FirstBlock(h).hash) in t.finalized
    ensures Apply(SoloConfig(h), t, a).log == t.log
  {
    var cfg := SoloConfig(h);
    SoloCertificateVerifies(h, FirstBlock(h));
    assert Enabled(cfg, s, SoloFinalize(h));
    assert t.nodes[SOLO].height == 2 && t.chains[SOLO] == [cfg.genesis, FirstBlock(h)];
    assert Enabled(cfg, t, a);
    SilentAfterFinalize(cfg, s, SoloFinalize(h), a);
    assert t.log == s.log + [];
  }

  /** The validator prevotes, precommits and finalizes height 1. */
  function SoloRun(h: string -> Digest): seq<Action> {
    [] + [SoloPrevote(h)] + [SoloPrecommit(h)] + [SoloFinalize(h)]
  }

  /** In a fault-free network with a working disk, the validator finalizes height 1, and then
      no prevote of the next height's first round leaves the node, whatever valid block that
      extends its chain is proposed. */
  lemma {:induction false} SilentRoundReachable(h: string -> Digest, b: Block, now: int, sig: string)
    requires ValidNext(h, FirstBlock(h), b)
    ensures
      var cfg, run, a := SoloConfig(h), SoloRun(h), Prevote(SOLO, b, now, sig, NoJustification, true);
      && FaultsBounded(cfg) && Rooted(cfg)
      && Enabled(cfg, Run(cfg, run), a) && Finalized(SOLO, 1, FirstBlock(h).hash) in Run(cfg, run).finalized
      && Run(cfg, run + [a]).log == Run(cfg, run).log
  {
    var cfg, run, a := SoloConfig(h), SoloRun(h), Prevote(SOLO, b, now, sig, NoJustification, true);
    var front := [] + [SoloPrevote(h)] + [SoloPrecommit(h)];
    SoloReaches(h, Run(cfg, front));
    SoloWeighs(h);
    RunAppend(cfg, front, SoloFinalize(h));
    SoloFinalizes(h, Run(cfg, front), Run(cfg, run), a);
    RunAppend(cfg, run, a);
  }
}
