/** When a locked validator may vote for another block: exactly on a verified certificate for it
    that is no older than the lock. Safety alone would also hold of a stricter rule. */
module Unlocking {
  import opened Wrappers
  import opened Quorum
  import opened Certificates
  import opened Chain
  import opened ValidatorNode
  import opened Agreement
  import opened ConsensusRuns
  import opened SilentRound

  /** A prevote leaves the node exactly when it is the round's first, the slot takes it, and the
      node holds no lock, is locked on this very block, or sees a certificate for it that verifies
      and is no older than its lock, which is from an earlier round. */
  lemma PrevoteExposedIff(cfg: Config, log: seq<Vote>, n: Node, a: Action, x: Vote)
    requires a.Prevote? && x == SignVote(n, a.b.hash, a.b.previousHash, PREVOTE, a.now, a.sig)
    ensures StepNode(cfg, log, n, a).exposed ==
      if (&& !n.votedPrevote && a.ioOk && Persistable(Snapshot(n.(prevote := Some(x))))
          && (|| n.lockedHash == ""
              || n.lockedHash == a.b.hash
              || (&& n.lockedRound < n.round && a.j.UnlockCertificate?
                  && Verifies(a.j.certificate, cfg.registryAt(n.height), cfg.sigOk)
                  && a.j.certificate.hash == a.b.hash && n.lockedRound <= a.j.certificate.round)))
      then [x] else []
  {
  }

  /** What the slot of a reached node accepts: any well-formed prevote of the round, as long as no
      precommit is in memory. */
  lemma PrevotePersistable(n: Node, log: seq<Vote>, x: Vote)
    requires NodeInv(n, log) && n.precommit.None? && IsRoundVote(x, n.height, n.round, PREVOTE)
    ensures Persistable(Snapshot(n.(prevote := Some(x))))
  {
  }

  /** The lock opens. In every run, precommits for `b` of a round no older than the lock, enough
      to certify it, let a validator that is locked on another block prevote `b`. */
  lemma CertifiedBlockUnlocks(
    cfg: Config, actions: seq<Action>, s: System, v: string, n: Node, b: Block, r: nat, votes: seq<Vote>,
    now: int, sig: string)
    requires s == Run(cfg, actions) && v in s.nodes && v in s.chains && v != "" && n == s.nodes[v]
    requires n.lockedHash != "" && n.lockedHash != b.hash && n.lockedRound < n.round
    requires !n.votedPrevote && n.precommit.None?
    requires b.index == n.height && CanAppend(cfg.hash, s.chains[v], b)
    requires n.lockedRound <= r
    requires Certifiable(n.height, b.hash, b.previousHash, r, votes, cfg.registryAt(n.height), cfg.sigOk, 2, 3)
    requires forall x :: x in votes && x.validator in cfg.honest ==> x in s.log
    ensures
      var c := CertificateOf(n.height, b.hash, b.previousHash, r, votes, cfg.registryAt(n.height));
      var a := Prevote(v, b, now, sig, UnlockCertificate(c), true);
      Run(cfg, actions + [a]).log == s.log + [Vote(v, n.height, b.hash, b.previousHash, n.round, PREVOTE, now, sig)]
  {
    var c := CertificateOf(n.height, b.hash, b.previousHash, r, votes, cfg.registryAt(n.height));
    var a := Prevote(v, b, now, sig, UnlockCertificate(c), true);
    var x := SignVote(n, b.hash, b.previousHash, PREVOTE, now, sig);
    RunKeeps(cfg, actions);
    VerifiedIsBuilt(c, cfg.registryAt(n.height), cfg.sigOk);
    assert ValidBlock(cfg.hash, b);
    PrevotePersistable(n, s.log, x);
    PrevoteExposedIff(cfg, s.log, n, a, x);
    assert (actions + [a])[..|actions|] == actions;
    assert Enabled(cfg, s, a);
  }

  /** A precommit leaves the node exactly when it has prevoted and not precommitted in the round,
      a quorum prevoted the block, and the slot takes it; the node is then locked on that block. */
  lemma PrecommitExposedIff(cfg: Config, log: seq<Vote>, n: Node, a: Action, x: Vote, m: Node)
    requires a.Precommit? && x == SignVote(n, a.b.hash, a.b.previousHash, PRECOMMIT, a.now, a.sig)
    requires m == n.(lockedHash := a.b.hash, lockedRound := n.round, precommit := Some(x))
    ensures StepNode(cfg, log, n, a).exposed ==
      if (&& n.votedPrevote && !n.votedPrecommit && a.ioOk && Persistable(Snapshot(m))
          && IsQuorum(cfg.registryAt(n.height).weights, a.prevoters)
          && forall v :: v in a.prevoters && v in cfg.honest ==> Voted(log, v, n.height, a.b.hash, n.round, PREVOTE))
      then [x] else []
    ensures StepNode(cfg, log, n, a).exposed == [x] ==>
      StepNode(cfg, log, n, a).node.lockedHash == a.b.hash && StepNode(cfg, log, n, a).node.lockedRound == n.round
  {
  }

  /** What the slot of a reached node accepts as a precommit: one for the very block it prevoted in
      this round. */
  lemma PrecommitPersistableIff(n: Node, log: seq<Vote>, b: Block, x: Vote, m: Node)
    requires NodeInv(n, log) && x.validator == n.address && x.height == n.height && x.round == n.round
    requires x.decision == PRECOMMIT && x.hash == b.hash && x.previousHash == b.previousHash
    requires m == n.(lockedHash := b.hash, lockedRound := n.round, precommit := Some(x))
    ensures Persistable(Snapshot(m)) <==>
      && n.address != "" && b.hash != "" && b.previousHash != "" && n.prevote.Some?
      && var p := n.prevote.value;
         && p.validator == n.address && p.height == n.height && p.round == n.round && p.decision == PREVOTE
         && p.hash == b.hash && p.previousHash == b.previousHash
  {
  }

  // --- Every precommit follows a prevote ----------------------------------------------------------

  /** The slot's prevote was exposed. */
  ghost predicate SlotLogged(n: Node, log: seq<Vote>) {
    n.slot.prevote.Some? ==> n.slot.prevote.value in log
  }

  ghost predicate SlotsLogged(s: System) {
    forall v :: v in s.nodes ==> SlotLogged(s.nodes[v], s.log)
  }

  /** Each precommit in the log has an earlier prevote of its validator for the same block. */
  ghost predicate PrevotedBefore(log: seq<Vote>, i: nat)
    requires i < |log|
  {
    log[i].decision == PRECOMMIT ==>
      exists j :: 0 <= j < i && SameBlockVote(log[j], log[i]) && log[j].decision == PREVOTE
  }

  predicate SameBlockVote(x: Vote, y: Vote) {
    && x.validator == y.validator && x.height == y.height && x.round == y.round
    && x.hash == y.hash && x.previousHash == y.previousHash
  }

  lemma StepLogs(cfg: Config, n: Node, log: seq<Vote>, a: Action, o: Outcome)
    requires NodeInv(n, log) && SlotLogged(n, log) && o == StepNode(cfg, log, n, a)
    ensures SlotLogged(o.node, log + o.exposed)
    ensures forall x :: x in o.exposed && x.decision == PRECOMMIT ==>
      exists p :: p in log && SameBlockVote(p, x) && p.decision == PREVOTE
  {
    if a.Precommit? && o.exposed != [] {
      var p := n.prevote.value;
      assert Persistable(o.node.slot);
      assert VoteInSlot(n, n.prevote, n.slot.prevote, PREVOTE);
      assert p in log && SameBlockVote(p, o.exposed[0]);
    } else if a.NilPrevote? || a.NilPrecommit? {
      assert o.node.slot == n.slot;
    }
  }

  lemma ApplyLogs(cfg: Config, s: System, a: Action, t: System)
    requires Inv(cfg, s) && SlotsLogged(s) && t == Apply(cfg, s, a)
    requires forall i: nat :: i < |s.log| ==> PrevotedBefore(s.log, i)
    ensures SlotsLogged(t) && forall i: nat :: i < |t.log| ==> PrevotedBefore(t.log, i)
  {
    if Enabled(cfg, s, a) {
      var o := StepNode(cfg, s.log, s.nodes[a.v], a);
      StepLogs(cfg, s.nodes[a.v], s.log, a, o);
      StepNodeKeeps(cfg, s, a);
      forall i: nat | i < |t.log| ensures PrevotedBefore(t.log, i) {
        LogGrows(s.log, o.exposed, t.log, i);
      }
    }
  }

  lemma LogGrows(log: seq<Vote>, exposed: seq<Vote>, more: seq<Vote>, i: nat)
    requires more == log + exposed && |exposed| <= 1 && i < |more|
    requires forall k: nat :: k < |log| ==> PrevotedBefore(log, k)
    requires forall x :: x in exposed && x.decision == PRECOMMIT ==>
      exists p :: p in log && SameBlockVote(p, x) && p.decision == PREVOTE
    ensures PrevotedBefore(more, i)
  {
    if more[i].decision == PRECOMMIT {
      if i < |log| {
        assert PrevotedBefore(log, i) && log[i] == more[i];
        var j :| 0 <= j < i && SameBlockVote(log[j], log[i]) && log[j].decision == PREVOTE;
        assert more[j] == log[j];
      } else {
        assert more[i] in exposed;
        var p :| p in log && SameBlockVote(p, more[i]) && p.decision == PREVOTE;
        var j :| 0 <= j < |log| && log[j] == p;
        assert more[j] == p;
      }
    }
  }

  /** In every run an honest validator precommits only the block it prevoted in that round. */
  lemma {:induction false} PrecommitFollowsPrevote(cfg: Config, actions: seq<Action>, s: System)
    requires s == Run(cfg, actions)
    ensures SlotsLogged(s) && forall i: nat :: i < |s.log| ==> PrevotedBefore(s.log, i)
  {
    if actions != [] {
      var front := actions[..|actions| - 1];
      PrecommitFollowsPrevote(cfg, front, Run(cfg, front));
      RunKeeps(cfg, front);
      ApplyLogs(cfg, Run(cfg, front), actions[|actions| - 1], s);
    }
  }

  /** A crash right after a saved vote changes nothing: the slot restores round, lock and votes. */
  lemma RestartRestores(n: Node)
    requires n.slot == Snapshot(n) && n.votedPrevote == n.prevote.Some? && n.votedPrecommit == n.precommit.Some?
    ensures RestartStep(n) == n
  {
  }

  /** A crash with an older height's slot starts the current height's first round, unlocked. */
  lemma RestartStartsOver(n: Node)
    requires n.slot.height < n.height
    ensures RestartStep(n) == Node(n.address, n.height, 1, "", 0, false, false, None, None, FreshRound(n.height))
  {
  }

  /** A nil vote ends the round's voting of its kind, and only that: neither lock nor slot change. */
  lemma NilEndsVoting(n: Node, nilVote: Vote, vote: Vote, ioOk: bool)
    requires nilVote.decision == REJECT
    ensures PrevoteStep(NilPrevoteStep(n, nilVote, ioOk), vote, true, true).exposed == []
    ensures PrecommitStep(NilPrecommitStep(n, nilVote, ioOk), vote, true, true).exposed == []
    ensures
      var p, q := NilPrevoteStep(n, nilVote, ioOk), NilPrecommitStep(n, nilVote, ioOk);
      && p.slot == n.slot && p.lockedHash == n.lockedHash && p.lockedRound == n.lockedRound && p.round == n.round
      && q.slot == n.slot && q.lockedHash == n.lockedHash && q.lockedRound == n.lockedRound && q.round == n.round
      && p.votedPrecommit == n.votedPrecommit && q.votedPrevote == n.votedPrevote
  {
  }

  // --- A run that unlocks -------------------------------------------------------------------------
  // Validators a and b are honest, d is faulty, with 2, 3 and 2 of the weight. In round 1, a and b
  // prevote one block and only a precommits it; in round 2, b and d take another. In round 3 the
  // certificate of round 2 lets a leave its lock of round 1.

  const TRIO := Registry(map["a" := 2, "b" := 3, "d" := 2], {"a", "b", "d"}, "root")

  lemma TrioWeighs()
    ensures Total(TRIO.weights) == 7
    ensures IsQuorum(TRIO.weights, {"a", "b"}) && IsQuorum(TRIO.weights, {"b", "d"})
    ensures FaultBound(TRIO.weights, {"a", "b"})
  {
    var w := TRIO.weights;
    var all := {"a", "b", "d"};
    assert w.Keys == all && all - {"a"} == {"b", "d"} && {"b", "d"} - {"b"} == {"d"} && {"d"} - {"d"} == {};
    assert {"a", "b"} - {"a"} == {"b"} && {"b"} - {"b"} == {} && all - {"a", "b"} == {"d"};
    WeightPeel(w, all, "a");
    WeightPeel(w, {"b", "d"}, "b");
    WeightPeel(w, {"d"}, "d");
    WeightPeel(w, {"a", "b"}, "a");
    WeightPeel(w, {"b"}, "b");
  }

  /** `sigOk` accepts every signature; forging an honest vote is ruled out by `Authentic`. */
  function TrioConfig(h: string -> Digest): Config {
    Config({"a", "b"}, (n: nat) => TRIO, (x: Vote) => true, h, Sealed(h, 0, GENESIS, 1))
  }

  function TrioBlock(h: string -> Digest, timestamp: int): Block {
    Sealed(h, 1, TrioConfig(h).genesis.hash, timestamp)
  }

  function TrioVote(v: string, b: Block, round: nat, d: Decision): Vote {
    Vote(v, 1, b.hash, b.previousHash, round, d, 0, "")
  }

  /** Both honest nodes are still at height 1. */
  ghost predicate Trio(h: string -> Digest, s: System, a: Node, b: Node, log: seq<Vote>) {
    && "a" in s.nodes && s.nodes["a"] == a && "b" in s.nodes && s.nodes["b"] == b && s.log == log
    && "a" in s.chains && s.chains["a"] == [TrioConfig(h).genesis]
    && "b" in s.chains && s.chains["b"] == [TrioConfig(h).genesis]
  }

  function Fresh(v: string): Node {
    Node(v, 1, 1, "", 0, false, false, None, None, FreshRound(1))
  }

  /** A node in some round without a lock, after its prevote for `b`. */
  function Prevoted(v: string, b: Block, round: nat): Node {
    var p := Some(TrioVote(v, b, round, PREVOTE));
    Node(v, 1, round, "", 0, true, false, p, None, RoundState(1, round, "", 0, p, None))
  }

  /** The same after its precommit. */
  function Locked(v: string, b: Block, round: nat): Node {
    var p, q := Some(TrioVote(v, b, round, PREVOTE)), Some(TrioVote(v, b, round, PRECOMMIT));
    Node(v, 1, round, b.hash, round, true, true, p, q, RoundState(1, round, b.hash, round, p, q))
  }

  lemma TrioPrevotes(h: string -> Digest, s: System, n: Node, b: Block, a: Action, log: seq<Vote>)
    requires Rooted(TrioConfig(h)) && a == Prevote(n.address, b, 0, "", NoJustification, true)
    requires b == TrioBlock(h, b.timestamp) && b.timestamp > 1
    requires n.address in s.nodes && n.address in s.chains && s.nodes[n.address] == n && n.address != "" && s.log == log
    requires s.chains[n.address] == [TrioConfig(h).genesis]
    requires n.height == 1 && n.round > 0 && n.lockedHash == "" && n.lockedRound == 0
    requires !n.votedPrevote && !n.votedPrecommit && n.prevote.None? && n.precommit.None?
    ensures
      var t := Apply(TrioConfig(h), s, a);
      && t.nodes == s.nodes[n.address := Prevoted(n.address, b, n.round)] && t.chains == s.chains
      && t.log == log + [TrioVote(n.address, b, n.round, PREVOTE)]
  {
    var x := TrioVote(n.address, b, n.round, PREVOTE);
    assert Enabled(TrioConfig(h), s, a);
    assert Persistable(Snapshot(n.(prevote := Some(x))));
    PrevoteExposedIff(TrioConfig(h), s.log, n, a, x);
  }

  lemma TrioPrecommits(
    h: string -> Digest, s: System, v: string, b: Block, round: nat, prevoters: set<string>, a: Action, log: seq<Vote>)
    requires Rooted(TrioConfig(h)) && a == Precommit(v, b, 0, "", prevoters, true) && v != "" && round > 0
    requires b == TrioBlock(h, b.timestamp) && b.timestamp > 1
    requires v in s.nodes && v in s.chains && s.nodes[v] == Prevoted(v, b, round) && s.log == log
    requires s.chains[v] == [TrioConfig(h).genesis] && IsQuorum(TRIO.weights, prevoters)
    requires forall u :: u in prevoters && u in {"a", "b"} ==> TrioVote(u, b, round, PREVOTE) in log
    ensures
      var t := Apply(TrioConfig(h), s, a);
      && t.nodes == s.nodes[v := Locked(v, b, round)] && t.chains == s.chains
      && t.log == log + [TrioVote(v, b, round, PRECOMMIT)]
  {
    assert Enabled(TrioConfig(h), s, a);
    assert Persistable(Locked(v, b, round).slot);
    forall u | u in prevoters && u in {"a", "b"} ensures Voted(log, u, 1, b.hash, round, PREVOTE) {
      var i :| 0 <= i < |log| && log[i] == TrioVote(u, b, round, PREVOTE);
    }
    PrecommitExposedIff(TrioConfig(h), log, s.nodes[v], a, TrioVote(v, b, round, PRECOMMIT), Locked(v, b, round).(
      votedPrecommit := false, slot := s.nodes[v].slot));
  }

  lemma TrioAdvances(h: string -> Digest, s: System, v: string)
    requires v in s.nodes && v in s.chains
    ensures
      var t := Apply(TrioConfig(h), s, AdvanceRound(v));
      t.nodes == s.nodes[v := AdvanceRoundStep(s.nodes[v])] && t.chains == s.chains && t.log == s.log
  {
    assert Enabled(TrioConfig(h), s, AdvanceRound(v));
    assert s.log + [] == s.log;
  }

  function Prevoting(v: string, b: Block): Action {
    Prevote(v, b, 0, "", NoJustification, true)
  }

  function Precommitting(v: string, b: Block, prevoters: set<string>): Action {
    Precommit(v, b, 0, "", prevoters, true)
  }

  lemma BothPrevote(h: string -> Digest, b: Block, s: System, t: System, u: System, log: seq<Vote>)
    requires Rooted(TrioConfig(h)) && b == TrioBlock(h, b.timestamp) && b.timestamp > 1
    requires Trio(h, s, Fresh("a"), Fresh("b"), [])
    requires t == Apply(TrioConfig(h), s, Prevoting("a", b)) && u == Apply(TrioConfig(h), t, Prevoting("b", b))
    requires log == [TrioVote("a", b, 1, PREVOTE), TrioVote("b", b, 1, PREVOTE)]
    ensures Trio(h, u, Prevoted("a", b, 1), Prevoted("b", b, 1), log)
  {
    TrioPrevotes(h, s, Fresh("a"), b, Prevoting("a", b), []);
    TrioPrevotes(h, t, Fresh("b"), b, Prevoting("b", b), [TrioVote("a", b, 1, PREVOTE)]);
  }

  lemma OnePrecommits(h: string -> Digest, b: Block, u: System, w: System, log: seq<Vote>)
    requires Rooted(TrioConfig(h)) && b == TrioBlock(h, b.timestamp) && b.timestamp > 1
    requires Trio(h, u, Prevoted("a", b, 1), Prevoted("b", b, 1), log)
    requires TrioVote("a", b, 1, PREVOTE) in log && TrioVote("b", b, 1, PREVOTE) in log
    requires w == Apply(TrioConfig(h), u, Precommitting("a", b, {"a", "b"}))
    ensures Trio(h, w, Locked("a", b, 1), Prevoted("b", b, 1), log + [TrioVote("a", b, 1, PRECOMMIT)])
  {
    TrioWeighs();
    TrioPrecommits(h, u, "a", b, 1, {"a", "b"}, Precommitting("a", b, {"a", "b"}), log);
  }

  lemma TrioStarts(h: string -> Digest)
    ensures Trio(h, Initial(TrioConfig(h)), Fresh("a"), Fresh("b"), [])
  {
  }

  lemma {:induction false} FirstRound(h: string -> Digest, b: Block, run: seq<Action>)
    requires Rooted(TrioConfig(h)) && b == TrioBlock(h, b.timestamp) && b.timestamp > 1
    requires run == [] + [Prevoting("a", b)] + [Prevoting("b", b)] + [Precommitting("a", b, {"a", "b"})]
    ensures exists log :: Trio(h, Run(TrioConfig(h), run), Locked("a", b, 1), Prevoted("b", b, 1), log)
  {
    var cfg := TrioConfig(h);
    var one, two := [] + [Prevoting("a", b)], [] + [Prevoting("a", b)] + [Prevoting("b", b)];
    RunAppend(cfg, [], Prevoting("a", b));
    RunAppend(cfg, one, Prevoting("b", b));
    RunAppend(cfg, two, Precommitting("a", b, {"a", "b"}));
    TrioStarts(h);
    var log := [TrioVote("a", b, 1, PREVOTE), TrioVote("b", b, 1, PREVOTE)];
    BothPrevote(h, b, Initial(cfg), Run(cfg, one), Run(cfg, two), log);
    OnePrecommits(h, b, Run(cfg, two), Run(cfg, run), log);
  }

  /** The node a after its lock of round 1, in round 3. */
  function Waiting(b: Block): Node {
    Locked("a", b, 1).(round := 3, votedPrevote := false, votedPrecommit := false, prevote := None, precommit := None)
  }

  /** Where the run stands after round 2, with b's precommit for `c` exposed. */
  ghost predicate Diverged(h: string -> Digest, s: System, a: Node, c: Block) {
    exists log :: TrioVote("b", c, 2, PRECOMMIT) in log && Trio(h, s, a, Locked("b", c, 2), log)
  }

  lemma SecondRoundSteps(h: string -> Digest, b: Block, c: Block, log: seq<Vote>, s: System, t: System, u: System, w: System)
    requires Rooted(TrioConfig(h)) && c == TrioBlock(h, c.timestamp) && c.timestamp > 1
    requires Trio(h, s, Locked("a", b, 1), Prevoted("b", b, 1), log)
    requires t == Apply(TrioConfig(h), s, AdvanceRound("b")) && u == Apply(TrioConfig(h), t, Prevoting("b", c))
    requires w == Apply(TrioConfig(h), u, Precommitting("b", c, {"b", "d"}))
    ensures Diverged(h, w, Locked("a", b, 1), c)
  {
    var x, y := TrioVote("b", c, 2, PREVOTE), TrioVote("b", c, 2, PRECOMMIT);
    TrioAdvances(h, s, "b");
    TrioPrevotes(h, t, AdvanceRoundStep(Prevoted("b", b, 1)), c, Prevoting("b", c), log);
    TrioWeighs();
    TrioPrecommits(h, u, "b", c, 2, {"b", "d"}, Precommitting("b", c, {"b", "d"}), log + [x]);
    assert Trio(h, w, Locked("a", b, 1), Locked("b", c, 2), log + [x] + [y]);
  }

  lemma {:induction false} SecondRound(h: string -> Digest, b: Block, c: Block, first: seq<Action>, run: seq<Action>)
    requires Rooted(TrioConfig(h)) && c == TrioBlock(h, c.timestamp) && c.timestamp > 1
    requires exists log :: Trio(h, Run(TrioConfig(h), first), Locked("a", b, 1), Prevoted("b", b, 1), log)
    requires run == first + [AdvanceRound("b")] + [Prevoting("b", c)] + [Precommitting("b", c, {"b", "d"})]
    ensures Diverged(h, Run(TrioConfig(h), run), Locked("a", b, 1), c)
  {
    var cfg := TrioConfig(h);
    var log :| Trio(h, Run(cfg, first), Locked("a", b, 1), Prevoted("b", b, 1), log);
    var one, two := first + [AdvanceRound("b")], first + [AdvanceRound("b")] + [Prevoting("b", c)];
    RunAppend(cfg, first, AdvanceRound("b"));
    RunAppend(cfg, one, Prevoting("b", c));
    RunAppend(cfg, two, Precommitting("b", c, {"b", "d"}));
    SecondRoundSteps(h, b, c, log, Run(cfg, first), Run(cfg, one), Run(cfg, two), Run(cfg, run));
  }

  lemma {:induction false} ThirdRound(h: string -> Digest, b: Block, c: Block, second: seq<Action>, run: seq<Action>)
    requires Diverged(h, Run(TrioConfig(h), second), Locked("a", b, 1), c)
    requires run == second + [AdvanceRound("a")] + [AdvanceRound("a")]
    ensures Diverged(h, Run(TrioConfig(h), run), Waiting(b), c)
  {
    var cfg := TrioConfig(h);
    var log :| TrioVote("b", c, 2, PRECOMMIT) in log && Trio(h, Run(cfg, second), Locked("a", b, 1), Locked("b", c, 2), log);
    RunAppend(cfg, second, AdvanceRound("a"));
    RunAppend(cfg, second + [AdvanceRound("a")], AdvanceRound("a"));
    TrioAdvances(h, Run(cfg, second), "a");
    TrioAdvances(h, Run(cfg, second + [AdvanceRound("a")]), "a");
    assert Trio(h, Run(cfg, run), Waiting(b), Locked("b", c, 2), log);
  }

  function UnlockRun(b: Block, c: Block): seq<Action> {
    [] + [Prevoting("a", b)] + [Prevoting("b", b)] + [Precommitting("a", b, {"a", "b"})]
    + [AdvanceRound("b")] + [Prevoting("b", c)] + [Precommitting("b", c, {"b", "d"})]
    + [AdvanceRound("a")] + [AdvanceRound("a")]
  }

  function RoundTwoVotes(c: Block): seq<Vote> {
    [TrioVote("b", c, 2, PRECOMMIT), TrioVote("d", c, 2, PRECOMMIT)]
  }

  lemma RoundTwoVoters(h: string -> Digest, c: Block, votes: seq<Vote>)
    requires votes == RoundTwoVotes(c)
    ensures Voters(votes) == {"b", "d"} && DistinctVoters(votes)
    ensures AllGood(votes, 1, c.hash, c.previousHash, 2, TRIO, TrioConfig(h).sigOk)
  {
    assert GoodVote(votes[0], 1, c.hash, c.previousHash, 2, TRIO, TrioConfig(h).sigOk);
    assert GoodVote(votes[1], 1, c.hash, c.previousHash, 2, TRIO, TrioConfig(h).sigOk);
  }

  lemma RoundTwoCertifies(h: string -> Digest, c: Block, votes: seq<Vote>, reg: Registry)
    requires IsHex(c.hash) && IsHex(c.previousHash) && votes == RoundTwoVotes(c) && reg == TRIO
    ensures Certifiable(1, c.hash, c.previousHash, 2, votes, reg, TrioConfig(h).sigOk, 2, 3)
  {
    TrioWeighs();
    HexIsSafe(c.hash);
    HexIsSafe(c.previousHash);
    RoundTwoVoters(h, c, votes);
    assert SafeScalar(reg.root);
  }

  /** The last vote of the run, from the state that the rounds before it reach. */
  lemma WaitingUnlocks(h: string -> Digest, b: Block, c: Block, run: seq<Action>)
    requires Rooted(TrioConfig(h)) && c == TrioBlock(h, c.timestamp) && c.timestamp > 1 && b.hash != c.hash && b.hash != ""
    requires Diverged(h, Run(TrioConfig(h), run), Waiting(b), c) && 0 < Total(TRIO.weights) <= UINT64_MAX
    ensures
      var certificate := CertificateOf(1, c.hash, c.previousHash, 2, RoundTwoVotes(c), TRIO);
      var a := Prevote("a", c, 0, "", UnlockCertificate(certificate), true);
      Run(TrioConfig(h), run + [a]).log == Run(TrioConfig(h), run).log + [TrioVote("a", c, 3, PREVOTE)]
  {
    var cfg := TrioConfig(h);
    var log :| TrioVote("b", c, 2, PRECOMMIT) in log && Trio(h, Run(cfg, run), Waiting(b), Locked("b", c, 2), log);
    RoundTwoCertifies(h, c, RoundTwoVotes(c), TRIO);
    CertifiedBlockUnlocks(cfg, run, Run(cfg, run), "a", Waiting(b), c, 2, RoundTwoVotes(c), 0, "");
  }

  /** Such a run exists for every block hash under which the two blocks differ, with less than a
      third of the weight faulty: a, locked on `b` since round 1, prevotes `c` in round 3 on the
      precommits of round 2. */
  lemma {:induction false} UnlockReachable(h: string -> Digest, b: Block, c: Block, run: seq<Action>)
    requires b == TrioBlock(h, 2) && c == TrioBlock(h, 3) && b.hash != c.hash && run == UnlockRun(b, c)
    ensures FaultsBounded(TrioConfig(h)) && Rooted(TrioConfig(h)) && 0 < Total(TRIO.weights) <= UINT64_MAX
    ensures Diverged(h, Run(TrioConfig(h), run), Waiting(b), c)
    ensures
      var certificate := CertificateOf(1, c.hash, c.previousHash, 2, RoundTwoVotes(c), TRIO);
      var a := Prevote("a", c, 0, "", UnlockCertificate(certificate), true);
      Run(TrioConfig(h), run + [a]).log == Run(TrioConfig(h), run).log + [TrioVote("a", c, 3, PREVOTE)]
  {
    var first := [] + [Prevoting("a", b)] + [Prevoting("b", b)] + [Precommitting("a", b, {"a", "b"})];
    var second := first + [AdvanceRound("b")] + [Prevoting("b", c)] + [Precommitting("b", c, {"b", "d"})];
    TrioWeighs();
    FirstRound(h, b, first);
    SecondRound(h, b, c, first, second);
    ThirdRound(h, b, c, second, run);
    WaitingUnlocks(h, b, c, run);
  }
}
