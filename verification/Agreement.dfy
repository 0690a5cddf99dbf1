/** Agreement: in every run, no two quorum certificates of one height name different blocks. */
module Agreement {
  import opened Wrappers
  import opened Quorum
  import opened Certificates
  import opened Chain
  import opened ValidatorNode

  /** Who is honest, the validator set of every height, the signature check, the block hash
      and the block every chain starts from. */
  datatype Config = Config(
    honest: set<string>, registryAt: nat -> Registry, sigOk: Vote -> bool,
    hash: string -> Digest, genesis: Block)

  /** At every height the faulty validators hold less than a third of the weight. */
  ghost predicate FaultsBounded(cfg: Config) {
    forall h: nat :: FaultBound(cfg.registryAt(h).weights, cfg.honest)
  }

  // --- The log of honest votes -------------------------------------------------------
  // Every prevote and precommit an honest validator made durable, in the order it did so.
  // Faulty validators may sign anything at any time, so their votes need no record: all the
  // rules below ask only about the honest members of a quorum.

  ghost predicate Voted(log: seq<Vote>, v: string, h: nat, b: string, r: nat, d: Decision) {
    exists i :: 0 <= i < |log| && log[i].validator == v && log[i].MatchesBlock(h, b, r) && log[i].decision == d
  }

  /** `s` is a quorum of `reg` whose honest members all cast this vote. */
  ghost predicate Backed(
    cfg: Config, log: seq<Vote>, reg: Registry, h: nat, b: string, r: nat, d: Decision, s: set<string>)
  {
    && IsQuorum(reg.weights, s)
    && forall v :: v in s && v in cfg.honest ==> Voted(log, v, h, b, r, d)
  }

  /** Signatures cannot be forged: an honest validator's vote in a certificate was cast. */
  ghost predicate Authentic(cfg: Config, log: seq<Vote>, c: Certificate) {
    forall x :: x in c.votes && x.validator in cfg.honest && cfg.sigOk(x) ==> x in log
  }

  /** Two honest votes give one block hash two different heights. `ConsensusRuns` shows the two
      voted blocks behind them: different headers with one hash. */
  ghost predicate HashAtTwoHeights(cfg: Config, log: seq<Vote>) {
    exists i, j :: 0 <= i < |log| && 0 <= j < |log| && log[i].validator in cfg.honest
      && log[j].validator in cfg.honest && log[i].hash == log[j].hash && log[i].height != log[j].height
  }

  // --- What every honest vote respects ------------------------------------------------

  ghost predicate NotRepeated(log: seq<Vote>, x: Vote) {
    forall i :: 0 <= i < |log| && log[i].validator == x.validator ==>
      && (log[i].height < x.height || (log[i].height == x.height && log[i].round <= x.round))
      && !(log[i].height == x.height && log[i].round == x.round && log[i].decision == x.decision)
  }

  ghost predicate QuorumBehind(cfg: Config, log: seq<Vote>, x: Vote) {
    exists s :: Backed(cfg, log, cfg.registryAt(x.height), x.height, x.hash, x.round, PREVOTE, s)
  }

  /** (hash, round) is the newest precommit of `v` at height `h`. */
  ghost predicate NewestPrecommit(log: seq<Vote>, v: string, h: nat, hash: string, round: nat) {
    && Voted(log, v, h, hash, round, PRECOMMIT)
    && forall i :: 0 <= i < |log| && log[i].validator == v && log[i].height == h && log[i].decision == PRECOMMIT ==>
         log[i].round <= round
  }

  ghost predicate UnlockedBy(cfg: Config, log: seq<Vote>, x: Vote, lockRound: nat, h: nat, r: nat, s: set<string>) {
    r >= lockRound && Backed(cfg, log, cfg.registryAt(x.height), h, x.hash, r, PRECOMMIT, s)
  }

  ghost predicate LockRespected(cfg: Config, log: seq<Vote>, x: Vote) {
    || (forall i :: 0 <= i < |log| && log[i].validator == x.validator && log[i].height == x.height ==>
          log[i].decision != PRECOMMIT)
    || exists hash: string, round: nat ::
         && NewestPrecommit(log, x.validator, x.height, hash, round)
         && (hash == x.hash || exists h: nat, r: nat, s :: UnlockedBy(cfg, log, x, round, h, r, s))
  }

  ghost predicate Admissible(cfg: Config, log: seq<Vote>, x: Vote) {
    && x.validator in cfg.honest
    && NotRepeated(log, x)
    && (x.decision == PRECOMMIT ==> QuorumBehind(cfg, log, x))
    && (x.decision == PREVOTE ==> LockRespected(cfg, log, x))
  }

  ghost predicate HonestLog(cfg: Config, log: seq<Vote>) {
    forall i :: 0 <= i < |log| ==> Admissible(cfg, log[..i], log[i])
  }

  lemma HonestLogAppend(cfg: Config, log: seq<Vote>, x: Vote)
    requires HonestLog(cfg, log) && Admissible(cfg, log, x)
    ensures HonestLog(cfg, log + [x])
  {
    forall i | 0 <= i <= |log| ensures Admissible(cfg, (log + [x])[..i], (log + [x])[i]) {
      assert (log + [x])[..i] == log[..i];
      assert log[..|log|] == log;
    }
  }

  // --- Agreement from the log ---------------------------------------------------------

  lemma VotedAt(log: seq<Vote>, v: string, h: nat, b: string, r: nat, d: Decision) returns (i: nat)
    requires Voted(log, v, h, b, r, d)
    ensures i < |log| && log[i].validator == v && log[i].MatchesBlock(h, b, r) && log[i].decision == d
  {
    i :| 0 <= i < |log| && log[i].validator == v && log[i].MatchesBlock(h, b, r) && log[i].decision == d;
  }

  /** Two votes of one honest validator: the later one is for a later or equal round, and in
      one round it casts each kind of vote at most once. */
  lemma TwoVotes(cfg: Config, log: seq<Vote>, i: nat, j: nat)
    requires HonestLog(cfg, log) && i < j < |log| && log[i].validator == log[j].validator
    ensures log[i].height == log[j].height ==> log[i].round <= log[j].round
    ensures log[i].height == log[j].height && log[i].round == log[j].round ==> log[i].decision != log[j].decision
  {
  }

  lemma OnePrecommitPerRound(cfg: Config, log: seq<Vote>, v: string, h: nat, r: nat, a: string, b: string)
    requires HonestLog(cfg, log)
    requires Voted(log, v, h, a, r, PRECOMMIT) && Voted(log, v, h, b, r, PRECOMMIT)
    ensures a == b
  {
  }

  lemma BackedMono(
    cfg: Config, log: seq<Vote>, k: nat, reg: Registry, h: nat, b: string, r: nat, d: Decision, s: set<string>)
    requires k <= |log| && Backed(cfg, log[..k], reg, h, b, r, d, s)
    ensures Backed(cfg, log, reg, h, b, r, d, s)
  {
  }

  /** Behind an honest precommit for `b` in round `r` at log position `k` stands, earlier in
      the log, an honest prevote for `b` by a member of any other quorum of the height. */
  lemma EarlierPrevote(cfg: Config, log: seq<Vote>, k: nat, s: set<string>) returns (m: nat)
    requires FaultsBounded(cfg) && HonestLog(cfg, log)
    requires k < |log| && log[k].decision == PRECOMMIT
    requires IsQuorum(cfg.registryAt(log[k].height).weights, s)
    ensures m < k && log[m].validator in s && log[m].validator in cfg.honest
    ensures log[m].MatchesBlock(log[k].height, log[k].hash, log[k].round) && log[m].decision == PREVOTE
  {
    var x := log[k];
    assert Admissible(cfg, log[..k], x);
    var t :| Backed(cfg, log[..k], cfg.registryAt(x.height), x.height, x.hash, x.round, PREVOTE, t);
    var w := HonestWitness(cfg.registryAt(x.height).weights, cfg.honest, s, t);
    m := VotedAt(log[..k], w, x.height, x.hash, x.round, PREVOTE);
    assert log[m] == log[..k][m];
  }

  /** Once `a` has a precommit quorum `s` in round `r`, no honest member of `s` prevotes for
      another block in a later round. By induction on the position of the prevote: either a
      conflicting lock or an unlock certificate would need an earlier such prevote. */
  lemma {:induction false} NoConflictingPrevote(
    cfg: Config, log: seq<Vote>, h: nat, a: string, r: nat, s: set<string>, j: nat)
    requires FaultsBounded(cfg) && HonestLog(cfg, log)
    requires Backed(cfg, log, cfg.registryAt(h), h, a, r, PRECOMMIT, s)
    requires j < |log| && log[j].validator in s && log[j].decision == PREVOTE
    requires log[j].height == h && log[j].round > r && log[j].hash != a
    ensures HashAtTwoHeights(cfg, log)
    decreases j
  {
    var x := log[j];
    assert Admissible(cfg, log[..j], x);
    var i := VotedAt(log, x.validator, h, a, r, PRECOMMIT);
    if j < i {
      TwoVotes(cfg, log, j, i);
    }
    assert i < j && log[..j][i].round == r && log[..j][i].decision == PRECOMMIT;
    var lockHash: string, lockRound: nat :|
      && NewestPrecommit(log[..j], x.validator, h, lockHash, lockRound)
      && (lockHash == x.hash || exists h': nat, r': nat, t :: UnlockedBy(cfg, log[..j], x, lockRound, h', r', t));
    assert lockRound >= r;
    if lockHash == x.hash {
      ConflictingLock(cfg, log, h, a, r, s, j, lockRound);
    } else {
      var h': nat, r': nat, t :| UnlockedBy(cfg, log[..j], x, lockRound, h', r', t);
      ConflictingUnlock(cfg, log, h, a, r, s, j, h', r', t);
    }
  }

  /** The prevote at `j` follows the node's own lock on the same conflicting block. */
  lemma {:induction false} ConflictingLock(
    cfg: Config, log: seq<Vote>, h: nat, a: string, r: nat, s: set<string>, j: nat, lockRound: nat)
    requires FaultsBounded(cfg) && HonestLog(cfg, log)
    requires Backed(cfg, log, cfg.registryAt(h), h, a, r, PRECOMMIT, s)
    requires j < |log| && log[j].validator in s && log[j].validator in cfg.honest && log[j].hash != a
    requires lockRound >= r && Voted(log[..j], log[j].validator, h, log[j].hash, lockRound, PRECOMMIT)
    ensures HashAtTwoHeights(cfg, log)
    decreases j, 0
  {
    var v, b := log[j].validator, log[j].hash;
    var k := VotedAt(log[..j], v, h, b, lockRound, PRECOMMIT);
    assert log[k] == log[..j][k];
    if lockRound == r {
      OnePrecommitPerRound(cfg, log, v, h, r, a, b);
    } else {
      var m := EarlierPrevote(cfg, log, k, s);
      NoConflictingPrevote(cfg, log, h, a, r, s, m);
    }
  }

  /** The prevote at `j` follows an unlock certificate for the conflicting block. */
  lemma {:induction false} ConflictingUnlock(
    cfg: Config, log: seq<Vote>, h: nat, a: string, r: nat, s: set<string>, j: nat,
    h': nat, r': nat, t: set<string>)
    requires FaultsBounded(cfg) && HonestLog(cfg, log)
    requires Backed(cfg, log, cfg.registryAt(h), h, a, r, PRECOMMIT, s)
    requires j < |log| && log[j].validator in cfg.honest && log[j].height == h && log[j].hash != a
    requires r' >= r && Backed(cfg, log[..j], cfg.registryAt(h), h', log[j].hash, r', PRECOMMIT, t)
    ensures HashAtTwoHeights(cfg, log)
    decreases j, 0
  {
    var b := log[j].hash;
    var u := HonestWitness(cfg.registryAt(h).weights, cfg.honest, s, t);
    var k := VotedAt(log[..j], u, h', b, r', PRECOMMIT);
    assert log[k] == log[..j][k];
    if h' != h {
      assert log[k].hash == log[j].hash && log[k].height != log[j].height;
    } else if r' == r {
      OnePrecommitPerRound(cfg, log, u, h, r, a, b);
    } else {
      var m := EarlierPrevote(cfg, log, k, s);
      NoConflictingPrevote(cfg, log, h, a, r, s, m);
    }
  }

  lemma QuorumsAgree(
    cfg: Config, log: seq<Vote>, h: nat, a: string, r: nat, s: set<string>, b: string, r': nat, t: set<string>)
    requires FaultsBounded(cfg) && HonestLog(cfg, log) && r <= r'
    requires Backed(cfg, log, cfg.registryAt(h), h, a, r, PRECOMMIT, s)
    requires Backed(cfg, log, cfg.registryAt(h), h, b, r', PRECOMMIT, t)
    ensures a == b || HashAtTwoHeights(cfg, log)
  {
    var u := HonestWitness(cfg.registryAt(h).weights, cfg.honest, s, t);
    if r == r' {
      OnePrecommitPerRound(cfg, log, u, h, r, a, b);
    } else if a != b {
      var k := VotedAt(log, u, h, b, r', PRECOMMIT);
      var m := EarlierPrevote(cfg, log, k, s);
      NoConflictingPrevote(cfg, log, h, a, r, s, m);
    }
  }
}
