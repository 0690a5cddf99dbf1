/** One validator's voting state: its lock, the votes of the current round, the durable
    recovery slot, and the steps that change them. */
module ValidatorNode {
  import opened Wrappers
  import opened Quorum
  import opened Certificates

  datatype Justification = NoJustification | UnlockCertificate(certificate: Certificate)

  /** The unlock rule: a validator locked in `lockedRound` may vote for another block only on
      a verified certificate for exactly that block, from a round at least as recent as the
      lock. The certificate's own height is not compared with anything. */
  ghost predicate PermitsUnlock(
    j: Justification, lockedRound: nat, candidateHash: string, round: nat,
    validators: Registry, sigOk: Vote -> bool)
  {
    && round > lockedRound
    && j.UnlockCertificate?
    && StructurallyValid(j.certificate)
    && Verifies(j.certificate, validators, sigOk)
    && j.certificate.round >= lockedRound
    && j.certificate.hash == candidateHash
  }

  /** The state written to the recovery slot. A vote flag is set exactly when the signed vote
      is present, so the flags are not repeated here. */
  datatype RoundState = RoundState(
    height: nat, round: nat, lockedHash: string, lockedRound: nat,
    prevote: Option<Vote>, precommit: Option<Vote>)

  predicate IsRoundVote(x: Vote, height: nat, round: nat, decision: Decision) {
    && x.height == height && x.round == round && x.decision == decision
    && x.hash != "" && x.previousHash != "" && x.validator != ""
  }

  /** Only a valid round state is ever written or read back. */
  predicate Persistable(s: RoundState) {
    && s.height != 0 && s.round != 0
    && (s.lockedHash != "" <==> s.lockedRound > 0) && s.lockedRound <= s.round
    && (s.precommit.Some? ==> s.prevote.Some? && s.lockedHash != "")
    && (s.prevote.Some? ==> IsRoundVote(s.prevote.value, s.height, s.round, PREVOTE))
    && (s.precommit.Some? ==>
          && IsRoundVote(s.precommit.value, s.height, s.round, PRECOMMIT)
          && s.precommit.value.hash == s.lockedHash
          && s.prevote.value.hash == s.precommit.value.hash
          && s.prevote.value.previousHash == s.precommit.value.previousHash
          && s.prevote.value.validator == s.precommit.value.validator)
  }

  function FreshRound(height: nat): RoundState {
    RoundState(height, 1, "", 0, None, None)
  }

  datatype Node = Node(
    address: string, height: nat, round: nat, lockedHash: string, lockedRound: nat,
    votedPrevote: bool, votedPrecommit: bool, prevote: Option<Vote>, precommit: Option<Vote>,
    slot: RoundState)

  function Snapshot(n: Node): RoundState {
    RoundState(n.height, n.round, n.lockedHash, n.lockedRound, n.prevote, n.precommit)
  }

  /** Saving fails on an I/O error or when the state is not a valid round state. */
  predicate Saves(n: Node, ioOk: bool) {
    ioOk && Persistable(Snapshot(n))
  }

  function Save(n: Node, ioOk: bool): Node {
    if Saves(n, ioOk) then n.(slot := Snapshot(n)) else n
  }

  function SignVote(
    n: Node, hash: string, previousHash: string, d: Decision, now: int, signature: string): Vote
  {
    Vote(n.address, n.height, hash, previousHash, n.round, d, now, signature)
  }

  /** May this node prevote for the block with this hash? */
  ghost predicate SafeToPrevote(
    n: Node, hash: string, j: Justification, validators: Registry, sigOk: Vote -> bool)
  {
    || n.lockedHash == ""
    || hash == n.lockedHash
    || (n.round > n.lockedRound && PermitsUnlock(j, n.lockedRound, hash, n.round, validators, sigOk))
  }

  /** The validators with a prevote among the counted votes. */
  function Prevoters(votes: seq<Vote>): set<string> {
    set x | x in votes && x.decision == PREVOTE :: x.validator
  }

  /** Node state after a step, and the signed votes it exposed to the network. */
  datatype Outcome = Outcome(node: Node, exposed: seq<Vote>)

  /** A signed prevote is exposed only after the slot holds it. */
  function PrevoteStep(n: Node, vote: Vote, safe: bool, ioOk: bool): Outcome {
    if n.votedPrevote || !safe then Outcome(n, [])
    else
      var m := n.(prevote := Some(vote));
      if Saves(m, ioOk) then Outcome(Save(m, ioOk).(votedPrevote := true), [vote])
      else Outcome(n.(prevote := None), [])
  }

  /** A prevote quorum locks the node on the block; if the slot cannot be written the
      previous lock comes back and nothing is exposed. */
  function PrecommitStep(n: Node, vote: Vote, quorum: bool, ioOk: bool): Outcome {
    if !n.votedPrevote || n.votedPrecommit || !quorum then Outcome(n, [])
    else
      var m := n.(lockedHash := vote.hash, lockedRound := n.round, precommit := Some(vote));
      if Saves(m, ioOk) then Outcome(Save(m, ioOk).(votedPrecommit := true), [vote])
      else Outcome(n.(precommit := None), [])
  }

  /** Nil votes are signed rejections. The slot refuses them, so they never become durable. */
  function NilPrevoteStep(n: Node, nilVote: Vote, ioOk: bool): Node {
    if n.votedPrevote then n
    else Save(n.(prevote := Some(nilVote)), ioOk).(votedPrevote := true)
  }

  function NilPrecommitStep(n: Node, nilVote: Vote, ioOk: bool): Node {
    if n.votedPrecommit then n
    else Save(n.(precommit := Some(nilVote)), ioOk).(votedPrecommit := true)
  }

  /** A round change forgets the round's votes and keeps the lock. Nothing is written. */
  function AdvanceRoundStep(n: Node): Node {
    n.(round := n.round + 1, votedPrevote := false, votedPrecommit := false, prevote := None, precommit := None)
  }

  /** Leaving a finalized height. The voting loop keeps the old signed votes in memory; the
      block-sync path clears them. A runtime snapshot written at this point replaces the
      slot with the first round of the next height. */
  function FinalizeStep(n: Node, keepVotes: bool, snapshot: bool): Node {
    n.(height := n.height + 1, round := 1, lockedHash := "", lockedRound := 0,
       votedPrevote := false, votedPrecommit := false,
       prevote := if keepVotes then n.prevote else None,
       precommit := if keepVotes then n.precommit else None,
       slot := if snapshot then FreshRound(n.height + 1) else n.slot)
  }

  /** A crash loses everything but the finalized height and the slot. A slot for an already
      finalized height is replaced; a slot for a later height refuses to start. */
  function RestartStep(n: Node): Node {
    if n.slot.height > n.height then n
    else
      var s := if n.slot.height < n.height then FreshRound(n.height) else n.slot;
      n.(round := s.round, lockedHash := s.lockedHash, lockedRound := s.lockedRound,
         votedPrevote := s.prevote.Some?, votedPrecommit := s.precommit.Some?,
         prevote := s.prevote, precommit := s.precommit, slot := s)
  }

  /** A signed precommit that outlives its height silences the next height's first round: the
      slot refuses the mixed state. A prevote of that round is exposed exactly when the loop
      left the height without a precommit in memory, when the votes were cleared, or after a
      round change. */
  lemma {:induction false} KeptPrecommitSilencesRound(n: Node, vote: Vote, snapshot: bool, ioOk: bool)
    ensures PrevoteStep(FinalizeStep(n, true, snapshot), vote, true, ioOk).exposed == [vote] <==>
      n.precommit.None? && ioOk && IsRoundVote(vote, n.height + 1, 1, PREVOTE)
    ensures PrevoteStep(FinalizeStep(n, false, snapshot), vote, true, ioOk).exposed == [vote] <==>
      ioOk && IsRoundVote(vote, n.height + 1, 1, PREVOTE)
    ensures PrevoteStep(AdvanceRoundStep(FinalizeStep(n, true, snapshot)), vote, true, ioOk).exposed == [vote] <==>
      ioOk && IsRoundVote(vote, n.height + 1, 2, PREVOTE)
  {
    var kept := FinalizeStep(n, true, snapshot).(prevote := Some(vote));
    assert Persistable(Snapshot(kept)) <==> n.precommit.None? && IsRoundVote(vote, n.height + 1, 1, PREVOTE);
  }

  /** The durable slot: one file, replaced atomically. */
  class RecoveryStore {
    var slot: Option<RoundState>

    constructor ()
      ensures slot == None
    {
      slot := None;
    }

    method Save(state: RoundState, ioOk: bool) returns (saved: bool)
      modifies this
      ensures saved <==> ioOk && Persistable(state)
      ensures slot == if saved then Some(state) else old(slot)
    {
      if !Persistable(state) || !ioOk {
        return false;
      }
      slot := Some(state);
      return true;
    }
  }

  lemma PrevotersAppend(votes: seq<Vote>, i: nat)
    requires i < |votes|
    ensures Prevoters(votes[..i + 1]) ==
      Prevoters(votes[..i]) + (if votes[i].decision == PREVOTE then {votes[i].validator} else {})
  {
    assert votes[..i + 1] == votes[..i] + [votes[i]];
  }

  /** Each validator's weight is counted at its first prevote. The sum is the weight of a set
      of validators, so it never leaves the word. */
  method CountPrevotes(votes: seq<Vote>, validators: Registry) returns (weight: nat)
    requires Total(validators.weights) <= UINT64_MAX
    ensures weight == Weight(validators.weights, Prevoters(votes)) <= UINT64_MAX
    ensures weight == Weight(validators.weights, set x | x in votes && x.decision == PREVOTE :: x.validator)
  {
    weight := 0;
    var seen: set<string> := {};
    for i := 0 to |votes|
      invariant seen == Prevoters(votes[..i]) && weight == Weight(validators.weights, seen)
    {
      PrevotersAppend(votes, i);
      var v := votes[i].validator;
      if votes[i].decision == PREVOTE && v !in seen {
        WeightPeel(validators.weights, seen + {v}, v);
        assert seen + {v} - {v} == seen;
        seen := seen + {v};
        weight := weight + validators.WeightFor(v);
      }
    }
    assert votes[..|votes|] == votes;
    WeightAtMostTotal(validators.weights, seen);
  }

  /** The voting loop of one validator, updating its fields in place. Each method is tied to
      the step function above that the agreement proof uses. */
  class VotingLoop {
    const address: string
    const store: RecoveryStore
    var height: nat
    var round: nat
    var lockedHash: string
    var lockedRound: nat
    var votedPrevote: bool
    var votedPrecommit: bool
    var prevote: Option<Vote>
    var precommit: Option<Vote>

    ghost predicate Ready()
      reads this, store
    {
      store.slot.Some?
    }

    ghost function State(): Node
      requires Ready()
      reads this, store
    {
      Node(address, height, round, lockedHash, lockedRound, votedPrevote, votedPrecommit,
           prevote, precommit, store.slot.value)
    }

    /** A node's first start: the data directory is initialised with the first round of its
        working height, so a slot always exists. */
    constructor (address: string, height: nat, store: RecoveryStore)
      requires height > 0
      modifies store
      ensures Ready() && this.store == store
      ensures State() == Node(address, height, 1, "", 0, false, false, None, None, FreshRound(height))
    {
      this.address, this.store := address, store;
      this.height, this.round := height, 1;
      lockedHash, lockedRound := "", 0;
      votedPrevote, votedPrecommit := false, false;
      prevote, precommit := None, None;
      new;
      var _ := store.Save(FreshRound(height), true);
    }

    method SaveRecoveryState(ioOk: bool) returns (saved: bool)
      requires Ready()
      modifies store
      ensures Ready() && saved == Saves(old(State()), ioOk)
      ensures State() == Save(old(State()), ioOk)
    {
      saved := store.Save(RoundState(height, round, lockedHash, lockedRound, prevote, precommit), ioOk);
    }

    /** The lock rule, with the unlock certificate checked vote by vote. */
    method IsSafeToVote(
      hash: string, j: Justification, validators: Registry, totalWeight: nat, sigOk: Vote -> bool)
      returns (safe: bool)
      requires Ready() && totalWeight == Total(validators.weights)
      ensures safe <==> SafeToPrevote(State(), hash, j, validators, sigOk)
      ensures safe <==>
        || lockedHash == "" || lockedHash == hash
        || (&& lockedRound < round && j.UnlockCertificate? && Verifies(j.certificate, validators, sigOk)
            && j.certificate.hash == hash && lockedRound <= j.certificate.round)
    {
      if lockedHash == "" || hash == lockedHash {
        return true;
      }
      if round <= lockedRound || j.NoJustification? {
        return false;
      }
      var verified := VerifyCertificate(j.certificate, validators, totalWeight, sigOk);
      return verified && j.certificate.round >= lockedRound && j.certificate.hash == hash;
    }

    method CastPrevote(
      hash: string, previousHash: string, now: int, signature: string, j: Justification,
      validators: Registry, totalWeight: nat, sigOk: Vote -> bool, ioOk: bool)
      returns (exposed: seq<Vote>)
      requires Ready() && totalWeight == Total(validators.weights)
      modifies this, store
      ensures Ready()
      ensures Outcome(State(), exposed) ==
        PrevoteStep(old(State()), SignVote(old(State()), hash, previousHash, PREVOTE, now, signature),
                    SafeToPrevote(old(State()), hash, j, validators, sigOk), ioOk)
    {
      if votedPrevote {
        return [];
      }
      var safe := IsSafeToVote(hash, j, validators, totalWeight, sigOk);
      if !safe {
        return [];
      }
      var vote := Vote(address, height, hash, previousHash, round, PREVOTE, now, signature);
      prevote := Some(vote);
      var saved := SaveRecoveryState(ioOk);
      if !saved {
        prevote := None;
        return [];
      }
      votedPrevote := true;
      return [vote];
    }

    /** `votes` are the pool's votes for this block and round. A set without weight stops the
        loop before any vote is cast. */
    method CastPrecommit(
      hash: string, previousHash: string, now: int, signature: string, votes: seq<Vote>,
      validators: Registry, totalWeight: nat, ioOk: bool)
      returns (exposed: seq<Vote>)
      requires Ready() && totalWeight == Total(validators.weights) <= UINT64_MAX
      modifies this, store
      ensures Ready()
      ensures Outcome(State(), exposed) ==
        PrecommitStep(old(State()), SignVote(old(State()), hash, previousHash, PRECOMMIT, now, signature),
                      IsQuorum(validators.weights, Prevoters(votes)), ioOk)
    {
      if totalWeight == 0 || !votedPrevote || votedPrecommit {
        return [];
      }
      var weight := CountPrevotes(votes, validators);
      if weight < RequiredWeight(totalWeight) {
        return [];
      }
      var vote := Vote(address, height, hash, previousHash, round, PRECOMMIT, now, signature);
      var previousLock, previousRound := lockedHash, lockedRound;
      lockedHash, lockedRound := hash, round;
      precommit := Some(vote);
      var saved := SaveRecoveryState(ioOk);
      if !saved {
        lockedHash, lockedRound := previousLock, previousRound;
        precommit := None;
        return [];
      }
      votedPrecommit := true;
      return [vote];
    }

    method CastNilPrevote(nilVote: Vote, ioOk: bool)
      requires Ready()
      modifies this, store
      ensures Ready() && State() == NilPrevoteStep(old(State()), nilVote, ioOk)
    {
      if !votedPrevote {
        prevote := Some(nilVote);
        var _ := SaveRecoveryState(ioOk);
        votedPrevote := true;
      }
    }

    method CastNilPrecommit(nilVote: Vote, ioOk: bool)
      requires Ready()
      modifies this, store
      ensures Ready() && State() == NilPrecommitStep(old(State()), nilVote, ioOk)
    {
      if !votedPrecommit {
        precommit := Some(nilVote);
        var _ := SaveRecoveryState(ioOk);
        votedPrecommit := true;
      }
    }

    method AdvanceRound()
      requires Ready()
      modifies this
      ensures Ready() && State() == AdvanceRoundStep(old(State()))
    {
      round := round + 1;
      votedPrevote, votedPrecommit := false, false;
      prevote, precommit := None, None;
    }

    /** Start-up after a crash; false means the node refuses to start. */
    method LoadFromRecoveryState() returns (started: bool)
      requires Ready() && height > 0
      modifies this, store
      ensures Ready() && State() == RestartStep(old(State()))
      ensures started <==> old(store.slot.value.height) <= height
    {
      var state := store.slot.value;
      if state.height > height {
        return false;
      }
      if state.height < height {
        state := FreshRound(height);
        var _ := store.Save(state, true);
      }
      round := state.round;
      lockedHash, lockedRound := state.lockedHash, state.lockedRound;
      votedPrevote, votedPrecommit := state.prevote.Some?, state.precommit.Some?;
      prevote, precommit := state.prevote, state.precommit;
      return true;
    }
  }
}
