/** Which validator set is in force at a height, and exactly which commits and set changes are
    accepted. */
module LivenessLaws {
  import opened Wrappers
  import opened Quorum
  import opened Ordering
  import opened Arithmetic
  import opened Liveness

  /** The set after `n` heights: the last one that was passed in with a height, or the first. */
  function InForce(entries: seq<Entry>, n: nat, start: NextSet): NextSet
    requires n <= |entries|
  {
    if n == 0 then start
    else if entries[n - 1].next.Some? then entries[n - 1].next.value
    else InForce(entries, n - 1, start)
  }

  function SetOf(c: Counters): NextSet {
    NextSet(c.root, c.validators)
  }

  /** In every run the counted set is the last one installed. Right after a boundary the set before
      it is remembered, and at no other height. */
  lemma {:induction false} CountedSetIsInForce(entries: seq<Entry>, cs: seq<Counters>, n: nat)
    requires IsRun(entries, cs) && n <= |entries|
    ensures cs[n].epochLength == cs[0].epochLength > 0
    ensures SetOf(cs[n]) == InForce(entries, n, SetOf(cs[0]))
    ensures
      if n > 0 && n % cs[0].epochLength == 0 then
        var before := InForce(entries, n - 1, SetOf(cs[0]));
        cs[n].previous == Some(Boundary(before.root, before.validators))
      else cs[n].previous.None?
  {
    if n > 0 {
      CountedSetIsInForce(entries, cs, n - 1);
      assert StepOk(cs[n - 1], entries[n - 1], n - 1, cs[n]);
    }
  }

  /** Set changes only come at the ends of epochs, so a set is in force for whole epochs. */
  lemma {:induction false} NoChangeInside(entries: seq<Entry>, cs: seq<Counters>, n: nat)
    requires IsRun(entries, cs) && 0 < n <= |entries| && n % cs[0].epochLength != 0
    ensures InForce(entries, n, SetOf(cs[0])) == InForce(entries, n - 1, SetOf(cs[0]))
  {
    CountedSetIsInForce(entries, cs, n - 1);
    assert StepOk(cs[n - 1], entries[n - 1], n - 1, cs[n]);
  }

  /** A list of signers is accepted for a set: in order, all of them members, with more than two
      thirds of the weight. */
  predicate SignedByQuorum(s: NextSet, signers: seq<string>) {
    && SortedTexts(signers)
    && (forall k: nat :: k < |signers| ==> exists i: nat :: i < |s.validators| && s.validators[i].id == signers[k])
    && 3 * ListedWeight(s.validators, signers) > 2 * WeightSum(s.validators)
  }

  lemma {:induction false} QuorumIff(s: NextSet, signers: seq<string>)
    requires ValidSet(s.validators)
    ensures VerifiedSigners(s.validators, signers) <==> SignedByQuorum(s, signers)
  {
    SomeWeight(s.validators, 0);
  }

  lemma {:induction false} SomeWeight(vs: seq<Validator>, i: nat)
    requires i < |vs| && vs[i].weight > 0
    ensures WeightSum(vs) > 0
  {
    if i < |vs| - 1 {
      SomeWeight(vs[..|vs| - 1], i);
    }
  }

  lemma {:induction false} SetsInForceValid(entries: seq<Entry>, cs: seq<Counters>, n: nat)
    requires IsRun(entries, cs) && n <= |entries|
    ensures ValidSet(InForce(entries, n, SetOf(cs[0])).validators)
  {
    if n > 0 {
      SetsInForceValid(entries, cs, n - 1);
      assert StepOk(cs[n - 1], entries[n - 1], n - 1, cs[n]);
    }
  }

  /** Four to 9619 validators, in strict order of their ids, each with weight, within 64 bits. */
  predicate Admissible(vs: seq<Validator>) {
    && |vs| >= 4 && |vs| < 9620
    && (forall i: nat :: i < |vs| ==> vs[i].weight >= 1)
    && (forall i: nat :: 0 < i < |vs| ==> Less(vs[i - 1].id, vs[i].id))
    && WeightSum(vs) < 0x1_0000_0000_0000_0000
  }

  lemma {:induction false} NeighboursSort(vs: seq<Validator>, i: nat, j: nat)
    requires i < j < |vs| && forall k: nat :: 0 < k < |vs| ==> Less(vs[k - 1].id, vs[k].id)
    ensures Less(vs[i].id, vs[j].id)
    decreases j
  {
    if i < j - 1 {
      NeighboursSort(vs, i, j - 1);
      LessTrans(vs[i].id, vs[j - 1].id, vs[j].id);
    }
  }

  lemma {:induction false} AdmissibleIff(vs: seq<Validator>)
    ensures ValidSet(vs) <==> Admissible(vs)
  {
    if Admissible(vs) {
      forall i: nat, j: nat | i < j < |vs| ensures Less(vs[i].id, vs[j].id) {
        NeighboursSort(vs, i, j);
      }
    }
  }

  /** In every run the next height is accepted exactly when it brings the commit of the height
      before it, by a quorum of the set that was in force there, also right after a set change,
      and a new set, if any, comes at the end of an epoch and is valid. */
  lemma {:induction false} NextHeightIff(
    entries: seq<Entry>, cs: seq<Counters>, n: nat, parent: Option<ParentCommit>, next: Option<NextSet>)
    requires IsRun(entries, cs) && n == |entries| && n + 1 < UINT64_MAX
    requires cs[n].epochLength > 0 && |cs[n].signed| == |cs[n].validators|
    ensures Accepts(cs[n], n + 1, parent, next) <==>
      && (if n == 0 then parent.None?
          else
            && parent.Some? && parent.value.height == n
            && parent.value.setRoot == InForce(entries, n - 1, SetOf(cs[0])).root
            && SignedByQuorum(InForce(entries, n - 1, SetOf(cs[0])), parent.value.signers))
      && (next.Some? ==> (n + 1) % cs[n].epochLength == 0 && Admissible(next.value.validators))
  {
    if next.Some? {
      AdmissibleIff(next.value.validators);
    }
    var e, p := CountersMatchLog(entries, cs, n);
    LimitsNeverRefuse(cs[n], entries, n, e, p, parent, next);
    CountedSetIsInForce(entries, cs, n);
    if n > 0 {
      ParentSet(entries, cs, n);
      SetsInForceValid(entries, cs, n - 1);
      if parent.Some? {
        QuorumIff(InForce(entries, n - 1, SetOf(cs[0])), parent.value.signers);
      }
    }
  }

  /** The set a commit is checked against is the one that was in force at its height. */
  lemma {:induction false} ParentSet(entries: seq<Entry>, cs: seq<Counters>, n: nat)
    requires IsRun(entries, cs) && 0 < n <= |entries| && cs[n].epochLength > 0
    ensures
      var before := InForce(entries, n - 1, SetOf(cs[0]));
      if FirstOfEpoch(cs[n], n + 1) then cs[n].previous == Some(Boundary(before.root, before.validators))
      else cs[n].root == before.root && cs[n].validators == before.validators
  {
    CountedSetIsInForce(entries, cs, n);
    if n % cs[0].epochLength != 0 {
      NoChangeInside(entries, cs, n);
    }
  }
}
