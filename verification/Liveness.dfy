/** Participation counters: which validators signed which parent commits of an epoch, counted
    height by height and assessed at every epoch boundary. */
module Liveness {
  import opened Wrappers
  import opened Quorum
  import opened Ordering
  import opened Arithmetic

  const MAX_VALIDATORS: nat := 9619

  datatype Validator = Validator(id: string, weight: nat)

  datatype ParentCommit = ParentCommit(height: nat, setRoot: string, signers: seq<string>)

  datatype NextSet = NextSet(root: string, validators: seq<Validator>)

  /** The set of the last boundary, kept for one height. */
  datatype Boundary = Boundary(root: string, validators: seq<Validator>)

  datatype Counters = Counters(
    epochLength: nat, nextHeight: nat, epoch: nat, observed: nat,
    root: string, validators: seq<Validator>, signed: seq<nat>, previous: Option<Boundary>)

  datatype Assessment = Assessment(id: string, signed: nat, observed: nat, inactive: bool)

  // --- Validator sets and signer lists --------------------------------------------------------------

  function WeightSum(vs: seq<Validator>): nat {
    if vs == [] then 0 else WeightSum(vs[..|vs| - 1]) + vs[|vs| - 1].weight
  }

  predicate SortedIds(vs: seq<Validator>) {
    forall i: nat, j: nat :: i < j < |vs| ==> Less(vs[i].id, vs[j].id)
  }

  predicate ValidSet(vs: seq<Validator>) {
    && 4 <= |vs| <= MAX_VALIDATORS
    && (forall i: nat :: i < |vs| ==> vs[i].weight > 0)
    && SortedIds(vs)
    && WeightSum(vs) <= UINT64_MAX
  }

  predicate SortedTexts(xs: seq<string>) {
    forall i: nat, j: nat :: i < j < |xs| ==> Less(xs[i], xs[j])
  }

  predicate Member(vs: seq<Validator>, id: string) {
    exists i: nat :: i < |vs| && vs[i].id == id
  }

  /** The weight of the validators on the list. */
  function ListedWeight(vs: seq<Validator>, signers: seq<string>): nat {
    if vs == [] then 0
    else ListedWeight(vs[..|vs| - 1], signers) + if vs[|vs| - 1].id in signers then vs[|vs| - 1].weight else 0
  }

  /** A verified commit: its signers in order, all of them in the set, with a quorum of weight. */
  predicate VerifiedSigners(vs: seq<Validator>, signers: seq<string>) {
    && SortedTexts(signers)
    && (forall k: nat :: k < |signers| ==> Member(vs, signers[k]))
    && 0 < WeightSum(vs) <= UINT64_MAX
    && ListedWeight(vs, signers) >= RequiredWeight(WeightSum(vs))
  }

  lemma {:induction false} ListedAtMostTotal(vs: seq<Validator>, signers: seq<string>)
    ensures ListedWeight(vs, signers) <= WeightSum(vs)
  {
    if vs != [] {
      ListedAtMostTotal(vs[..|vs| - 1], signers);
    }
  }

  lemma {:induction false} ListedNone(vs: seq<Validator>)
    ensures ListedWeight(vs, []) == 0
  {
    if vs != [] {
      ListedNone(vs[..|vs| - 1]);
    }
  }

  /** One more signer adds its weight, once. */
  lemma {:induction false} ListedAdd(vs: seq<Validator>, signers: seq<string>, i: nat)
    requires SortedIds(vs) && i < |vs| && vs[i].id !in signers
    ensures ListedWeight(vs, signers + [vs[i].id]) == ListedWeight(vs, signers) + vs[i].weight
    decreases |vs|
  {
    var n := |vs| - 1;
    var id := vs[i].id;
    if i < n {
      ListedAdd(vs[..n], signers, i);
      LessIrreflexive(id);
      assert vs[n].id != id;
    } else {
      forall k: nat | k < n ensures vs[..n][k].id != id {
        LessIrreflexive(id);
      }
      ListedSame(vs[..n], signers, id);
    }
  }

  lemma {:induction false} ListedSame(vs: seq<Validator>, signers: seq<string>, id: string)
    requires forall k: nat :: k < |vs| ==> vs[k].id != id
    ensures ListedWeight(vs, signers + [id]) == ListedWeight(vs, signers)
  {
    if vs != [] {
      ListedSame(vs[..|vs| - 1], signers, id);
    }
  }

  /** Which validators are on the list, by position. */
  ghost predicate Positions(vs: seq<Validator>, signers: seq<string>, indexes: seq<nat>) {
    && |indexes| == |signers|
    && forall k: nat :: k < |indexes| ==> indexes[k] < |vs| && vs[indexes[k]].id == signers[k]
  }

  /** Walks the sorted signers along the sorted set. */
  method VerifiedSignerIndexes(signers: seq<string>, vs: seq<Validator>) returns (r: Option<seq<nat>>)
    requires ValidSet(vs)
    ensures r.Some? <==> VerifiedSigners(vs, signers)
    ensures r.Some? ==> Positions(vs, signers, r.value)
  {
    var indexes: seq<nat> := [];
    var i, weight := 0, 0;
    ListedNone(vs);
    for k := 0 to |signers|
      invariant i <= |vs| && Positions(vs, signers[..k], indexes) && SortedTexts(signers[..k])
      invariant weight == ListedWeight(vs, signers[..k])
      invariant k > 0 ==> i == indexes[k - 1]
      invariant k == 0 ==> i == 0
    {
      var signer := signers[k];
      if k > 0 && !Less(vs[indexes[k - 1]].id, signer) {
        return None;
      }
      forall m: nat | m < i ensures Less(vs[m].id, signer) {
        LessTrans(vs[m].id, vs[i].id, signer);
      }
      i := SkipTo(vs, i, signer);
      if i == |vs| || vs[i].id != signer {
        return None;
      }
      assert signers[..k + 1] == signers[..k] + [signer];
      SortedAppend(signers[..k], signer);
      ListedAdd(vs, signers[..k], i);
      ListedAtMostTotal(vs, signers[..k + 1]);
      weight := weight + vs[i].weight;
      indexes := indexes + [i];
    }
    assert signers[..|signers|] == signers;
    NonEmptySet(vs);
    if weight < RequiredWeight(WeightSum(vs)) {
      return None;
    }
    r := Some(indexes);
  }

  lemma {:induction false} NonEmptySet(vs: seq<Validator>)
    requires ValidSet(vs)
    ensures WeightSum(vs) > 0
  {
  }

  lemma {:induction false} SortedAppend(xs: seq<string>, x: string)
    requires SortedTexts(xs) && (xs != [] ==> Less(xs[|xs| - 1], x))
    ensures SortedTexts(xs + [x]) && x !in xs
  {
    forall i: nat | i < |xs| ensures Less(xs[i], x) && xs[i] != x {
      if i < |xs| - 1 {
        LessTrans(xs[i], xs[|xs| - 1], x);
      }
      LessIrreflexive(x);
    }
  }

  /** The first position from `i` on that is not before the signer; if the signer is not there,
      it is not in the set. */
  method SkipTo(vs: seq<Validator>, i: nat, signer: string) returns (j: nat)
    requires SortedIds(vs) && i <= |vs|
    requires forall k: nat :: k < i ==> Less(vs[k].id, signer)
    ensures i <= j <= |vs|
    ensures Member(vs, signer) <==> j < |vs| && vs[j].id == signer
  {
    j := i;
    while j < |vs| && Less(vs[j].id, signer)
      invariant i <= j <= |vs|
      invariant forall k: nat :: k < j ==> Less(vs[k].id, signer)
    {
      j := j + 1;
    }
    forall k: nat | k < |vs| && k != j ensures vs[k].id != signer || (j < |vs| && vs[j].id == signer) {
      LessIrreflexive(signer);
      if j < k {
        LessAsymmetric(vs[j].id, vs[k].id);
      }
    }
  }

  // --- One height -----------------------------------------------------------------------------------

  function Bump(v: Validator, count: nat, signers: seq<string>): nat {
    count + if v.id in signers then 1 else 0
  }

  function Bumped(vs: seq<Validator>, signed: seq<nat>, signers: seq<string>): seq<nat>
    requires |signed| == |vs|
  {
    seq(|vs|, i requires 0 <= i < |vs| => Bump(vs[i], signed[i], signers))
  }

  /** The height follows an epoch boundary. */
  predicate FirstOfEpoch(c: Counters, height: nat)
    requires c.epochLength > 0
  {
    height > 1 && (height - 1) % c.epochLength == 0
  }

  predicate IsBoundary(c: Counters, height: nat)
    requires c.epochLength > 0
  {
    height % c.epochLength == 0
  }

  predicate Counts(c: Counters, height: nat, parent: Option<ParentCommit>)
    requires c.epochLength > 0
  {
    parent.Some? && !FirstOfEpoch(c, height)
  }

  function SignedAfter(c: Counters, height: nat, parent: Option<ParentCommit>): seq<nat>
    requires c.epochLength > 0 && |c.signed| == |c.validators|
  {
    if Counts(c, height, parent) then Bumped(c.validators, c.signed, parent.value.signers) else c.signed
  }

  function ObservedAfter(c: Counters, height: nat, parent: Option<ParentCommit>): nat
    requires c.epochLength > 0
  {
    if Counts(c, height, parent) then c.observed + 1 else c.observed
  }

  /** The commit passed in is the right one for the height. */
  predicate ParentOk(c: Counters, height: nat, parent: Option<ParentCommit>)
    requires c.epochLength > 0 && |c.signed| == |c.validators|
  {
    && (parent.Some? <==> height != 1)
    && (parent.Some? ==> parent.value.height + 1 == height)
    && (parent.Some? && FirstOfEpoch(c, height) ==>
          && c.previous.Some? && parent.value.setRoot == c.previous.value.root
          && VerifiedSigners(c.previous.value.validators, parent.value.signers))
    && (Counts(c, height, parent) ==>
          && parent.value.setRoot == c.root && VerifiedSigners(c.validators, parent.value.signers))
  }

  /** The counters can take one more commit. */
  predicate RoomFor(c: Counters, height: nat, parent: Option<ParentCommit>)
    requires c.epochLength > 0 && |c.signed| == |c.validators|
  {
    Counts(c, height, parent) ==>
      && c.observed < c.epochLength - 1
      && forall i: nat :: i < |c.validators| && c.validators[i].id in parent.value.signers ==> c.signed[i] != UINT64_MAX
  }

  predicate Accepts(c: Counters, height: nat, parent: Option<ParentCommit>, next: Option<NextSet>)
    requires c.epochLength > 0 && |c.signed| == |c.validators|
  {
    && height == c.nextHeight && height != UINT64_MAX
    && (next.Some? ==> IsBoundary(c, height))
    && ParentOk(c, height, parent)
    && RoomFor(c, height, parent)
    && (IsBoundary(c, height) ==> ObservedAfter(c, height, parent) == c.epochLength - 1)
    && (next.Some? ==> ValidSet(next.value.validators))
  }

  function Assess(id: string, signed: nat, observed: nat): Assessment {
    Assessment(id, signed, observed, signed * 4 < observed * 3)
  }

  function Assessments(vs: seq<Validator>, signed: seq<nat>, observed: nat): seq<Assessment>
    requires |signed| == |vs|
  {
    seq(|vs|, i requires 0 <= i < |vs| => Assess(vs[i].id, signed[i], observed))
  }

  datatype Transition = Transition(boundary: bool, assessments: seq<Assessment>)

  function TransitionOf(c: Counters, height: nat, parent: Option<ParentCommit>): Transition
    requires c.epochLength > 0 && |c.signed| == |c.validators|
  {
    var boundary := IsBoundary(c, height);
    Transition(boundary,
      if boundary then Assessments(c.validators, SignedAfter(c, height, parent), ObservedAfter(c, height, parent)) else [])
  }

  function Zeros(n: nat): seq<nat> {
    seq(n, _ => 0)
  }

  function After(c: Counters, height: nat, parent: Option<ParentCommit>, next: Option<NextSet>): Counters
    requires c.epochLength > 0 && |c.signed| == |c.validators|
  {
    if IsBoundary(c, height) then
      var vs := if next.Some? then next.value.validators else c.validators;
      c.(nextHeight := height + 1, epoch := c.epoch + 1, observed := 0,
         root := if next.Some? then next.value.root else c.root, validators := vs, signed := Zeros(|vs|),
         previous := Some(Boundary(c.root, c.validators)))
    else
      c.(nextHeight := height + 1, observed := ObservedAfter(c, height, parent), signed := SignedAfter(c, height, parent),
         previous := if FirstOfEpoch(c, height) then None else c.previous)
  }

  // --- Runs -----------------------------------------------------------------------------------------

  datatype Entry = Entry(parent: Option<ParentCommit>, next: Option<NextSet>)

  ghost predicate Initial(c: Counters) {
    && 288 <= c.epochLength <= 604_800 && ValidSet(c.validators)
    && c.nextHeight == 1 && c.epoch == 0 && c.observed == 0 && c.signed == Zeros(|c.validators|) && c.previous.None?
  }

  /** `cs` are the counters of a run: one accepted height after the other. */
  ghost predicate IsRun(entries: seq<Entry>, cs: seq<Counters>) {
    && |cs| == |entries| + 1 && Initial(cs[0])
    && forall k: nat :: k < |entries| ==> StepOk(cs[k], entries[k], k, cs[k + 1])
  }

  ghost predicate StepOk(c: Counters, e: Entry, k: nat, d: Counters) {
    && c.epochLength > 0 && |c.signed| == |c.validators|
    && Accepts(c, k + 1, e.parent, e.next)
    && d == After(c, k + 1, e.parent, e.next)
  }

  function Lists(e: Entry, id: string): nat {
    if e.parent.Some? && id in e.parent.value.signers then 1 else 0
  }

  /** How many of the entries from position `from` up to `to` carry a commit signed by `id`. */
  function CommitsListing(entries: seq<Entry>, from: nat, to: nat, id: string): nat
    requires to <= |entries|
  {
    if to <= from then 0 else CommitsListing(entries, from, to - 1, id) + Lists(entries[to - 1], id)
  }

  /** After `n` heights, `p` of them in epoch `e`: the counters are the log of that epoch, whose
      first commit belongs to the old boundary and is left out. */
  ghost predicate Matches(c: Counters, entries: seq<Entry>, n: nat, e: nat, p: nat)
    requires n <= |entries|
  {
    && 288 <= c.epochLength <= 604_800 && n == c.epochLength * e + p && p < c.epochLength
    && c.nextHeight == n + 1 && c.epoch == e
    && ValidSet(c.validators) && |c.signed| == |c.validators|
    && c.observed == (if p == 0 then 0 else p - 1)
    && (forall i: nat :: i < |c.validators| ==>
          c.signed[i] == CommitsListing(entries, c.epochLength * e + 1, n, c.validators[i].id))
    && (c.previous.Some? <==> p == 0 && n > 0)
    && (c.previous.Some? ==> ValidSet(c.previous.value.validators))
  }

  lemma {:induction false} HeightInEpoch(n: nat, length: nat, e: nat, p: nat)
    requires length >= 2 && n == length * e + p && p < length
    ensures n % length == p
    ensures (n + 1) % length == 0 <==> p == length - 1
  {
    ModUnique(n, length, e, p);
    if p == length - 1 {
      assert n + 1 == length * (e + 1) + 0;
      ModUnique(n + 1, length, e + 1, 0);
    } else {
      ModUnique(n + 1, length, e, p + 1);
    }
  }

  /** Counting one commit is extending the log by it. */
  lemma {:induction false} CountStep(c: Counters, entries: seq<Entry>, n: nat, e: nat, p: nat, i: nat)
    requires n < |entries| && Matches(c, entries, n, e, p) && i < |c.validators|
    requires Accepts(c, n + 1, entries[n].parent, entries[n].next)
    ensures SignedAfter(c, n + 1, entries[n].parent)[i]
      == CommitsListing(entries, c.epochLength * e + 1, n + 1, c.validators[i].id)
    ensures ObservedAfter(c, n + 1, entries[n].parent) == p
  {
    HeightInEpoch(n, c.epochLength, e, p);
  }

  lemma {:induction false} BoundaryMatches(c: Counters, entries: seq<Entry>, n: nat, e: nat, p: nat, d: Counters)
    requires n < |entries| && Matches(c, entries, n, e, p) && p + 1 == c.epochLength && StepOk(c, entries[n], n, d)
    ensures Matches(d, entries, n + 1, e + 1, 0)
  {
    HeightInEpoch(n, c.epochLength, e, p);
    assert c.epochLength * (e + 1) == n + 1;
  }

  lemma {:induction false} InnerMatches(c: Counters, entries: seq<Entry>, n: nat, e: nat, p: nat, d: Counters)
    requires n < |entries| && Matches(c, entries, n, e, p) && p + 1 < c.epochLength && StepOk(c, entries[n], n, d)
    ensures Matches(d, entries, n + 1, e, p + 1)
  {
    HeightInEpoch(n, c.epochLength, e, p);
    forall i: nat | i < |c.validators|
      ensures d.signed[i] == CommitsListing(entries, c.epochLength * e + 1, n + 1, c.validators[i].id)
    {
      CountStep(c, entries, n, e, p, i);
    }
    CountStep(c, entries, n, e, p, 0);
  }

  lemma {:induction false} StepMatches(c: Counters, entries: seq<Entry>, n: nat, e: nat, p: nat, d: Counters)
    returns (e': nat, p': nat)
    requires n < |entries| && Matches(c, entries, n, e, p) && StepOk(c, entries[n], n, d)
    ensures Matches(d, entries, n + 1, e', p')
  {
    if p + 1 == c.epochLength {
      BoundaryMatches(c, entries, n, e, p, d);
      return e + 1, 0;
    }
    InnerMatches(c, entries, n, e, p, d);
    return e, p + 1;
  }

  lemma {:induction false} ListingBound(entries: seq<Entry>, from: nat, end: nat, id: string)
    requires end <= |entries|
    ensures CommitsListing(entries, from, end, id) <= (if end <= from then 0 else end - from)
    decreases end
  {
    if end > from {
      ListingBound(entries, from, end - 1, id);
    }
  }

  /** In a run only the commit and the next set decide: the limits on the counters never refuse
      a height. */
  lemma {:induction false} LimitsNeverRefuse(c: Counters, entries: seq<Entry>, n: nat, e: nat, p: nat,
    parent: Option<ParentCommit>, next: Option<NextSet>)
    requires n <= |entries| && n + 1 < UINT64_MAX && Matches(c, entries, n, e, p)
    ensures Accepts(c, n + 1, parent, next) <==>
      && ParentOk(c, n + 1, parent)
      && (next.Some? ==> IsBoundary(c, n + 1) && ValidSet(next.value.validators))
  {
    HeightInEpoch(n, c.epochLength, e, p);
    forall i: nat | i < |c.signed| ensures c.signed[i] != UINT64_MAX {
      ListingBound(entries, c.epochLength * e + 1, n, c.validators[i].id);
    }
  }

  lemma {:induction false} StartMatches(entries: seq<Entry>, c: Counters)
    requires Initial(c)
    ensures Matches(c, entries, 0, 0, 0)
  {
  }

  /** In every run, at every height, the counters are the log of the current epoch. */
  lemma {:induction false} CountersMatchLog(entries: seq<Entry>, cs: seq<Counters>, n: nat) returns (e: nat, p: nat)
    requires IsRun(entries, cs) && n <= |entries|
    ensures Matches(cs[n], entries, n, e, p)
  {
    if n == 0 {
      e, p := 0, 0;
      StartMatches(entries, cs[0]);
      return;
    }
    e, p := CountersMatchLog(entries, cs, n - 1);
    assert StepOk(cs[n - 1], entries[n - 1], n - 1, cs[n]);
    e, p := StepMatches(cs[n - 1], entries, n - 1, e, p, cs[n]);
  }

  /** The assessments of a boundary height: every validator with the number of that epoch's
      parent commits that list it, out of exactly one less than the epoch's heights. */
  lemma {:induction false} BoundaryAssessments(entries: seq<Entry>, cs: seq<Counters>, n: nat, i: nat) returns (e: nat)
    requires IsRun(entries, cs) && n < |entries| && cs[n].epochLength > 0 && IsBoundary(cs[n], n + 1)
    requires |cs[n].signed| == |cs[n].validators| && i < |cs[n].validators|
    ensures n + 1 == cs[n].epochLength * (e + 1)
    ensures
      var c := cs[n];
      var signed := CommitsListing(entries, c.epochLength * e + 1, n + 1, c.validators[i].id);
      var made := TransitionOf(c, n + 1, entries[n].parent).assessments;
      |made| == |c.validators| && made[i] ==
        Assessment(c.validators[i].id, signed, c.epochLength - 1, signed * 4 < (c.epochLength - 1) * 3)
  {
    var p;
    e, p := CountersMatchLog(entries, cs, n);
    var c := cs[n];
    HeightInEpoch(n, c.epochLength, e, p);
    assert StepOk(c, entries[n], n, cs[n + 1]);
    CountStep(c, entries, n, e, p, i);
    assert c.epochLength * (e + 1) == c.epochLength * e + c.epochLength;
  }

  // --- The object -----------------------------------------------------------------------------------

  class Accountability {
    var counters: Counters

    ghost predicate Valid()
      reads this
    {
      && counters.epochLength > 0 && |counters.signed| == |counters.validators| && ValidSet(counters.validators)
      && (counters.previous.Some? ==> ValidSet(counters.previous.value.validators))
    }

    constructor (epochLength: nat, root: string, validators: seq<Validator>)
      requires 288 <= epochLength <= 604_800 && ValidSet(validators)
      ensures Valid() && Initial(counters) && counters.validators == validators && counters.epochLength == epochLength
    {
      counters := Counters(epochLength, 1, 0, 0, root, validators, Zeros(|validators|), None);
    }

    /** Checks one commit against a set; the positions of its signers when it holds. */
    method CheckCommit(commit: ParentCommit, root: string, vs: seq<Validator>) returns (r: Option<seq<nat>>)
      requires ValidSet(vs)
      ensures r.Some? <==> commit.setRoot == root && VerifiedSigners(vs, commit.signers)
      ensures r.Some? ==> Positions(vs, commit.signers, r.value)
    {
      if commit.setRoot != root {
        return None;
      }
      r := VerifiedSignerIndexes(commit.signers, vs);
    }

    /** Adds one to the counter of every listed validator; fails at a full counter. */
    method CountSigners(vs: seq<Validator>, signed: seq<nat>, signers: seq<string>, indexes: seq<nat>)
      returns (ok: bool, counted: seq<nat>)
      requires |signed| == |vs| && SortedIds(vs) && SortedTexts(signers) && Positions(vs, signers, indexes)
      ensures ok <==> forall i: nat :: i < |vs| && vs[i].id in signers ==> signed[i] != UINT64_MAX
      ensures ok ==> counted == Bumped(vs, signed, signers)
    {
      ok, counted := true, signed;
      for k := 0 to |indexes|
        invariant |counted| == |vs|
        invariant forall i: nat :: i < |vs| ==> counted[i] == Bump(vs[i], signed[i], signers[..k])
        invariant forall i: nat :: i < |vs| && vs[i].id in signers[..k] ==> signed[i] != UINT64_MAX
      {
        var j := indexes[k];
        assert signers[..k + 1] == signers[..k] + [vs[j].id];
        NotYetListed(signers, k);
        if counted[j] == UINT64_MAX {
          assert vs[j].id in signers;
          return false, counted;
        }
        counted := counted[j := counted[j] + 1];
        forall i: nat | i < |vs| && i != j ensures vs[i].id != vs[j].id {
          LessIrreflexive(vs[j].id);
        }
      }
      assert signers[..|signers|] == signers;
      assert counted == Bumped(vs, signed, signers);
    }

    lemma {:induction false} NotYetListed(signers: seq<string>, k: nat)
      requires SortedTexts(signers) && k < |signers|
      ensures signers[k] !in signers[..k]
    {
      forall i: nat | i < k ensures signers[i] != signers[k] {
        LessIrreflexive(signers[k]);
      }
    }

    /** Checks the parent commit and counts its signers, on copies. */
    method CountParent(height: nat, parent: Option<ParentCommit>) returns (ok: bool, signed: seq<nat>, observed: nat)
      requires Valid()
      requires (parent.Some? <==> height != 1) && (parent.Some? ==> parent.value.height + 1 == height)
      ensures ok <==> ParentOk(counters, height, parent) && RoomFor(counters, height, parent)
      ensures ok ==> signed == SignedAfter(counters, height, parent) && observed == ObservedAfter(counters, height, parent)
    {
      var c := counters;
      ok, signed, observed := true, c.signed, c.observed;
      if parent.None? {
        return;
      }
      if FirstOfEpoch(c, height) {
        if c.previous.None? {
          return false, signed, observed;
        }
        var checked := CheckCommit(parent.value, c.previous.value.root, c.previous.value.validators);
        return checked.Some?, signed, observed;
      }
      var checked := CheckCommit(parent.value, c.root, c.validators);
      if checked.None? || observed >= c.epochLength - 1 {
        return false, signed, observed;
      }
      ok, signed := CountSigners(c.validators, signed, parent.value.signers, checked.value);
      observed := observed + 1;
    }

    /** One height: everything is checked before anything changes. */
    method Advance(height: nat, parent: Option<ParentCommit>, next: Option<NextSet>) returns (r: Option<Transition>)
      requires Valid()
      modifies this
      ensures Valid()
      ensures r.Some? <==> Accepts(old(counters), height, parent, next)
      ensures counters == if r.Some? then After(old(counters), height, parent, next) else old(counters)
      ensures r.Some? ==> r.value == TransitionOf(old(counters), height, parent)
    {
      var c := counters;
      var boundary := IsBoundary(c, height);
      if height != c.nextHeight || height == UINT64_MAX || (height == 1) == parent.Some?
        || (next.Some? && !boundary) || (parent.Some? && parent.value.height + 1 != height)
      {
        return None;
      }
      var ok, signed, observed := CountParent(height, parent);
      if !ok || (boundary && observed != c.epochLength - 1) || (next.Some? && !ValidSet(next.value.validators)) {
        return None;
      }
      counters := After(c, height, parent, next);
      r := Some(Transition(boundary, if boundary then Assessments(c.validators, signed, observed) else []));
    }
  }
}
