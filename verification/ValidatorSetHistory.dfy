/** Validator sets by height, stored only where they change. The stored form answers like a
    table with one entry per height, and is the only valid form of that table. A validator set
    is known by its serialized text; which texts are valid sets is a parameter. */
module ValidatorSetHistory {
  import opened Wrappers
  import opened Quorum
  import opened Arithmetic

  datatype Change = Change(height: nat, validators: string)

  /** `first` is zero while nothing is recorded; `changes` is ordered by height. */
  datatype History = History(first: nat, highest: nat, changes: seq<Change>)

  const EMPTY := History(0, 0, [])

  predicate HasSet(h: History, height: nat) {
    h.first != 0 && h.first <= height <= h.highest
  }

  /** The last of the first `n` changes that is not after a height. */
  function LastBefore(changes: seq<Change>, height: nat, n: nat): (i: nat)
    requires 0 < n <= |changes| && changes[0].height <= height
    ensures i < n && changes[i].height <= height
    ensures i + 1 < n ==> height < changes[i + 1].height
  {
    if changes[n - 1].height <= height then n - 1 else LastBefore(changes, height, n - 1)
  }

  /** The last of all changes that is not after a height. */
  function LastAt(changes: seq<Change>, height: nat): nat
    requires changes != [] && changes[0].height <= height
  {
    LastBefore(changes, height, |changes|)
  }

  predicate Ordered(changes: seq<Change>) {
    forall i: nat, j: nat :: i < j < |changes| ==> changes[i].height < changes[j].height
  }

  predicate IsSet(valid: string -> bool, s: string) {
    valid(s)
  }

  /** Neighbours differ, and every stored set is valid. */
  predicate Compressed(valid: string -> bool, changes: seq<Change>) {
    && (forall i: nat :: i < |changes| ==> IsSet(valid, changes[i].validators))
    && (forall i: nat :: 0 < i < |changes| ==> changes[i - 1].validators != changes[i].validators)
  }

  predicate Valid(valid: string -> bool, h: History) {
    && Ordered(h.changes)
    && if h.first == 0 then h.highest == 0 && h.changes == []
       else
         && h.changes != [] && h.changes[0].height == h.first <= h.highest <= UINT64_MAX
         && h.changes[|h.changes| - 1].height <= h.highest
         && Compressed(valid, h.changes)
  }

  function SetAt(h: History, height: nat): Option<string> {
    if HasSet(h, height) && h.changes != [] && h.changes[0].height <= height
    then Some(h.changes[LastAt(h.changes, height)].validators)
    else None
  }

  // --- Recording ------------------------------------------------------------------------------------

  /** The new history, or nothing when the set is refused. */
  function Recorded(valid: string -> bool, h: History, height: nat, s: string): Option<History> {
    if height == 0 || !IsSet(valid, s) then None
    else if HasSet(h, height) then if SetAt(h, height) == Some(s) then Some(h) else None
    else if h.first != 0 && (h.highest == UINT64_MAX || height != h.highest + 1) then None
    else if h.first == 0 then Some(History(height, height, [Change(height, s)]))
    else if h.changes == [] || h.changes[|h.changes| - 1].validators != s then
      Some(History(h.first, height, h.changes + [Change(height, s)]))
    else Some(h.(highest := height))
  }

  lemma {:induction false} OrderedUpTo(changes: seq<Change>, i: nat, j: nat)
    requires Ordered(changes) && i <= j < |changes|
    ensures changes[i].height <= changes[j].height
  {
  }

  lemma {:induction false} LastAtUnique(changes: seq<Change>, height: nat, i: nat)
    requires Ordered(changes) && i < |changes| && changes[i].height <= height
    requires i + 1 < |changes| ==> height < changes[i + 1].height
    ensures changes[0].height <= height && LastAt(changes, height) == i
  {
    OrderedUpTo(changes, 0, i);
    var j := LastAt(changes, height);
    if i < j {
      OrderedUpTo(changes, i + 1, j);
    } else if j < i {
      OrderedUpTo(changes, j + 1, i);
    }
  }

  lemma {:induction false} LastAtMono(changes: seq<Change>, a: nat, b: nat)
    requires Ordered(changes) && changes != [] && changes[0].height <= a <= b
    ensures LastAt(changes, a) <= LastAt(changes, b)
  {
    var i, j := LastAt(changes, a), LastAt(changes, b);
    if j < i {
      OrderedUpTo(changes, j + 1, i);
    }
  }

  /** The new table is the old one with one height set. */
  ghost predicate OnlySets(h: History, g: History, height: nat, s: string) {
    forall k: nat :: SetAt(g, k) == if k == height then Some(s) else SetAt(h, k)
  }

  /** A set is accepted when it repeats a known height, starts the history or follows it. */
  predicate Acceptable(valid: string -> bool, h: History, height: nat, s: string) {
    && height > 0 && IsSet(valid, s)
    && match SetAt(h, height)
       case Some(known) => known == s
       case None => h.first == 0 || height == h.highest + 1
  }

  predicate Extends(h: History, height: nat, s: string, g: History)
    requires h.changes != []
  {
    g == if h.changes[|h.changes| - 1].validators != s
      then History(h.first, height, h.changes + [Change(height, s)]) else h.(highest := height)
  }

  lemma {:induction false} ExtendedValid(valid: string -> bool, h: History, height: nat, s: string, g: History)
    requires Valid(valid, h) && h.first != 0 && height == h.highest + 1 <= UINT64_MAX && IsSet(valid, s)
    requires Extends(h, height, s, g)
    ensures Valid(valid, g)
  {
    forall i: nat, j: nat | i < j < |g.changes| ensures g.changes[i].height < g.changes[j].height {
      OrderedUpTo(h.changes, i, |h.changes| - 1);
    }
  }

  /** The new height gets the set; every older height keeps its own. */
  lemma {:induction false} ExtendedSets(valid: string -> bool, h: History, height: nat, s: string, g: History)
    requires Valid(valid, h) && h.first != 0 && height == h.highest + 1
    requires Extends(h, height, s, g) && Valid(valid, g)
    ensures OnlySets(h, g, height, s)
  {
    LastAtUnique(g.changes, height, |g.changes| - 1);
    forall k: nat | k != height ensures SetAt(g, k) == SetAt(h, k) {
      if HasSet(h, k) {
        LastAtUnique(g.changes, k, LastAt(h.changes, k));
      }
    }
  }

  /** Recording is recording in a table with one entry per height: exactly the acceptable
      entries are taken, and nothing else changes. */
  lemma {:induction false} RecordRefines(valid: string -> bool, h: History, height: nat, s: string)
    requires Valid(valid, h) && height <= UINT64_MAX
    ensures Recorded(valid, h, height, s).Some? <==> Acceptable(valid, h, height, s)
    ensures Recorded(valid, h, height, s).Some? ==>
      Valid(valid, Recorded(valid, h, height, s).value) && OnlySets(h, Recorded(valid, h, height, s).value, height, s)
  {
    var r := Recorded(valid, h, height, s);
    if r.Some? && !HasSet(h, height) && h.first != 0 {
      ExtendedValid(valid, h, height, s, r.value);
      ExtendedSets(valid, h, height, s, r.value);
    }
  }

  // --- Runs -----------------------------------------------------------------------------------------

  datatype Entry = Entry(height: nat, validators: string)

  /** The history after one entry; a refused entry changes nothing. */
  function After(valid: string -> bool, h: History, e: Entry): History {
    if e.height <= UINT64_MAX && Recorded(valid, h, e.height, e.validators).Some?
    then Recorded(valid, h, e.height, e.validators).value
    else h
  }

  predicate Takes(valid: string -> bool, h: History, e: Entry) {
    e.height <= UINT64_MAX && Acceptable(valid, h, e.height, e.validators)
  }

  /** The history after any entries, from nothing. */
  function Run(valid: string -> bool, entries: seq<Entry>): History {
    if entries == [] then EMPTY
    else After(valid, Run(valid, entries[..|entries| - 1]), entries[|entries| - 1])
  }

  lemma {:induction false} StepTakes(valid: string -> bool, h: History, e: Entry, g: History)
    requires Valid(valid, h) && g == After(valid, h, e)
    ensures Valid(valid, g)
    ensures if Takes(valid, h, e) then OnlySets(h, g, e.height, e.validators) else g == h
  {
    if e.height <= UINT64_MAX {
      RecordRefines(valid, h, e.height, e.validators);
    }
  }

  lemma {:induction false} RunsAreValid(valid: string -> bool, entries: seq<Entry>)
    ensures Valid(valid, Run(valid, entries))
  {
    if entries != [] {
      var h := Run(valid, entries[..|entries| - 1]);
      RunsAreValid(valid, entries[..|entries| - 1]);
      StepTakes(valid, h, entries[|entries| - 1], Run(valid, entries));
    }
  }

  /** In every run, a height answers with the set it was accepted with, ever after. */
  lemma {:induction false} AcceptedIsRemembered(valid: string -> bool, before: seq<Entry>, e: Entry, more: seq<Entry>)
    requires Takes(valid, Run(valid, before), e)
    ensures SetAt(Run(valid, before + [e] + more), e.height) == Some(e.validators)
    decreases |more|
  {
    var entries := before + [e] + more;
    var front, last := entries[..|entries| - 1], entries[|entries| - 1];
    RunsAreValid(valid, front);
    StepTakes(valid, Run(valid, front), last, Run(valid, entries));
    if more == [] {
      assert front == before;
    } else {
      assert front == before + [e] + more[..|more| - 1];
      AcceptedIsRemembered(valid, before, e, more[..|more| - 1]);
    }
  }

  // --- The table ------------------------------------------------------------------------------------

  /** The plain form: one entry per height. An entry must agree with a known height, start an
      empty table, or follow a known height. */
  predicate TableTakes(valid: string -> bool, t: map<nat, string>, e: Entry) {
    && 0 < e.height <= UINT64_MAX && IsSet(valid, e.validators)
    && if e.height in t then t[e.height] == e.validators else t == map[] || (e.height - 1) in t
  }

  function TableAfter(valid: string -> bool, t: map<nat, string>, e: Entry): map<nat, string> {
    if TableTakes(valid, t, e) then t[e.height := e.validators] else t
  }

  function Table(valid: string -> bool, entries: seq<Entry>): map<nat, string> {
    if entries == [] then map[]
    else TableAfter(valid, Table(valid, entries[..|entries| - 1]), entries[|entries| - 1])
  }

  function Lookup(t: map<nat, string>, height: nat): Option<string> {
    if height in t then Some(t[height]) else None
  }

  ghost predicate Represents(h: History, t: map<nat, string>) {
    forall k: nat :: SetAt(h, k) == Lookup(t, k)
  }

  lemma NothingRecorded(t: map<nat, string>)
    requires forall k: nat :: Lookup(t, k) == None
    ensures t == map[]
  {
    assert forall k: nat :: k !in t by {
      forall k: nat ensures k !in t {
        assert Lookup(t, k) == None;
      }
    }
  }

  lemma {:induction false} TakesAgree(valid: string -> bool, h: History, t: map<nat, string>, e: Entry)
    requires Valid(valid, h) && Represents(h, t)
    ensures Takes(valid, h, e) <==> TableTakes(valid, t, e)
  {
    assert SetAt(h, e.height) == Lookup(t, e.height);
    if h.first == 0 {
      NothingRecorded(t);
    } else if e.height > 0 {
      assert SetAt(h, e.height - 1) == Lookup(t, e.height - 1) && SetAt(h, h.first) == Lookup(t, h.first);
    }
  }

  lemma {:induction false} TableStep(valid: string -> bool, h: History, t: map<nat, string>, e: Entry, g: History)
    requires Valid(valid, h) && Represents(h, t) && g == After(valid, h, e)
    ensures Represents(g, TableAfter(valid, t, e))
  {
    TakesAgree(valid, h, t, e);
    StepTakes(valid, h, e, g);
  }

  /** In every run the stored changes answer at every height as the table does. */
  lemma {:induction false} RunsAnswerLikeTable(valid: string -> bool, entries: seq<Entry>)
    ensures Represents(Run(valid, entries), Table(valid, entries))
  {
    if entries != [] {
      var front := entries[..|entries| - 1];
      RunsAnswerLikeTable(valid, front);
      RunsAreValid(valid, front);
      TableStep(valid, Run(valid, front), Table(valid, front), entries[|entries| - 1], Run(valid, entries));
    }
  }

  // --- The stored form ------------------------------------------------------------------------------

  lemma {:induction false} NotStoredBetween(changes: seq<Change>, height: nat, i: nat)
    requires Ordered(changes) && i < |changes| && changes[i].height < height
    requires i + 1 < |changes| ==> height < changes[i + 1].height
    ensures forall j: nat :: j < |changes| ==> changes[j].height != height
  {
    forall j: nat | j < |changes| ensures changes[j].height != height {
      if j <= i {
        OrderedUpTo(changes, j, i);
      } else {
        OrderedUpTo(changes, i + 1, j);
      }
    }
  }

  /** A set differs from the one before it exactly at the stored heights after the first. */
  lemma {:induction false} ChangesAreStored(valid: string -> bool, h: History, height: nat)
    requires Valid(valid, h) && HasSet(h, height) && h.first < height
    ensures Differs(h, height) <==> StoredAt(h, height)
  {
    var i := LastAt(h.changes, height);
    if h.changes[i].height == height {
      assert i > 0;
      LastAtUnique(h.changes, height - 1, i - 1);
    } else {
      LastAtUnique(h.changes, height - 1, i);
      NotStoredBetween(h.changes, height, i);
    }
  }

  ghost predicate Differs(h: History, height: nat)
    requires height > 0
  {
    SetAt(h, height) != SetAt(h, height - 1)
  }

  ghost predicate StoredAt(h: History, height: nat) {
    exists i: nat :: 0 < i < |h.changes| && h.changes[i].height == height
  }

  predicate ChangesOnlyAtBoundaries(valid: string -> bool, h: History, epochLength: nat) {
    && epochLength > 0 && Valid(valid, h)
    && forall i: nat :: 0 < i < |h.changes| ==> AtBoundary(h.changes[i].height, epochLength)
  }

  predicate AtBoundary(height: nat, epochLength: nat)
    requires epochLength > 0
  {
    height > 0 && (height - 1) % epochLength == 0
  }

  /** The check over the stored changes is the check over all heights. */
  lemma {:induction false} BoundariesPointwise(valid: string -> bool, h: History, epochLength: nat)
    requires epochLength > 0 && Valid(valid, h)
    ensures ChangesOnlyAtBoundaries(valid, h, epochLength) <==> DiffersOnlyAtBoundaries(h, epochLength)
  {
    if ChangesOnlyAtBoundaries(valid, h, epochLength) {
      forall height: nat | h.first < height && HasSet(h, height) && Differs(h, height) ensures AtBoundary(height, epochLength) {
        ChangesAreStored(valid, h, height);
      }
    }
    if DiffersOnlyAtBoundaries(h, epochLength) {
      forall i: nat | 0 < i < |h.changes| ensures AtBoundary(h.changes[i].height, epochLength) {
        OrderedUpTo(h.changes, 1, i);
        OrderedUpTo(h.changes, i, |h.changes| - 1);
        ChangesAreStored(valid, h, h.changes[i].height);
      }
    }
  }

  ghost predicate DiffersOnlyAtBoundaries(h: History, epochLength: nat)
    requires epochLength > 0
  {
    forall height: nat :: h.first < height && HasSet(h, height) && Differs(h, height) ==> AtBoundary(height, epochLength)
  }

  /** An epoch starts after every `epochLength` heights: a boundary is the first height of one. */
  lemma {:induction false} BoundaryIff(height: nat, epochLength: nat)
    requires epochLength > 0
    ensures AtBoundary(height, epochLength) <==> exists e: nat :: FirstOfEpoch(height, e, epochLength)
  {
    if AtBoundary(height, epochLength) {
      Division(height - 1, epochLength);
      assert FirstOfEpoch(height, (height - 1) / epochLength, epochLength);
    }
    if e: nat :| FirstOfEpoch(height, e, epochLength) {
      ModUnique(height - 1, epochLength, e, 0);
    }
  }

  predicate FirstOfEpoch(height: nat, e: nat, epochLength: nat) {
    height == epochLength * e + 1
  }

  /** Both heights are among the `epochLength` heights of epoch `e`. */
  predicate InEpoch(a: nat, b: nat, e: nat, epochLength: nat) {
    epochLength * e < a <= b <= epochLength * e + epochLength
  }

  /** All recorded heights of an epoch have one set. */
  ghost predicate EpochsShareSets(h: History, epochLength: nat) {
    forall a: nat, b: nat, e: nat :: InEpoch(a, b, e, epochLength) && HasSet(h, a) && HasSet(h, b) ==>
      SetAt(h, a) == SetAt(h, b)
  }

  lemma {:induction false} InsideIsNoBoundary(a: nat, b: nat, e: nat, epochLength: nat)
    requires epochLength > 0 && InEpoch(a, b, e, epochLength) && a < b
    ensures !AtBoundary(b, epochLength)
  {
    ModUnique(b - 1, epochLength, e, b - 1 - epochLength * e);
  }

  lemma {:induction false} SharedInside(h: History, a: nat, b: nat, epochLength: nat)
    requires epochLength > 0 && DiffersOnlyAtBoundaries(h, epochLength)
    requires a <= b && HasSet(h, a) && HasSet(h, b) && forall c: nat :: a < c <= b ==> !AtBoundary(c, epochLength)
    ensures SetAt(h, a) == SetAt(h, b)
    decreases b
  {
    if a < b {
      assert !Differs(h, b);
      SharedInside(h, a, b - 1, epochLength);
    }
  }

  /** The boundary check says exactly that a set never changes inside an epoch. */
  lemma {:induction false} BoundariesIffEpochsShare(valid: string -> bool, h: History, epochLength: nat)
    requires epochLength > 0 && Valid(valid, h)
    ensures ChangesOnlyAtBoundaries(valid, h, epochLength) <==> EpochsShareSets(h, epochLength)
  {
    BoundariesPointwise(valid, h, epochLength);
    if DiffersOnlyAtBoundaries(h, epochLength) {
      forall a: nat, b: nat, e: nat | InEpoch(a, b, e, epochLength) && HasSet(h, a) && HasSet(h, b)
        ensures SetAt(h, a) == SetAt(h, b)
      {
        forall c: nat | a < c <= b ensures !AtBoundary(c, epochLength) {
          InsideIsNoBoundary(a, c, e, epochLength);
        }
        SharedInside(h, a, b, epochLength);
      }
    }
    if EpochsShareSets(h, epochLength) {
      forall height: nat | h.first < height && HasSet(h, height) && Differs(h, height)
        ensures AtBoundary(height, epochLength)
      {
        DiffersAtStart(h, height, epochLength);
      }
    }
  }

  lemma {:induction false} DiffersAtStart(h: History, height: nat, epochLength: nat)
    requires epochLength > 0 && EpochsShareSets(h, epochLength)
    requires h.first < height && HasSet(h, height) && Differs(h, height)
    ensures AtBoundary(height, epochLength)
  {
    Division(height - 1, epochLength);
    var e := (height - 1) / epochLength;
    var before: nat := height - 1;
    assert SetAt(h, before) != SetAt(h, height) && !InEpoch(before, height, e, epochLength);
    assert FirstOfEpoch(height, e, epochLength);
    BoundaryIff(height, epochLength);
  }

  // --- Uniqueness -----------------------------------------------------------------------------------

  ghost predicate SameTable(h: History, k: History) {
    forall height: nat :: SetAt(h, height) == SetAt(k, height)
  }

  lemma {:induction false} SameRange(valid: string -> bool, h: History, k: History)
    requires Valid(valid, h) && Valid(valid, k) && SameTable(h, k)
    ensures h.first == k.first && h.highest == k.highest
  {
    assert SetAt(h, h.first) == SetAt(k, h.first) && SetAt(h, k.first) == SetAt(k, k.first);
    assert SetAt(h, h.highest) == SetAt(k, h.highest) && SetAt(h, k.highest) == SetAt(k, k.highest);
  }

  /** Every change stored in one history is stored in another with the same table. */
  lemma {:induction false} StoredInBoth(valid: string -> bool, h: History, k: History, i: nat)
    requires Valid(valid, h) && Valid(valid, k) && SameTable(h, k) && 0 < i < |h.changes|
    ensures h.changes[i] in k.changes
  {
    var height := h.changes[i].height;
    SameRange(valid, h, k);
    OrderedUpTo(h.changes, 1, i);
    OrderedUpTo(h.changes, i, |h.changes| - 1);
    ChangesAreStored(valid, h, height);
    assert SetAt(h, height) == SetAt(k, height) && SetAt(h, height - 1) == SetAt(k, height - 1);
    ChangesAreStored(valid, k, height);
    var j: nat :| 0 < j < |k.changes| && k.changes[j].height == height;
    StoredSet(valid, h, i);
    StoredSet(valid, k, j);
  }

  lemma {:induction false} StoredSet(valid: string -> bool, h: History, i: nat)
    requires Valid(valid, h) && i < |h.changes|
    ensures SetAt(h, h.changes[i].height) == Some(h.changes[i].validators)
  {
    OrderedUpTo(h.changes, 0, i);
    OrderedUpTo(h.changes, i, |h.changes| - 1);
    LastAtUnique(h.changes, h.changes[i].height, i);
  }

  ghost predicate Within(a: seq<Change>, b: seq<Change>) {
    forall i: nat :: i < |a| ==> a[i] in b
  }

  /** The members of one ordered list, found in another, lie no earlier there. */
  lemma {:induction false} RankAtLeast(a: seq<Change>, b: seq<Change>, i: nat) returns (x: nat)
    requires Ordered(a) && Ordered(b) && Within(b, a) && i < |b|
    ensures i <= x < |a| && a[x] == b[i]
  {
    assert b[i] in a;
    x :| x < |a| && a[x] == b[i];
    if i > 0 {
      var y := RankAtLeast(a, b, i - 1);
      if x <= y {
        OrderedUpTo(a, x, y);
      }
    }
  }

  lemma {:induction false} WithinShorter(a: seq<Change>, b: seq<Change>)
    requires Ordered(a) && Ordered(b) && Within(b, a)
    ensures |b| <= |a|
  {
    if |b| > 0 {
      var x := RankAtLeast(a, b, |b| - 1);
    }
  }

  /** Two ordered lists with the same members are one list. */
  lemma {:induction false} OrderedUnique(a: seq<Change>, b: seq<Change>)
    requires Ordered(a) && Ordered(b) && Within(a, b) && Within(b, a)
    ensures a == b
  {
    WithinShorter(a, b);
    WithinShorter(b, a);
    forall i: nat | i < |a| ensures a[i] == b[i] {
      var x := RankAtLeast(a, b, i);
      var y := RankAtLeast(b, a, i);
      OrderedUpTo(a, i, x);
      OrderedUpTo(b, i, y);
    }
  }

  /** The stored form is unique: valid histories that answer alike are equal. */
  lemma {:induction false} StoredFormUnique(valid: string -> bool, h: History, k: History)
    requires Valid(valid, h) && Valid(valid, k) && SameTable(h, k)
    ensures h == k
  {
    SameRange(valid, h, k);
    if h.first != 0 {
      StoredSet(valid, h, 0);
      StoredSet(valid, k, 0);
      assert h.changes[0] == k.changes[0];
      forall i: nat | i < |h.changes| ensures h.changes[i] in k.changes {
        if i > 0 {
          StoredInBoth(valid, h, k, i);
        }
      }
      forall i: nat | i < |k.changes| ensures k.changes[i] in h.changes {
        if i > 0 {
          StoredInBoth(valid, k, h, i);
        }
      }
      OrderedUnique(h.changes, k.changes);
    }
  }

  // --- Windows and restoring ------------------------------------------------------------------------

  function WindowFrom(h: History, from: nat): Option<History> {
    if !HasSet(h, from) || h.changes == [] || h.changes[0].height > from then None
    else
      var i := LastAt(h.changes, from);
      Some(History(from, h.highest, [Change(from, h.changes[i].validators)] + h.changes[i + 1..]))
  }

  /** A window answers like the full history from its first height on, and not before. */
  lemma {:induction false} WindowAgrees(valid: string -> bool, h: History, from: nat, w: History)
    requires Valid(valid, h) && WindowFrom(h, from) == Some(w)
    ensures Valid(valid, w)
    ensures forall k: nat :: SetAt(w, k) == if from <= k then SetAt(h, k) else None
  {
    var i := LastAt(h.changes, from);
    WindowValid(valid, h, from, w, i);
    forall k: nat | from <= k <= h.highest ensures SetAt(w, k) == SetAt(h, k) {
      OrderedUpTo(h.changes, 0, i);
      LastAtMono(h.changes, from, k);
      LastAtUnique(w.changes, k, LastAt(h.changes, k) - i);
    }
  }

  lemma {:induction false} WindowValid(valid: string -> bool, h: History, from: nat, w: History, i: nat)
    requires Valid(valid, h) && WindowFrom(h, from) == Some(w) && i == LastAt(h.changes, from)
    ensures Valid(valid, w) && |w.changes| == |h.changes| - i
    ensures forall k: nat :: 0 < k < |w.changes| ==> w.changes[k] == h.changes[i + k]
  {
    assert forall k: nat :: 0 < k < |w.changes| ==> w.changes[k] == h.changes[i + k];
    WindowOrdered(h.changes, w.changes, i, from);
    WindowCompressed(valid, h.changes, w.changes, i);
  }

  lemma {:induction false} WindowOrdered(changes: seq<Change>, cut: seq<Change>, i: nat, from: nat)
    requires Ordered(changes) && i < |changes| && |cut| == |changes| - i && cut[0].height == from
    requires i + 1 < |changes| ==> from < changes[i + 1].height
    requires forall k: nat :: 0 < k < |cut| ==> cut[k] == changes[i + k]
    ensures Ordered(cut)
  {
    forall a: nat, b: nat | a < b < |cut| ensures cut[a].height < cut[b].height {
      OrderedUpTo(changes, i + 1, i + b);
    }
  }

  lemma {:induction false} WindowCompressed(valid: string -> bool, changes: seq<Change>, cut: seq<Change>, i: nat)
    requires Compressed(valid, changes) && i < |changes| && |cut| == |changes| - i && cut[0].validators == changes[i].validators
    requires forall k: nat :: 0 < k < |cut| ==> cut[k] == changes[i + k]
    ensures Compressed(valid, cut)
  {
    forall a: nat | a < |cut| ensures IsSet(valid, cut[a].validators) && cut[a].validators == changes[i + a].validators {
      assert IsSet(valid, changes[i + a].validators);
    }
    forall a: nat | 0 < a < |cut| ensures cut[a - 1].validators != cut[a].validators {
      assert changes[i + a - 1].validators != changes[i + a].validators;
    }
  }

  function Restore(valid: string -> bool, first: nat, highest: nat, changes: seq<Change>): Option<History> {
    var h := History(first, highest, changes);
    if first == 0 || !Valid(valid, h) then None else Some(h)
  }

  ghost predicate RestoresTo(valid: string -> bool, stored: History, h: History) {
    && Restore(valid, stored.first, stored.highest, stored.changes).Some?
    && SameTable(Restore(valid, stored.first, stored.highest, stored.changes).value, h)
  }

  /** Whatever was recorded, the stored fields restore to a history with the same answers at
      every height, and no other stored fields do. An empty history is not restored. */
  lemma {:induction false} RestoreRoundTrip(valid: string -> bool, entries: seq<Entry>, stored: History)
    requires Table(valid, entries) != map[]
    ensures RestoresTo(valid, stored, Run(valid, entries)) <==> stored == Run(valid, entries)
  {
    var h := Run(valid, entries);
    RunsAreValid(valid, entries);
    NotEmpty(valid, entries);
    if RestoresTo(valid, stored, h) {
      StoredFormUnique(valid, stored, h);
    }
  }

  lemma {:induction false} NotEmpty(valid: string -> bool, entries: seq<Entry>)
    requires Table(valid, entries) != map[]
    ensures Run(valid, entries).first != 0
  {
    RunsAnswerLikeTable(valid, entries);
    var k :| k in Table(valid, entries);
    assert SetAt(Run(valid, entries), k) == Lookup(Table(valid, entries), k);
  }

  ghost predicate AnswersFrom(w: History, h: History, from: nat) {
    forall k: nat :: SetAt(w, k) == if from <= k then SetAt(h, k) else None
  }

  /** The same for a window cut from any run: its stored fields, and no others, restore to a
      history that answers like the full one from `from` on and not before. */
  lemma {:induction false} WindowRoundTrip(valid: string -> bool, entries: seq<Entry>, from: nat, w: History, stored: History)
    requires WindowFrom(Run(valid, entries), from) == Some(w)
    ensures
      && Restore(valid, stored.first, stored.highest, stored.changes).Some?
      && AnswersFrom(Restore(valid, stored.first, stored.highest, stored.changes).value, Run(valid, entries), from)
      <==> stored == w
  {
    RunsAreValid(valid, entries);
    WindowAgrees(valid, Run(valid, entries), from, w);
    if Restore(valid, stored.first, stored.highest, stored.changes).Some? && AnswersFrom(stored, Run(valid, entries), from) {
      StoredFormUnique(valid, stored, w);
    }
  }

  // --- The object -------------------------------------------------------------------------------------

  class SetHistory {
    const valid: string -> bool
    var first: nat
    var highest: nat
    var changes: seq<Change>

    function Value(): History
      reads this
    {
      History(first, highest, changes)
    }

    ghost predicate Good()
      reads this
    {
      Valid(valid, Value())
    }

    constructor (valid: string -> bool)
      ensures Good() && Value() == EMPTY && this.valid == valid
    {
      this.valid := valid;
      first, highest, changes := 0, 0, [];
    }

    /** Stores the set only where it changes. */
    method RecordSet(height: nat, s: string) returns (ok: bool)
      requires Good() && height <= UINT64_MAX
      modifies this
      ensures Good()
      ensures ok <==> Recorded(valid, old(Value()), height, s).Some?
      ensures Value() == if ok then Recorded(valid, old(Value()), height, s).value else old(Value())
    {
      RecordRefines(valid, Value(), height, s);
      if height == 0 || !IsSet(valid, s) {
        return false;
      }
      if HasSet(Value(), height) {
        var known := SetAtHeight(height);
        return known == Some(s);
      }
      if first != 0 && (highest == UINT64_MAX || height != highest + 1) {
        return false;
      }
      if first == 0 {
        first := height;
        changes := changes + [Change(height, s)];
      } else if changes[|changes| - 1].validators != s {
        changes := changes + [Change(height, s)];
      }
      highest := height;
      ok := true;
    }

    /** Binary search for the last change not after the height. */
    method SetAtHeight(height: nat) returns (r: Option<string>)
      requires Good()
      ensures r == SetAt(Value(), height)
    {
      if !HasSet(Value(), height) {
        return None;
      }
      var lo, hi := 0, |changes|;
      while lo + 1 < hi
        invariant lo < hi <= |changes| && changes[lo].height <= height
        invariant hi < |changes| ==> height < changes[hi].height
      {
        var mid := (lo + hi) / 2;
        if changes[mid].height <= height {
          lo := mid;
        } else {
          hi := mid;
        }
      }
      LastAtUnique(changes, height, lo);
      r := Some(changes[lo].validators);
    }

    method CheckBoundaries(epochLength: nat) returns (ok: bool)
      requires Good()
      ensures ok <==> ChangesOnlyAtBoundaries(valid, Value(), epochLength)
    {
      if epochLength == 0 {
        return false;
      }
      if changes == [] {
        return true;
      }
      for i := 1 to |changes|
        invariant forall j: nat :: 0 < j < i ==> AtBoundary(changes[j].height, epochLength)
      {
        if !AtBoundary(changes[i].height, epochLength) {
          return false;
        }
      }
      ok := true;
    }
  }
}
