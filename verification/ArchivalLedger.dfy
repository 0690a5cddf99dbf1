/** The challenge ledger: every issued challenge ends in one outcome that never changes again,
    fraud and only fraud has evidence, and closed epochs are never wrong later. */
module ArchivalLedger {
  import opened Wrappers

  datatype Outcome = PENDING | PASSED | FRAUD | MISSED

  datatype Challenge = Challenge(provider: string, segment: nat, issueHeight: nat, deadline: nat, wellFormed: bool)

  datatype Entry = Entry(challenge: Challenge, outcome: Outcome, proofId: string)

  type Entries = map<string, Entry>

  datatype Fault = Fault(challengeId: string, proofId: string, height: nat)

  datatype Closed = Closed(first: nat, last: nat, totals: Totals)

  /** How the challenges of an epoch ended. */
  datatype Totals = Totals(challenges: nat, passed: nat, fraud: nat, missed: nat)

  /** `answered` is the replay guard: the recorded proof of each answered challenge. */
  datatype Ledger = Ledger(
    entries: Entries, answered: map<string, string>, faults: seq<Fault>, closed: map<nat, Closed>)

  const EMPTY := Ledger(map[], map[], [], map[])

  // --- Counting -------------------------------------------------------------------------------------

  predicate InRange(e: Entry, first: nat, last: nat) {
    first <= e.challenge.issueHeight <= last
  }

  function IdsIn(entries: Entries, first: nat, last: nat): set<string> {
    set id | id in entries && InRange(entries[id], first, last)
  }

  function With(entries: Entries, ids: set<string>, outcome: Outcome): set<string> {
    set id | id in ids && id in entries && entries[id].outcome == outcome
  }

  function TotalsOf(entries: Entries, ids: set<string>): Totals {
    Totals(|ids|, |With(entries, ids, PASSED)|, |With(entries, ids, FRAUD)|, |With(entries, ids, MISSED)|)
  }

  /** Issued challenges are the pending, passed, fraudulent and missed ones together. */
  lemma {:induction false} CountsAddUp(entries: Entries, ids: set<string>)
    requires ids <= entries.Keys
    ensures |ids| == |With(entries, ids, PENDING)| + |With(entries, ids, PASSED)|
      + |With(entries, ids, FRAUD)| + |With(entries, ids, MISSED)|
  {
    var a, b := With(entries, ids, PENDING), With(entries, ids, PASSED);
    var c, d := With(entries, ids, FRAUD), With(entries, ids, MISSED);
    assert ids == a + b + c + d;
    assert |a + b| == |a| + |b| && |a + b + c| == |a + b| + |c| && |a + b + c + d| == |a + b + c| + |d|;
  }

  // --- Steps ----------------------------------------------------------------------------------------

  predicate HeightClosed(closed: map<nat, Closed>, height: nat) {
    exists epoch :: epoch in closed && closed[epoch].first <= height <= closed[epoch].last
  }

  predicate MayIssue(l: Ledger, id: string, c: Challenge) {
    c.wellFormed && id !in l.entries && !HeightClosed(l.closed, c.issueHeight)
  }

  /** How a proof is judged: refused before it counts as an answer, or an answer that holds or
      does not. */
  datatype Judgement = REFUSED | HOLDS | INVALID

  /** A proof is an answer when its challenge is open, its segment is known, it was not refused,
      and nothing was recorded for the challenge before. */
  predicate IsAnswer(l: Ledger, id: string, segmentKnown: bool, j: Judgement) {
    && id in l.entries && l.entries[id].outcome != MISSED
    && segmentKnown && j != REFUSED && id !in l.answered
  }

  function Submitted(l: Ledger, id: string, proofId: string, segmentKnown: bool, j: Judgement, height: nat): Ledger {
    if !IsAnswer(l, id, segmentKnown, j) then l
    else if j == HOLDS then
      l.(entries := l.entries[id := l.entries[id].(outcome := PASSED, proofId := proofId)],
         answered := l.answered[id := proofId])
    else if l.entries[id].outcome == PENDING then
      l.(entries := l.entries[id := l.entries[id].(outcome := FRAUD, proofId := proofId)],
         answered := l.answered[id := proofId],
         faults := l.faults + [Fault(id, proofId, height)])
    else l
  }

  predicate Expires(e: Entry, height: nat) {
    e.outcome == PENDING && e.challenge.deadline < height
  }

  function Expired(entries: Entries, height: nat): Entries {
    map id | id in entries :: if Expires(entries[id], height) then entries[id].(outcome := MISSED) else entries[id]
  }

  predicate Overlaps(c: Closed, first: nat, last: nat) {
    first <= c.last && c.first <= last
  }

  /** An epoch can be closed once: over a range of its own, with every challenge resolved. */
  predicate MayClose(l: Ledger, epoch: nat, first: nat, last: nat) {
    && 0 < first <= last && epoch !in l.closed
    && (forall e :: e in l.closed ==> !Overlaps(l.closed[e], first, last))
    && (forall id :: id in l.entries && InRange(l.entries[id], first, last) ==> l.entries[id].outcome != PENDING)
  }

  function ClosedEpoch(l: Ledger, epoch: nat, first: nat, last: nat): Ledger {
    l.(closed := l.closed[epoch := Closed(first, last, TotalsOf(l.entries, IdsIn(l.entries, first, last)))])
  }

  datatype Step =
    | Issue(id: string, challenge: Challenge)
    | Submit(id: string, proofId: string, segmentKnown: bool, judgement: Judgement, height: nat)
    | Expire(height: nat)
    | Close(epoch: nat, first: nat, last: nat)

  function Apply(l: Ledger, step: Step): Ledger {
    match step
    case Issue(id, c) => if MayIssue(l, id, c) then l.(entries := l.entries[id := Entry(c, PENDING, "")]) else l
    case Submit(id, proofId, known, j, height) => Submitted(l, id, proofId, known, j, height)
    case Expire(height) => l.(entries := Expired(l.entries, height))
    case Close(epoch, first, last) => if MayClose(l, epoch, first, last) then ClosedEpoch(l, epoch, first, last) else l
  }

  function Run(steps: seq<Step>): Ledger {
    if steps == [] then EMPTY else Apply(Run(steps[..|steps| - 1]), steps[|steps| - 1])
  }

  // --- The invariant --------------------------------------------------------------------------------

  /** Exactly the passed and the fraudulent challenges have a recorded proof. */
  ghost predicate GuardMatches(l: Ledger) {
    && (forall id :: id in l.answered ==>
          id in l.entries && l.entries[id].outcome in {PASSED, FRAUD} && l.entries[id].proofId == l.answered[id])
    && (forall id :: id in l.entries && l.entries[id].outcome in {PASSED, FRAUD} ==> id in l.answered)
  }

  /** Every fraud has one evidence, for the recorded proof; nothing else has any. */
  ghost predicate EvidenceMatches(l: Ledger) {
    && (forall i: nat :: i < |l.faults| ==>
          l.faults[i].challengeId in l.entries
          && l.entries[l.faults[i].challengeId].outcome == FRAUD
          && l.entries[l.faults[i].challengeId].proofId == l.faults[i].proofId)
    && (forall i: nat, j: nat :: i < j < |l.faults| ==> l.faults[i].challengeId != l.faults[j].challengeId)
    && (forall id :: id in l.entries && l.entries[id].outcome == FRAUD ==> HasEvidence(l.faults, id))
  }

  ghost predicate HasEvidence(faults: seq<Fault>, id: string) {
    exists i: nat :: i < |faults| && faults[i].challengeId == id
  }

  /** A closed epoch's challenges are all resolved, and its totals are their count. */
  ghost predicate ClosedRight(entries: Entries, c: Closed) {
    && (forall id :: id in entries && InRange(entries[id], c.first, c.last) ==> entries[id].outcome != PENDING)
    && c.totals == TotalsOf(entries, IdsIn(entries, c.first, c.last))
  }

  ghost predicate AllClosedRight(l: Ledger) {
    forall e :: e in l.closed ==> ClosedRight(l.entries, l.closed[e])
  }

  ghost predicate Inv(l: Ledger) {
    GuardMatches(l) && EvidenceMatches(l) && AllClosedRight(l)
  }

  /** Nothing happened to the entries of a closed epoch. */
  lemma {:induction false} ClosedStays(before: Entries, after: Entries, c: Closed)
    requires ClosedRight(before, c)
    requires forall id :: id in before && InRange(before[id], c.first, c.last) ==> id in after && after[id] == before[id]
    requires forall id :: id in after && InRange(after[id], c.first, c.last) ==> id in before && after[id] == before[id]
    ensures ClosedRight(after, c)
  {
    var ids := IdsIn(before, c.first, c.last);
    assert IdsIn(after, c.first, c.last) == ids;
    assert With(after, ids, PASSED) == With(before, ids, PASSED);
    assert With(after, ids, FRAUD) == With(before, ids, FRAUD);
    assert With(after, ids, MISSED) == With(before, ids, MISSED);
  }

  /** A change to one entry that is pending, or new outside every closed epoch. */
  lemma {:induction false} UpdateKeepsClosed(l: Ledger, id: string, e: Entry)
    requires AllClosedRight(l)
    requires id in l.entries ==> l.entries[id].outcome == PENDING && e.challenge == l.entries[id].challenge
    requires id !in l.entries ==> !HeightClosed(l.closed, e.challenge.issueHeight)
    ensures AllClosedRight(l.(entries := l.entries[id := e]))
  {
    forall epoch | epoch in l.closed ensures ClosedRight(l.entries[id := e], l.closed[epoch]) {
      ClosedStays(l.entries, l.entries[id := e], l.closed[epoch]);
    }
  }

  /** An answer always comes to a pending challenge: the guard keeps out all others. */
  lemma {:induction false} AnswersArePending(l: Ledger, id: string, segmentKnown: bool, j: Judgement)
    requires GuardMatches(l) && IsAnswer(l, id, segmentKnown, j)
    ensures l.entries[id].outcome == PENDING
  {
  }

  lemma {:induction false} SubmitKeeps(l: Ledger, id: string, proofId: string, known: bool, j: Judgement, height: nat)
    requires Inv(l)
    ensures Inv(Submitted(l, id, proofId, known, j, height))
  {
    if IsAnswer(l, id, known, j) {
      AnswersArePending(l, id, known, j);
      var m := Submitted(l, id, proofId, known, j, height);
      UpdateKeepsClosed(l, id, m.entries[id]);
      assert m.entries == l.entries[id := m.entries[id]];
      SubmitKeepsEvidence(l, m, id, proofId, known, j, height);
    }
  }

  lemma {:induction false} SubmitKeepsEvidence(
    l: Ledger, m: Ledger, id: string, proofId: string, known: bool, j: Judgement, height: nat)
    requires Inv(l) && IsAnswer(l, id, known, j) && m == Submitted(l, id, proofId, known, j, height)
    requires l.entries[id].outcome == PENDING
    ensures EvidenceMatches(m)
  {
    forall i: nat | i < |l.faults| ensures l.faults[i].challengeId != id && m.faults[i] == l.faults[i] {
    }
    forall x | x in m.entries && m.entries[x].outcome == FRAUD ensures HasEvidence(m.faults, x) {
      if x == id {
        assert m.faults[|l.faults|].challengeId == id;
      } else {
        assert HasEvidence(l.faults, x);
        var i: nat :| i < |l.faults| && l.faults[i].challengeId == x;
        assert m.faults[i].challengeId == x;
      }
    }
  }

  lemma {:induction false} ExpireKeeps(l: Ledger, height: nat)
    requires Inv(l)
    ensures Inv(l.(entries := Expired(l.entries, height)))
  {
    var after := Expired(l.entries, height);
    forall epoch | epoch in l.closed ensures ClosedRight(after, l.closed[epoch]) {
      ClosedStays(l.entries, after, l.closed[epoch]);
    }
  }

  lemma {:induction false} IssueKeeps(l: Ledger, id: string, c: Challenge)
    requires Inv(l) && MayIssue(l, id, c)
    ensures Inv(l.(entries := l.entries[id := Entry(c, PENDING, "")]))
  {
    UpdateKeepsClosed(l, id, Entry(c, PENDING, ""));
  }

  lemma {:induction false} ApplyKeeps(l: Ledger, step: Step)
    requires Inv(l)
    ensures Inv(Apply(l, step))
  {
    match step
    case Issue(id, c) =>
      if MayIssue(l, id, c) {
        IssueKeeps(l, id, c);
      }
    case Submit(id, proofId, known, j, height) =>
      SubmitKeeps(l, id, proofId, known, j, height);
    case Expire(height) =>
      ExpireKeeps(l, height);
    case Close(epoch, first, last) =>
  }

  /** In every run: issued is pending plus passed plus fraud plus missed, each fraud has exactly
      its evidence, no missed challenge has any, and every closed epoch's totals still count its
      challenges exactly. */
  lemma {:induction false} LedgerRuns(steps: seq<Step>)
    ensures Inv(Run(steps))
    ensures
      var entries := Run(steps).entries;
      |entries.Keys| == |With(entries, entries.Keys, PENDING)| + |With(entries, entries.Keys, PASSED)|
        + |With(entries, entries.Keys, FRAUD)| + |With(entries, entries.Keys, MISSED)|
  {
    CountsAddUp(Run(steps).entries, Run(steps).entries.Keys);
    if steps != [] {
      LedgerRuns(steps[..|steps| - 1]);
      ApplyKeeps(Run(steps[..|steps| - 1]), steps[|steps| - 1]);
    }
  }

  // --- Outcomes are final -----------------------------------------------------------------------------

  lemma {:induction false} StepKeepsOutcome(l: Ledger, step: Step, id: string)
    requires Inv(l) && id in l.entries && l.entries[id].outcome != PENDING
    ensures id in Apply(l, step).entries && Apply(l, step).entries[id] == l.entries[id]
  {
  }

  /** A resolved challenge keeps its outcome and its proof for the rest of every run. */
  lemma {:induction false} OutcomesAreFinal(steps: seq<Step>, i: nat, id: string)
    requires i <= |steps| && id in Run(steps[..i]).entries && Run(steps[..i]).entries[id].outcome != PENDING
    ensures id in Run(steps).entries && Run(steps).entries[id] == Run(steps[..i]).entries[id]
    decreases |steps|
  {
    if i == |steps| {
      assert steps[..i] == steps;
    } else {
      var front := steps[..|steps| - 1];
      assert front[..i] == steps[..i];
      OutcomesAreFinal(front, i, id);
      LedgerRuns(front);
      StepKeepsOutcome(Run(front), steps[|steps| - 1], id);
    }
  }

  // --- What decides an outcome ----------------------------------------------------------------------------

  /** What a step says about an open challenge: a proof that counts as an answer passes it or
      shows fraud, and an expiry past its deadline misses it. */
  function Verdict(step: Step, id: string, deadline: nat): Option<Outcome> {
    match step
    case Submit(other, _, known, j, _) =>
      if other != id || !known then None
      else (match j
            case HOLDS => Some(PASSED)
            case INVALID => Some(FRAUD)
            case REFUSED => None)
    case Expire(height) => if deadline < height then Some(MISSED) else None
    case _ => None
  }

  /** Step `k` is the first after step `i` that says something about the challenge. */
  ghost predicate DecidedAt(steps: seq<Step>, i: nat, k: nat, id: string, deadline: nat) {
    && i < k < |steps| && Verdict(steps[k], id, deadline).Some?
    && forall m: nat :: i < m < k ==> Verdict(steps[m], id, deadline).None?
  }

  ghost predicate Undecided(steps: seq<Step>, i: nat, id: string, deadline: nat) {
    forall m: nat :: i < m < |steps| ==> Verdict(steps[m], id, deadline).None?
  }

  /** Step `i` issued the challenge. */
  ghost predicate IssuedAt(steps: seq<Step>, i: nat, id: string, c: Challenge) {
    && i < |steps| && steps[i] == Issue(id, c) && c.wellFormed
    && id !in Run(steps[..i]).entries && !HeightClosed(Run(steps[..i]).closed, c.issueHeight)
  }

  lemma {:induction false} PendingStep(l: Ledger, step: Step, id: string)
    requires Inv(l) && id in l.entries && l.entries[id].outcome == PENDING
    ensures
      var m, verdict := Apply(l, step), Verdict(step, id, l.entries[id].challenge.deadline);
      && id in m.entries && m.entries[id].challenge == l.entries[id].challenge
      && (verdict.None? ==> m.entries[id] == l.entries[id])
      && (verdict.Some? ==> m.entries[id].outcome == verdict.value)
      && (verdict.Some? && step.Submit? ==> m.entries[id].proofId == step.proofId)
      && (verdict.Some? && step.Expire? ==> m.entries[id].proofId == l.entries[id].proofId)
  {
    assert id !in l.answered;
  }

  ghost predicate DecidesAt(steps: seq<Step>, i: nat, k: nat, id: string, deadline: nat, e: Entry) {
    && DecidedAt(steps, i, k, id, deadline) && Verdict(steps[k], id, deadline) == Some(e.outcome)
    && e.proofId == if steps[k].Submit? then steps[k].proofId else ""
  }

  /** The entry is pending while nothing was decided, and has the first verdict ever after. */
  ghost predicate EntryMatches(steps: seq<Step>, i: nat, id: string, c: Challenge, e: Entry) {
    && e.challenge == c
    && (e.outcome == PENDING ==> e.proofId == "" && Undecided(steps, i, id, c.deadline))
    && (e.outcome != PENDING ==> exists k: nat :: DecidesAt(steps, i, k, id, c.deadline, e))
  }

  lemma {:induction false} EntryMatchesMore(
    front: seq<Step>, last: Step, i: nat, id: string, c: Challenge, e: Entry, f: Entry)
    requires EntryMatches(front, i, id, c, e) && f.challenge == c
    requires e.outcome != PENDING ==> f == e
    requires e.outcome == PENDING && i < |front| ==>
      if Verdict(last, id, c.deadline).None? then f == e
      else f.outcome == Verdict(last, id, c.deadline).value && f.proofId == if last.Submit? then last.proofId else e.proofId
    requires i < |front|
    ensures EntryMatches(front + [last], i, id, c, f)
  {
    var steps := front + [last];
    assert forall m: nat :: m < |front| ==> steps[m] == front[m];
    if e.outcome != PENDING {
      var k: nat :| DecidesAt(front, i, k, id, c.deadline, e);
      assert DecidesAt(steps, i, k, id, c.deadline, f);
    } else if Verdict(last, id, c.deadline).Some? {
      assert DecidesAt(steps, i, |front|, id, c.deadline, f);
    }
  }

  lemma {:induction false} EntriesMatch(steps: seq<Step>, i: nat, id: string, c: Challenge)
    requires IssuedAt(steps, i, id, c)
    ensures id in Run(steps).entries && EntryMatches(steps, i, id, c, Run(steps).entries[id])
    decreases |steps|
  {
    var front, last := steps[..|steps| - 1], steps[|steps| - 1];
    if i < |front| {
      assert front[..i] == steps[..i];
      EntriesMatch(front, i, id, c);
      LedgerRuns(front);
      var l := Run(front);
      if l.entries[id].outcome == PENDING {
        PendingStep(l, last, id);
      } else {
        StepKeepsOutcome(l, last, id);
      }
      EntryMatchesMore(front, last, i, id, c, l.entries[id], Run(steps).entries[id]);
      assert steps == front + [last];
    } else {
      assert steps[..i] == front;
    }
  }

  /** In every run an issued challenge has the outcome of the first step after it that answers or
      expires it: passed if that was a proof that holds, fraud if it was an invalid one, missed if
      it was an expiry past the deadline, and pending if there was none. */
  lemma {:induction false} OutcomeIsFirstVerdict(steps: seq<Step>, i: nat, id: string, c: Challenge, k: nat)
    requires IssuedAt(steps, i, id, c)
    ensures id in Run(steps).entries && Run(steps).entries[id].challenge == c
    ensures Run(steps).entries[id].outcome == PENDING <==> Undecided(steps, i, id, c.deadline)
    ensures DecidedAt(steps, i, k, id, c.deadline) ==>
      && Some(Run(steps).entries[id].outcome) == Verdict(steps[k], id, c.deadline)
      && (steps[k].Submit? ==> Run(steps).entries[id].proofId == steps[k].proofId)
  {
    EntriesMatch(steps, i, id, c);
    var e := Run(steps).entries[id];
    if e.outcome != PENDING {
      var j: nat :| DecidesAt(steps, i, j, id, c.deadline, e);
      if DecidedAt(steps, i, k, id, c.deadline) {
        assert j == k by {
          assert !(j < k) && !(k < j);
        }
      }
    }
  }

  /** A challenge for which no invalid proof was submitted never becomes a fraud. */
  lemma {:induction false} NoInvalidNoFraud(steps: seq<Step>, i: nat, id: string, c: Challenge)
    requires IssuedAt(steps, i, id, c)
    requires forall m: nat :: m < |steps| && steps[m].Submit? && steps[m].id == id ==> steps[m].judgement != INVALID
    ensures id in Run(steps).entries && Run(steps).entries[id].outcome != FRAUD
  {
    EntriesMatch(steps, i, id, c);
  }

  /** A challenge is issued exactly when it is well-formed and new and its height is in no closed
      epoch. */
  lemma IssuesIff(l: Ledger, id: string, c: Challenge)
    ensures Apply(l, Issue(id, c)) ==
      if c.wellFormed && id !in l.entries && (forall e :: e in l.closed ==> c.issueHeight < l.closed[e].first || l.closed[e].last < c.issueHeight)
      then l.(entries := l.entries[id := Entry(c, PENDING, "")]) else l
  {
  }

  /** An epoch is closed exactly over a range that is new, meets no closed one, and holds no
      pending challenge; its totals then count the challenges of the range by outcome. */
  lemma ClosesIff(l: Ledger, epoch: nat, first: nat, last: nat, m: Ledger)
    requires m == Apply(l, Close(epoch, first, last))
    ensures
      if (&& 0 < first <= last && epoch !in l.closed
          && (forall e :: e in l.closed ==> l.closed[e].last < first || last < l.closed[e].first)
          && forall id :: id in l.entries && first <= l.entries[id].challenge.issueHeight <= last ==> l.entries[id].outcome != PENDING)
      then
        && epoch in m.closed && m.closed.Keys == l.closed.Keys + {epoch} && m.entries == l.entries
        && m.closed[epoch].first == first && m.closed[epoch].last == last
        && m.closed[epoch].totals.challenges ==
             |set id | id in l.entries && first <= l.entries[id].challenge.issueHeight <= last|
        && m.closed[epoch].totals.passed ==
             |set id | id in l.entries && first <= l.entries[id].challenge.issueHeight <= last && l.entries[id].outcome == PASSED|
        && m.closed[epoch].totals.fraud ==
             |set id | id in l.entries && first <= l.entries[id].challenge.issueHeight <= last && l.entries[id].outcome == FRAUD|
        && m.closed[epoch].totals.missed ==
             |set id | id in l.entries && first <= l.entries[id].challenge.issueHeight <= last && l.entries[id].outcome == MISSED|
      else m == l
  {
    var ids := IdsIn(l.entries, first, last);
    assert ids == set id | id in l.entries && first <= l.entries[id].challenge.issueHeight <= last;
    assert With(l.entries, ids, PASSED) ==
      set id | id in l.entries && first <= l.entries[id].challenge.issueHeight <= last && l.entries[id].outcome == PASSED;
    assert With(l.entries, ids, FRAUD) ==
      set id | id in l.entries && first <= l.entries[id].challenge.issueHeight <= last && l.entries[id].outcome == FRAUD;
    assert With(l.entries, ids, MISSED) ==
      set id | id in l.entries && first <= l.entries[id].challenge.issueHeight <= last && l.entries[id].outcome == MISSED;
  }
}
