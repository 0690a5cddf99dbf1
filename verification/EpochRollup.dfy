/** Closing an epoch: its challenges tallied per slot and per provider, and the ledger object. */
module EpochRollup {
  import opened Wrappers
  import opened Quorum
  import opened Sums
  import opened ArchivalLedger

  /** A provider's copy of a segment. */
  type Key = (string, nat)

  type Slots = map<Key, Totals>

  function KeyOf(e: Entry): Key {
    (e.challenge.provider, e.challenge.segment)
  }

  function SlotIds(entries: Entries, ids: set<string>, key: Key): set<string> {
    set id | id in ids && id in entries && KeyOf(entries[id]) == key
  }

  function Bump(t: Totals, outcome: Outcome): Totals {
    Totals(t.challenges + 1,
      t.passed + (if outcome == PASSED then 1 else 0),
      t.fraud + (if outcome == FRAUD then 1 else 0),
      t.missed + (if outcome == MISSED then 1 else 0))
  }

  const NOTHING := Totals(0, 0, 0, 0)

  lemma {:induction false} WithOneMore(entries: Entries, ids: set<string>, id: string, outcome: Outcome)
    requires id in entries && id !in ids
    ensures |With(entries, ids + {id}, outcome)| ==
      |With(entries, ids, outcome)| + if entries[id].outcome == outcome then 1 else 0
  {
    if entries[id].outcome == outcome {
      assert With(entries, ids + {id}, outcome) == With(entries, ids, outcome) + {id};
    } else {
      assert With(entries, ids + {id}, outcome) == With(entries, ids, outcome);
    }
  }

  lemma {:induction false} TotalsOneMore(entries: Entries, ids: set<string>, id: string)
    requires id in entries && id !in ids
    ensures TotalsOf(entries, ids + {id}) == Bump(TotalsOf(entries, ids), entries[id].outcome)
  {
    WithOneMore(entries, ids, id, PASSED);
    WithOneMore(entries, ids, id, FRAUD);
    WithOneMore(entries, ids, id, MISSED);
  }

  // --- Sums over slots ------------------------------------------------------------------------------

  function Challenges(slots: Slots): map<Key, nat> {
    map k | k in slots :: slots[k].challenges
  }

  function Passes(slots: Slots): map<Key, nat> {
    map k | k in slots :: slots[k].passed
  }

  function Frauds(slots: Slots): map<Key, nat> {
    map k | k in slots :: slots[k].fraud
  }

  function Misses(slots: Slots): map<Key, nat> {
    map k | k in slots :: slots[k].missed
  }

  ghost function SlotSums(slots: Slots): Totals {
    Totals(Total(Challenges(slots)), Total(Passes(slots)), Total(Frauds(slots)), Total(Misses(slots)))
  }

  function SlotAt(slots: Slots, key: Key): Totals {
    if key in slots then slots[key] else NOTHING
  }

  lemma {:induction false} SlotFields(slots: Slots, key: Key, t: Totals)
    ensures Challenges(slots[key := t]) == Challenges(slots)[key := t.challenges]
    ensures Passes(slots[key := t]) == Passes(slots)[key := t.passed]
    ensures Frauds(slots[key := t]) == Frauds(slots)[key := t.fraud]
    ensures Misses(slots[key := t]) == Misses(slots)[key := t.missed]
  {
  }

  /** One more challenge in one slot is one more in the sums. */
  lemma {:induction false} SlotSumsBump(slots: Slots, key: Key, outcome: Outcome)
    ensures SlotSums(slots[key := Bump(SlotAt(slots, key), outcome)]) == Bump(SlotSums(slots), outcome)
  {
    var t := Bump(SlotAt(slots, key), outcome);
    SlotFields(slots, key, t);
    SumGrows(Challenges(slots), key, t.challenges, 1);
    SumGrows(Passes(slots), key, t.passed, if outcome == PASSED then 1 else 0);
    SumGrows(Frauds(slots), key, t.fraud, if outcome == FRAUD then 1 else 0);
    SumGrows(Misses(slots), key, t.missed, if outcome == MISSED then 1 else 0);
  }

  lemma {:induction false} SumGrows(m: map<Key, nat>, key: Key, v: nat, delta: nat)
    requires v == At(m, key) + delta
    ensures Total(m[key := v]) == Total(m) + delta
  {
    TotalUpdate(m, key, v);
  }

  /** Each slot's tally counts its own challenges among the ids. */
  ghost predicate SlotsCount(entries: Entries, ids: set<string>, slots: Slots) {
    forall key :: SlotAt(slots, key) == TotalsOf(entries, SlotIds(entries, ids, key))
  }

  lemma {:induction false} SlotCountMore(entries: Entries, ids: set<string>, id: string, key: Key, before: Totals)
    requires id in entries && id !in ids && before == TotalsOf(entries, SlotIds(entries, ids, key))
    ensures TotalsOf(entries, SlotIds(entries, ids + {id}, key))
      == if key == KeyOf(entries[id]) then Bump(before, entries[id].outcome) else before
  {
    if key == KeyOf(entries[id]) {
      assert SlotIds(entries, ids + {id}, key) == SlotIds(entries, ids, key) + {id};
      TotalsOneMore(entries, SlotIds(entries, ids, key), id);
    } else {
      assert SlotIds(entries, ids + {id}, key) == SlotIds(entries, ids, key);
    }
  }

  lemma {:induction false} SlotsCountMore(entries: Entries, ids: set<string>, slots: Slots, id: string, mine: Key)
    requires SlotsCount(entries, ids, slots) && id in entries && id !in ids && mine == KeyOf(entries[id])
    ensures SlotsCount(entries, ids + {id}, slots[mine := Bump(SlotAt(slots, mine), entries[id].outcome)])
  {
    var more := slots[mine := Bump(SlotAt(slots, mine), entries[id].outcome)];
    forall key ensures SlotAt(more, key) == TotalsOf(entries, SlotIds(entries, ids + {id}, key)) {
      SlotCountMore(entries, ids, id, key, SlotAt(slots, key));
    }
  }

  /** The slots and the totals count exactly the given challenges. */
  ghost predicate Tallied(entries: Entries, ids: set<string>, slots: Slots, totals: Totals) {
    totals == TotalsOf(entries, ids) && SlotsCount(entries, ids, slots) && SlotSums(slots) == totals
  }

  lemma {:induction false} TalliedStart(entries: Entries)
    ensures Tallied(entries, {}, map[], NOTHING)
  {
  }

  lemma {:induction false} TalliedMore(entries: Entries, ids: set<string>, slots: Slots, totals: Totals, id: string, key: Key)
    requires Tallied(entries, ids, slots, totals) && id in entries && id !in ids && key == KeyOf(entries[id])
    ensures Tallied(entries, ids + {id}, slots[key := Bump(SlotAt(slots, key), entries[id].outcome)],
      Bump(totals, entries[id].outcome))
  {
    SlotsCountMore(entries, ids, slots, id, key);
    SlotSumsBump(slots, key, entries[id].outcome);
    TotalsOneMore(entries, ids, id);
  }

  /** Tallies the challenges of a range, per slot and in total; nothing while one is pending. */
  method TallySlots(entries: Entries, first: nat, last: nat) returns (ok: bool, slots: Slots, totals: Totals)
    ensures ok <==> forall id :: id in entries && InRange(entries[id], first, last) ==> entries[id].outcome != PENDING
    ensures ok ==> Tallied(entries, IdsIn(entries, first, last), slots, totals)
  {
    ok, slots, totals := true, map[], NOTHING;
    var rest := entries.Keys;
    ghost var done: set<string> := {};
    TalliedStart(entries);
    while rest != {}
      invariant ok && rest <= entries.Keys
      invariant forall id :: id in done <==> id in entries && InRange(entries[id], first, last) && id !in rest
      invariant forall id :: id in done ==> entries[id].outcome != PENDING
      invariant Tallied(entries, done, slots, totals)
    {
      var id :| id in rest;
      rest := rest - {id};
      var entry := entries[id];
      if !InRange(entry, first, last) {
        continue;
      }
      if entry.outcome == PENDING {
        return false, slots, totals;
      }
      var key := KeyOf(entry);
      TalliedMore(entries, done, slots, totals, id, key);
      slots, totals := slots[key := Bump(SlotAt(slots, key), entry.outcome)], Bump(totals, entry.outcome);
      done := done + {id};
    }
    assert done == IdsIn(entries, first, last);
  }

  // --- Per provider ---------------------------------------------------------------------------------

  datatype ProviderTally = ProviderTally(issued: nat, passed: nat, fraud: bool)

  type Providers = map<string, ProviderTally>

  function Issued(providers: Providers): Weights {
    map p | p in providers :: providers[p].issued
  }

  function Passed(providers: Providers): Weights {
    map p | p in providers :: providers[p].passed
  }

  function ProviderAt(providers: Providers, p: string): ProviderTally {
    if p in providers then providers[p] else ProviderTally(0, 0, false)
  }

  lemma {:induction false} ProviderSums(providers: Providers, p: string, t: ProviderTally)
    ensures Total(Issued(providers[p := t])) + ProviderAt(providers, p).issued == Total(Issued(providers)) + t.issued
    ensures Total(Passed(providers[p := t])) + ProviderAt(providers, p).passed == Total(Passed(providers)) + t.passed
  {
    assert Issued(providers[p := t]) == Issued(providers)[p := t.issued];
    assert Passed(providers[p := t]) == Passed(providers)[p := t.passed];
    TotalUpdate(Issued(providers), p, t.issued);
    TotalUpdate(Passed(providers), p, t.passed);
  }

  /** A slot of the provider, outside `rest`, has a fraud. */
  ghost predicate HasFraud(slots: Slots, rest: set<Key>, p: string) {
    exists k :: k in slots && k !in rest && k.0 == p && slots[k].fraud > 0
  }

  function KeysOf(slots: Slots, p: string): set<Key> {
    set k | k in slots && k.0 == p
  }

  /** A provider's tally adds up its own slots, but for those in `rest`. */
  ghost predicate OwnSums(slots: Slots, rest: set<Key>, p: string, t: ProviderTally) {
    && t.issued + Weight(Challenges(slots), KeysOf(slots, p) * rest) == Weight(Challenges(slots), KeysOf(slots, p))
    && t.passed + Weight(Passes(slots), KeysOf(slots, p) * rest) == Weight(Passes(slots), KeysOf(slots, p))
  }

  lemma {:induction false} LeftOver(m: map<Key, nat>, mine: set<Key>, rest: set<Key>, k: Key)
    requires k in m && k in rest
    ensures Weight(m, mine * rest) == Weight(m, mine * (rest - {k})) + if k in mine then m[k] else 0
  {
    if k in mine {
      WeightPeel(m, mine * rest, k);
      assert mine * rest - {k} == mine * (rest - {k});
    } else {
      assert mine * rest == mine * (rest - {k});
    }
  }

  lemma {:induction false} OwnSumsMore(
    slots: Slots, rest: set<Key>, k: Key, providers: Providers, sum: ProviderTally, next: Providers)
    requires next == providers[k.0 := sum]
    requires k in rest && k in slots && forall p :: OwnSums(slots, rest, p, ProviderAt(providers, p))
    requires sum.issued == ProviderAt(providers, k.0).issued + slots[k].challenges
    requires sum.passed == ProviderAt(providers, k.0).passed + slots[k].passed
    ensures forall p :: OwnSums(slots, rest - {k}, p, ProviderAt(next, p))
  {
    forall p ensures OwnSums(slots, rest - {k}, p, ProviderAt(next, p)) {
      assert OwnSums(slots, rest, p, ProviderAt(providers, p));
      LeftOver(Challenges(slots), KeysOf(slots, p), rest, k);
      LeftOver(Passes(slots), KeysOf(slots, p), rest, k);
    }
  }

  lemma OwnSumsDone(slots: Slots, providers: Providers)
    requires forall p :: OwnSums(slots, {}, p, ProviderAt(providers, p))
    ensures forall p :: ProviderAt(providers, p).issued == Weight(Challenges(slots), KeysOf(slots, p))
    ensures forall p :: ProviderAt(providers, p).passed == Weight(Passes(slots), KeysOf(slots, p))
  {
    forall p ensures ProviderAt(providers, p).issued == Weight(Challenges(slots), KeysOf(slots, p))
      && ProviderAt(providers, p).passed == Weight(Passes(slots), KeysOf(slots, p))
    {
      assert OwnSums(slots, {}, p, ProviderAt(providers, p));
      assert KeysOf(slots, p) * {} == {};
    }
  }

  lemma OwnSumsStart(slots: Slots)
    ensures forall p :: OwnSums(slots, slots.Keys, p, ProviderAt(map[], p))
  {
    forall p ensures OwnSums(slots, slots.Keys, p, ProviderAt(map[], p)) {
      assert KeysOf(slots, p) * slots.Keys == KeysOf(slots, p);
    }
  }

  /** Adds the slots up by provider: each provider gets the sums of its own slots, all sums
      together stay the same, and a provider is marked exactly when one of its slots has a fraud. */
  method TallyProviders(slots: Slots) returns (providers: Providers)
    ensures Total(Issued(providers)) == Total(Challenges(slots))
    ensures Total(Passed(providers)) == Total(Passes(slots))
    ensures forall p :: ProviderAt(providers, p).issued == Weight(Challenges(slots), KeysOf(slots, p))
    ensures forall p :: ProviderAt(providers, p).passed == Weight(Passes(slots), KeysOf(slots, p))
    ensures forall p :: ProviderAt(providers, p).fraud <==> HasFraud(slots, {}, p)
  {
    providers := map[];
    var rest := slots.Keys;
    assert Issued(map[]) == map[] && Passed(map[]) == map[];
    assert Challenges(slots).Keys == slots.Keys && Passes(slots).Keys == slots.Keys;
    OwnSumsStart(slots);
    while rest != {}
      invariant rest <= slots.Keys
      invariant Total(Issued(providers)) + Weight(Challenges(slots), rest) == Total(Challenges(slots))
      invariant Total(Passed(providers)) + Weight(Passes(slots), rest) == Total(Passes(slots))
      invariant forall p :: ProviderAt(providers, p).fraud <==> HasFraud(slots, rest, p)
      invariant forall p :: OwnSums(slots, rest, p, ProviderAt(providers, p))
    {
      var k :| k in rest;
      WeightPeel(Challenges(slots), rest, k);
      WeightPeel(Passes(slots), rest, k);
      var t, old_ := slots[k], ProviderAt(providers, k.0);
      var sum := ProviderTally(old_.issued + t.challenges, old_.passed + t.passed, old_.fraud || t.fraud > 0);
      ProviderSums(providers, k.0, sum);
      FraudMarks(slots, rest, k, providers, sum);
      OwnSumsMore(slots, rest, k, providers, sum, providers[k.0 := sum]);
      providers := providers[k.0 := sum];
      rest := rest - {k};
    }
    OwnSumsDone(slots, providers);
  }

  lemma {:induction false} FraudMarks(slots: Slots, rest: set<Key>, k: Key, providers: Providers, sum: ProviderTally)
    requires k in rest && rest <= slots.Keys && sum.fraud == (ProviderAt(providers, k.0).fraud || slots[k].fraud > 0)
    requires forall p :: ProviderAt(providers, p).fraud <==> HasFraud(slots, rest, p)
    ensures forall p :: ProviderAt(providers[k.0 := sum], p).fraud <==> HasFraud(slots, rest - {k}, p)
  {
    forall p ensures ProviderAt(providers[k.0 := sum], p).fraud <==> HasFraud(slots, rest - {k}, p) {
      assert HasFraud(slots, rest, p) <==> ProviderAt(providers, p).fraud;
      if HasFraud(slots, rest, p) {
        var j :| j in slots && j !in rest && j.0 == p && slots[j].fraud > 0;
        assert j !in rest - {k};
      }
      if p == k.0 && slots[k].fraud > 0 {
        assert k in slots && k !in rest - {k};
      }
    }
  }

  // --- The object -----------------------------------------------------------------------------------

  datatype Summary = Summary(slots: Slots, providers: Providers, totals: Totals)

  class ScoreLedger {
    var entries: Entries
    var answered: map<string, string>
    var faults: seq<Fault>
    var closed: map<nat, Closed>

    function Value(): Ledger
      reads this
    {
      Ledger(entries, answered, faults, closed)
    }

    constructor ()
      ensures Value() == EMPTY
    {
      entries, answered, faults, closed := map[], map[], [], map[];
    }

    method IssueChallenge(id: string, c: Challenge) returns (ok: bool)
      modifies this
      ensures ok <==> MayIssue(old(Value()), id, c)
      ensures Value() == Apply(old(Value()), Issue(id, c))
    {
      if !c.wellFormed || HeightClosed(closed, c.issueHeight) || id in entries {
        return false;
      }
      entries := entries[id := Entry(c, PENDING, "")];
      ok := true;
    }

    method SubmitProof(id: string, proofId: string, segmentKnown: bool, j: Judgement, height: nat)
      modifies this
      ensures Value() == Submitted(old(Value()), id, proofId, segmentKnown, j, height)
      ensures id in old(entries) && old(entries)[id].outcome == PENDING && id !in old(answered) && segmentKnown ==>
        && id in entries
        && entries[id].outcome == (match j case HOLDS => PASSED case INVALID => FRAUD case REFUSED => PENDING)
        && faults == if j == INVALID then old(faults) + [Fault(id, proofId, height)] else old(faults)
    {
      if id !in entries || entries[id].outcome == MISSED || !segmentKnown || j == REFUSED || id in answered {
        return;
      }
      if j == HOLDS {
        entries := entries[id := entries[id].(outcome := PASSED, proofId := proofId)];
        answered := answered[id := proofId];
      } else if entries[id].outcome == PENDING {
        entries := entries[id := entries[id].(outcome := FRAUD, proofId := proofId)];
        answered := answered[id := proofId];
        faults := faults + [Fault(id, proofId, height)];
      }
    }

    method ExpireAt(height: nat)
      modifies this
      ensures Value() == Apply(old(Value()), Expire(height))
    {
      var rest := entries.Keys;
      while rest != {}
        invariant rest <= old(entries).Keys && entries.Keys == old(entries).Keys
        invariant forall id :: id in entries && id in rest ==> entries[id] == old(entries)[id]
        invariant forall id :: id in entries && id !in rest ==> entries[id] == Expired(old(entries), height)[id]
        invariant answered == old(answered) && faults == old(faults) && closed == old(closed)
      {
        var id :| id in rest;
        if Expires(entries[id], height) {
          entries := entries[id := entries[id].(outcome := MISSED)];
        }
        rest := rest - {id};
      }
      assert entries == Expired(old(entries), height);
    }

    /** The tallies of an epoch that is closed now sum to its totals, per slot and per provider. */
    method CloseEpoch(epoch: nat, first: nat, last: nat) returns (r: Option<Summary>)
      modifies this
      ensures r.Some? <==> MayClose(old(Value()), epoch, first, last)
      ensures Value() == Apply(old(Value()), Close(epoch, first, last))
      ensures r.Some? ==>
        && closed[epoch] == Closed(first, last, r.value.totals)
        && SlotSums(r.value.slots) == r.value.totals
        && Total(Issued(r.value.providers)) == r.value.totals.challenges
        && Total(Passed(r.value.providers)) == r.value.totals.passed
        && forall p ::
             ProviderAt(r.value.providers, p).issued == Weight(Challenges(r.value.slots), KeysOf(r.value.slots, p))
    {
      if first == 0 || last < first || epoch in closed {
        return None;
      }
      if exists e :: e in closed && Overlaps(closed[e], first, last) {
        return None;
      }
      var ok, slots, totals := TallySlots(entries, first, last);
      if !ok {
        return None;
      }
      var providers := TallyProviders(slots);
      closed := closed[epoch := Closed(first, last, totals)];
      r := Some(Summary(slots, providers, totals));
    }
  }
}
