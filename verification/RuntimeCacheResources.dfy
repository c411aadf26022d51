/** What becomes of the resources: an invariant of every segment, and whole runs of segments. */
module RuntimeCacheResources {
  import opened RuntimeCache

  // ---------- what every segment keeps ----------

  ghost predicate NoRepeats(a: seq<EntryId>) {
    forall i, j :: 0 <= i < j < |a| ==> a[i] != a[j]
  }

  /** The map: at most one entry per key, none failed. */
  ghost predicate MapInv(s: State) {
    && (forall i, j :: 0 <= i < j < |s.entries| ==> KeyOf(s, s.entries[i]) != KeyOf(s, s.entries[j]))
    && (forall i :: 0 <= i < |s.entries| ==>
          s.entries[i] in s.heap && s.heap[s.entries[i]].outcome != Failed)
    && (forall e :: e in s.heap ==> e < s.next)
  }

  /** The resources: an entry is handed over at most once and then out of the map for good; its value
      has been destroyed exactly if it was handed over, has a value and is not still waiting. */
  ghost predicate ResourceInv(s: State) {
    && NoRepeats(s.handed) && NoRepeats(s.destroyed)
    && (forall e :: e in s.handed ==> e in s.heap && e !in s.entries)
    && (forall e :: e in s.waiting ==> e in s.handed)
    && (forall e :: e in s.handed && s.heap[e].outcome == Pending ==> e in s.waiting)
    && (forall e :: e in s.destroyed ==> e in s.heap)
    && (forall e :: e in s.heap ==>
          (e in s.destroyed <==> e in s.handed && s.heap[e].outcome == Created && e !in s.waiting))
  }

  ghost predicate Inv(s: State) {
    1 <= s.max && |s.entries| <= s.max && MapInv(s) && ResourceInv(s)
  }

  /** The entries that nobody owns any more, neither the map nor a call of `destroyEntry`. A rejected
      creation leaves nothing to own. */
  ghost function Unowned(s: State): set<EntryId> {
    set e | e in s.heap && s.heap[e].outcome != Failed && e !in s.entries && e !in s.handed
  }

  /** The resources that are lost: unowned entries with a value, present or still to come. */
  ghost function Lost(s: State): set<EntryId> {
    set e | e in Unowned(s) && s.heap[e].outcome != Nothing
  }

  predicate Rejects(s: State, step: Step) {
    step.DoSettle? && step.outcome == Failed && step.e in s.heap && s.heap[step.e].outcome == Pending
  }

  /** The entry that a rejection takes out of the map although it is not the rejected one. */
  function Displaces(s: State, step: Step): set<EntryId> {
    if !Rejects(s, step) then {}
    else
      var i := IndexOf(s, KeyOf(s, step.e));
      if i < |s.entries| && s.entries[i] != step.e then {s.entries[i]} else {}
  }

  /** A rejected creation whose key meanwhile belongs to another entry, one that has or may get a value. */
  ghost predicate Stray(s: State, step: Step) {
    exists e :: e in Displaces(s, step) && e in s.heap && s.heap[e].outcome != Nothing
  }

  lemma InitialInv(max: nat)
    requires 1 <= max
    ensures Inv(Initial(max)) && Unowned(Initial(max)) == {}
  {
  }

  lemma WithoutMembers(a: seq<EntryId>, i: nat)
    requires i < |a| && NoRepeats(a)
    ensures NoRepeats(Without(a, i))
    ensures forall e :: e in Without(a, i) <==> e in a && e != a[i]
  {
    var b := Without(a, i);
    forall e | e in a && e != a[i] ensures e in b {
      var j :| 0 <= j < |a| && a[j] == e;
      assert b[if j < i then j else j - 1] == e;
    }
  }

  lemma EntriesDistinct(s: State)
    requires MapInv(s)
    ensures NoRepeats(s.entries)
  {
  }

  /** Taking one entry out. */
  lemma RemoveKeepsMap(s: State, i: nat)
    requires MapInv(s) && i < |s.entries|
    ensures MapInv(s.(entries := Without(s.entries, i)))
  {
  }

  /** Handing over an entry that is in neither place yet. */
  lemma HandKeeps(s: State, e: EntryId)
    requires MapInv(s) && ResourceInv(s)
    requires e in s.heap && e !in s.entries && e !in s.handed
    ensures MapInv(Hand(s, e)) && ResourceInv(Hand(s, e))
    ensures Unowned(Hand(s, e)) == Unowned(s) - {e}
  {
  }

  /** Out of the map and over to `destroyEntry`: nothing is lost. */
  lemma RemoveAndHand(s: State, i: nat)
    requires MapInv(s) && ResourceInv(s) && i < |s.entries|
    ensures
      var s' := Hand(s.(entries := Without(s.entries, i)), s.entries[i]);
      MapInv(s') && ResourceInv(s') && Unowned(s') == Unowned(s)
  {
    EntriesDistinct(s);
    WithoutMembers(s.entries, i);
    var mid := s.(entries := Without(s.entries, i));
    RemoveKeepsMap(s, i);
    assert ResourceInv(mid);
    HandKeeps(mid, s.entries[i]);
    assert Unowned(mid) - {s.entries[i]} == Unowned(s);
  }

  /** A new last entry with a key of its own. */
  lemma AppendKeepsMap(s: State, e: EntryId)
    requires MapInv(s) && e in s.heap && s.heap[e].outcome != Failed
    requires forall i :: 0 <= i < |s.entries| ==> s.entries[i] != e && KeyOf(s, s.entries[i]) != KeyOf(s, e)
    ensures MapInv(s.(entries := s.entries + [e]))
  {
    hide KeyIn;
  }

  lemma InsertKeepsMap(s: State, namespace: string, key: string)
    requires MapInv(s) && !Holds(s, CacheKey(namespace, key))
    ensures MapInv(Insert(s, namespace, key))
  {
    var made := s.(heap := s.heap[s.next := Entry(namespace, key, Pending)], next := s.next + 1);
    assert s.next !in s.heap;
    assert forall i :: 0 <= i < |s.entries| ==>
      s.entries[i] != s.next && KeyOf(made, s.entries[i]) == KeyOf(s, s.entries[i]) != CacheKey(namespace, key);
    AppendKeepsMap(made, s.next);
  }

  lemma InsertKeeps(s: State, namespace: string, key: string)
    requires MapInv(s) && ResourceInv(s) && !Holds(s, CacheKey(namespace, key))
    ensures MapInv(Insert(s, namespace, key)) && ResourceInv(Insert(s, namespace, key))
    ensures Unowned(Insert(s, namespace, key)) == Unowned(s)
  {
    InsertKeepsMap(s, namespace, key);
    assert s.next !in s.heap;
    hide MapInv, Holds;
    assert forall e :: e in Insert(s, namespace, key).entries <==> e in s.entries || e == s.next;
  }

  lemma TouchMembers(s: State, i: nat)
    requires MapInv(s) && i < |s.entries|
    ensures forall e :: e in Touch(s, i).entries <==> e in s.entries
  {
    EntriesDistinct(s);
    WithoutMembers(s.entries, i);
  }

  lemma TouchKeepsMap(s: State, i: nat)
    requires MapInv(s) && i < |s.entries|
    ensures MapInv(Touch(s, i))
  {
    var e, kept := s.entries[i], s.(entries := Without(s.entries, i));
    OtherKeys(s, i);
    RemoveKeepsMap(s, i);
    hide MapInv, Without;
    AppendKeepsMap(kept, e);
  }

  lemma OtherKeys(s: State, i: nat)
    requires MapInv(s) && i < |s.entries|
    ensures s.entries[i] in s.heap && s.heap[s.entries[i]].outcome != Failed
    ensures forall j :: 0 <= j < |Without(s.entries, i)| ==>
              Without(s.entries, i)[j] != s.entries[i] && KeyOf(s, Without(s.entries, i)[j]) != KeyOf(s, s.entries[i])
  {
    hide KeyIn;
    var kept := Without(s.entries, i);
    forall j | 0 <= j < |kept| ensures KeyOf(s, kept[j]) != KeyOf(s, s.entries[i]) {
      assert kept[j] == s.entries[if j < i then j else j + 1];
    }
  }

  lemma TouchKeeps(s: State, i: nat)
    requires MapInv(s) && ResourceInv(s) && i < |s.entries|
    ensures MapInv(Touch(s, i)) && ResourceInv(Touch(s, i)) && Unowned(Touch(s, i)) == Unowned(s)
  {
    TouchKeepsMap(s, i);
    TouchMembers(s, i);
    hide MapInv;
  }

  lemma EvictKeeps(s: State)
    requires 1 <= s.max && |s.entries| <= s.max + 1 && MapInv(s) && ResourceInv(s)
    ensures Inv(Evict(s)) && Unowned(Evict(s)) == Unowned(s)
  {
    if |s.entries| > s.max {
      RemoveAndHand(s, 0);
      assert Without(s.entries, 0) == s.entries[1..];
    }
  }

  lemma MarkFailedKeeps(s: State, e: EntryId)
    requires Inv(s) && e in s.heap && s.heap[e].outcome == Pending && e !in s.entries
    ensures
      var s' := s.(heap := s.heap[e := s.heap[e].(outcome := Failed)]);
      Inv(s') && Unowned(s') == Unowned(s) - {e} && forall x :: KeyOf(s', x) == KeyOf(s, x)
  {
  }

  /** Dropping an entry from the map without handing it over loses it. */
  lemma DropLoses(s: State, i: nat)
    requires Inv(s) && i < |s.entries|
    ensures
      var s' := s.(entries := Without(s.entries, i));
      Inv(s') && Unowned(s') == Unowned(s) + {s.entries[i]} && s.entries[i] !in s'.entries
  {
    EntriesDistinct(s);
    WithoutMembers(s.entries, i);
    RemoveKeepsMap(s, i);
  }

  /** A rejection takes at most one entry out of the map; nobody owns that entry then, unless it is the
      rejected one. */
  lemma FailureKeeps(s: State, e: EntryId)
    requires Inv(s) && e in s.heap && s.heap[e].outcome == Pending
    ensures
      var s' := Settle(s, e, Failed);
      Inv(s') && Unowned(s') == Unowned(s) + Displaces(s, DoSettle(e, Failed)) - {e}
  {
    if e in s.entries { OwnFailureKeeps(s, e); } else { StrayFailureKeeps(s, e); }
  }

  lemma OwnFailureKeeps(s: State, e: EntryId)
    requires Inv(s) && e in s.heap && s.heap[e].outcome == Pending && e in s.entries
    ensures
      var s' := Settle(s, e, Failed);
      Inv(s') && Displaces(s, DoSettle(e, Failed)) == {} && Unowned(s') == Unowned(s) - {e}
  {
    var settled := s.(heap := s.heap[e := s.heap[e].(outcome := Failed)]);
    IndexOfEntry(s, e);
    var i := IndexOf(s, KeyOf(s, e));
    SameIndex(s, settled, KeyOf(s, e));
    DropLoses(s, i);
    var dropped := s.(entries := Without(s.entries, i));
    hide Inv, IndexOf, Unowned, Without;
    MarkFailedKeeps(dropped, e);
    assert Settle(s, e, Failed) == dropped.(heap := settled.heap);
    assert (Unowned(s) + {e}) - {e} == Unowned(s) - {e};
  }

  lemma StrayFailureKeeps(s: State, e: EntryId)
    requires Inv(s) && e in s.heap && s.heap[e].outcome == Pending && e !in s.entries
    ensures
      var s' := Settle(s, e, Failed);
      Inv(s') && Unowned(s') == Unowned(s) + Displaces(s, DoSettle(e, Failed)) - {e}
  {
    var settled := s.(heap := s.heap[e := s.heap[e].(outcome := Failed)]);
    MarkFailedKeeps(s, e);
    SameIndex(s, settled, KeyOf(s, e));
    var i := IndexOf(s, KeyOf(s, e));
    if i < |s.entries| {
      DropLoses(settled, i);
      assert s.entries[i] != e;
      assert Displaces(s, DoSettle(e, Failed)) == {s.entries[i]};
      hide Inv, IndexOf, Unowned, Displaces;
      assert (Unowned(s) - {e}) + {s.entries[i]} == Unowned(s) + {s.entries[i]} - {e};
    }
  }

  lemma SameIndex(s: State, s': State, cacheKey: string)
    requires s.entries == s'.entries && forall x :: KeyOf(s', x) == KeyOf(s, x)
    ensures IndexOf(s', cacheKey) == IndexOf(s, cacheKey)
  {
  }

  lemma SuccessKeeps(s: State, e: EntryId, outcome: Outcome)
    requires Inv(s) && e in s.heap && s.heap[e].outcome == Pending
    requires outcome == Created || outcome == Nothing
    ensures Inv(Settle(s, e, outcome)) && Unowned(Settle(s, e, outcome)) == Unowned(s)
  {
    var s' := Settle(s, e, outcome);
    assert forall x :: KeyOf(s', x) == KeyOf(s, x);
  }

  lemma ResumeKeeps(s: State, e: EntryId)
    requires Inv(s)
    ensures Inv(ResumeDestroy(s, e)) && Unowned(ResumeDestroy(s, e)) == Unowned(s)
  {
  }

  lemma IndexOfEntry(s: State, e: EntryId)
    requires MapInv(s) && e in s.entries
    ensures Holds(s, KeyOf(s, e)) && s.entries[IndexOf(s, KeyOf(s, e))] == e
  {
    var j :| 0 <= j < |s.entries| && s.entries[j] == e;
    var i := IndexOf(s, KeyOf(s, e));
    assert i <= j;
  }

  lemma {:induction false} DeleteAllKeeps(s: State, victims: seq<EntryId>)
    requires Inv(s) && NoRepeats(victims) && forall e :: e in victims ==> e in s.entries
    ensures Inv(DeleteAll(s, victims)) && Unowned(DeleteAll(s, victims)) == Unowned(s)
    decreases |victims|
  {
    if victims != [] {
      var e := victims[0];
      IndexOfEntry(s, e);
      var i := IndexOf(s, KeyOf(s, e));
      RemoveAndHand(s, i);
      EntriesDistinct(s);
      WithoutMembers(s.entries, i);
      var s' := Hand(DeleteKey(s, KeyOf(s, e)), e);
      assert forall j :: 0 < j < |victims| ==> victims[j] in s'.entries;
      DeleteAllKeeps(s', victims[1..]);
    }
  }

  lemma {:induction false} MatchingMembers(heap: map<EntryId, Entry>, p: Entry -> bool, ids: seq<EntryId>)
    requires NoRepeats(ids)
    ensures NoRepeats(Matching(heap, p, ids))
    ensures forall e :: e in Matching(heap, p, ids) ==> e in ids
  {
    if ids != [] {
      MatchingMembers(heap, p, ids[1..]);
      assert ids[0] !in ids[1..];
    }
  }

  lemma DeleteMatchingKeeps(s: State, p: Entry -> bool)
    requires Inv(s)
    ensures Inv(DeleteMatching(s, p)) && Unowned(DeleteMatching(s, p)) == Unowned(s)
  {
    EntriesDistinct(s);
    MatchingMembers(s.heap, p, s.entries);
    DeleteAllKeeps(s, Matching(s.heap, p, s.entries));
  }

  lemma HandChanges(s: State, e: EntryId)
    ensures
      var s' := Hand(s, e);
      s'.entries == s.entries && s'.heap == s.heap && s'.max == s.max && s'.handed == s.handed + [e]
  {
  }

  lemma FirstAndRest(ids: seq<EntryId>)
    requires ids != [] && NoRepeats(ids)
    ensures NoRepeats(ids[1..]) && ids[0] !in ids[1..]
    ensures (set e | e in ids) == {ids[0]} + (set e | e in ids[1..])
    ensures forall e :: e in ids[1..] ==> e in ids
  {
    assert ids == [ids[0]] + ids[1..];
  }

  lemma {:induction false} HandEachKeeps(s: State, ids: seq<EntryId>)
    requires MapInv(s) && ResourceInv(s) && s.entries == []
    requires NoRepeats(ids) && forall e :: e in ids ==> e in s.heap && e !in s.handed
    ensures
      var s' := HandEach(s, ids);
      && MapInv(s') && ResourceInv(s') && s'.entries == [] && s'.max == s.max
      && Unowned(s') == Unowned(s) - (set e | e in ids)
    decreases |ids|
  {
    if ids == [] {
      assert Unowned(s) - (set e | e in ids) == Unowned(s);
    } else {
      HandKeeps(s, ids[0]);
      HandChanges(s, ids[0]);
      FirstAndRest(ids);
      hide MapInv, ResourceInv, Hand, Unowned, NoRepeats;
      HandEachKeeps(Hand(s, ids[0]), ids[1..]);
    }
  }

  lemma ShutdownKeeps(s: State)
    requires Inv(s)
    ensures Inv(Shutdown(s)) && Unowned(Shutdown(s)) == Unowned(s)
  {
    EntriesDistinct(s);
    var cleared := s.(entries := []);
    HandEachKeeps(cleared, s.entries);
    assert Unowned(cleared) - (set e | e in s.entries) == Unowned(s);
  }

  /** Every segment keeps the invariant; what becomes unowned is what a rejection displaces, and what
      stops being so is what is rejected. */
  lemma SegmentKeeps(s: State, step: Step)
    requires Inv(s)
    ensures Inv(Next(s, step))
    ensures Unowned(Next(s, step)) == Unowned(s) + Displaces(s, step) - (if Rejects(s, step) then {step.e} else {})
  {
    if Rejects(s, step) {
      FailureKeeps(s, step.e);
    } else {
      OtherSegmentKeeps(s, step);
    }
  }

  lemma RequestKeeps(s: State, namespace: string, key: string)
    requires Inv(s)
    ensures Inv(GetOrCreate(s, namespace, key)) && Unowned(GetOrCreate(s, namespace, key)) == Unowned(s)
  {
    hide MapInv, ResourceInv, Unowned, Hand, KeyIn;
    var i := IndexOf(s, CacheKey(namespace, key));
    if i < |s.entries| {
      TouchKeeps(s, i);
    } else {
      InsertKeeps(s, namespace, key);
      hide Evict;
      EvictKeeps(Insert(s, namespace, key));
    }
  }

  lemma DeleteKeeps(s: State, namespace: string, key: string)
    requires Inv(s)
    ensures Inv(Delete(s, namespace, key)) && Unowned(Delete(s, namespace, key)) == Unowned(s)
  {
    hide MapInv, ResourceInv, Unowned, KeyIn;
    var i := IndexOf(s, CacheKey(namespace, key));
    if i < |s.entries| { RemoveAndHand(s, i); }
  }

  lemma SettleKeeps(s: State, e: EntryId, outcome: Outcome)
    requires Inv(s) && !Rejects(s, DoSettle(e, outcome))
    ensures Inv(Settle(s, e, outcome)) && Unowned(Settle(s, e, outcome)) == Unowned(s)
  {
    hide Inv, Unowned;
    if e in s.heap && s.heap[e].outcome == Pending && outcome != Pending { SuccessKeeps(s, e, outcome); }
  }

  lemma OtherSegmentKeeps(s: State, step: Step)
    requires Inv(s) && !Rejects(s, step)
    ensures Inv(Next(s, step)) && Unowned(Next(s, step)) == Unowned(s)
  {
    hide Inv, Unowned, GetOrCreate, Evict, Settle, ResumeDestroy, Delete, DeleteMatching, Shutdown;
    match step
    case DoGetOrCreate(namespace, key) => RequestKeeps(s, namespace, key);
    case DoEvict => EvictAgain(s);
    case DoSettle(e, outcome) => SettleKeeps(s, e, outcome);
    case DoResumeDestroy(e) => ResumeKeeps(s, e);
    case DoDelete(namespace, key) => DeleteKeeps(s, namespace, key);
    case DoDeleteByNamespace(namespace) => DeleteMatchingKeeps(s, (entry: Entry) => entry.namespace == namespace);
    case DoDeleteByKey(key) => DeleteMatchingKeeps(s, (entry: Entry) => entry.key == key);
    case DoShutdown => ShutdownKeeps(s);
  }

  lemma EvictAgain(s: State)
    requires Inv(s)
    ensures Inv(Evict(s)) && Unowned(Evict(s)) == Unowned(s)
  {
    EvictKeeps(s);
  }

  lemma {:induction false} DeleteAllShrinks(s: State, victims: seq<EntryId>)
    ensures DeleteAll(s, victims).heap == s.heap
    ensures forall e :: e in DeleteAll(s, victims).entries ==> e in s.entries
    decreases |victims|
  {
    if victims != [] {
      DeleteAllShrinks(Hand(DeleteKey(s, KeyOf(s, victims[0])), victims[0]), victims[1..]);
    }
  }

  lemma {:induction false} HandEachLeavesMap(s: State, ids: seq<EntryId>)
    ensures HandEach(s, ids).entries == s.entries && HandEach(s, ids).heap == s.heap
    decreases |ids|
  {
    if ids != [] { HandEachLeavesMap(Hand(s, ids[0]), ids[1..]); }
  }

  ghost predicate Settles(s: State, step: Step, e: EntryId) {
    step.DoSettle? && step.e == e && e in s.heap && s.heap[e].outcome == Pending
  }

  /** An entry is made once and its creation settles once; nothing else touches it. */
  lemma OutcomeStays(s: State, step: Step, e: EntryId)
    requires Inv(s) && e in s.heap
    ensures e in Next(s, step).heap && (!Settles(s, step, e) ==> Next(s, step).heap[e] == s.heap[e])
    ensures Settles(s, step, e) ==> Next(s, step).heap[e].outcome == step.outcome
  {
    match step
    case DoDeleteByNamespace(namespace) =>
      DeleteAllShrinks(s, Matching(s.heap, (entry: Entry) => entry.namespace == namespace, s.entries));
    case DoDeleteByKey(key) =>
      DeleteAllShrinks(s, Matching(s.heap, (entry: Entry) => entry.key == key, s.entries));
    case DoShutdown => HandEachLeavesMap(s.(entries := []), s.entries);
    case _ =>
  }

  /** Conservation in one segment: with nothing lost, something gets lost exactly by the rejection of a
      creation whose key was given to another entry in the meantime, one with a value or a pending one. */
  lemma SegmentConserves(s: State, step: Step)
    requires Inv(s) && Lost(s) == {}
    ensures Lost(Next(s, step)) == {} <==> !Stray(s, step)
  {
    hide Inv, Next, Displaces, Unowned;
    var s' := Next(s, step);
    SegmentKeeps(s, step);
    UnownedAreMade(s);
    DisplacedAreMade(s, step);
    forall e | e in s.heap
      ensures e in s'.heap && (!Settles(s, step, e) ==> s'.heap[e] == s.heap[e])
      ensures Settles(s, step, e) ==> s'.heap[e].outcome == step.outcome
    {
      OutcomeStays(s, step, e);
    }
    if Stray(s, step) {
      var e :| e in Displaces(s, step) && e in s.heap && s.heap[e].outcome != Nothing;
      assert e in Lost(s');
    } else {
      forall e | e in Unowned(s') ensures s'.heap[e].outcome == Nothing {
        assert e in Unowned(s) || e in Displaces(s, step);
        assert e in Unowned(s) ==> e !in Lost(s);
      }
    }
  }

  lemma UnownedAreMade(s: State)
    ensures forall e :: e in Unowned(s) ==> e in s.heap && s.heap[e].outcome != Failed
  {
  }

  lemma DisplacedAreMade(s: State, step: Step)
    requires Inv(s)
    ensures forall e :: e in Displaces(s, step) ==>
              e in s.heap && s.heap[e].outcome != Failed && step.DoSettle? && e != step.e
  {
  }

  // ---------- whole runs ----------

  function Run(s: State, steps: seq<Step>): State {
    if steps == [] then s else Next(Run(s, steps[..|steps| - 1]), steps[|steps| - 1])
  }

  lemma {:induction false} RunInv(max: nat, steps: seq<Step>)
    requires 1 <= max
    ensures Inv(Run(Initial(max), steps))
  {
    if steps == [] {
      InitialInv(max);
    } else {
      RunInv(max, steps[..|steps| - 1]);
      SegmentKeeps(Run(Initial(max), steps[..|steps| - 1]), steps[|steps| - 1]);
    }
  }

  /** Nothing is lost at any await of the run. */
  ghost predicate AlwaysOwned(s: State, steps: seq<Step>) {
    Lost(Run(s, steps)) == {} && (steps == [] || AlwaysOwned(s, steps[..|steps| - 1]))
  }

  /** No segment of the run is a stray rejection. */
  ghost predicate NeverStray(s: State, steps: seq<Step>) {
    steps == [] || (NeverStray(s, steps[..|steps| - 1]) && !Stray(Run(s, steps[..|steps| - 1]), steps[|steps| - 1]))
  }

  /** Conservation over every interleaving: no resource, present or to come, is ever lost, at any await of
      the run, if and only if no segment is the rejection of a creation whose key another entry has taken,
      unless that one resolved to null. */
  lemma {:induction false} ResourceConservation(max: nat, steps: seq<Step>)
    requires 1 <= max
    ensures AlwaysOwned(Initial(max), steps) <==> NeverStray(Initial(max), steps)
  {
    if steps == [] {
      InitialInv(max);
    } else {
      var before := steps[..|steps| - 1];
      ResourceConservation(max, before);
      RunInv(max, before);
      hide Next, Lost, Stray, Inv, Initial;
      var s := Run(Initial(max), before);
      if Lost(s) == {} { SegmentConserves(s, steps[|steps| - 1]); }
    }
  }

  /** The entries that rejections of a run displaced. */
  function Displaced(s: State, steps: seq<Step>): set<EntryId> {
    if steps == [] then {}
    else Displaced(s, steps[..|steps| - 1]) + Displaces(Run(s, steps[..|steps| - 1]), steps[|steps| - 1])
  }

  /** At the end of a run, the unowned entries are the displaced ones, but for those since rejected. */
  lemma {:induction false} UnownedAreDisplaced(max: nat, steps: seq<Step>)
    requires 1 <= max
    ensures
      var s := Run(Initial(max), steps);
      && (forall e :: e in Displaced(Initial(max), steps) ==> e in s.heap)
      && Unowned(s) == set e | e in Displaced(Initial(max), steps) && e in s.heap && s.heap[e].outcome != Failed
  {
    if steps != [] {
      var before, step := steps[..|steps| - 1], steps[|steps| - 1];
      var s, displaced := Run(Initial(max), before), Displaced(Initial(max), before);
      UnownedAreDisplaced(max, before);
      RunInv(max, before);
      UnownedStep(s, step, displaced);
    }
  }

  lemma UnownedStep(s: State, step: Step, displaced: set<EntryId>)
    requires Inv(s) && forall e :: e in displaced ==> e in s.heap
    requires Unowned(s) == set e | e in displaced && e in s.heap && s.heap[e].outcome != Failed
    ensures
      var s', all := Next(s, step), displaced + Displaces(s, step);
      && (forall e :: e in all ==> e in s'.heap)
      && Unowned(s') == set e | e in all && e in s'.heap && s'.heap[e].outcome != Failed
  {
    hide Inv, Next, Displaces, Unowned, KeyIn;
    var s', all := Next(s, step), displaced + Displaces(s, step);
    SegmentKeeps(s, step);
    DisplacedAreMade(s, step);
    forall e | e in all
      ensures e in s'.heap
      ensures s'.heap[e].outcome != Failed <==> s.heap[e].outcome != Failed && !(Rejects(s, step) && e == step.e)
    {
      OutcomeStays(s, step, e);
    }
  }

  function Count(e: EntryId, a: seq<EntryId>): nat {
    multiset(a)[e]
  }

  lemma {:induction false} CountOnce(e: EntryId, a: seq<EntryId>)
    requires NoRepeats(a)
    ensures Count(e, a) == if e in a then 1 else 0
  {
    if a != [] {
      CountOnce(e, a[1..]);
      assert a == [a[0]] + a[1..];
      assert a[0] !in a[1..];
    }
  }

  /** The fate of every value a run creates: it is in the map and untouched; or it was handed to
      `destroyEntry` exactly once and destroyed exactly once, but for a suspended call that still will; or
      it was displaced by a rejection, and is never destroyed. */
  lemma FateOfValue(max: nat, steps: seq<Step>, e: EntryId)
    requires 1 <= max
    requires var s := Run(Initial(max), steps); e in s.heap && s.heap[e].outcome == Created
    ensures
      var s := Run(Initial(max), steps);
      if e in s.entries || e in Displaced(Initial(max), steps)
      then Count(e, s.handed) == Count(e, s.destroyed) == 0 && (e in s.entries ==> e !in Displaced(Initial(max), steps))
      else Count(e, s.handed) == 1 && Count(e, s.destroyed) + (if e in s.waiting then 1 else 0) == 1
  {
    var s := Run(Initial(max), steps);
    RunInv(max, steps);
    UnownedAreDisplaced(max, steps);
    CountOnce(e, s.handed);
    CountOnce(e, s.destroyed);
    assert e in Displaced(Initial(max), steps) <==> e in Unowned(s);
  }

  /** So a run without stray rejections loses no value: each is in the map or was handed over once. */
  lemma NoStrayNoLoss(max: nat, steps: seq<Step>, e: EntryId)
    requires 1 <= max && NeverStray(Initial(max), steps)
    requires var s := Run(Initial(max), steps); e in s.heap && s.heap[e].outcome == Created
    ensures
      var s := Run(Initial(max), steps);
      if e in s.entries then Count(e, s.handed) == Count(e, s.destroyed) == 0
      else Count(e, s.handed) == 1 && Count(e, s.destroyed) + (if e in s.waiting then 1 else 0) == 1
  {
    ResourceConservation(max, steps);
    FateOfValue(max, steps, e);
    UnownedAreDisplaced(max, steps);
    var s := Run(Initial(max), steps);
    assert e in Displaced(Initial(max), steps) ==> e in Lost(s);
  }

  /** At the end of a run a value is lost if and only if some displaced entry got one. */
  lemma ValuesLostAtEnd(max: nat, steps: seq<Step>)
    requires 1 <= max
    ensures
      var s := Run(Initial(max), steps);
      (exists e :: e in s.heap && s.heap[e].outcome == Created && e !in s.entries && e !in s.handed)
      <==> exists e :: e in Displaced(Initial(max), steps) && e in s.heap && s.heap[e].outcome == Created
  {
    var s := Run(Initial(max), steps);
    UnownedAreDisplaced(max, steps);
    assert forall e :: e in s.heap && s.heap[e].outcome == Created ==>
      (e in Unowned(s) <==> e !in s.entries && e !in s.handed);
  }

  lemma RunSnoc(s: State, steps: seq<Step>, step: Step, before: State, after: State)
    requires Run(s, steps) == before && Next(before, step) == after
    ensures Run(s, steps + [step]) == after
    ensures Stray(before, step) ==> !NeverStray(s, steps + [step])
  {
    assert (steps + [step])[..|steps|] == steps;
  }

  lemma StrayStates(namespace: string, key: string, max: nat)
    requires 1 <= max
    ensures
      var pending := Entry(namespace, key, Pending);
      var s1 := State(max, [0], map[0 := pending], 1, [], {}, []);
      var s2 := State(max, [], map[0 := pending], 1, [0], {0}, []);
      var s3 := State(max, [1], map[0 := pending, 1 := pending], 2, [0], {0}, []);
      && Next(Initial(max), DoGetOrCreate(namespace, key)) == s1
      && Next(s1, DoDelete(namespace, key)) == s2
      && Next(s2, DoGetOrCreate(namespace, key)) == s3
      && Next(s3, DoSettle(1, Created)) == s3.(heap := s3.heap[1 := Entry(namespace, key, Created)])
  {
    var pending := Entry(namespace, key, Pending);
    var s1 := State(max, [0], map[0 := pending], 1, [], {}, []);
    assert IndexOf(Initial(max), CacheKey(namespace, key)) == 0;
    assert KeyOf(s1, s1.entries[0]) == CacheKey(namespace, key) && IndexOf(s1, CacheKey(namespace, key)) == 0;
    assert Without(s1.entries, 0) == [];
  }

  /** Such runs exist: a key is deleted while its first creation is pending, created again, and the first
      creation rejects. The value of the second creation is then lost. */
  lemma StrayRejectionLosesValue(namespace: string, key: string, max: nat) returns (steps: seq<Step>)
    requires 1 <= max
    ensures !NeverStray(Initial(max), steps)
    ensures
      var s := Run(Initial(max), steps);
      1 in s.heap && s.heap[1].outcome == Created && 1 !in s.entries && 1 !in s.handed
  {
    StrayStates(namespace, key, max);
    assert Run(Initial(max), []) == Initial(max);
    hide Run, Next, Displaces, NeverStray, Initial;
    var pending := Entry(namespace, key, Pending);
    var s1 := State(max, [0], map[0 := pending], 1, [], {}, []);
    var s2 := State(max, [], map[0 := pending], 1, [0], {0}, []);
    var s3 := State(max, [1], map[0 := pending, 1 := pending], 2, [0], {0}, []);
    var s4 := s3.(heap := s3.heap[1 := Entry(namespace, key, Created)]);
    steps := [];
    RunSnoc(Initial(max), steps, DoGetOrCreate(namespace, key), Initial(max), s1);
    steps := steps + [DoGetOrCreate(namespace, key)];
    RunSnoc(Initial(max), steps, DoDelete(namespace, key), s1, s2);
    steps := steps + [DoDelete(namespace, key)];
    RunSnoc(Initial(max), steps, DoGetOrCreate(namespace, key), s2, s3);
    steps := steps + [DoGetOrCreate(namespace, key)];
    RunSnoc(Initial(max), steps, DoSettle(1, Created), s3, s4);
    steps := steps + [DoSettle(1, Created)];
    DisplacedByStray(s4, namespace, key);
    RunSnoc(Initial(max), steps, DoSettle(0, Failed), s4, Next(s4, DoSettle(0, Failed)));
    steps := steps + [DoSettle(0, Failed)];
  }

  lemma DisplacedByStray(s: State, namespace: string, key: string)
    requires s.entries == [1] && 0 in s.heap && 1 in s.heap
    requires s.heap[0] == Entry(namespace, key, Pending) && s.heap[1] == Entry(namespace, key, Created)
    ensures 1 in Displaces(s, DoSettle(0, Failed)) && Next(s, DoSettle(0, Failed)).entries == []
    ensures
      var s' := Next(s, DoSettle(0, Failed));
      s'.heap == s.heap[0 := Entry(namespace, key, Failed)] && s'.handed == s.handed
  {
    var settled := s.(heap := s.heap[0 := Entry(namespace, key, Failed)]);
    assert KeyOf(s, s.entries[0]) == KeyOf(s, 0) && IndexOf(s, KeyOf(s, 0)) == 0;
    assert KeyOf(settled, s.entries[0]) == KeyOf(s, 0) && IndexOf(settled, KeyOf(s, 0)) == 0;
    assert Without(s.entries, 0) == [];
  }
}
