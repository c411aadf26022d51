/** The cache as a bounded LRU with one creation per key. */
module RuntimeCacheRecency {
  import opened RuntimeCache
  import opened RuntimeCacheResources

  // ---------- recency ----------

  /** The step is a request for a cache key. */
  predicate Asks(step: Step, cacheKey: string) {
    step.DoGetOrCreate? && step.namespace + ":" + step.key == cacheKey
  }

  /** When a cache key was last asked for in a run: the position of the last such request, -1 for none. */
  function LastAsked(steps: seq<Step>, cacheKey: string): int {
    if steps == [] then -1
    else if Asks(steps[|steps| - 1], cacheKey) then |steps| - 1
    else LastAsked(steps[..|steps| - 1], cacheKey)
  }

  lemma {:induction false} LastAskedBefore(steps: seq<Step>, cacheKey: string)
    ensures LastAsked(steps, cacheKey) < |steps|
  {
    if steps != [] { LastAskedBefore(steps[..|steps| - 1], cacheKey); }
  }

  lemma LastAskedSnoc(steps: seq<Step>, step: Step, cacheKey: string)
    ensures LastAsked(steps + [step], cacheKey) == if Asks(step, cacheKey) then |steps| else LastAsked(steps, cacheKey)
  {
    assert (steps + [step])[..|steps|] == steps;
  }

  /** The entries are in the order in which their keys were last asked for. */
  ghost predicate Rising(steps: seq<Step>, heap: map<EntryId, Entry>, entries: seq<EntryId>) {
    forall i, j :: 0 <= i < j < |entries| ==>
      LastAsked(steps, KeyIn(heap, entries[i])) < LastAsked(steps, KeyIn(heap, entries[j]))
  }

  lemma RisingWithout(steps: seq<Step>, heap: map<EntryId, Entry>, entries: seq<EntryId>, i: nat)
    requires Rising(steps, heap, entries) && i < |entries|
    ensures Rising(steps, heap, Without(entries, i))
  {
    hide LastAsked, KeyIn;
    var kept := Without(entries, i);
    forall j, k | 0 <= j < k < |kept|
      ensures LastAsked(steps, KeyIn(heap, kept[j])) < LastAsked(steps, KeyIn(heap, kept[k]))
    {
      assert kept[j] == entries[if j < i then j else j + 1] && kept[k] == entries[if k < i then k else k + 1];
    }
  }

  /** What one more step changes: the keys it asks for. */
  lemma RisingAfter(steps: seq<Step>, step: Step, heap: map<EntryId, Entry>, heap': map<EntryId, Entry>,
      entries: seq<EntryId>)
    requires Rising(steps, heap, entries)
    requires forall e :: e in entries ==> KeyIn(heap', e) == KeyIn(heap, e) && !Asks(step, KeyIn(heap, e))
    ensures Rising(steps + [step], heap', entries)
  {
    hide LastAsked, KeyIn, Asks;
    forall e | e in entries
      ensures LastAsked(steps + [step], KeyIn(heap', e)) == LastAsked(steps, KeyIn(heap, e))
    {
      LastAskedSnoc(steps, step, KeyIn(heap, e));
    }
  }

  /** An entry just asked for goes last. */
  lemma RisingAppend(steps: seq<Step>, step: Step, heap: map<EntryId, Entry>, entries: seq<EntryId>, e: EntryId)
    requires Rising(steps + [step], heap, entries) && Asks(step, KeyIn(heap, e))
    requires forall x :: x in entries ==> !Asks(step, KeyIn(heap, x))
    ensures Rising(steps + [step], heap, entries + [e])
  {
    hide LastAsked, KeyIn, Asks;
    LastAskedSnoc(steps, step, KeyIn(heap, e));
    forall x | x in entries ensures LastAsked(steps + [step], KeyIn(heap, x)) < |steps| {
      LastAskedSnoc(steps, step, KeyIn(heap, x));
      LastAskedBefore(steps, KeyIn(heap, x));
    }
  }

  lemma RisingTouch(s: State, steps: seq<Step>, namespace: string, key: string)
    requires MapInv(s) && Rising(steps, s.heap, s.entries) && Holds(s, CacheKey(namespace, key))
    ensures
      var s' := GetOrCreate(s, namespace, key);
      Rising(steps + [DoGetOrCreate(namespace, key)], s'.heap, s'.entries)
  {
    var step, i := DoGetOrCreate(namespace, key), IndexOf(s, CacheKey(namespace, key));
    var kept, e := Without(s.entries, i), s.entries[i];
    OtherKeys(s, i);
    assert KeyOf(s, e) == CacheKey(namespace, key) && Asks(step, KeyIn(s.heap, e));
    forall x | x in kept ensures !Asks(step, KeyIn(s.heap, x)) {
      var j :| 0 <= j < |kept| && kept[j] == x;
      assert KeyOf(s, kept[j]) != KeyOf(s, e);
    }
    assert GetOrCreate(s, namespace, key) == s.(entries := kept + [e]);
    hide *;
    RisingWithout(steps, s.heap, s.entries, i);
    RisingAfter(steps, step, s.heap, s.heap, kept);
    RisingAppend(steps, step, s.heap, kept, e);
  }

  lemma RisingInsert(s: State, steps: seq<Step>, namespace: string, key: string)
    requires MapInv(s) && Rising(steps, s.heap, s.entries) && !Holds(s, CacheKey(namespace, key))
    ensures
      var inserted := Insert(s, namespace, key);
      Rising(steps + [DoGetOrCreate(namespace, key)], inserted.heap, inserted.entries)
  {
    var step, inserted := DoGetOrCreate(namespace, key), Insert(s, namespace, key);
    forall x | x in s.entries ensures KeyIn(inserted.heap, x) == KeyIn(s.heap, x) && !Asks(step, KeyIn(s.heap, x)) {
      var j :| 0 <= j < |s.entries| && s.entries[j] == x;
      assert KeyOf(s, s.entries[j]) != CacheKey(namespace, key);
    }
    assert Asks(step, KeyIn(inserted.heap, s.next));
    hide LastAsked, KeyIn, Asks, Rising, MapInv, Holds;
    RisingAfter(steps, step, s.heap, inserted.heap, s.entries);
    RisingAppend(steps, step, inserted.heap, s.entries, s.next);
  }

  lemma RisingEvict(s: State, steps: seq<Step>)
    requires Rising(steps, s.heap, s.entries)
    ensures Rising(steps, Evict(s).heap, Evict(s).entries)
  {
    if |s.entries| > s.max {
      RisingWithout(steps, s.heap, s.entries, 0);
      assert Without(s.entries, 0) == s.entries[1..];
    }
  }

  lemma {:induction false} RisingDeleteAll(s: State, steps: seq<Step>, victims: seq<EntryId>)
    requires Rising(steps, s.heap, s.entries)
    ensures Rising(steps, DeleteAll(s, victims).heap, DeleteAll(s, victims).entries)
    decreases |victims|
  {
    if victims != [] {
      var dropped := DeleteKey(s, KeyOf(s, victims[0]));
      var i := IndexOf(s, KeyOf(s, victims[0]));
      if i < |s.entries| { RisingWithout(steps, s.heap, s.entries, i); }
      hide Rising;
      RisingDeleteAll(Hand(dropped, victims[0]), steps, victims[1..]);
    }
  }

  lemma RisingSettle(s: State, steps: seq<Step>, e: EntryId, outcome: Outcome)
    requires Rising(steps, s.heap, s.entries)
    ensures Rising(steps, Settle(s, e, outcome).heap, Settle(s, e, outcome).entries)
  {
    var s' := Settle(s, e, outcome);
    forall x ensures KeyIn(s'.heap, x) == KeyIn(s.heap, x) {
    }
    if s'.entries != s.entries {
      var settled := s.(heap := s'.heap);
      RisingWithout(steps, s.heap, s.entries, IndexOf(settled, KeyOf(s, e)));
    }
    hide LastAsked, KeyIn, IndexOf;
  }

  lemma RisingDelete(s: State, steps: seq<Step>, namespace: string, key: string)
    requires Rising(steps, s.heap, s.entries)
    ensures Rising(steps, Delete(s, namespace, key).heap, Delete(s, namespace, key).entries)
  {
    hide Rising;
    var i := IndexOf(s, CacheKey(namespace, key));
    if i < |s.entries| { RisingWithout(steps, s.heap, s.entries, i); }
  }

  lemma RisingShutdown(s: State, steps: seq<Step>)
    ensures Rising(steps, Shutdown(s).heap, Shutdown(s).entries)
  {
    HandEachLeavesMap(s.(entries := []), s.entries);
    hide LastAsked, KeyIn;
  }

  /** A step that asks for nothing keeps the order. */
  lemma OthersKeepRising(s: State, steps: seq<Step>, step: Step)
    requires Rising(steps, s.heap, s.entries) && !step.DoGetOrCreate?
    ensures Rising(steps, Next(s, step).heap, Next(s, step).entries)
  {
    hide Rising, Evict, Settle, Delete, DeleteAll, Shutdown, Matching;
    match step
    case DoEvict => RisingEvict(s, steps);
    case DoSettle(e, outcome) => RisingSettle(s, steps, e, outcome);
    case DoResumeDestroy(e) =>
    case DoDelete(namespace, key) => RisingDelete(s, steps, namespace, key);
    case DoDeleteByNamespace(namespace) =>
      RisingDeleteAll(s, steps, Matching(s.heap, (entry: Entry) => entry.namespace == namespace, s.entries));
    case DoDeleteByKey(key) =>
      RisingDeleteAll(s, steps, Matching(s.heap, (entry: Entry) => entry.key == key, s.entries));
    case DoShutdown => RisingShutdown(s, steps);
  }

  lemma StepKeepsRising(s: State, steps: seq<Step>, step: Step)
    requires Inv(s) && Rising(steps, s.heap, s.entries)
    ensures Rising(steps + [step], Next(s, step).heap, Next(s, step).entries)
  {
    var s' := Next(s, step);
    if step.DoGetOrCreate? {
      hide Rising, Asks, LastAsked, MapInv, ResourceInv, Touch, Insert, Evict;
      if Holds(s, CacheKey(step.namespace, step.key)) {
        RisingTouch(s, steps, step.namespace, step.key);
      } else {
        RisingInsert(s, steps, step.namespace, step.key);
        RisingEvict(Insert(s, step.namespace, step.key), steps + [step]);
      }
    } else {
      OthersKeepRising(s, steps, step);
      hide Next, Rising, LastAsked;
      RisingAfter(steps, step, s'.heap, s'.heap, s'.entries);
    }
  }

  /** At every await of every run the entries of the map are in the order of their keys' last requests. */
  lemma {:induction false} RecencyOrder(max: nat, steps: seq<Step>)
    requires 1 <= max
    ensures var s := Run(Initial(max), steps); Rising(steps, s.heap, s.entries)
  {
    if steps != [] {
      var before, step := steps[..|steps| - 1], steps[|steps| - 1];
      RecencyOrder(max, before);
      RunInv(max, before);
      hide Inv, Next, Rising;
      StepKeepsRising(Run(Initial(max), before), before, step);
      assert steps == before + [step];
    }
  }

  /** A request for a key in the map takes nothing out of it, hands nothing over and makes nothing. */
  lemma RequestKeepsEntries(s: State, namespace: string, key: string)
    requires Inv(s) && exists e :: e in s.entries && KeyIn(s.heap, e) == namespace + ":" + key
    ensures
      var s' := GetOrCreate(s, namespace, key);
      && (forall e :: e in s'.entries <==> e in s.entries) && |s'.entries| == |s.entries|
      && s'.heap == s.heap && s'.handed == s.handed && s'.waiting == s.waiting && s'.destroyed == s.destroyed
  {
    var e :| e in s.entries && KeyIn(s.heap, e) == namespace + ":" + key;
    IndexOfEntry(s, e);
    TouchMembers(s, IndexOf(s, KeyOf(s, e)));
  }

  /** A request for an absent key, in any run: the new entry is the last of the map, and when the map is full,
      the entry whose key was asked for longest ago is handed over, and no other one leaves. */
  lemma EvictsLeastRecent(max: nat, steps: seq<Step>, namespace: string, key: string)
    requires 1 <= max
    requires var s := Run(Initial(max), steps);
             forall e :: e in s.entries ==> KeyIn(s.heap, e) != namespace + ":" + key
    ensures
      var s := Run(Initial(max), steps);
      var s' := GetOrCreate(s, namespace, key);
      && |s'.entries| <= max && s'.entries != [] && s'.entries[|s'.entries| - 1] == s.next
      && s'.heap == s.heap[s.next := Entry(namespace, key, Pending)]
      && (if |s.entries| < max then s'.handed == s.handed && s'.entries == s.entries + [s.next]
          else exists v ::
            && v in s.entries && s'.handed == s.handed + [v]
            && (forall e :: e in s.entries && e != v ==>
                  LastAsked(steps, KeyIn(s.heap, v)) < LastAsked(steps, KeyIn(s.heap, e)))
            && (forall e :: e in s'.entries <==> e == s.next || (e in s.entries && e != v)))
  {
    var s := Run(Initial(max), steps);
    RunInv(max, steps);
    RunKeepsMax(max, steps);
    RecencyOrder(max, steps);
    hide Run;
    AbsentIsNotHeld(s, namespace + ":" + key);
    if |s.entries| == max { OldestIsHanded(s, steps, namespace, key); }
  }

  lemma AbsentIsNotHeld(s: State, cacheKey: string)
    requires forall e :: e in s.entries ==> KeyIn(s.heap, e) != cacheKey
    ensures !Holds(s, cacheKey)
  {
  }

  lemma {:induction false} RunKeepsMax(max: nat, steps: seq<Step>)
    ensures Run(Initial(max), steps).max == max
  {
    if steps != [] {
      RunKeepsMax(max, steps[..|steps| - 1]);
      hide Run, Initial;
      StepKeepsMax(Run(Initial(max), steps[..|steps| - 1]), steps[|steps| - 1]);
    }
  }

  lemma OldestIsHanded(s: State, steps: seq<Step>, namespace: string, key: string)
    requires Inv(s) && Rising(steps, s.heap, s.entries) && !Holds(s, CacheKey(namespace, key)) && |s.entries| == s.max
    ensures
      var s' := GetOrCreate(s, namespace, key);
      && s.entries != [] && s'.handed == s.handed + [s.entries[0]]
      && s'.entries == s.entries[1..] + [s.next] && s.entries[0] !in s.entries[1..]
      && s'.heap == s.heap[s.next := Entry(namespace, key, Pending)]
      && forall e :: e in s.entries && e != s.entries[0] ==>
           LastAsked(steps, KeyIn(s.heap, s.entries[0])) < LastAsked(steps, KeyIn(s.heap, e))
  {
    hide LastAsked, KeyIn;
    EntriesDistinct(s);
    assert (s.entries + [s.next])[1..] == s.entries[1..] + [s.next];
  }

  lemma StepKeepsMax(s: State, step: Step)
    ensures Next(s, step).max == s.max
  {
    match step
    case DoDeleteByNamespace(namespace) =>
      DeleteAllKeepsMax(s, Matching(s.heap, (entry: Entry) => entry.namespace == namespace, s.entries));
    case DoDeleteByKey(key) =>
      DeleteAllKeepsMax(s, Matching(s.heap, (entry: Entry) => entry.key == key, s.entries));
    case DoShutdown => HandEachKeepsMax(s.(entries := []), s.entries);
    case _ =>
  }

  lemma {:induction false} DeleteAllKeepsMax(s: State, victims: seq<EntryId>)
    ensures DeleteAll(s, victims).max == s.max
    decreases |victims|
  {
    if victims != [] { DeleteAllKeepsMax(Hand(DeleteKey(s, KeyOf(s, victims[0])), victims[0]), victims[1..]); }
  }

  lemma {:induction false} HandEachKeepsMax(s: State, ids: seq<EntryId>)
    ensures HandEach(s, ids).max == s.max
    decreases |ids|
  {
    if ids != [] { HandEachKeepsMax(Hand(s, ids[0]), ids[1..]); }
  }

  // ---------- one creation per key ----------

  lemma TouchedKeys(s: State, i: nat, e: EntryId)
    requires MapInv(s) && i < |s.entries| && e in Touch(s, i).entries
    ensures e in s.entries && KeyOf(Touch(s, i), e) == KeyOf(s, e)
  {
    TouchMembers(s, i);
    hide MapInv, Without;
  }

  lemma InsertedKeys(s: State, namespace: string, key: string, e: EntryId)
    requires Inv(s) && e in Evict(Insert(s, namespace, key)).entries
    ensures
      var s' := Evict(Insert(s, namespace, key));
      || (e in s.entries && KeyOf(s', e) == KeyOf(s, e))
      || (e == s.next && KeyOf(s', e) == CacheKey(namespace, key))
  {
    assert e in Insert(s, namespace, key).entries;
    hide NoRepeats;
  }

  lemma RequestEntries(s: State, namespace: string, key: string, e: EntryId)
    requires Inv(s) && e in GetOrCreate(s, namespace, key).entries
    ensures
      var s' := GetOrCreate(s, namespace, key);
      || (e in s.entries && KeyOf(s', e) == KeyOf(s, e))
      || (e == s.next && KeyOf(s', e) == CacheKey(namespace, key) && !Holds(s, CacheKey(namespace, key)))
  {
    hide Touch, Insert, Evict, KeyIn, MapInv, ResourceInv;
    var i := IndexOf(s, CacheKey(namespace, key));
    if i < |s.entries| { TouchedKeys(s, i, e); } else { InsertedKeys(s, namespace, key, e); }
  }

  lemma SettledEntries(s: State, settled: EntryId, outcome: Outcome, e: EntryId)
    requires e in Settle(s, settled, outcome).entries
    ensures e in s.entries && KeyOf(Settle(s, settled, outcome), e) == KeyOf(s, e)
  {
  }

  lemma OtherEntries(s: State, step: Step, e: EntryId)
    requires Inv(s) && !step.DoGetOrCreate? && e in Next(s, step).entries
    ensures e in s.entries && KeyOf(Next(s, step), e) == KeyOf(s, e)
  {
    match step
    case DoEvict =>
    case DoSettle(settled, outcome) => SettledEntries(s, settled, outcome, e);
    case DoResumeDestroy(_) =>
    case DoDelete(_, _) =>
    case DoDeleteByNamespace(namespace) =>
      DeleteAllShrinks(s, Matching(s.heap, (entry: Entry) => entry.namespace == namespace, s.entries));
    case DoDeleteByKey(key) =>
      DeleteAllShrinks(s, Matching(s.heap, (entry: Entry) => entry.key == key, s.entries));
    case DoShutdown =>
      HandEachLeavesMap(s.(entries := []), s.entries);
  }

  /** A key that stays in the map stays with its entry: only a request for an absent key brings an entry
      in. */
  lemma KeyKeepsEntry(s: State, step: Step, cacheKey: string)
    requires Inv(s) && Holds(s, cacheKey) && Holds(Next(s, step), cacheKey)
    ensures
      var s' := Next(s, step);
      s'.entries[IndexOf(s', cacheKey)] == s.entries[IndexOf(s, cacheKey)]
  {
    var s' := Next(s, step);
    var e := s'.entries[IndexOf(s', cacheKey)];
    if step.DoGetOrCreate? { RequestEntries(s, step.namespace, step.key, e); } else { OtherEntries(s, step, e); }
    IndexOfEntry(s, e);
  }

  ghost predicate HeldThroughout(s: State, steps: seq<Step>, cacheKey: string) {
    Holds(Run(s, steps), cacheKey) && (steps == [] || HeldThroughout(s, steps[..|steps| - 1], cacheKey))
  }

  lemma HeldCreatesNothing(s: State, namespace: string, key: string)
    requires Holds(s, CacheKey(namespace, key))
    ensures GetOrCreate(s, namespace, key).heap == s.heap
  {
  }

  /** Single flight: requests for a key that stays in the map meet the same entry, so they share its one
      creation, and none of them starts another. */
  lemma {:induction false} SingleFlight(s: State, steps: seq<Step>, namespace: string, key: string)
    requires Inv(s) && Holds(s, CacheKey(namespace, key))
    requires HeldThroughout(s, steps, CacheKey(namespace, key))
    ensures
      var s', k := Run(s, steps), CacheKey(namespace, key);
      && Inv(s') && Holds(s', k)
      && s'.entries[IndexOf(s', k)] == s.entries[IndexOf(s, k)]
      && GetOrCreate(s', namespace, key).heap == s'.heap
  {
    HeldCreatesNothing(Run(s, steps), namespace, key);
    if steps != [] {
      hide Next, Inv, GetOrCreate, Holds;
      var before := steps[..|steps| - 1];
      SingleFlight(s, before, namespace, key);
      SegmentKeeps(Run(s, before), steps[|steps| - 1]);
      KeyKeepsEntry(Run(s, before), steps[|steps| - 1], CacheKey(namespace, key));
    }
  }
}
