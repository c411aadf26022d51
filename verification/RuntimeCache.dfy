/** The cache of live data-database resources. Between two awaits nothing else runs, so each such
    segment is one atomic step; `State` is what the segments read and write. */
module RuntimeCache {
  import opened Wrappers

  type EntryId = nat

  /** How the creation of an entry stands; `Nothing` is a creation that resolved to null. */
  datatype Outcome = Pending | Created | Nothing | Failed

  datatype Entry = Entry(namespace: string, key: string, outcome: Outcome)

  function CacheKey(namespace: string, key: string): string {
    namespace + ":" + key
  }

  /** `entries` is the insertion-ordered map, by the entries it holds; `heap` holds every entry ever
      made; `handed` lists the calls of `destroyEntry`, `waiting` those of them suspended on the entry's
      promise, `destroyed` the calls of the resource's own destroy function. */
  datatype State = State(
    max: nat,
    entries: seq<EntryId>,
    heap: map<EntryId, Entry>,
    next: EntryId,
    handed: seq<EntryId>,
    waiting: set<EntryId>,
    destroyed: seq<EntryId>)

  /** The cache key an entry is filed under. */
  function KeyIn(heap: map<EntryId, Entry>, e: EntryId): string {
    if e in heap then CacheKey(heap[e].namespace, heap[e].key) else ""
  }

  function KeyOf(s: State, e: EntryId): string {
    KeyIn(s.heap, e)
  }

  /** The place of a cache key in the map, or the size of the map when it is absent. */
  function IndexOf(s: State, cacheKey: string): (i: nat)
    ensures i <= |s.entries|
    ensures i < |s.entries| ==> KeyOf(s, s.entries[i]) == cacheKey
    ensures forall j :: 0 <= j < i ==> KeyOf(s, s.entries[j]) != cacheKey
  {
    IndexFrom(s, cacheKey, 0)
  }

  function IndexFrom(s: State, cacheKey: string, from: nat): (i: nat)
    requires from <= |s.entries|
    ensures from <= i <= |s.entries|
    ensures i < |s.entries| ==> KeyOf(s, s.entries[i]) == cacheKey
    ensures forall j :: from <= j < i ==> KeyOf(s, s.entries[j]) != cacheKey
    decreases |s.entries| - from
  {
    if from == |s.entries| || KeyOf(s, s.entries[from]) == cacheKey then from
    else IndexFrom(s, cacheKey, from + 1)
  }

  predicate Holds(s: State, cacheKey: string) {
    IndexOf(s, cacheKey) < |s.entries|
  }

  function Without<T>(a: seq<T>, i: nat): seq<T>
    requires i < |a|
  {
    a[..i] + a[i + 1..]
  }

  // ---------- the segments ----------

  /** `destroyEntry` up to its first await: an entry that holds its value is destroyed at once, any
      other one when its promise has settled. */
  function Hand(s: State, e: EntryId): State {
    if e in s.heap && s.heap[e].outcome == Created
    then s.(handed := s.handed + [e], destroyed := s.destroyed + [e])
    else s.(handed := s.handed + [e], waiting := s.waiting + {e})
  }

  /** `this.entries.delete(cacheKey)`. */
  function DeleteKey(s: State, cacheKey: string): State {
    if Holds(s, cacheKey) then s.(entries := Without(s.entries, IndexOf(s, cacheKey))) else s
  }

  /** One turn of the eviction loop, which the await on `destroyEntry` ends. */
  function Evict(s: State): State {
    if |s.entries| > s.max then Hand(s.(entries := s.entries[1..]), s.entries[0]) else s
  }

  function Insert(s: State, namespace: string, key: string): State {
    s.(entries := s.entries + [s.next], heap := s.heap[s.next := Entry(namespace, key, Pending)], next := s.next + 1)
  }

  /** Delete and set again: the entry becomes the newest. */
  function Touch(s: State, i: nat): State
    requires i < |s.entries|
  {
    s.(entries := Without(s.entries, i) + [s.entries[i]])
  }

  function GetOrCreate(s: State, namespace: string, key: string): State {
    var i := IndexOf(s, CacheKey(namespace, key));
    if i < |s.entries| then Touch(s, i) else Evict(Insert(s, namespace, key))
  }

  /** The creation of `e` settles. A rejected one drops its cache key, whatever entry is there. */
  function Settle(s: State, e: EntryId, outcome: Outcome): State {
    if e !in s.heap || s.heap[e].outcome != Pending || outcome == Pending then s
    else
      var settled := s.(heap := s.heap[e := s.heap[e].(outcome := outcome)]);
      if outcome == Failed then DeleteKey(settled, KeyOf(s, e)) else settled
  }

  /** A suspended `destroyEntry` goes on once the promise has settled. */
  function ResumeDestroy(s: State, e: EntryId): State {
    if e !in s.waiting || e !in s.heap || s.heap[e].outcome == Pending then s
    else if s.heap[e].outcome == Created then s.(waiting := s.waiting - {e}, destroyed := s.destroyed + [e])
    else s.(waiting := s.waiting - {e})
  }

  function Delete(s: State, namespace: string, key: string): State {
    var i := IndexOf(s, CacheKey(namespace, key));
    if i < |s.entries| then Hand(s.(entries := Without(s.entries, i)), s.entries[i]) else s
  }

  /** The bulk deletes: each listed entry's key is deleted and the entry handed to `destroyEntry`. */
  function DeleteAll(s: State, victims: seq<EntryId>): State
    decreases |victims|
  {
    if victims == [] then s
    else DeleteAll(Hand(DeleteKey(s, KeyOf(s, victims[0])), victims[0]), victims[1..])
  }

  function Matching(heap: map<EntryId, Entry>, p: Entry -> bool, ids: seq<EntryId>): seq<EntryId> {
    if ids == [] then []
    else (if ids[0] in heap && p(heap[ids[0]]) then [ids[0]] else []) + Matching(heap, p, ids[1..])
  }

  function DeleteMatching(s: State, p: Entry -> bool): State {
    DeleteAll(s, Matching(s.heap, p, s.entries))
  }

  function HandEach(s: State, ids: seq<EntryId>): State
    decreases |ids|
  {
    if ids == [] then s else HandEach(Hand(s, ids[0]), ids[1..])
  }

  function Shutdown(s: State): State {
    HandEach(s.(entries := []), s.entries)
  }

  datatype Step =
    | DoGetOrCreate(namespace: string, key: string)
    | DoEvict
    | DoSettle(e: EntryId, outcome: Outcome)
    | DoResumeDestroy(e: EntryId)
    | DoDelete(namespace: string, key: string)
    | DoDeleteByNamespace(namespace: string)
    | DoDeleteByKey(key: string)
    | DoShutdown

  function Next(s: State, step: Step): State {
    match step
    case DoGetOrCreate(namespace, key) => GetOrCreate(s, namespace, key)
    case DoEvict => Evict(s)
    case DoSettle(e, outcome) => Settle(s, e, outcome)
    case DoResumeDestroy(e) => ResumeDestroy(s, e)
    case DoDelete(namespace, key) => Delete(s, namespace, key)
    case DoDeleteByNamespace(namespace) => DeleteMatching(s, (entry: Entry) => entry.namespace == namespace)
    case DoDeleteByKey(key) => DeleteMatching(s, (entry: Entry) => entry.key == key)
    case DoShutdown => Shutdown(s)
  }

  function Initial(max: nat): State {
    State(max, [], map[], 0, [], {}, [])
  }

  // ---------- the service ----------

  class DataDbRuntimeCacheService {
    const maxEntries: nat
    var entries: seq<EntryId>
    var heap: map<EntryId, Entry>
    var next: EntryId
    var handed: seq<EntryId>
    var waiting: set<EntryId>
    var destroyed: seq<EntryId>

    ghost function Abs(): State
      reads this
    {
      State(maxEntries, entries, heap, next, handed, waiting, destroyed)
    }

    constructor (max: nat)
      ensures Abs() == Initial(max)
    {
      maxEntries := max;
      entries, heap, next, handed, waiting, destroyed := [], map[], 0, [], {}, [];
    }

    method Find(cacheKey: string) returns (i: nat)
      ensures i == IndexOf(Abs(), cacheKey)
    {
      i := 0;
      while i < |entries| && KeyIn(heap, entries[i]) != cacheKey
        invariant i <= |entries|
        invariant IndexFrom(Abs(), cacheKey, i) == IndexOf(Abs(), cacheKey)
      {
        i := i + 1;
      }
    }

    method DestroyEntry(e: EntryId)
      modifies this`handed, this`waiting, this`destroyed
      ensures Abs() == Hand(old(Abs()), e)
    {
      handed := handed + [e];
      if e in heap && heap[e].outcome == Created {
        destroyed := destroyed + [e];
      } else {
        waiting := waiting + {e};
      }
    }

    method EvictIfNeeded()
      modifies this`entries, this`handed, this`waiting, this`destroyed
      ensures Abs() == Evict(old(Abs()))
    {
      if |entries| > maxEntries {
        var oldest := entries[0];
        entries := entries[1..];
        DestroyEntry(oldest);
      }
    }

    method GetOrCreate(namespace: string, key: string) returns (e: EntryId)
      modifies this
      ensures Abs() == Next(old(Abs()), DoGetOrCreate(namespace, key))
      ensures var i := IndexOf(old(Abs()), CacheKey(namespace, key));
              if i < |old(entries)| then e == old(entries)[i] && heap == old(heap) else e == old(next)
    {
      var i := Find(CacheKey(namespace, key));
      if i < |entries| {
        e := entries[i];
        entries := Without(entries, i) + [e];
      } else {
        e := next;
        heap, next := heap[e := Entry(namespace, key, Pending)], next + 1;
        entries := entries + [e];
        assert Abs() == Insert(old(Abs()), namespace, key);
        EvictIfNeeded();
      }
    }

    method SettleCreate(e: EntryId, outcome: Outcome)
      requires e in heap && heap[e].outcome == Pending && outcome != Pending
      modifies this`heap, this`entries
      ensures Abs() == Next(old(Abs()), DoSettle(e, outcome))
    {
      var cacheKey := KeyIn(heap, e);
      heap := heap[e := heap[e].(outcome := outcome)];
      if outcome == Failed {
        RemoveKey(cacheKey);
      }
    }

    method RemoveKey(cacheKey: string)
      modifies this`entries
      ensures Abs() == DeleteKey(old(Abs()), cacheKey)
    {
      var i := Find(cacheKey);
      if i < |entries| {
        entries := Without(entries, i);
      }
    }

    method ResumeDestroyEntry(e: EntryId)
      requires e in waiting && e in heap && heap[e].outcome != Pending
      modifies this`waiting, this`destroyed
      ensures Abs() == Next(old(Abs()), DoResumeDestroy(e))
    {
      waiting := waiting - {e};
      if heap[e].outcome == Created {
        destroyed := destroyed + [e];
      }
    }

    method Delete(namespace: string, key: string)
      modifies this`entries, this`handed, this`waiting, this`destroyed
      ensures Abs() == Next(old(Abs()), DoDelete(namespace, key))
    {
      var i := Find(CacheKey(namespace, key));
      if i < |entries| {
        var e := entries[i];
        entries := Without(entries, i);
        DestroyEntry(e);
      }
    }

    method DeleteListed(victims: seq<EntryId>)
      modifies this`entries, this`handed, this`waiting, this`destroyed
      ensures Abs() == DeleteAll(old(Abs()), victims)
    {
      for i := 0 to |victims|
        invariant heap == old(heap) && next == old(next)
        invariant DeleteAll(Abs(), victims[i..]) == DeleteAll(old(Abs()), victims)
      {
        assert victims[i..][1..] == victims[i + 1..];
        var e := victims[i];
        RemoveKey(KeyIn(heap, e));
        DestroyEntry(e);
      }
    }

    method DeleteByNamespace(namespace: string)
      modifies this`entries, this`handed, this`waiting, this`destroyed
      ensures Abs() == Next(old(Abs()), DoDeleteByNamespace(namespace))
    {
      DeleteListed(Matching(heap, (entry: Entry) => entry.namespace == namespace, entries));
    }

    method DeleteByKey(key: string)
      modifies this`entries, this`handed, this`waiting, this`destroyed
      ensures Abs() == Next(old(Abs()), DoDeleteByKey(key))
    {
      DeleteListed(Matching(heap, (entry: Entry) => entry.key == key, entries));
    }

    method OnModuleDestroy()
      modifies this`entries, this`handed, this`waiting, this`destroyed
      ensures Abs() == Next(old(Abs()), DoShutdown)
    {
      var all := entries;
      entries := [];
      ghost var cleared := Abs();
      for i := 0 to |all|
        invariant heap == old(heap) && next == old(next)
        invariant HandEach(Abs(), all[i..]) == HandEach(cleared, all)
      {
        assert all[i..][1..] == all[i + 1..];
        DestroyEntry(all[i]);
      }
    }
  }
}
