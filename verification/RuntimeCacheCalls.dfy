/** What each call does to the map and to the resources, told entry by entry. */
module RuntimeCacheCalls {
  import opened RuntimeCache
  import opened RuntimeCacheResources

  // ---------- cache keys ----------

  /** Two requests share a cache key exactly when they are the same, or one namespace goes on with what the
      other key begins with. */
  lemma CacheKeysMeet(a: string, k: string, b: string, l: string)
    requires |a| <= |b|
    ensures CacheKey(a, k) == CacheKey(b, l) <==>
            (a == b && k == l) || exists m :: b == a + ":" + m && k == m + ":" + l
  {
    var left, right := CacheKey(a, k), CacheKey(b, l);
    if left == right {
      assert a == left[..|a|] && b[..|a|] == right[..|a|];
      assert k == left[|a| + 1..] && l == right[|b| + 1..];
      if |a| < |b| {
        var m := b[|a| + 1..];
        assert b[|a|] == right[|a|] == left[|a|] == ':';
        assert b == a + ":" + m;
        assert right == a + ":" + (m + ":" + l);
        assert k == m + ":" + l;
      }
    }
    if m :| b == a + ":" + m && k == m + ":" + l {
      assert left == a + ":" + (m + ":" + l) == right;
    }
  }

  const DATA_DB_KNEX_CACHE_NAMESPACE := "data-db:knex"
  const DATA_DB_PRISMA_CACHE_NAMESPACE := "data-db:prisma"
  const V2_CONTAINER_CACHE_NAMESPACE := "v2:container"

  /** The namespaces in use never mix. */
  lemma NamespacesKeepApart(a: string, k: string, b: string, l: string)
    requires {a, b} <= {DATA_DB_KNEX_CACHE_NAMESPACE, DATA_DB_PRISMA_CACHE_NAMESPACE, V2_CONTAINER_CACHE_NAMESPACE}
    ensures CacheKey(a, k) == CacheKey(b, l) ==> a == b && k == l
  {
    if CacheKey(a, k) == CacheKey(b, l) {
      assert a in {a, b} && b in {a, b};
      assert CacheKey(a, k)[8] == CacheKey(b, l)[8] && CacheKey(a, k)[0] == CacheKey(b, l)[0];
      assert a == b;
      assert k == CacheKey(a, k)[|a| + 1..] && l == CacheKey(b, l)[|b| + 1..];
    }
  }

  // ---------- handing over ----------

  /** The entry is passed to `destroyEntry` once more: its value is destroyed at once if it is there, and
      waited for otherwise. */
  ghost predicate HandedNow(s: State, s': State, e: EntryId) {
    && s'.handed == s.handed + [e]
    && (if e in s.heap && s.heap[e].outcome == Created
        then s'.destroyed == s.destroyed + [e] && s'.waiting == s.waiting
        else s'.destroyed == s.destroyed && s'.waiting == s.waiting + {e})
  }

  /** A suspended call goes on when the creation has settled, and destroys the value if there is one. */
  lemma ResumeSettles(s: State, e: EntryId)
    requires e in s.waiting && e in s.heap
    ensures
      var s' := ResumeDestroy(s, e);
      if s.heap[e].outcome == Pending then s' == s
      else
        && s'.waiting == s.waiting - {e} && s'.entries == s.entries && s'.handed == s.handed
        && s'.destroyed == s.destroyed + if s.heap[e].outcome == Created then [e] else []
  {
  }

  /** The others stay in the map, in their order. */
  ghost predicate OnlyLeaves(s: State, s': State, e: EntryId) {
    exists i :: 0 <= i < |s.entries| && s.entries[i] == e && s'.entries == s.entries[..i] + s.entries[i + 1..]
  }

  /** A delete takes the entry of the cache key out of the map and hands it over, and does nothing for a key
      that is not there. */
  lemma DeleteHandsOver(s: State, namespace: string, key: string)
    requires Inv(s)
    ensures
      var s' := Delete(s, namespace, key);
      && (forall e :: e in s.entries && KeyIn(s.heap, e) == namespace + ":" + key ==>
            OnlyLeaves(s, s', e) && HandedNow(s, s', e) && s'.heap == s.heap)
      && ((forall e :: e in s.entries ==> KeyIn(s.heap, e) != namespace + ":" + key) ==> s' == s)
  {
    var s' := Delete(s, namespace, key);
    forall e | e in s.entries && KeyIn(s.heap, e) == namespace + ":" + key
      ensures OnlyLeaves(s, s', e) && HandedNow(s, s', e) && s'.heap == s.heap
    {
      IndexOfEntry(s, e);
      hide KeyIn, MapInv;
      assert IndexOf(s, CacheKey(namespace, key)) == IndexOf(s, KeyOf(s, e));
    }
    hide KeyIn, MapInv;
  }

  lemma {:induction false} MatchingExact(heap: map<EntryId, Entry>, p: Entry -> bool, ids: seq<EntryId>)
    ensures forall e :: e in Matching(heap, p, ids) <==> e in ids && e in heap && p(heap[e])
  {
    if ids != [] {
      MatchingExact(heap, p, ids[1..]);
      assert ids == [ids[0]] + ids[1..];
    }
  }

  ghost predicate Before(ids: seq<EntryId>, a: EntryId, b: EntryId) {
    exists i, j :: 0 <= i < j < |ids| && ids[i] == a && ids[j] == b
  }

  ghost predicate InOrderOf(victims: seq<EntryId>, ids: seq<EntryId>) {
    forall i, j :: 0 <= i < j < |victims| ==> Before(ids, victims[i], victims[j])
  }

  lemma InOrderBehind(victims: seq<EntryId>, first: EntryId, ids: seq<EntryId>)
    requires InOrderOf(victims, ids) && forall e :: e in victims ==> e in ids
    ensures InOrderOf(victims, [first] + ids) && InOrderOf([first] + victims, [first] + ids)
  {
    var all := [first] + ids;
    forall a, b | Before(ids, a, b) ensures Before(all, a, b) {
      var i, j :| 0 <= i < j < |ids| && ids[i] == a && ids[j] == b;
      assert all[i + 1] == a && all[j + 1] == b;
    }
    forall b | b in victims ensures Before(all, first, b) {
      var j :| 0 <= j < |ids| && ids[j] == b;
      assert all[0] == first && all[j + 1] == b;
    }
    hide Before;
    var more := [first] + victims;
    forall i, j | 0 <= i < j < |more| ensures Before(all, more[i], more[j]) {
      assert more[j] == victims[j - 1] && (i > 0 ==> more[i] == victims[i - 1]);
    }
  }

  lemma {:induction false} MatchingInOrder(heap: map<EntryId, Entry>, p: Entry -> bool, ids: seq<EntryId>)
    ensures InOrderOf(Matching(heap, p, ids), ids)
  {
    if ids != [] {
      MatchingInOrder(heap, p, ids[1..]);
      MatchingExact(heap, p, ids[1..]);
      hide InOrderOf;
      InOrderBehind(Matching(heap, p, ids[1..]), ids[0], ids[1..]);
      assert ids == [ids[0]] + ids[1..];
    } else {
      assert Matching(heap, p, ids) == [];
    }
  }

  /** One entry of a bulk delete. */
  lemma DeleteOne(s: State, e: EntryId)
    requires Inv(s) && e in s.entries
    ensures
      var s' := Hand(DeleteKey(s, KeyOf(s, e)), e);
      && Inv(s') && s'.heap == s.heap && HandedNow(s, s', e)
      && forall x :: x in s'.entries <==> x in s.entries && x != e
  {
    IndexOfEntry(s, e);
    var i := IndexOf(s, KeyOf(s, e));
    RemoveAndHand(s, i);
    EntriesDistinct(s);
    WithoutMembers(s.entries, i);
  }

  /** The victims and what becomes of them. */
  ghost predicate Gone(s: State, s': State, victims: seq<EntryId>) {
    && s'.heap == s.heap
    && (forall e :: e in s'.entries <==> e in s.entries && e !in victims)
    && s'.handed == s.handed + victims && s.destroyed <= s'.destroyed && s.waiting <= s'.waiting
    && (forall e :: e in victims && e in s.heap ==>
          if s.heap[e].outcome == Created then e in s'.destroyed else e in s'.waiting)
  }

  lemma GoneFirst(s: State, mid: State, s': State, e: EntryId, rest: seq<EntryId>)
    requires mid.heap == s.heap && HandedNow(s, mid, e)
    requires forall x :: x in mid.entries <==> x in s.entries && x != e
    requires Gone(mid, s', rest)
    ensures Gone(s, s', [e] + rest)
  {
    assert s.handed + [e] + rest == s.handed + ([e] + rest);
    assert forall x :: x in [e] + rest <==> x == e || x in rest;
    if e in s.heap && s.heap[e].outcome == Created {
      assert e in mid.destroyed;
      assert mid.destroyed <= s'.destroyed;
      assert s'.destroyed[..|mid.destroyed|] == mid.destroyed;
    }
  }

  lemma {:induction false} DeleteAllExact(s: State, victims: seq<EntryId>)
    requires Inv(s) && NoRepeats(victims) && forall e :: e in victims ==> e in s.entries
    ensures Gone(s, DeleteAll(s, victims), victims)
    decreases |victims|
  {
    if victims == [] {
      assert s.handed + [] == s.handed;
    } else {
      var e, rest := victims[0], victims[1..];
      DeleteOne(s, e);
      FirstAndRest(victims);
      assert victims == [e] + rest;
      var mid := Hand(DeleteKey(s, KeyOf(s, e)), e);
      hide Inv, Gone, HandedNow, DeleteKey, Hand, KeyIn;
      DeleteAllExact(mid, rest);
      GoneFirst(s, mid, DeleteAll(s, victims), e, rest);
    }
  }

  /** A bulk delete takes exactly the entries it is for out of the map, and hands each over, in map order. */
  lemma DeleteMatchingExact(s: State, p: Entry -> bool) returns (victims: seq<EntryId>)
    requires Inv(s)
    ensures Gone(s, DeleteMatching(s, p), victims) && NoRepeats(victims) && InOrderOf(victims, s.entries)
    ensures forall e :: e in victims <==> e in s.entries && e in s.heap && p(s.heap[e])
  {
    victims := Matching(s.heap, p, s.entries);
    EntriesDistinct(s);
    MatchingMembers(s.heap, p, s.entries);
    MatchingExact(s.heap, p, s.entries);
    MatchingInOrder(s.heap, p, s.entries);
    hide Inv, Gone;
    DeleteAllExact(s, victims);
  }

  lemma DeleteByNamespaceExact(s: State, namespace: string) returns (victims: seq<EntryId>)
    requires Inv(s)
    ensures Gone(s, Next(s, DoDeleteByNamespace(namespace)), victims)
    ensures NoRepeats(victims) && InOrderOf(victims, s.entries)
    ensures forall e :: e in victims <==> e in s.entries && e in s.heap && s.heap[e].namespace == namespace
  {
    victims := DeleteMatchingExact(s, (entry: Entry) => entry.namespace == namespace);
  }

  lemma DeleteByKeyExact(s: State, key: string) returns (victims: seq<EntryId>)
    requires Inv(s)
    ensures Gone(s, Next(s, DoDeleteByKey(key)), victims) && NoRepeats(victims) && InOrderOf(victims, s.entries)
    ensures forall e :: e in victims <==> e in s.entries && e in s.heap && s.heap[e].key == key
  {
    victims := DeleteMatchingExact(s, (entry: Entry) => entry.key == key);
  }

  lemma {:induction false} HandEachExact(s: State, ids: seq<EntryId>)
    requires s.entries == []
    ensures Gone(s, HandEach(s, ids), ids)
    decreases |ids|
  {
    if ids == [] {
      assert s.handed + [] == s.handed;
    } else {
      var mid := Hand(s, ids[0]);
      HandEachExact(mid, ids[1..]);
      assert ids == [ids[0]] + ids[1..];
      hide Gone;
      GoneFirst(s, mid, HandEach(s, ids), ids[0], ids[1..]);
    }
  }

  /** Shutting down empties the map and hands over every entry of it, in map order. */
  lemma ShutdownExact(s: State)
    requires Inv(s)
    ensures Shutdown(s).entries == [] && Gone(s.(entries := []), Shutdown(s), s.entries)
  {
    HandEachExact(s.(entries := []), s.entries);
    HandEachLeavesMap(s.(entries := []), s.entries);
  }
}
