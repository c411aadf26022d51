/** The second pass of the event emitter: the events of one kind on one table go out as one. */
module EventGroups {
  import opened Documents
  import opened OpEventKinds
  import opened OpEvents
  import opened Wrappers

  function Suffix(opType: RawOpType): (name: string)
    ensures |name| == 6 && '_' !in name
  {
    match opType case Create => "create" case Edit => "update" case Del => "delete"
  }

  function Prefix(docType: DocType): (name: string)
    ensures '_' !in name
  {
    match docType
    case TableDoc => "table."
    case FieldDoc => "table.field."
    case ViewDoc => "table.view."
    case RecordDoc => "table.record."
  }

  /** The name an event goes out under. */
  function NameOf(docType: DocType, opType: RawOpType): string {
    Prefix(docType) + Suffix(opType)
  }

  /** The names that listeners have subscribed to. */
  lemma NamesAsListenedTo()
    ensures NameOf(TableDoc, Create) == "table.create" && NameOf(TableDoc, Edit) == "table.update"
    ensures NameOf(TableDoc, Del) == "table.delete"
    ensures NameOf(FieldDoc, Create) == "table.field.create" && NameOf(FieldDoc, Edit) == "table.field.update"
    ensures NameOf(FieldDoc, Del) == "table.field.delete"
    ensures NameOf(ViewDoc, Create) == "table.view.create" && NameOf(ViewDoc, Edit) == "table.view.update"
    ensures NameOf(ViewDoc, Del) == "table.view.delete"
    ensures NameOf(RecordDoc, Create) == "table.record.create" && NameOf(RecordDoc, Edit) == "table.record.update"
    ensures NameOf(RecordDoc, Del) == "table.record.delete"
  {
  }

  function GroupKey(event: Event): string {
    if event.tableId != "" then event.tableId + "_" + NameOf(event.docType, event.opType)
    else NameOf(event.docType, event.opType)
  }

  /** Events of one kind on one table. */
  ghost predicate Alike(a: Event, b: Event) {
    a.tableId == b.tableId && a.docType == b.docType && a.opType == b.opType
  }

  lemma NameIsInjective(d1: DocType, o1: RawOpType, d2: DocType, o2: RawOpType)
    requires NameOf(d1, o1) == NameOf(d2, o2)
    ensures d1 == d2 && o1 == o2
  {
    var name := NameOf(d1, o1);
    assert name[..|name| - 6] == Prefix(d1) && name[..|name| - 6] == Prefix(d2);
    assert name[|name| - 6..] == Suffix(o1) && name[|name| - 6..] == Suffix(o2);
    assert Suffix(o1)[0] == Suffix(o2)[0];
    assert |Prefix(d1)| == |Prefix(d2)|;
  }

  /** What follows the last underscore of a string has none. */
  lemma UnderscoresEnd(a: string, x: string, b: string, y: string)
    requires '_' !in x
    requires a + "_" + x == b + "_" + y
    ensures |b| <= |a|
  {
    var whole := a + "_" + x;
    assert whole[|b|] == '_';
    assert forall i :: |a| < i < |whole| ==> whole[i] == x[i - |a| - 1];
  }

  lemma LastUnderscore(a: string, x: string, b: string, y: string)
    requires '_' !in x && '_' !in y
    requires a + "_" + x == b + "_" + y
    ensures a == b && x == y
  {
    UnderscoresEnd(a, x, b, y);
    UnderscoresEnd(b, y, a, x);
    var whole := a + "_" + x;
    assert whole[..|a|] == a && whole[..|a|] == b;
    assert whole[|a| + 1..] == x && whole[|a| + 1..] == y;
  }

  lemma UnderscoreIffTable(event: Event)
    ensures '_' in GroupKey(event) <==> event.tableId != ""
  {
    if event.tableId != "" {
      assert GroupKey(event)[|event.tableId|] == '_';
    }
  }

  /** Two events share a key exactly when they are of one kind on one table. */
  lemma KeysTellKinds(a: Event, b: Event)
    ensures GroupKey(a) == GroupKey(b) <==> Alike(a, b)
  {
    hide Prefix, Suffix;
    if GroupKey(a) == GroupKey(b) {
      UnderscoreIffTable(a);
      UnderscoreIffTable(b);
      if a.tableId != "" {
        LastUnderscore(a.tableId, NameOf(a.docType, a.opType), b.tableId, NameOf(b.docType, b.opType));
      }
      NameIsInjective(a.docType, a.opType, b.docType, b.opType);
    }
  }

  // ---------- grouping ----------

  /** The events with a key, in order. */
  function WithKey(events: seq<Event>, key: string): (group: seq<Event>)
    ensures forall e :: e in group <==> e in events && GroupKey(e) == key
    decreases |events|
  {
    if events == [] then []
    else
      var n := |events| - 1;
      assert events == events[..n] + [events[n]];
      WithKey(events[..n], key) + if GroupKey(events[n]) == key then [events[n]] else []
  }

  /** The keys in the order they first come. */
  function KeysOf(events: seq<Event>): (keys: seq<string>)
    ensures forall k :: k in keys <==> exists e :: e in events && GroupKey(e) == k
    ensures forall i, j :: 0 <= i < j < |keys| ==> keys[i] != keys[j]
    decreases |events|
  {
    if events == [] then []
    else
      var n := |events| - 1;
      assert events == events[..n] + [events[n]];
      var keys := KeysOf(events[..n]);
      if GroupKey(events[n]) in keys then keys else keys + [GroupKey(events[n])]
  }

  lemma WithKeySnoc(events: seq<Event>, event: Event, key: string)
    ensures WithKey(events + [event], key) == WithKey(events, key) + if GroupKey(event) == key then [event] else []
  {
    hide GroupKey;
    assert (events + [event])[..|events|] == events;
  }

  lemma KeysSnoc(events: seq<Event>, event: Event)
    ensures KeysOf(events + [event])
         == KeysOf(events) + if GroupKey(event) in KeysOf(events) then [] else [GroupKey(event)]
  {
    hide GroupKey;
    assert (events + [event])[..|events|] == events;
  }

  lemma GroupsHaveKeys(events: seq<Event>, key: string)
    requires WithKey(events, key) != []
    ensures key in KeysOf(events)
  {
    hide KeysOf, WithKey, GroupKey;
    var event := WithKey(events, key)[0];
    assert event in WithKey(events, key);
    assert event in events && GroupKey(event) == key;
  }

  /** Where the first event with a key is; behind all events when there is none. */
  function FirstWith(events: seq<Event>, key: string): (i: nat)
    ensures i <= |events|
  {
    if events == [] || GroupKey(events[0]) == key then 0 else 1 + FirstWith(events[1..], key)
  }

  lemma {:induction false} FirstWithSnoc(before: seq<Event>, event: Event, key: string)
    ensures FirstWith(before + [event], key) ==
            if FirstWith(before, key) < |before| || GroupKey(event) == key then FirstWith(before, key) else |before| + 1
  {
    hide GroupKey;
    var all := before + [event];
    if before == [] {
      assert all[1..] == [];
    } else {
      FirstWithSnoc(before[1..], event, key);
      assert all[1..] == before[1..] + [event];
    }
  }

  ghost predicate KeysRise(events: seq<Event>, keys: seq<string>) {
    && (forall k :: k in keys <==> FirstWith(events, k) < |events|)
    && (forall i, j :: 0 <= i < j < |keys| ==> FirstWith(events, keys[i]) < FirstWith(events, keys[j]))
  }

  lemma KeysRiseSnoc(before: seq<Event>, event: Event, keys: seq<string>)
    requires KeysRise(before, keys)
    ensures KeysRise(before + [event], keys + if GroupKey(event) in keys then [] else [GroupKey(event)])
  {
    hide FirstWith, GroupKey;
    forall key: string
      ensures FirstWith(before + [event], key) ==
              if FirstWith(before, key) < |before| || GroupKey(event) == key then FirstWith(before, key)
              else |before| + 1
    {
      FirstWithSnoc(before, event, key);
    }
    if GroupKey(event) in keys { assert keys + [] == keys; }
  }

  lemma NoKeys()
    ensures KeysOf([]) == []
  {
  }

  lemma NothingRises()
    ensures KeysRise([], [])
  {
  }

  lemma LastEvent(events: seq<Event>)
    requires events != []
    ensures events == events[..|events| - 1] + [events[|events| - 1]]
  {
  }

  /** The keys come in the order of their first events. */
  lemma {:induction false} KeysInOrder(events: seq<Event>)
    ensures KeysRise(events, KeysOf(events))
    decreases |events|
  {
    hide *;
    if events == [] {
      NoKeys();
      NothingRises();
    } else {
      var before, event := events[..|events| - 1], events[|events| - 1];
      KeysInOrder(before);
      LastEvent(events);
      KeysSnoc(before, event);
      KeysRiseSnoc(before, event, KeysOf(before));
    }
  }

  ghost predicate ComesBefore(events: seq<Event>, a: Event, b: Event) {
    exists i, j :: 0 <= i < j < |events| && events[i] == a && events[j] == b
  }

  /** The events of a group are in the order in which they came. */
  lemma {:induction false} GroupInOrder(events: seq<Event>, key: string)
    ensures var group := WithKey(events, key);
            forall i, j :: 0 <= i < j < |group| ==> ComesBefore(events, group[i], group[j])
    decreases |events|
  {
    if events != [] {
      var before, event := events[..|events| - 1], events[|events| - 1];
      GroupInOrder(before, key);
      assert events == before + [event];
      WithKeySnoc(before, event, key);
      ComesBeforeSnoc(before, event);
      hide WithKey, ComesBefore, GroupKey;
      var group, all := WithKey(before, key), WithKey(events, key);
      forall i, j | 0 <= i < j < |all| ensures ComesBefore(events, all[i], all[j]) {
        assert all[i] == group[i] && group[i] in group;
      }
    }
  }

  lemma ComesBeforeSnoc(before: seq<Event>, event: Event)
    ensures forall a, b :: ComesBefore(before, a, b) ==> ComesBefore(before + [event], a, b)
    ensures forall a :: a in before ==> ComesBefore(before + [event], a, event)
  {
    var events := before + [event];
    forall a, b | ComesBefore(before, a, b) ensures ComesBefore(events, a, b) {
      var i, j :| 0 <= i < j < |before| && before[i] == a && before[j] == b;
      assert events[i] == a && events[j] == b;
    }
    forall a | a in before ensures ComesBefore(events, a, event) {
      var i :| 0 <= i < |before| && before[i] == a;
      assert events[i] == a && events[|before|] == event;
    }
  }

  /** One more event opens its group or joins it. */
  lemma GroupStep(events: seq<Event>, i: nat)
    requires i < |events|
    ensures
      var key := GroupKey(events[i]);
      && (key !in KeysOf(events[..i]) ==> WithKey(events[..i], key) == [])
      && KeysOf(events[..i + 1]) == KeysOf(events[..i]) + (if key in KeysOf(events[..i]) then [] else [key])
      && forall k :: WithKey(events[..i + 1], k) == WithKey(events[..i], k) + if k == key then [events[i]] else []
  {
    hide KeysOf, WithKey, GroupKey;
    var before, key := events[..i], GroupKey(events[i]);
    assert events[..i + 1] == before + [events[i]];
    KeysSnoc(before, events[i]);
    if WithKey(before, key) != [] { GroupsHaveKeys(before, key); }
    forall k ensures WithKey(events[..i + 1], k) == WithKey(before, k) + if k == key then [events[i]] else [] {
      WithKeySnoc(before, events[i], k);
    }
  }

  method GroupBy(events: seq<Event>) returns (keys: seq<string>, groups: map<string, seq<Event>>)
    ensures keys == KeysOf(events)
    ensures groups.Keys == set k | k in keys
    ensures forall k :: k in keys ==> groups[k] == WithKey(events, k)
  {
    hide KeysOf, WithKey, GroupKey;
    keys, groups := [], map[];
    NoKeys();
    for i := 0 to |events|
      invariant keys == KeysOf(events[..i])
      invariant groups.Keys == set k | k in keys
      invariant forall k :: k in keys ==> groups[k] == WithKey(events[..i], k)
    {
      GroupStep(events, i);
      var key := GroupKey(events[i]);
      if key !in groups {
        keys := keys + [key];
        groups := groups[key := []];
      }
      groups := groups[key := groups[key] + [events[i]]];
    }
    assert events[..|events|] == events;
  }

  // ---------- joining ----------

  /** The property whose values are joined; there is none for tables. */
  function MergeProperty(event: Event): string {
    match event.docType
    case ViewDoc => if event.opType.Del? then "viewId" else "view"
    case FieldDoc => if event.opType.Del? then "fieldId" else "field"
    case RecordDoc => if event.opType.Del? then "recordId" else "record"
    case TableDoc => ""
  }

  /** The property a single event's payload has its document under. */
  function PropertyCategory(docType: DocType): string {
    match docType
    case TableDoc => "table"
    case ViewDoc => "view"
    case FieldDoc => "field"
    case RecordDoc => "record"
  }

  /** The joined property is the one a single event has its document under, or for a deletion, its id. */
  lemma MergePropertyIsPayload(event: Event)
    requires !event.docType.TableDoc?
    ensures MergeProperty(event) == PropertyCategory(event.docType) + if event.opType.Del? then "Id" else ""
  {
    assert PropertyCategory(event.docType) + "" == PropertyCategory(event.docType);
  }

  /** What reading the property of an event gives; an empty name reads nothing. */
  function ValueOf(event: Event): Option<Payload> {
    if MergeProperty(event) == "" then None else Some(event.payload)
  }

  function ValuesOf(group: seq<Event>): (values: seq<Option<Payload>>)
    ensures |values| == |group|
    ensures forall i :: 0 <= i < |group| ==> values[i] == ValueOf(group[i])
    decreases |group|
  {
    if group == [] then [] else ValuesOf(group[..|group| - 1]) + [ValueOf(group[|group| - 1])]
  }

  datatype Emitted =
    | Single(event: Event)
    | Bulk(docType: DocType, opType: RawOpType, tableId: string, joined: map<string, seq<Option<Payload>>>)

  /** The event a group goes out as. */
  ghost predicate Joins(emitted: Emitted, group: seq<Event>) {
    && group != []
    && (forall e :: e in group ==> Alike(e, group[0]))
    && (|group| == 1 ==> emitted == Single(group[0]))
    && (|group| > 1 ==> emitted == Bulk(group[0].docType, group[0].opType, group[0].tableId,
                                        map[MergeProperty(group[0]) := ValuesOf(group)]))
  }

  lemma AlikeMerge(a: Event, b: Event)
    requires Alike(a, b)
    ensures MergeProperty(a) == MergeProperty(b)
  {
  }

  lemma ValuesOfNext(group: seq<Event>, i: nat)
    requires i < |group|
    ensures ValuesOf(group[..i + 1]) == ValuesOf(group[..i]) + [ValueOf(group[i])]
  {
    assert group[..i + 1][..i] == group[..i];
  }

  lemma SingleJoins(group: seq<Event>)
    requires |group| == 1
    ensures Joins(Single(group[0]), group)
  {
  }

  lemma BulkJoins(group: seq<Event>)
    requires |group| > 1 && forall e :: e in group ==> Alike(e, group[0])
    ensures
      var joined := map[MergeProperty(group[0]) := ValuesOf(group)];
      Joins(Bulk(group[0].docType, group[0].opType, group[0].tableId, joined), group)
  {
  }

  /** The joined values of the first `i` events. */
  function JoinedTo(group: seq<Event>, i: nat): map<string, seq<Option<Payload>>>
    requires i <= |group|
  {
    if i == 0 then map[] else map[MergeProperty(group[0]) := ValuesOf(group[..i])]
  }

  lemma JoinedNext(group: seq<Event>, i: nat)
    requires i < |group| && Alike(group[i], group[0])
    ensures
      var property, joined := MergeProperty(group[i]), JoinedTo(group, i);
      JoinedTo(group, i + 1)
      == joined[property := (if property in joined then joined[property] else []) + [ValueOf(group[i])]]
  {
    ValuesOfNext(group, i);
    AlikeMerge(group[i], group[0]);
    assert ValuesOf(group[..0]) == [];
    hide MergeProperty, ValueOf, ValuesOf, Alike;
  }

  lemma JoinedAll(group: seq<Event>)
    requires group != []
    ensures JoinedTo(group, 0) == map[]
    ensures JoinedTo(group, |group|) == map[MergeProperty(group[0]) := ValuesOf(group)]
  {
    assert group[..|group|] == group;
  }

  /** `combineEvents`. */
  method CombineEvents(group: seq<Event>) returns (emitted: Emitted)
    requires group != []
    requires forall e :: e in group ==> Alike(e, group[0])
    ensures Joins(emitted, group)
  {
    hide *;
    if |group| == 1 {
      SingleJoins(group);
      return Single(group[0]);
    }
    BulkJoins(group);
    JoinedAll(group);
    var joined: map<string, seq<Option<Payload>>> := map[];
    for i := 0 to |group|
      invariant joined == JoinedTo(group, i)
    {
      JoinedNext(group, i);
      var property := MergeProperty(group[i]);
      var changes := if property in joined then joined[property] else [];
      joined := joined[property := changes + [ValueOf(group[i])]];
    }
    return Bulk(group[0].docType, group[0].opType, group[0].tableId, joined);
  }

  /** The payloads an emitted event carries. */
  function Carried(emitted: Emitted): seq<Option<Payload>> {
    match emitted
    case Single(event) => [Some(event.payload)]
    case Bulk(docType, opType, tableId, joined) =>
      var property := MergeProperty(Event(docType, opType, tableId, "", Gone));
      if property in joined then joined[property] else []
  }

  ghost predicate CarriesAll(emitted: Emitted, group: seq<Event>) {
    Carried(emitted) == seq(|group|, i requires 0 <= i < |group| => Some(group[i].payload))
  }

  ghost predicate TableGroup(group: seq<Event>) {
    |group| > 1 && group[0].docType.TableDoc?
  }

  /** Two table events of one kind on one table. */
  ghost predicate TablesCollide(events: seq<Event>) {
    exists k :: k in KeysOf(events) && TableGroup(WithKey(events, k))
  }

  /** The second pass: one event goes out per kind and table, in order of first appearance. Every payload
      of the group is in it, in order, exactly when no two table events share a kind and a table. */
  method EmitAll(events: seq<Event>) returns (emitted: seq<Emitted>)
    ensures |emitted| == |KeysOf(events)|
    ensures (forall i :: 0 <= i < |emitted| ==> CarriesAll(emitted[i], WithKey(events, KeysOf(events)[i])))
            <==> !TablesCollide(events)
    ensures forall i :: 0 <= i < |emitted| ==> Joins(emitted[i], WithKey(events, KeysOf(events)[i]))
  {
    hide *;
    var keys, groups := GroupBy(events);
    emitted := [];
    for i := 0 to |keys|
      invariant |emitted| == i
      invariant forall j :: 0 <= j < i ==> Joins(emitted[j], WithKey(events, keys[j]))
    {
      var group := groups[keys[i]];
      GroupIsAlike(events, keys[i]);
      var one := CombineEvents(group);
      emitted := emitted + [one];
    }
    EmittedCarry(events, emitted);
  }

  lemma EmittedCarry(events: seq<Event>, emitted: seq<Emitted>)
    requires |emitted| == |KeysOf(events)|
    requires forall i :: 0 <= i < |emitted| ==> Joins(emitted[i], WithKey(events, KeysOf(events)[i]))
    ensures (forall i :: 0 <= i < |emitted| ==> CarriesAll(emitted[i], WithKey(events, KeysOf(events)[i])))
            <==> !TablesCollide(events)
  {
    hide KeysOf, WithKey, ValuesOf, CarriesAll, Joins;
    var keys := KeysOf(events);
    forall i | 0 <= i < |emitted|
      ensures CarriesAll(emitted[i], WithKey(events, keys[i])) <==> !TableGroup(WithKey(events, keys[i]))
    {
      JoinCarries(emitted[i], WithKey(events, keys[i]));
    }
    if k :| k in keys && TableGroup(WithKey(events, k)) {
      var i :| 0 <= i < |keys| && keys[i] == k;
      assert !CarriesAll(emitted[i], WithKey(events, keys[i]));
    }
  }

  lemma JoinCarries(emitted: Emitted, group: seq<Event>)
    requires Joins(emitted, group)
    ensures CarriesAll(emitted, group) <==> !TableGroup(group)
  {
    if |group| > 1 {
      forall i | 0 <= i < |group|
        ensures ValueOf(group[i]) == if group[0].docType.TableDoc? then None else Some(group[i].payload)
      {
        assert Alike(group[i], group[0]);
      }
      if group[0].docType.TableDoc? {
        assert Carried(emitted)[0] == None;
      }
    }
  }

  lemma GroupIsAlike(events: seq<Event>, key: string)
    requires key in KeysOf(events)
    ensures WithKey(events, key) != []
    ensures forall e :: e in WithKey(events, key) ==> Alike(e, WithKey(events, key)[0])
  {
    var group := WithKey(events, key);
    forall e | e in group ensures Alike(e, group[0]) {
      KeysTellKinds(e, group[0]);
    }
  }

  // ---------- the events of a transaction ----------

  /** Every event is kept under its own id, once; a table's event names the table itself. */
  ghost predicate Kept(events: Events) {
    && (forall i, j :: 0 <= i < j < |events.ids| ==> events.ids[i] != events.ids[j])
    && (forall id :: id in events.ids <==> id in events.byId)
    && (forall id :: id in events.byId ==>
          && events.byId[id].id == id
          && (events.byId[id].docType.TableDoc? ==> events.byId[id].tableId == id))
  }

  /** Table ids are the ids that start with "tbl". */
  lemma {:induction false} CollectedAreKept(entries: seq<Entry>)
    requires forall i :: 0 <= i < |entries| && entries[i].docType.TableDoc? ==> "tbl" <= entries[i].id
    ensures Kept(PutAll(Events([], map[]), entries))
    decreases |entries|
  {
    if entries != [] {
      var n := |entries| - 1;
      CollectedAreKept(entries[..n]);
      EventKeepsId(entries[n]);
    }
  }

  function Values(events: Events): seq<Event>
    requires forall id :: id in events.ids ==> id in events.byId
  {
    seq(|events.ids|, i requires 0 <= i < |events.ids| => events.byId[events.ids[i]])
  }

  ghost predicate IdsDiffer(events: seq<Event>) {
    forall i, j :: 0 <= i < j < |events| ==> events[i].id != events[j].id
  }

  lemma IdsDifferSnoc(events: seq<Event>, event: Event)
    ensures IdsDiffer(events + [event]) <==> IdsDiffer(events) && forall e :: e in events ==> e.id != event.id
  {
    var all := events + [event];
    assert forall i :: 0 <= i < |events| ==> all[i] == events[i];
    assert all[|events|] == event;
  }

  lemma {:induction false} DistinctIds(events: seq<Event>, key: string)
    requires IdsDiffer(events)
    ensures IdsDiffer(WithKey(events, key))
    decreases |events|
  {
    if events != [] {
      hide *;
      var before, event := events[..|events| - 1], events[|events| - 1];
      assert events == before + [event];
      IdsDifferSnoc(before, event);
      DistinctIds(before, key);
      WithKeySnoc(before, event, key);
      IdsDifferSnoc(WithKey(before, key), event);
    } else {
      assert WithKey(events, key) == [];
    }
  }

  lemma TableGroupsAreSingle(events: seq<Event>, key: string)
    requires IdsDiffer(events)
    requires forall e :: e in events && e.docType.TableDoc? ==> e.tableId == e.id
    requires key in KeysOf(events)
    ensures !TableGroup(WithKey(events, key))
  {
    hide KeysOf, WithKey;
    var group := WithKey(events, key);
    GroupIsAlike(events, key);
    DistinctIds(events, key);
    if |group| > 1 {
      assert Alike(group[1], group[0]);
      assert group[0].id != group[1].id;
      assert group[0] in events && group[1] in events;
    }
  }

  lemma KeptTablesNeverCollide(kept: Events)
    requires Kept(kept)
    ensures !TablesCollide(Values(kept))
  {
    hide KeysOf, WithKey, TableGroup;
    var events := Values(kept);
    forall k | k in KeysOf(events) ensures !TableGroup(WithKey(events, k)) {
      TableGroupsAreSingle(events, k);
    }
  }

  /** So the events of a transaction lose nothing when they are joined. */
  lemma TablesNeverCollide(entries: seq<Entry>)
    requires forall i :: 0 <= i < |entries| && entries[i].docType.TableDoc? ==> "tbl" <= entries[i].id
    ensures Kept(PutAll(Events([], map[]), entries))
    ensures !TablesCollide(Values(PutAll(Events([], map[]), entries)))
  {
    hide PutAll, KeysOf, WithKey, TableGroup, TablesCollide;
    CollectedAreKept(entries);
    KeptTablesNeverCollide(PutAll(Events([], map[]), entries));
  }

  // ---------- both passes ----------

  /** The kept event goes out with this one: as it is, or as one payload of several of its kind and table. */
  ghost predicate Conveys(one: Emitted, event: Event) {
    match one
    case Single(e) => e == event
    case Bulk(docType, opType, tableId, _) =>
      && docType == event.docType && opType == event.opType && tableId == event.tableId
      && Some(event.payload) in Carried(one)
  }

  lemma JoinConveys(one: Emitted, group: seq<Event>, event: Event)
    requires Joins(one, group) && CarriesAll(one, group) && event in group
    ensures Conveys(one, event)
  {
    assert Alike(event, group[0]);
    var i :| 0 <= i < |group| && group[i] == event;
    assert Carried(one)[i] == Some(event.payload);
    hide Carried, MergeProperty, ValuesOf;
  }

  /** Every event goes out with the emission of its group. */
  lemma GroupConveys(events: seq<Event>, emitted: seq<Emitted>, event: Event) returns (i: nat)
    requires |emitted| == |KeysOf(events)| && event in events
    requires forall i :: 0 <= i < |emitted| ==> Joins(emitted[i], WithKey(events, KeysOf(events)[i]))
    requires forall i :: 0 <= i < |emitted| ==> CarriesAll(emitted[i], WithKey(events, KeysOf(events)[i]))
    ensures i < |emitted| && Conveys(emitted[i], event) && KeysOf(events)[i] == GroupKey(event)
  {
    hide Joins, CarriesAll, Conveys, GroupKey;
    assert GroupKey(event) in KeysOf(events);
    i :| 0 <= i < |KeysOf(events)| && KeysOf(events)[i] == GroupKey(event);
    JoinConveys(emitted[i], WithKey(events, KeysOf(events)[i]), event);
  }

  /** The ops of a document have been told: some emission conveys an event of the kind and with the document
      and the table that follow from the ops. */
  ghost predicate Told(emitted: seq<Emitted>, docType: DocType, docId: string, id: string, history: seq<RawOp>) {
    exists i, event ::
      0 <= i < |emitted| && Conveys(emitted[i], event) && Fits(docType, docId, id, history, Some(event))
  }

  /** A document that the ops are about. */
  ghost predicate Changed(entries: seq<Entry>, docType: DocType, docId: string, id: string) {
    OneDocument(entries, docType, docId, id) && !NothingKnown(HistoryOf(entries, id))
  }

  /** The events of one kind on one table go out together. */
  ghost predicate Together(emitted: seq<Emitted>, events: seq<Event>) {
    forall a, b :: a in events && b in events && Alike(a, b) ==>
      exists i :: 0 <= i < |emitted| && Conveys(emitted[i], a) && Conveys(emitted[i], b)
  }

  lemma AlikeGoTogether(events: seq<Event>, emitted: seq<Emitted>)
    requires |emitted| == |KeysOf(events)|
    requires forall i :: 0 <= i < |emitted| ==> Joins(emitted[i], WithKey(events, KeysOf(events)[i]))
    requires forall i :: 0 <= i < |emitted| ==> CarriesAll(emitted[i], WithKey(events, KeysOf(events)[i]))
    ensures Together(emitted, events)
  {
    forall a, b | a in events && b in events && Alike(a, b)
      ensures exists i :: 0 <= i < |emitted| && Conveys(emitted[i], a) && Conveys(emitted[i], b)
    {
      KeysTellKinds(a, b);
      hide Joins, CarriesAll, Conveys, GroupKey, Alike, KeysOf, WithKey;
      var i := GroupConveys(events, emitted, a);
      var j := GroupConveys(events, emitted, b);
      DistinctKeys(events, i, j);
    }
  }

  lemma DistinctKeys(events: seq<Event>, i: nat, j: nat)
    requires i < |KeysOf(events)| && j < |KeysOf(events)| && KeysOf(events)[i] == KeysOf(events)[j]
    ensures i == j
  {
  }

  lemma KeptIsValue(kept: Events, id: string)
    requires Kept(kept) && id in kept.byId
    ensures kept.byId[id] in Values(kept)
  {
    var i :| 0 <= i < |kept.ids| && kept.ids[i] == id;
    assert Values(kept)[i] == kept.byId[id];
  }

  lemma ChangedIsTold(entries: seq<Entry>, emitted: seq<Emitted>, docType: DocType, docId: string, id: string)
    requires Kept(PutAll(Events([], map[]), entries)) && Changed(entries, docType, docId, id)
    requires var events := Values(PutAll(Events([], map[]), entries)); EmittedAll(emitted, events)
    ensures Told(emitted, docType, docId, id, HistoryOf(entries, id))
  {
    var kept, history := PutAll(Events([], map[]), entries), HistoryOf(entries, id);
    EventOfHistory(entries, docType, docId, id);
    KindOfKept(docType, docId, id, history);
    var event := kept.byId[id];
    hide Joins, CarriesAll, Conveys, KeysOf, WithKey, PutAll, HistoryOf, GroupKey, Merged;
    KeptIsValue(kept, id);
    var i := GroupConveys(Values(kept), emitted, event);
    assert Conveys(emitted[i], event) && Fits(docType, docId, id, history, Some(event));
  }

  ghost predicate EmittedAll(emitted: seq<Emitted>, events: seq<Event>) {
    && |emitted| == |KeysOf(events)|
    && (forall i :: 0 <= i < |emitted| ==> Joins(emitted[i], WithKey(events, KeysOf(events)[i])))
    && (forall i :: 0 <= i < |emitted| ==> CarriesAll(emitted[i], WithKey(events, KeysOf(events)[i])))
  }

  /** Both passes: what goes out is the events kept for the documents, joined by kind and table, with every
      payload of every one of them; each changed document is told of with the kind its ops come down to, and
      events of one kind on one table go out together. */
  method Ops2Event(rawOpMaps: seq<seq<Collection>>) returns (emitted: seq<Emitted>)
    requires forall e :: e in FlattenAll(rawOpMaps) && e.docType.TableDoc? ==> "tbl" <= e.id
    ensures Kept(PutAll(Events([], map[]), FlattenAll(rawOpMaps)))
    ensures
      var events := Values(PutAll(Events([], map[]), FlattenAll(rawOpMaps)));
      && |emitted| == |KeysOf(events)|
      && (forall i :: 0 <= i < |emitted| ==> CarriesAll(emitted[i], WithKey(events, KeysOf(events)[i])))
      && Together(emitted, events)
    ensures forall docType, docId, id :: Changed(FlattenAll(rawOpMaps), docType, docId, id) ==>
              Told(emitted, docType, docId, id, HistoryOf(FlattenAll(rawOpMaps), id))
  {
    hide PutAll, KeysOf, WithKey, CarriesAll, Joins, TablesCollide, Together, Changed, Told;
    var manager := CollectEventsFromRawOpMap(rawOpMaps);
    ghost var entries := FlattenAll(rawOpMaps);
    TablesNeverCollide(entries);
    var list := Values(Events(manager.ids, manager.byId));
    emitted := EmitAll(list);
    AlikeGoTogether(list, emitted);
    forall docType, docId, id | Changed(entries, docType, docId, id)
      ensures Told(emitted, docType, docId, id, HistoryOf(entries, id))
    {
      ChangedIsTold(entries, emitted, docType, docId, id);
    }
  }
}
