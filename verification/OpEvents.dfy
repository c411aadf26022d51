/** The event emitter turns the raw ops of a transaction into events. A first pass folds the ops of each
    document into one event; a second pass joins the events of one kind on one table. */
module OpEvents {
  import opened Documents
  import opened Wrappers

  type Cells = map<string, Value>

  /** An op on one field: inserts `oi`, deletes `od`. */
  datatype OtOp = OtOp(fieldId: string, oi: Option<Value>, od: Option<Value>)

  /** A raw op of none of the three kinds is `Unknown`. */
  datatype RawOp = CreateOp(data: Cells) | EditOp(ops: seq<OtOp>) | DelOp | UnknownOp

  datatype Change = Change(oldValue: Option<Value>, newValue: Value)

  /** What an event says of its document; what it says of a document that is not a record is taken as is. */
  datatype Payload =
    | Fields(fields: Cells)
    | Changes(changes: map<string, Change>)
    | Gone
    | Whole(raw: RawOp)

  datatype Event = Event(docType: DocType, opType: RawOpType, tableId: string, id: string, payload: Payload)

  /** A raw op with the collection and the id it is filed under. */
  datatype Entry = Entry(docType: DocType, docId: string, id: string, raw: RawOp)

  // ---------- one raw op ----------

  /** `setRecord.build`: an empty value is written as null. */
  function Build(op: OtOp): Change {
    if op.oi.None? || !op.oi.value.Other?
    then Change(Some(if op.od.None? then Null else op.od.value), Null)
    else Change(if op.od == Some(Null) then None else op.od, op.oi.value)
  }

  /** The accumulator of `convertOpsToClassPlain`: a later op on a field replaces an earlier one. */
  function ChangesOf(ops: seq<OtOp>): map<string, Change>
    decreases |ops|
  {
    if ops == [] then map[]
    else ChangesOf(ops[..|ops| - 1])[ops[|ops| - 1].fieldId := Build(ops[|ops| - 1])]
  }

  function TableIdOf(entry: Entry): string {
    if "tbl" <= entry.id then entry.id else entry.docId
  }

  /** The event of one raw op. The builder for new records starts them empty, whatever data the op has. */
  function EventOf(entry: Entry): Option<Event> {
    var make := (opType: RawOpType, payload: Payload) =>
      Some(Event(entry.docType, opType, TableIdOf(entry), entry.id,
                 if entry.docType.RecordDoc? then payload else Whole(entry.raw)));
    match entry.raw
    case CreateOp(_) => make(Create, Fields(map[]))
    case EditOp(ops) => make(Edit, Changes(ChangesOf(ops)))
    case DelOp => make(Del, Gone)
    case UnknownOp => None
  }

  // ---------- the first pass ----------

  function NewValues(changes: map<string, Change>): Cells {
    map k | k in changes :: changes[k].newValue
  }

  /** The event kept for a document that already has one. An id belongs to one document, so a record update
      only ever meets record events. */
  function Merge(existing: Event, event: Event): Event {
    if event.docType.RecordDoc? && event.payload.Changes? then
      match existing.payload
      case Fields(fields) => existing.(payload := Fields(fields + NewValues(event.payload.changes)))
      case Changes(changes) => existing.(payload := Changes(changes + event.payload.changes))
      case _ => event
    else event
  }

  /** The events by document id, in the order the ids first came. */
  datatype Events = Events(ids: seq<string>, byId: map<string, Event>)

  function Put(events: Events, event: Event): Events {
    if event.id in events.byId then events.(byId := events.byId[event.id := Merge(events.byId[event.id], event)])
    else Events(events.ids + [event.id], events.byId[event.id := event])
  }

  function Step(events: Events, entry: Entry): Events {
    match EventOf(entry) case None => events case Some(event) => Put(events, event)
  }

  function PutAll(events: Events, entries: seq<Entry>): Events
    decreases |entries|
  {
    if entries == [] then events else Step(PutAll(events, entries[..|entries| - 1]), entries[|entries| - 1])
  }

  lemma {:induction false} PutAllAppend(events: Events, first: seq<Entry>, second: seq<Entry>)
    ensures PutAll(events, first + second) == PutAll(PutAll(events, first), second)
    decreases |second|
  {
    var both := first + second;
    if second == [] {
      assert both == first;
    } else {
      PutAllAppend(events, first, second[..|second| - 1]);
      assert both[..|both| - 1] == first + second[..|second| - 1];
    }
  }

  /** One document collection of a raw op map. */
  datatype Collection = Collection(docType: DocType, docId: string, ops: seq<(string, RawOp)>)

  function EntriesOf(collection: Collection): (entries: seq<Entry>)
    ensures |entries| == |collection.ops|
  {
    seq(|collection.ops|, i requires 0 <= i < |collection.ops| =>
      Entry(collection.docType, collection.docId, collection.ops[i].0, collection.ops[i].1))
  }

  function Flatten(collections: seq<Collection>): seq<Entry>
    decreases |collections|
  {
    if collections == [] then []
    else Flatten(collections[..|collections| - 1]) + EntriesOf(collections[|collections| - 1])
  }

  class EventManager {
    var ids: seq<string>
    var byId: map<string, Event>

    ghost function Contents(): Events
      reads this
    {
      Events(ids, byId)
    }

    constructor ()
      ensures Contents() == Events([], map[])
    {
      ids, byId := [], map[];
    }

    method MergeEventsForUpdate(event: Event)
      modifies this
      ensures Contents() == Put(old(Contents()), event)
    {
      if event.id !in byId {
        ids := ids + [event.id];
        byId := byId[event.id := event];
        return;
      }
      var existing := byId[event.id];
      var merged := event;
      if event.docType.RecordDoc? && event.payload.Changes? {
        if existing.payload.Fields? {
          merged := existing.(payload := Fields(existing.payload.fields + NewValues(event.payload.changes)));
        } else if existing.payload.Changes? {
          merged := existing.(payload := Changes(existing.payload.changes + event.payload.changes));
        }
      }
      byId := byId[event.id := merged];
    }

    /** The ops of one collection. */
    method GenerateCollection(collection: Collection)
      modifies this
      ensures Contents() == PutAll(old(Contents()), EntriesOf(collection))
    {
      hide EventOf, Put;
      var entries := EntriesOf(collection);
      for i := 0 to |entries|
        invariant Contents() == PutAll(old(Contents()), entries[..i])
      {
        assert entries[..i + 1][..i] == entries[..i];
        var event := EventOf(entries[i]);
        if event.Some? {
          MergeEventsForUpdate(event.value);
        }
      }
      assert entries[..|entries|] == entries;
    }

    method GenerateEventsFromRawOps(rawOpMap: seq<Collection>)
      modifies this
      ensures Contents() == PutAll(old(Contents()), Flatten(rawOpMap))
    {
      hide Step, EntriesOf;
      for i := 0 to |rawOpMap|
        invariant Contents() == PutAll(old(Contents()), Flatten(rawOpMap[..i]))
      {
        GenerateCollection(rawOpMap[i]);
        assert rawOpMap[..i + 1][..i] == rawOpMap[..i];
        PutAllAppend(old(Contents()), Flatten(rawOpMap[..i]), EntriesOf(rawOpMap[i]));
      }
      assert rawOpMap[..|rawOpMap|] == rawOpMap;
    }
  }

  function FlattenAll(rawOpMaps: seq<seq<Collection>>): seq<Entry>
    decreases |rawOpMaps|
  {
    if rawOpMaps == [] then [] else FlattenAll(rawOpMaps[..|rawOpMaps| - 1]) + Flatten(rawOpMaps[|rawOpMaps| - 1])
  }

  method CollectEventsFromRawOpMap(rawOpMaps: seq<seq<Collection>>) returns (manager: EventManager)
    ensures fresh(manager)
    ensures manager.Contents() == PutAll(Events([], map[]), FlattenAll(rawOpMaps))
  {
    manager := new EventManager();
    for i := 0 to |rawOpMaps|
      invariant fresh(manager)
      invariant manager.Contents() == PutAll(Events([], map[]), FlattenAll(rawOpMaps[..i]))
    {
      manager.GenerateEventsFromRawOps(rawOpMaps[i]);
      assert rawOpMaps[..i + 1][..i] == rawOpMaps[..i];
      PutAllAppend(Events([], map[]), FlattenAll(rawOpMaps[..i]), Flatten(rawOpMaps[i]));
    }
    assert rawOpMaps[..|rawOpMaps|] == rawOpMaps;
  }

  // ---------- what events and ops do to a record ----------

  /** A record's cells, or `None` where there is no record. */
  type Doc = Option<Cells>

  function ApplyOp(cells: Cells, op: OtOp): Cells {
    if op.oi.None? then cells - {op.fieldId} else cells[op.fieldId := op.oi.value]
  }

  function ApplyOps(cells: Cells, ops: seq<OtOp>): Cells
    decreases |ops|
  {
    if ops == [] then cells else ApplyOp(ApplyOps(cells, ops[..|ops| - 1]), ops[|ops| - 1])
  }

  function ApplyRaw(doc: Doc, raw: RawOp): Doc {
    match raw
    case CreateOp(data) => Some(data)
    case EditOp(ops) => if doc.None? then None else Some(ApplyOps(doc.value, ops))
    case DelOp => None
    case UnknownOp => doc
  }

  function Replay(prior: Doc, history: seq<RawOp>): Doc
    decreases |history|
  {
    if history == [] then prior else ApplyRaw(Replay(prior, history[..|history| - 1]), history[|history| - 1])
  }

  /** A record is created where there is none, and edited or deleted where there is one. */
  ghost predicate WellFormed(prior: Doc, history: seq<RawOp>)
    decreases |history|
  {
    history == [] ||
    var doc := Replay(prior, history[..|history| - 1]);
    && WellFormed(prior, history[..|history| - 1])
    && match history[|history| - 1]
       case CreateOp(_) => doc.None?
       case EditOp(_) => doc.Some?
       case DelOp => doc.Some?
       case UnknownOp => true
  }

  /** What a listener does with an event, by its kind. */
  function ApplyEvent(prior: Doc, event: Option<Event>): Doc {
    if event.None? then prior
    else
      match event.value.opType
      case Create => if event.value.payload.Fields? then Some(event.value.payload.fields) else prior
      case Edit =>
        if prior.Some? && event.value.payload.Changes? then Some(prior.value + NewValues(event.value.payload.changes))
        else prior
      case Del => None
  }

  /** What a reader sees in a cell. */
  function Seen(cells: Cells, field: string): Option<int> {
    if field in cells && cells[field].Other? then Some(cells[field].n) else None
  }

  ghost predicate SameCells(a: Cells, b: Cells) {
    forall k: string :: Seen(a, k) == Seen(b, k)
  }

  ghost predicate SameDoc(a: Doc, b: Doc) {
    a.Some? == b.Some? && (a.Some? ==> SameCells(a.value, b.value))
  }

  // ---------- the first pass keeps the net effect ----------

  /** The one event a document's history leaves. */
  function Merged(docType: DocType, docId: string, id: string, history: seq<RawOp>): Option<Event>
    decreases |history|
  {
    if history == [] then None
    else
      var before := Merged(docType, docId, id, history[..|history| - 1]);
      match EventOf(Entry(docType, docId, id, history[|history| - 1]))
      case None => before
      case Some(event) => if before.None? then Some(event) else Some(Merge(before.value, event))
  }

  function EditedFields(ops: seq<OtOp>): set<string> {
    set i | 0 <= i < |ops| :: ops[i].fieldId
  }

  /** The fields whose first values are still those the creating op carried. */
  function Untold(history: seq<RawOp>): set<string>
    decreases |history|
  {
    if history == [] then {}
    else
      match history[|history| - 1]
      case CreateOp(data) => set k | k in data && data[k].Other?
      case EditOp(ops) => Untold(history[..|history| - 1]) - EditedFields(ops)
      case DelOp => {}
      case UnknownOp => Untold(history[..|history| - 1])
  }

  lemma {:induction false} ChangesCoverOps(ops: seq<OtOp>)
    ensures ChangesOf(ops).Keys == EditedFields(ops)
    decreases |ops|
  {
    if ops != [] {
      var n := |ops| - 1;
      ChangesCoverOps(ops[..n]);
      forall k | k in EditedFields(ops[..n]) ensures k in EditedFields(ops) {
        var i :| 0 <= i < n && ops[..n][i].fieldId == k;
        assert ops[i].fieldId == k;
      }
      forall k | k in EditedFields(ops) && k != ops[n].fieldId ensures k in EditedFields(ops[..n]) {
        var i :| 0 <= i < |ops| && ops[i].fieldId == k;
        assert ops[..n][i].fieldId == k;
      }
    }
  }

  /** An edit's changes are its ops, for what a reader sees. */
  lemma {:induction false} ChangesMatchOps(cells: Cells, ops: seq<OtOp>)
    ensures SameCells(ApplyOps(cells, ops), cells + NewValues(ChangesOf(ops)))
    decreases |ops|
  {
    if ops != [] {
      var n := |ops| - 1;
      ChangesMatchOps(cells, ops[..n]);
      forall k: string ensures Seen(ApplyOps(cells, ops), k) == Seen(cells + NewValues(ChangesOf(ops)), k) {
        assert Seen(ApplyOps(cells, ops[..n]), k) == Seen(cells + NewValues(ChangesOf(ops[..n])), k);
      }
    }
  }

  /** An edit sees through to the same cells on both sides. */
  lemma SameAfterEdit(told: Cells, actual: Cells, field: string, ops: seq<OtOp>)
    ensures field in EditedFields(ops) || Seen(told, field) == Seen(actual, field)
            ==> Seen(told + NewValues(ChangesOf(ops)), field) == Seen(ApplyOps(actual, ops), field)
    ensures field !in EditedFields(ops) ==> Seen(ApplyOps(actual, ops), field) == Seen(actual, field)
  {
    ChangesMatchOps(actual, ops);
    ChangesCoverOps(ops);
    assert Seen(ApplyOps(actual, ops), field) == Seen(actual + NewValues(ChangesOf(ops)), field);
  }

  /** The fields of a creating event tell what the document holds, but for the untold ones. */
  ghost predicate FieldsTell(fields: Cells, doc: Cells, untold: set<string>) {
    && (forall k :: k in untold ==> k !in fields && Seen(doc, k).Some?)
    && (forall k :: k !in untold ==> Seen(fields, k) == Seen(doc, k))
  }

  /** How the kept event stands to the record: what it leaves untold is what the creating op carried. */
  ghost predicate Tells(prior: Doc, doc: Doc, event: Option<Event>, untold: set<string>) {
    match event
    case None => doc == prior && untold == {}
    case Some(e) =>
      match e.payload
      case Gone => e.opType.Del? && doc.None? && untold == {}
      case Changes(changes) =>
        && e.opType.Edit? && prior.Some? && doc.Some? && untold == {}
        && SameCells(prior.value + NewValues(changes), doc.value)
      case Fields(fields) =>
        e.opType.Create? && doc.Some? && FieldsTell(fields, doc.value, untold)
      case Whole(_) => false
  }

  lemma {:induction false} MergedTells(docId: string, id: string, prior: Doc, history: seq<RawOp>)
    requires WellFormed(prior, history)
    ensures Tells(prior, Replay(prior, history), Merged(RecordDoc, docId, id, history), Untold(history))
    decreases |history|
  {
    if history != [] {
      var n := |history| - 1;
      MergedTells(docId, id, prior, history[..n]);
      if history[n].EditOp? {
        EditTells(docId, id, prior, Replay(prior, history[..n]), Merged(RecordDoc, docId, id, history[..n]),
            Untold(history[..n]), history[n].ops);
      }
    }
  }

  lemma SameIsSymmetric(a: Cells, b: Cells)
    ensures SameCells(a, b) <==> SameCells(b, a)
  {
  }

  lemma MoreChangesTell(prior: Cells, changes: map<string, Change>, doc: Cells, ops: seq<OtOp>)
    requires SameCells(prior + NewValues(changes), doc)
    ensures SameCells(prior + NewValues(changes + ChangesOf(ops)), ApplyOps(doc, ops))
  {
    hide ChangesOf, ApplyOps, EditedFields;
    var told := prior + NewValues(changes);
    assert told + NewValues(ChangesOf(ops)) == prior + NewValues(changes + ChangesOf(ops));
    hide NewValues;
    forall k: string ensures Seen(told + NewValues(ChangesOf(ops)), k) == Seen(ApplyOps(doc, ops), k) {
      SameAfterEdit(told, doc, k, ops);
    }
  }

  lemma MoreFieldsTell(fields: Cells, doc: Cells, untold: set<string>, ops: seq<OtOp>)
    requires FieldsTell(fields, doc, untold)
    ensures FieldsTell(fields + NewValues(ChangesOf(ops)), ApplyOps(doc, ops), untold - EditedFields(ops))
  {
    hide ChangesOf, ApplyOps, EditedFields;
    ChangesCoverOps(ops);
    forall k: string
      ensures k !in untold - EditedFields(ops) ==>
                Seen(fields + NewValues(ChangesOf(ops)), k) == Seen(ApplyOps(doc, ops), k)
      ensures k in untold - EditedFields(ops) ==>
                k !in fields + NewValues(ChangesOf(ops)) && Seen(ApplyOps(doc, ops), k).Some?
    {
      SameAfterEdit(fields, doc, k, ops);
    }
  }

  lemma EditTells(docId: string, id: string, prior: Doc, doc: Doc, before: Option<Event>, untold: set<string>,
      ops: seq<OtOp>)
    requires Tells(prior, doc, before, untold) && doc.Some?
    ensures
      var event := EventOf(Entry(RecordDoc, docId, id, EditOp(ops))).value;
      Tells(prior, Some(ApplyOps(doc.value, ops)),
            if before.None? then Some(event) else Some(Merge(before.value, event)),
            untold - EditedFields(ops))
  {
    hide ChangesOf, ApplyOps, EditedFields, NewValues, SameCells, FieldsTell;
    if before.None? {
      SameIsSymmetric(ApplyOps(doc.value, ops), doc.value + NewValues(ChangesOf(ops)));
      ChangesMatchOps(doc.value, ops);
    } else if before.value.payload.Changes? {
      MoreChangesTell(prior.value, before.value.payload.changes, doc.value, ops);
    } else {
      MoreFieldsTell(before.value.payload.fields, doc.value, untold, ops);
    }
  }

  /** Coalescing: the one event does to the record what its ops did, in order, exactly when no cell still
      holds what the creating op itself carried. */
  lemma NetEffect(docId: string, id: string, prior: Doc, history: seq<RawOp>)
    requires WellFormed(prior, history)
    ensures SameDoc(ApplyEvent(prior, Merged(RecordDoc, docId, id, history)), Replay(prior, history))
            <==> Untold(history) == {}
  {
    MergedTells(docId, id, prior, history);
    var event := Merged(RecordDoc, docId, id, history);
    if k :| k in Untold(history) {
      assert Seen(event.value.payload.fields, k) != Seen(Replay(prior, history).value, k);
    }
  }

  /** The repository creates records without data and sets their cells by edits: then nothing is lost. */
  lemma {:induction false} EmptyCreatesLoseNothing(history: seq<RawOp>)
    requires forall i :: 0 <= i < |history| && history[i].CreateOp? ==>
               forall k :: k in history[i].data ==> !history[i].data[k].Other?
    ensures Untold(history) == {}
    decreases |history|
  {
    if history != [] {
      var n := |history| - 1;
      assert forall i :: 0 <= i < n ==> history[..n][i] == history[i];
      EmptyCreatesLoseNothing(history[..n]);
    }
  }

  // ---------- the event map holds each record's merged event ----------

  function HistoryOf(entries: seq<Entry>, id: string): seq<RawOp>
    decreases |entries|
  {
    if entries == [] then []
    else
      var n := |entries| - 1;
      HistoryOf(entries[..n], id) + if entries[n].id == id then [entries[n].raw] else []
  }

  function Lookup(events: Events, id: string): Option<Event> {
    if id in events.byId then Some(events.byId[id]) else None
  }

  /** An event of one more op, merged into the one there is. */
  function MergedWith(before: Option<Event>, event: Option<Event>): Option<Event> {
    match event
    case None => before
    case Some(e) => if before.None? then event else Some(Merge(before.value, e))
  }

  lemma MergedSnoc(docType: DocType, docId: string, id: string, before: seq<RawOp>, last: RawOp)
    ensures Merged(docType, docId, id, before + [last])
         == MergedWith(Merged(docType, docId, id, before), EventOf(Entry(docType, docId, id, last)))
  {
    hide EventOf, Merge;
    assert (before + [last])[..|before|] == before;
  }

  lemma LookupSnoc(before: seq<Entry>, entry: Entry, id: string)
    ensures
      var there := Lookup(PutAll(Events([], map[]), before), id);
      Lookup(PutAll(Events([], map[]), before + [entry]), id)
      == if entry.id == id then MergedWith(there, EventOf(entry)) else there
  {
    EventKeepsId(entry);
    hide EventOf, Merge;
    assert (before + [entry])[..|before|] == before;
  }

  lemma HistorySnoc(before: seq<Entry>, entry: Entry, id: string)
    ensures HistoryOf(before + [entry], id) == HistoryOf(before, id) + if entry.id == id then [entry.raw] else []
  {
    assert (before + [entry])[..|before|] == before;
  }

  /** The entries with an id are of one document. */
  ghost predicate OneDocument(entries: seq<Entry>, docType: DocType, docId: string, id: string) {
    forall i :: 0 <= i < |entries| && entries[i].id == id ==> entries[i].docType == docType && entries[i].docId == docId
  }

  /** However the ops of a document are spread over the op maps and mixed with those of others, the event kept
      for it is that of its own history. */
  lemma {:induction false} EventOfHistory(entries: seq<Entry>, docType: DocType, docId: string, id: string)
    requires OneDocument(entries, docType, docId, id)
    ensures Lookup(PutAll(Events([], map[]), entries), id) == Merged(docType, docId, id, HistoryOf(entries, id))
    decreases |entries|
  {
    if entries != [] {
      var before, entry := entries[..|entries| - 1], entries[|entries| - 1];
      assert entries == before + [entry];
      assert entry.id == id ==> entry == Entry(docType, docId, id, entry.raw);
      EventOfHistory(before, docType, docId, id);
      hide *;
      LookupSnoc(before, entry, id);
      HistorySnoc(before, entry, id);
      MergedSnoc(docType, docId, id, HistoryOf(before, id), entry.raw);
      NothingMore(HistoryOf(before, id));
    }
  }

  lemma NothingMore<T>(a: seq<T>)
    ensures a + [] == a
  {
  }

  lemma EventKeepsId(entry: Entry)
    ensures EventOf(entry).Some? ==>
            var event := EventOf(entry).value;
            event.id == entry.id && event.tableId == TableIdOf(entry) && event.docType == entry.docType
  {
  }

  /** So over any op maps, the event kept for a record does to it what its ops did, in order, exactly when
      no cell still holds what its creating op carried. */
  lemma CoalescingKeepsNetEffect(rawOpMaps: seq<seq<Collection>>, docId: string, id: string, prior: Doc)
    requires
      var entries := FlattenAll(rawOpMaps);
      OneDocument(entries, RecordDoc, docId, id) && WellFormed(prior, HistoryOf(entries, id))
    ensures
      var entries := FlattenAll(rawOpMaps);
      var event := Lookup(PutAll(Events([], map[]), entries), id);
      SameDoc(ApplyEvent(prior, event), Replay(prior, HistoryOf(entries, id))) <==> Untold(HistoryOf(entries, id)) == {}
  {
    hide *;
    EventOfHistory(FlattenAll(rawOpMaps), RecordDoc, docId, id);
    NetEffect(docId, id, prior, HistoryOf(FlattenAll(rawOpMaps), id));
  }
}
