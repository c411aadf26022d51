/** What kind of event a document's ops leave, and what it names. */
module OpEventKinds {
  import opened Documents
  import opened OpEvents
  import opened Wrappers

  // ---------- the kind of the kept event ----------

  predicate Known(raw: RawOp) {
    !raw.UnknownOp?
  }

  ghost predicate NothingKnown(history: seq<RawOp>) {
    forall i :: 0 <= i < |history| ==> !Known(history[i])
  }

  /** `raw` is the last op of a known kind. */
  ghost predicate LastKnown(history: seq<RawOp>, raw: RawOp) {
    exists i :: 0 <= i < |history| && history[i] == raw && Known(raw)
                && forall j :: i < j < |history| ==> !Known(history[j])
  }

  /** A creation comes last, but for edits of a record. */
  ghost predicate EndsInCreate(docType: DocType, history: seq<RawOp>) {
    exists i :: 0 <= i < |history| && history[i].CreateOp?
                && forall j :: i < j < |history| ==> !Known(history[j]) || (docType.RecordDoc? && history[j].EditOp?)
  }

  /** The kind a document's history comes down to: a deletion if one is last, a creation if one is last but for
      edits of a record, and else an edit. */
  ghost function KindOf(docType: DocType, history: seq<RawOp>): RawOpType {
    if LastKnown(history, DelOp) then Del else if EndsInCreate(docType, history) then Create else Edit
  }

  /** A record's event carries what its kind says; the event of another document carries its last op. */
  ghost predicate Carries(docType: DocType, history: seq<RawOp>, event: Event) {
    if docType.RecordDoc? then
      match event.opType
      case Create => event.payload.Fields?
      case Edit => event.payload.Changes?
      case Del => event.payload.Gone?
    else event.payload.Whole? && LastKnown(history, event.payload.raw)
  }

  lemma LastKnownSnoc(before: seq<RawOp>, last: RawOp, raw: RawOp)
    ensures LastKnown(before + [last], raw) <==> if Known(last) then raw == last else LastKnown(before, raw)
  {
    var history, n := before + [last], |before|;
    assert history[n] == last && forall i :: 0 <= i < n ==> history[i] == before[i];
    if Known(last) {
      if i :| 0 <= i < |history| && history[i] == raw && Known(raw)
              && forall j :: i < j < |history| ==> !Known(history[j])
      {
        assert i == n;
      }
    } else if i :| 0 <= i < n && before[i] == raw && Known(raw) && forall j :: i < j < n ==> !Known(before[j]) {
      assert history[i] == raw;
    }
  }

  lemma EndsInCreateSnoc(docType: DocType, before: seq<RawOp>, last: RawOp)
    ensures EndsInCreate(docType, before + [last]) <==>
            || last.CreateOp?
            || ((!Known(last) || (docType.RecordDoc? && last.EditOp?)) && EndsInCreate(docType, before))
  {
    var history, n := before + [last], |before|;
    assert history[n] == last && forall i :: 0 <= i < n ==> history[i] == before[i];
    if i :| 0 <= i < n && before[i].CreateOp?
            && forall j :: i < j < n ==> !Known(before[j]) || (docType.RecordDoc? && before[j].EditOp?)
    {
      assert history[i].CreateOp?;
    }
  }

  lemma NothingKnownSnoc(before: seq<RawOp>, last: RawOp)
    ensures NothingKnown(before + [last]) <==> NothingKnown(before) && !Known(last)
  {
    var history, n := before + [last], |before|;
    assert history[n] == last && forall i :: 0 <= i < n ==> history[i] == before[i];
  }

  /** What the merge of one more op comes to. */
  ghost predicate Fits(docType: DocType, docId: string, id: string, history: seq<RawOp>, kept: Option<Event>) {
    if NothingKnown(history) then kept.None?
    else
      && kept.Some?
      && kept.value.opType == KindOf(docType, history)
      && kept.value.docType == docType && kept.value.id == id
      && kept.value.tableId == (if "tbl" <= id then id else docId)
      && Carries(docType, history, kept.value)
  }

  lemma NothingEnds(docType: DocType, history: seq<RawOp>, raw: RawOp)
    requires NothingKnown(history)
    ensures !LastKnown(history, raw) && !EndsInCreate(docType, history)
  {
  }

  /** The event kept for a document: there is one exactly when some op is of a known kind, and its kind, its
      document, its table and what it carries follow from the ops. */
  lemma {:induction false} KindOfKept(docType: DocType, docId: string, id: string, history: seq<RawOp>)
    ensures Fits(docType, docId, id, history, Merged(docType, docId, id, history))
    decreases |history|
  {
    if history != [] {
      var before, last := history[..|history| - 1], history[|history| - 1];
      KindOfKept(docType, docId, id, before);
      assert history == before + [last];
      hide *;
      MergedSnoc(docType, docId, id, before, last);
      FitsSnoc(docType, docId, id, before, last, Merged(docType, docId, id, before));
    } else {
      assert NothingKnown(history);
    }
  }

  lemma FitsSnoc(docType: DocType, docId: string, id: string, before: seq<RawOp>, last: RawOp, kept: Option<Event>)
    requires Fits(docType, docId, id, before, kept)
    ensures
      var event := EventOf(Entry(docType, docId, id, last));
      Fits(docType, docId, id, before + [last], MergedWith(kept, event))
  {
    var event := EventOf(Entry(docType, docId, id, last));
    var merged := MergedWith(kept, event);
    LastKnownSnoc(before, last, DelOp);
    EndsInCreateSnoc(docType, before, last);
    NothingKnownSnoc(before, last);
    if NothingKnown(before) { NothingEnds(docType, before, DelOp); }
    if merged.Some? && merged.value.payload.Whole? { LastKnownSnoc(before, last, merged.value.payload.raw); }
    hide LastKnown, EndsInCreate, NothingKnown, ChangesOf, NewValues;
  }

  // ---------- the order of the kept events ----------

  /** Where the first op of a known kind on a document is; behind all entries when there is none. */
  function FirstKnown(entries: seq<Entry>, id: string): (i: nat)
    ensures i <= |entries|
  {
    if entries == [] || (entries[0].id == id && Known(entries[0].raw)) then 0 else 1 + FirstKnown(entries[1..], id)
  }

  lemma {:induction false} FirstKnownSnoc(before: seq<Entry>, entry: Entry, id: string)
    ensures FirstKnown(before + [entry], id) ==
            if FirstKnown(before, id) < |before| || (entry.id == id && Known(entry.raw)) then FirstKnown(before, id)
            else |before| + 1
  {
    var all := before + [entry];
    if before == [] {
      assert all[1..] == [];
    } else {
      FirstKnownSnoc(before[1..], entry, id);
      assert all[1..] == before[1..] + [entry];
    }
  }

  ghost predicate FirstFirst(entries: seq<Entry>, ids: seq<string>) {
    && (forall id :: id in ids <==> FirstKnown(entries, id) < |entries|)
    && (forall i, j :: 0 <= i < j < |ids| ==> FirstKnown(entries, ids[i]) < FirstKnown(entries, ids[j]))
  }

  /** The kept events are those of the documents with an op of a known kind, the one whose ops came first
      first. */
  lemma {:induction false} KeptInOrder(entries: seq<Entry>)
    ensures
      var kept := PutAll(Events([], map[]), entries);
      FirstFirst(entries, kept.ids) && forall id :: id in kept.ids <==> id in kept.byId
    decreases |entries|
  {
    if entries != [] {
      var before, entry := entries[..|entries| - 1], entries[|entries| - 1];
      KeptInOrder(before);
      assert entries == before + [entry];
      EventKeepsId(entry);
      assert EventOf(entry).Some? <==> Known(entry.raw);
      var kept, known := PutAll(Events([], map[]), before), EventOf(entry).Some?;
      hide EventOf, Merge;
      assert PutAll(Events([], map[]), entries).ids ==
             if known && entry.id !in kept.byId then kept.ids + [entry.id] else kept.ids;
      hide PutAll;
      FirstFirstSnoc(before, entry, kept.ids);
    }
  }

  lemma FirstFirstSnoc(before: seq<Entry>, entry: Entry, ids: seq<string>)
    requires FirstFirst(before, ids)
    ensures FirstFirst(before + [entry], if Known(entry.raw) && entry.id !in ids then ids + [entry.id] else ids)
  {
    hide FirstKnown;
    forall id: string
      ensures FirstKnown(before + [entry], id) ==
              if FirstKnown(before, id) < |before| || (entry.id == id && Known(entry.raw)) then FirstKnown(before, id)
              else |before| + 1
    {
      FirstKnownSnoc(before, entry, id);
    }
  }

  // ---------- old values ----------

  /** An op whose deleted value is what the cell held. */
  predicate Faithful(cells: Cells, op: OtOp) {
    op.od == if op.fieldId in cells then Some(cells[op.fieldId]) else None
  }

  /** What a reader takes a value for. */
  function Reading(value: Option<Value>): Option<int> {
    if value.Some? && value.value.Other? then Some(value.value.n) else None
  }

  /** An edit of different fields tells for each what a reader saw before it. */
  lemma {:induction false} OldValuesTold(cells: Cells, ops: seq<OtOp>, i: nat)
    requires i < |ops| && Faithful(cells, ops[i])
    requires forall j, k :: 0 <= j < k < |ops| ==> ops[j].fieldId != ops[k].fieldId
    ensures ops[i].fieldId in ChangesOf(ops)
    ensures Reading(ChangesOf(ops)[ops[i].fieldId].oldValue) == Seen(cells, ops[i].fieldId)
    decreases |ops|
  {
    var n := |ops| - 1;
    if i < n {
      OldValuesTold(cells, ops[..n], i);
    }
  }
}
