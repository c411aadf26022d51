/** The ShareDB adapter keeps no op log: it makes up the ops a client asks for from a document's current
    version and snapshot. Random source ids are left out. */
module ShareDbOps {
  import opened Documents
  import opened Wrappers

  /** The entries of a snapshot's fields or properties, in the object's own order. */
  type Data = seq<(string, Value)>

  /** What an op sets. */
  type Component = (string, Value)

  /** An edit op without components only moves the version. */
  datatype Op = CreateOp(v: int, data: Data) | EditOp(v: int, components: Option<seq<Component>>)

  datatype VersionAndType = VersionAndType(version: int, opType: RawOpType)

  datatype Result<+T> = Ok(value: T) | NotFound(id: string)

  /** A stored document row, whose version counts its ops. */
  datatype Stored = Stored(version: int, deleted: bool)

  /** The last op of a stored document: its version is one less than the row's. `None` stands for the
      request the service rejects, a row with a version below 1. */
  function FormatVersionAndType(row: Option<Stored>): Option<VersionAndType> {
    match row
    case None => Some(VersionAndType(-1, Del))
    case Some(stored) =>
      if stored.version < 1 then None
      else if stored.deleted then Some(VersionAndType(stored.version - 1, Del))
      else if stored.version == 1 then Some(VersionAndType(0, Create))
      else Some(VersionAndType(stored.version - 1, Edit))
  }

  predicate HasGapVersion(current: VersionAndType, from: int) {
    !current.opType.Del? && from <= current.version
  }

  /** The op builders: a record op writes null for an empty list, a property op only carries a value that
      is not null, and a view has no ops. */
  function OpsFromSnapshot(docType: DocType, data: Data): seq<Component> {
    if data == [] then []
    else
      var (key, value) := data[0];
      var rest := OpsFromSnapshot(docType, data[1..]);
      match docType
      case RecordDoc => [(key, if value == EmptyList then Null else value)] + rest
      case FieldDoc => if key == "id" || value == Null then rest else [(key, value)] + rest
      case TableDoc => if key == "id" || value == Null then rest else [(key, value)] + rest
      case ViewDoc => []
  }

  /** The end of the requested range; `to || version + 1` takes a requested end of 0 for none. */
  function RangeEnd(version: int, to: Option<int>): int {
    if to.None? || to.value == 0 then version + 1 else to.value
  }

  function GapVersion(version: int, from: int, to: Option<int>): nat {
    var gap := RangeEnd(version, to) - from;
    if gap > 0 then gap else 0
  }

  /** The edit ops of a gap: bare ones, and the snapshot in the last. */
  function EditOps(from: int, gap: nat, components: seq<Component>): (ops: seq<Op>)
    ensures |ops| == gap
    ensures forall i :: 0 <= i < gap ==> ops[i] == EditOp(from + i, if i == gap - 1 then Some(components) else None)
  {
    seq(gap, i requires 0 <= i < gap => EditOp(from + i, if i == gap - 1 then Some(components) else None))
  }

  function SynthesizeOps(docType: DocType, id: string, current: VersionAndType, snapshot: string -> Option<Data>,
                         from: int, to: Option<int>): Result<seq<Op>>
  {
    if !HasGapVersion(current, from) then Ok([])
    else
      match snapshot(id)
      case None => NotFound(id)
      case Some(data) =>
        if current.opType.Create? then Ok([CreateOp(current.version, data)])
        else Ok(EditOps(from, GapVersion(current.version, from, to), OpsFromSnapshot(docType, data)))
  }

  /** `internalGetOps`, with its loop over the gap. */
  method InternalGetOps(docType: DocType, id: string, current: VersionAndType, snapshot: string -> Option<Data>,
                        from: int, to: Option<int>) returns (result: Result<seq<Op>>)
    ensures result == SynthesizeOps(docType, id, current, snapshot, from, to)
  {
    if !HasGapVersion(current, from) {
      return Ok([]);
    }
    var found := snapshot(id);
    if found.None? {
      return NotFound(id);
    }
    if current.opType.Create? {
      return Ok([CreateOp(current.version, found.value)]);
    }
    var editOp := OpsFromSnapshot(docType, found.value);
    var gapVersion := GapVersion(current.version, from, to);
    var editOps: seq<Op> := seq(gapVersion, i => EditOp(from + i, None));
    if gapVersion > 0 {
      editOps := editOps[gapVersion - 1 := editOps[gapVersion - 1].(components := Some(editOp))];
    }
    assert editOps == EditOps(from, gapVersion, editOp);
    return Ok(editOps);
  }

  // ---------- the client ----------

  /** A client's copy: `None` before the document is created. */
  datatype Doc = Doc(version: int, data: Option<map<string, Value>>)

  function Assign(data: map<string, Value>, components: seq<Component>): map<string, Value>
    decreases |components|
  {
    if components == [] then data else Assign(data[components[0].0 := components[0].1], components[1..])
  }

  /** Applying an op meant for another version, or of the wrong kind, fails. */
  function Apply(doc: Doc, op: Op): Option<Doc> {
    if op.v != doc.version then None
    else
      match op
      case CreateOp(v, data) => if doc.data.None? then Some(Doc(v + 1, Some(Assign(map[], data)))) else None
      case EditOp(v, components) =>
        if doc.data.None? then None
        else Some(Doc(v + 1, if components.None? then doc.data else Some(Assign(doc.data.value, components.value))))
  }

  function Replay(doc: Doc, ops: seq<Op>): Option<Doc>
    decreases |ops|
  {
    if ops == [] then Some(doc)
    else match Apply(doc, ops[0]) case None => None case Some(next) => Replay(next, ops[1..])
  }

  // ---------- single requests ----------

  /** The ops of a document start at `from` and have no gap; only the last carries anything. */
  lemma OpsAreContiguous(docType: DocType, id: string, row: Option<Stored>, snapshot: string -> Option<Data>,
      from: nat, to: Option<int>)
    requires FormatVersionAndType(row).Some?
    requires SynthesizeOps(docType, id, FormatVersionAndType(row).value, snapshot, from, to).Ok?
    ensures
      var ops := SynthesizeOps(docType, id, FormatVersionAndType(row).value, snapshot, from, to).value;
      && (forall i :: 0 <= i < |ops| ==> ops[i].v == from + i)
      && (forall i :: 0 <= i < |ops| - 1 ==> ops[i] == EditOp(from + i, None))
  {
  }

  /** The service rejects exactly the rows that claim to have no op; a missing document has no ops, whatever is
      asked for, and needs no snapshot for that. */
  lemma RowsAnswered(docType: DocType, id: string, row: Option<Stored>, snapshot: string -> Option<Data>, from: int,
      to: Option<int>)
    ensures FormatVersionAndType(row).None? <==> row.Some? && row.value.version < 1
    ensures row.None? ==> SynthesizeOps(docType, id, FormatVersionAndType(row).value, snapshot, from, to) == Ok([])
  {
  }

  /** The number of ops is that of the requested range, except that a requested end of 0 is taken for an
      open end: the range then comes out empty only if the client is already past the document. */
  lemma RangeLength(docType: DocType, id: string, current: VersionAndType, snapshot: string -> Option<Data>,
      from: nat, to: nat)
    requires current.opType.Edit? && snapshot(id).Some? && from <= current.version
    ensures
      var result := SynthesizeOps(docType, id, current, snapshot, from, Some(to));
      && result.Ok?
      && (|result.value| == (if to > from then to - from else 0) <==> to != 0)
  {
  }

  /** Replaying the made-up edits of a gap of at least one op. */
  lemma {:induction false} ReplayEdits(doc: Doc, from: int, gap: nat, components: seq<Component>)
    requires doc.version == from && doc.data.Some? && gap > 0
    ensures Replay(doc, EditOps(from, gap, components)) ==
        Some(Doc(from + gap, Some(Assign(doc.data.value, components))))
    decreases gap
  {
    var ops := EditOps(from, gap, components);
    if gap > 1 {
      ReplayEdits(Doc(from + 1, doc.data), from + 1, gap - 1, components);
      assert ops[1..] == EditOps(from + 1, gap - 1, components);
    } else {
      assert ops[1..] == [];
    }
  }

  /** A client at `from` that replays what it is given for an open range ends at the stored version, its
      fields overridden by the snapshot's; a client of a new document is created with the snapshot; a
      client that is up to date, or whose document is deleted, stays as it is. */
  lemma ReplayCatchesUp(docType: DocType, id: string, stored: Stored, snapshot: string -> Option<Data>, doc: Doc)
    requires stored.version >= 1 && 0 <= doc.version <= stored.version
    requires doc.data.None? <==> doc.version == 0
    requires !stored.deleted && stored.version > 1 ==> doc.data.Some?
    requires !stored.deleted ==> snapshot(id).Some?
    ensures
      var result := SynthesizeOps(docType, id, FormatVersionAndType(Some(stored)).value, snapshot, doc.version, None);
      && result.Ok?
      && Replay(doc, result.value) ==
         if stored.deleted || doc.version == stored.version then Some(doc)
         else if stored.version == 1 then Some(Doc(1, Some(Assign(map[], snapshot(id).value))))
         else Some(Doc(stored.version, Some(Assign(doc.data.value, OpsFromSnapshot(docType, snapshot(id).value)))))
  {
    if !stored.deleted && doc.version < stored.version && stored.version > 1 {
      ReplayEdits(doc, doc.version, stored.version - doc.version, OpsFromSnapshot(docType, snapshot(id).value));
    }
  }

  lemma {:induction false} AssignIsOverride(data: map<string, Value>, components: seq<Component>)
    ensures Assign(data, components) == data + Assign(map[], components)
    decreases |components|
  {
    if components == [] {
      assert data + map[] == data;
    } else {
      var one: map<string, Value> := map[components[0].0 := components[0].1];
      var empty: map<string, Value> := map[];
      AssignIsOverride(data[components[0].0 := components[0].1], components[1..]);
      AssignIsOverride(one, components[1..]);
      assert empty[components[0].0 := components[0].1] == one;
      assert data[components[0].0 := components[0].1] == data + one;
    }
  }

  /** Whatever end is asked for, a client of an edited document reaches it with its fields overridden by
      the snapshot's, or stays as it is when it is past that end. */
  lemma ReplayReachesEnd(docType: DocType, id: string, current: VersionAndType, snapshot: string -> Option<Data>,
      doc: Doc, to: Option<int>)
    requires current.opType.Edit? && snapshot(id).Some? && doc.data.Some? && 0 <= doc.version <= current.version
    ensures
      var result, end := SynthesizeOps(docType, id, current, snapshot, doc.version, to), RangeEnd(current.version, to);
      && result.Ok?
      && Replay(doc, result.value) ==
         Some(if end > doc.version then Doc(end, Some(doc.data.value + Carried(docType, snapshot(id).value))) else doc)
  {
    var components, end := OpsFromSnapshot(docType, snapshot(id).value), RangeEnd(current.version, to);
    if end > doc.version {
      ReplayEdits(doc, doc.version, end - doc.version, components);
      AssignIsOverride(doc.data.value, components);
    }
  }

  /** What the op of a snapshot sets. */
  function Carried(docType: DocType, data: Data): map<string, Value> {
    Assign(map[], OpsFromSnapshot(docType, data))
  }

  /** Whether a snapshot's entry is in its op, and with what value. */
  function CarriedValue(docType: DocType, key: string, value: Value): Option<Value> {
    match docType
    case RecordDoc => Some(if value == EmptyList then Null else value)
    case ViewDoc => None
    case _ => if key == "id" || value == Null then None else Some(value)
  }

  predicate HasKey(data: Data, key: string) {
    exists i :: 0 <= i < |data| && data[i].0 == key
  }

  ghost predicate DistinctKeys(data: Data) {
    forall i, j :: 0 <= i < j < |data| ==> data[i].0 != data[j].0
  }

  lemma {:induction false} CarriesOnly(docType: DocType, data: Data, key: string)
    ensures key in Carried(docType, data) ==> HasKey(data, key)
    decreases |data|
  {
    if data != [] {
      CarriedFirst(docType, data);
      CarriesOnly(docType, data[1..], key);
      hide Carried, CarriedValue;
      if i :| 0 <= i < |data[1..]| && data[1..][i].0 == key { assert data[i + 1].0 == key; }
      assert data[0].0 == key ==> HasKey(data, key);
    }
  }

  lemma {:induction false} CarriesEntry(docType: DocType, data: Data, i: nat)
    requires DistinctKeys(data) && i < |data|
    ensures match CarriedValue(docType, data[i].0, data[i].1)
            case None => data[i].0 !in Carried(docType, data)
            case Some(value) => data[i].0 in Carried(docType, data) && Carried(docType, data)[data[i].0] == value
    decreases |data|
  {
    CarriedFirst(docType, data);
    hide Carried, CarriedValue;
    if i == 0 {
      CarriesOnly(docType, data[1..], data[0].0);
      assert forall j :: 0 <= j < |data[1..]| ==> data[1..][j] == data[j + 1];
    } else {
      CarriesEntry(docType, data[1..], i - 1);
      assert data[1..][i - 1] == data[i];
    }
  }

  /** The op of a snapshot sets each entry it carries to that entry's value, and nothing else: all entries
      for a record, an empty list as null; for a field or table those but the id and the empty ones; none
      for a view. */
  lemma OpCarriesSnapshot(docType: DocType, data: Data)
    requires DistinctKeys(data)
    ensures forall i :: 0 <= i < |data| ==>
              match CarriedValue(docType, data[i].0, data[i].1)
              case None => data[i].0 !in Carried(docType, data)
              case Some(value) => data[i].0 in Carried(docType, data) && Carried(docType, data)[data[i].0] == value
    ensures forall k :: k in Carried(docType, data) ==> HasKey(data, k)
  {
    hide Carried, CarriedValue, HasKey;
    forall i | 0 <= i < |data|
      ensures match CarriedValue(docType, data[i].0, data[i].1)
              case None => data[i].0 !in Carried(docType, data)
              case Some(value) => data[i].0 in Carried(docType, data) && Carried(docType, data)[data[i].0] == value
    {
      CarriesEntry(docType, data, i);
    }
    forall k | k in Carried(docType, data) ensures HasKey(data, k) {
      CarriesOnly(docType, data, k);
    }
  }

  lemma CarriedFirst(docType: DocType, data: Data)
    requires data != []
    ensures Carried(docType, data) ==
            match CarriedValue(docType, data[0].0, data[0].1)
            case None => Carried(docType, data[1..])
            case Some(value) => map[data[0].0 := value] + Carried(docType, data[1..])
  {
    var rest := OpsFromSnapshot(docType, data[1..]);
    match CarriedValue(docType, data[0].0, data[0].1)
    case None =>
      if docType.ViewDoc? { ViewsCarryNothing(data[1..]); }
    case Some(value) =>
      var one: map<string, Value> := map[data[0].0 := value];
      assert OpsFromSnapshot(docType, data) == [(data[0].0, value)] + rest;
      assert ([(data[0].0, value)] + rest)[1..] == rest;
      AssignIsOverride(one, rest);
  }

  lemma ViewsCarryNothing(data: Data)
    ensures OpsFromSnapshot(ViewDoc, data) == []
  {
  }

  /** The snapshot as an object. */
  function Entries(data: Data): map<string, Value> {
    Assign(map[], data)
  }

  lemma {:induction false} EntriesHold(data: Data)
    requires DistinctKeys(data)
    ensures forall i :: 0 <= i < |data| ==> data[i].0 in Entries(data) && Entries(data)[data[i].0] == data[i].1
    ensures forall k :: k in Entries(data) ==> HasKey(data, k)
    decreases |data|
  {
    if data != [] {
      var one: map<string, Value> := map[data[0].0 := data[0].1];
      AssignIsOverride(one, data[1..]);
      EntriesHold(data[1..]);
      assert Entries(data) == one + Entries(data[1..]);
      hide Entries;
      forall i | 0 < i < |data| ensures data[i].0 != data[0].0 && data[1..][i - 1] == data[i] {}
      forall k | k in Entries(data[1..]) ensures k != data[0].0 && HasKey(data, k) {
        var i :| 0 <= i < |data[1..]| && data[1..][i].0 == k;
        assert data[i + 1].0 == k;
      }
      assert HasKey(data, data[0].0);
    }
  }

  /** The client has no field that the snapshot lacks. */
  ghost predicate NothingGone(fields: map<string, Value>, data: Data) {
    forall k :: k in fields ==> HasKey(data, k)
  }

  /** What a client must have and the snapshot must be for the op to make the one into the other. A record:
      no cell was cleared away, and no cell is an empty list. A field or table: no property is gone, and the
      ones the op leaves out, the id and the empty ones, are there already. A view: everything is. */
  ghost predicate OpSuffices(docType: DocType, fields: map<string, Value>, data: Data) {
    match docType
    case RecordDoc => NothingGone(fields, data) && forall i :: 0 <= i < |data| ==> data[i].1 != EmptyList
    case ViewDoc => fields == Entries(data)
    case _ =>
      && NothingGone(fields, data)
      && forall i :: 0 <= i < |data| && (data[i].0 == "id" || data[i].1 == Null) ==>
           data[i].0 in fields && fields[data[i].0] == data[i].1
  }

  /** What overriding leaves of one entry's key. */
  lemma OverriddenEntry(docType: DocType, fields: map<string, Value>, data: Data, i: nat)
    requires DistinctKeys(data) && i < |data|
    ensures
      var (key, value) := data[i];
      var after := fields + Carried(docType, data);
      match CarriedValue(docType, key, value)
      case None => (key in after <==> key in fields) && (key in after ==> after[key] == fields[key])
      case Some(carried) => key in after && after[key] == carried
  {
    hide Carried, CarriedValue;
    OpCarriesSnapshot(docType, data);
  }

  lemma OverriddenKeys(docType: DocType, fields: map<string, Value>, data: Data, key: string)
    requires DistinctKeys(data)
    ensures key in fields + Carried(docType, data) ==> key in fields || HasKey(data, key)
    ensures key in fields ==> key in fields + Carried(docType, data)
    ensures key in Entries(data) <==> HasKey(data, key)
  {
    hide Carried, CarriedValue, Entries;
    OpCarriesSnapshot(docType, data);
    EntriesHold(data);
  }

  lemma MeetsThenSuffices(docType: DocType, fields: map<string, Value>, data: Data)
    requires DistinctKeys(data) && !docType.ViewDoc? && fields + Carried(docType, data) == Entries(data)
    ensures OpSuffices(docType, fields, data)
  {
    hide Carried, Entries, HasKey;
    forall k | k in fields ensures HasKey(data, k) {
      OverriddenKeys(docType, fields, data, k);
    }
    EntriesHold(data);
    forall i | 0 <= i < |data|
      ensures match CarriedValue(docType, data[i].0, data[i].1)
              case None => data[i].0 in fields && fields[data[i].0] == data[i].1
              case Some(carried) => carried == data[i].1
    {
      OverriddenEntry(docType, fields, data, i);
    }
  }

  lemma SufficesThenMeets(docType: DocType, fields: map<string, Value>, data: Data)
    requires DistinctKeys(data) && !docType.ViewDoc? && OpSuffices(docType, fields, data)
    ensures fields + Carried(docType, data) == Entries(data)
  {
    hide Carried, Entries;
    var after, entries := fields + Carried(docType, data), Entries(data);
    EntriesHold(data);
    forall k: string ensures k in after <==> k in entries
      ensures k in after && k in entries ==> after[k] == entries[k]
    {
      OverriddenKeys(docType, fields, data, k);
      if i :| 0 <= i < |data| && data[i].0 == k { OverriddenEntry(docType, fields, data, i); }
    }
  }

  lemma OverrideMeetsSnapshot(docType: DocType, fields: map<string, Value>, data: Data)
    requires DistinctKeys(data)
    ensures fields + Carried(docType, data) == Entries(data) <==> OpSuffices(docType, fields, data)
  {
    if docType.ViewDoc? {
      NoneCarried(data);
      assert fields + Carried(docType, data) == fields;
    } else {
      hide OpSuffices, Carried, Entries, DistinctKeys;
      if OpSuffices(docType, fields, data) { SufficesThenMeets(docType, fields, data); }
      if fields + Carried(docType, data) == Entries(data) { MeetsThenSuffices(docType, fields, data); }
    }
  }

  lemma NoneCarried(data: Data)
    ensures Carried(ViewDoc, data) == map[]
  {
    ViewsCarryNothing(data);
  }

  /** Replaying up to the stored version makes a client's copy of an edited document equal to the snapshot
      exactly when the op suffices; in particular, fields gone from the snapshot are not cleared. */
  lemma ReplayMeetsSnapshot(docType: DocType, id: string, stored: Stored, snapshot: string -> Option<Data>, doc: Doc)
    requires stored.version > 1 && !stored.deleted && 0 <= doc.version < stored.version && doc.data.Some?
    requires snapshot(id).Some? && DistinctKeys(snapshot(id).value)
    ensures
      var result := SynthesizeOps(docType, id, FormatVersionAndType(Some(stored)).value, snapshot, doc.version, None);
      && result.Ok? && Replay(doc, result.value).Some?
      && (Replay(doc, result.value).value == Doc(stored.version, Some(Entries(snapshot(id).value)))
          <==> OpSuffices(docType, doc.data.value, snapshot(id).value))
  {
    hide SynthesizeOps, Replay, Carried, Entries, OpSuffices;
    ReplayReachesEnd(docType, id, FormatVersionAndType(Some(stored)).value, snapshot, doc, None);
    OverrideMeetsSnapshot(docType, doc.data.value, snapshot(id).value);
  }

  /** A field that a client has and the snapshot lacks keeps the client's value. */
  lemma GoneFieldStays(docType: DocType, fields: map<string, Value>, data: Data, key: string)
    requires DistinctKeys(data) && key in fields && !HasKey(data, key)
    ensures (fields + Carried(docType, data))[key] == fields[key] && key !in Entries(data)
  {
    hide Carried, Entries, HasKey;
    OpCarriesSnapshot(docType, data);
    OverriddenKeys(docType, fields, data, key);
  }

  /** So does a cell cleared on the server, with a client that catches up. */
  lemma ClearedCellStays(snapshot: string -> Option<Data>)
    requires snapshot("rec") == Some([("name", Other(1))])
    ensures
      var doc := Doc(1, Some(map["name" := Other(1), "note" := Other(2)]));
      var result := SynthesizeOps(RecordDoc, "rec", VersionAndType(1, Edit), snapshot, 1, None);
      && result.Ok? && Replay(doc, result.value).Some?
      && var after := Replay(doc, result.value).value;
         && after.version == 2 && after.data.Some? && "note" in after.data.value
         && "note" !in Entries(snapshot("rec").value)
  {
    hide SynthesizeOps, Replay, Carried, Entries;
    var fields: map<string, Value> := map["name" := Other(1), "note" := Other(2)];
    ReplayReachesEnd(RecordDoc, "rec", VersionAndType(1, Edit), snapshot, Doc(1, Some(fields)), None);
    assert [("name", Other(1))][0].0 == "name" && "name" != "note";
    GoneFieldStays(RecordDoc, fields, snapshot("rec").value, "note");
  }

  lemma AssignTwice(data: map<string, Value>, components: seq<Component>)
    ensures Assign(Assign(data, components), components) == Assign(data, components)
  {
    AssignIsOverride(data, components);
    AssignIsOverride(Assign(data, components), components);
    var override := Assign(map[], components);
    assert (data + override) + override == data + override;
  }

  lemma SynthesizedEdits(docType: DocType, id: string, current: VersionAndType, snapshot: string -> Option<Data>,
      from: int, to: int)
    requires current.opType.Edit? && snapshot(id).Some? && 0 <= from <= current.version && from < to
    ensures SynthesizeOps(docType, id, current, snapshot, from, Some(to))
            == Ok(EditOps(from, to - from, OpsFromSnapshot(docType, snapshot(id).value)))
  {
  }

  /** Fetching a range in two parts gives the document that fetching it at once gives. */
  lemma ReplayComposes(docType: DocType, id: string, current: VersionAndType, snapshot: string -> Option<Data>,
      doc: Doc, mid: int, to: int)
    requires current.opType.Edit? && snapshot(id).Some? && doc.data.Some?
    requires 0 <= doc.version < mid < to <= current.version + 1
    ensures
      var first := SynthesizeOps(docType, id, current, snapshot, doc.version, Some(mid));
      var second := SynthesizeOps(docType, id, current, snapshot, mid, Some(to));
      var whole := SynthesizeOps(docType, id, current, snapshot, doc.version, Some(to));
      && first.Ok? && second.Ok? && whole.Ok?
      && Replay(doc, first.value).Some?
      && Replay(Replay(doc, first.value).value, second.value) == Replay(doc, whole.value)
  {
    hide SynthesizeOps, EditOps, Assign, Replay, OpsFromSnapshot;
    var components := OpsFromSnapshot(docType, snapshot(id).value);
    var fields := doc.data.value;
    SynthesizedEdits(docType, id, current, snapshot, doc.version, mid);
    SynthesizedEdits(docType, id, current, snapshot, mid, to);
    SynthesizedEdits(docType, id, current, snapshot, doc.version, to);
    ReplayEdits(doc, doc.version, mid - doc.version, components);
    ReplayEdits(Doc(mid, Some(Assign(fields, components))), mid, to - mid, components);
    ReplayEdits(doc, doc.version, to - doc.version, components);
    AssignTwice(fields, components);
  }

  // ---------- bulk requests ----------

  /** The documents of a collection as the services report them. */
  datatype Source = Source(rows: map<string, VersionAndType>, snapshots: map<string, Data>)

  function SnapshotOf(source: Source): string -> Option<Data> {
    id => if id in source.snapshots then Some(source.snapshots[id]) else None
  }

  /** `getOps`: a missing document counts as deleted. */
  function GetOps(source: Source, docType: DocType, id: string, from: int, to: Option<int>): Result<seq<Op>> {
    SynthesizeOps(docType, id, if id in source.rows then source.rows[id] else VersionAndType(-1, Del),
                  SnapshotOf(source), from, to)
  }

  type Requests = seq<(string, int)>

  /** The ids whose snapshots `getOpsBulk` fetches ahead. */
  function Prefetched(source: Source, requests: Requests): seq<string> {
    if requests == [] then []
    else
      var (id, from) := requests[0];
      (if id in source.rows && HasGapVersion(source.rows[id], from) then [id] else [])
      + Prefetched(source, requests[1..])
  }

  function RangeTo(toMap: map<string, Option<int>>, id: string): Option<int> {
    if id in toMap then toMap[id] else None
  }

  ghost predicate Distinct(requests: Requests) {
    forall i, j :: 0 <= i < j < |requests| ==> requests[i].0 != requests[j].0
  }

  /** The single form of request `i`. */
  function Single(source: Source, docType: DocType, requests: Requests, toMap: map<string, Option<int>>,
      i: nat): Result<seq<Op>>
    requires i < |requests|
  {
    var id := requests[i].0;
    GetOps(source, docType, id, requests[i].1, if id in toMap then toMap[id] else None)
  }

  /** Request `i` is the first whose single form fails, and it fails for `id`. */
  ghost predicate FirstError(source: Source, docType: DocType, requests: Requests, toMap: map<string, Option<int>>,
      i: nat, id: string)
    requires i < |requests|
  {
    && Single(source, docType, requests, toMap, i) == NotFound(id)
    && forall j :: 0 <= j < i ==> Single(source, docType, requests, toMap, j).Ok?
  }

  /** `getOpsBulk`: one version query, one snapshot query for the ids that need one, then the single form
      per id over what was fetched; the first error ends it. */
  method GetOpsBulk(source: Source, docType: DocType, requests: Requests, toMap: map<string, Option<int>>)
    returns (result: Result<map<string, seq<Op>>>)
    requires Distinct(requests)
    ensures result.Ok? <==> forall i :: 0 <= i < |requests| ==> Single(source, docType, requests, toMap, i).Ok?
    ensures result.Ok? ==> result.value.Keys == set i | 0 <= i < |requests| :: requests[i].0
    ensures result.Ok? ==> forall i :: 0 <= i < |requests| ==>
              Single(source, docType, requests, toMap, i) == Ok(result.value[requests[i].0])
    ensures result.NotFound? ==>
              exists i :: 0 <= i < |requests| && FirstError(source, docType, requests, toMap, i, result.id)
  {
    hide SynthesizeOps, Prefetched, HasGapVersion, GetOps;
    var need := NeedSnapshots(source, requests);
    var fetched := map id | id in need && id in source.snapshots :: source.snapshots[id];
    var ops: map<string, seq<Op>> := map[];
    for i := 0 to |requests|
      invariant ops.Keys == set j | 0 <= j < i :: requests[j].0
      invariant forall j :: 0 <= j < i ==> Single(source, docType, requests, toMap, j) == Ok(ops[requests[j].0])
    {
      var (id, from) := requests[i];
      var current := if id in source.rows then source.rows[id] else VersionAndType(0, Del);
      FetchedSuffices(source, docType, requests, i, RangeTo(toMap, id), fetched);
      var one := InternalGetOps(docType, id, current, SnapshotOf(Source(source.rows, fetched)), from,
          RangeTo(toMap, id));
      if one.NotFound? {
        assert FirstError(source, docType, requests, toMap, i, one.id);
        return NotFound(one.id);
      }
      ops := ops[id := one.value];
    }
    return Ok(ops);
  }

  lemma PrefetchedNext(source: Source, requests: Requests, i: nat, need: seq<string>)
    requires i < |requests|
    ensures
      var (id, from) := requests[i];
      var needs := if id in source.rows && HasGapVersion(source.rows[id], from) then [id] else [];
      need + Prefetched(source, requests[i..]) == (need + needs) + Prefetched(source, requests[i + 1..])
  {
    hide HasGapVersion;
    assert requests[i..][1..] == requests[i + 1..];
  }

  /** The loop of `getOpsBulk` that collects the ids to fetch. */
  method NeedSnapshots(source: Source, requests: Requests) returns (need: seq<string>)
    ensures need == Prefetched(source, requests)
  {
    hide HasGapVersion;
    need := [];
    assert requests[0..] == requests;
    for i := 0 to |requests|
      invariant need + Prefetched(source, requests[i..]) == Prefetched(source, requests)
    {
      PrefetchedNext(source, requests, i, need);
      var (id, from) := requests[i];
      if id in source.rows && HasGapVersion(source.rows[id], from) {
        need := need + [id];
      }
    }
  }

  /** The single form over what was fetched ahead is the single form over the whole collection. */
  lemma FetchedSuffices(source: Source, docType: DocType, requests: Requests, i: nat, to: Option<int>,
      fetched: map<string, Data>)
    requires i < |requests|
    requires fetched == map id | id in Prefetched(source, requests) && id in source.snapshots :: source.snapshots[id]
    ensures
      var (id, from) := requests[i];
      SynthesizeOps(docType, id, if id in source.rows then source.rows[id] else VersionAndType(0, Del),
                    SnapshotOf(Source(source.rows, fetched)), from, to)
      == GetOps(source, docType, id, from, to)
  {
    hide Prefetched;
    var (id, from) := requests[i];
    if id in source.rows && HasGapVersion(source.rows[id], from) {
      PrefetchCovers(source, requests, i);
      assert SnapshotOf(Source(source.rows, fetched))(id) == SnapshotOf(source)(id);
    }
  }

  lemma {:induction false} PrefetchCovers(source: Source, requests: Requests, i: nat)
    requires i < |requests|
    requires requests[i].0 in source.rows && HasGapVersion(source.rows[requests[i].0], requests[i].1)
    ensures requests[i].0 in Prefetched(source, requests)
  {
    if i > 0 { PrefetchCovers(source, requests[1..], i - 1); }
  }

  /** Nothing is fetched in vain and nothing is missed: the ids fetched ahead are those whose ops could not
      be made without a snapshot. */
  lemma {:induction false} PrefetchExact(source: Source, docType: DocType, requests: Requests,
      toMap: map<string, Option<int>>, id: string)
    ensures id in Prefetched(source, requests) <==>
            exists i :: 0 <= i < |requests| && requests[i].0 == id
                        && GetOps(Source(source.rows, map[]), docType, id, requests[i].1, RangeTo(toMap, id)).NotFound?
  {
    if requests != [] {
      PrefetchExact(source, docType, requests[1..], toMap, id);
      assert requests == [requests[0]] + requests[1..];
      if i :| 0 <= i < |requests[1..]| && requests[1..][i].0 == id
              && GetOps(Source(source.rows, map[]), docType, id, requests[1..][i].1, RangeTo(toMap, id)).NotFound?
      {
        assert requests[i + 1] == requests[1..][i];
      }
    }
  }
}
