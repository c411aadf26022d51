/** Which rows an iteration yields, told by their states, their pauses and the size of a batch. */
module OutboxWakeups {
  import opened OutboxPages
  import opened Strings
  import opened Wrappers

  // ---------- pauses ----------

  /** All that a pause can be on to hold a row back: its base, its seed table, the tables it affects, and the
      spaces of its base. */
  function ScopesOf(db: Db, row: Row): set<(Scope, string)> {
    {(BaseScope, row.baseId), (TableScope, row.seedTableId)}
    + (if row.affectedTableIds.None? then {} else set t | t in row.affectedTableIds.value :: (TableScope, t))
    + (set pair | pair in db.spaces && pair.0 == row.baseId :: (SpaceScope, pair.1))
  }

  /** A pause without an end or with a later one is on one of the row's scopes. */
  ghost predicate OnHold(db: Db, row: Row) {
    exists p :: p in db.pauses && (p.scope, p.scopeId) in ScopesOf(db, row)
                && (p.resumeAt.None? || db.now < p.resumeAt.value)
  }

  // ---------- readiness ----------

  /** The row waits for its time and that has come, or its worker has held it for the whole lease or has left
      no time of locking it. */
  predicate Due(db: Db, row: Row, processingLeaseMs: int) {
    match row.status
    case Waiting => row.nextRunAt <= db.now
    case Processing => row.lockedAt.None? || row.lockedAt.value + processingLeaseMs <= db.now
    case Other => false
  }

  predicate Ready(db: Db, row: Row, options: Options) {
    Due(db, row, options.processingLeaseMs) || (!options.actionableOnly && !row.status.Other?)
  }

  lemma CandidatesAreReady(db: Db, options: Options, id: string)
    ensures Candidate(db, options, id) <==>
            id in db.outbox && Ready(db, db.outbox[id], options) && !OnHold(db, db.outbox[id])
  {
    if id in db.outbox {
      var row := db.outbox[id];
      forall p | p in db.pauses
        ensures Pauses(db, p, row) <==>
                (p.scope, p.scopeId) in ScopesOf(db, row) && (p.resumeAt.None? || db.now < p.resumeAt.value)
      {
        PauseIsOnScope(db, p, row);
      }
      hide Pauses, ScopesOf;
    }
  }

  lemma PauseIsOnScope(db: Db, p: Pause, row: Row)
    ensures Pauses(db, p, row) <==>
            (p.scope, p.scopeId) in ScopesOf(db, row) && (p.resumeAt.None? || db.now < p.resumeAt.value)
  {
    var scope := (p.scope, p.scopeId);
    assert p.scope.SpaceScope? ==> (scope in ScopesOf(db, row) <==> (row.baseId, p.scopeId) in db.spaces) by {
      if p.scope.SpaceScope? && (row.baseId, p.scopeId) in db.spaces {
        assert (row.baseId, p.scopeId).0 == row.baseId;
      }
    }
  }

  // ---------- main results ----------

  /** Whatever others change between the queries, every row on a page is ready and not on hold when the page is
      read. */
  lemma YieldedAreReady(queries: seq<Db>, options: Options, limit: nat, k: nat, i: nat)
    requires
      var pages := Pages(queries, options, limit, "").pages;
      k < |pages| && i < |pages[k]|
    ensures
      var id := Pages(queries, options, limit, "").pages[k][i];
      && k < |queries| && id in queries[k].outbox
      && Ready(queries[k], queries[k].outbox[id], options) && !OnHold(queries[k], queries[k].outbox[id])
  {
    YieldedAreCandidates(queries, options, limit, "");
    CandidatesAreReady(queries[k], options, Pages(queries, options, limit, "").pages[k][i]);
  }

  /** Over a database that does not change, a completed iteration yields exactly the rows that are ready and not
      on hold. */
  lemma YieldsExactlyTheReady(db: Db, queries: seq<Db>, options: Options, limit: nat, id: string)
    requires limit >= 1 && forall k :: 0 <= k < |queries| ==> queries[k] == db
    requires Pages(queries, options, limit, "").completed
    ensures id in Yielded(queries, options, limit, "") <==>
            id in db.outbox && Ready(db, db.outbox[id], options) && !OnHold(db, db.outbox[id])
  {
    CandidatesAreReady(db, options, id);
    hide Candidate, OnHold, Ready;
    if Candidate(db, options, id) {
      StableRowsAreYielded(queries, options, limit, "", id);
    }
    if id in Yielded(queries, options, limit, "") {
      var pages := Pages(queries, options, limit, "").pages;
      var k := FlattenedFrom(pages, id);
      YieldedAreCandidates(queries, options, limit, "");
      var i :| 0 <= i < |pages[k]| && pages[k][i] == id;
      assert Candidate(queries[k], options, id);
    }
  }

  lemma {:induction false} FlattenedFrom(pages: seq<seq<string>>, id: string) returns (k: nat)
    requires id in Flatten(pages)
    ensures k < |pages| && id in pages[k]
  {
    if id in pages[0] {
      k := 0;
    } else {
      k := FlattenedFrom(pages[1..], id);
      k := k + 1;
    }
  }

  /** Every page but the last is a batch, the last one a part of a batch. */
  ghost predicate Batches(pages: seq<seq<string>>, batch: nat) {
    && (forall k :: 0 <= k < |pages| ==> 1 <= |pages[k]| <= batch)
    && (forall k :: 0 <= k < |pages| - 1 ==> |pages[k]| == batch)
  }

  lemma BatchesCons(page: seq<string>, rest: seq<seq<string>>, batch: nat)
    requires Batches(rest, batch) && |page| == batch >= 1
    ensures Batches([page] + rest, batch)
  {
    var pages := [page] + rest;
    assert forall k :: 0 < k < |pages| ==> pages[k] == rest[k - 1];
  }

  /** The pages are batches of the requested size; one below 1 counts as 1. */
  lemma {:induction false} PagesAreBatches(queries: seq<Db>, options: Options, batchSize: int, afterId: string)
    ensures Batches(Pages(queries, options, BatchLimit(batchSize), afterId).pages,
                    if batchSize < 1 then 1 else batchSize)
    decreases |queries|
  {
    if queries != [] {
      var limit := BatchLimit(batchSize);
      var page := Page(queries[0], options, afterId, limit);
      PageIsAscending(queries[0], options, afterId, limit);
      hide Page;
      if page != [] && |page| >= limit {
        var last := page[|page| - 1];
        PagesAreBatches(queries[1..], options, batchSize, last);
        BatchesCons(page, Pages(queries[1..], options, limit, last).pages, limit);
      }
    }
  }
}
