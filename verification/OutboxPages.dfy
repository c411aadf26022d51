/** Keyset pagination over the computed-update outbox. Other sessions may change every table between
    two page queries, so an iteration runs over one database per query. */
module OutboxPages {
  import opened Strings
  import opened Wrappers

  datatype Status = Waiting | Processing | Other

  datatype Row = Row(
    baseId: string,
    seedTableId: string,
    affectedTableIds: Option<seq<string>>,
    status: Status,
    nextRunAt: int,
    lockedAt: Option<int>)

  datatype Scope = BaseScope | TableScope | SpaceScope | OtherScope

  datatype Pause = Pause(scope: Scope, scopeId: string, resumeAt: Option<int>)

  /** One database at one moment; `spaces` pairs a base with its space. */
  datatype Db = Db(outbox: map<string, Row>, pauses: set<Pause>, spaces: set<(string, string)>, now: int)

  datatype Options = Options(processingLeaseMs: int, actionableOnly: bool)

  // ---------- the query ----------

  predicate Pauses(db: Db, p: Pause, row: Row) {
    && (p.resumeAt.None? || p.resumeAt.value > db.now)
    && match p.scope
       case BaseScope => p.scopeId == row.baseId
       case TableScope =>
         p.scopeId == row.seedTableId || (row.affectedTableIds.Some? && p.scopeId in row.affectedTableIds.value)
       case SpaceScope => (row.baseId, p.scopeId) in db.spaces
       case OtherScope => false
  }

  predicate LeaseExpired(db: Db, row: Row, processingLeaseMs: int) {
    row.lockedAt.None? || row.lockedAt.value <= db.now - processingLeaseMs
  }

  predicate Actionable(db: Db, row: Row, processingLeaseMs: int) {
    || (row.status.Waiting? && row.nextRunAt <= db.now)
    || (row.status.Processing? && LeaseExpired(db, row, processingLeaseMs))
  }

  predicate Candidate(db: Db, options: Options, id: string) {
    && id in db.outbox
    && !db.outbox[id].status.Other?
    && (forall p :: p in db.pauses ==> !Pauses(db, p, db.outbox[id]))
    && (options.actionableOnly ==> Actionable(db, db.outbox[id], options.processingLeaseMs))
  }

  /** The id filter is only added for a truthy `afterId`, so the empty id filters nothing. */
  predicate After(afterId: string, id: string) {
    afterId == "" || Less(afterId, id)
  }

  function Matching(db: Db, options: Options, afterId: string): set<string> {
    set id | id in db.outbox && Candidate(db, options, id) && After(afterId, id)
  }

  /** Ascending by id, at most `limit` rows. */
  function Page(db: Db, options: Options, afterId: string, limit: nat): seq<string> {
    var rows := Sorted(Matching(db, options, afterId));
    if |rows| <= limit then rows else rows[..limit]
  }

  // ---------- the iteration ----------

  /** What an iteration yields: its pages, whether it ran to its end, and how many queries it made. */
  datatype Iteration = Iteration(pages: seq<seq<string>>, completed: bool, used: nat)

  /** The pages from `afterId` on, over the databases the queries meet. An iteration that outlives
      `queries` is left unfinished. */
  function Pages(queries: seq<Db>, options: Options, limit: nat, afterId: string): (r: Iteration)
    ensures r.used <= |queries|
    decreases |queries|
  {
    if queries == [] then Iteration([], false, 0)
    else
      var rows := Page(queries[0], options, afterId, limit);
      if rows == [] then Iteration([], true, 1)
      else if |rows| < limit then Iteration([rows], true, 1)
      else
        var rest := Pages(queries[1..], options, limit, rows[|rows| - 1]);
        Iteration([rows] + rest.pages, rest.completed, rest.used + 1)
  }

  function BatchLimit(batchSize: int): nat {
    if batchSize < 1 then 1 else batchSize
  }

  /** The turn of the loop that finds `limit` rows in the database of query `used`. */
  lemma FullPageGoesOn(queries: seq<Db>, options: Options, limit: nat, afterId: string, used: nat,
      pages: seq<seq<string>>)
    requires used < |queries|
    requires
      var rows := Page(queries[used], options, afterId, limit);
      rows != [] && |rows| >= limit
    ensures
      var rows := Page(queries[used], options, afterId, limit);
      var here := Pages(queries[used..], options, limit, afterId);
      var rest := Pages(queries[used + 1..], options, limit, rows[|rows| - 1]);
      && here.completed == rest.completed && here.used == 1 + rest.used
      && pages + here.pages == (pages + [rows]) + rest.pages
  {
    hide Page;
    var here, rows := queries[used..], Page(queries[used], options, afterId, limit);
    assert here[0] == queries[used] && here[1..] == queries[used + 1..];
    var rest := Pages(queries[used + 1..], options, limit, rows[|rows| - 1]).pages;
    assert pages + ([rows] + rest) == (pages + [rows]) + rest;
  }

  method IterateComputedOutboxWakeupCandidates(queries: seq<Db>, options: Options, batchSize: int)
    returns (pages: seq<seq<string>>, completed: bool, used: nat)
    ensures Iteration(pages, completed, used) == Pages(queries, options, BatchLimit(batchSize), "")
  {
    hide Page, Candidate;
    pages, completed, used := [], false, 0;
    var afterId, limit := "", BatchLimit(batchSize);
    assert queries[0..] == queries;
    while used < |queries|
      invariant used <= |queries| && !completed
      invariant pages + Pages(queries[used..], options, limit, afterId).pages ==
          Pages(queries, options, limit, "").pages
      invariant Pages(queries[used..], options, limit, afterId).completed ==
          Pages(queries, options, limit, "").completed
      invariant used + Pages(queries[used..], options, limit, afterId).used == Pages(queries, options, limit, "").used
    {
      var rows := Page(queries[used], options, afterId, limit);
      if rows != [] && |rows| >= limit {
        FullPageGoesOn(queries, options, limit, afterId, used, pages);
      }
      used := used + 1;
      if rows == [] {
        completed := true;
        return;
      }
      pages := pages + [rows];
      if |rows| < limit {
        completed := true;
        return;
      }
      afterId := rows[|rows| - 1];
    }
  }

  function Flatten(pages: seq<seq<string>>): seq<string> {
    if pages == [] then [] else pages[0] + Flatten(pages[1..])
  }

  /** The ids an iteration yields, in order. */
  function Yielded(queries: seq<Db>, options: Options, limit: nat, afterId: string): seq<string> {
    Flatten(Pages(queries, options, limit, afterId).pages)
  }

  // ---------- order ----------

  ghost predicate AllAfter(bound: string, ids: seq<string>) {
    forall i :: 0 <= i < |ids| ==> Less(bound, ids[i])
  }

  lemma PageIsAscending(db: Db, options: Options, afterId: string, limit: nat)
    ensures
      var page := Page(db, options, afterId, limit);
      && Ascending(page)
      && |page| <= limit
      && (forall i :: 0 <= i < |page| ==> page[i] in Matching(db, options, afterId))
      && (afterId != "" ==> AllAfter(afterId, page))
  {
    SortedIsAscending(Matching(db, options, afterId));
    var rows, page := Sorted(Matching(db, options, afterId)), Page(db, options, afterId, limit);
    forall i | 0 <= i < |page| ensures page[i] in Matching(db, options, afterId) {
      assert page[i] == rows[i];
    }
  }

  lemma AscendingConcat(a: seq<string>, b: seq<string>)
    requires Ascending(a) && Ascending(b)
    requires a != [] ==> AllAfter(a[|a| - 1], b)
    ensures Ascending(a + b)
  {
    var c := a + b;
    forall i, j | 0 <= i < j < |c| ensures Less(c[i], c[j]) {
      if i < |a| <= j && i < |a| - 1 {
        LessIsTransitive(a[i], a[|a| - 1], b[j - |a|]);
      }
    }
  }

  lemma AllAfterConcat(bound: string, a: seq<string>, b: seq<string>)
    requires AllAfter(bound, a) && a != [] && AllAfter(a[|a| - 1], b)
    ensures AllAfter(bound, a + b)
  {
    forall i | 0 <= i < |a + b| ensures Less(bound, (a + b)[i]) {
      if i >= |a| { LessIsTransitive(bound, a[|a| - 1], b[i - |a|]); }
    }
  }

  lemma NothingBelowEmpty(a: string)
    ensures !Less(a, "")
  {
  }

  /** Past a non-empty id the iteration only moves up. */
  lemma {:induction false} YieldedAscends(queries: seq<Db>, options: Options, limit: nat, afterId: string)
    requires afterId != ""
    ensures Ascending(Yielded(queries, options, limit, afterId))
    ensures AllAfter(afterId, Yielded(queries, options, limit, afterId))
    decreases |queries|
  {
    if queries != [] {
      var page := Page(queries[0], options, afterId, limit);
      PageIsAscending(queries[0], options, afterId, limit);
      if page == [] || |page| < limit {
        assert Flatten([page]) == page + Flatten([]) == page;
      } else {
        var last := page[|page| - 1];
        NothingBelowEmpty(afterId);
        YieldedAscends(queries[1..], options, limit, last);
        YieldedFirst(queries, options, limit, afterId);
        AscendingConcat(page, Yielded(queries[1..], options, limit, last));
        AllAfterConcat(afterId, page, Yielded(queries[1..], options, limit, last));
      }
    }
  }

  lemma YieldedFirst(queries: seq<Db>, options: Options, limit: nat, afterId: string)
    requires queries != []
    ensures
      var page := Page(queries[0], options, afterId, limit);
      Yielded(queries, options, limit, afterId) ==
      if page == [] || |page| < limit then page
      else page + Yielded(queries[1..], options, limit, page[|page| - 1])
  {
    var page := Page(queries[0], options, afterId, limit);
    if page != [] && |page| >= limit {
      var rest := Pages(queries[1..], options, limit, page[|page| - 1]).pages;
      assert ([page] + rest)[1..] == rest;
    } else {
      assert Flatten([page]) == page + Flatten([]) == page;
    }
  }

  /** The one way an iteration can repeat an id: pages of one row, and the empty id among the candidates
      of the first two queries. */
  predicate RepeatsEmptyId(queries: seq<Db>, options: Options, limit: nat) {
    limit == 1 && |queries| >= 2 && Candidate(queries[0], options, "") && Candidate(queries[1], options, "")
  }

  lemma LeastIdFirst(db: Db, options: Options, limit: nat)
    requires limit >= 1
    ensures
      var page := Page(db, options, "", limit);
      Candidate(db, options, "") <==> page != [] && page[0] == ""
  {
    var rows := Sorted(Matching(db, options, ""));
    SortedIsAscending(Matching(db, options, ""));
    if Candidate(db, options, "") {
      assert "" in rows;
      var i :| 0 <= i < |rows| && rows[i] == "";
      NothingBelowEmpty(rows[0]);
    }
  }

  /** Pagination under interference never goes back: whatever happens to the tables between the queries,
      the yielded ids are strictly increasing, so none repeats. The sole exception is exact: one-row pages
      that meet the empty id twice in a row, which no later page can skip because it filters nothing. */
  lemma YieldedStrictlyIncreasing(queries: seq<Db>, options: Options, limit: nat)
    requires limit >= 1
    ensures Ascending(Yielded(queries, options, limit, "")) <==> !RepeatsEmptyId(queries, options, limit)
  {
    if queries != [] {
      var page := Page(queries[0], options, "", limit);
      PageIsAscending(queries[0], options, "", limit);
      YieldedFirst(queries, options, limit, "");
      LeastIdFirst(queries[0], options, limit);
      if page != [] && |page| >= limit {
        var last, rest := page[|page| - 1], queries[1..];
        if last != "" {
          YieldedAscends(rest, options, limit, last);
          AscendingConcat(page, Yielded(rest, options, limit, last));
          assert !RepeatsEmptyId(queries, options, limit);
        } else {
          EmptyIdEndsPage(page);
          SecondPage(queries, options);
        }
      }
    }
  }

  lemma EmptyIdEndsPage(page: seq<string>)
    requires Ascending(page) && page != [] && page[|page| - 1] == ""
    ensures page == [""]
  {
    if |page| > 1 { NothingBelowEmpty(page[|page| - 2]); }
  }

  lemma SecondPage(queries: seq<Db>, options: Options)
    requires queries != [] && Page(queries[0], options, "", 1) == [""]
    ensures Ascending(Yielded(queries, options, 1, "")) <==> !RepeatsEmptyId(queries, options, 1)
  {
    var rest, all := queries[1..], Yielded(queries, options, 1, "");
    YieldedFirst(queries, options, 1, "");
    LeastIdFirst(queries[0], options, 1);
    var tail := Yielded(rest, options, 1, "");
    assert all == [""] + tail;
    if rest != [] {
      var second := Page(rest[0], options, "", 1);
      PageIsAscending(rest[0], options, "", 1);
      YieldedFirst(rest, options, 1, "");
      LeastIdFirst(rest[0], options, 1);
      if second != [] {
        assert tail[0] == second[0] && all[1] == second[0];
        if second[0] == "" {
          LessIsStrict("");
          assert !Less(all[0], all[1]);
        } else {
          YieldedAscends(rest[1..], options, 1, second[0]);
          AscendingConcat(second, Yielded(rest[1..], options, 1, second[0]));
          assert AllAfter("", tail);
          AscendingConcat([""], tail);
        }
      }
    }
  }

  /** That happens with a table that holds a pending row under the empty id: asked for one row at a time, the
      iteration yields it at every query. */
  lemma EmptyIdIsRepeated(db: Db, options: Options, queries: seq<Db>)
    requires db.outbox.Keys == {""} && Candidate(db, options, "")
    requires |queries| >= 2 && forall k :: 0 <= k < |queries| ==> queries[k] == db
    ensures RepeatsEmptyId(queries, options, 1)
    ensures Yielded(queries, options, 1, "") == seq(|queries|, i => "") && !Pages(queries, options, 1, "").completed
  {
    EmptyIdIsYielded(db, options, queries);
  }

  lemma {:induction false} EmptyIdIsYielded(db: Db, options: Options, queries: seq<Db>)
    requires db.outbox.Keys == {""} && Candidate(db, options, "")
    requires forall k :: 0 <= k < |queries| ==> queries[k] == db
    ensures Yielded(queries, options, 1, "") == seq(|queries|, i => "") && !Pages(queries, options, 1, "").completed
    decreases |queries|
  {
    if queries != [] {
      var page := Page(db, options, "", 1);
      PageIsAscending(db, options, "", 1);
      LeastIdFirst(db, options, 1);
      assert page == [""];
      YieldedFirst(queries, options, 1, "");
      EmptyIdIsYielded(db, options, queries[1..]);
    }
  }

  /** Such a row is a candidate when it is pending, due and not paused. */
  lemma PendingRowIsCandidate(now: int, options: Options)
    ensures
      var row := Row("bse", "tbl", None, Waiting, now, None);
      Candidate(Db(map["" := row], {}, {}, now), options, "")
  {
  }

  // ---------- completeness ----------

  /** `id` satisfies the query's predicate in each of the first `n` databases. */
  ghost predicate CandidateThroughout(queries: seq<Db>, options: Options, n: nat, id: string)
    requires n <= |queries|
  {
    forall k :: 0 <= k < n ==> Candidate(queries[k], options, id)
  }

  /** A row past `afterId` that stays a candidate is on this page, or past it and the page is full. */
  lemma PageOrLater(db: Db, options: Options, afterId: string, limit: nat, id: string)
    requires Candidate(db, options, id) && After(afterId, id)
    ensures
      var page := Page(db, options, afterId, limit);
      id in page || (|page| == limit && (limit >= 1 ==> Less(page[limit - 1], id)))
  {
    var rows := Sorted(Matching(db, options, afterId));
    SortedIsAscending(Matching(db, options, afterId));
    assert id in rows;
    var i :| 0 <= i < |rows| && rows[i] == id;
    if |rows| > limit && i < limit { assert rows[..limit][i] == id; }
  }

  lemma {:induction false} StableRowsAreYielded(queries: seq<Db>, options: Options, limit: nat, afterId: string,
      id: string)
    requires limit >= 1 && After(afterId, id)
    requires Pages(queries, options, limit, afterId).completed
    requires CandidateThroughout(queries, options, Pages(queries, options, limit, afterId).used, id)
    ensures id in Yielded(queries, options, limit, afterId)
    decreases |queries|
  {
    hide Page, Candidate, Flatten;
    var page := Page(queries[0], options, afterId, limit);
    YieldedFirst(queries, options, limit, afterId);
    assert Candidate(queries[0], options, id);
    PageOrLater(queries[0], options, afterId, limit, id);
    hide Yielded;
    if id !in page {
      var last, rest := page[limit - 1], queries[1..];
      forall k | 0 <= k < Pages(rest, options, limit, last).used ensures Candidate(rest[k], options, id) {
        assert rest[k] == queries[k + 1];
      }
      StableRowsAreYielded(rest, options, limit, last, id);
    }
  }

  lemma {:induction false} AscendingHoldsOnce(ids: seq<string>, id: string)
    requires Ascending(ids)
    ensures multiset(ids)[id] == if id in ids then 1 else 0
  {
    if ids != [] {
      AscendingHoldsOnce(ids[1..], id);
      assert ids == [ids[0]] + ids[1..];
      if ids[0] in ids[1..] {
        var j :| 0 <= j < |ids[1..]| && ids[1..][j] == ids[0];
        assert Less(ids[0], ids[j + 1]);
        LessIsStrict(ids[0]);
      }
    }
  }

  /** Every row that satisfies the query's predicate at each query of a completed iteration is yielded,
      and exactly once unless it is the empty id of `RepeatsEmptyId`. */
  lemma StableRowsExactlyOnce(queries: seq<Db>, options: Options, batchSize: int, id: string)
    requires
      var run := Pages(queries, options, BatchLimit(batchSize), "");
      run.completed && CandidateThroughout(queries, options, run.used, id)
    ensures id in Yielded(queries, options, BatchLimit(batchSize), "")
    ensures !RepeatsEmptyId(queries, options, BatchLimit(batchSize)) ==>
              multiset(Yielded(queries, options, BatchLimit(batchSize), ""))[id] == 1
  {
    var limit := BatchLimit(batchSize);
    StableRowsAreYielded(queries, options, limit, "", id);
    if !RepeatsEmptyId(queries, options, limit) {
      YieldedStrictlyIncreasing(queries, options, limit);
      AscendingHoldsOnce(Yielded(queries, options, limit, ""), id);
    }
  }

  /** Nothing else is yielded: page `k` holds candidates of database `k` only. */
  lemma {:induction false} YieldedAreCandidates(queries: seq<Db>, options: Options, limit: nat, afterId: string)
    ensures
      var run := Pages(queries, options, limit, afterId);
      && |run.pages| <= |queries|
      && forall k, i :: 0 <= k < |run.pages| && 0 <= i < |run.pages[k]| ==>
          Candidate(queries[k], options, run.pages[k][i])
    decreases |queries|
  {
    if queries != [] {
      var page := Page(queries[0], options, afterId, limit);
      PageIsAscending(queries[0], options, afterId, limit);
      if page != [] && |page| >= limit {
        YieldedAreCandidates(queries[1..], options, limit, page[|page| - 1]);
      }
    }
  }

  // ---------- when a yielded candidate is due ----------

  /** `dueAt` as the generator computes it for the caller. */
  function DueAt(row: Row, processingLeaseMs: int): int {
    if row.status.Processing? && row.lockedAt.Some? then row.lockedAt.value + processingLeaseMs else row.nextRunAt
  }

  /** An actionable candidate is reported as due by now, except for a processing row without a lock time
      whose next run lies ahead: the query takes it, the report dates it in the future. */
  lemma ActionableIsDue(db: Db, options: Options, id: string)
    requires options.actionableOnly && Candidate(db, options, id)
    ensures
      var row := db.outbox[id];
      DueAt(row, options.processingLeaseMs) <= db.now
      <==> !(row.status.Processing? && row.lockedAt.None? && row.nextRunAt > db.now)
  {
  }
}
