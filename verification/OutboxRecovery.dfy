/** Recovery of a dead-lettered task into the outbox: a transaction that locks the dead row, inserts it
    into the outbox unless that conflicts, and deletes it from the dead letters. */
module OutboxRecovery {
  import opened Wrappers

  datatype Task = Task(
    baseId: string,
    seedTableId: string,
    changeType: string,
    planHash: string,
    payload: string,
    maxAttempts: nat,
    pending: bool,
    attempts: nat,
    nextRunAt: int,
    lockedAt: Option<int>,
    lastError: Option<string>)

  datatype Result = Recovered(baseId: string) | Conflict | NotFound

  /** Where a recovery attempt stands. `Locked` and later hold the row lock on the dead task; `Inserted`
      holds an outbox row, `Moved` also the deletion, both invisible until commit. */
  datatype Phase =
    | Ready(id: string)
    | Locked(id: string, row: Task)
    | Inserted(id: string, row: Task, revived: Task)
    | Moved(id: string, row: Task, revived: Task)
    | Refused(id: string, conflict: bool)
    | Done(id: string, result: Result)
    | RolledBack(id: string)

  type Attempt = nat

  /** The committed tables and the attempts in progress. */
  datatype State = State(outbox: map<string, Task>, dead: map<string, Task>, attempts: map<Attempt, Phase>)

  /** The outbox row a dead row becomes: its plan kept, its execution state reset. */
  function Revive(row: Task, now: int): Task {
    row.(pending := true, attempts := 0, nextRunAt := now, lockedAt := None, lastError := None)
  }

  /** The unique index over pending rows. */
  predicate SamePlan(a: Task, b: Task) {
    && a.pending && b.pending
    && a.baseId == b.baseId && a.seedTableId == b.seedTableId
    && a.planHash == b.planHash && a.changeType == b.changeType
  }

  /** Inserting `row` as `id` would break the primary key or the pending-plan index. */
  predicate Clashes(outbox: map<string, Task>, id: string, row: Task) {
    id in outbox || exists other :: other in outbox && SamePlan(outbox[other], row)
  }

  /** The phase holds the row lock on its dead task. */
  predicate Locking(p: Phase) {
    p.Locked? || p.Inserted? || p.Moved? || (p.Refused? && p.conflict)
  }

  predicate Unlocked(s: State, id: string) {
    forall a :: a in s.attempts && Locking(s.attempts[a]) ==> s.attempts[a].id != id
  }

  predicate HoldsInsert(p: Phase) {
    p.Inserted? || p.Moved?
  }

  /** An insert waits while another transaction holds an uncommitted row it would clash with. */
  predicate NoInsertInFlight(s: State, id: string, row: Task) {
    forall a :: a in s.attempts && HoldsInsert(s.attempts[a]) ==>
      s.attempts[a].id != id && !SamePlan(s.attempts[a].revived, row)
  }

  // ---------- the statements of the transaction ----------

  function SetPhase(s: State, a: Attempt, p: Phase): State {
    s.(attempts := s.attempts[a := p])
  }

  datatype Step =
    | Select(a: Attempt)
    | Insert(a: Attempt, now: int)
    | DeleteDead(a: Attempt)
    | Commit(a: Attempt)
    | Rollback(a: Attempt)

  predicate Enabled(s: State, step: Step) {
    && step.a in s.attempts
    && var p := s.attempts[step.a];
       match step
       case Select(_) => p.Ready? && Unlocked(s, p.id)
       case Insert(_, now) => p.Locked? && NoInsertInFlight(s, p.id, Revive(p.row, now))
       case DeleteDead(_) => p.Inserted?
       case Commit(_) => p.Moved? || p.Refused?
       case Rollback(_) => !p.Done? && !p.RolledBack?
  }

  function Next(s: State, step: Step): State
    requires Enabled(s, step)
  {
    var p := s.attempts[step.a];
    match step
    case Select(a) =>
      SetPhase(s, a, if p.id in s.dead then Locked(p.id, s.dead[p.id]) else Refused(p.id, false))
    case Insert(a, now) =>
      var revived := Revive(p.row, now);
      SetPhase(s, a, if Clashes(s.outbox, p.id, revived) then Refused(p.id, true) else Inserted(p.id, p.row, revived))
    case DeleteDead(a) =>
      SetPhase(s, a, Moved(p.id, p.row, p.revived))
    case Commit(a) =>
      if p.Refused? then SetPhase(s, a, Done(p.id, if p.conflict then Conflict else NotFound))
      else SetPhase(s, a, Done(p.id, Recovered(p.row.baseId)))
           .(outbox := s.outbox[p.id := p.revived], dead := s.dead - {p.id})
    case Rollback(a) =>
      SetPhase(s, a, RolledBack(p.id))
  }

  // ---------- the service, one transaction at a time ----------

  class ComputedOutboxStore {
    var outbox: map<string, Task>
    var dead: map<string, Task>

    ghost function Abs(attempts: map<Attempt, Phase>): State
      reads this
    {
      State(outbox, dead, attempts)
    }

    /** `recoverComputedOutboxMaintenanceAnomaly` for a dead task, run without interference. */
    method Recover(taskId: string, now: int) returns (result: Result)
      modifies this
      ensures
        var s := Transaction(old(Abs(map[0 := Ready(taskId)])), 0, now);
        Abs(map[0 := Done(taskId, result)]) == s
    {
      if taskId !in dead {
        return NotFound;
      }
      var row := dead[taskId];
      var revived := Revive(row, now);
      if Clashes(outbox, taskId, revived) {
        return Conflict;
      }
      outbox := outbox[taskId := revived];
      dead := dead - {taskId};
      return Recovered(row.baseId);
    }
  }

  /** The statements of one attempt in a row. */
  function Transaction(s: State, a: Attempt, now: int): State
    requires a in s.attempts && s.attempts[a].Ready? && s.attempts.Keys == {a}
  {
    var selected := Next(s, Select(a));
    if selected.attempts[a].Refused? then Next(selected, Commit(a))
    else
      var inserted := Next(selected, Insert(a, now));
      if inserted.attempts[a].Refused? then Next(inserted, Commit(a))
      else Next(Next(inserted, DeleteDead(a)), Commit(a))
  }

  lemma SetAgain(s: State, a: Attempt, p: Phase, q: Phase)
    ensures SetPhase(SetPhase(s, a, p), a, q) == SetPhase(s, a, q)
  {
    assert s.attempts[a := p][a := q] == s.attempts[a := q];
  }

  /** Where the statements in a row end. */
  lemma TransactionEnd(s: State, a: Attempt, now: int)
    requires a in s.attempts && s.attempts[a].Ready? && s.attempts.Keys == {a}
    ensures
      var id := s.attempts[a].id;
      Transaction(s, a, now) ==
      if id !in s.dead then SetPhase(s, a, Done(id, NotFound))
      else
        var row := s.dead[id];
        var revived := Revive(row, now);
        if Clashes(s.outbox, id, revived) then SetPhase(s, a, Done(id, Conflict))
        else
          SetPhase(s, a, Done(id, Recovered(row.baseId))).(outbox := s.outbox[id := revived], dead := s.dead - {id})
  {
    hide Clashes, Revive;
    var id := s.attempts[a].id;
    if id !in s.dead {
      SetAgain(s, a, Refused(id, false), Done(id, NotFound));
    } else {
      var row := s.dead[id];
      var revived := Revive(row, now);
      SetAgain(s, a, Locked(id, row), Inserted(id, row, revived));
      SetAgain(s, a, Locked(id, row), Refused(id, true));
      SetAgain(s, a, Refused(id, true), Done(id, Conflict));
      SetAgain(s, a, Inserted(id, row, revived), Moved(id, row, revived));
      SetAgain(s, a, Moved(id, row, revived), Done(id, Recovered(row.baseId)));
    }
  }

  // ---------- what every step keeps ----------

  ghost predicate PlansUnique(outbox: map<string, Task>) {
    forall x, y :: x in outbox && y in outbox && x != y ==> !SamePlan(outbox[x], outbox[y])
  }

  predicate SameLock(p: Phase, q: Phase) {
    Locking(p) && Locking(q) && p.id == q.id
  }

  predicate DeadRowHeld(dead: map<string, Task>, p: Phase) {
    p.Locked? || HoldsInsert(p) ==> p.id in dead && dead[p.id] == p.row
  }

  /** A row lock has one holder, and the holder's dead row is still there. */
  ghost predicate LocksInv(s: State) {
    && (forall a :: a in s.attempts ==> DeadRowHeld(s.dead, s.attempts[a]))
    && (forall a, b :: a in s.attempts && b in s.attempts && a != b ==> !SameLock(s.attempts[a], s.attempts[b]))
  }

  predicate SameInsert(p: Phase, q: Phase) {
    HoldsInsert(p) && HoldsInsert(q) && SamePlan(p.revived, q.revived)
  }

  predicate InsertFits(outbox: map<string, Task>, p: Phase) {
    HoldsInsert(p) ==> p.revived.pending && !Clashes(outbox, p.id, p.revived)
  }

  /** Uncommitted outbox rows clash with no committed row and with no other uncommitted one. */
  ghost predicate InsertsInv(s: State) {
    && PlansUnique(s.outbox)
    && (forall a :: a in s.attempts ==> InsertFits(s.outbox, s.attempts[a]))
    && (forall a, b :: a in s.attempts && b in s.attempts && a != b ==> !SameInsert(s.attempts[a], s.attempts[b]))
  }

  predicate SameReport(p: Phase, q: Phase) {
    RecoveredBy(p) && RecoveredBy(q) && p.id == q.id
  }

  predicate ReportHolds(outbox: map<string, Task>, dead: map<string, Task>, p: Phase) {
    RecoveredBy(p) ==> p.id in outbox && p.id !in dead
  }

  /** A task reported as recovered is in the outbox and out of the dead letters, by one attempt only. */
  ghost predicate ReportsInv(s: State) {
    && (forall a :: a in s.attempts ==> ReportHolds(s.outbox, s.dead, s.attempts[a]))
    && (forall a, b :: a in s.attempts && b in s.attempts && a != b ==> !SameReport(s.attempts[a], s.attempts[b]))
  }

  ghost predicate Inv(s: State) {
    LocksInv(s) && InsertsInv(s) && ReportsInv(s)
  }

  predicate RecoveredBy(p: Phase) {
    p.Done? && p.result.Recovered?
  }

  /** Conservation of one step: the tasks in the two tables stay the same, and none enters both. */
  ghost predicate Conserves(s: State, s': State) {
    && s'.outbox.Keys + s'.dead.Keys == s.outbox.Keys + s.dead.Keys
    && s'.outbox.Keys * s'.dead.Keys <= s.outbox.Keys * s.dead.Keys
    && s'.attempts.Keys == s.attempts.Keys
  }

  /** What the new phase of one attempt must meet for the invariants to be kept. */
  ghost predicate LockFits(s: State, a: Attempt, p: Phase) {
    && a in s.attempts && DeadRowHeld(s.dead, p)
    && forall b :: b in s.attempts && b != a ==> !SameLock(p, s.attempts[b]) && !SameLock(s.attempts[b], p)
  }

  lemma SetKeepsLocks(s: State, a: Attempt, p: Phase)
    requires LocksInv(s) && LockFits(s, a, p)
    ensures LocksInv(SetPhase(s, a, p))
  {
    hide SameLock, DeadRowHeld;
  }

  ghost predicate PhaseInsertFits(s: State, a: Attempt, p: Phase) {
    && a in s.attempts && InsertFits(s.outbox, p)
    && forall b :: b in s.attempts && b != a ==> !SameInsert(p, s.attempts[b]) && !SameInsert(s.attempts[b], p)
  }

  lemma SetKeepsInserts(s: State, a: Attempt, p: Phase)
    requires InsertsInv(s) && PhaseInsertFits(s, a, p)
    ensures InsertsInv(SetPhase(s, a, p))
  {
    hide SameInsert, InsertFits, PlansUnique;
  }

  lemma SetKeepsReports(s: State, a: Attempt, p: Phase)
    requires ReportsInv(s) && a in s.attempts && !RecoveredBy(p)
    ensures ReportsInv(SetPhase(s, a, p))
  {
  }

  lemma SelectKeeps(s: State, a: Attempt)
    requires Inv(s) && Enabled(s, Select(a))
    ensures Inv(Next(s, Select(a)))
  {
    hide LocksInv, InsertsInv, ReportsInv, Clashes, SamePlan;
    var p := Next(s, Select(a)).attempts[a];
    SetKeepsLocks(s, a, p);
    SetKeepsInserts(s, a, p);
    SetKeepsReports(s, a, p);
  }

  lemma InsertKeeps(s: State, a: Attempt, now: int)
    requires Inv(s) && Enabled(s, Insert(a, now))
    ensures Inv(Next(s, Insert(a, now)))
  {
    hide LocksInv, InsertsInv, ReportsInv;
    var p := Next(s, Insert(a, now)).attempts[a];
    InsertFitsLocks(s, a, now);
    SetKeepsLocks(s, a, p);
    InsertFitsInserts(s, a, now);
    SetKeepsInserts(s, a, p);
    SetKeepsReports(s, a, p);
  }

  lemma InsertFitsLocks(s: State, a: Attempt, now: int)
    requires LocksInv(s) && Enabled(s, Insert(a, now))
    ensures LockFits(s, a, Next(s, Insert(a, now)).attempts[a])
  {
    hide Clashes, SamePlan, NoInsertInFlight;
    assert DeadRowHeld(s.dead, s.attempts[a]);
    forall b | b in s.attempts && b != a ensures !SameLock(s.attempts[a], s.attempts[b]) {
    }
  }

  lemma InsertFitsInserts(s: State, a: Attempt, now: int)
    requires Enabled(s, Insert(a, now))
    ensures PhaseInsertFits(s, a, Next(s, Insert(a, now)).attempts[a])
  {
    SamePlanIsSymmetric();
    hide SamePlan, Clashes;
  }

  lemma SamePlanIsSymmetric()
    ensures forall x, y :: SamePlan(x, y) <==> SamePlan(y, x)
  {
  }

  /** `p` holds no more than `before` does: the phase after a deletion, a refusal's commit or a rollback. */
  ghost predicate HoldsNoMore(p: Phase, before: Phase) {
    && p.id == before.id && !p.Locked? && !RecoveredBy(p)
    && (Locking(p) ==> Locking(before))
    && (HoldsInsert(p) ==> HoldsInsert(before) && p.row == before.row && p.revived == before.revived)
  }

  lemma LessFitsLocks(s: State, a: Attempt, p: Phase)
    requires LocksInv(s) && a in s.attempts && HoldsNoMore(p, s.attempts[a])
    ensures LockFits(s, a, p)
  {
    assert DeadRowHeld(s.dead, s.attempts[a]);
    forall b | b in s.attempts && b != a ensures !SameLock(s.attempts[a], s.attempts[b]) {
    }
  }

  lemma LessFitsInserts(s: State, a: Attempt, p: Phase)
    requires InsertsInv(s) && a in s.attempts && HoldsNoMore(p, s.attempts[a])
    ensures PhaseInsertFits(s, a, p)
  {
    hide Clashes, SamePlan, PlansUnique;
    assert InsertFits(s.outbox, s.attempts[a]);
    forall b | b in s.attempts && b != a
      ensures !SameInsert(s.attempts[a], s.attempts[b]) && !SameInsert(s.attempts[b], s.attempts[a])
    {
    }
  }

  lemma OtherStepsKeep(s: State, step: Step)
    requires Inv(s) && Enabled(s, step) && !(step.Commit? && s.attempts[step.a].Moved?)
    ensures Inv(Next(s, step)) && Conserves(s, Next(s, step))
    ensures Next(s, step).outbox == s.outbox && Next(s, step).dead == s.dead
    ensures !RecoveredBy(Next(s, step).attempts[step.a])
  {
    hide LocksInv, InsertsInv, ReportsInv;
    match step {
      case Select(a) => SelectKeeps(s, a);
      case Insert(a, now) => InsertKeeps(s, a, now);
      case _ =>
        var p := Next(s, step).attempts[step.a];
        LessFitsLocks(s, step.a, p);
        SetKeepsLocks(s, step.a, p);
        LessFitsInserts(s, step.a, p);
        SetKeepsInserts(s, step.a, p);
        SetKeepsReports(s, step.a, p);
    }
  }

  // ---------- the commit of a recovery ----------

  function CommitMoved(s: State, a: Attempt): State
    requires a in s.attempts && s.attempts[a].Moved?
  {
    var p := s.attempts[a];
    SetPhase(s, a, Done(p.id, Recovered(p.row.baseId))).(outbox := s.outbox[p.id := p.revived], dead := s.dead - {p.id})
  }

  lemma CommitKeepsLocks(s: State, a: Attempt)
    requires LocksInv(s) && a in s.attempts && s.attempts[a].Moved?
    ensures LocksInv(CommitMoved(s, a))
  {
    var s' := CommitMoved(s, a);
    forall b | b in s'.attempts ensures DeadRowHeld(s'.dead, s'.attempts[b]) {
      assert b != a ==> DeadRowHeld(s.dead, s.attempts[b]) && !SameLock(s.attempts[a], s.attempts[b]);
    }
    forall b, c | b in s'.attempts && c in s'.attempts && b != c ensures !SameLock(s'.attempts[b], s'.attempts[c]) {
      assert !SameLock(s.attempts[b], s.attempts[c]);
    }
  }

  /** Another uncommitted row still fits when `a` commits its own. */
  lemma StillFits(s: State, a: Attempt, b: Attempt)
    requires LocksInv(s) && InsertsInv(s) && a in s.attempts && s.attempts[a].Moved? && b in s.attempts && b != a
    ensures InsertFits(CommitMoved(s, a).outbox, s.attempts[b])
  {
    assert InsertFits(s.outbox, s.attempts[b]);
    assert !SameLock(s.attempts[a], s.attempts[b]) && !SameInsert(s.attempts[a], s.attempts[b]);
    hide LocksInv, InsertsInv, PlansUnique, SamePlan;
  }

  lemma CommitKeepsPlans(s: State, a: Attempt)
    requires InsertsInv(s) && a in s.attempts && s.attempts[a].Moved?
    ensures PlansUnique(CommitMoved(s, a).outbox)
  {
    assert InsertFits(s.outbox, s.attempts[a]);
    SamePlanIsSymmetric();
    hide SamePlan;
  }

  lemma CommitKeepsInserts(s: State, a: Attempt)
    requires LocksInv(s) && InsertsInv(s) && a in s.attempts && s.attempts[a].Moved?
    ensures InsertsInv(CommitMoved(s, a))
  {
    var s' := CommitMoved(s, a);
    CommitKeepsPlans(s, a);
    hide PlansUnique, LocksInv, Clashes, SamePlan;
    forall b | b in s'.attempts ensures InsertFits(s'.outbox, s'.attempts[b]) {
      if b != a { StillFits(s, a, b); }
    }
    forall b, c | b in s'.attempts && c in s'.attempts && b != c ensures !SameInsert(s'.attempts[b], s'.attempts[c]) {
      assert !SameInsert(s.attempts[b], s.attempts[c]);
    }
  }

  lemma CommitKeepsReports(s: State, a: Attempt)
    requires LocksInv(s) && ReportsInv(s) && a in s.attempts && s.attempts[a].Moved?
    ensures ReportsInv(CommitMoved(s, a))
  {
    var s' := CommitMoved(s, a);
    assert DeadRowHeld(s.dead, s.attempts[a]);
    hide LocksInv;
    forall b | b in s'.attempts
      ensures ReportHolds(s'.outbox, s'.dead, s'.attempts[b])
          && (b != a ==> !SameReport(s'.attempts[a], s'.attempts[b]))
    {
      assert ReportHolds(s.outbox, s.dead, s.attempts[b]);
    }
    forall b, c | b in s'.attempts && c in s'.attempts && b != c ensures !SameReport(s'.attempts[b], s'.attempts[c]) {
      assert !SameReport(s.attempts[b], s.attempts[c]);
      assert c == a ==> !SameReport(s'.attempts[a], s'.attempts[b]);
    }
  }

  lemma CommitKeeps(s: State, a: Attempt)
    requires Inv(s) && Enabled(s, Commit(a)) && s.attempts[a].Moved?
    ensures Inv(Next(s, Commit(a))) && Conserves(s, Next(s, Commit(a)))
  {
    hide LocksInv, InsertsInv, ReportsInv, Clashes;
    CommitKeepsLocks(s, a);
    CommitKeepsInserts(s, a);
    CommitKeepsReports(s, a);
    MovedRow(s, a);
  }

  lemma MovedRow(s: State, a: Attempt)
    requires Inv(s) && a in s.attempts && s.attempts[a].Moved?
    ensures s.attempts[a].id in s.dead && s.attempts[a].id !in s.outbox
  {
    assert DeadRowHeld(s.dead, s.attempts[a]) && InsertFits(s.outbox, s.attempts[a]);
  }

  /** Every statement of every attempt keeps the invariant and conserves the tasks: none leaves the two
      tables and none newly is in both. */
  lemma StepKeepsInv(s: State, step: Step)
    requires Inv(s) && Enabled(s, step)
    ensures Inv(Next(s, step)) && Conserves(s, Next(s, step))
  {
    if step.Commit? && s.attempts[step.a].Moved? { CommitKeeps(s, step.a); } else { OtherStepsKeep(s, step); }
  }

  // ---------- whole runs ----------

  /** A run of statements, each enabled where it stands. */
  ghost predicate IsRun(s: State, steps: seq<Step>)
    decreases |steps|
  {
    steps == [] || (Enabled(s, steps[0]) && IsRun(Next(s, steps[0]), steps[1..]))
  }

  ghost function Run(s: State, steps: seq<Step>): State
    requires IsRun(s, steps)
    decreases |steps|
  {
    if steps == [] then s else Run(Next(s, steps[0]), steps[1..])
  }

  /** Attempts that have not started, over tables that meet the pending-plan index. */
  ghost predicate Fresh(s: State) {
    PlansUnique(s.outbox) && forall a :: a in s.attempts ==> s.attempts[a].Ready?
  }

  /** Over every interleaving of any number of recoveries, rolled back or not: the tasks in outbox and
      dead letters together stay the same, none newly is in both, the outbox keeps its unique plans, and
      no two attempts report the same task as recovered. */
  lemma {:induction false} RecoveryConserves(s: State, steps: seq<Step>)
    requires Inv(s) && IsRun(s, steps)
    ensures Inv(Run(s, steps)) && Conserves(s, Run(s, steps))
    decreases |steps|
  {
    if steps != [] {
      StepKeepsInv(s, steps[0]);
      RecoveryConserves(Next(s, steps[0]), steps[1..]);
    }
  }

  lemma AtMostOneRecovery(s: State, steps: seq<Step>, a: Attempt, b: Attempt)
    requires Fresh(s) && IsRun(s, steps) && a in s.attempts && b in s.attempts && a != b
    ensures
      var s' := Run(s, steps);
      && s'.attempts.Keys == s.attempts.Keys
      && (RecoveredBy(s'.attempts[a]) && RecoveredBy(s'.attempts[b]) ==> s'.attempts[a].id != s'.attempts[b].id)
      && (RecoveredBy(s'.attempts[a]) ==> s'.attempts[a].id in s'.outbox && s'.attempts[a].id !in s'.dead)
  {
    FreshMeetsInv(s);
    RecoveryConserves(s, steps);
    var s' := Run(s, steps);
    hide Run, IsRun, LocksInv, InsertsInv, Fresh;
    assert !SameReport(s'.attempts[a], s'.attempts[b]);
    assert ReportHolds(s'.outbox, s'.dead, s'.attempts[a]);
  }

  lemma FreshMeetsInv(s: State)
    requires Fresh(s)
    ensures Inv(s)
  {
    hide PlansUnique, Clashes, SamePlan;
  }

  /** Which statements touch the committed tables: only the commit of an attempt that moved its task. The
      commit of a refused attempt, the one that reports `conflict` or `not_found`, changes nothing. */
  lemma OnlyRecoveryChangesTables(s: State, step: Step)
    requires Inv(s) && Enabled(s, step)
    ensures
      var s' := Next(s, step);
      (s'.outbox != s.outbox || s'.dead != s.dead) <==> RecoveredBy(s'.attempts[step.a])
  {
    if step.Commit? && s.attempts[step.a].Moved? {
      var id := s.attempts[step.a].id;
      assert id in s.dead && id !in Next(s, step).dead;
    } else {
      OtherStepsKeep(s, step);
    }
  }

  /** The row a dead task becomes: the same plan, to be run now as if for the first time. */
  predicate IsRevival(revived: Task, row: Task, now: int) {
    && revived.baseId == row.baseId && revived.seedTableId == row.seedTableId && revived.changeType == row.changeType
    && revived.planHash == row.planHash && revived.payload == row.payload && revived.maxAttempts == row.maxAttempts
    && revived.pending && revived.attempts == 0 && revived.nextRunAt == now
    && revived.lockedAt.None? && revived.lastError.None?
  }

  /** A pending row of the outbox has the dead task's plan. */
  ghost predicate PlanIsPending(outbox: map<string, Task>, row: Task) {
    exists id :: id in outbox && outbox[id].pending
                 && outbox[id].baseId == row.baseId && outbox[id].seedTableId == row.seedTableId
                 && outbox[id].planHash == row.planHash && outbox[id].changeType == row.changeType
  }

  /** What the un-interfered transaction reports, and what it leaves behind. */
  lemma TransactionOutcome(s: State, a: Attempt, now: int)
    requires s.attempts.Keys == {a} && s.attempts[a].Ready?
    ensures
      var id, s' := s.attempts[a].id, Transaction(s, a, now);
      && s'.attempts[a].Done?
      && (s'.attempts[a].result == NotFound <==> id !in s.dead)
      && (s'.attempts[a].result == Conflict <==>
            id in s.dead && (id in s.outbox || PlanIsPending(s.outbox, s.dead[id])))
      && (if s'.attempts[a].result.Recovered?
          then
            && id in s'.outbox && IsRevival(s'.outbox[id], s.dead[id], now)
            && s'.attempts[a].result.baseId == s.dead[id].baseId
            && s'.outbox == s.outbox[id := s'.outbox[id]] && s'.dead == s.dead - {id}
          else s'.outbox == s.outbox && s'.dead == s.dead)
      && Conserves(s, s')
  {
    TransactionEnd(s, a, now);
    hide Transaction, Clashes;
    var id := s.attempts[a].id;
    if id in s.dead {
      ClashIsTaken(s.outbox, id, s.dead[id], now);
    }
  }

  /** The revived row clashes exactly when its id or its plan is taken. */
  lemma ClashIsTaken(outbox: map<string, Task>, id: string, row: Task, now: int)
    ensures Clashes(outbox, id, Revive(row, now)) <==> id in outbox || PlanIsPending(outbox, row)
  {
    if other :| other in outbox && outbox[other].pending
                && outbox[other].baseId == row.baseId && outbox[other].seedTableId == row.seedTableId
                && outbox[other].planHash == row.planHash && outbox[other].changeType == row.changeType
    {
      assert SamePlan(outbox[other], Revive(row, now));
    }
  }
}
