/** Row locks taken by `lockRecordsSql`: the ids are filtered, deduplicated and locked in ascending
    order, which keeps any number of transactions from deadlocking. */
module RecordLocks {
  import opened Strings
  import opened Wrappers

  /** `Array.from(new Set(ids.filter(...)))`, the non-empty ids in order of first appearance. */
  function Normalized(recordIds: seq<string>): seq<string> {
    if recordIds == [] then []
    else
      var before, id := Normalized(recordIds[..|recordIds| - 1]), recordIds[|recordIds| - 1];
      if id != "" && id !in before then before + [id] else before
  }

  lemma {:induction false} NormalizedMembers(recordIds: seq<string>)
    ensures forall id :: id in Normalized(recordIds) <==> id in recordIds && id != ""
    ensures forall i, j :: 0 <= i < j < |Normalized(recordIds)| ==> Normalized(recordIds)[i] != Normalized(recordIds)[j]
  {
    if recordIds != [] {
      var k := |recordIds| - 1;
      NormalizedMembers(recordIds[..k]);
      assert recordIds == recordIds[..k] + [recordIds[k]];
    }
  }

  /** `lockRecordsSql`: the ids named in the statement, sorted; `None` when there is nothing to lock. */
  function LockRecords(recordIds: seq<string>): Option<seq<string>> {
    var ids := set id | id in Normalized(recordIds);
    if ids == {} then None else Some(Sorted(ids))
  }

  /** The rows the statement locks, in the order it locks them: those that exist, by ascending id. */
  function LockedRows(rows: set<string>, recordIds: seq<string>): seq<string> {
    match LockRecords(recordIds)
    case None => []
    case Some(ids) => Sorted(set id | id in ids && id in rows)
  }

  /** Every existing row with a requested, non-empty id is locked once, in strictly ascending order. */
  lemma LockedRowsAscend(rows: set<string>, recordIds: seq<string>)
    ensures Ascending(LockedRows(rows, recordIds))
    ensures forall id :: id in LockedRows(rows, recordIds) <==> id in recordIds && id != "" && id in rows
  {
    NormalizedMembers(recordIds);
    var ids := set id | id in Normalized(recordIds);
    SortedIsAscending(ids);
    SortedIsAscending(set id | id in Sorted(ids) && id in rows);
  }

  // ---------- transactions that lock row by row ----------

  /** A transaction locks the rows of `plan` in turn; the first `held` of them it holds. */
  datatype Tx = Tx(plan: seq<string>, held: nat, finished: bool)

  type Txs = seq<Tx>

  ghost predicate Holds(txs: Txs, t: nat, id: string) {
    t < |txs| && !txs[t].finished && exists i :: 0 <= i < txs[t].held && i < |txs[t].plan| && txs[t].plan[i] == id
  }

  /** `t` waits for a row that `u` has locked. */
  ghost predicate Waits(txs: Txs, t: nat, u: nat) {
    && t < |txs| && !txs[t].finished && txs[t].held < |txs[t].plan|
    && u != t && Holds(txs, u, txs[t].plan[txs[t].held])
  }

  datatype Step = Lock(t: nat) | Finish(t: nat)

  /** The next row can be locked when nobody else holds it; a transaction may end, by commit once it holds
      everything or by rollback at any time, and then holds nothing. */
  ghost predicate Enabled(txs: Txs, step: Step) {
    && step.t < |txs| && !txs[step.t].finished
    && (step.Lock? ==> txs[step.t].held < |txs[step.t].plan| && forall u :: 0 <= u < |txs| ==> !Waits(txs, step.t, u))
  }

  function Next(txs: Txs, step: Step): Txs
    requires step.t < |txs|
  {
    var tx := txs[step.t];
    match step
    case Lock(t) => txs[t := tx.(held := tx.held + 1)]
    case Finish(t) => txs[t := tx.(finished := true)]
  }

  ghost predicate Inv(txs: Txs) {
    && (forall t :: 0 <= t < |txs| ==> Ascending(txs[t].plan) && txs[t].held <= |txs[t].plan|)
    && (forall t, u, id :: 0 <= t < u < |txs| ==> !(Holds(txs, t, id) && Holds(txs, u, id)))
  }

  /** One lock statement per request, over a fixed set of rows. */
  function Start(rows: set<string>, requests: seq<seq<string>>): Txs {
    seq(|requests|, i requires 0 <= i < |requests| => Tx(LockedRows(rows, requests[i]), 0, false))
  }

  lemma StartInv(rows: set<string>, requests: seq<seq<string>>)
    ensures Inv(Start(rows, requests))
  {
    forall t | 0 <= t < |requests| ensures Ascending(Start(rows, requests)[t].plan) {
      LockedRowsAscend(rows, requests[t]);
    }
  }

  /** No row is ever locked twice. */
  lemma StepKeepsInv(txs: Txs, step: Step)
    requires Inv(txs) && Enabled(txs, step)
    ensures Inv(Next(txs, step))
  {
    var txs' := Next(txs, step);
    forall t, u, id | 0 <= t < u < |txs| ensures !(Holds(txs', t, id) && Holds(txs', u, id)) {
      if Holds(txs', t, id) && Holds(txs', u, id) {
        HeldBefore(txs, step, t, id);
        HeldBefore(txs, step, u, id);
        var other := if step.t == t then u else t;
        if !Holds(txs, step.t, id) { HolderBlocks(txs, step.t, other); }
        assert false;
      }
    }
  }

  lemma HolderBlocks(txs: Txs, t: nat, u: nat)
    requires t < |txs| && !txs[t].finished && txs[t].held < |txs[t].plan|
    requires u != t && Holds(txs, u, txs[t].plan[txs[t].held])
    ensures Waits(txs, t, u)
  {
  }

  lemma HeldBefore(txs: Txs, step: Step, t: nat, id: string)
    requires Inv(txs) && Enabled(txs, step) && t < |txs| && Holds(Next(txs, step), t, id)
    ensures Holds(txs, t, id) || (step == Lock(t) && txs[t].plan[txs[t].held] == id)
  {
  }

  // ---------- no deadlock ----------

  function Wanted(txs: Txs, t: nat): string
    requires t < |txs| && txs[t].held < |txs[t].plan|
  {
    txs[t].plan[txs[t].held]
  }

  /** Along a wait the wanted id rises: the row waited for was locked before the row its holder wants. */
  lemma WaitRises(txs: Txs, t: nat, u: nat)
    requires Inv(txs) && Waits(txs, t, u) && txs[u].held < |txs[u].plan|
    ensures Less(Wanted(txs, t), Wanted(txs, u))
  {
  }

  ghost predicate WaitChain(txs: Txs, chain: seq<nat>) {
    forall i :: 0 <= i < |chain| - 1 ==> Waits(txs, chain[i], chain[i + 1])
  }

  lemma {:induction false} ChainRises(txs: Txs, chain: seq<nat>)
    requires Inv(txs) && |chain| >= 2 && WaitChain(txs, chain)
    requires
      var last := chain[|chain| - 1];
      last < |txs| && txs[last].held < |txs[last].plan|
    ensures chain[0] < |txs| && txs[chain[0]].held < |txs[chain[0]].plan|
    ensures Less(Wanted(txs, chain[0]), Wanted(txs, chain[|chain| - 1]))
  {
    assert Waits(txs, chain[0], chain[1]);
    if |chain| == 2 {
      WaitRises(txs, chain[0], chain[1]);
    } else {
      var tail := chain[1..];
      forall i | 0 <= i < |tail| - 1 ensures Waits(txs, tail[i], tail[i + 1]) {
        var j := i + 1;
        assert Waits(txs, chain[j], chain[j + 1]);
      }
      assert Waits(txs, chain[1], chain[2]);
      ChainRises(txs, tail);
      WaitRises(txs, chain[0], chain[1]);
      LessIsTransitive(Wanted(txs, chain[0]), Wanted(txs, chain[1]), Wanted(txs, chain[|chain| - 1]));
    }
  }

  /** No wait is cyclic, however long the cycle. */
  lemma NoCyclicWait(txs: Txs, chain: seq<nat>)
    requires Inv(txs) && |chain| >= 2 && WaitChain(txs, chain)
    ensures chain[0] != chain[|chain| - 1]
  {
    if chain[0] == chain[|chain| - 1] {
      assert Waits(txs, chain[0], chain[1]);
      ChainRises(txs, chain);
      LessIsStrict(Wanted(txs, chain[0]));
    }
  }

  function AllIds(txs: Txs): set<string> {
    set t, i | 0 <= t < |txs| && 0 <= i < |txs[t].plan| :: txs[t].plan[i]
  }

  /** Following the waits upwards ends at a transaction that can go on. */
  lemma {:induction false} SomeoneCanStep(txs: Txs, t: nat) returns (step: Step)
    requires Inv(txs) && t < |txs| && !txs[t].finished
    ensures Enabled(txs, step) && (step.Finish? ==> txs[step.t].held == |txs[step.t].plan|)
    decreases |set id | id in AllIds(txs) && txs[t].held < |txs[t].plan|
        && (id == Wanted(txs, t) || Less(Wanted(txs, t), id))|
  {
    if txs[t].held == |txs[t].plan| {
      step := Finish(t);
    } else if u :| 0 <= u < |txs| && Waits(txs, t, u) {
      if txs[u].held == |txs[u].plan| {
        step := Finish(u);
      } else {
        WaitRises(txs, t, u);
        var a := set id | id in AllIds(txs) && (id == Wanted(txs, t) || Less(Wanted(txs, t), id));
        var b := set id | id in AllIds(txs) && (id == Wanted(txs, u) || Less(Wanted(txs, u), id));
        FewerAbove(txs, Wanted(txs, t), Wanted(txs, u), a, b);
        assert a == set id | id in AllIds(txs) && txs[t].held < |txs[t].plan|
            && (id == Wanted(txs, t) || Less(Wanted(txs, t), id));
        assert b == set id | id in AllIds(txs) && txs[u].held < |txs[u].plan|
            && (id == Wanted(txs, u) || Less(Wanted(txs, u), id));
        step := SomeoneCanStep(txs, u);
      }
    } else {
      step := Lock(t);
    }
  }

  lemma FewerAbove(txs: Txs, x: string, y: string, a: set<string>, b: set<string>)
    requires Less(x, y) && x in AllIds(txs)
    requires a == set id | id in AllIds(txs) && (id == x || Less(x, id))
    requires b == set id | id in AllIds(txs) && (id == y || Less(y, id))
    ensures |b| < |a|
  {
    forall id | id in b ensures id in a {
      if id != y { LessIsTransitive(x, y, id); }
    }
    LessIsStrict(x);
    if x in b {
      if x != y { LessIsTransitive(x, y, x); }
      assert false;
    }
    StrictlySmaller(b, a, x);
  }

  lemma StrictlySmaller(b: set<string>, a: set<string>, x: string)
    requires b <= a && x in a && x !in b
    ensures |b| < |a|
  {
    assert |a - b| + |b| == |a| by { assert (a - b) + b == a; }
    assert x in a - b;
  }

  // ---------- everyone finishes ----------

  /** What is left to do: the rows still to lock, and one step to end. */
  function Remaining(txs: Txs): nat {
    if txs == [] then 0
    else
      var tx := txs[0];
      (if tx.finished then 0 else 1 + if tx.held <= |tx.plan| then |tx.plan| - tx.held else 0) + Remaining(txs[1..])
  }

  lemma {:induction false} StepProgresses(txs: Txs, step: Step)
    requires step.t < |txs| && !txs[step.t].finished
    requires step.Lock? ==> txs[step.t].held < |txs[step.t].plan|
    ensures Remaining(Next(txs, step)) < Remaining(txs)
  {
    var txs' := Next(txs, step);
    if step.t == 0 {
      assert txs'[1..] == txs[1..];
    } else {
      var step1 := if step.Lock? then Lock(step.t - 1) else Finish(step.t - 1);
      StepProgresses(txs[1..], step1);
      assert txs'[1..] == Next(txs[1..], step1);
    }
  }

  ghost predicate IsRun(txs: Txs, steps: seq<Step>)
    decreases |steps|
  {
    steps == [] || (Enabled(txs, steps[0]) && IsRun(Next(txs, steps[0]), steps[1..]))
  }

  ghost function Run(txs: Txs, steps: seq<Step>): Txs
    requires IsRun(txs, steps)
    decreases |steps|
  {
    if steps == [] then txs else Run(Next(txs, steps[0]), steps[1..])
  }

  lemma {:induction false} RunInv(txs: Txs, steps: seq<Step>)
    requires Inv(txs) && IsRun(txs, steps)
    ensures Inv(Run(txs, steps)) && |steps| + Remaining(Run(txs, steps)) <= Remaining(txs)
    decreases |steps|
  {
    if steps != [] {
      StepKeepsInv(txs, steps[0]);
      StepProgresses(txs, steps[0]);
      RunInv(Next(txs, steps[0]), steps[1..]);
    }
  }

  /** Deadlock freedom over every interleaving of any number of lock statements: in every reachable state
      no wait is cyclic, some unfinished transaction can lock its next row or commit, and no run is longer
      than the work there is, so every run that goes on as long as it can ends with all finished. */
  lemma DeadlockFreedom(rows: set<string>, requests: seq<seq<string>>, steps: seq<Step>)
    requires IsRun(Start(rows, requests), steps)
    ensures
      var txs := Run(Start(rows, requests), steps);
      && (forall chain :: |chain| >= 2 && WaitChain(txs, chain) ==> chain[0] != chain[|chain| - 1])
      && (forall t :: 0 <= t < |txs| && !txs[t].finished ==>
            exists step :: Enabled(txs, step) && (step.Finish? ==> txs[step.t].held == |txs[step.t].plan|))
      && |steps| <= Remaining(Start(rows, requests))
  {
    StartInv(rows, requests);
    RunInv(Start(rows, requests), steps);
    var txs := Run(Start(rows, requests), steps);
    forall chain | |chain| >= 2 && WaitChain(txs, chain) ensures chain[0] != chain[|chain| - 1] {
      NoCyclicWait(txs, chain);
    }
    forall t | 0 <= t < |txs| && !txs[t].finished
      ensures exists step :: Enabled(txs, step) && (step.Finish? ==> txs[step.t].held == |txs[step.t].plan|)
    {
      var step := SomeoneCanStep(txs, t);
    }
  }

  /** Without the common order the guarantee is gone: two transactions that lock `a` and `b` in opposite
      orders reach a state in which each waits for the other. */
  lemma OppositeOrdersDeadlock()
    ensures
      var txs := [Tx(["a", "b"], 0, false), Tx(["b", "a"], 0, false)];
      var steps := [Lock(0), Lock(1)];
      IsRun(txs, steps) && Waits(Run(txs, steps), 0, 1) && Waits(Run(txs, steps), 1, 0)
  {
    var txs := [Tx(["a", "b"], 0, false), Tx(["b", "a"], 0, false)];
    var steps := [Lock(0), Lock(1)];
    var mid := Next(txs, Lock(0));
    var end := Next(mid, Lock(1));
    assert Enabled(txs, Lock(0));
    assert mid == [Tx(["a", "b"], 1, false), Tx(["b", "a"], 0, false)];
    assert Enabled(mid, Lock(1));
    assert end == [Tx(["a", "b"], 1, false), Tx(["b", "a"], 1, false)];
    assert steps[1..] == [Lock(1)] && steps[1..][1..] == [];
    assert IsRun(mid, [Lock(1)]) && Run(mid, [Lock(1)]) == end;
    assert end[1].plan[0] == "b" && end[0].plan[0] == "a";
  }
}
