/** The performance cache: `wrap` returns a key's cached value or runs a function and caches its result,
    checking the cache again under a lock. What happens between two awaits is one atomic step. */
module PerformanceCache {
  import opened Wrappers

  /** A result; a cached result is wrapped, so a null one is told apart from a missing one. */
  datatype Value = Null | Data(n: int)

  datatype Options = Options(skipGet: bool, skipSet: bool, ttl: Option<int>, preventConcurrent: bool)

  /** The options of a call, and whether the cache and the lock manager are there. */
  datatype Config = Config(options: Options, available: bool, redlock: bool)

  // ---------- reading and writing the cache ----------

  /** What `get` finds. A read that errs finds nothing. */
  function Read(config: Config, stored: Option<Value>, fails: bool): Option<Value> {
    if !config.available || config.options.skipGet || fails then None else stored
  }

  datatype Written = Written(stored: Option<Value>, throws: bool)

  /** What `set` leaves. A write that errs is swallowed, a missing ttl is not. */
  function Write(config: Config, stored: Option<Value>, value: Value, fails: bool): Written {
    if !config.available || config.options.skipSet then Written(stored, false)
    else if config.options.ttl.None? then Written(stored, true)
    else if fails then Written(stored, false)
    else Written(Some(value), false)
  }

  datatype Stats = Stats(hits: nat, misses: nat, sets: nat, errors: nat)

  function Stored(store: map<string, Value>, key: string): Option<Value> {
    if key in store then Some(store[key]) else None
  }

  class PerformanceCacheService {
    var store: map<string, Value>
    var stats: Stats
    const available: bool
    const redlock: bool

    constructor (available: bool, redlock: bool)
      ensures this.available == available && this.redlock == redlock
      ensures store == map[] && stats == Stats(0, 0, 0, 0)
    {
      this.available, this.redlock := available, redlock;
      store, stats := map[], Stats(0, 0, 0, 0);
    }

    /** Every read that is made is counted once: as a hit, a miss or an error. */
    method Get(key: string, options: Options, fails: bool) returns (found: Option<Value>)
      modifies this`stats
      ensures found == Read(Config(options, available, redlock), Stored(store, key), fails)
      ensures stats.sets == old(stats.sets)
      ensures (stats.hits - old(stats.hits)) + (stats.misses - old(stats.misses)) + (stats.errors - old(stats.errors))
              == if available && !options.skipGet then 1 else 0
      ensures stats.hits == old(stats.hits) + if found.Some? then 1 else 0
      ensures stats.errors == old(stats.errors) + if available && !options.skipGet && fails then 1 else 0
    {
      if !available || options.skipGet {
        return None;
      }
      if fails {
        stats := stats.(errors := stats.errors + 1);
        return None;
      }
      if key !in store {
        stats := stats.(misses := stats.misses + 1);
        return None;
      }
      stats := stats.(hits := stats.hits + 1);
      return Some(store[key]);
    }

    /** A write changes no other key, and is counted when it is done. */
    method Set(key: string, value: Value, options: Options, fails: bool) returns (throws: bool)
      modifies this`store, this`stats
      ensures Written(Stored(store, key), throws) ==
          Write(Config(options, available, redlock), old(Stored(store, key)), value, fails)
      ensures forall other :: other != key ==> Stored(store, other) == old(Stored(store, other))
      ensures stats == old(stats).(
                sets := old(stats.sets) + if available && !options.skipSet && !throws && !fails then 1 else 0,
                errors := old(stats.errors) + if available && !options.skipSet && !throws && fails then 1 else 0)
    {
      if !available || options.skipSet {
        return false;
      }
      if options.ttl.None? {
        return true;
      }
      if fails {
        stats := stats.(errors := stats.errors + 1);
        return false;
      }
      store := store[key := value];
      stats := stats.(sets := stats.sets + 1);
      return false;
    }
  }

  // ---------- callers of wrap on one key ----------

  /** Where a caller is: waiting for the lock, then in it (L), in the fallback (F) or without a lock (D). */
  datatype Phase =
    | Waiting
    | LGet | LCheck | LExec | LStore(v: Value) | LRelease(v: Value)
    | FWait | FExec | FStore(v: Value)
    | DExec | DStore(v: Value)
    | Done(v: Value) | Failed

  type Caller = nat

  /** The shared cache and lock, the callers' phases, and a record of what has happened: who lost the lock
      while in it, who fell back, who has run the function in which way, the values it gave, how often the
      cache lost a value or failed, and whether it held one at first. */
  datatype State = State(
    cache: Option<Value>,
    holder: Option<Caller>,
    phases: map<Caller, Phase>,
    aborted: set<Caller>,
    fellBack: set<Caller>,
    lockedRuns: set<Caller>,
    fallbackRuns: set<Caller>,
    directRuns: set<Caller>,
    made: set<Value>,
    lapses: nat,
    warm: nat
  )

  function Start(cache: Option<Value>): State {
    var made := if cache.Some? then {cache.value} else {};
    State(cache, None, map[], {}, {}, {}, {}, {}, made, 0, |made|)
  }

  datatype Event =
    | Enter(c: Caller, fails: bool)
    | Acquire(c: Caller)
    | LockFails(c: Caller)
    | Abort(c: Caller)
    | ReadLocked(c: Caller, fails: bool)
    | Begin(c: Caller)
    | FnReturns(c: Caller, v: Value)
    | FnThrows(c: Caller, lockError: bool)
    | Save(c: Caller, fails: bool)
    | Release(c: Caller, ok: bool)
    | ReadFallback(c: Caller, fails: bool)
    | Lapse

  function Move(s: State, c: Caller, phase: Phase): State {
    s.(phases := s.phases[c := phase])
  }

  function Unlock(s: State, c: Caller): State {
    if s.holder == Some(c) then s.(holder := None) else s
  }

  function FallBack(s: State, c: Caller): State {
    Move(Unlock(s, c), c, FWait).(fellBack := s.fellBack + {c})
  }

  function Count(s: State, fails: bool): State {
    if fails then s.(lapses := s.lapses + 1) else s
  }

  /** One step of one caller; an event that is not due changes nothing. */
  function Step(config: Config, s: State, e: Event): State {
    match e
    case Enter(c, fails) =>
      if c in s.phases then s
      else
        var found := Read(config, s.cache, fails);
        Move(Count(s, fails), c,
             if found.Some? then Done(found.value)
             else if !config.available || !config.options.preventConcurrent || !config.redlock then DExec
             else Waiting)
    case Acquire(c) =>
      if c in s.phases && s.phases[c].Waiting? && s.holder.None? then Move(s, c, LGet).(holder := Some(c)) else s
    case LockFails(c) =>
      if c in s.phases && s.phases[c].Waiting? then FallBack(s, c) else s
    case Abort(c) =>
      if s.holder == Some(c) then s.(holder := None, aborted := s.aborted + {c}) else s
    case ReadLocked(c, fails) =>
      if !(c in s.phases && s.phases[c].LGet?) then s
      else if c in s.aborted then FallBack(s, c)
      else
        var found := Read(config, s.cache, fails);
        Move(Count(s, fails), c, if found.Some? then LRelease(found.value) else LCheck)
    case Begin(c) =>
      if !(c in s.phases && s.phases[c].LCheck?) then s
      else if c in s.aborted then FallBack(s, c)
      else Move(s, c, LExec)
    case FnReturns(c, v) => FnStep(s, c, v)
    case FnThrows(c, lockError) =>
      if c !in s.phases then s
      else if s.phases[c].LExec? then (if lockError then FallBack(s, c) else Move(Unlock(s, c), c, Failed))
      else if s.phases[c].FExec? || s.phases[c].DExec? then Move(s, c, Failed)
      else s
    case Save(c, fails) => SaveStep(config, s, c, fails)
    case Release(c, ok) =>
      if !(c in s.phases && s.phases[c].LRelease?) then s
      else if ok then Move(Unlock(s, c), c, Done(s.phases[c].v))
      else FallBack(s, c)
    case ReadFallback(c, fails) =>
      if !(c in s.phases && s.phases[c].FWait?) then s
      else
        var found := Read(config, s.cache, fails);
        Move(Count(s, fails), c, if found.Some? then Done(found.value) else FExec)
    case Lapse => s.(cache := None, lapses := s.lapses + 1)
  }

  /** The function returns `v` to caller `c`. */
  function FnStep(s: State, c: Caller, v: Value): State {
    if c !in s.phases then s
    else if s.phases[c].LExec? then Move(s, c, LStore(v)).(lockedRuns := s.lockedRuns + {c}, made := s.made + {v})
    else if s.phases[c].FExec? then Move(s, c, FStore(v)).(fallbackRuns := s.fallbackRuns + {c}, made := s.made + {v})
    else if s.phases[c].DExec? then Move(s, c, DStore(v)).(directRuns := s.directRuns + {c}, made := s.made + {v})
    else s
  }

  /** Caller `c` caches the result it has; a missing ttl makes the call fail. */
  function SaveStep(config: Config, s: State, c: Caller, fails: bool): State {
    if !(c in s.phases && (s.phases[c].LStore? || s.phases[c].FStore? || s.phases[c].DStore?)) then s
    else
      var v := s.phases[c].v;
      var written := Write(config, s.cache, v, fails);
      var next := Count(s, fails).(cache := written.stored);
      if written.throws then Move(Unlock(next, c), c, Failed)
      else Move(next, c, if s.phases[c].LStore? then LRelease(v) else Done(v))
  }

  function Run(config: Config, start: State, events: seq<Event>): State
    decreases |events|
  {
    if events == [] then start else Step(config, Run(config, start, events[..|events| - 1]), events[|events| - 1])
  }

  /** Successful runs of the function. */
  function Runs(s: State): nat {
    |s.lockedRuns| + |s.fallbackRuns| + |s.directRuns|
  }

  /** The configuration the double check is made for. */
  predicate Guarded(config: Config) {
    && config.available && config.redlock
    && !config.options.skipGet && !config.options.skipSet
    && config.options.ttl.Some? && config.options.preventConcurrent
  }

  // ---------- invariant ----------

  predicate InLock(phase: Phase) {
    phase.LGet? || phase.LCheck? || phase.LExec? || phase.LStore? || phase.LRelease?
  }

  predicate InFallback(phase: Phase) {
    phase.FWait? || phase.FExec? || phase.FStore?
  }

  predicate ToRun(phase: Phase) {
    phase.Waiting? || phase.LGet? || phase.LCheck? || phase.LExec?
  }

  predicate HasValue(phase: Phase) {
    phase.LStore? || phase.LRelease? || phase.FStore? || phase.DStore? || phase.Done?
  }

  /** Caller `c` holds the lock exactly while in it, unless it lost it; it does not go without. */
  predicate LockOk(s: State, c: Caller) {
    && (s.holder == Some(c) ==> c in s.phases && InLock(s.phases[c]) && c !in s.aborted)
    && (c in s.phases && InLock(s.phases[c]) && c !in s.aborted ==> s.holder == Some(c))
    && (c in s.phases ==> !s.phases[c].DExec? && !s.phases[c].DStore?)
    && c !in s.directRuns
    && (c in s.aborted ==> c in s.phases && !s.phases[c].Waiting?)
  }

  ghost predicate LockInv(s: State) {
    forall c :: LockOk(s, c)
  }

  /** Caller `c` does not run the function twice in the lock, or twice in the fallback. */
  predicate RunsOk(s: State, c: Caller) {
    && (c in s.fallbackRuns ==> c in s.fellBack)
    && (c in s.phases && InFallback(s.phases[c]) ==> c in s.fellBack)
    && (c in s.phases && s.phases[c].LStore? ==> c in s.lockedRuns)
    && (c in s.lockedRuns ==> c in s.phases && !ToRun(s.phases[c]))
    && (c in s.fallbackRuns ==> c in s.phases && (s.phases[c].FStore? || s.phases[c].Done? || s.phases[c].Failed?))
  }

  ghost predicate RunsInv(s: State) {
    forall c :: RunsOk(s, c)
  }

  /** The values of the cache and of caller `c` were made by a run, or cached at first. */
  predicate ValuesOk(s: State, c: Caller) {
    && (s.cache.Some? ==> s.cache.value in s.made)
    && (c in s.phases && HasValue(s.phases[c]) ==> s.phases[c].v in s.made)
  }

  ghost predicate ValuesInv(s: State) {
    forall c :: ValuesOk(s, c)
  }

  /** There are no more values than runs. */
  ghost predicate CountInv(s: State) {
    |s.made| <= |s.lockedRuns| + |s.fallbackRuns| + s.warm
  }

  lemma FnStepOf(config: Config, s: State, e: Event)
    requires e.FnReturns?
    ensures Step(config, s, e) == FnStep(s, e.c, e.v)
  {
  }

  /** What the runs under an unbroken lock leave to account for: nothing while the holder is about to run,
      and one value while one is cached or about to be. */
  function Allowance(s: State): nat {
    if s.holder.Some? && s.holder.value in s.phases
        && (s.phases[s.holder.value].LCheck? || s.phases[s.holder.value].LExec?) then 0
    else if s.cache.Some? || (s.holder.Some? && s.holder.value in s.phases && s.phases[s.holder.value].LStore?) then 1
    else 0
  }

  ghost predicate BoundInv(s: State) {
    |s.lockedRuns - s.aborted| + s.warm <= s.lapses + Allowance(s)
  }

  ghost predicate Inv(s: State) {
    LockInv(s) && RunsInv(s) && ValuesInv(s) && CountInv(s) && BoundInv(s)
  }

  /** Steps towards the lock and out of it. */
  predicate Moves(e: Event) {
    e.Enter? || e.Acquire? || e.LockFails? || e.Abort? || e.Release? || e.FnThrows?
  }

  lemma FnKeepsLockOk(s: State, runner: Caller, v: Value, c: Caller)
    requires LockOk(s, c)
    ensures LockOk(FnStep(s, runner, v), c)
  {
  }

  lemma SaveKeepsLockOk(config: Config, s: State, saver: Caller, fails: bool, c: Caller)
    requires LockOk(s, c)
    ensures LockOk(SaveStep(config, s, saver, fails), c)
  {
    hide Write;
  }

  lemma StepKeepsLockOk(config: Config, s: State, e: Event, c: Caller)
    requires Guarded(config) && LockOk(s, c)
    ensures LockOk(Step(config, s, e), c)
  {
    hide Read, FnStep, SaveStep;
    if e.FnReturns? {
      FnKeepsLockOk(s, e.c, e.v, c);
    } else if e.Save? {
      SaveKeepsLockOk(config, s, e.c, e.fails, c);
    }
  }

  lemma StepKeepsLockInv(config: Config, s: State, e: Event)
    requires Guarded(config) && LockInv(s)
    ensures LockInv(Step(config, s, e))
  {
    hide LockOk, Step;
    forall c ensures LockOk(Step(config, s, e), c) {
      StepKeepsLockOk(config, s, e, c);
    }
  }

  lemma FnKeepsRunsOk(s: State, runner: Caller, v: Value, c: Caller)
    requires RunsOk(s, c)
    ensures RunsOk(FnStep(s, runner, v), c)
  {
  }

  lemma SaveKeepsRunsOk(config: Config, s: State, saver: Caller, fails: bool, c: Caller)
    requires RunsOk(s, c)
    ensures RunsOk(SaveStep(config, s, saver, fails), c)
  {
    hide Write;
  }

  lemma StepKeepsRunsOk(config: Config, s: State, e: Event, c: Caller)
    requires RunsOk(s, c)
    ensures RunsOk(Step(config, s, e), c)
  {
    hide Read, FnStep, SaveStep;
    if e.FnReturns? {
      FnKeepsRunsOk(s, e.c, e.v, c);
    } else if e.Save? {
      SaveKeepsRunsOk(config, s, e.c, e.fails, c);
    }
  }

  lemma StepKeepsRunsInv(config: Config, s: State, e: Event)
    requires RunsInv(s)
    ensures RunsInv(Step(config, s, e))
  {
    hide RunsOk, Step;
    forall c ensures RunsOk(Step(config, s, e), c) {
      StepKeepsRunsOk(config, s, e, c);
    }
  }

  lemma FnKeepsValuesOk(s: State, runner: Caller, v: Value, c: Caller)
    requires ValuesOk(s, c)
    ensures ValuesOk(FnStep(s, runner, v), c)
  {
  }

  lemma SaveKeepsValuesOk(config: Config, s: State, saver: Caller, fails: bool, c: Caller)
    requires ValuesOk(s, c) && ValuesOk(s, saver)
    ensures ValuesOk(SaveStep(config, s, saver, fails), c)
  {
  }

  lemma StepKeepsValuesOk(config: Config, s: State, e: Event, c: Caller)
    requires ValuesOk(s, c) && (!e.Lapse? ==> ValuesOk(s, e.c))
    ensures ValuesOk(Step(config, s, e), c)
  {
    hide FnStep, SaveStep;
    if e.FnReturns? {
      FnKeepsValuesOk(s, e.c, e.v, c);
    } else if e.Save? {
      SaveKeepsValuesOk(config, s, e.c, e.fails, c);
    }
  }

  lemma StepKeepsValuesInv(config: Config, s: State, e: Event)
    requires ValuesInv(s)
    ensures ValuesInv(Step(config, s, e))
  {
    hide ValuesOk, Step;
    forall c ensures ValuesOk(Step(config, s, e), c) {
      StepKeepsValuesOk(config, s, e, c);
    }
  }

  lemma OneMore<T>(s: set<T>, x: T)
    ensures |s + {x}| == |s| + if x in s then 0 else 1
  {
    if x in s { assert s + {x} == s; }
  }

  /** Only a run adds to the values and the runs. */
  lemma OthersMakeNothing(config: Config, s: State, e: Event)
    requires !e.FnReturns?
    ensures
      var t := Step(config, s, e);
      t.made == s.made && t.lockedRuns == s.lockedRuns && t.fallbackRuns == s.fallbackRuns && t.warm == s.warm
  {
  }

  lemma CallerOk(s: State, c: Caller)
    requires LockInv(s) && RunsInv(s)
    ensures LockOk(s, c) && RunsOk(s, c)
  {
  }

  lemma RunKeepsCountInv(s: State, c: Caller, v: Value)
    requires LockOk(s, c) && RunsOk(s, c) && CountInv(s)
    ensures CountInv(FnStep(s, c, v))
  {
    hide InLock, InFallback;
    OneMore(s.made, v);
    OneMore(s.lockedRuns, c);
    OneMore(s.fallbackRuns, c);
  }

  lemma StepKeepsCountInv(config: Config, s: State, e: Event)
    requires LockInv(s) && RunsInv(s) && CountInv(s)
    ensures CountInv(Step(config, s, e))
  {
    hide LockInv, RunsInv, LockOk, RunsOk, Step, FnStep;
    if e.FnReturns? {
      CallerOk(s, e.c);
      RunKeepsCountInv(s, e.c, e.v);
      FnStepOf(config, s, e);
    } else {
      OthersMakeNothing(config, s, e);
    }
  }

  lemma OthersKeepBound(config: Config, s: State, e: Event)
    requires Guarded(config) && LockInv(s) && BoundInv(s)
    requires !e.FnReturns? && !e.Abort?
    ensures BoundInv(Step(config, s, e))
  {
    hide LockInv, Step, Allowance;
    OthersMakeNothing(config, s, e);
    AllowanceKeeps(config, s, e);
    AbortedKeeps(config, s, e);
  }

  lemma AbortedKeeps(config: Config, s: State, e: Event)
    requires !e.Abort?
    ensures Step(config, s, e).aborted == s.aborted
  {
  }

  /** The caller the allowance turns on. */
  predicate HolderOk(s: State) {
    s.holder.Some? ==> LockOk(s, s.holder.value)
  }

  /** A step that uses the allowance up makes up for it. */
  lemma AllowanceKeeps(config: Config, s: State, e: Event)
    requires Guarded(config) && LockInv(s)
    requires !e.FnReturns? && !e.Abort?
    ensures s.lapses + Allowance(s) <= Step(config, s, e).lapses + Allowance(Step(config, s, e))
  {
    assert HolderOk(s);
    if !e.Lapse? {
      assert LockOk(s, e.c);
    }
    hide LockInv;
    if Moves(e) {
      MoveKeepsAllowance(config, s, e);
    } else {
      WorkKeepsAllowance(config, s, e);
    }
  }

  lemma MoveKeepsAllowance(config: Config, s: State, e: Event)
    requires Guarded(config) && HolderOk(s) && Moves(e) && LockOk(s, e.c)
    requires !e.Abort?
    ensures s.lapses + Allowance(s) <= Step(config, s, e).lapses + Allowance(Step(config, s, e))
  {
  }

  lemma WorkKeepsAllowance(config: Config, s: State, e: Event)
    requires Guarded(config) && HolderOk(s) && !Moves(e) && (!e.Lapse? ==> LockOk(s, e.c))
    requires !e.FnReturns?
    ensures s.lapses + Allowance(s) <= Step(config, s, e).lapses + Allowance(Step(config, s, e))
  {
  }

  /** Caller `c` is to run the function under an unbroken lock. */
  predicate RunsUnbroken(s: State, c: Caller) {
    c in s.phases && s.phases[c].LExec? && c !in s.aborted
  }

  lemma RunIsAllowed(s: State, c: Caller, v: Value)
    requires LockOk(s, c)
    ensures Allowance(FnStep(s, c, v)) == Allowance(s) + if RunsUnbroken(s, c) then 1 else 0
  {
  }

  lemma RunIsCounted(s: State, c: Caller, v: Value)
    requires RunsOk(s, c)
    ensures
      var t := FnStep(s, c, v);
      |t.lockedRuns - t.aborted| == |s.lockedRuns - s.aborted| + if RunsUnbroken(s, c) then 1 else 0
  {
    hide InLock, InFallback;
    var t := FnStep(s, c, v);
    if RunsUnbroken(s, c) {
      assert t.lockedRuns - t.aborted == (s.lockedRuns - s.aborted) + {c};
      OneMore(s.lockedRuns - s.aborted, c);
    } else {
      assert t.lockedRuns - t.aborted == s.lockedRuns - s.aborted;
    }
  }

  lemma RunKeepsBound(s: State, c: Caller, v: Value)
    requires LockInv(s) && RunsInv(s) && BoundInv(s)
    ensures BoundInv(FnStep(s, c, v))
  {
    hide LockInv, RunsInv, LockOk, RunsOk, Allowance, RunsUnbroken;
    CallerOk(s, c);
    RunIsAllowed(s, c, v);
    RunIsCounted(s, c, v);
  }

  lemma AbortKeepsBound(config: Config, s: State, e: Event)
    requires LockInv(s) && RunsInv(s) && BoundInv(s)
    requires e.Abort?
    ensures BoundInv(Step(config, s, e))
  {
    var t := Step(config, s, e);
    CallerOk(s, e.c);
    hide LockInv, RunsInv;
    if s.holder == Some(e.c) {
      assert t.lockedRuns - t.aborted == (s.lockedRuns - s.aborted) - {e.c};
      assert s.lockedRuns - s.aborted <= (t.lockedRuns - t.aborted) + {e.c};
      OneMore(t.lockedRuns - t.aborted, e.c);
    }
  }

  lemma StepKeepsInv(config: Config, s: State, e: Event)
    requires Guarded(config) && Inv(s)
    ensures Inv(Step(config, s, e))
  {
    hide LockInv, RunsInv, ValuesInv, CountInv, BoundInv, Step, FnStep;
    StepKeepsLockInv(config, s, e);
    StepKeepsRunsInv(config, s, e);
    StepKeepsValuesInv(config, s, e);
    StepKeepsCountInv(config, s, e);
    if e.FnReturns? {
      RunKeepsBound(s, e.c, e.v);
      FnStepOf(config, s, e);
    } else if e.Abort? {
      AbortKeepsBound(config, s, e);
    } else {
      OthersKeepBound(config, s, e);
    }
  }

  lemma {:induction false} RunKeepsInv(config: Config, cache: Option<Value>, events: seq<Event>)
    requires Guarded(config)
    ensures Inv(Run(config, Start(cache), events))
    decreases |events|
  {
    hide Inv, Step;
    if events == [] {
      StartInv(cache);
    } else {
      var n := |events| - 1;
      RunKeepsInv(config, cache, events[..n]);
      StepKeepsInv(config, Run(config, Start(cache), events[..n]), events[n]);
    }
  }

  lemma StartInv(cache: Option<Value>)
    ensures Inv(Start(cache))
  {
  }

  // ---------- main results ----------

  function Bound(s: State): nat {
    1 + s.lapses + |s.aborted| + |s.fellBack|
  }

  lemma SplitRuns(s: State)
    ensures |s.lockedRuns| <= |s.lockedRuns - s.aborted| + |s.aborted|
  {
    assert s.lockedRuns == (s.lockedRuns - s.aborted) + (s.lockedRuns * s.aborted);
    SubsetSize(s.lockedRuns * s.aborted, s.aborted);
  }

  /** Runs in the fallback are made by callers that fell back, and there are no others outside the lock. */
  lemma RunsOutside(s: State)
    requires LockInv(s) && RunsInv(s)
    ensures s.fallbackRuns <= s.fellBack && s.directRuns == {}
  {
    forall c ensures c in s.fallbackRuns ==> c in s.fellBack {
      assert RunsOk(s, c);
    }
    forall c ensures c !in s.directRuns {
      assert LockOk(s, c);
    }
  }

  lemma ValuesAreMade(s: State)
    requires ValuesInv(s)
    ensures forall c :: c in s.phases && HasValue(s.phases[c]) ==> s.phases[c].v in s.made
  {
    forall c | c in s.phases && HasValue(s.phases[c]) ensures s.phases[c].v in s.made {
      assert ValuesOk(s, c);
    }
  }

  lemma SubsetSize<T>(a: set<T>, b: set<T>)
    requires a <= b
    ensures |a| <= |b|
  {
    assert b == a + (b - a);
  }

  /** Double-checked locking, over every interleaving: the function succeeds at most once for each time
      something went wrong, and once more. What can go wrong: the cache lost a value or failed to read or
      write one, a caller lost its lock, a caller fell back. A value cached at first stands for a run. */
  lemma RunsAreBounded(config: Config, cache: Option<Value>, events: seq<Event>)
    requires Guarded(config)
    ensures var s := Run(config, Start(cache), events); Runs(s) + (if cache.Some? then 1 else 0) <= Bound(s)
  {
    var s := Run(config, Start(cache), events);
    RunKeepsInv(config, cache, events);
    RunKeepsWarm(config, cache, events);
    SplitRuns(s);
    RunsOutside(s);
    SubsetSize(s.fallbackRuns, s.fellBack);
  }

  lemma StepKeepsWarm(config: Config, s: State, e: Event)
    ensures Step(config, s, e).warm == s.warm && s.made <= Step(config, s, e).made
  {
  }

  lemma {:induction false} RunKeepsWarm(config: Config, cache: Option<Value>, events: seq<Event>)
    ensures Run(config, Start(cache), events).warm == Start(cache).warm
    ensures Start(cache).made <= Run(config, Start(cache), events).made
    decreases |events|
  {
    hide Step;
    if events != [] {
      var n := |events| - 1;
      RunKeepsWarm(config, cache, events[..n]);
      StepKeepsWarm(config, Run(config, Start(cache), events[..n]), events[n]);
    }
  }

  /** The values given to callers. */
  function Returned(s: State): set<Value> {
    set c | c in s.phases && s.phases[c].Done? :: s.phases[c].v
  }

  /** No more different values are returned than the bound on the runs. */
  lemma ReturnedAreFew(config: Config, cache: Option<Value>, events: seq<Event>)
    requires Guarded(config)
    ensures var s := Run(config, Start(cache), events); |Returned(s)| <= Bound(s)
  {
    var s := Run(config, Start(cache), events);
    RunKeepsInv(config, cache, events);
    ValuesAreMade(s);
    SubsetSize(Returned(s), s.made);
    SplitRuns(s);
    RunsOutside(s);
    SubsetSize(s.fallbackRuns, s.fellBack);
  }

  /** When nothing went wrong, every caller that completes gets the same value, and one cached at first is
      that value. */
  lemma AllReturnTheSame(config: Config, cache: Option<Value>, events: seq<Event>, c: Caller, d: Caller)
    requires Guarded(config)
    requires Bound(Run(config, Start(cache), events)) == 1
    requires var s := Run(config, Start(cache), events);
             c in s.phases && s.phases[c].Done? && d in s.phases && s.phases[d].Done?
    ensures var s := Run(config, Start(cache), events);
            s.phases[c].v == s.phases[d].v && (cache.Some? ==> s.phases[c].v == cache.value)
  {
    var s := Run(config, Start(cache), events);
    RunKeepsInv(config, cache, events);
    RunKeepsWarm(config, cache, events);
    SplitRuns(s);
    RunsOutside(s);
    SubsetSize(s.fallbackRuns, s.fellBack);
    ValuesAreMade(s);
    SubsetSize({s.phases[c].v, s.phases[d].v}, s.made);
    if cache.Some? {
      SubsetSize({s.phases[c].v, cache.value}, s.made);
    }
  }

  // ---------- what the guard is for ----------

  /** The same run, first event first. */
  lemma {:induction false} RunFirst(config: Config, start: State, events: seq<Event>)
    requires events != []
    ensures Run(config, start, events) == Run(config, Step(config, start, events[0]), events[1..])
    decreases |events|
  {
    var n := |events| - 1;
    if n > 0 {
      RunFirst(config, start, events[..n]);
      assert events[..n][1..] == events[1..][..n - 1];
    }
  }

  /** Caller `c` comes to run the function in the lock, and does, and tries to save the result. */
  function Coming(c: Caller): seq<Event> {
    [Enter(c, false), Acquire(c), ReadLocked(c, false), Begin(c)]
  }

  function Going(c: Caller): seq<Event> {
    [FnReturns(c, Null), Save(c, false), Release(c, true)]
  }

  function Together(): seq<Event> {
    [Enter(0, false), Enter(1, false), FnReturns(0, Null), FnReturns(1, Null)]
  }

  lemma {:induction false} RunAppend(config: Config, start: State, first: seq<Event>, second: seq<Event>)
    ensures Run(config, start, first + second) == Run(config, Run(config, start, first), second)
    decreases |second|
  {
    var both := first + second;
    if second == [] {
      assert both == first;
    } else {
      assert both[..|both| - 1] == first + second[..|second| - 1];
      RunAppend(config, start, first, second[..|second| - 1]);
    }
  }

  predicate Unread(config: Config, s: State) {
    config.options.skipGet || s.cache.None?
  }

  lemma ComingRuns(config: Config, s: State, c: Caller)
    requires config.available && config.redlock && config.options.preventConcurrent && Unread(config, s)
    requires s.holder.None? && c !in s.phases && c !in s.aborted
    ensures Run(config, s, Coming(c)) == s.(holder := Some(c), phases := s.phases[c := LExec])
  {
    hide Step;
    var s1 := s.(phases := s.phases[c := Waiting]);
    var s2 := s.(holder := Some(c), phases := s.phases[c := LGet]);
    var s3 := s2.(phases := s.phases[c := LCheck]);
    ComingSteps(config, s, c);
    RunFirst(config, s, Coming(c));
    RunFirst(config, s1, Coming(c)[1..]);
    RunFirst(config, s2, Coming(c)[2..]);
    RunFirst(config, s3, Coming(c)[3..]);
  }

  lemma ComingSteps(config: Config, s: State, c: Caller)
    requires config.available && config.redlock && config.options.preventConcurrent && Unread(config, s)
    requires s.holder.None? && c !in s.phases && c !in s.aborted
    ensures
      var s1 := s.(phases := s.phases[c := Waiting]);
      var s2 := s.(holder := Some(c), phases := s.phases[c := LGet]);
      var s3 := s2.(phases := s.phases[c := LCheck]);
      && Step(config, s, Enter(c, false)) == s1
      && Step(config, s1, Acquire(c)) == s2
      && Step(config, s2, ReadLocked(c, false)) == s3
      && Step(config, s3, Begin(c)) == s.(holder := Some(c), phases := s.phases[c := LExec])
  {
  }

  /** The state in which `c` has run the function and is done with the cache. */
  function Gone(config: Config, s: State, c: Caller): State {
    Step(config, Step(config, Step(config, s, FnReturns(c, Null)), Save(c, false)), Release(c, true))
  }

  lemma GoneLeaves(config: Config, s: State, c: Caller)
    requires config.options.skipGet || config.options.skipSet || config.options.ttl.None?
    requires Unread(config, s) && s.holder == Some(c) && c in s.phases && s.phases[c] == LExec
    ensures
      var t := Gone(config, s, c);
      && t.holder.None? && Unread(config, t) && t.phases.Keys == s.phases.Keys
      && t.lockedRuns == s.lockedRuns + {c} && t.fallbackRuns == s.fallbackRuns && t.directRuns == s.directRuns
      && t.lapses == s.lapses && t.aborted == s.aborted && t.fellBack == s.fellBack
  {
  }

  lemma GoingRuns(config: Config, s: State, c: Caller)
    requires config.options.skipGet || config.options.skipSet || config.options.ttl.None?
    requires Unread(config, s) && s.holder == Some(c) && c in s.phases && s.phases[c] == LExec
    ensures
      var t := Run(config, s, Going(c));
      && t.holder.None? && Unread(config, t) && t.phases.Keys == s.phases.Keys
      && t.lockedRuns == s.lockedRuns + {c} && t.fallbackRuns == s.fallbackRuns && t.directRuns == s.directRuns
      && t.lapses == s.lapses && t.aborted == s.aborted && t.fellBack == s.fellBack
  {
    GoneLeaves(config, s, c);
    hide Step, Unread;
    var s1 := Step(config, s, FnReturns(c, Null));
    var s2 := Step(config, s1, Save(c, false));
    RunFirst(config, s, Going(c));
    RunFirst(config, s1, Going(c)[1..]);
    RunFirst(config, s2, Going(c)[2..]);
  }

  /** Without reads, writes or a ttl, one caller leaves the next the cache and the lock as it found them. */
  lemma AloneRuns(config: Config, s: State, c: Caller)
    requires config.available && config.redlock && config.options.preventConcurrent && Unread(config, s)
    requires config.options.skipGet || config.options.skipSet || config.options.ttl.None?
    requires s.holder.None? && c !in s.phases && c !in s.aborted
    ensures
      var t := Run(config, s, Coming(c) + Going(c));
      && t.holder.None? && Unread(config, t) && t.phases.Keys == s.phases.Keys + {c}
      && t.lockedRuns == s.lockedRuns + {c} && t.fallbackRuns == s.fallbackRuns && t.directRuns == s.directRuns
      && t.lapses == s.lapses && t.aborted == s.aborted && t.fellBack == s.fellBack
  {
    hide Run, Coming, Going;
    ComingRuns(config, s, c);
    GoingRuns(config, Run(config, s, Coming(c)), c);
    RunAppend(config, s, Coming(c), Going(c));
  }

  lemma TogetherRuns(config: Config)
    requires !config.available || !config.options.preventConcurrent || !config.redlock
    ensures
      var t := Run(config, Start(None), Together());
      && t.directRuns == {0, 1} && t.lockedRuns == {} && t.fallbackRuns == {}
      && t.lapses == 0 && t.aborted == {} && t.fellBack == {}
  {
    var s0 := Start(None);
    RunFirst(config, s0, Together());
    var s1 := Step(config, s0, Enter(0, false));
    RunFirst(config, s1, Together()[1..]);
    var s2 := Step(config, s1, Enter(1, false));
    RunFirst(config, s2, Together()[2..]);
    var s3 := Step(config, s2, FnReturns(0, Null));
    RunFirst(config, s3, Together()[3..]);
  }

  ghost predicate RunsTwice(config: Config, events: seq<Event>) {
    var s := Run(config, Start(None), events);
    Runs(s) == 2 && Bound(s) == 1
  }

  lemma TwoRuns(s: State)
    requires (s.directRuns == {0, 1} && s.lockedRuns == {}) || (s.directRuns == {} && s.lockedRuns == {0, 1})
    requires s.fallbackRuns == {} && s.lapses == 0 && s.aborted == {} && s.fellBack == {}
    ensures Runs(s) == 2 && Bound(s) == 1
  {
  }

  /** In any other configuration the function can run twice though nothing went wrong. */
  lemma UnguardedRunsTwice(config: Config) returns (events: seq<Event>)
    requires !Guarded(config)
    ensures RunsTwice(config, events)
  {
    hide Run, Coming, Going, Together, Runs, Bound;
    if !config.available || !config.options.preventConcurrent || !config.redlock {
      events := Together();
      TogetherRuns(config);
    } else {
      var one, two := Coming(0) + Going(0), Coming(1) + Going(1);
      events := one + two;
      AloneRuns(config, Start(None), 0);
      AloneRuns(config, Run(config, Start(None), one), 1);
      RunAppend(config, Start(None), one, two);
      assert Run(config, Start(None), events).lockedRuns == {0, 1};
    }
    TwoRuns(Run(config, Start(None), events));
  }

  /** The bound holds over every interleaving exactly when the configuration is guarded. */
  lemma BoundNeedsGuard(config: Config)
    ensures (forall events: seq<Event> :: var s := Run(config, Start(None), events); Runs(s) <= Bound(s))
            <==> Guarded(config)
  {
    if Guarded(config) {
      forall events: seq<Event> ensures var s := Run(config, Start(None), events); Runs(s) <= Bound(s) {
        RunsAreBounded(config, None, events);
      }
    } else {
      var events := UnguardedRunsTwice(config);
      assert Runs(Run(config, Start(None), events)) > Bound(Run(config, Start(None), events));
    }
  }
}
