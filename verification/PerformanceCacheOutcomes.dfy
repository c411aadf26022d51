/** How a call of `wrap` ends: what it returns and where that came from, when it fails, and that it ends. */
module PerformanceCacheOutcomes {
  import opened PerformanceCache
  import opened Wrappers

  // ---------- one caller among others ----------

  predicate Of(e: Event, c: Caller) {
    !e.Lapse? && e.c == c
  }

  predicate Quiet(events: seq<Event>, c: Caller) {
    forall i :: 0 <= i < |events| ==> !Of(events[i], c)
  }

  /** Where a caller stands, and whether it holds the lock or has lost it. */
  datatype Standing = Standing(phase: Option<Phase>, holds: bool, aborted: bool)

  function StandingOf(s: State, c: Caller): Standing {
    Standing(if c in s.phases then Some(s.phases[c]) else None, s.holder == Some(c), c in s.aborted)
  }

  lemma OthersRun(s: State, runner: Caller, v: Value, c: Caller)
    requires runner != c
    ensures StandingOf(FnStep(s, runner, v), c) == StandingOf(s, c)
  {
  }

  lemma OthersSave(config: Config, s: State, saver: Caller, fails: bool, c: Caller)
    requires saver != c
    ensures StandingOf(SaveStep(config, s, saver, fails), c) == StandingOf(s, c)
  {
    hide Write;
  }

  lemma OthersLeaveCaller(config: Config, s: State, e: Event, c: Caller)
    requires !Of(e, c)
    ensures StandingOf(Step(config, s, e), c) == StandingOf(s, c)
  {
    hide Read, FnStep, SaveStep;
    if e.FnReturns? {
      OthersRun(s, e.c, e.v, c);
    } else if e.Save? {
      OthersSave(config, s, e.c, e.fails, c);
    }
  }

  /** What others do between two events of a caller does not move it. */
  lemma {:induction false} QuietLeavesCaller(config: Config, s: State, events: seq<Event>, c: Caller)
    requires Quiet(events, c)
    ensures StandingOf(Run(config, s, events), c) == StandingOf(s, c)
    decreases |events|
  {
    hide Step, StandingOf;
    if events != [] {
      var n := |events| - 1;
      QuietLeavesCaller(config, s, events[..n], c);
      OthersLeaveCaller(config, Run(config, s, events[..n]), events[n], c);
    }
  }

  /** The state after others' events and then one of the caller's. */
  lemma RunThen(config: Config, s: State, gap: seq<Event>, e: Event)
    ensures Run(config, s, gap + [e]) == Step(config, Run(config, s, gap), e)
  {
    assert (gap + [e])[..|gap|] == gap;
  }

  // ---------- calls from their parts ----------

  /** What a read finds in the cache. */
  function Hit(config: Config, s: State, fails: bool): Option<Value> {
    if config.available && !config.options.skipGet && !fails then s.cache else None
  }

  /** Storing fails the call for want of a ttl. */
  predicate TtlMissing(config: Config) {
    config.available && !config.options.skipSet && config.options.ttl.None?
  }

  predicate At(s: State, c: Caller, phase: Phase) {
    c in s.phases && s.phases[c] == phase
  }

  /** A call begins with a read; without a hit it waits for the lock, or runs the function where there is no
      lock to wait for. */
  lemma CallBegins(config: Config, s: State, c: Caller, fails: bool)
    requires c !in s.phases
    ensures
      var t := Step(config, s, Enter(c, fails));
      At(t, c, match Hit(config, s, fails)
               case Some(v) => Done(v)
               case None =>
                 if config.available && config.redlock && config.options.preventConcurrent then Waiting else DExec)
  {
  }

  lemma AcquireThenWait(config: Config, s: State, c: Caller, gap: seq<Event>)
    requires At(s, c, Waiting) && s.holder.None? && c !in s.aborted && Quiet(gap, c)
    ensures StandingOf(Run(config, s, [Acquire(c)] + gap), c) == Standing(Some(LGet), true, false)
  {
    RunAppend(config, s, [Acquire(c)], gap);
    var t := Step(config, s, Acquire(c));
    RunThen(config, s, [], Acquire(c));
    assert [] + [Acquire(c)] == [Acquire(c)] && Run(config, s, []) == s;
    QuietLeavesCaller(config, t, gap, c);
    hide Run;
  }

  /** Others act, then the caller does. */
  lemma AfterOthers(config: Config, s: State, gap: seq<Event>, e: Event, c: Caller) returns (mid: State)
    requires Quiet(gap, c)
    ensures Run(config, s, gap + [e]) == Step(config, mid, e)
    ensures StandingOf(mid, c) == StandingOf(s, c)
  {
    mid := Run(config, s, gap);
    QuietLeavesCaller(config, s, gap, c);
    RunThen(config, s, gap, e);
  }

  lemma BeginsInLock(config: Config, s: State, c: Caller, gap: seq<Event>)
    requires StandingOf(s, c) == Standing(Some(LCheck), true, false) && Quiet(gap, c)
    ensures At(Run(config, s, gap + [Begin(c)]), c, LExec)
  {
    var mid := AfterOthers(config, s, gap, Begin(c), c);
    hide Run;
  }

  /** The function succeeds. */
  lemma FunctionReturns(config: Config, s: State, c: Caller, v: Value, gap: seq<Event>)
    requires At(s, c, LExec) || At(s, c, FExec) || At(s, c, DExec)
    requires Quiet(gap, c)
    ensures
      var t := Run(config, s, gap + [FnReturns(c, v)]);
      && (At(s, c, LExec) ==> At(t, c, LStore(v)) && c in t.lockedRuns)
      && (At(s, c, FExec) ==> At(t, c, FStore(v)) && c in t.fallbackRuns)
      && (At(s, c, DExec) ==> At(t, c, DStore(v)) && c in t.directRuns)
  {
    var mid := AfterOthers(config, s, gap, FnReturns(c, v), c);
    hide Run;
  }

  /** The result is cached, unless storing fails or is off. */
  predicate Saved(config: Config, s: State, v: Value, fails: bool) {
    config.available && !config.options.skipSet && !fails ==> s.cache == Some(v)
  }

  lemma ResultIsSaved(config: Config, s: State, c: Caller, v: Value, fails: bool, gap: seq<Event>)
    requires At(s, c, LStore(v)) || At(s, c, FStore(v)) || At(s, c, DStore(v))
    requires Quiet(gap, c)
    ensures
      var t := Run(config, s, gap + [Save(c, fails)]);
      if TtlMissing(config) then At(t, c, Failed)
      else Saved(config, t, v, fails) && At(t, c, if At(s, c, LStore(v)) then LRelease(v) else Done(v))
  {
    var mid := AfterOthers(config, s, gap, Save(c, fails), c);
    hide Run;
  }

  lemma LockIsReleased(config: Config, s: State, c: Caller, v: Value, gap: seq<Event>)
    requires At(s, c, LRelease(v)) && Quiet(gap, c)
    ensures var t := Run(config, s, gap + [Release(c, true)]); At(t, c, Done(v)) && t.holder != Some(c)
  {
    var mid := AfterOthers(config, s, gap, Release(c, true), c);
    hide Run;
  }

  lemma LockedReads(config: Config, s: State, c: Caller, fails: bool)
    requires StandingOf(s, c) == Standing(Some(LGet), true, false)
    ensures
      StandingOf(Step(config, s, ReadLocked(c, fails)), c) ==
      Standing(Some(match Hit(config, s, fails) case Some(v) => LRelease(v) case None => LCheck), true, false)
  {
  }

  lemma StandsAt(s: State, c: Caller, phase: Phase)
    ensures StandingOf(s, c).phase == Some(phase) <==> At(s, c, phase)
  {
  }

  /** A caller that has the lock reads again, whatever others have done since, and returns what it finds. */
  lemma LockedReadHits(config: Config, s: State, c: Caller, fails: bool, v: Value, gap: seq<Event>, after: seq<Event>)
    requires At(s, c, Waiting) && s.holder.None? && c !in s.aborted && Quiet(gap, c) && Quiet(after, c)
    requires Hit(config, Run(config, s, [Acquire(c)] + gap), fails) == Some(v)
    ensures
      var read := Run(config, s, ([Acquire(c)] + gap) + [ReadLocked(c, fails)]);
      At(Run(config, read, after + [Release(c, true)]), c, Done(v))
  {
    hide *;
    var held := Run(config, s, [Acquire(c)] + gap);
    var read := Step(config, held, ReadLocked(c, fails));
    AcquireThenWait(config, s, c, gap);
    RunThen(config, s, [Acquire(c)] + gap, ReadLocked(c, fails));
    LockedReads(config, held, c, fails);
    StandsAt(read, c, LRelease(v));
    LockIsReleased(config, read, c, v, after);
  }

  /** Without a hit it runs the function, caches the result and returns it, or fails for want of a ttl. */
  lemma LockedRunCompletes(config: Config, s: State, c: Caller, fails: bool, v: Value, saveFails: bool,
      gaps: seq<seq<Event>>)
    requires |gaps| == 4 && forall i :: 0 <= i < 4 ==> Quiet(gaps[i], c)
    requires StandingOf(s, c) == Standing(Some(LGet), true, false) && Hit(config, s, fails).None?
    ensures
      var missed := Step(config, s, ReadLocked(c, fails));
      var began := Run(config, missed, gaps[0] + [Begin(c)]);
      var ran := Run(config, began, gaps[1] + [FnReturns(c, v)]);
      var saved := Run(config, ran, gaps[2] + [Save(c, saveFails)]);
      && c in ran.lockedRuns
      && (if TtlMissing(config) then At(saved, c, Failed)
          else Saved(config, saved, v, saveFails) && At(Run(config, saved, gaps[3] + [Release(c, true)]), c, Done(v)))
  {
    hide *;
    var missed := Step(config, s, ReadLocked(c, fails));
    LockedReads(config, s, c, fails);
    var began := Run(config, missed, gaps[0] + [Begin(c)]);
    var ran := Run(config, began, gaps[1] + [FnReturns(c, v)]);
    var saved := Run(config, ran, gaps[2] + [Save(c, saveFails)]);
    BeginsInLock(config, missed, c, gaps[0]);
    FunctionReturns(config, began, c, v, gaps[1]);
    ResultIsSaved(config, ran, c, v, saveFails, gaps[2]);
    if !TtlMissing(config) { LockIsReleased(config, saved, c, v, gaps[3]); }
  }

  /** Whatever goes wrong with the lock, the caller falls back: it does not fail, and holds the lock no more. */
  lemma LockTroubleFallsBack(config: Config, s: State, c: Caller, e: Event)
    requires c in s.phases && Of(e, c)
    requires match e
             case LockFails(_) => s.phases[c] == Waiting
             case ReadLocked(_, _) => s.phases[c] == LGet && c in s.aborted
             case Begin(_) => s.phases[c] == LCheck && c in s.aborted
             case FnThrows(_, lockError) => s.phases[c] == LExec && lockError
             case Release(_, ok) => s.phases[c].LRelease? && !ok
             case _ => false
    ensures
      var t := Step(config, s, e);
      At(t, c, FWait) && t.holder != Some(c) && c in t.fellBack
  {
  }

  /** A function that throws, with the lock not to blame, fails its call, which holds the lock no more. */
  lemma OwnThrowFails(config: Config, s: State, c: Caller, lockError: bool)
    requires At(s, c, FExec) || At(s, c, DExec) || (At(s, c, LExec) && !lockError)
    requires s.holder == Some(c) ==> At(s, c, LExec)
    ensures
      var t := Step(config, s, FnThrows(c, lockError));
      At(t, c, Failed) && t.holder != Some(c) && t.fellBack == s.fellBack
  {
  }

  lemma FallbackReads(config: Config, s: State, c: Caller, fails: bool, gap: seq<Event>)
    requires At(s, c, FWait) && Quiet(gap, c)
    ensures
      At(Run(config, s, gap + [ReadFallback(c, fails)]), c,
         match Hit(config, Run(config, s, gap), fails) case Some(w) => Done(w) case None => FExec)
  {
    QuietLeavesCaller(config, s, gap, c);
    RunThen(config, s, gap, ReadFallback(c, fails));
    hide Run;
  }

  /** A caller that fell back reads once more, whatever others have done, and returns what it finds. Otherwise
      it runs the function, and when that succeeds, caches and returns the result. */
  lemma FallbackCompletes(config: Config, s: State, c: Caller, fails: bool, v: Value, saveFails: bool,
      gaps: seq<seq<Event>>)
    requires |gaps| == 3 && forall i :: 0 <= i < 3 ==> Quiet(gaps[i], c)
    requires At(s, c, FWait)
    ensures
      var read := Run(config, s, gaps[0] + [ReadFallback(c, fails)]);
      match Hit(config, Run(config, s, gaps[0]), fails)
      case Some(w) => At(read, c, Done(w))
      case None =>
        var ran := Run(config, read, gaps[1] + [FnReturns(c, v)]);
        var saved := Run(config, ran, gaps[2] + [Save(c, saveFails)]);
        && c in ran.fallbackRuns
        && (if TtlMissing(config) then At(saved, c, Failed)
            else At(saved, c, Done(v)) && Saved(config, saved, v, saveFails))
  {
    var read := Run(config, s, gaps[0] + [ReadFallback(c, fails)]);
    var ran := Run(config, read, gaps[1] + [FnReturns(c, v)]);
    NotInLock(ran, c, v);
    hide *;
    FallbackReads(config, s, c, fails, gaps[0]);
    if Hit(config, Run(config, s, gaps[0]), fails).None? {
      FunctionReturns(config, read, c, v, gaps[1]);
      ResultIsSaved(config, ran, c, v, saveFails, gaps[2]);
    }
  }

  lemma NotInLock(s: State, c: Caller, v: Value)
    ensures At(s, c, FStore(v)) || At(s, c, DStore(v)) ==> !At(s, c, LStore(v))
  {
  }

  /** Without a lock the function is run at once. */
  lemma DirectRunCompletes(config: Config, s: State, c: Caller, v: Value, saveFails: bool, gaps: seq<seq<Event>>)
    requires |gaps| == 2 && Quiet(gaps[0], c) && Quiet(gaps[1], c)
    requires At(s, c, DExec)
    ensures
      var ran := Run(config, s, gaps[0] + [FnReturns(c, v)]);
      var saved := Run(config, ran, gaps[1] + [Save(c, saveFails)]);
      && c in ran.directRuns
      && (if TtlMissing(config) then At(saved, c, Failed)
          else At(saved, c, Done(v)) && Saved(config, saved, v, saveFails))
  {
    var ran := Run(config, s, gaps[0] + [FnReturns(c, v)]);
    NotInLock(ran, c, v);
    hide *;
    FunctionReturns(config, s, c, v, gaps[0]);
    ResultIsSaved(config, ran, c, v, saveFails, gaps[1]);
  }

  // ---------- over whole runs ----------

  /** The event gives its caller `v`: a read that hits, or the function. */
  predicate Gives(config: Config, s: State, e: Event, c: Caller, v: Value) {
    && Of(e, c)
    && match e
       case Enter(_, fails) => c !in s.phases && Hit(config, s, fails) == Some(v)
       case ReadLocked(_, fails) => Hit(config, s, fails) == Some(v)
       case ReadFallback(_, fails) => Hit(config, s, fails) == Some(v)
       case FnReturns(_, w) =>
         w == v && c in s.phases && (s.phases[c].LExec? || s.phases[c].FExec? || s.phases[c].DExec?)
       case _ => false
  }

  /** The event makes its caller fail: the function throws, with the lock not to blame for it, or a ttl is
      missing. */
  predicate Breaks(config: Config, s: State, e: Event, c: Caller) {
    && Of(e, c) && c in s.phases
    && match e
       case FnThrows(_, lockError) =>
         s.phases[c].FExec? || s.phases[c].DExec? || (s.phases[c].LExec? && !lockError)
       case Save(_, _) => TtlMissing(config)
       case _ => false
  }

  lemma ValueStep(config: Config, s: State, e: Event, c: Caller)
    requires var t := Step(config, s, e); c in t.phases && HasValue(t.phases[c])
    ensures
      var v := Step(config, s, e).phases[c].v;
      Gives(config, s, e, c, v) || (c in s.phases && HasValue(s.phases[c]) && s.phases[c].v == v)
  {
  }

  /** Every value a caller has was given to it by one of its own events. */
  lemma {:induction false} ValueIsGiven(config: Config, cache: Option<Value>, events: seq<Event>, c: Caller)
    requires var s := Run(config, Start(cache), events); c in s.phases && HasValue(s.phases[c])
    ensures
      var v := Run(config, Start(cache), events).phases[c].v;
      exists i :: 0 <= i < |events| && Gives(config, Run(config, Start(cache), events[..i]), events[i], c, v)
    decreases |events|
  {
    hide Step, Gives;
    if events != [] {
      var n := |events| - 1;
      var s := Run(config, Start(cache), events[..n]);
      var v := Run(config, Start(cache), events).phases[c].v;
      ValueStep(config, s, events[n], c);
      if !Gives(config, s, events[n], c, v) {
        ValueIsGiven(config, cache, events[..n], c);
        var i :| 0 <= i < n && Gives(config, Run(config, Start(cache), events[..n][..i]), events[..n][i], c, v);
        assert events[..n][..i] == events[..i] && events[..n][i] == events[i];
      }
    }
  }

  lemma FailureStep(config: Config, s: State, e: Event, c: Caller)
    requires At(Step(config, s, e), c, Failed)
    ensures Breaks(config, s, e, c) || At(s, c, Failed)
  {
  }

  /** A call fails only by its own function or for want of a ttl, never through the cache or the lock. */
  lemma {:induction false} FailureIsOwn(config: Config, cache: Option<Value>, events: seq<Event>, c: Caller)
    requires At(Run(config, Start(cache), events), c, Failed)
    ensures exists i :: 0 <= i < |events| && Breaks(config, Run(config, Start(cache), events[..i]), events[i], c)
    decreases |events|
  {
    hide Step, Breaks;
    if events != [] {
      var n := |events| - 1;
      var s := Run(config, Start(cache), events[..n]);
      FailureStep(config, s, events[n], c);
      if !Breaks(config, s, events[n], c) {
        FailureIsOwn(config, cache, events[..n], c);
        var i :| 0 <= i < n && Breaks(config, Run(config, Start(cache), events[..n][..i]), events[..n][i], c);
        assert events[..n][..i] == events[..i] && events[..n][i] == events[i];
      }
    }
  }

  // ---------- every call ends ----------

  /** How many of its own steps a call is from its end at most. */
  function Rank(phase: Phase): nat {
    match phase
    case Waiting => 9
    case LGet => 8
    case LCheck => 7
    case LExec => 6
    case LStore(_) => 5
    case LRelease(_) => 4
    case FWait => 3
    case FExec => 2
    case DExec => 2
    case FStore(_) => 1
    case DStore(_) => 1
    case Done(_) => 0
    case Failed => 0
  }

  /** No event moves a call back. */
  lemma CallsMoveForward(config: Config, s: State, e: Event, c: Caller)
    requires c in s.phases
    ensures
      var t := Step(config, s, e);
      c in t.phases && (t.phases[c] == s.phases[c] || Rank(t.phases[c]) < Rank(s.phases[c]))
  {
    hide Read, Write;
  }

  /** In every state an unfinished call has a step of its own that moves it on; one that waits for the lock
      can also take it when it is free. */
  lemma CallsCanMove(config: Config, s: State, c: Caller) returns (e: Event)
    requires c in s.phases && !s.phases[c].Done? && !s.phases[c].Failed?
    ensures Of(e, c) && var t := Step(config, s, e); c in t.phases && Rank(t.phases[c]) < Rank(s.phases[c])
    ensures s.phases[c] == Waiting && s.holder.None? ==> e == Acquire(c)
    ensures s.phases[c] == Waiting && s.holder.Some? ==> e == LockFails(c)
  {
    e := match s.phases[c]
      case Waiting => if s.holder.None? then Acquire(c) else LockFails(c)
      case LGet => ReadLocked(c, false)
      case LCheck => Begin(c)
      case LStore(_) => Save(c, false)
      case FStore(_) => Save(c, false)
      case DStore(_) => Save(c, false)
      case LRelease(_) => Release(c, true)
      case FWait => ReadFallback(c, false)
      case _ => FnReturns(c, Null);
  }
}
