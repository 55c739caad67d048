/**
 One relay process beside everything else that uses the outbox: interval callbacks, settling ticks, signals,
 drain, close, failures, the watchdog and calls of `exit`, interleaved with any steps of any other process.
 The run goes on after an exit, so what is proved does not depend on the process dying at once.
 */
module RelayProcess {
  import opened Prelude
  import opened Shutdown
  import Outbox
  import O = OutboxSystem
  import OP = OutboxProofs

  /** One call of the relay use case; `tick` is its outbox transaction once that has fetched. */
  datatype Job = Job(tick: Option<nat>, settled: bool)

  datatype State = State(db: O.State, loop: Loop, jobs: seq<Job>, runner: Runner)

  datatype Step =
    | World(step: O.Step)          // any database step, of this process's ticks or of anything else
    | Start
    | Interval
    | JobFetch(ids: seq<nat>)
    | JobSettles
    | Signal
    | DrainResolves
    | DrainThrows
    | CloseResolves
    | CloseThrows
    | Watchdog
    | FlushSettles

  const Empty := State(O.Empty, Loop(false, None), [], FreshRunner)

  /** The transaction is over and its callback with it, so the use case's promise can settle. */
  ghost predicate Over(db: O.State, t: nat) {
    t < |db.ticks| && !db.ticks[t].status.Open? && !db.ticks[t].running
  }

  ghost predicate CanSettle(s: State, j: nat) {
    j < |s.jobs| && (s.jobs[j].tick.Some? ==> Over(s.db, s.jobs[j].tick.value))
  }

  ghost predicate Enabled(policy: Outbox.Policy, s: State, step: Step) {
    match step
    case World(_) => true
    case Start => true
    case Interval => s.loop.timer
    case JobFetch(ids) =>
      && s.loop.inFlight.Some? && s.loop.inFlight.value < |s.jobs| && s.jobs[s.loop.inFlight.value].tick.None?
      && O.Enabled(policy, s.db, O.Fetch(ids))
    case JobSettles => s.loop.inFlight.Some? && CanSettle(s, s.loop.inFlight.value)
    case Signal => true
    case DrainResolves =>
      && s.runner.stage.Draining?
      && (s.runner.stage.awaited.Some? ==>
            s.runner.stage.awaited.value < |s.jobs| && s.jobs[s.runner.stage.awaited.value].settled)
    case DrainThrows => s.runner.stage.Draining?
    case CloseResolves => s.runner.stage.Closing?
    case CloseThrows => s.runner.stage.Closing?
    case Watchdog => s.runner.armed && s.db.now >= s.runner.deadline
    case FlushSettles => s.runner.flushes > 0
  }

  ghost function Apply(policy: Outbox.Policy, timeoutMs: nat, s: State, step: Step): State
    requires Enabled(policy, s, step)
  {
    match step
    case World(o) => s.(db := O.Next(policy, s.db, o))
    case Start => s.(loop := LoopStart(s.loop))
    case Interval =>
      s.(loop := LoopInterval(s.loop, |s.jobs|),
         jobs := if s.loop.inFlight.Some? then s.jobs else s.jobs + [Job(None, false)])
    case JobFetch(ids) =>
      s.(jobs := s.jobs[s.loop.inFlight.value := Job(Some(|s.db.ticks|), false)],
         db := O.Next(policy, s.db, O.Fetch(ids)))
    case JobSettles =>
      s.(loop := LoopSettled(s.loop),
         jobs := s.jobs[s.loop.inFlight.value := s.jobs[s.loop.inFlight.value].(settled := true)])
    case Signal =>
      s.(runner := Invoke(s.runner, s.db.now + timeoutMs, s.loop.inFlight),
         loop := if s.runner.started then s.loop else LoopStop(s.loop))
    case DrainResolves => s.(runner := Drained(s.runner))
    case DrainThrows => s.(runner := Thrown(s.runner, DrainFailed))
    case CloseResolves => s.(runner := Closed(s.runner))
    case CloseThrows => s.(runner := Thrown(s.runner, CloseFailed))
    case Watchdog => s.(runner := WatchdogFired(s.runner))
    case FlushSettles => s.(runner := Flushed(s.runner))
  }

  ghost function Next(policy: Outbox.Policy, timeoutMs: nat, s: State, step: Step): State {
    if Enabled(policy, s, step) then Apply(policy, timeoutMs, s, step) else s
  }

  ghost function Run(policy: Outbox.Policy, timeoutMs: nat, s: State, steps: seq<Step>): State
    decreases |steps|
  {
    if steps == [] then s else Run(policy, timeoutMs, Next(policy, timeoutMs, s, steps[0]), steps[1..])
  }

  // ---------------------------------------------------------------- exits

  ghost predicate ExitsAndTimeOk(now: nat, r: Runner) {
    ExitsOk(r) && (r.timedOut ==> r.deadline <= now)
  }

  lemma ExitsStep(policy: Outbox.Policy, timeoutMs: nat, s: State, step: Step)
    requires ExitsAndTimeOk(s.db.now, s.runner)
    ensures ExitsAndTimeOk(Next(policy, timeoutMs, s, step).db.now, Next(policy, timeoutMs, s, step).runner)
  {
  }

  lemma {:induction false} ExitsRun(policy: Outbox.Policy, timeoutMs: nat, s: State, steps: seq<Step>)
    requires ExitsAndTimeOk(s.db.now, s.runner)
    ensures ExitsAndTimeOk(Run(policy, timeoutMs, s, steps).db.now, Run(policy, timeoutMs, s, steps).runner)
    decreases |steps|
  {
    if steps != [] {
      ExitsStep(policy, timeoutMs, s, steps[0]);
      ExitsRun(policy, timeoutMs, Next(policy, timeoutMs, s, steps[0]), steps[1..]);
    }
  }

  /**
   However signals, drain, close, failures and the watchdog interleave, `exit` is called at most once: with 0 exactly
   when drain and then close finished before the watchdog fired, with 1 only otherwise, and it has been called
   as soon as the runner is done or timed out and Sentry's flush has settled.
   */
  lemma OneExit(policy: Outbox.Policy, timeoutMs: nat, steps: seq<Step>)
    ensures var r := Run(policy, timeoutMs, Empty, steps).runner;
      && |r.exits| <= 1
      && (r.exits == [0] <==> r.stage == Done(Clean) && !r.timedOut)
      && (r.exits == [1] <==> r.flushes == 0 && (r.timedOut || r.stage in {Done(DrainFailed), Done(CloseFailed)}))
      && (r.exits == [] <==> r.flushes > 0 || (!r.timedOut && !r.stage.Done?))
  {
    ExitsRun(policy, timeoutMs, Empty, steps);
  }

  // ---------------------------------------------------------------- ticks

  /** A tick that is over stays over. */
  lemma OverStays(policy: Outbox.Policy, db: O.State, step: O.Step, t: nat)
    requires Over(db, t)
    ensures Over(O.Next(policy, db, step), t)
    ensures O.Next(policy, db, step).ticks[t].status == db.ticks[t].status
  {
  }

  /** Only the last job can be unsettled, and it is the one the loop holds. */
  ghost predicate JobsOk(s: State) {
    && (s.loop.inFlight.Some? ==> s.loop.inFlight.value == |s.jobs| - 1)
    && (forall j :: 0 <= j < |s.jobs| ==> (s.jobs[j].settled <==> s.loop.inFlight != Some(j)))
    && (forall j :: 0 <= j < |s.jobs| && s.jobs[j].settled && s.jobs[j].tick.Some? ==> Over(s.db, s.jobs[j].tick.value))
  }

  /** With no `Start` after the first signal. */
  ghost predicate StoppedOk(s: State) {
    && (s.runner.stage.Idle? <==> !s.runner.started)
    && (s.runner.started ==> !s.loop.timer)
    && (s.runner.stage.Draining? ==> s.loop.inFlight.None? || s.loop.inFlight == s.runner.stage.awaited)
    && (s.runner.stage.Closing? || s.runner.stage in {Done(Clean), Done(CloseFailed)} ==> s.loop.inFlight.None?)
  }

  lemma JobsStep(policy: Outbox.Policy, timeoutMs: nat, s: State, step: Step)
    requires JobsOk(s)
    ensures JobsOk(Next(policy, timeoutMs, s, step))
  {
    var s' := Next(policy, timeoutMs, s, step);
    forall j | 0 <= j < |s'.jobs| && s'.jobs[j].settled && s'.jobs[j].tick.Some?
      ensures Over(s'.db, s'.jobs[j].tick.value)
    {
      if j < |s.jobs| && s.jobs[j].settled {
        assert s.jobs[j] == s'.jobs[j];
        if step.World? { OverStays(policy, s.db, step.step, s.jobs[j].tick.value); }
        if step.JobFetch? { OverStays(policy, s.db, O.Fetch(step.ids), s.jobs[j].tick.value); }
      }
    }
  }

  lemma StoppedStep(policy: Outbox.Policy, timeoutMs: nat, s: State, step: Step)
    requires JobsOk(s) && StoppedOk(s) && (step.Start? ==> !s.runner.started)
    ensures StoppedOk(Next(policy, timeoutMs, s, step))
  {
  }

  ghost predicate NoStartAfterSignal(steps: seq<Step>) {
    forall i, j :: 0 <= i < j < |steps| && steps[i].Signal? ==> !steps[j].Start?
  }

  ghost predicate NoStart(steps: seq<Step>) {
    forall i :: 0 <= i < |steps| ==> !steps[i].Start?
  }

  lemma {:induction false} JobsRun(policy: Outbox.Policy, timeoutMs: nat, s: State, steps: seq<Step>)
    requires JobsOk(s)
    ensures JobsOk(Run(policy, timeoutMs, s, steps))
    decreases |steps|
  {
    if steps != [] {
      JobsStep(policy, timeoutMs, s, steps[0]);
      JobsRun(policy, timeoutMs, Next(policy, timeoutMs, s, steps[0]), steps[1..]);
    }
  }

  lemma DbStep(policy: Outbox.Policy, timeoutMs: nat, s: State, step: Step)
    requires policy.Valid() && O.Inv(policy, s.db)
    ensures O.Inv(policy, Next(policy, timeoutMs, s, step).db)
  {
    if Enabled(policy, s, step) {
      if step.World? { OP.NextInv(policy, s.db, step.step); }
      if step.JobFetch? { OP.NextInv(policy, s.db, O.Fetch(step.ids)); }
    }
  }

  /** The outbox under this process keeps its own invariant, and with it every property proved of its runs. */
  lemma {:induction false} DbRun(policy: Outbox.Policy, timeoutMs: nat, s: State, steps: seq<Step>)
    requires policy.Valid() && O.Inv(policy, s.db)
    ensures O.Inv(policy, Run(policy, timeoutMs, s, steps).db)
    decreases |steps|
  {
    if steps != [] {
      DbStep(policy, timeoutMs, s, steps[0]);
      DbRun(policy, timeoutMs, Next(policy, timeoutMs, s, steps[0]), steps[1..]);
    }
  }

  lemma {:induction false} StoppedRun(policy: Outbox.Policy, timeoutMs: nat, s: State, steps: seq<Step>)
    requires JobsOk(s) && StoppedOk(s)
    requires NoStartAfterSignal(steps) && (s.runner.started ==> NoStart(steps))
    ensures StoppedOk(Run(policy, timeoutMs, s, steps))
    decreases |steps|
  {
    if steps != [] {
      JobsStep(policy, timeoutMs, s, steps[0]);
      StoppedStep(policy, timeoutMs, s, steps[0]);
      var rest := steps[1..];
      forall i | 0 <= i < |rest| ensures rest[i] == steps[i + 1] {}
      assert steps[0].Signal? ==> NoStart(rest);
      StoppedRun(policy, timeoutMs, Next(policy, timeoutMs, s, steps[0]), rest);
    }
  }

  ghost function Unsettled(): Job -> bool { (job: Job) => !job.settled }

  /** At most one tick of this process is in flight, ever. */
  lemma OneTickInFlight(policy: Outbox.Policy, timeoutMs: nat, steps: seq<Step>)
    ensures CountIf(Run(policy, timeoutMs, Empty, steps).jobs, Unsettled()) <= 1
  {
    JobsRun(policy, timeoutMs, Empty, steps);
    CountAtMostOne(Run(policy, timeoutMs, Empty, steps).jobs, Unsettled());
  }

  // ---------------------------------------------------------------- after stop()

  /** `app.close()` has been called after a drain that resolved. */
  ghost predicate CloseBegun(s: State) {
    s.runner.stage.Closing? || s.runner.stage in {Done(Clean), Done(CloseFailed)}
  }

  /**
   Once close has begun, and for as long as the run goes on, no interval is set and every tick this process ever
   began has settled, its transaction committed or rolled back and its callback ended.
   */
  lemma NoTickOnceCloseBegins(policy: Outbox.Policy, timeoutMs: nat, steps: seq<Step>)
    requires NoStartAfterSignal(steps) && CloseBegun(Run(policy, timeoutMs, Empty, steps))
    ensures var s := Run(policy, timeoutMs, Empty, steps);
      && !s.loop.timer
      && forall j :: 0 <= j < |s.jobs| ==>
           && s.jobs[j].settled
           && (s.jobs[j].tick.Some? ==>
                 var t := s.jobs[j].tick.value;
                 t < |s.db.ticks| && !s.db.ticks[t].status.Open? && !s.db.ticks[t].running)
  {
    JobsRun(policy, timeoutMs, Empty, steps);
    StoppedRun(policy, timeoutMs, Empty, steps);
  }

  lemma {:induction false} RunConcat(policy: Outbox.Policy, timeoutMs: nat, s: State, a: seq<Step>, b: seq<Step>)
    ensures Run(policy, timeoutMs, s, a + b) == Run(policy, timeoutMs, Run(policy, timeoutMs, s, a), b)
    decreases |a|
  {
    if a == [] {
      assert a + b == b;
    } else {
      assert (a + b)[1..] == a[1..] + b;
      RunConcat(policy, timeoutMs, Next(policy, timeoutMs, s, a[0]), a[1..], b);
    }
  }

  /** Whenever the loop is stopped and idle, no tick begins until a `Start`. */
  lemma {:induction false} NoTickUntilStart(policy: Outbox.Policy, timeoutMs: nat, s: State, steps: seq<Step>)
    requires !s.loop.timer && s.loop.inFlight.None? && NoStart(steps)
    ensures Run(policy, timeoutMs, s, steps).jobs == s.jobs
    decreases |steps|
  {
    if steps != [] {
      assert !steps[0].Start?;
      assert forall i :: 0 <= i < |steps[1..]| ==> steps[1..][i] == steps[i + 1];
      NoTickUntilStart(policy, timeoutMs, Next(policy, timeoutMs, s, steps[0]), steps[1..]);
    }
  }

  /**
   What waiting for the tick is for: when close begins, every row that a tick of this process emitted with an
   acknowledgement is PUBLISHED, except by a tick that rolled back.
   */
  lemma NoUnmarkedEmissionAtClose(policy: Outbox.Policy, timeoutMs: nat, steps: seq<Step>, j: nat, i: nat)
    requires policy.Valid() && NoStartAfterSignal(steps) && CloseBegun(Run(policy, timeoutMs, Empty, steps))
    requires var s := Run(policy, timeoutMs, Empty, steps);
      j < |s.jobs| && s.jobs[j].tick.Some? && s.jobs[j].tick.value < |s.db.ticks|
      && i in s.db.ticks[s.jobs[j].tick.value].acked && i < |s.db.table|
    ensures var s := Run(policy, timeoutMs, Empty, steps);
      s.db.table[i].status.Published? || s.db.ticks[s.jobs[j].tick.value].status.RolledBack?
  {
    OP.InitInv(policy);
    DbRun(policy, timeoutMs, Empty, steps);
    NoTickOnceCloseBegins(policy, timeoutMs, steps);
    var s := Run(policy, timeoutMs, Empty, steps);
    if s.db.ticks[s.jobs[j].tick.value].status.Committed? {
      CountPositive(s.db.ticks, O.CommittedAck(i), s.jobs[j].tick.value);
    }
  }

  // ---------------------------------------------------------------- exactly when close is safe

  /** No continuation without a `Start` has a tick in flight once close has begun. */
  ghost predicate ClosesQuietly(policy: Outbox.Policy, timeoutMs: nat, s: State) {
    forall steps: seq<Step> :: NoStart(steps) && CloseBegun(Run(policy, timeoutMs, s, steps)) ==>
      Run(policy, timeoutMs, s, steps).loop.inFlight.None?
  }

  ghost predicate IndicesOk(s: State) {
    && (s.runner.stage.Draining? && s.runner.stage.awaited.Some? ==> s.runner.stage.awaited.value < |s.jobs|)
    && (forall j :: 0 <= j < |s.jobs| && s.jobs[j].tick.Some? ==> s.jobs[j].tick.value < |s.db.ticks|)
  }

  lemma TicksGrow(policy: Outbox.Policy, db: O.State, step: O.Step)
    ensures |db.ticks| <= |O.Next(policy, db, step).ticks|
  {
  }

  lemma IndicesStep(policy: Outbox.Policy, timeoutMs: nat, s: State, step: Step)
    requires JobsOk(s) && IndicesOk(s)
    ensures IndicesOk(Next(policy, timeoutMs, s, step))
  {
    if step.World? { TicksGrow(policy, s.db, step.step); }
  }

  lemma {:induction false} IndicesRun(policy: Outbox.Policy, timeoutMs: nat, s: State, steps: seq<Step>)
    requires JobsOk(s) && IndicesOk(s)
    ensures IndicesOk(Run(policy, timeoutMs, s, steps))
    decreases |steps|
  {
    if steps != [] {
      JobsStep(policy, timeoutMs, s, steps[0]);
      IndicesStep(policy, timeoutMs, s, steps[0]);
      IndicesRun(policy, timeoutMs, Next(policy, timeoutMs, s, steps[0]), steps[1..]);
    }
  }

  lemma RunOne(policy: Outbox.Policy, timeoutMs: nat, s: State, step: Step)
    ensures Run(policy, timeoutMs, s, [step]) == Next(policy, timeoutMs, s, step)
  {
    assert [step][1..] == [];
    assert Run(policy, timeoutMs, s, [step]) == Run(policy, timeoutMs, Next(policy, timeoutMs, s, step), []);
  }

  lemma RunTwo(policy: Outbox.Policy, timeoutMs: nat, s: State, a: Step, b: Step)
    ensures Run(policy, timeoutMs, s, [a, b]) == Next(policy, timeoutMs, Next(policy, timeoutMs, s, a), b)
  {
    assert [a, b][1..] == [b];
    RunOne(policy, timeoutMs, Next(policy, timeoutMs, s, a), b);
  }

  lemma TransactionCanEnd(policy: Outbox.Policy, db: O.State, t: nat)
    requires t < |db.ticks| && (db.ticks[t].status.Open? || db.ticks[t].status.RolledBack?) && db.ticks[t].running
    ensures db.ticks[t].status.Open? ==> Over(O.Next(policy, O.Next(policy, db, O.Rollback(t)), O.Settle(t)), t)
    ensures db.ticks[t].status.RolledBack? ==> Over(O.Next(policy, db, O.Settle(t)), t)
  {
  }

  /** The tick in flight can always come to its end: its transaction rolls back and its callback stops. */
  lemma TickCanEnd(policy: Outbox.Policy, timeoutMs: nat, s: State) returns (steps: seq<Step>)
    requires policy.Valid() && O.Inv(policy, s.db) && JobsOk(s) && IndicesOk(s) && s.loop.inFlight.Some?
    ensures NoStart(steps)
    ensures var s' := Run(policy, timeoutMs, s, steps);
      s'.loop == s.loop && s'.runner == s.runner && s'.jobs == s.jobs && CanSettle(s', s.loop.inFlight.value)
  {
    steps := [];
    var tick := s.jobs[s.loop.inFlight.value].tick;
    if tick.Some? && !Over(s.db, tick.value) {
      var t := tick.value;
      assert O.TickOk(policy, s.db.table, s.db.now, s.db.ticks[t]);
      TransactionCanEnd(policy, s.db, t);
      if s.db.ticks[t].status.Open? {
        steps := [World(O.Rollback(t)), World(O.Settle(t))];
        RunTwo(policy, timeoutMs, s, World(O.Rollback(t)), World(O.Settle(t)));
      } else {
        steps := [World(O.Settle(t))];
        RunOne(policy, timeoutMs, s, World(O.Settle(t)));
      }
    }
  }

  /** With the interval set and no tick in flight, a new tick can begin just before close does. */
  lemma TickCanBegin(policy: Outbox.Policy, timeoutMs: nat, s: State)
    requires JobsOk(s) && IndicesOk(s) && s.runner.stage.Draining? && s.loop.timer && s.loop.inFlight.None?
    ensures var s' := Run(policy, timeoutMs, s, [Interval, DrainResolves]);
      CloseBegun(s') && s'.loop.inFlight.Some?
  {
    RunTwo(policy, timeoutMs, s, Interval, DrainResolves);
  }

  lemma UnsafeClose(policy: Outbox.Policy, timeoutMs: nat, s: State) returns (steps: seq<Step>)
    requires policy.Valid() && O.Inv(policy, s.db) && JobsOk(s) && IndicesOk(s) && s.runner.stage.Draining?
    requires s.loop.timer || (s.loop.inFlight.Some? && s.loop.inFlight != s.runner.stage.awaited)
    ensures NoStart(steps)
    ensures CloseBegun(Run(policy, timeoutMs, s, steps)) && Run(policy, timeoutMs, s, steps).loop.inFlight.Some?
  {
    if s.loop.inFlight.Some? && s.loop.inFlight != s.runner.stage.awaited {
      steps := [DrainResolves];
      RunOne(policy, timeoutMs, s, DrainResolves);
    } else if s.loop.inFlight.None? {
      steps := [Interval, DrainResolves];
      TickCanBegin(policy, timeoutMs, s);
    } else {
      var ending := TickCanEnd(policy, timeoutMs, s);
      var s1 := Run(policy, timeoutMs, s, ending);
      JobsRun(policy, timeoutMs, s, ending);
      IndicesRun(policy, timeoutMs, s, ending);
      var s2 := Next(policy, timeoutMs, s1, JobSettles);
      JobsStep(policy, timeoutMs, s1, JobSettles);
      IndicesStep(policy, timeoutMs, s1, JobSettles);
      TickCanBegin(policy, timeoutMs, s2);
      RunOne(policy, timeoutMs, s1, JobSettles);
      RunConcat(policy, timeoutMs, s1, [JobSettles], [Interval, DrainResolves]);
      RunConcat(policy, timeoutMs, s, ending, [JobSettles] + [Interval, DrainResolves]);
      steps := ending + ([JobSettles] + [Interval, DrainResolves]);
    }
  }

  /**
   Exactly when waiting for the tick works: from a reachable state that drains, no continuation without a `Start` has a
   tick in flight once close begins, if and only if the interval is cleared and the loop holds at most the awaited tick.
   */
  lemma ClosesQuietlyIff(policy: Outbox.Policy, timeoutMs: nat, past: seq<Step>)
    requires policy.Valid() && Run(policy, timeoutMs, Empty, past).runner.stage.Draining?
    ensures var s := Run(policy, timeoutMs, Empty, past);
      ClosesQuietly(policy, timeoutMs, s) <==>
        !s.loop.timer && (s.loop.inFlight.None? || s.loop.inFlight == s.runner.stage.awaited)
  {
    var s := Run(policy, timeoutMs, Empty, past);
    ExitsRun(policy, timeoutMs, Empty, past);
    JobsRun(policy, timeoutMs, Empty, past);
    IndicesRun(policy, timeoutMs, Empty, past);
    OP.InitInv(policy);
    DbRun(policy, timeoutMs, Empty, past);
    if !s.loop.timer && (s.loop.inFlight.None? || s.loop.inFlight == s.runner.stage.awaited) {
      forall steps: seq<Step> | NoStart(steps) && CloseBegun(Run(policy, timeoutMs, s, steps))
        ensures Run(policy, timeoutMs, s, steps).loop.inFlight.None?
      {
        StoppedRun(policy, timeoutMs, s, steps);
      }
    } else {
      var steps := UnsafeClose(policy, timeoutMs, s);
    }
  }

  // ---------------------------------------------------------------- the process's own view

  function LocalOf(s: State): Local { Local(s.loop, s.runner, |s.jobs|) }

  predicate HasEvent(step: Step) { !step.World? && !step.Start? && !step.JobFetch? }

  function EventOf(step: Step): Event
    requires HasEvent(step)
  {
    match step
    case Interval => IntervalFired
    case JobSettles => TickSettled
    case Signal => SignalReceived
    case DrainResolves => DrainResolved
    case DrainThrows => DrainThrew
    case CloseResolves => CloseResolved
    case CloseThrows => CloseThrew
    case Watchdog => WatchdogDue
    case FlushSettles => FlushSettled
  }

  /**
   Every step that calls the process does to its loop and runner what `RelayMain.Handle` does; the steps that do not,
   database steps among them, leave both alone.
   */
  lemma ProcessIsRelayMain(policy: Outbox.Policy, timeoutMs: nat, s: State, step: Step)
    requires JobsOk(s) && IndicesOk(s) && !step.Start?
    ensures var s' := Next(policy, timeoutMs, s, step);
      LocalOf(s') == if HasEvent(step) && Enabled(policy, s, step)
                     then Happens(LocalOf(s), s.db.now, timeoutMs, EventOf(step)) else LocalOf(s)
    ensures HasEvent(step) && !step.JobSettles? ==>
      (Enabled(policy, s, step) <==> Possible(LocalOf(s), s.db.now, EventOf(step)))
  {
  }
}
