/** The shutdown budget: when the watchdog fires, and which exits that leaves, for the process alone and among others. */
module ShutdownTiming {
  import opened Prelude
  import opened Shutdown
  import P = RelayProcess
  import Outbox

  /** The relay worker once it polls. */
  const Started := Local(Loop(true, None), FreshRunner, 0)

  ghost function After(timeoutMs: nat, events: seq<(Event, nat)>): Runner {
    HappensAll(Started, timeoutMs, events).runner
  }

  /** The first signal is event number `k`. */
  ghost predicate FirstSignal(events: seq<(Event, nat)>, k: nat) {
    && k < |events| && events[k].0.SignalReceived?
    && forall j :: 0 <= j < k ==> !events[j].0.SignalReceived?
  }

  /** Event number `j` is the watchdog's timer, at least `timeoutMs` after the first signal. */
  ghost predicate Overdue(events: seq<(Event, nat)>, k: nat, timeoutMs: nat, j: nat) {
    k < j < |events| && events[j].0.WatchdogDue? && events[j].1 >= events[k].1 + timeoutMs
  }

  lemma {:induction false} NoSignalNoShutdown(timeoutMs: nat, events: seq<(Event, nat)>)
    requires forall j :: 0 <= j < |events| ==> !events[j].0.SignalReceived?
    ensures After(timeoutMs, events) == FreshRunner
    decreases |events|
  {
    if events != [] {
      NoSignalNoShutdown(timeoutMs, events[..|events| - 1]);
    }
  }

  /** From the first signal on, the budget ends `timeoutMs` after it, whatever else happens. */
  lemma {:induction false} BudgetSince(timeoutMs: nat, events: seq<(Event, nat)>, k: nat)
    requires FirstSignal(events, k)
    ensures var r := After(timeoutMs, events);
      ExitsOk(r) && r.started && r.deadline == events[k].1 + timeoutMs
    decreases |events|
  {
    var n := |events| - 1;
    if k == n {
      NoSignalNoShutdown(timeoutMs, events[..n]);
    } else {
      assert FirstSignal(events[..n], k);
      BudgetSince(timeoutMs, events[..n], k);
    }
  }

  /** The watchdog times the shutdown out if and only if its timer is due, by the clock, before the runner is done. */
  lemma {:induction false} TimesOutIff(timeoutMs: nat, events: seq<(Event, nat)>, k: nat)
    requires FirstSignal(events, k)
    ensures After(timeoutMs, events).timedOut <==>
      exists j: nat :: Overdue(events, k, timeoutMs, j) && !After(timeoutMs, events[..j]).stage.Done?
    decreases |events|
  {
    var n := |events| - 1;
    if k == n {
      NoSignalNoShutdown(timeoutMs, events[..n]);
    } else {
      var before := events[..n];
      assert FirstSignal(before, k);
      TimesOutIff(timeoutMs, before, k);
      BudgetSince(timeoutMs, before, k);
      if After(timeoutMs, before).timedOut {
        var j: nat :| Overdue(before, k, timeoutMs, j) && !After(timeoutMs, before[..j]).stage.Done?;
        assert before[..j] == events[..j];
        assert Overdue(events, k, timeoutMs, j);
      } else {
        forall j: nat | Overdue(events, k, timeoutMs, j) && j < n ensures After(timeoutMs, events[..j]).stage.Done? {
          assert before[..j] == events[..j];
          assert Overdue(before, k, timeoutMs, j);
        }
        assert After(timeoutMs, events).timedOut ==> Overdue(events, k, timeoutMs, n);
      }
    }
  }

  /**
   The exit code, by the clock: with 0 exactly when drain and close finish and the watchdog's timer was not due before
   that, `timeoutMs` after the first signal; before any signal there is no exit at all.
   */
  lemma ExitsWithZeroIffInTime(timeoutMs: nat, events: seq<(Event, nat)>, k: nat)
    requires FirstSignal(events, k)
    ensures After(timeoutMs, events).exits == [0] <==>
      && After(timeoutMs, events).stage == Done(Clean)
      && forall j: nat :: Overdue(events, k, timeoutMs, j) ==> After(timeoutMs, events[..j]).stage.Done?
    ensures After(timeoutMs, events[..k]).exits == []
  {
    TimesOutIff(timeoutMs, events, k);
    BudgetSince(timeoutMs, events, k);
    NoSignalNoShutdown(timeoutMs, events[..k]);
  }

  lemma OneMoreEvent(l: Local, timeoutMs: nat, events: seq<(Event, nat)>, e: (Event, nat))
    ensures HappensAll(l, timeoutMs, events + [e]) == Happens(HappensAll(l, timeoutMs, events), e.1, timeoutMs, e.0)
  {
    assert (events + [e])[..|events|] == events;
  }

  /** Once the runner is done in time, its exit stands. */
  lemma {:induction false} ExitStands(timeoutMs: nat, events: seq<(Event, nat)>, more: seq<(Event, nat)>)
    requires ExitsOk(After(timeoutMs, events)) && After(timeoutMs, events).exits == [0]
    ensures ExitsOk(After(timeoutMs, events + more)) && After(timeoutMs, events + more).exits == [0]
    decreases |more|
  {
    if more == [] {
      assert events + more == events;
    } else {
      var n := |more| - 1;
      ExitStands(timeoutMs, events, more[..n]);
      assert events + more == (events + more[..n]) + [more[n]];
      OneMoreEvent(Started, timeoutMs, events + more[..n], more[n]);
    }
  }

  /**
   A shutdown that works: after the first signal the tick in flight settles, drain resolves and close resolves, the timer
   firing early any time between; then, whatever comes later, the one exit is with 0.
   */
  lemma DrainAndCloseInTime(timeoutMs: nat, events: seq<(Event, nat)>, k: nat, times: (nat, nat, nat), early: nat,
                            more: seq<(Event, nat)>)
    requires FirstSignal(events, k) && k == |events| - 1 && early < events[k].1 + timeoutMs
    ensures var rest := [(TickSettled, times.0), (DrainResolved, times.1), (WatchdogDue, early), (CloseResolved, times.2)];
      After(timeoutMs, events + rest + more).exits == [0]
  {
    var l := HappensAll(Started, timeoutMs, events);
    var e1, e2, e3 := events + [(TickSettled, times.0)],
      events + [(TickSettled, times.0)] + [(DrainResolved, times.1)],
      events + [(TickSettled, times.0)] + [(DrainResolved, times.1)] + [(WatchdogDue, early)];
    NoSignalNoShutdown(timeoutMs, events[..k]);
    BudgetSince(timeoutMs, events, k);
    OneMoreEvent(Started, timeoutMs, events, (TickSettled, times.0));
    OneMoreEvent(Started, timeoutMs, e1, (DrainResolved, times.1));
    OneMoreEvent(Started, timeoutMs, e2, (WatchdogDue, early));
    OneMoreEvent(Started, timeoutMs, e3, (CloseResolved, times.2));
    var rest := [(TickSettled, times.0), (DrainResolved, times.1), (WatchdogDue, early), (CloseResolved, times.2)];
    assert events + rest == e3 + [(CloseResolved, times.2)];
    ExitStands(timeoutMs, events + rest, more);
  }

  // ---------------------------------------------------------------- among everything else

  ghost predicate FirstSignalStep(steps: seq<P.Step>, k: nat) {
    k < |steps| && steps[k].Signal? && forall j :: 0 <= j < k ==> !steps[j].Signal?
  }

  lemma {:induction false} NotStartedYet(policy: Outbox.Policy, timeoutMs: nat, s: P.State, steps: seq<P.Step>)
    requires s.runner == FreshRunner && forall j :: 0 <= j < |steps| ==> !steps[j].Signal?
    ensures P.Run(policy, timeoutMs, s, steps).runner == FreshRunner
    decreases |steps|
  {
    if steps != [] {
      assert !steps[0].Signal? && forall j :: 0 <= j < |steps[1..]| ==> steps[1..][j] == steps[j + 1];
      NotStartedYet(policy, timeoutMs, P.Next(policy, timeoutMs, s, steps[0]), steps[1..]);
    }
  }

  lemma {:induction false} DeadlineStays(policy: Outbox.Policy, timeoutMs: nat, s: P.State, steps: seq<P.Step>)
    requires s.runner.started
    ensures P.Run(policy, timeoutMs, s, steps).runner.started
    ensures P.Run(policy, timeoutMs, s, steps).runner.deadline == s.runner.deadline
    decreases |steps|
  {
    if steps != [] {
      DeadlineStays(policy, timeoutMs, P.Next(policy, timeoutMs, s, steps[0]), steps[1..]);
    }
  }

  lemma {:induction false} DoneStays(policy: Outbox.Policy, timeoutMs: nat, s: P.State, steps: seq<P.Step>)
    requires P.ExitsAndTimeOk(s.db.now, s.runner) && s.runner.exits == [0]
    ensures P.Run(policy, timeoutMs, s, steps).runner.exits == [0]
    decreases |steps|
  {
    if steps != [] {
      P.ExitsStep(policy, timeoutMs, s, steps[0]);
      DoneStays(policy, timeoutMs, P.Next(policy, timeoutMs, s, steps[0]), steps[1..]);
    }
  }

  /**
   In every run of the process among everything else, with the first signal at step `k`: the watchdog has fired only if
   `timeoutMs` have passed since; from that instant on it can fire until the runner is done, and not before; and a drain
   and close that finish sooner make the one exit 0, for good.
   */
  lemma WatchdogKeepsTheBudget(policy: Outbox.Policy, timeoutMs: nat, steps: seq<P.Step>, k: nat, more: seq<P.Step>)
    requires FirstSignalStep(steps, k)
    ensures var s := P.Run(policy, timeoutMs, P.Empty, steps);
      var signalled := P.Run(policy, timeoutMs, P.Empty, steps[..k]).db.now;
      && (s.runner.timedOut ==> s.db.now >= signalled + timeoutMs)
      && (!s.runner.timedOut && !s.runner.stage.Done? ==>
            (P.Enabled(policy, s, P.Watchdog) <==> s.db.now >= signalled + timeoutMs))
      && (s.runner.stage == Done(Clean) && s.db.now < signalled + timeoutMs ==>
            s.runner.exits == [0] && P.Run(policy, timeoutMs, s, more).runner.exits == [0])
  {
    var s0 := P.Run(policy, timeoutMs, P.Empty, steps[..k]);
    NotStartedYet(policy, timeoutMs, P.Empty, steps[..k]);
    var s1 := P.Next(policy, timeoutMs, s0, steps[k]);
    assert steps == steps[..k] + steps[k..] && steps[k..][1..] == steps[k + 1..] && steps[k..][0] == steps[k];
    P.RunConcat(policy, timeoutMs, P.Empty, steps[..k], steps[k..]);
    assert P.Run(policy, timeoutMs, s0, steps[k..]) == P.Run(policy, timeoutMs, s1, steps[k + 1..]);
    DeadlineStays(policy, timeoutMs, s1, steps[k + 1..]);
    P.ExitsRun(policy, timeoutMs, P.Empty, steps);
    var s := P.Run(policy, timeoutMs, P.Empty, steps);
    if s.runner.exits == [0] {
      DoneStays(policy, timeoutMs, s, more);
    }
  }
}
