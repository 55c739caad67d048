/**
 The relay process: its polling loop and its shutdown runner. Each class method is the code between two awaits or one
 timer callback, and requires what must have happened for it to be called. The functions beside the classes are the same
 transitions on values; `RelayProcess` interleaves them with each other and with the outbox.
 */
module Shutdown {
  import opened Prelude

  // ---------------------------------------------------------------- the polling loop

  /** Is the interval set, and which tick's promise is held, if any. */
  datatype Loop = Loop(timer: bool, inFlight: Option<nat>)

  function LoopStart(l: Loop): Loop { l.(timer := true) }

  function LoopInterval(l: Loop, tick: nat): Loop {
    if l.inFlight.Some? then l else l.(inFlight := Some(tick))
  }

  function LoopStop(l: Loop): Loop { l.(timer := false) }

  function LoopSettled(l: Loop): Loop { l.(inFlight := None) }

  class RelayLoop {
    var timer: bool
    var inFlight: Option<nat>

    ghost function View(): Loop
      reads this
    {
      Loop(timer, inFlight)
    }

    constructor ()
      ensures View() == Loop(false, None)
    {
      timer, inFlight := false, None;
    }

    method Start()
      modifies this
      ensures View() == LoopStart(old(View()))
    {
      if timer { return; }
      timer := true;
    }

    /** The interval's callback: `tick` begins unless the one before it has not settled. */
    method OnInterval(tick: nat) returns (began: bool)
      modifies this
      ensures View() == LoopInterval(old(View()), tick)
      ensures began <==> old(inFlight).None?
    {
      if inFlight.Some? { return false; }
      inFlight := Some(tick);
      return true;
    }

    /** `finally` of the tick's promise, whether it resolved or its rejection was logged: the next interval may begin one. */
    method OnSettled()
      requires inFlight.Some?
      modifies this
      ensures View() == LoopSettled(old(View()))
      ensures timer == old(timer) && forall next: nat :: LoopInterval(View(), next).inFlight == Some(next)
    {
      inFlight := None;
    }

    /** Clears the interval; the promise it then awaits, if any. */
    method Stop() returns (awaited: Option<nat>)
      modifies this
      ensures View() == LoopStop(old(View()))
      ensures awaited == old(inFlight)
    {
      if timer {
        timer := false;
      }
      awaited := inFlight;
    }
  }

  // ---------------------------------------------------------------- the shutdown runner

  datatype Outcome = Clean | DrainFailed | CloseFailed

  datatype Stage = Idle | Draining(awaited: Option<nat>) | Closing | Done(outcome: Outcome)

  /** `flushes` counts the exits with code 1 that wait for Sentry; `exits` are the codes passed to `exit` so far. */
  datatype Runner = Runner(started: bool, timedOut: bool, armed: bool, deadline: nat, stage: Stage,
                           flushes: nat, exits: seq<int>)

  const FreshRunner := Runner(false, false, false, 0, Idle, 0, [])

  function Invoke(r: Runner, deadline: nat, awaited: Option<nat>): Runner {
    if r.started then r else r.(started := true, armed := true, deadline := deadline, stage := Draining(awaited))
  }

  function Drained(r: Runner): Runner { r.(stage := Closing) }

  function Closed(r: Runner): Runner {
    r.(armed := false, stage := Done(Clean), exits := if r.timedOut then r.exits else r.exits + [0])
  }

  function Thrown(r: Runner, outcome: Outcome): Runner {
    r.(armed := false, stage := Done(outcome), flushes := if r.timedOut then r.flushes else r.flushes + 1)
  }

  function WatchdogFired(r: Runner): Runner {
    r.(timedOut := true, armed := false, flushes := r.flushes + 1)
  }

  function Flushed(r: Runner): Runner
    requires r.flushes > 0
  {
    r.(flushes := r.flushes - 1, exits := r.exits + [1])
  }

  /**
   Exactly which exits have happened: none while the runner works or a flush is awaited; else one, with 0 if close
   finished before the watchdog fired and with 1 if not.
   */
  ghost predicate ExitsOk(r: Runner) {
    && r.flushes <= 1
    && (r.started <==> !r.stage.Idle?)
    && (r.armed <==> (r.started && !r.timedOut && !r.stage.Done?))
    && (r.timedOut ==> r.started)
    && r.exits == (if r.flushes == 1 || !(r.timedOut || r.stage.Done?) then []
                   else if r.timedOut || !r.stage.outcome.Clean? then [1] else [0])
    && (r.flushes == 1 ==> r.timedOut || (r.stage.Done? && !r.stage.outcome.Clean?))
  }

  class ShutdownRunner {
    const loop: RelayLoop
    const timeoutMs: nat
    var started: bool
    var timedOut: bool
    var armed: bool
    var deadline: nat
    var stage: Stage
    var flushes: nat
    var exits: seq<int>

    ghost function View(): Runner
      reads this
    {
      Runner(started, timedOut, armed, deadline, stage, flushes, exits)
    }

    ghost predicate Valid()
      reads this
    {
      ExitsOk(View())
    }

    constructor (loop: RelayLoop, timeoutMs: nat)
      ensures Valid() && View() == FreshRunner && this.loop == loop && this.timeoutMs == timeoutMs
    {
      this.loop, this.timeoutMs := loop, timeoutMs;
      started, timedOut, armed, deadline := false, false, false, 0;
      stage, flushes, exits := Idle, 0, [];
    }

    /** A signal: the first arms the watchdog and stops the loop, later ones do nothing. */
    method OnSignal(now: nat)
      requires Valid()
      modifies this, loop
      ensures Valid() && started && (old(started) ==> View() == old(View()) && loop.View() == old(loop.View()))
      ensures !old(started) ==>
        && armed && deadline == now + timeoutMs && stage == Draining(old(loop.inFlight)) && exits == []
        && !loop.timer && loop.inFlight == old(loop.inFlight)
      ensures View() == Invoke(old(View()), now + timeoutMs, old(loop.inFlight))
      ensures loop.View() == if old(started) then old(loop.View()) else LoopStop(old(loop.View()))
    {
      if started { return; }
      started := true;
      armed, deadline := true, now + timeoutMs;
      var awaited := loop.Stop();
      stage := Draining(awaited);
    }

    /** The watchdog: no exit has happened yet, and the one that will is with 1. */
    method OnWatchdog()
      requires Valid() && armed
      modifies this
      ensures Valid() && View() == WatchdogFired(old(View()))
      ensures timedOut && exits == [] && flushes == 1
    {
      armed := false;
      timedOut := true;
      FlushThenExit();
    }

    /** `drain` resolved, which it does once the awaited tick is no longer in flight: `app.close()` is called. */
    method OnDrained()
      requires Valid() && stage.Draining? && (stage.awaited.Some? ==> loop.inFlight != stage.awaited)
      modifies this
      ensures Valid() && View() == Drained(old(View())) && exits == old(exits)
      ensures loop.inFlight.None? || loop.inFlight != old(stage).awaited
    {
      stage := Closing;
    }

    /** `close` resolved: one exit, with 0, unless the watchdog fired first, whose exit stands. */
    method OnClosed()
      requires Valid() && stage.Closing?
      modifies this
      ensures Valid() && View() == Closed(old(View()))
      ensures exits == if timedOut then old(exits) else [0]
      ensures 0 in exits <==> !timedOut
    {
      armed := false;
      stage := Done(Clean);
      if timedOut { return; }
      exits := exits + [0];
    }

    /** `drain` or `close` threw: the one exit is with 1, made by the watchdog or still to be made. */
    method OnThrown(outcome: Outcome)
      requires Valid()
      requires (outcome.DrainFailed? && stage.Draining?) || (outcome.CloseFailed? && stage.Closing?)
      modifies this
      ensures Valid() && View() == Thrown(old(View()), outcome)
      ensures |exits| + flushes == 1 && 0 !in exits
    {
      armed := false;
      stage := Done(outcome);
      if timedOut { return; }
      FlushThenExit();
    }

    method FlushThenExit()
      modifies this`flushes
      ensures flushes == old(flushes) + 1
    {
      flushes := flushes + 1;
    }

    /** Sentry's flush settled, either way: this is the only exit, and no other is to come. */
    method OnFlushed()
      requires Valid() && flushes > 0
      modifies this
      ensures Valid() && View() == Flushed(old(View()))
      ensures exits == [1] && flushes == 0
    {
      flushes := flushes - 1;
      exits := exits + [1];
    }
  }

  // ---------------------------------------------------------------- the process

  datatype Event =
    | IntervalFired
    | TickSettled
    | SignalReceived
    | DrainResolved
    | DrainThrew
    | CloseResolved
    | CloseThrew
    | WatchdogDue
    | FlushSettled

  /** Loop, runner, and how many ticks have begun: all that the process's callbacks read and write. */
  datatype Local = Local(loop: Loop, runner: Runner, ticks: nat)

  /** Can this callback be called now, as far as the process itself can tell? */
  predicate Possible(l: Local, now: nat, event: Event) {
    match event
    case IntervalFired => l.loop.timer
    case TickSettled => l.loop.inFlight.Some?
    case SignalReceived => true
    case DrainResolved =>
      l.runner.stage.Draining? && (l.runner.stage.awaited.Some? ==> l.loop.inFlight != l.runner.stage.awaited)
    case DrainThrew => l.runner.stage.Draining?
    case CloseResolved => l.runner.stage.Closing?
    case CloseThrew => l.runner.stage.Closing?
    case WatchdogDue => l.runner.armed && now >= l.runner.deadline
    case FlushSettled => l.runner.flushes > 0
  }

  function Happens(l: Local, now: nat, timeoutMs: nat, event: Event): Local {
    if !Possible(l, now, event) then l
    else
      match event
      case IntervalFired =>
        l.(loop := LoopInterval(l.loop, l.ticks), ticks := if l.loop.inFlight.Some? then l.ticks else l.ticks + 1)
      case TickSettled => l.(loop := LoopSettled(l.loop))
      case SignalReceived =>
        l.(runner := Invoke(l.runner, now + timeoutMs, l.loop.inFlight),
           loop := if l.runner.started then l.loop else LoopStop(l.loop))
      case DrainResolved => l.(runner := Drained(l.runner))
      case DrainThrew => l.(runner := Thrown(l.runner, DrainFailed))
      case CloseResolved => l.(runner := Closed(l.runner))
      case CloseThrew => l.(runner := Thrown(l.runner, CloseFailed))
      case WatchdogDue => l.(runner := WatchdogFired(l.runner))
      case FlushSettled => l.(runner := Flushed(l.runner))
  }

  /** Events in turn, each with the time at which it happens. */
  function HappensAll(l: Local, timeoutMs: nat, events: seq<(Event, nat)>): Local
    decreases |events|
  {
    if events == [] then l
    else
      var n := |events| - 1;
      Happens(HappensAll(l, timeoutMs, events[..n]), events[n].1, timeoutMs, events[n].0)
  }

  /** `bootstrap` of the relay worker, and the event loop that calls what it registered. */
  class RelayMain {
    const loop: RelayLoop
    const runner: ShutdownRunner
    var ticks: nat

    ghost function View(): Local
      reads this, loop, runner
    {
      Local(loop.View(), runner.View(), ticks)
    }

    ghost predicate Valid()
      reads this, loop, runner
    {
      runner.Valid() && runner.loop == loop
    }

    constructor (timeoutMs: nat)
      ensures Valid() && fresh(loop) && fresh(runner) && runner.timeoutMs == timeoutMs
      ensures View() == Local(Loop(true, None), FreshRunner, 0)
    {
      var relay := new RelayLoop();
      relay.Start();
      loop := relay;
      runner := new ShutdownRunner(relay, timeoutMs);
      ticks := 0;
    }

    /** One event: its callback, if it can be called at all. */
    method Handle(event: Event, now: nat)
      requires Valid()
      modifies this, loop, runner
      ensures Valid() && View() == Happens(old(View()), now, runner.timeoutMs, event)
    {
      match event
      case IntervalFired =>
        if loop.timer {
          var began := loop.OnInterval(ticks);
          if began { ticks := ticks + 1; }
        }
      case TickSettled => if loop.inFlight.Some? { loop.OnSettled(); }
      case SignalReceived => runner.OnSignal(now);
      case DrainResolved =>
        if runner.stage.Draining? && (runner.stage.awaited.None? || loop.inFlight != runner.stage.awaited) {
          runner.OnDrained();
        }
      case DrainThrew => if runner.stage.Draining? { runner.OnThrown(DrainFailed); }
      case CloseResolved => if runner.stage.Closing? { runner.OnClosed(); }
      case CloseThrew => if runner.stage.Closing? { runner.OnThrown(CloseFailed); }
      case WatchdogDue => if runner.armed && now >= runner.deadline { runner.OnWatchdog(); }
      case FlushSettled => if runner.flushes > 0 { runner.OnFlushed(); }
    }

    /** Any events at any times: one exit at most, with 0 exactly for a close that finished before the watchdog. */
    method HandleAll(events: seq<(Event, nat)>)
      requires Valid()
      modifies this, loop, runner
      ensures View() == HappensAll(old(View()), runner.timeoutMs, events)
      ensures Valid() && |runner.exits| <= 1
      ensures runner.exits == [0] <==> runner.stage == Done(Clean) && !runner.timedOut
      ensures 1 in runner.exits ==> runner.timedOut || runner.stage in {Done(DrainFailed), Done(CloseFailed)}
    {
      for i := 0 to |events|
        invariant Valid() && View() == HappensAll(old(View()), runner.timeoutMs, events[..i])
      {
        assert events[..i + 1][..i] == events[..i];
        Handle(events[i].0, events[i].1);
      }
      assert events[..|events|] == events;
    }
  }
}
