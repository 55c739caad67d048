/**
 Deliveries of domain events to the notification worker, interleaved one awaited call at a time.
 An event may be delivered any number of times, to consumers that run side by side and crash anywhere.
 The recipients of an event are a given function of it.
 */
module FanOut {
  import opened Prelude

  type Recipients = nat -> seq<nat>

  /** A notification's unique key. */
  datatype Pair = Pair(event: nat, recipient: nat)

  datatype Phase = Saving | Stepping | Pushing

  datatype Delivery = Delivery(event: nat, index: nat, phase: Phase, alive: bool)

  /** `stepped` and `pushed` record every counter step and every push that was made, `lost` the pushes that failed. */
  datatype State = State(rows: seq<Pair>, stepped: seq<Pair>, pushed: seq<Pair>, lost: seq<Pair>, deliveries: seq<Delivery>)

  datatype Step =
    | Receive(event: nat)
    | Save(d: nat)
    | StepCounter(d: nat)
    | Push(d: nat, sent: bool)
    | Crash(d: nat)

  const Empty := State([], [], [], [], [])

  ghost predicate AtRecipient(to: Recipients, s: State, d: nat, phase: Phase) {
    && d < |s.deliveries| && s.deliveries[d].alive && s.deliveries[d].phase == phase
    && s.deliveries[d].index < |to(s.deliveries[d].event)|
  }

  ghost predicate Enabled(to: Recipients, s: State, step: Step) {
    match step
    case Receive(_) => true
    case Save(d) => AtRecipient(to, s, d, Saving)
    case StepCounter(d) => AtRecipient(to, s, d, Stepping)
    case Push(d, _) => AtRecipient(to, s, d, Pushing)
    case Crash(d) => d < |s.deliveries| && s.deliveries[d].alive
  }

  ghost function Current(to: Recipients, dl: Delivery): Pair
    requires dl.index < |to(dl.event)|
  {
    Pair(dl.event, to(dl.event)[dl.index])
  }

  ghost function Apply(to: Recipients, s: State, step: Step): State
    requires Enabled(to, s, step)
  {
    match step
    case Receive(event) => s.(deliveries := s.deliveries + [Delivery(event, 0, Saving, true)])
    case Save(d) =>
      var dl := s.deliveries[d];
      if Current(to, dl) in s.rows then s.(deliveries := s.deliveries[d := dl.(index := dl.index + 1)])
      else s.(rows := s.rows + [Current(to, dl)], deliveries := s.deliveries[d := dl.(phase := Stepping)])
    case StepCounter(d) =>
      var dl := s.deliveries[d];
      s.(stepped := s.stepped + [Current(to, dl)], deliveries := s.deliveries[d := dl.(phase := Pushing)])
    case Push(d, sent) =>
      var dl := s.deliveries[d];
      s.(pushed := if sent then s.pushed + [Current(to, dl)] else s.pushed,
         lost := if sent then s.lost else s.lost + [Current(to, dl)],
         deliveries := s.deliveries[d := dl.(index := dl.index + 1, phase := Saving)])
    case Crash(d) => s.(deliveries := s.deliveries[d := s.deliveries[d].(alive := false)])
  }

  ghost function Next(to: Recipients, s: State, step: Step): State {
    if Enabled(to, s, step) then Apply(to, s, step) else s
  }

  ghost function Run(to: Recipients, s: State, steps: seq<Step>): State
    decreases |steps|
  {
    if steps == [] then s else Run(to, Next(to, s, steps[0]), steps[1..])
  }

  // ---------------------------------------------------------------- invariant

  ghost function Is(p: Pair): Pair -> bool { (q: Pair) => q == p }

  /** The delivery has saved `p` and not yet stepped the counter for it (whether it still runs or crashed there). */
  ghost function OwesStep(to: Recipients, p: Pair): Delivery -> bool {
    (dl: Delivery) => dl.phase.Stepping? && dl.index < |to(dl.event)| && Current(to, dl) == p
  }

  /** The delivery has saved `p` and not yet pushed it. */
  ghost function OwesPush(to: Recipients, p: Pair): Delivery -> bool {
    (dl: Delivery) => !dl.phase.Saving? && dl.index < |to(dl.event)| && Current(to, dl) == p
  }

  ghost function InStepping(): Delivery -> bool { (dl: Delivery) => dl.phase.Stepping? }

  ghost predicate DeliveryOk(to: Recipients, s: State, dl: Delivery) {
    && dl.index <= |to(dl.event)|
    && (!dl.phase.Saving? ==> dl.index < |to(dl.event)| && Current(to, dl) in s.rows)
    && (forall k :: 0 <= k < dl.index ==> Pair(dl.event, to(dl.event)[k]) in s.rows)
  }

  ghost predicate RowOk(to: Recipients, p: Pair) {
    p.recipient in to(p.event)
  }

  /** A row accounts for one counter step and one push: owed by one delivery, or made, or lost. */
  ghost predicate PairOk(to: Recipients, s: State, p: Pair) {
    && CountIf(s.rows, Is(p)) <= 1
    && CountIf(s.deliveries, OwesStep(to, p)) + CountIf(s.stepped, Is(p)) == CountIf(s.rows, Is(p))
    && CountIf(s.deliveries, OwesPush(to, p)) + CountIf(s.pushed, Is(p)) + CountIf(s.lost, Is(p)) == CountIf(s.rows, Is(p))
  }

  ghost predicate Inv(to: Recipients, s: State) {
    && (forall d :: 0 <= d < |s.deliveries| ==> DeliveryOk(to, s, s.deliveries[d]))
    && (forall i :: 0 <= i < |s.rows| ==> RowOk(to, s.rows[i]))
    && (forall p :: PairOk(to, s, p))
    && |s.rows| == |s.stepped| + CountIf(s.deliveries, InStepping())
  }

  lemma InCount(s: seq<Pair>, p: Pair)
    ensures p in s <==> CountIf(s, Is(p)) >= 1
  {
    CountZero(s, Is(p));
    if p in s {
      var i :| 0 <= i < |s| && s[i] == p;
      assert Is(p)(s[i]);
    }
  }

  /** What one delivery owes for `p`, before and after it moved on. */
  lemma OwedAfter(to: Recipients, s: State, s': State, d: nat, p: Pair)
    requires d < |s.deliveries| == |s'.deliveries| && s'.deliveries == s.deliveries[d := s'.deliveries[d]]
    ensures CountIf(s'.deliveries, OwesStep(to, p)) == CountIf(s.deliveries, OwesStep(to, p))
      - (if OwesStep(to, p)(s.deliveries[d]) then 1 else 0) + (if OwesStep(to, p)(s'.deliveries[d]) then 1 else 0)
    ensures CountIf(s'.deliveries, OwesPush(to, p)) == CountIf(s.deliveries, OwesPush(to, p))
      - (if OwesPush(to, p)(s.deliveries[d]) then 1 else 0) + (if OwesPush(to, p)(s'.deliveries[d]) then 1 else 0)
    ensures CountIf(s'.deliveries, InStepping()) == CountIf(s.deliveries, InStepping())
      - (if s.deliveries[d].phase.Stepping? then 1 else 0) + (if s'.deliveries[d].phase.Stepping? then 1 else 0)
  {
    CountUpdate(s.deliveries, d, s'.deliveries[d], OwesStep(to, p));
    CountUpdate(s.deliveries, d, s'.deliveries[d], OwesPush(to, p));
    CountUpdate(s.deliveries, d, s'.deliveries[d], InStepping());
  }

  /** The account of one pair after one step. */
  lemma PairKept(to: Recipients, s: State, step: Step, p: Pair)
    requires Inv(to, s) && Enabled(to, s, step)
    ensures PairOk(to, Apply(to, s, step), p)
  {
    var s' := Apply(to, s, step);
    assert PairOk(to, s, p);
    match step
    case Receive(event) =>
      CountAppend(s.deliveries, Delivery(event, 0, Saving, true), OwesStep(to, p));
      CountAppend(s.deliveries, Delivery(event, 0, Saving, true), OwesPush(to, p));
    case Save(d) =>
      OwedAfter(to, s, s', d, p);
      InCount(s.rows, Current(to, s.deliveries[d]));
      CountAppend(s.rows, Current(to, s.deliveries[d]), Is(p));
    case StepCounter(d) =>
      OwedAfter(to, s, s', d, p);
      CountAppend(s.stepped, Current(to, s.deliveries[d]), Is(p));
    case Push(d, _) =>
      OwedAfter(to, s, s', d, p);
      CountAppend(s.pushed, Current(to, s.deliveries[d]), Is(p));
      CountAppend(s.lost, Current(to, s.deliveries[d]), Is(p));
    case Crash(d) => OwedAfter(to, s, s', d, p);
  }

  lemma DeliveriesKept(to: Recipients, s: State, step: Step, d: nat)
    requires Inv(to, s) && Enabled(to, s, step) && d < |Apply(to, s, step).deliveries|
    ensures DeliveryOk(to, Apply(to, s, step), Apply(to, s, step).deliveries[d])
  {
    if d < |s.deliveries| {
      assert DeliveryOk(to, s, s.deliveries[d]);
    }
  }

  lemma RowsKept(to: Recipients, s: State, step: Step)
    requires Inv(to, s) && Enabled(to, s, step)
    ensures var s' := Apply(to, s, step);
      && (forall i :: 0 <= i < |s'.rows| ==> RowOk(to, s'.rows[i]))
      && |s'.rows| == |s'.stepped| + CountIf(s'.deliveries, InStepping())
  {
    match step
    case Receive(event) => CountAppend(s.deliveries, Delivery(event, 0, Saving, true), InStepping());
    case _ =>
      OwedAfter(to, s, Apply(to, s, step), step.d, Pair(0, 0));
  }

  lemma NextInv(to: Recipients, s: State, step: Step)
    requires Inv(to, s)
    ensures Inv(to, Next(to, s, step))
  {
    if Enabled(to, s, step) {
      var s' := Apply(to, s, step);
      RowsKept(to, s, step);
      forall p ensures PairOk(to, s', p) {
        PairKept(to, s, step, p);
      }
      forall d | 0 <= d < |s'.deliveries| ensures DeliveryOk(to, s', s'.deliveries[d]) {
        DeliveriesKept(to, s, step, d);
      }
    }
  }

  lemma {:induction false} RunInv(to: Recipients, s: State, steps: seq<Step>)
    requires Inv(to, s)
    ensures Inv(to, Run(to, s, steps))
    decreases |steps|
  {
    if steps != [] {
      NextInv(to, s, steps[0]);
      RunInv(to, Next(to, s, steps[0]), steps[1..]);
    }
  }

  // ---------------------------------------------------------------- theorems

  /** Some delivery of `event` got through all its recipients. */
  ghost predicate Completed(to: Recipients, s: State, event: nat) {
    exists d :: 0 <= d < |s.deliveries| && s.deliveries[d].event == event && s.deliveries[d].index == |to(event)|
  }

  /**
   Every row causes at most one counter step and at most one push, and nothing else causes any. Each is accounted for: made,
   or a push that failed, or still to be made by the one delivery that saved the row, which may have crashed before it.
   */
  lemma AtMostOneEffectPerRow(to: Recipients, steps: seq<Step>, p: Pair)
    ensures var s := Run(to, Empty, steps);
      && CountIf(s.rows, Is(p)) <= 1
      && CountIf(s.rows, Is(p)) == CountIf(s.stepped, Is(p)) + CountIf(s.deliveries, OwesStep(to, p))
      && CountIf(s.rows, Is(p))
           == CountIf(s.pushed, Is(p)) + CountIf(s.lost, Is(p)) + CountIf(s.deliveries, OwesPush(to, p))
      && (p in s.rows ==> p.recipient in to(p.event))
  {
    RunInv(to, Empty, steps);
    var s := Run(to, Empty, steps);
    assert PairOk(to, s, p);
    if p in s.rows {
      var i :| 0 <= i < |s.rows| && s.rows[i] == p;
      assert RowOk(to, s.rows[i]);
    }
  }

  /**
   Fan-out is exact: once one delivery of an event got through, whatever partial, crashed, repeated and
   concurrent deliveries there were, there is exactly one row per recipient and none for anybody else.
   */
  lemma ExactlyOncePerRecipient(to: Recipients, steps: seq<Step>, event: nat, recipient: nat)
    requires Completed(to, Run(to, Empty, steps), event)
    ensures CountIf(Run(to, Empty, steps).rows, Is(Pair(event, recipient))) == if recipient in to(event) then 1 else 0
  {
    RunInv(to, Empty, steps);
    var s, p := Run(to, Empty, steps), Pair(event, recipient);
    assert PairOk(to, s, p);
    InCount(s.rows, p);
    if recipient in to(event) {
      var d :| 0 <= d < |s.deliveries| && s.deliveries[d].event == event && s.deliveries[d].index == |to(event)|;
      assert DeliveryOk(to, s, s.deliveries[d]);
      var k :| 0 <= k < |to(event)| && to(event)[k] == recipient;
      assert Pair(s.deliveries[d].event, to(s.deliveries[d].event)[k]) in s.rows;
    } else {
      forall i | 0 <= i < |s.rows| ensures s.rows[i] != p {
        assert RowOk(to, s.rows[i]);
      }
    }
  }

  ghost predicate AllCompleted(to: Recipients, s: State) {
    forall d :: 0 <= d < |s.deliveries| ==> Completed(to, s, s.deliveries[d].event)
  }

  ghost predicate Received(s: State, event: nat) {
    exists d :: 0 <= d < |s.deliveries| && s.deliveries[d].event == event
  }

  /** Every row was written by a delivery of its event. */
  ghost predicate RowsReceived(s: State) {
    forall i :: 0 <= i < |s.rows| ==> Received(s, s.rows[i].event)
  }

  lemma {:induction false} RunReceived(to: Recipients, s: State, steps: seq<Step>)
    requires RowsReceived(s)
    ensures RowsReceived(Run(to, s, steps))
    decreases |steps|
  {
    if steps != [] {
      var step, s' := steps[0], Next(to, s, steps[0]);
      forall i | 0 <= i < |s'.rows| ensures Received(s', s'.rows[i].event) {
        var d: nat;
        if i < |s.rows| {
          assert Received(s, s.rows[i].event);
          d :| 0 <= d < |s.deliveries| && s.deliveries[d].event == s.rows[i].event;
        } else {
          d := step.d;
        }
        assert s'.deliveries[d].event == s'.rows[i].event;
      }
      RunReceived(to, s', steps[1..]);
    }
  }

  /**
   Fan-out is confluent: two histories that received the same events, and got each of them through once,
   hold the same notifications, each exactly as often.
   */
  lemma Confluent(to: Recipients, a: seq<Step>, b: seq<Step>, p: Pair)
    requires AllCompleted(to, Run(to, Empty, a)) && AllCompleted(to, Run(to, Empty, b))
    requires forall e :: Received(Run(to, Empty, a), e) <==> Received(Run(to, Empty, b), e)
    ensures CountIf(Run(to, Empty, a).rows, Is(p)) == CountIf(Run(to, Empty, b).rows, Is(p))
  {
    if Received(Run(to, Empty, a), p.event) {
      ExactlyOncePerRecipient(to, a, p.event, p.recipient);
      ExactlyOncePerRecipient(to, b, p.event, p.recipient);
    } else {
      NotReceived(to, a, p);
      NotReceived(to, b, p);
    }
  }

  lemma NotReceived(to: Recipients, steps: seq<Step>, p: Pair)
    requires !Received(Run(to, Empty, steps), p.event)
    ensures CountIf(Run(to, Empty, steps).rows, Is(p)) == 0
  {
    RunReceived(to, Empty, steps);
    var s := Run(to, Empty, steps);
    CountZero(s.rows, Is(p));
    forall i | 0 <= i < |s.rows| ensures !Is(p)(s.rows[i]) {
      assert Received(s, s.rows[i].event);
    }
  }

  ghost function Crashed(): Delivery -> bool { (dl: Delivery) => !dl.alive }

  /** With no delivery under way, the counter steps that rows never got number at most the crashes. */
  lemma LostStepsAtMostCrashes(to: Recipients, steps: seq<Step>)
    requires var s := Run(to, Empty, steps);
      forall d :: 0 <= d < |s.deliveries| && s.deliveries[d].alive ==> s.deliveries[d].index == |to(s.deliveries[d].event)|
    ensures var s := Run(to, Empty, steps);
      |s.stepped| <= |s.rows| <= |s.stepped| + CountIf(s.deliveries, Crashed())
  {
    RunInv(to, Empty, steps);
    var s := Run(to, Empty, steps);
    forall d | 0 <= d < |s.deliveries| && InStepping()(s.deliveries[d]) ensures Crashed()(s.deliveries[d]) {
      assert DeliveryOk(to, s, s.deliveries[d]);
    }
    CountLe(s.deliveries, InStepping(), Crashed());
  }
}
