/**
 The outbox and the notification fan-out together: relays put events in the broker's log, and consumers receive any
 event of the log any number of times. One run interleaves the steps of both.
 */
module EndToEnd {
  import opened Prelude
  import Outbox
  import O = OutboxSystem
  import OT = OutboxTheorems
  import F = FanOut
  import NR = NotificationRefinement

  datatype State = State(db: O.State, fan: F.State)

  datatype Step = Db(o: O.Step) | Fan(f: F.Step)

  const Empty := State(O.Empty, F.Empty)

  /** A consumer receives nothing that the log does not hold. */
  ghost predicate Enabled(s: State, step: Step) {
    step.Fan? && step.f.Receive? ==> O.Logged(s.db, step.f.event)
  }

  ghost function Next(policy: Outbox.Policy, to: F.Recipients, s: State, step: Step): State {
    if !Enabled(s, step) then s
    else if step.Db? then s.(db := O.Next(policy, s.db, step.o))
    else s.(fan := F.Next(to, s.fan, step.f))
  }

  ghost function Run(policy: Outbox.Policy, to: F.Recipients, s: State, steps: seq<Step>): State
    decreases |steps|
  {
    if steps == [] then s else Run(policy, to, Next(policy, to, s, steps[0]), steps[1..])
  }

  ghost predicate FanReachable(to: F.Recipients, fan: F.State) {
    exists steps :: F.Run(to, F.Empty, steps) == fan
  }

  /** Each side is a run of its own, and only logged events are received. */
  ghost predicate Joined(policy: Outbox.Policy, to: F.Recipients, s: State) {
    && OT.Reachable(policy, s.db)
    && FanReachable(to, s.fan)
    && forall d :: 0 <= d < |s.fan.deliveries| ==> O.Logged(s.db, s.fan.deliveries[d].event)
  }

  lemma LogGrows(policy: Outbox.Policy, db: O.State, step: O.Step, event: nat)
    requires O.Logged(db, event)
    ensures O.Logged(O.Next(policy, db, step), event)
  {
    var k :| 0 <= k < |db.log| && db.log[k].event == event;
    assert O.Next(policy, db, step).log[k] == db.log[k];
  }

  lemma FanNext(to: F.Recipients, fan: F.State, step: F.Step)
    requires FanReachable(to, fan)
    ensures FanReachable(to, F.Next(to, fan, step))
  {
    var steps :| F.Run(to, F.Empty, steps) == fan;
    NR.RunConcat(to, F.Empty, steps, [step]);
    NR.RunOne(to, fan, step);
  }

  lemma JoinedStep(policy: Outbox.Policy, to: F.Recipients, s: State, step: Step)
    requires Joined(policy, to, s)
    ensures Joined(policy, to, Next(policy, to, s, step))
  {
    if Enabled(s, step) {
      var s' := Next(policy, to, s, step);
      if step.Db? {
        var db := OT.ReachNext(policy, s.db, step.o);
        forall d | 0 <= d < |s'.fan.deliveries| ensures O.Logged(s'.db, s'.fan.deliveries[d].event) {
          LogGrows(policy, s.db, step.o, s.fan.deliveries[d].event);
        }
      } else {
        FanNext(to, s.fan, step.f);
      }
    }
  }

  lemma {:induction false} JoinedRun(policy: Outbox.Policy, to: F.Recipients, s: State, steps: seq<Step>)
    requires Joined(policy, to, s)
    ensures Joined(policy, to, Run(policy, to, s, steps))
    decreases |steps|
  {
    if steps != [] {
      JoinedStep(policy, to, s, steps[0]);
      JoinedRun(policy, to, Next(policy, to, s, steps[0]), steps[1..]);
    }
  }

  lemma JoinedEmpty(policy: Outbox.Policy, to: F.Recipients)
    ensures Joined(policy, to, Empty)
  {
    assert O.Run(policy, O.Empty, []) == O.Empty;
    assert F.Run(to, F.Empty, []) == F.Empty;
  }

  /** Nothing is PENDING, and the audit log and the notification worker have handled every logged event. */
  ghost predicate Settled(to: F.Recipients, s: State) {
    && OT.Settled(s.db)
    && forall k :: 0 <= k < |s.db.log| ==> F.Completed(to, s.fan, s.db.log[k].event)
  }

  /**
   From a domain change to its notifications. Once everything is settled, whatever rollbacks, crashes, repeats and
   reorderings came before: every PUBLISHED row's event has exactly one audit record and exactly one notification for
   each of its recipients and none for anybody else, stepped and pushed at most once each.
   */
  lemma PublishedIsNotifiedOnce(policy: Outbox.Policy, to: F.Recipients, steps: seq<Step>, i: nat, recipient: nat)
    requires policy.Valid() && Settled(to, Run(policy, to, Empty, steps))
    requires var s := Run(policy, to, Empty, steps); i < |s.db.table| && s.db.table[i].status.Published?
    ensures var s := Run(policy, to, Empty, steps);
      var event := s.db.table[i].event;
      var p := F.Pair(event, recipient);
      && CountIf(s.db.audit, OT.IsEvent(event)) == 1
      && CountIf(s.fan.rows, F.Is(p)) == (if recipient in to(event) then 1 else 0)
      && CountIf(s.fan.stepped, F.Is(p)) <= 1 && CountIf(s.fan.pushed, F.Is(p)) <= 1
  {
    JoinedEmpty(policy, to);
    JoinedRun(policy, to, Empty, steps);
    var s := Run(policy, to, Empty, steps);
    var event := s.db.table[i].event;
    OT.EndToEnd(policy, s.db);
    OT.PublishedIsLogged(policy, s.db, i);
    var k :| 0 <= k < |s.db.log| && s.db.log[k].event == event;
    var fsteps :| F.Run(to, F.Empty, fsteps) == s.fan;
    F.ExactlyOncePerRecipient(to, fsteps, event, recipient);
    F.AtMostOneEffectPerRow(to, fsteps, F.Pair(event, recipient));
  }

  /** At every moment: a notification is there once at most, for a recipient of a committed change. */
  lemma NotifiedOnlyCommitted(policy: Outbox.Policy, to: F.Recipients, steps: seq<Step>, p: F.Pair)
    requires policy.Valid()
    ensures var s := Run(policy, to, Empty, steps);
      && CountIf(s.fan.rows, F.Is(p)) <= 1
      && (p in s.fan.rows ==> p.event in s.db.changes && p.recipient in to(p.event))
  {
    JoinedEmpty(policy, to);
    JoinedRun(policy, to, Empty, steps);
    var s := Run(policy, to, Empty, steps);
    var fsteps :| F.Run(to, F.Empty, fsteps) == s.fan;
    F.AtMostOneEffectPerRow(to, fsteps, p);
    F.RunReceived(to, F.Empty, fsteps);
    if p in s.fan.rows {
      var i :| 0 <= i < |s.fan.rows| && s.fan.rows[i] == p;
      assert F.Received(s.fan, s.fan.rows[i].event);
      assert O.Logged(s.db, p.event);
      OT.LoggedIsCommitted(policy, s.db, p.event);
    }
  }
}
