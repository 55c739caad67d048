/** What the outbox promises over every run of `OutboxSystem`. */
module OutboxTheorems {
  import opened Prelude
  import opened Backoff
  import opened Outbox
  import opened OutboxSystem
  import opened OutboxProofs

  ghost predicate Reachable(policy: Policy, s: State) {
    exists steps :: Run(policy, Empty, steps) == s
  }

  lemma ReachableInv(policy: Policy, s: State)
    requires policy.Valid() && Reachable(policy, s)
    ensures Inv(policy, s)
  {
    var steps :| Run(policy, Empty, steps) == s;
    InitInv(policy);
    RunInv(policy, Empty, steps);
  }

  lemma {:induction false} RunConcat(policy: Policy, s: State, a: seq<Step>, b: seq<Step>)
    ensures Run(policy, s, a + b) == Run(policy, Run(policy, s, a), b)
    decreases |a|
  {
    if a == [] {
      assert a + b == b;
    } else {
      assert (a + b)[1..] == a[1..] + b;
      RunConcat(policy, Next(policy, s, a[0]), a[1..], b);
    }
  }

  // ---------------------------------------------------------------- locks, emissions, terminal rows

  /** SKIP LOCKED at work: two open ticks never hold the same row. */
  lemma NoRowHeldTwice(policy: Policy, s: State, t: nat, u: nat, i: nat)
    requires policy.Valid() && Reachable(policy, s)
    requires t < |s.ticks| && u < |s.ticks| && t != u
    requires s.ticks[t].status.Open? && s.ticks[u].status.Open?
    ensures !(i in s.ticks[t].batch && i in s.ticks[u].batch)
  {
    ReachableInv(policy, s);
  }

  lemma OpenFetchAtMostOnce(policy: Policy, s: State, i: nat)
    requires TicksInv(policy, s) && LocksInv(s) && i < |s.table|
    ensures CountIf(s.ticks, OpenFetch(i)) <= 1
    ensures !s.table[i].status.Pending? ==> CountIf(s.ticks, OpenFetch(i)) == 0
  {
    CountAtMostOne(s.ticks, OpenFetch(i));
    if !s.table[i].status.Pending? {
      forall t | 0 <= t < |s.ticks| ensures !OpenFetch(i)(s.ticks[t]) {
        assert TickOk(policy, s.table, s.now, s.ticks[t]);
      }
      CountZero(s.ticks, OpenFetch(i));
    }
  }

  /**
   Duplicates are bounded by rollbacks. The acknowledged emissions of a row are exactly one for being PUBLISHED and one
   for each tick that had it acknowledged and has not committed; so they are at most one more than the rolled-back
   ticks that fetched it, and not even one more if it is FAILED.
   */
  lemma AcknowledgedEmissions(policy: Policy, s: State, i: nat)
    requires policy.Valid() && Reachable(policy, s) && i < |s.table|
    ensures CountIf(s.log, AckOf(i)) <= 1 + CountIf(s.ticks, RolledBackFetch(i))
    ensures s.table[i].status.Published? ==> CountIf(s.log, AckOf(i)) >= 1
    ensures s.table[i].status.Failed? ==> CountIf(s.log, AckOf(i)) <= CountIf(s.ticks, RolledBackFetch(i))
    ensures s.table[i].status.Published? <==> exists t :: 0 <= t < |s.ticks| && CommittedAck(i)(s.ticks[t])
    ensures CountIf(s.log, AckOf(i)) == Indicator(s.table[i].status.Published?) + CountIf(s.ticks, UncommittedAck(i))
  {
    ReachableInv(policy, s);
    OpenFetchAtMostOnce(policy, s, i);
    var ticks := s.ticks;
    forall t | 0 <= t < |ticks| && HasAck(i)(ticks[t])
      ensures CommittedAck(i)(ticks[t]) || Uncommitted(i)(ticks[t])
    {
      assert TickOk(policy, s.table, s.now, ticks[t]);
    }
    CountSplit(ticks, HasAck(i), CommittedAck(i), Uncommitted(i));
    CountPartition(ticks, HasAck(i), CommittedAck(i), UncommittedAck(i));
    CountSplit(ticks, Uncommitted(i), OpenFetch(i), RolledBackFetch(i));
    CountLe(ticks, CommittedAck(i), HasAck(i));
    CountZero(ticks, CommittedAck(i));
  }

  ghost function UncommittedAck(i: nat): Tick -> bool { (tk: Tick) => !tk.status.Committed? && i in tk.acked }

  ghost function Uncommitted(i: nat): Tick -> bool {
    (tk: Tick) => (tk.status.Open? || tk.status.RolledBack?) && i in tk.batch
  }

  lemma TerminalStep(policy: Policy, s: State, step: Step, i: nat)
    requires policy.Valid() && Inv(policy, s) && i < |s.table|
    ensures var s' := Next(policy, s, step);
      && i < |s'.table| && s'.table[i].event == s.table[i].event
      && (!s.table[i].status.Pending? ==> s'.table[i] == s.table[i])
  {
    if Enabled(policy, s, step) && step.Commit? {
      TerminalCommit(policy, s, step.t, i);
    }
  }

  lemma TerminalCommit(policy: Policy, s: State, t: nat, i: nat)
    requires TicksInv(policy, s) && i < |s.table|
    requires t < |s.ticks| && s.ticks[t].status.Open? && s.ticks[t].index == |s.ticks[t].batch|
    ensures var row := Overlay(s.table, s.ticks[t].writes)[i];
      row.event == s.table[i].event && (!s.table[i].status.Pending? ==> row == s.table[i])
  {
    CommittedRow(policy, s, t, i);
  }

  /** PUBLISHED and FAILED are final: whatever runs afterwards, the row never changes again. */
  lemma {:induction false} TerminalRowsNeverChange(policy: Policy, s: State, steps: seq<Step>, i: nat)
    requires policy.Valid() && Inv(policy, s) && i < |s.table|
    ensures i < |Run(policy, s, steps).table|
    ensures Run(policy, s, steps).table[i].event == s.table[i].event
    ensures !s.table[i].status.Pending? ==> Run(policy, s, steps).table[i] == s.table[i]
    decreases |steps|
  {
    if steps != [] {
      TerminalStep(policy, s, steps[0], i);
      NextInv(policy, s, steps[0]);
      TerminalRowsNeverChange(policy, Next(policy, s, steps[0]), steps[1..], i);
    }
  }

  // ---------------------------------------------------------------- end to end

  ghost function WithEvent(event: nat): Row -> bool { (row: Row) => row.event == event }
  ghost function IsEvent(event: nat): nat -> bool { (e: nat) => e == event }

  ghost predicate Settled(s: State) {
    && (forall i :: 0 <= i < |s.table| ==> !s.table[i].status.Pending?)
    && (forall k :: 0 <= k < |s.log| ==> s.log[k].event in s.audit)
  }

  lemma OneRowPerChange(policy: Policy, s: State, event: nat)
    requires Inv(policy, s)
    ensures CountIf(s.table, WithEvent(event)) == Indicator(event in s.changes)
  {
    CountAtMostOne(s.table, WithEvent(event));
    CountZero(s.table, WithEvent(event));
    if event in s.changes {
      var i :| 0 <= i < |s.changes| && s.changes[i] == event;
      assert WithEvent(event)(s.table[i]);
    }
  }

  /**
   Once nothing is PENDING and every logged event has been handled: each committed domain change has
   exactly one row, PUBLISHED or FAILED, no row is without a change, and every PUBLISHED event has
   exactly one audit record, whatever rollbacks, duplicates and reorderings came before.
   */
  lemma EndToEnd(policy: Policy, s: State)
    requires policy.Valid() && Reachable(policy, s) && Settled(s)
    ensures forall event :: CountIf(s.table, WithEvent(event)) == Indicator(event in s.changes)
    ensures forall i :: 0 <= i < |s.table| ==> s.table[i].status.Published? || s.table[i].status.Failed?
    ensures forall i :: 0 <= i < |s.table| && s.table[i].status.Published? ==>
      CountIf(s.audit, IsEvent(s.table[i].event)) == 1
  {
    ReachableInv(policy, s);
    forall event ensures CountIf(s.table, WithEvent(event)) == Indicator(event in s.changes) {
      OneRowPerChange(policy, s, event);
    }
    forall i | 0 <= i < |s.table| && s.table[i].status.Published?
      ensures CountIf(s.audit, IsEvent(s.table[i].event)) == 1
    {
      AcknowledgedEmissions(policy, s, i);
      CountZero(s.log, AckOf(i));
      var k :| 0 <= k < |s.log| && AckOf(i)(s.log[k]);
      var event := s.table[i].event;
      assert s.log[k].event == event;
      var a :| 0 <= a < |s.audit| && s.audit[a] == event;
      CountPositive(s.audit, IsEvent(event), a);
      CountAtMostOne(s.audit, IsEvent(event));
    }
  }

  /** The broker holds what was published, and nothing that was not committed. */
  lemma PublishedIsLogged(policy: Policy, s: State, i: nat)
    requires policy.Valid() && Reachable(policy, s) && i < |s.table| && s.table[i].status.Published?
    ensures Logged(s, s.table[i].event)
  {
    ReachableInv(policy, s);
    AcknowledgedEmissions(policy, s, i);
    CountZero(s.log, AckOf(i));
    var k :| 0 <= k < |s.log| && AckOf(i)(s.log[k]);
    assert s.log[k].event == s.table[i].event;
  }

  lemma LoggedIsCommitted(policy: Policy, s: State, event: nat)
    requires policy.Valid() && Reachable(policy, s) && Logged(s, event)
    ensures event in s.changes
  {
    ReachableInv(policy, s);
    var k :| 0 <= k < |s.log| && s.log[k].event == event;
    assert s.changes[s.log[k].row] == event;
  }

  /** At every instant: nothing is audited twice, and nothing is audited that was not committed. */
  lemma AuditedOnlyCommittedOnce(policy: Policy, s: State, event: nat)
    requires policy.Valid() && Reachable(policy, s)
    ensures CountIf(s.audit, IsEvent(event)) <= 1
    ensures event in s.audit ==> event in s.changes
  {
    ReachableInv(policy, s);
    CountAtMostOne(s.audit, IsEvent(event));
    if event in s.audit {
      var a :| 0 <= a < |s.audit| && s.audit[a] == event;
      assert Logged(s, event);
      var k :| 0 <= k < |s.log| && s.log[k].event == event;
      assert s.changes[s.log[k].row] == event;
    }
  }

  /** Once all logged events are handled, a row's event is audited exactly when the broker ever kept a message of it. */
  lemma AuditedIffLogged(policy: Policy, s: State, i: nat)
    requires policy.Valid() && Reachable(policy, s) && i < |s.table|
    requires forall k :: 0 <= k < |s.log| ==> s.log[k].event in s.audit
    ensures s.table[i].event in s.audit <==> exists k :: 0 <= k < |s.log| && s.log[k].row == i
  {
    ReachableInv(policy, s);
    var event := s.table[i].event;
    if event in s.audit {
      var a :| 0 <= a < |s.audit| && s.audit[a] == event;
      assert Logged(s, event);
      var k :| 0 <= k < |s.log| && s.log[k].event == event;
      assert s.changes[s.log[k].row] == event == s.changes[i];
      assert s.log[k].row == i;
    }
  }

  /**
   The converse for FAILED rows does not hold: an emission can reject although the broker kept it.
   Here one row is quarantined at its only attempt, and its event is audited all the same.
   */
  lemma FailedEventCanBeAudited() returns (s: State)
    ensures Reachable(Policy(1, 1, 1, 1), s) && Settled(s)
    ensures |s.table| == 1 && s.table[0].status.Failed? && s.audit == [s.table[0].event]
  {
    var policy := Policy(1, 1, 1, 1);
    var s2 := OneFailedRow(policy);
    s := ReachNext(policy, s2, Deliver(0));
  }

  lemma OneFailedRow(policy: Policy) returns (s: State)
    requires policy == Policy(1, 1, 1, 1)
    ensures Reachable(policy, s) && s.audit == [] && s.log == [Emission(0, 0, false)]
    ensures |s.table| == 1 && s.table[0].status.Failed? && s.table[0].event == 0
  {
    var r := OneRefusedEmission(policy);
    var failed := FailedRow(policy, r.table[0], 0, "timeout", 0);
    var s1 := ReachNext(policy, r, Mark(0, "timeout"));
    assert s1.ticks[0] == MarkedTick(policy, r, r.ticks[0], "timeout");
    assert s1.ticks[0].writes[0] == failed;
    s := ReachNext(policy, s1, Commit(0));
    assert s.table == [failed];
  }

  lemma OneRefusedEmission(policy: Policy) returns (s: State)
    requires policy == Policy(1, 1, 1, 1)
    ensures Reachable(policy, s) && s.now == 0 && s.table == [NewRow(0, 0)] && s.audit == []
    ensures s.ticks == [Tick(0, [0], [0], 0, Refused, Open, true, map[], {}, map[])]
    ensures s.log == [Emission(0, 0, false)]
  {
    var r := OneCommittedRow(policy);
    assert IsFetch(r.table, Locked(r), r.now, 1, [0]);
    assert Fetched(r, [0]).seen == [0];
    var s1 := ReachNext(policy, r, Fetch([0]));
    assert s1.ticks == [Tick(0, [0], [0], 0, Ready, Open, true, map[], {}, map[])];
    s := ReachNext(policy, s1, Emit(0, RejectedButKept));
  }

  lemma OneCommittedRow(policy: Policy) returns (s: State)
    ensures Reachable(policy, s)
    ensures s == State(0, [NewRow(0, 0)], [0], [Writer(Some(NewRow(0, 0)), false, true)], [], [], [], map[])
  {
    assert Run(policy, Empty, []) == Empty;
    s := ReachNext(policy, Empty, BeginWrite);
    s := ReachNext(policy, s, StageRow(0, 0));
    s := ReachNext(policy, s, CommitWrite(0));
  }

  lemma ReachNext(policy: Policy, s: State, step: Step) returns (s': State)
    requires Reachable(policy, s)
    ensures s' == Next(policy, s, step) && Reachable(policy, s')
  {
    s' := Next(policy, s, step);
    var steps :| Run(policy, Empty, steps) == s;
    RunConcat(policy, Empty, steps, [step]);
    assert Run(policy, s, [step]) == Run(policy, s', []);
    assert Run(policy, Empty, steps + [step]) == s';
  }

  // ---------------------------------------------------------------- the backlog drains

  ghost function Remaining(policy: Policy): Row -> int {
    (row: Row) => if row.status.Pending? then policy.maxAttempts - row.attempts else 0
  }

  /** The attempts that PENDING rows have left, added up. */
  ghost function Backlog(policy: Policy, s: State): int {
    SumOf(s.table, Remaining(policy))
  }

  ghost predicate CommitsWork(policy: Policy, s: State, step: Step) {
    step.Commit? && Enabled(policy, s, step) && s.ticks[step.t].batch != []
  }

  ghost function WorkingCommits(policy: Policy, s: State, steps: seq<Step>): nat
    decreases |steps|
  {
    if steps == [] then 0
    else Indicator(CommitsWork(policy, s, steps[0])) + WorkingCommits(policy, Next(policy, s, steps[0]), steps[1..])
  }

  /** A row that the tick fetched has at least one attempt less. */
  lemma BacklogRow(policy: Policy, s: State, t: nat, i: nat)
    requires TicksInv(policy, s) && i < |s.table| && RowOk(policy, s.table[i])
    requires t < |s.ticks| && s.ticks[t].status.Open? && s.ticks[t].index == |s.ticks[t].batch|
    requires RowOk(policy, Overlay(s.table, s.ticks[t].writes)[i])
    ensures Remaining(policy)(Overlay(s.table, s.ticks[t].writes)[i])
         <= Remaining(policy)(s.table[i]) - Indicator(i in s.ticks[t].batch)
  {
    CommittedRow(policy, s, t, i);
  }

  lemma BacklogCommit(policy: Policy, s: State, t: nat, table': seq<Row>)
    requires policy.Valid() && Inv(policy, s)
    requires t < |s.ticks| && s.ticks[t].status.Open? && s.ticks[t].index == |s.ticks[t].batch|
    requires table' == Overlay(s.table, s.ticks[t].writes)
    requires forall i :: 0 <= i < |table'| ==> RowOk(policy, table'[i])
    ensures SumOf(table', Remaining(policy)) <= Backlog(policy, s) - Indicator(s.ticks[t].batch != [])
  {
    forall i | 0 <= i < |s.table|
      ensures Remaining(policy)(table'[i]) <= Remaining(policy)(s.table[i]) - Indicator(i in s.ticks[t].batch)
    {
      BacklogRow(policy, s, t, i);
    }
    if s.ticks[t].batch != [] {
      assert TickOk(policy, s.table, s.now, s.ticks[t]);
      assert s.ticks[t].batch[0] in s.ticks[t].batch;
      SumLt(table', s.table, Remaining(policy), s.ticks[t].batch[0]);
    } else {
      SumLe(table', s.table, Remaining(policy));
    }
  }

  /** Every committed tick that fetched something shrinks the backlog; no other step but a new row changes it. */
  lemma BacklogStep(policy: Policy, s: State, step: Step)
    requires policy.Valid() && Inv(policy, s) && !step.CommitWrite?
    ensures Backlog(policy, Next(policy, s, step)) <= Backlog(policy, s) - Indicator(CommitsWork(policy, s, step))
  {
    if Enabled(policy, s, step) && step.Commit? {
      RowsKept(policy, s, step);
      BacklogCommit(policy, s, step.t, Apply(policy, s, step).table);
    }
  }

  lemma {:induction false} BacklogZero(policy: Policy, table: seq<Row>)
    requires forall i :: 0 <= i < |table| ==> RowOk(policy, table[i])
    ensures SumOf(table, Remaining(policy)) >= 0
    ensures SumOf(table, Remaining(policy)) == 0 <==> forall i :: 0 <= i < |table| ==> !table[i].status.Pending?
  {
    if table != [] {
      var n := |table| - 1;
      BacklogZero(policy, table[..n]);
      assert forall i :: 0 <= i < n ==> table[..n][i] == table[i];
    }
  }

  /**
   With no new rows, the committed ticks that fetched something number at most the backlog at the
   start, and a backlog of zero means that nothing is PENDING.
   */
  lemma {:induction false} BacklogBoundsTicks(policy: Policy, s: State, steps: seq<Step>)
    requires policy.Valid() && Inv(policy, s)
    requires forall j :: 0 <= j < |steps| ==> !steps[j].CommitWrite?
    ensures WorkingCommits(policy, s, steps) + Backlog(policy, Run(policy, s, steps)) <= Backlog(policy, s)
    ensures Backlog(policy, s) >= 0
    ensures Backlog(policy, s) == 0 <==> forall i :: 0 <= i < |s.table| ==> !s.table[i].status.Pending?
    decreases |steps|
  {
    BacklogZero(policy, s.table);
    if steps != [] {
      BacklogStep(policy, s, steps[0]);
      NextInv(policy, s, steps[0]);
      BacklogBoundsTicks(policy, Next(policy, s, steps[0]), steps[1..]);
    }
  }

  /** A fetch comes back empty only when no row is both due and unlocked, so such ticks do occur while there is work. */
  lemma EmptyFetchMeansNoWork(policy: Policy, s: State, ids: seq<nat>, i: nat)
    requires policy.Valid() && Enabled(policy, s, Fetch(ids))
    requires i < |s.table| && Due(s.table[i], s.now) && !IsLocked(s, i)
    ensures ids != []
  {
    assert i !in Locked(s);
  }

  // ---------------------------------------------------------------- quarantine

  /**
   A row is FAILED exactly when `maxAttempts` committed ticks have failed it, and by then at least the
   policy's first `maxAttempts - 1` waits have passed since its first failure.
   */
  lemma QuarantineAfterAllAttempts(policy: Policy, s: State, i: nat)
    requires policy.Valid() && Reachable(policy, s) && i < |s.table|
    ensures s.table[i].status.Failed? <==> CountIf(s.ticks, CommittedFail(i)) == policy.maxAttempts
    ensures s.table[i].status.Pending? ==> CountIf(s.ticks, CommittedFail(i)) < policy.maxAttempts
    ensures s.table[i].status.Failed? ==>
      && i in s.firstFail && s.table[i].failedAt.Some?
      && s.table[i].failedAt.value - s.firstFail[i]
           >= TotalBackoff(policy.maxAttempts - 1, policy.baseMs, policy.capMs)
  {
    ReachableInv(policy, s);
    assert RowOk(policy, s.table[i]) && TimingOk(policy, s.firstFail, i, s.table[i]);
  }

  /** The same in closed form, when even the longest wait stays under the cap. */
  lemma QuarantineDelayUnderCap(policy: Policy, s: State, i: nat)
    requires policy.Valid() && Reachable(policy, s) && i < |s.table| && s.table[i].status.Failed?
    requires policy.maxAttempts > 1 ==> policy.baseMs * Pow2(policy.maxAttempts - 2) <= policy.capMs
    ensures i in s.firstFail && s.table[i].failedAt.Some?
    ensures s.table[i].failedAt.value >= s.firstFail[i] + policy.baseMs * (Pow2(policy.maxAttempts - 1) - 1)
  {
    QuarantineAfterAllAttempts(policy, s, i);
    TotalUnderCap(policy.maxAttempts - 1, policy.baseMs, policy.capMs);
  }
}
