/** Every step of `OutboxSystem` keeps its invariant. */
module OutboxProofs {
  import opened Prelude
  import opened Outbox
  import opened OutboxSystem

  lemma InitInv(policy: Policy)
    ensures Inv(policy, Empty)
  {
  }

  // ---------------------------------------------------------------- ticks and locks

  /** A tick's shape survives a longer table and a later clock, as long as its own rows stay. */
  lemma TickFrame(policy: Policy, table: seq<Row>, now: nat, table': seq<Row>, now': nat, tk: Tick)
    requires TickOk(policy, table, now, tk) && |table| <= |table'| && now <= now'
    requires tk.status.Open? ==> forall i :: i in tk.batch ==> table'[i] == table[i]
    ensures TickOk(policy, table', now', tk)
  {
  }

  lemma FetchedOk(policy: Policy, s: State, ids: seq<nat>)
    requires TicksInv(policy, s) && LocksInv(s) && Enabled(policy, s, Fetch(ids))
    ensures TicksInv(policy, Apply(policy, s, Fetch(ids))) && LocksInv(Apply(policy, s, Fetch(ids)))
  {
    var tk := Fetched(s, ids);
    assert TickOk(policy, s.table, s.now, tk);
    forall t, i | 0 <= t < |s.ticks| && s.ticks[t].status.Open? && i in s.ticks[t].batch
      ensures i !in ids
    {
      assert TickOk(policy, s.table, s.now, s.ticks[t]);
      assert IsLocked(s, i);
      assert i in Locked(s);
    }
  }

  lemma EmittedOk(policy: Policy, table: seq<Row>, now: nat, tk: Tick, outcome: EmitOutcome)
    requires TickOk(policy, table, now, tk) && tk.running && tk.phase.Ready? && tk.index < |tk.batch|
    ensures TickOk(policy, table, now, EmittedTick(tk, outcome))
  {
    EmittedShape(|table|, now, tk, outcome);
  }

  lemma EmittedShape(rows: nat, now: nat, tk: Tick, outcome: EmitOutcome)
    requires TickShape(rows, now, tk) && tk.running && tk.phase.Ready? && tk.index < |tk.batch|
    ensures TickShape(rows, now, EmittedTick(tk, outcome))
  {
  }

  lemma MarkedOk(policy: Policy, s: State, tk: Tick, error: string)
    requires TickOk(policy, s.table, s.now, tk) && tk.status.Open? && !tk.phase.Ready?
    ensures TickOk(policy, s.table, s.now, MarkedTick(policy, s, tk, error))
  {
    var tk' := MarkedTick(policy, s, tk, error);
    MarkedShape(policy, s, tk, error);
    forall j | j in tk'.writes ensures j in tk'.batch && WriteShape(policy, s.now, tk', j, s.table[j]) {
      MarkedWrite(policy, s, tk, error, j);
    }
  }

  lemma MarkedWrite(policy: Policy, s: State, tk: Tick, error: string, j: nat)
    requires TickOk(policy, s.table, s.now, tk) && tk.status.Open? && !tk.phase.Ready?
    requires j in MarkedTick(policy, s, tk, error).writes
    ensures j in tk.batch && WriteShape(policy, s.now, MarkedTick(policy, s, tk, error), j, s.table[j])
  {
    if j != tk.batch[tk.index] {
      assert j in tk.writes && WriteShape(policy, s.now, tk, j, s.table[j]);
    }
  }

  lemma MarkedShape(policy: Policy, s: State, tk: Tick, error: string)
    requires TickShape(|s.table|, s.now, tk) && tk.status.Open? && !tk.phase.Ready?
    ensures TickShape(|s.table|, s.now, MarkedTick(policy, s, tk, error))
  {
  }

  lemma CommitOk(policy: Policy, s: State, t: nat)
    requires TicksInv(policy, s) && LocksInv(s) && Enabled(policy, s, Commit(t))
    ensures TicksInv(policy, Apply(policy, s, Commit(t))) && LocksInv(Apply(policy, s, Commit(t)))
  {
    var s' := Apply(policy, s, Commit(t));
    assert TickOk(policy, s.table, s.now, s.ticks[t]);
    forall u | 0 <= u < |s'.ticks|
      ensures TickOk(policy, s'.table, s'.now, s'.ticks[u])
    {
      assert TickOk(policy, s.table, s.now, s.ticks[u]);
      if u != t {
        forall i | s.ticks[u].status.Open? && i in s.ticks[u].batch ensures s'.table[i] == s.table[i] {
          assert i !in s.ticks[t].batch;
          assert i !in s.ticks[t].writes;
        }
        TickFrame(policy, s.table, s.now, s'.table, s'.now, s.ticks[u]);
      }
    }
  }

  /** A step that changes one tick, keeping its batch and opening nothing. */
  lemma OneTick(policy: Policy, s: State, s': State, t: nat)
    requires TicksInv(policy, s) && LocksInv(s) && t < |s.ticks| == |s'.ticks|
    requires s'.ticks == s.ticks[t := s'.ticks[t]] && s'.table == s.table && s'.now == s.now
    requires TickOk(policy, s.table, s.now, s'.ticks[t])
    requires s'.ticks[t].batch == s.ticks[t].batch && (s'.ticks[t].status.Open? ==> s.ticks[t].status.Open?)
    ensures TicksInv(policy, s') && LocksInv(s')
  {
  }

  lemma SameTicks(policy: Policy, s: State, s': State)
    requires TicksInv(policy, s) && LocksInv(s)
    requires s'.ticks == s.ticks && s.table <= s'.table && s.now <= s'.now
    ensures TicksInv(policy, s') && LocksInv(s')
  {
    forall u | 0 <= u < |s.ticks| ensures TickOk(policy, s'.table, s'.now, s.ticks[u]) {
      TickFrame(policy, s.table, s.now, s'.table, s'.now, s.ticks[u]);
    }
  }

  lemma EmitKept(policy: Policy, s: State, t: nat, outcome: EmitOutcome)
    requires TicksInv(policy, s) && LocksInv(s) && Enabled(policy, s, Emit(t, outcome))
    ensures TicksInv(policy, Apply(policy, s, Emit(t, outcome))) && LocksInv(Apply(policy, s, Emit(t, outcome)))
  {
    EmittedOk(policy, s.table, s.now, s.ticks[t], outcome);
    OneTick(policy, s, Apply(policy, s, Emit(t, outcome)), t);
  }

  lemma MarkKept(policy: Policy, s: State, t: nat, error: string)
    requires TicksInv(policy, s) && LocksInv(s) && Enabled(policy, s, Mark(t, error))
    ensures TicksInv(policy, Apply(policy, s, Mark(t, error))) && LocksInv(Apply(policy, s, Mark(t, error)))
  {
    MarkedOk(policy, s, s.ticks[t], error);
    OneTick(policy, s, Apply(policy, s, Mark(t, error)), t);
  }

  lemma TicksKept(policy: Policy, s: State, step: Step)
    requires TicksInv(policy, s) && LocksInv(s) && Enabled(policy, s, step)
    ensures TicksInv(policy, Apply(policy, s, step)) && LocksInv(Apply(policy, s, step))
  {
    var s' := Apply(policy, s, step);
    match step
    case Fetch(ids) => FetchedOk(policy, s, ids);
    case Emit(t, outcome) => EmitKept(policy, s, t, outcome);
    case Mark(t, error) => MarkKept(policy, s, t, error);
    case Commit(t) => CommitOk(policy, s, t);
    case Rollback(t) => OneTick(policy, s, s', t);
    case Settle(t) => OneTick(policy, s, s', t);
    case _ => SameTicks(policy, s, s');
  }

  // ---------------------------------------------------------------- rows and their history

  /** What committing tick `t` does to row `i`. */
  lemma CommittedRow(policy: Policy, s: State, t: nat, i: nat)
    requires TicksInv(policy, s) && i < |s.table|
    requires t < |s.ticks| && s.ticks[t].status.Open? && s.ticks[t].index == |s.ticks[t].batch|
    ensures var tk, row, row' := s.ticks[t], s.table[i], Overlay(s.table, s.ticks[t].writes)[i];
      if i in tk.batch then
        && Due(row, tk.startedAt)
        && i in tk.writes && WriteShape(policy, s.now, tk, i, row) && row' == tk.writes[i]
        && (i in tk.acked <==> i !in tk.failedAt)
      else
        row' == row && i !in tk.acked && i !in tk.failedAt
  {
    var tk := s.ticks[t];
    assert TickOk(policy, s.table, s.now, tk);
    if i in tk.batch {
      var k :| 0 <= k < |tk.batch| && tk.batch[k] == i;
      assert tk.batch[k] in tk.writes;
    }
  }

  lemma RowsKept(policy: Policy, s: State, step: Step)
    requires policy.Valid() && TicksInv(policy, s) && RowsInv(policy, s) && ChangesInv(s) && Enabled(policy, s, step)
    ensures RowsInv(policy, Apply(policy, s, step))
  {
    if step.Commit? {
      var s' := Apply(policy, s, step);
      forall i | 0 <= i < |s'.table| ensures RowOk(policy, s'.table[i]) {
        assert RowOk(policy, s.table[i]);
        CommittedRow(policy, s, step.t, i);
      }
    }
  }

  lemma {:induction false} HistoryCommit(policy: Policy, s: State, t: nat)
    requires TicksInv(policy, s) && HistoryInv(s) && Enabled(policy, s, Commit(t))
    ensures HistoryInv(Apply(policy, s, Commit(t)))
  {
    var s' := Apply(policy, s, Commit(t));
    forall i | 0 <= i < |s'.table|
      ensures CountIf(s'.ticks, CommittedAck(i)) == Indicator(s'.table[i].status.Published?)
           && CountIf(s'.ticks, CommittedFail(i)) == s'.table[i].attempts
    {
      HistoryCommitRow(policy, s, t, i);
    }
  }

  lemma HistoryCommitRow(policy: Policy, s: State, t: nat, i: nat)
    requires TicksInv(policy, s) && HistoryInv(s) && i < |s.table|
    requires t < |s.ticks| && s.ticks[t].status.Open? && s.ticks[t].index == |s.ticks[t].batch|
    ensures var tk := s.ticks[t].(status := Committed, running := false);
      var row := Overlay(s.table, s.ticks[t].writes)[i];
      && CountIf(s.ticks[t := tk], CommittedAck(i)) == Indicator(row.status.Published?)
      && CountIf(s.ticks[t := tk], CommittedFail(i)) == row.attempts
  {
    var tk := s.ticks[t].(status := Committed, running := false);
    CommittedRow(policy, s, t, i);
    CountUpdate(s.ticks, t, tk, CommittedAck(i));
    CountUpdate(s.ticks, t, tk, CommittedFail(i));
  }

  /** A tick that is not committed, before or after a change, leaves the counts of committed ticks alone. */
  lemma HistoryOneTick(s: State, s': State, t: nat)
    requires HistoryInv(s) && t < |s.ticks| == |s'.ticks| && s'.table == s.table
    requires s'.ticks == s.ticks[t := s'.ticks[t]]
    requires !s.ticks[t].status.Committed? && !s'.ticks[t].status.Committed?
    ensures HistoryInv(s')
  {
    forall i | 0 <= i < |s'.table|
      ensures CountIf(s'.ticks, CommittedAck(i)) == Indicator(s'.table[i].status.Published?)
           && CountIf(s'.ticks, CommittedFail(i)) == s'.table[i].attempts
    {
      CountUpdate(s.ticks, t, s'.ticks[t], CommittedAck(i));
      CountUpdate(s.ticks, t, s'.ticks[t], CommittedFail(i));
    }
  }

  lemma HistoryFetch(policy: Policy, s: State, ids: seq<nat>)
    requires HistoryInv(s) && Enabled(policy, s, Fetch(ids))
    ensures HistoryInv(Apply(policy, s, Fetch(ids)))
  {
    var s' := Apply(policy, s, Fetch(ids));
    forall i | 0 <= i < |s'.table|
      ensures CountIf(s'.ticks, CommittedAck(i)) == Indicator(s'.table[i].status.Published?)
           && CountIf(s'.ticks, CommittedFail(i)) == s'.table[i].attempts
    {
      CountAppend(s.ticks, Fetched(s, ids), CommittedAck(i));
      CountAppend(s.ticks, Fetched(s, ids), CommittedFail(i));
    }
  }

  /** No tick or log entry is about a row that does not exist yet. */
  lemma NothingAboutNewRow(policy: Policy, s: State)
    requires TicksInv(policy, s) && LogInv(s)
    ensures var n := |s.table|;
      && CountIf(s.ticks, CommittedAck(n)) == 0 && CountIf(s.ticks, CommittedFail(n)) == 0
      && CountIf(s.ticks, HasAck(n)) == 0 && CountIf(s.log, AckOf(n)) == 0
  {
    var n := |s.table|;
    forall t | 0 <= t < |s.ticks| ensures n !in s.ticks[t].batch {
      assert TickOk(policy, s.table, s.now, s.ticks[t]);
    }
    forall t | 0 <= t < |s.ticks| ensures n !in s.ticks[t].acked && n !in s.ticks[t].failedAt {
      assert TickOk(policy, s.table, s.now, s.ticks[t]);
    }
    CountZero(s.ticks, CommittedAck(n));
    CountZero(s.ticks, CommittedFail(n));
    CountZero(s.ticks, HasAck(n));
    CountZero(s.log, AckOf(n));
  }

  lemma HistoryKept(policy: Policy, s: State, step: Step)
    requires TicksInv(policy, s) && HistoryInv(s) && LogInv(s) && ChangesInv(s) && Enabled(policy, s, step)
    ensures HistoryInv(Apply(policy, s, step))
  {
    var s' := Apply(policy, s, step);
    match step
    case Commit(t) => HistoryCommit(policy, s, t);
    case Fetch(ids) => HistoryFetch(policy, s, ids);
    case Emit(t, _) =>
      assert TickOk(policy, s.table, s.now, s.ticks[t]);
      HistoryOneTick(s, s', t);
    case Mark(t, _) => HistoryOneTick(s, s', t);
    case Rollback(t) => HistoryOneTick(s, s', t);
    case Settle(t) => HistoryOneTick(s, s', t);
    case CommitWrite(w) => NothingAboutNewRow(policy, s);
    case _ =>
  }

  // ---------------------------------------------------------------- log, audit and domain changes

  lemma LogOneTick(s: State, s': State, t: nat)
    requires LogInv(s) && t < |s.ticks| == |s'.ticks| && s'.log == s.log
    requires |s'.table| == |s.table| && forall i :: 0 <= i < |s.table| ==> s'.table[i].event == s.table[i].event
    requires s'.ticks == s.ticks[t := s'.ticks[t]] && s'.ticks[t].acked == s.ticks[t].acked
    ensures LogInv(s')
  {
    forall i | 0 <= i < |s'.table| ensures CountIf(s'.log, AckOf(i)) == CountIf(s'.ticks, HasAck(i)) {
      CountUpdate(s.ticks, t, s'.ticks[t], HasAck(i));
    }
  }

  lemma LogEmit(policy: Policy, s: State, t: nat, outcome: EmitOutcome)
    requires TicksInv(policy, s) && LogInv(s) && Enabled(policy, s, Emit(t, outcome))
    ensures LogInv(Apply(policy, s, Emit(t, outcome)))
  {
    var s' := Apply(policy, s, Emit(t, outcome));
    var tk := s.ticks[t];
    assert TickOk(policy, s.table, s.now, tk);
    var id := tk.batch[tk.index];
    assert id !in tk.acked;
    forall i | 0 <= i < |s'.table| ensures CountIf(s'.log, AckOf(i)) == CountIf(s'.ticks, HasAck(i)) {
      CountUpdate(s.ticks, t, s'.ticks[t], HasAck(i));
      CountAppend(s.log, Emission(id, s.table[id].event, outcome.Resolved?), AckOf(i));
    }
  }

  lemma LogCommit(policy: Policy, s: State, t: nat)
    requires TicksInv(policy, s) && LogInv(s) && Enabled(policy, s, Commit(t))
    ensures LogInv(Apply(policy, s, Commit(t)))
  {
    var s' := Apply(policy, s, Commit(t));
    forall i | 0 <= i < |s.table| ensures s'.table[i].event == s.table[i].event {
      CommittedRow(policy, s, t, i);
    }
    LogOneTick(s, s', t);
  }

  lemma LogFetch(policy: Policy, s: State, ids: seq<nat>)
    requires LogInv(s) && Enabled(policy, s, Fetch(ids))
    ensures LogInv(Apply(policy, s, Fetch(ids)))
  {
    var s' := Apply(policy, s, Fetch(ids));
    forall i | 0 <= i < |s'.table| ensures CountIf(s'.log, AckOf(i)) == CountIf(s'.ticks, HasAck(i)) {
      CountAppend(s.ticks, Fetched(s, ids), HasAck(i));
    }
  }

  lemma LogKept(policy: Policy, s: State, step: Step)
    requires TicksInv(policy, s) && LogInv(s) && ChangesInv(s) && Enabled(policy, s, step)
    ensures LogInv(Apply(policy, s, step))
  {
    match step
    case Emit(t, outcome) => LogEmit(policy, s, t, outcome);
    case Mark(t, _) => LogOneTick(s, Apply(policy, s, step), t);
    case Rollback(t) => LogOneTick(s, Apply(policy, s, step), t);
    case Settle(t) => LogOneTick(s, Apply(policy, s, step), t);
    case Commit(t) => LogCommit(policy, s, t);
    case Fetch(ids) => LogFetch(policy, s, ids);
    case CommitWrite(w) => LogNewRow(policy, s, w);
    case _ =>
  }

  lemma LogNewRow(policy: Policy, s: State, w: nat)
    requires TicksInv(policy, s) && LogInv(s) && ChangesInv(s) && Enabled(policy, s, CommitWrite(w))
    ensures LogInv(Apply(policy, s, CommitWrite(w)))
  {
    NothingAboutNewRow(policy, s);
  }

  lemma AuditKept(policy: Policy, s: State, step: Step)
    requires AuditInv(s) && Enabled(policy, s, step)
    ensures AuditInv(Apply(policy, s, step))
  {
    var s' := Apply(policy, s, step);
    forall event | Logged(s, event) ensures Logged(s', event) {
      var k :| 0 <= k < |s.log| && s.log[k].event == event;
      assert s'.log[k].event == event;
    }
  }

  lemma ChangesKept(policy: Policy, s: State, step: Step)
    requires TicksInv(policy, s) && ChangesInv(s) && Enabled(policy, s, step)
    ensures ChangesInv(Apply(policy, s, step))
  {
    var s' := Apply(policy, s, step);
    if step.Commit? {
      forall i | 0 <= i < |s.table| ensures s'.table[i].event == s.table[i].event {
        CommittedRow(policy, s, step.t, i);
      }
    }
  }

  // ---------------------------------------------------------------- retry times

  /** One more failure, marked at `at`, of a row that was due by then. */
  lemma TimingFailed(policy: Policy, firstFail: map<nat, nat>, i: nat, row: Row, error: string, at: nat)
    requires TimingOk(policy, firstFail, i, row) && Due(row, at)
    ensures TimingOk(policy, map[i := at] + firstFail, i, FailedRow(policy, row, row.attempts, error, at))
  {
  }

  /** Other rows' first failures do not matter. */
  lemma TimingSame(policy: Policy, firstFail: map<nat, nat>, firstFail': map<nat, nat>, i: nat, row: Row)
    requires TimingOk(policy, firstFail, i, row)
    requires i in firstFail <==> i in firstFail'
    requires i in firstFail ==> firstFail'[i] == firstFail[i]
    ensures TimingOk(policy, firstFail', i, row)
  {
  }

  lemma TimingCommit(policy: Policy, s: State, t: nat, i: nat)
    requires TicksInv(policy, s) && TimingInv(policy, s) && i < |s.table|
    requires t < |s.ticks| && s.ticks[t].status.Open? && s.ticks[t].index == |s.ticks[t].batch|
    ensures var tk := s.ticks[t];
      TimingOk(policy, tk.failedAt + s.firstFail, i, Overlay(s.table, tk.writes)[i])
  {
    var tk, row := s.ticks[t], s.table[i];
    var row', firstFail' := Overlay(s.table, tk.writes)[i], tk.failedAt + s.firstFail;
    assert TimingOk(policy, s.firstFail, i, row);
    CommittedRow(policy, s, t, i);
    if i in tk.batch && i in tk.failedAt {
      TimingFailed(policy, s.firstFail, i, row, tk.writes[i].lastError.value, tk.failedAt[i]);
      TimingSame(policy, map[i := tk.failedAt[i]] + s.firstFail, firstFail', i, row');
    } else {
      TimingPublished(policy, s.firstFail, i, row, row');
      TimingSame(policy, s.firstFail, firstFail', i, row');
    }
  }

  /** A row that stays, or is published, has the same attempts and first failure. */
  lemma TimingPublished(policy: Policy, firstFail: map<nat, nat>, i: nat, row: Row, row': Row)
    requires TimingOk(policy, firstFail, i, row)
    requires row' == row || (row'.publishedAt.Some? && row' == PublishedRow(row, row'.publishedAt.value))
    ensures TimingOk(policy, firstFail, i, row')
  {
  }

  lemma TimingKept(policy: Policy, s: State, step: Step)
    requires TicksInv(policy, s) && TimingInv(policy, s) && FirstFailInv(s) && ChangesInv(s)
    requires Enabled(policy, s, step)
    ensures TimingInv(policy, Apply(policy, s, step)) && FirstFailInv(Apply(policy, s, step))
  {
    match step
    case Commit(t) =>
      forall i | 0 <= i < |s.table|
        ensures var s' := Apply(policy, s, step); TimingOk(policy, s'.firstFail, i, s'.table[i])
      {
        TimingCommit(policy, s, t, i);
      }
      assert TickOk(policy, s.table, s.now, s.ticks[t]);
    case CommitWrite(w) =>
      assert TimingOk(policy, s.firstFail, |s.table|, s.writers[w].row.value);
    case _ =>
  }

  // ---------------------------------------------------------------- whole runs

  lemma NextInv(policy: Policy, s: State, step: Step)
    requires policy.Valid() && Inv(policy, s)
    ensures Inv(policy, Next(policy, s, step))
  {
    if Enabled(policy, s, step) {
      TicksKept(policy, s, step);
      RowsKept(policy, s, step);
      HistoryKept(policy, s, step);
      LogKept(policy, s, step);
      AuditKept(policy, s, step);
      ChangesKept(policy, s, step);
      TimingKept(policy, s, step);
    }
  }

  lemma {:induction false} RunInv(policy: Policy, s: State, steps: seq<Step>)
    requires policy.Valid() && Inv(policy, s)
    ensures Inv(policy, Run(policy, s, steps))
    decreases |steps|
  {
    if steps != [] {
      NextInv(policy, s, steps[0]);
      RunInv(policy, Next(policy, s, steps[0]), steps[1..]);
    }
  }
}
