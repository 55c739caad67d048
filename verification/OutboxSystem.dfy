/**
 Any number of use cases, relay ticks and audit deliveries, interleaved one awaited call at a time.
 A run is a sequence of steps from the empty state; a step that is not enabled changes nothing,
 so every sequence of steps is a run and every interleaving is one of them.
 */
module OutboxSystem {
  import opened Prelude
  import opened Backoff
  import opened Outbox
  import I = IdempotentStores

  /** Where a tick stands with its current row: before the emission, or after it resolved or rejected. */
  datatype Phase = Ready | Acked | Refused

  datatype TickStatus = Open | Committed | RolledBack

  /**
   One tick of one relay. `writes` are the marks its transaction has made but not committed.
   `running` says the callback still executes: it can outlive its transaction (a timeout, a lost
   connection) until its next statement fails.
   `acked` and `failedAt` record what its emissions came to.
   */
  datatype Tick = Tick(
    startedAt: nat,
    batch: seq<nat>,
    seen: seq<nat>,
    index: nat,
    phase: Phase,
    status: TickStatus,
    running: bool,
    writes: map<nat, Row>,
    acked: set<nat>,
    failedAt: map<nat, nat>)

  /** A use case's transaction; its event id is fresh, namely its position among the writers. */
  datatype Writer = Writer(row: Option<Row>, open: bool, committed: bool)

  datatype Emission = Emission(row: nat, event: nat, acked: bool)

  /**
   `table`, `changes` and `audit` are committed database contents, `log` is the broker's log.
   `firstFail` records when a row's first committed failure was marked.
   */
  datatype State = State(
    now: nat,
    table: seq<Row>,
    changes: seq<nat>,
    writers: seq<Writer>,
    ticks: seq<Tick>,
    log: seq<Emission>,
    audit: seq<nat>,
    firstFail: map<nat, nat>)

  datatype Step =
    | Elapse(ms: nat)
    | BeginWrite
    | StageRow(w: nat, createdAt: nat)
    | CommitWrite(w: nat)
    | AbortWrite(w: nat)
    | Fetch(ids: seq<nat>)
    | Emit(t: nat, outcome: EmitOutcome)
    | Mark(t: nat, error: string)
    | Commit(t: nat)
    | Rollback(t: nat)
    | Settle(t: nat)
    | Deliver(k: nat)

  const Empty := State(0, [], [], [], [], [], [], map[])

  ghost predicate IsLocked(s: State, i: nat) {
    exists t :: 0 <= t < |s.ticks| && s.ticks[t].status.Open? && i in s.ticks[t].batch
  }

  ghost function Locked(s: State): set<nat> {
    set i | 0 <= i < |s.table| && IsLocked(s, i)
  }

  ghost predicate Enabled(policy: Policy, s: State, step: Step) {
    match step
    case Elapse(_) => true
    case BeginWrite => true
    case StageRow(w, _) => w < |s.writers| && s.writers[w].open && s.writers[w].row.None?
    case CommitWrite(w) => w < |s.writers| && s.writers[w].open && s.writers[w].row.Some?
    case AbortWrite(w) => w < |s.writers| && s.writers[w].open
    case Fetch(ids) => IsFetch(s.table, Locked(s), s.now, policy.batchSize, ids)
    case Emit(t, _) => t < |s.ticks| && s.ticks[t].running && s.ticks[t].phase.Ready?
                       && s.ticks[t].index < |s.ticks[t].batch| && s.ticks[t].batch[s.ticks[t].index] < |s.table|
    case Mark(t, _) => t < |s.ticks| && s.ticks[t].status.Open? && !s.ticks[t].phase.Ready?
                       && s.ticks[t].index < |s.ticks[t].batch| == |s.ticks[t].seen|
                       && s.ticks[t].batch[s.ticks[t].index] < |s.table|
    case Commit(t) => t < |s.ticks| && s.ticks[t].status.Open? && s.ticks[t].index == |s.ticks[t].batch|
    case Rollback(t) => t < |s.ticks| && s.ticks[t].status.Open?
    case Settle(t) => t < |s.ticks| && s.ticks[t].status.RolledBack? && s.ticks[t].running
    case Deliver(k) => k < |s.log|
  }

  ghost function Fetched(s: State, ids: seq<nat>): Tick
    requires forall k :: 0 <= k < |ids| ==> ids[k] < |s.table|
  {
    Tick(s.now, ids, seq(|ids|, k requires 0 <= k < |ids| => s.table[ids[k]].attempts),
         0, Ready, Open, true, map[], {}, map[])
  }

  ghost function EmittedTick(tk: Tick, outcome: EmitOutcome): Tick
    requires tk.index < |tk.batch|
  {
    if outcome.Resolved? then tk.(phase := Acked, acked := tk.acked + {tk.batch[tk.index]})
    else tk.(phase := Refused)
  }

  ghost function MarkedTick(policy: Policy, s: State, tk: Tick, error: string): Tick
    requires tk.index < |tk.batch| == |tk.seen| && tk.batch[tk.index] < |s.table|
  {
    var i := tk.batch[tk.index];
    if tk.phase.Acked? then
      tk.(index := tk.index + 1, phase := Ready, writes := tk.writes[i := PublishedRow(s.table[i], s.now)])
    else
      tk.(index := tk.index + 1, phase := Ready,
          writes := tk.writes[i := FailedRow(policy, s.table[i], tk.seen[tk.index], error, s.now)],
          failedAt := tk.failedAt[i := s.now])
  }

  ghost function Overlay(table: seq<Row>, writes: map<nat, Row>): (r: seq<Row>)
    ensures |r| == |table|
    ensures forall i :: 0 <= i < |table| ==> r[i] == if i in writes then writes[i] else table[i]
  {
    seq(|table|, i requires 0 <= i < |table| => if i in writes then writes[i] else table[i])
  }

  ghost function Apply(policy: Policy, s: State, step: Step): State
    requires Enabled(policy, s, step)
  {
    match step
    case Elapse(ms) => s.(now := s.now + ms)
    case BeginWrite => s.(writers := s.writers + [Writer(None, true, false)])
    case StageRow(w, createdAt) => s.(writers := s.writers[w := Writer(Some(NewRow(w, createdAt)), true, false)])
    case CommitWrite(w) =>
      s.(table := s.table + [s.writers[w].row.value], changes := s.changes + [w],
         writers := s.writers[w := s.writers[w].(open := false, committed := true)])
    case AbortWrite(w) => s.(writers := s.writers[w := s.writers[w].(open := false)])
    case Fetch(ids) => s.(ticks := s.ticks + [Fetched(s, ids)])
    case Emit(t, outcome) =>
      var i := s.ticks[t].batch[s.ticks[t].index];
      s.(ticks := s.ticks[t := EmittedTick(s.ticks[t], outcome)],
         log := if outcome.Rejected? then s.log
                else s.log + [Emission(i, s.table[i].event, outcome.Resolved?)])
    case Mark(t, error) => s.(ticks := s.ticks[t := MarkedTick(policy, s, s.ticks[t], error)])
    case Commit(t) =>
      s.(table := Overlay(s.table, s.ticks[t].writes),
         ticks := s.ticks[t := s.ticks[t].(status := Committed, running := false)],
         firstFail := s.ticks[t].failedAt + s.firstFail)
    case Rollback(t) => s.(ticks := s.ticks[t := s.ticks[t].(status := RolledBack, writes := map[])])
    case Settle(t) => s.(ticks := s.ticks[t := s.ticks[t].(running := false)])
    case Deliver(k) => s.(audit := I.AddId(s.audit, s.log[k].event))
  }

  ghost function Next(policy: Policy, s: State, step: Step): State {
    if Enabled(policy, s, step) then Apply(policy, s, step) else s
  }

  ghost function Run(policy: Policy, s: State, steps: seq<Step>): State
    decreases |steps|
  {
    if steps == [] then s else Run(policy, Next(policy, s, steps[0]), steps[1..])
  }

  // ---------------------------------------------------------------- invariant

  /** The record a tick keeps is about its own batch, up to the row it has reached. */
  ghost predicate TickShape(rows: nat, now: nat, tk: Tick) {
    && |tk.seen| == |tk.batch|
    && Distinct(tk.batch)
    && tk.index <= |tk.batch|
    && (!tk.phase.Ready? ==> tk.index < |tk.batch|)
    && (forall k :: 0 <= k < |tk.batch| ==> tk.batch[k] < rows)
    && tk.startedAt <= now
    && (tk.status.Open? ==> tk.running)
    && (tk.status.Committed? ==> !tk.running && tk.index == |tk.batch|)
    && (forall i :: i in tk.acked ==> i in tk.batch)
    && (forall i :: i in tk.failedAt ==> i in tk.batch)
    && (forall k :: 0 <= k < |tk.batch| ==> (tk.batch[k] in tk.acked <==>
          (k < tk.index && tk.batch[k] !in tk.failedAt) || (k == tk.index && tk.phase.Acked?)))
    && (forall k :: tk.index <= k < |tk.batch| ==> tk.batch[k] !in tk.failedAt)
  }

  /** A mark that an open tick has made to `row`. */
  ghost predicate WriteShape(policy: Policy, now: nat, tk: Tick, i: nat, row: Row)
    requires i in tk.writes
  {
    var w := tk.writes[i];
    if i in tk.failedAt then
      && tk.startedAt <= tk.failedAt[i] <= now
      && w.lastError.Some?
      && w == FailedRow(policy, row, row.attempts, w.lastError.value, tk.failedAt[i])
    else
      && w.publishedAt.Some?
      && w == PublishedRow(row, w.publishedAt.value)
  }

  /** While a tick is open its rows stay as it fetched them, and its marks are exactly the turns taken. */
  ghost predicate OpenShape(policy: Policy, table: seq<Row>, now: nat, tk: Tick)
    requires TickShape(|table|, now, tk)
  {
    tk.status.Open? ==>
      && (forall k :: 0 <= k < |tk.batch| ==>
            Due(table[tk.batch[k]], tk.startedAt) && table[tk.batch[k]].attempts == tk.seen[k])
      && (forall k :: 0 <= k < |tk.batch| ==> (tk.batch[k] in tk.writes <==> k < tk.index))
      && (forall i :: i in tk.writes ==> i in tk.batch && WriteShape(policy, now, tk, i, table[i]))
  }

  ghost predicate TickOk(policy: Policy, table: seq<Row>, now: nat, tk: Tick) {
    TickShape(|table|, now, tk) && OpenShape(policy, table, now, tk)
  }

  ghost predicate TicksInv(policy: Policy, s: State) {
    forall t :: 0 <= t < |s.ticks| ==> TickOk(policy, s.table, s.now, s.ticks[t])
  }

  /** No row is locked by two open ticks. */
  ghost predicate LocksInv(s: State) {
    forall t, u, i :: 0 <= t < u < |s.ticks| && s.ticks[t].status.Open? && s.ticks[u].status.Open? ==>
      !(i in s.ticks[t].batch && i in s.ticks[u].batch)
  }

  ghost predicate RowOk(policy: Policy, row: Row) {
    && row.attempts <= policy.maxAttempts
    && (row.status.Failed? <==> row.attempts == policy.maxAttempts)
  }

  ghost predicate RowsInv(policy: Policy, s: State) {
    forall i :: 0 <= i < |s.table| ==> RowOk(policy, s.table[i])
  }

  ghost function HasAck(i: nat): Tick -> bool { (tk: Tick) => i in tk.acked }
  ghost function CommittedAck(i: nat): Tick -> bool { (tk: Tick) => tk.status.Committed? && i in tk.acked }
  ghost function CommittedFail(i: nat): Tick -> bool { (tk: Tick) => tk.status.Committed? && i in tk.failedAt }
  ghost function OpenFetch(i: nat): Tick -> bool { (tk: Tick) => tk.status.Open? && i in tk.batch }
  ghost function RolledBackFetch(i: nat): Tick -> bool { (tk: Tick) => tk.status.RolledBack? && i in tk.batch }
  ghost function AckOf(i: nat): Emission -> bool { (e: Emission) => e.acked && e.row == i }

  /** A row was published by exactly one committed tick, or by none; its attempts count the ticks that failed it. */
  ghost predicate HistoryInv(s: State) {
    forall i :: 0 <= i < |s.table| ==>
      && CountIf(s.ticks, CommittedAck(i)) == Indicator(s.table[i].status.Published?)
      && CountIf(s.ticks, CommittedFail(i)) == s.table[i].attempts
  }

  ghost predicate LogInv(s: State) {
    && (forall k :: 0 <= k < |s.log| ==> s.log[k].row < |s.table| && s.log[k].event == s.table[s.log[k].row].event)
    && (forall i :: 0 <= i < |s.table| ==> CountIf(s.log, AckOf(i)) == CountIf(s.ticks, HasAck(i)))
  }

  ghost predicate Logged(s: State, event: nat) {
    exists k :: 0 <= k < |s.log| && s.log[k].event == event
  }

  ghost predicate AuditInv(s: State) {
    && Distinct(s.audit)
    && (forall a :: 0 <= a < |s.audit| ==> Logged(s, s.audit[a]))
  }

  /** Domain changes and outbox rows were committed together, one for one. */
  ghost predicate ChangesInv(s: State) {
    && |s.changes| == |s.table|
    && (forall i :: 0 <= i < |s.table| ==> s.table[i].event == s.changes[i])
    && Distinct(s.changes)
    && (forall i :: 0 <= i < |s.changes| ==> s.changes[i] < |s.writers| && s.writers[s.changes[i]].committed)
    && (forall w :: 0 <= w < |s.writers| ==> !(s.writers[w].open && s.writers[w].committed))
    && (forall w :: 0 <= w < |s.writers| && s.writers[w].row.Some? ==>
          s.writers[w].row.value == NewRow(w, s.writers[w].row.value.createdAt))
  }

  /** Retries of a row are no closer together than the policy's waits, counted from its first failure. */
  ghost predicate TimingOk(policy: Policy, firstFail: map<nat, nat>, i: nat, row: Row) {
    && (i in firstFail <==> row.attempts >= 1)
    && (row.status.Pending? && row.attempts == 0 ==> row.nextAttemptAt.None?)
    && (row.status.Pending? && row.attempts >= 1 ==>
          && row.nextAttemptAt.Some?
          && row.nextAttemptAt.value >= firstFail[i] + TotalBackoff(row.attempts, policy.baseMs, policy.capMs))
    && (row.status.Failed? ==>
          && row.attempts >= 1
          && row.failedAt.Some?
          && row.failedAt.value >= firstFail[i] + TotalBackoff(row.attempts - 1, policy.baseMs, policy.capMs))
  }

  ghost predicate TimingInv(policy: Policy, s: State) {
    forall i :: 0 <= i < |s.table| ==> TimingOk(policy, s.firstFail, i, s.table[i])
  }

  ghost predicate FirstFailInv(s: State) {
    forall i :: i in s.firstFail ==> i < |s.table|
  }

  ghost predicate Inv(policy: Policy, s: State) {
    && TicksInv(policy, s)
    && LocksInv(s)
    && RowsInv(policy, s)
    && HistoryInv(s)
    && LogInv(s)
    && AuditInv(s)
    && ChangesInv(s)
    && TimingInv(policy, s)
    && FirstFailInv(s)
  }
}
