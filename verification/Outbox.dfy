/**
 The outbox table and one relay tick run on its own: `PrismaOutboxStore` and `RelayOutboxUseCase`.
 A table is a sequence of rows; a row's id is its position, since rows are never deleted.
 The functions on rows are the statements the interleaved model in `OutboxSystem` uses too.
 */
module Outbox {
  import opened Prelude
  import opened Backoff

  datatype Status = Pending | Published | Failed

  datatype Row = Row(
    event: nat,
    createdAt: nat,
    status: Status,
    attempts: nat,
    nextAttemptAt: Option<nat>,
    lastError: Option<string>,
    publishedAt: Option<nat>,
    failedAt: Option<nat>)

  /** OUTBOX_BATCH_SIZE, OUTBOX_MAX_ATTEMPTS, OUTBOX_BACKOFF_BASE_MS and OUTBOX_BACKOFF_CAP_MS. */
  datatype Policy = Policy(batchSize: nat, maxAttempts: nat, baseMs: nat, capMs: nat) {
    predicate Valid() {
      batchSize >= 1 && maxAttempts >= 1 && baseMs >= 1 && capMs >= 1
    }
  }

  /** What a relay reads about a row it has locked. */
  datatype Record = Record(id: nat, event: nat, attempts: nat)

  function NewRow(event: nat, createdAt: nat): Row {
    Row(event, createdAt, Pending, 0, None, None, None, None)
  }

  predicate Due(row: Row, now: nat) {
    row.status.Pending? && (row.nextAttemptAt.None? || row.nextAttemptAt.value <= now)
  }

  function PublishedRow(row: Row, now: nat): Row {
    row.(status := Published, publishedAt := Some(now))
  }

  /** The row after a failed emission: quarantined at the last attempt, else put off. */
  function FailedRow(policy: Policy, row: Row, attempts: nat, error: string, now: nat): Row {
    if attempts + 1 >= policy.maxAttempts then
      row.(status := Failed, attempts := attempts + 1, lastError := Some(error), failedAt := Some(now))
    else
      row.(attempts := attempts + 1, lastError := Some(error),
           nextAttemptAt := Some(now + ComputeBackoff(attempts, policy.baseMs, policy.capMs)))
  }

  predicate Distinct(ids: seq<nat>) {
    forall j, k :: 0 <= j < k < |ids| ==> ids[j] != ids[k]
  }

  /** `ids` may be fetched from `rows` by a transaction that starts at `now` while others hold `locked`. */
  ghost predicate IsFetch(rows: seq<Row>, locked: set<nat>, now: nat, limit: nat, ids: seq<nat>) {
    && |ids| <= limit
    && Distinct(ids)
    && (forall k :: 0 <= k < |ids| ==> ids[k] < |rows| && Due(rows[ids[k]], now) && ids[k] !in locked)
    && (forall j, k :: 0 <= j < k < |ids| ==> rows[ids[j]].createdAt <= rows[ids[k]].createdAt)
    && (forall i :: 0 <= i < |rows| && Due(rows[i], now) && i !in locked && i !in ids ==>
          |ids| == limit && forall k :: 0 <= k < |ids| ==> rows[ids[k]].createdAt <= rows[i].createdAt)
  }

  /** `ids` are due and unlocked, oldest first, and no other such row is older than any of them. */
  ghost predicate OldestSoFar(rows: seq<Row>, locked: set<nat>, now: nat, ids: seq<nat>) {
    && Distinct(ids)
    && (forall k :: 0 <= k < |ids| ==> ids[k] < |rows| && Due(rows[ids[k]], now) && ids[k] !in locked)
    && (forall j, k :: 0 <= j < k < |ids| ==> rows[ids[j]].createdAt <= rows[ids[k]].createdAt)
    && (forall i, k :: 0 <= i < |rows| && Due(rows[i], now) && i !in locked && i !in ids && 0 <= k < |ids| ==>
          rows[ids[k]].createdAt <= rows[i].createdAt)
  }

  lemma OldestNext(rows: seq<Row>, locked: set<nat>, now: nat, ids: seq<nat>, best: nat)
    requires OldestSoFar(rows, locked, now, ids)
    requires best < |rows| && Due(rows[best], now) && best !in locked && best !in ids
    requires forall i :: 0 <= i < |rows| && Due(rows[i], now) && i !in locked && i !in ids ==>
      rows[best].createdAt <= rows[i].createdAt
    ensures OldestSoFar(rows, locked, now, ids + [best])
  {
  }

  class OutboxStore {
    const policy: Policy
    var rows: seq<Row>

    constructor (policy: Policy)
      ensures this.policy == policy && rows == []
    {
      this.policy := policy;
      rows := [];
    }

    /** INSERT of a PENDING row; the unique `eventId` rejects a second row for one event. */
    method Add(event: nat, now: nat) returns (ok: bool)
      modifies this`rows
      ensures ok <==> forall i :: 0 <= i < |old(rows)| ==> old(rows)[i].event != event
      ensures rows == if ok then old(rows) + [Row(event, now, Pending, 0, None, None, None, None)] else old(rows)
    {
      ok := true;
      for i := 0 to |rows|
        invariant rows == old(rows)
        invariant ok <==> forall j :: 0 <= j < i ==> rows[j].event != event
      {
        if rows[i].event == event { ok := false; }
      }
      if ok {
        rows := rows + [NewRow(event, now)];
      }
    }

    /** The oldest row that is due, not locked and not yet in `ids`, if there is one. */
    method Oldest(locked: set<nat>, now: nat, ids: seq<nat>) returns (best: Option<nat>)
      ensures best.None? ==> forall i :: 0 <= i < |rows| && Due(rows[i], now) && i !in locked ==> i in ids
      ensures best.Some? ==>
        && best.value < |rows| && Due(rows[best.value], now)
        && best.value !in locked && best.value !in ids
        && forall i :: 0 <= i < |rows| && Due(rows[i], now) && i !in locked && i !in ids ==>
             rows[best.value].createdAt <= rows[i].createdAt
    {
      best := None;
      for i := 0 to |rows|
        invariant best.None? ==> forall j :: 0 <= j < i && Due(rows[j], now) && j !in locked ==> j in ids
        invariant best.Some? ==>
          && best.value < i && Due(rows[best.value], now)
          && best.value !in locked && best.value !in ids
          && forall j :: 0 <= j < i && Due(rows[j], now) && j !in locked && j !in ids ==>
               rows[best.value].createdAt <= rows[j].createdAt
      {
        if Due(rows[i], now) && i !in locked && i !in ids
           && (best.None? || rows[i].createdAt < rows[best.value].createdAt) {
          best := Some(i);
        }
      }
    }

    /**
     SELECT ... WHERE due ORDER BY createdAt LIMIT n FOR UPDATE SKIP LOCKED: unlocked PENDING rows whose retry time,
     if they have one, has come; and whatever else is such a row is no older, and is left for want of room only.
     */
    method FetchPending(limit: nat, locked: set<nat>, now: nat) returns (records: seq<Record>, ids: seq<nat>)
      ensures IsFetch(rows, locked, now, limit, ids)
      ensures forall i :: 0 <= i < |rows| && i in ids ==>
        && i !in locked && rows[i].status.Pending?
        && (rows[i].nextAttemptAt.Some? ==> rows[i].nextAttemptAt.value <= now)
      ensures forall j, k :: 0 <= j < k < |ids| ==> rows[ids[j]].createdAt <= rows[ids[k]].createdAt
      ensures forall i :: 0 <= i < |rows| && i !in ids && i !in locked && rows[i].status.Pending?
                          && (rows[i].nextAttemptAt.Some? ==> rows[i].nextAttemptAt.value <= now) ==>
        |ids| == limit && forall k :: 0 <= k < |ids| ==> rows[ids[k]].createdAt <= rows[i].createdAt
      ensures |records| == |ids|
      ensures forall k :: 0 <= k < |ids| ==>
        records[k] == Record(ids[k], rows[ids[k]].event, rows[ids[k]].attempts)
    {
      ids, records := [], [];
      var more := true;
      while |ids| < limit && more
        invariant |records| == |ids| <= limit
        invariant OldestSoFar(rows, locked, now, ids)
        invariant forall k :: 0 <= k < |ids| ==>
          records[k] == Record(ids[k], rows[ids[k]].event, rows[ids[k]].attempts)
        invariant !more ==> forall i :: 0 <= i < |rows| && Due(rows[i], now) && i !in locked ==> i in ids
        decreases limit - |ids|, more
      {
        var best := Oldest(locked, now, ids);
        if best.None? {
          more := false;
        } else {
          OldestNext(rows, locked, now, ids, best.value);
          records := records + [Record(best.value, rows[best.value].event, rows[best.value].attempts)];
          ids := ids + [best.value];
        }
      }
    }

    method MarkPublished(id: nat, now: nat)
      requires id < |rows|
      modifies this`rows
      ensures rows == old(rows)[id := old(rows)[id].(status := Published, publishedAt := Some(now))]
    {
      rows := rows[id := rows[id].(status := Published, publishedAt := Some(now))];
    }

    /** The last failure quarantines the row; another leaves its status and puts it off by a doubling wait, up to the cap. */
    method MarkFailed(id: nat, attempts: nat, error: string, now: nat) returns (quarantined: bool)
      requires id < |rows|
      modifies this`rows
      ensures rows == old(rows)[id := FailedRow(policy, old(rows)[id], attempts, error, now)]
      ensures quarantined <==> attempts + 1 >= policy.maxAttempts
      ensures rows[id].attempts == attempts + 1 && rows[id].lastError == Some(error)
      ensures rows[id].status == (if quarantined then Failed else old(rows)[id].status)
      ensures rows[id].failedAt == (if quarantined then Some(now) else old(rows)[id].failedAt)
      ensures rows[id].nextAttemptAt == (if quarantined then old(rows)[id].nextAttemptAt
                                         else Some(now + Min(policy.baseMs * Pow2(attempts), policy.capMs)))
    {
      var nextAttempts := attempts + 1;
      if nextAttempts >= policy.maxAttempts {
        rows := rows[id := rows[id].(status := Failed, attempts := nextAttempts,
                                     lastError := Some(error), failedAt := Some(now))];
        return true;
      }
      var delayMs := ComputeBackoff(attempts, policy.baseMs, policy.capMs);
      rows := rows[id := rows[id].(attempts := nextAttempts, lastError := Some(error),
                                   nextAttemptAt := Some(now + delayMs))];
      return false;
    }
  }

  /** How one call of `publishOrThrow` ends: it can also reject although the broker kept the message. */
  datatype EmitOutcome = Resolved | RejectedButKept | Rejected

  class EventPublisher {
    var log: seq<nat>

    method PublishOrThrow(event: nat, outcome: EmitOutcome) returns (resolved: bool)
      modifies this`log
      ensures resolved <==> outcome.Resolved?
      ensures log == if outcome.Rejected? then old(log) else old(log) + [event]
    {
      if !outcome.Rejected? {
        log := log + [event];
      }
      resolved := outcome.Resolved?;
    }
  }

  /** What the outside world does during one row's turn of a tick. */
  datatype Turn = Turn(outcome: EmitOutcome, error: string, markAt: nat, statementFails: bool)

  function MarkedRow(policy: Policy, row: Row, turn: Turn): Row {
    if turn.outcome.Resolved? then PublishedRow(row, turn.markAt)
    else FailedRow(policy, row, row.attempts, turn.error, turn.markAt)
  }

  function ApplyTurn(policy: Policy, rows: seq<Row>, id: nat, turn: Turn): seq<Row>
    requires id < |rows|
  {
    rows[id := MarkedRow(policy, rows[id], turn)]
  }

  /** The table as one tick's transaction sees it after `k` turns. */
  function AfterTurns(policy: Policy, rows: seq<Row>, ids: seq<nat>, turns: nat -> Turn, k: nat): (r: seq<Row>)
    requires k <= |ids|
    requires forall j :: 0 <= j < |ids| ==> ids[j] < |rows|
    ensures |r| == |rows|
  {
    if k == 0 then rows
    else
      ApplyTurn(policy, AfterTurns(policy, rows, ids, turns, k - 1), ids[k - 1], turns(k - 1))
  }

  function Emitted(rows: seq<Row>, ids: seq<nat>, turns: nat -> Turn, k: nat): seq<nat>
    requires k <= |ids|
    requires forall j :: 0 <= j < |ids| ==> ids[j] < |rows|
  {
    if k == 0 then []
    else Emitted(rows, ids, turns, k - 1)
         + (if turns(k - 1).outcome.Rejected? then [] else [rows[ids[k - 1]].event])
  }

  /** A tick marks each fetched row once, by its own turn, and touches no other row. */
  lemma {:induction false} AfterTurnsAt(policy: Policy, rows: seq<Row>, ids: seq<nat>, turns: nat -> Turn, k: nat)
    requires k <= |ids| && Distinct(ids)
    requires forall j :: 0 <= j < |ids| ==> ids[j] < |rows|
    ensures forall j :: 0 <= j < |ids| ==>
      AfterTurns(policy, rows, ids, turns, k)[ids[j]]
        == if j < k then MarkedRow(policy, rows[ids[j]], turns(j)) else rows[ids[j]]
    ensures forall i :: 0 <= i < |rows| && i !in ids ==> AfterTurns(policy, rows, ids, turns, k)[i] == rows[i]
  {
    if k > 0 {
      AfterTurnsAt(policy, rows, ids, turns, k - 1);
    }
  }

  /**
   A retry comes exactly when its wait is over: after a failed emission marked at `at`, with `a` failures before it, a
   fetch with room left takes the row if and only if an attempt remains and the wait, doubled `a` times, has passed.
   */
  lemma RetriedExactlyAfterItsWait(policy: Policy, rows: seq<Row>, id: nat, error: string, at: nat,
                                   locked: set<nat>, now: nat, limit: nat, ids: seq<nat>)
    requires id < |rows| && rows[id].status.Pending? && id !in locked && |ids| < limit
    requires IsFetch(rows[id := FailedRow(policy, rows[id], rows[id].attempts, error, at)], locked, now, limit, ids)
    ensures var a := rows[id].attempts;
      id in ids <==> a + 1 < policy.maxAttempts && now >= at + Min(policy.baseMs * Pow2(a), policy.capMs)
  {
    var rows' := rows[id := FailedRow(policy, rows[id], rows[id].attempts, error, at)];
    assert rows'[id].status.Pending? <==> rows[id].attempts + 1 < policy.maxAttempts;
  }

  class RelayOutbox {
    const store: OutboxStore
    const publisher: EventPublisher

    constructor (store: OutboxStore, publisher: EventPublisher)
      ensures this.store == store && this.publisher == publisher
    {
      this.store, this.publisher := store, publisher;
    }

    /** One row's turn: emit, then mark. False when the marking statement failed. */
    method TakeTurn(row: Record, turn: Turn) returns (ok: bool)
      requires row.id < |store.rows| && row.attempts == store.rows[row.id].attempts
      modifies store`rows, publisher`log
      ensures ok <==> !turn.statementFails
      ensures publisher.log == old(publisher.log) + (if turn.outcome.Rejected? then [] else [row.event])
      ensures store.rows == if ok then ApplyTurn(store.policy, old(store.rows), row.id, turn) else old(store.rows)
      ensures ok && turn.outcome.Resolved? ==>
        store.rows[row.id] == old(store.rows)[row.id].(status := Published, publishedAt := Some(turn.markAt))
      ensures ok && !turn.outcome.Resolved? ==>
        && store.rows[row.id].attempts == row.attempts + 1 && store.rows[row.id].lastError == Some(turn.error)
        && (old(store.rows)[row.id].status.Pending? ==>
              (store.rows[row.id].status.Failed? <==> row.attempts + 1 >= store.policy.maxAttempts))
    {
      var resolved := publisher.PublishOrThrow(row.event, turn.outcome);
      ok := !turn.statementFails;
      if ok {
        if resolved {
          store.MarkPublished(row.id, turn.markAt);
        } else {
          var _ := store.MarkFailed(row.id, row.attempts, turn.error, turn.markAt);
        }
      }
    }

    /** The loop over the fetched rows. It stops at the first failed statement, whose error leaves the callback. */
    method RunBatch(records: seq<Record>, ghost ids: seq<nat>, turns: nat -> Turn) returns (ok: bool, done: nat)
      requires Distinct(ids) && |records| == |ids|
      requires forall k :: 0 <= k < |ids| ==> ids[k] < |store.rows|
      requires forall k :: 0 <= k < |ids| ==>
        records[k] == Record(ids[k], store.rows[ids[k]].event, store.rows[ids[k]].attempts)
      modifies store`rows, publisher`log
      ensures done <= |ids| && (ok ==> done == |ids|)
      ensures publisher.log == old(publisher.log) + Emitted(old(store.rows), ids, turns, done)
      ensures ok <==> forall k :: 0 <= k < |ids| ==> !turns(k).statementFails
      ensures ok ==> store.rows == AfterTurns(store.policy, old(store.rows), ids, turns, |ids|)
    {
      ghost var before := store.rows;
      done, ok := 0, true;
      while done < |records| && ok
        invariant done <= |records|
        invariant ok ==> store.rows == AfterTurns(store.policy, before, ids, turns, done)
        invariant ok <==> forall k :: 0 <= k < done ==> !turns(k).statementFails
        invariant publisher.log == old(publisher.log) + Emitted(before, ids, turns, done)
      {
        var row, turn := records[done], turns(done);
        assert row.id < |store.rows| && row.attempts == store.rows[row.id].attempts by {
          AfterTurnsAt(store.policy, before, ids, turns, done);
        }
        ok := TakeTurn(row, turn);
        done := done + 1;
      }
    }

    /**
     One tick, one transaction. A failed statement or a failed commit rolls every mark back;
     what was emitted stays emitted.
     */
    method Execute(locked: set<nat>, now: nat, turns: nat -> Turn, commitFails: bool)
      returns (committed: bool, ids: seq<nat>, done: nat)
      modifies store`rows, publisher`log
      ensures IsFetch(old(store.rows), locked, now, store.policy.batchSize, ids)
      ensures done <= |ids|
      ensures publisher.log == old(publisher.log) + Emitted(old(store.rows), ids, turns, done)
      ensures committed <==> !commitFails && forall k :: 0 <= k < |ids| ==> !turns(k).statementFails
      ensures committed ==> done == |ids|
      ensures store.rows == if committed then AfterTurns(store.policy, old(store.rows), ids, turns, |ids|)
                                         else old(store.rows)
    {
      var before := store.rows;
      var records;
      records, ids := store.FetchPending(store.policy.batchSize, locked, now);
      committed, done := RunBatch(records, ids, turns);
      committed := committed && !commitFails;
      if !committed {
        store.rows := before;
      }
    }
  }
}
