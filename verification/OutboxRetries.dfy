/** When a row is tried again, over every run of `OutboxSystem`. */
module OutboxRetries {
  import opened Prelude
  import opened Backoff
  import opened Outbox
  import opened OutboxSystem
  import opened OutboxProofs
  import opened OutboxTheorems

  /** When tick `t` failed row `i`, if it did and its transaction committed. */
  ghost function FailedAt(s: State, t: nat, i: nat): Option<nat> {
    if t < |s.ticks| && s.ticks[t].status.Committed? && i in s.ticks[t].failedAt then Some(s.ticks[t].failedAt[i]) else None
  }

  /** The retry time of a row that failed is one wait after its last failure. */
  ghost predicate RetryOk(policy: Policy, s: State, i: nat)
    requires i < |s.table|
  {
    var row := s.table[i];
    row.status.Pending? && row.attempts >= 1 ==>
      && row.nextAttemptAt.Some?
      && var last := row.nextAttemptAt.value - ComputeBackoff(row.attempts - 1, policy.baseMs, policy.capMs);
      && (exists t: nat :: FailedAt(s, t, i).Some? && FailedAt(s, t, i).value == last)
      && (forall t: nat :: FailedAt(s, t, i).Some? ==> FailedAt(s, t, i).value <= last)
  }

  ghost predicate RetryInv(policy: Policy, s: State) {
    forall i :: 0 <= i < |s.table| ==> RetryOk(policy, s, i)
  }

  /** A row that no committed tick has newly failed keeps its retry time. */
  lemma RetrySame(policy: Policy, s: State, s': State, i: nat)
    requires i < |s.table| && i < |s'.table| && s'.table[i] == s.table[i] && RetryOk(policy, s, i)
    requires forall t: nat :: FailedAt(s', t, i) == FailedAt(s, t, i)
    ensures RetryOk(policy, s', i)
  {
    if s.table[i].status.Pending? && s.table[i].attempts >= 1 {
      var last := s.table[i].nextAttemptAt.value - ComputeBackoff(s.table[i].attempts - 1, policy.baseMs, policy.capMs);
      var t: nat :| FailedAt(s, t, i).Some? && FailedAt(s, t, i).value == last;
      assert FailedAt(s', t, i).Some? && FailedAt(s', t, i).value == last;
    }
  }

  /** An earlier failure lies before the fetch of the row. */
  lemma EarlierFailure(policy: Policy, s: State, u: nat, i: nat, startedAt: nat)
    requires HistoryInv(s) && i < |s.table| && RetryOk(policy, s, i)
    requires FailedAt(s, u, i).Some? && Due(s.table[i], startedAt)
    ensures FailedAt(s, u, i).value <= startedAt
  {
    CountPositive(s.ticks, CommittedFail(i), u);
  }

  /** A commit adds its own failures. */
  lemma CommitFailures(policy: Policy, s: State, t: nat, u: nat, i: nat)
    requires Enabled(policy, s, Commit(t))
    ensures FailedAt(Apply(policy, s, Commit(t)), u, i)
         == if u == t && i in s.ticks[t].failedAt then Some(s.ticks[t].failedAt[i]) else FailedAt(s, u, i)
  {
  }

  /** The row after a failure that comes after all others, `at`. */
  lemma RetryFailed(policy: Policy, s': State, row: Row, error: string, at: nat, t: nat, i: nat)
    requires i < |s'.table| && s'.table[i] == FailedRow(policy, row, row.attempts, error, at)
    requires FailedAt(s', t, i) == Some(at) && row.status.Pending?
    requires forall u: nat :: FailedAt(s', u, i).Some? ==> FailedAt(s', u, i).value <= at
    ensures RetryOk(policy, s', i)
  {
  }

  lemma RetryCommit(policy: Policy, s: State, t: nat, i: nat)
    requires TicksInv(policy, s) && HistoryInv(s) && i < |s.table| && RetryOk(policy, s, i)
    requires Enabled(policy, s, Commit(t))
    ensures RetryOk(policy, Apply(policy, s, Commit(t)), i)
  {
    var s', tk := Apply(policy, s, Commit(t)), s.ticks[t];
    CommittedRow(policy, s, t, i);
    forall u: nat
      ensures FailedAt(s', u, i) == if u == t && i in tk.failedAt then Some(tk.failedAt[i]) else FailedAt(s, u, i)
    {
      CommitFailures(policy, s, t, u, i);
    }
    if i in tk.failedAt {
      forall u: nat | FailedAt(s', u, i).Some? ensures FailedAt(s', u, i).value <= tk.failedAt[i] {
        if u != t { EarlierFailure(policy, s, u, i, tk.startedAt); }
      }
      RetryFailed(policy, s', s.table[i], tk.writes[i].lastError.value, tk.failedAt[i], t, i);
    } else if i !in tk.batch {
      RetrySame(policy, s, s', i);
    }
  }

  /** Every other step leaves the committed failures alone. */
  lemma FailuresSame(policy: Policy, s: State, step: Step, u: nat, i: nat)
    requires Enabled(policy, s, step) && !step.Commit?
    ensures FailedAt(Apply(policy, s, step), u, i) == FailedAt(s, u, i)
  {
  }

  lemma NextRetry(policy: Policy, s: State, step: Step)
    requires policy.Valid() && Inv(policy, s) && RetryInv(policy, s)
    ensures RetryInv(policy, Next(policy, s, step))
  {
    if Enabled(policy, s, step) {
      var s' := Apply(policy, s, step);
      forall i | 0 <= i < |s'.table| ensures RetryOk(policy, s', i) {
        if i < |s.table| {
          if step.Commit? {
            RetryCommit(policy, s, step.t, i);
          } else {
            forall u: nat ensures FailedAt(s', u, i) == FailedAt(s, u, i) { FailuresSame(policy, s, step, u, i); }
            RetrySame(policy, s, s', i);
          }
        }
      }
    }
  }

  lemma {:induction false} RunRetry(policy: Policy, s: State, steps: seq<Step>)
    requires policy.Valid() && Inv(policy, s) && RetryInv(policy, s)
    ensures RetryInv(policy, Run(policy, s, steps))
    decreases |steps|
  {
    if steps != [] {
      NextInv(policy, s, steps[0]);
      NextRetry(policy, s, steps[0]);
      RunRetry(policy, Next(policy, s, steps[0]), steps[1..]);
    }
  }

  /** Each committed failure of the row lies back by the wait that its number of attempts calls for. */
  ghost predicate WaitsAreOver(policy: Policy, s: State, i: nat)
    requires i < |s.table|
  {
    forall t :: 0 <= t < |s.ticks| && s.ticks[t].status.Committed? && i in s.ticks[t].failedAt && s.table[i].attempts > 0 ==>
      s.now >= s.ticks[t].failedAt[i] + Min(policy.baseMs * Pow2(s.table[i].attempts - 1), policy.capMs)
  }

  lemma DueIffWaitsAreOver(policy: Policy, s: State, i: nat)
    requires Inv(policy, s) && RetryInv(policy, s) && i < |s.table| && s.table[i].status.Pending?
    ensures Due(s.table[i], s.now) <==> WaitsAreOver(policy, s, i)
  {
    var row := s.table[i];
    assert RetryOk(policy, s, i) && TimingOk(policy, s.firstFail, i, row);
    if row.attempts > 0 {
      var last := row.nextAttemptAt.value - ComputeBackoff(row.attempts - 1, policy.baseMs, policy.capMs);
      var t: nat :| FailedAt(s, t, i).Some? && FailedAt(s, t, i).value == last;
      forall u | 0 <= u < |s.ticks| && s.ticks[u].status.Committed? && i in s.ticks[u].failedAt
        ensures s.ticks[u].failedAt[i] <= last
      {
        assert FailedAt(s, u, i).Some?;
      }
    }
  }

  /**
   In every reachable state, a fetch takes an unlocked row if and only if the row is PENDING and the wait is over since
   each of its committed failures, for a row that never failed at once; the limit alone can leave such a row for later,
   and then everything taken was created no later than it. What is taken comes oldest first.
   */
  lemma FetchedExactlyWhenWaitsAreOver(policy: Policy, past: seq<Step>, ids: seq<nat>, i: nat)
    requires var s := Run(policy, Empty, past);
      policy.Valid() && Enabled(policy, s, Fetch(ids)) && i < |s.table| && !IsLocked(s, i)
    ensures var s := Run(policy, Empty, past);
      var ready := s.table[i].status.Pending? && WaitsAreOver(policy, s, i);
      && (i in ids ==> ready)
      && (ready && |ids| < policy.batchSize ==> i in ids)
      && (ready && i !in ids ==> forall k :: 0 <= k < |ids| ==> s.table[ids[k]].createdAt <= s.table[i].createdAt)
      && (forall j, k :: 0 <= j < k < |ids| ==> s.table[ids[j]].createdAt <= s.table[ids[k]].createdAt)
  {
    var s := Run(policy, Empty, past);
    InitInv(policy);
    RunInv(policy, Empty, past);
    RunRetry(policy, Empty, past);
    if s.table[i].status.Pending? {
      DueIffWaitsAreOver(policy, s, i);
    }
    assert i !in Locked(s);
  }
}
