/** A relay tick run on its own, as `RelayOutbox.Execute` does it, is one of the interleavings of `OutboxSystem`. */
module OutboxRefinement {
  import opened Prelude
  import opened Outbox
  import opened OutboxSystem
  import opened OutboxTheorems

  ghost function Clock(now: nat, waits: nat -> nat, k: nat): nat {
    if k == 0 then now else Clock(now, waits, k - 1) + waits(k - 1)
  }

  /** Turn number `k` of tick `t`, counted from 1. */
  ghost function OneTurnSteps(t: nat, turns: nat -> Turn, waits: nat -> nat, k: nat): seq<Step>
    requires k > 0
  {
    [Emit(t, turns(k - 1).outcome), Elapse(waits(k - 1)), Mark(t, turns(k - 1).error)]
  }

  /** The first `k` turns of tick `t`, with nothing else in between but time. */
  ghost function Turns(t: nat, turns: nat -> Turn, waits: nat -> nat, k: nat): seq<Step> {
    if k == 0 then [] else Turns(t, turns, waits, k - 1) + OneTurnSteps(t, turns, waits, k)
  }

  ghost function Events(log: seq<Emission>): seq<nat> {
    seq(|log|, k requires 0 <= k < |log| => log[k].event)
  }

  /** The tick fetched in `s0` as it stands after `k` turns. */
  ghost predicate TickMidway(policy: Policy, s0: State, ids: seq<nat>, turns: nat -> Turn, k: nat, tk: Tick)
    requires k <= |ids| && forall j :: 0 <= j < |ids| ==> ids[j] < |s0.table|
  {
    && tk.batch == ids && tk.seen == Fetched(s0, ids).seen
    && tk.index == k && tk.phase.Ready? && tk.status.Open? && tk.running
    && (forall i :: i in tk.writes <==> i in ids[..k])
    && (forall j :: 0 <= j < k ==> ids[j] in tk.writes && tk.writes[ids[j]] == MarkedRow(policy, s0.table[ids[j]], turns(j)))
  }

  /** `s` is what `Fetch(ids)` in `s0` followed by `k` turns leads to. */
  ghost predicate Midway(policy: Policy, s0: State, ids: seq<nat>, turns: nat -> Turn, waits: nat -> nat, k: nat, s: State)
    requires k <= |ids| && forall j :: 0 <= j < |ids| ==> ids[j] < |s0.table|
  {
    && s.table == s0.table
    && s.now == Clock(s0.now, waits, k)
    && |s.ticks| == |s0.ticks| + 1
    && Events(s.log) == Events(s0.log) + Emitted(s0.table, ids, turns, k)
    && TickMidway(policy, s0, ids, turns, k, s.ticks[|s0.ticks|])
  }

  lemma RunThree(policy: Policy, s: State, a: Step, b: Step, c: Step)
    ensures Run(policy, s, [a, b, c]) == Next(policy, Next(policy, Next(policy, s, a), b), c)
  {
    var s1 := Next(policy, s, a);
    var s2 := Next(policy, s1, b);
    assert [a, b, c][1..] == [b, c] && [b, c][1..] == [c] && [c][1..] == [];
    assert Run(policy, s2, [c]) == Run(policy, Next(policy, s2, c), []);
    assert Run(policy, s1, [b, c]) == Run(policy, s2, [c]);
  }

  /** One emission and its mark move a tick to its next row, with that row's mark written. */
  lemma TurnMark(policy: Policy, s0: State, tk: Tick, s2: State, i: nat, turn: Turn)
    requires tk.index < |tk.batch| == |tk.seen| && tk.batch[tk.index] == i < |s0.table|
    requires tk.seen[tk.index] == s0.table[i].attempts && tk.phase.Ready?
    requires s2.table == s0.table && s2.now == turn.markAt
    ensures var tk' := MarkedTick(policy, s2, EmittedTick(tk, turn.outcome), turn.error);
      && tk'.writes == tk.writes[i := MarkedRow(policy, s0.table[i], turn)]
      && tk'.batch == tk.batch && tk'.seen == tk.seen && tk'.index == tk.index + 1 && tk'.phase.Ready?
      && tk'.status == tk.status && tk'.running == tk.running
  {
  }

  lemma TurnTick(policy: Policy, s0: State, ids: seq<nat>, turns: nat -> Turn, k: nat, tk: Tick, s2: State)
    requires 0 < k <= |ids| && Distinct(ids) && forall j :: 0 <= j < |ids| ==> ids[j] < |s0.table|
    requires TickMidway(policy, s0, ids, turns, k - 1, tk)
    requires s2.table == s0.table && s2.now == turns(k - 1).markAt
    ensures TickMidway(policy, s0, ids, turns, k,
                       MarkedTick(policy, s2, EmittedTick(tk, turns(k - 1).outcome), turns(k - 1).error))
  {
    var last := ids[k - 1];
    var tk' := MarkedTick(policy, s2, EmittedTick(tk, turns(k - 1).outcome), turns(k - 1).error);
    TurnMark(policy, s0, tk, s2, last, turns(k - 1));
    TurnWrites(policy, s0, ids, turns, k, tk.writes, tk'.writes);
  }

  /** The marks after turn `k`. */
  lemma TurnWrites(policy: Policy, s0: State, ids: seq<nat>, turns: nat -> Turn, k: nat,
                   writes: map<nat, Row>, writes': map<nat, Row>)
    requires 0 < k <= |ids| && Distinct(ids) && forall j :: 0 <= j < |ids| ==> ids[j] < |s0.table|
    requires forall i :: i in writes <==> i in ids[..k - 1]
    requires forall j :: 0 <= j < k - 1 ==> writes[ids[j]] == MarkedRow(policy, s0.table[ids[j]], turns(j))
    requires writes' == writes[ids[k - 1] := MarkedRow(policy, s0.table[ids[k - 1]], turns(k - 1))]
    ensures forall i :: i in writes' <==> i in ids[..k]
    ensures forall j :: 0 <= j < k ==>
      ids[j] in writes' && writes'[ids[j]] == MarkedRow(policy, s0.table[ids[j]], turns(j))
  {
    assert ids[..k] == ids[..k - 1] + [ids[k - 1]];
    forall j | 0 <= j < k
      ensures ids[j] in writes' && writes'[ids[j]] == MarkedRow(policy, s0.table[ids[j]], turns(j))
    {
      if j < k - 1 {
        assert ids[..k - 1][j] == ids[j];
        assert ids[j] in writes && ids[j] != ids[k - 1];
      }
    }
  }

  lemma TurnLog(s0: State, ids: seq<nat>, turns: nat -> Turn, k: nat, log: seq<Emission>)
    requires 0 < k <= |ids| && forall j :: 0 <= j < |ids| ==> ids[j] < |s0.table|
    requires Events(log) == Events(s0.log) + Emitted(s0.table, ids, turns, k - 1)
    ensures var e := Emission(ids[k - 1], s0.table[ids[k - 1]].event, turns(k - 1).outcome.Resolved?);
      Events(if turns(k - 1).outcome.Rejected? then log else log + [e])
        == Events(s0.log) + Emitted(s0.table, ids, turns, k)
  {
    var e := Emission(ids[k - 1], s0.table[ids[k - 1]].event, turns(k - 1).outcome.Resolved?);
    assert Events(log + [e]) == Events(log) + [e.event];
  }

  /** One turn, with the three states it goes through. */
  lemma TurnStates(policy: Policy, s: State, t: nat, turn: Turn, wait: nat) returns (s2: State, s3: State)
    requires t < |s.ticks| && s.ticks[t].running && s.ticks[t].status.Open? && s.ticks[t].phase.Ready?
    requires s.ticks[t].index < |s.ticks[t].batch| == |s.ticks[t].seen|
    requires s.ticks[t].batch[s.ticks[t].index] < |s.table|
    ensures s3 == Run(policy, s, [Emit(t, turn.outcome), Elapse(wait), Mark(t, turn.error)])
    ensures s2.table == s.table && s2.now == s.now + wait && s3.table == s.table && s3.now == s2.now
    ensures |s3.ticks| == |s.ticks|
    ensures s3.ticks[t] == MarkedTick(policy, s2, EmittedTick(s.ticks[t], turn.outcome), turn.error)
    ensures var i := s.ticks[t].batch[s.ticks[t].index];
      s3.log == if turn.outcome.Rejected? then s.log
                else s.log + [Emission(i, s.table[i].event, turn.outcome.Resolved?)]
  {
    RunThree(policy, s, Emit(t, turn.outcome), Elapse(wait), Mark(t, turn.error));
    var s1 := Apply(policy, s, Emit(t, turn.outcome));
    s2 := Next(policy, s1, Elapse(wait));
    assert Enabled(policy, s2, Mark(t, turn.error));
    s3 := Next(policy, s2, Mark(t, turn.error));
  }

  lemma TurnRun(policy: Policy, s0: State, ids: seq<nat>, turns: nat -> Turn, waits: nat -> nat, k: nat, s: State)
    returns (s3: State)
    requires 0 < k <= |ids| && Distinct(ids) && forall j :: 0 <= j < |ids| ==> ids[j] < |s0.table|
    requires s.table == s0.table && |s.ticks| == |s0.ticks| + 1
    requires TickMidway(policy, s0, ids, turns, k - 1, s.ticks[|s0.ticks|])
    requires turns(k - 1).markAt == s.now + waits(k - 1)
    ensures s3 == Run(policy, s, OneTurnSteps(|s0.ticks|, turns, waits, k))
    ensures s3.table == s.table && s3.now == s.now + waits(k - 1) && |s3.ticks| == |s.ticks|
    ensures TickMidway(policy, s0, ids, turns, k, s3.ticks[|s0.ticks|])
    ensures s3.log == if turns(k - 1).outcome.Rejected? then s.log
                      else s.log + [Emission(ids[k - 1], s0.table[ids[k - 1]].event, turns(k - 1).outcome.Resolved?)]
  {
    var tk := s.ticks[|s0.ticks|];
    assert tk.batch == ids && |tk.seen| == |ids| && tk.index == k - 1 && tk.phase.Ready? && tk.status.Open? && tk.running;
    var s2;
    s2, s3 := TurnStates(policy, s, |s0.ticks|, turns(k - 1), waits(k - 1));
    TurnTick(policy, s0, ids, turns, k, tk, s2);
  }

  lemma OneTurn(policy: Policy, s0: State, ids: seq<nat>, turns: nat -> Turn, waits: nat -> nat, k: nat, s: State)
    returns (s3: State)
    requires 0 < k <= |ids| && Distinct(ids) && forall j :: 0 <= j < |ids| ==> ids[j] < |s0.table|
    requires Midway(policy, s0, ids, turns, waits, k - 1, s)
    requires turns(k - 1).markAt == Clock(s0.now, waits, k)
    ensures s3 == Run(policy, s, OneTurnSteps(|s0.ticks|, turns, waits, k))
    ensures Midway(policy, s0, ids, turns, waits, k, s3)
  {
    s3 := TurnRun(policy, s0, ids, turns, waits, k, s);
    TurnLog(s0, ids, turns, k, s.log);
  }

  lemma FetchMidway(policy: Policy, s0: State, ids: seq<nat>, turns: nat -> Turn, waits: nat -> nat)
    requires Enabled(policy, s0, Fetch(ids))
    ensures Midway(policy, s0, ids, turns, waits, 0, Apply(policy, s0, Fetch(ids)))
  {
    assert Events(s0.log) == Events(s0.log) + [];
  }

  lemma {:induction false} AllTurns(policy: Policy, s0: State, ids: seq<nat>, turns: nat -> Turn, waits: nat -> nat,
                                    k: nat, s: State) returns (r: State)
    requires k <= |ids| && Distinct(ids) && forall j :: 0 <= j < |ids| ==> ids[j] < |s0.table|
    requires Midway(policy, s0, ids, turns, waits, 0, s)
    requires forall j :: 0 < j <= k ==> turns(j - 1).markAt == Clock(s0.now, waits, j)
    ensures r == Run(policy, s, Turns(|s0.ticks|, turns, waits, k))
    ensures Midway(policy, s0, ids, turns, waits, k, r)
  {
    if k == 0 {
      r := s;
    } else {
      var mid := AllTurns(policy, s0, ids, turns, waits, k - 1, s);
      r := OneTurn(policy, s0, ids, turns, waits, k, mid);
      RunConcat(policy, s, Turns(|s0.ticks|, turns, waits, k - 1), OneTurnSteps(|s0.ticks|, turns, waits, k));
    }
  }

  /**
   From any state, a fetch, all its turns and the commit leave exactly the table, and have emitted
   exactly the events, that `RelayOutbox.Execute` promises for the same rows, ids and turns.
   */
  lemma SerialTickIsARun(policy: Policy, s0: State, ids: seq<nat>, turns: nat -> Turn, waits: nat -> nat)
    requires Enabled(policy, s0, Fetch(ids))
    requires forall j :: 0 < j <= |ids| ==> turns(j - 1).markAt == Clock(s0.now, waits, j)
    ensures var t := |s0.ticks|;
      var s := Run(policy, s0, [Fetch(ids)] + Turns(t, turns, waits, |ids|) + [Commit(t)]);
      && s.table == AfterTurns(policy, s0.table, ids, turns, |ids|)
      && Events(s.log) == Events(s0.log) + Emitted(s0.table, ids, turns, |ids|)
      && |s.ticks| == t + 1 && s.ticks[t].status.Committed?
  {
    var t, steps := |s0.ticks|, Turns(|s0.ticks|, turns, waits, |ids|);
    FetchMidway(policy, s0, ids, turns, waits);
    var full := AllTurns(policy, s0, ids, turns, waits, |ids|, Apply(policy, s0, Fetch(ids)));
    FetchFirst(policy, s0, ids, steps);
    RunConcat(policy, s0, [Fetch(ids)] + steps, [Commit(t)]);
    CommitLast(policy, full, t);
    CommitMidway(policy, s0, ids, turns, full.ticks[t]);
  }

  lemma FetchFirst(policy: Policy, s: State, ids: seq<nat>, steps: seq<Step>)
    requires Enabled(policy, s, Fetch(ids))
    ensures Run(policy, s, [Fetch(ids)] + steps) == Run(policy, Apply(policy, s, Fetch(ids)), steps)
  {
    assert ([Fetch(ids)] + steps)[1..] == steps;
  }

  lemma CommitLast(policy: Policy, s: State, t: nat)
    requires Enabled(policy, s, Commit(t))
    ensures var s' := Run(policy, s, [Commit(t)]);
      && s'.table == Overlay(s.table, s.ticks[t].writes) && s'.log == s.log
      && |s'.ticks| == |s.ticks| && s'.ticks[t].status.Committed?
  {
    assert [Commit(t)][1..] == [];
    assert Run(policy, s, [Commit(t)]) == Run(policy, Next(policy, s, Commit(t)), []);
  }

  lemma CommitMidway(policy: Policy, s0: State, ids: seq<nat>, turns: nat -> Turn, tk: Tick)
    requires Distinct(ids) && forall j :: 0 <= j < |ids| ==> ids[j] < |s0.table|
    requires TickMidway(policy, s0, ids, turns, |ids|, tk)
    ensures Overlay(s0.table, tk.writes) == AfterTurns(policy, s0.table, ids, turns, |ids|)
  {
    var after := AfterTurns(policy, s0.table, ids, turns, |ids|);
    AfterTurnsAt(policy, s0.table, ids, turns, |ids|);
    assert ids[..|ids|] == ids;
    forall i | 0 <= i < |s0.table| ensures Overlay(s0.table, tk.writes)[i] == after[i] {
      if i in ids {
        var j :| 0 <= j < |ids| && ids[j] == i;
        assert tk.writes[ids[j]] == MarkedRow(policy, s0.table[ids[j]], turns(j));
      }
    }
  }

  // ---------------------------------------------------------------- ticks that roll back

  /** The last turn of a tick whose marking statement fails: the emission only. */
  ghost function LastEmission(t: nat, turns: nat -> Turn, k: nat, stopped: bool): seq<Step> {
    if stopped then [Emit(t, turns(k).outcome)] else []
  }

  lemma EmissionOnly(policy: Policy, s0: State, ids: seq<nat>, turns: nat -> Turn, waits: nat -> nat, k: nat, s: State)
    returns (s': State)
    requires k < |ids| && forall j :: 0 <= j < |ids| ==> ids[j] < |s0.table|
    requires Midway(policy, s0, ids, turns, waits, k, s)
    ensures s' == Run(policy, s, [Emit(|s0.ticks|, turns(k).outcome)])
    ensures s'.table == s0.table && |s'.ticks| == |s0.ticks| + 1
    ensures s'.ticks[|s0.ticks|].status.Open? && s'.ticks[|s0.ticks|].running
    ensures Events(s'.log) == Events(s0.log) + Emitted(s0.table, ids, turns, k + 1)
  {
    var tk := s.ticks[|s0.ticks|];
    assert tk.batch == ids && tk.index == k && tk.phase.Ready? && tk.status.Open? && tk.running;
    s' := EmitState(policy, s, |s0.ticks|, turns(k).outcome);
    EmissionLog(s0, ids, turns, k, s.log, s'.log);
  }

  lemma EmissionLog(s0: State, ids: seq<nat>, turns: nat -> Turn, k: nat, log: seq<Emission>, log': seq<Emission>)
    requires k < |ids| && forall j :: 0 <= j < |ids| ==> ids[j] < |s0.table|
    requires Events(log) == Events(s0.log) + Emitted(s0.table, ids, turns, k)
    requires log' == if turns(k).outcome.Rejected? then log
                     else log + [Emission(ids[k], s0.table[ids[k]].event, turns(k).outcome.Resolved?)]
    ensures Events(log') == Events(s0.log) + Emitted(s0.table, ids, turns, k + 1)
  {
    TurnLog(s0, ids, turns, k + 1, log);
  }

  lemma EmitState(policy: Policy, s: State, t: nat, outcome: EmitOutcome) returns (s': State)
    requires t < |s.ticks| && s.ticks[t].running && s.ticks[t].phase.Ready?
    requires s.ticks[t].index < |s.ticks[t].batch| && s.ticks[t].batch[s.ticks[t].index] < |s.table|
    ensures s' == Run(policy, s, [Emit(t, outcome)])
    ensures s'.table == s.table && |s'.ticks| == |s.ticks|
    ensures s'.ticks[t].status == s.ticks[t].status && s'.ticks[t].running
    ensures var i := s.ticks[t].batch[s.ticks[t].index];
      s'.log == if outcome.Rejected? then s.log else s.log + [Emission(i, s.table[i].event, outcome.Resolved?)]
  {
    s' := Next(policy, s, Emit(t, outcome));
    assert [Emit(t, outcome)][1..] == [];
    assert Run(policy, s, [Emit(t, outcome)]) == Run(policy, s', []);
  }

  lemma RolledBackLast(policy: Policy, s: State, t: nat)
    requires t < |s.ticks| && s.ticks[t].status.Open? && s.ticks[t].running
    ensures var s' := Run(policy, s, [Rollback(t), Settle(t)]);
      && s'.table == s.table && s'.log == s.log && |s'.ticks| == |s.ticks|
      && s'.ticks[t].status.RolledBack? && !s'.ticks[t].running
  {
    assert [Rollback(t), Settle(t)][1..] == [Settle(t)] && [Settle(t)][1..] == [];
    var s1 := Next(policy, s, Rollback(t));
    assert Run(policy, s1, [Settle(t)]) == Run(policy, Next(policy, s1, Settle(t)), []);
  }

  /**
   A tick that does not commit, as `RelayOutbox.Execute` promises it: after `k` full turns it stops, at once because
   its commit fails, or after one more emission because that row's statement fails. The table is as before, what was
   emitted stays emitted, and the tick is over.
   */
  lemma RolledBackTickIsARun(policy: Policy, s0: State, ids: seq<nat>, turns: nat -> Turn, waits: nat -> nat,
                             k: nat, stopped: bool)
    requires Enabled(policy, s0, Fetch(ids))
    requires if stopped then k < |ids| else k == |ids|
    requires forall j :: 0 < j <= k ==> turns(j - 1).markAt == Clock(s0.now, waits, j)
    ensures var t, done := |s0.ticks|, if stopped then k + 1 else k;
      var steps := [Fetch(ids)] + Turns(t, turns, waits, k) + LastEmission(t, turns, k, stopped) + [Rollback(t), Settle(t)];
      var s := Run(policy, s0, steps);
      && s.table == s0.table
      && Events(s.log) == Events(s0.log) + Emitted(s0.table, ids, turns, done)
      && |s.ticks| == t + 1 && s.ticks[t].status.RolledBack? && !s.ticks[t].running
  {
    var t := |s0.ticks|;
    var full, last := Turns(t, turns, waits, k), LastEmission(t, turns, k, stopped);
    FetchMidway(policy, s0, ids, turns, waits);
    var s1 := AllTurns(policy, s0, ids, turns, waits, k, Apply(policy, s0, Fetch(ids)));
    FetchFirst(policy, s0, ids, full);
    RunConcat(policy, s0, [Fetch(ids)] + full, last);
    RunConcat(policy, s0, [Fetch(ids)] + full + last, [Rollback(t), Settle(t)]);
    var s2 := s1;
    if stopped {
      s2 := EmissionOnly(policy, s0, ids, turns, waits, k, s1);
    }
    RolledBackLast(policy, s2, t);
  }
}
