/** How far the value of a `ShadowCounter` key can be from the rows it shadows, from its birth on. */
module ShadowDrift {
  import opened Prelude
  import opened RedisKeys
  import opened ShadowCounter

  ghost predicate Creates(s: State, step: Step) {
    step.Backfill? && Enabled(s, step) && s.key.None?
  }

  /**
   The drift a fresh key is born with: the transitions that committed before COUNT and have still to
   step, less the ones that committed after COUNT and have stepped (or lost their step) before SET NX.
   */
  ghost function Straddle(s: State, r: nat): int
    requires r < |s.readers| && s.readers[r].opsAt <= |s.ops|
  {
    var k := s.readers[r].opsAt;
    SumOf(s.ops[..k], WaitingDelta()) - SumOf(s.ops[k..], DoneDelta())
  }

  lemma {:induction false} SumSplit(ops: seq<Op>, k: nat, f: Op -> int)
    requires k <= |ops|
    ensures SumOf(ops, f) == SumOf(ops[..k], f) + SumOf(ops[k..], f)
    decreases |ops| - k
  {
    if k == |ops| {
      assert ops[..k] == ops;
    } else {
      var n := |ops| - 1;
      SumSplit(ops[..n], k, f);
      assert ops[..n][..k] == ops[..k];
      assert ops[k..][..|ops[k..]| - 1] == ops[..n][k..];
    }
  }

  lemma {:induction false} WaitingPlusDone(ops: seq<Op>)
    ensures SumOf(ops, Delta()) == SumOf(ops, WaitingDelta()) + SumOf(ops, DoneDelta())
  {
    if ops != [] {
      WaitingPlusDone(ops[..|ops| - 1]);
    }
  }

  lemma BirthDrift(s: State, step: Step)
    requires Inv(s) && Creates(s, step)
    ensures var s' := Next(s, step);
      && s'.key.Some? && s'.key.value.expiresAt == s.now + 3600
      && Drift(s') == Straddle(s, step.r)
  {
    var k := s.readers[step.r].opsAt;
    SumSplit(s.ops, k, Delta());
    SumSplit(s.ops, k, WaitingDelta());
    WaitingPlusDone(s.ops[k..]);
  }

  /** The shifts of the steps from number `from` on. */
  ghost function Shifts(steps: seq<Step>, from: nat): int
    requires from <= |steps|
    decreases |steps|
  {
    if |steps| == from then 0
    else
      var n := |steps| - 1;
      Shifts(steps[..n], from) + Shift(Run(Empty, steps[..n]), steps[n])
  }

  /** Step number `i` created the key that is still there after the last step. */
  ghost predicate BornAt(steps: seq<Step>, i: nat) {
    && i < |steps|
    && Creates(At(steps, i), steps[i])
    && forall j :: i < j <= |steps| ==> At(steps, j).key.Some?
  }

  lemma AtPrefix(steps: seq<Step>, n: nat, i: nat)
    requires i <= n <= |steps|
    ensures At(steps[..n], i) == At(steps, i)
  {
    assert steps[..n][..i] == steps[..i];
  }

  /** The key after the run was born at step `i`, recently, and drifted from there by exactly the shifts. */
  ghost predicate Lawful(steps: seq<Step>, i: nat) {
    && BornAt(steps, i)
    && var birth, end := At(steps, i), Run(Empty, steps);
       && end.key.Some?
       && end.now < birth.now + 3600 == end.key.value.expiresAt
       && birth.readers[steps[i].r].opsAt <= |birth.ops|
       && Drift(end) == Straddle(birth, steps[i].r) + Shifts(steps, i + 1)
  }

  lemma LawfulAtBirth(steps: seq<Step>)
    requires steps != [] && Run(Empty, steps[..|steps| - 1]).key.None? && Run(Empty, steps).key.Some?
    ensures Lawful(steps, |steps| - 1)
  {
    var n := |steps| - 1;
    RunInv(Empty, steps[..n]);
    assert steps[..|steps|] == steps;
    BirthDrift(Run(Empty, steps[..n]), steps[n]);
  }

  lemma BornAfter(steps: seq<Step>, i: nat)
    requires steps != [] && BornAt(steps[..|steps| - 1], i) && Run(Empty, steps).key.Some?
    ensures BornAt(steps, i) && At(steps[..|steps| - 1], i) == At(steps, i)
  {
    var n := |steps| - 1;
    AtPrefix(steps, n, i);
    forall j | i < j <= |steps| ensures At(steps, j).key.Some? {
      KeyAfter(steps, i, j);
    }
  }

  lemma KeyAfter(steps: seq<Step>, i: nat, j: nat)
    requires steps != [] && BornAt(steps[..|steps| - 1], i) && Run(Empty, steps).key.Some? && i < j <= |steps|
    ensures At(steps, j).key.Some?
  {
    if j == |steps| {
      assert steps[..j] == steps;
    } else {
      assert At(steps[..|steps| - 1], j).key.Some?;
      AtPrefix(steps, |steps| - 1, j);
    }
  }

  lemma LawfulAfter(steps: seq<Step>, i: nat)
    requires steps != [] && Lawful(steps[..|steps| - 1], i) && Run(Empty, steps).key.Some?
    ensures Lawful(steps, i)
  {
    var n := |steps| - 1;
    var before, after := Run(Empty, steps[..n]), Run(Empty, steps);
    BornAfter(steps, i);
    assert Drift(after) == Drift(before) + Shift(before, steps[n])
        && after.key.value.expiresAt == before.key.value.expiresAt by {
      RunInv(Empty, steps[..n]);
      DriftStep(before, steps[n]);
    }
    assert after.now < after.key.value.expiresAt by {
      RunInv(Empty, steps);
    }
    assert Shifts(steps, i + 1) == Shifts(steps[..n], i + 1) + Shift(before, steps[n]);
  }

  /**
   The drift law, for every interleaving. A key that is there after a run was created by one backfill of
   that run, less than 3600 seconds before; its drift is what that backfill's straddling transitions left,
   moved by exactly the clamps and lost steps since.
   */
  lemma {:induction false} DriftLaw(steps: seq<Step>) returns (i: nat)
    requires Run(Empty, steps).key.Some?
    ensures Lawful(steps, i)
    decreases |steps|
  {
    var n := |steps| - 1;
    if Run(Empty, steps[..n]).key.None? {
      i := n;
      LawfulAtBirth(steps);
    } else {
      i := DriftLaw(steps[..n]);
      LawfulAfter(steps, i);
    }
  }

  /** Exactly when a key is exact while no step is waiting: what it was born with and what moved it since cancel out. */
  lemma ExactIffBalanced(steps: seq<Step>) returns (i: nat)
    requires Run(Empty, steps).key.Some? && SumOf(Run(Empty, steps).ops, WaitingDelta()) == 0
    ensures Lawful(steps, i)
    ensures Run(Empty, steps).key.value.value == Run(Empty, steps).truth
       <==> Straddle(At(steps, i), steps[i].r) + Shifts(steps, i + 1) == 0
  {
    i := DriftLaw(steps);
  }

  lemma {:induction false} ClockMonotone(steps: seq<Step>, i: nat, j: nat)
    requires i <= j <= |steps|
    ensures At(steps, i).now <= At(steps, j).now
  {
    if i < j {
      ClockMonotone(steps, i, j - 1);
      assert steps[..j][..j - 1] == steps[..j - 1];
    }
  }

  /** A lost counter step is forgotten within 3600 seconds: a key seen that late was born after the loss. */
  lemma LostStepHeals(steps: seq<Step>, f: nat) returns (i: nat)
    requires f < |steps| && steps[f].LoseStep?
    requires Run(Empty, steps).key.Some?
    requires Run(Empty, steps).now >= At(steps, f).now + 3600
    ensures Lawful(steps, i) && f < i
  {
    i := DriftLaw(steps);
    assert Creates(At(steps, i), steps[i]);
    if i <= f {
      ClockMonotone(steps, i, f);
    }
  }

  /** COUNT, then a transition that commits and steps, then SET NX: the key misses it although nothing failed. */
  lemma BackfillCanMissAnOp()
    ensures var s := Next(Next(Next(Next(Empty, Count), CommitOp(1, false)), StepCounter(0)), Backfill(0));
      s.truth == 1 && s.ops == [Op(1, false, Stepped)] && s.key == Some(Entry(0, COUNT_TTL_SEC)) && Drift(s) == -1
  {
    var s1 := Next(Next(Empty, Count), CommitOp(1, false));
    assert s1 == State(0, 1, None, [Op(1, false, Waiting)], [Reader(0, 0, true)]);
    var s3 := Next(Next(s1, StepCounter(0)), Backfill(0));
    assert s3.ops == [Op(1, false, Stepped)];
    assert [Op(1, false, Stepped)][..0] == [];
    assert SumOf([Op(1, false, Stepped)], WaitingDelta()) == 0;
  }

  // ---------------------------------------------------------------- what readers alone can do

  ghost predicate NothingWaits(s: State) {
    forall o :: 0 <= o < |s.ops| ==> !s.ops[o].progress.Waiting?
  }

  ghost predicate ReadersCurrent(s: State) {
    forall r :: 0 <= r < |s.readers| && s.readers[r].open ==> s.readers[r].count == s.truth
  }

  ghost predicate NoCommit(steps: seq<Step>) {
    forall i :: 0 <= i < |steps| ==> !steps[i].CommitOp?
  }

  ghost predicate KeyExact(s: State) { s.key.Some? ==> s.key.value.value == s.truth }

  /** However readers, expiry and evictions go on, and as long as nothing commits, a key that is there is exact. */
  ghost predicate RebuildsExactly(s: State) {
    forall steps: seq<Step> :: NoCommit(steps) ==> KeyExact(Run(s, steps))
  }

  lemma {:induction false} ExactRun(s: State, steps: seq<Step>)
    requires NothingWaits(s) && ReadersCurrent(s) && KeyExact(s) && NoCommit(steps)
    ensures var s' := Run(s, steps); NothingWaits(s') && ReadersCurrent(s') && KeyExact(s') && s'.truth == s.truth
    decreases |steps|
  {
    if steps != [] {
      var n := |steps| - 1;
      assert !steps[n].CommitOp?;
      ExactRun(s, steps[..n]);
    }
  }

  /** With no key and no step waiting, rebuilds are exact if and only if every reader under way counted the present rows. */
  lemma RebuildsExactlyIff(s: State)
    requires s.key.None? && NothingWaits(s)
    ensures RebuildsExactly(s) <==> ReadersCurrent(s)
  {
    if ReadersCurrent(s) {
      forall steps: seq<Step> | NoCommit(steps) ensures KeyExact(Run(s, steps)) {
        ExactRun(s, steps);
      }
    } else {
      var r :| 0 <= r < |s.readers| && s.readers[r].open && s.readers[r].count != s.truth;
      assert [Backfill(r)][..0] == [];
      assert Run(s, [Backfill(r)]) == Next(s, Backfill(r));
      assert !KeyExact(Run(s, [Backfill(r)]));
    }
  }
}
