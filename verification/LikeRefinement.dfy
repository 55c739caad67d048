/** Likes and unlikes served one at a time, as `LikeCounter` serves them, are interleavings of `LikeSystem`. */
module LikeRefinement {
  import opened Prelude
  import opened RedisKeys
  import opened LikeSystem
  import C = ShadowCounter
  import L = LikeCounter

  /** No transaction is open. */
  ghost predicate Idle(s: State) {
    forall x :: 0 <= x < |s.txs| ==> !s.txs[x].open
  }

  lemma RunLast(s: State, steps: seq<Step>, step: Step)
    ensures Run(s, steps + [step]) == Next(Run(s, steps), step)
  {
    assert (steps + [step])[..|steps|] == steps;
  }

  lemma RunOne(s: State, step: Step)
    ensures Run(s, [step]) == Next(s, step)
  {
    RunLast(s, [], step);
    assert [] + [step] == [step];
  }

  /** The transaction of one request, alone: it commits, with the LikeCreated row of a new like. */
  ghost function TxSteps(s: State, user: nat, like: bool): seq<Step> {
    var x := |s.txs|;
    [Begin(user, like), Write(x)] + (if like && user !in s.users then [StageEvent(x)] else []) + [CommitTx(x)]
  }

  /** The request changes something. */
  predicate Changes(s: State, user: nat, like: bool) { like <==> user !in s.users }

  ghost function Delta(like: bool): int { if like then 1 else -1 }

  lemma TxRun(s: State, user: nat, like: bool)
    requires Inv(s) && Idle(s)
    ensures var s' := Run(s, TxSteps(s, user, like));
      && Inv(s') && Idle(s')
      && s'.users == (if like then s.users + {user} else s.users - {user})
      && s'.events == s.events + (if like && user !in s.users then [user] else [])
      && s'.counter == (if Changes(s, user, like) then C.Next(s.counter, C.CommitOp(Delta(like), false)) else s.counter)
  {
    var x, changes := |s.txs|, Changes(s, user, like);
    RunInv(s, TxSteps(s, user, like));
    var s1 := Next(s, Begin(user, like));
    RunLast(s, [], Begin(user, like));
    var s2 := Next(s1, Write(x));
    RunLast(s, [Begin(user, like)], Write(x));
    StillFree(s, user, like);
    assert s2.txs[x] == Tx(user, like, Written(changes), true);
    var two := [Begin(user, like), Write(x)];
    assert [] + [Begin(user, like)] == [Begin(user, like)] && [Begin(user, like)] + [Write(x)] == two;
    if like && changes {
      RunLast(s, two, StageEvent(x));
      RunLast(s, two + [StageEvent(x)], CommitTx(x));
    } else {
      assert two + [] == two;
      RunLast(s, two, CommitTx(x));
    }
  }

  lemma StillFree(s: State, user: nat, like: bool)
    requires Idle(s)
    ensures !SlotLocked(Next(s, Begin(user, like)), user)
  {
  }

  /** The counter step of the last transition, made or lost, if there was a transition. */
  ghost function StepSteps(s: State, changed: bool, stepFails: bool): seq<Step> {
    var o := |s.counter.ops| - 1;
    if !changed || o < 0 then [] else [Counter(if stepFails then C.LoseStep(o) else C.StepCounter(o))]
  }

  /** The read: nothing more when the key answers, else COUNT and SET NX. */
  ghost function ReadSteps(s: State, readErrs: bool): seq<Step> {
    if s.counter.key.Some? && !readErrs then [] else [Counter(C.Count), Counter(C.Backfill(|s.counter.readers|))]
  }

  lemma StepRun(s: State, changed: bool, delta: int, stepFails: bool)
    requires changed ==> |s.counter.ops| > 0 && s.counter.ops[|s.counter.ops| - 1] == C.Op(delta, false, C.Waiting)
    ensures var s' := Run(s, StepSteps(s, changed, stepFails));
      && s' == s.(counter := s'.counter) && s'.counter.now == s.counter.now
      && s'.counter.key == L.KeyAfterStep(s.counter.key, delta, changed && !stepFails)
  {
    if changed {
      var o := |s.counter.ops| - 1;
      var step := if stepFails then C.LoseStep(o) else C.StepCounter(o);
      StepOnce(s.counter, delta, stepFails);
      RunOne(s, Counter(step));
      assert Next(s, Counter(step)) == s.(counter := C.Next(s.counter, step));
    }
  }

  lemma StepOnce(c: C.State, delta: int, stepFails: bool)
    requires |c.ops| > 0 && c.ops[|c.ops| - 1] == C.Op(delta, false, C.Waiting)
    ensures var o := |c.ops| - 1;
      var c' := C.Next(c, if stepFails then C.LoseStep(o) else C.StepCounter(o));
      c'.now == c.now && c'.key == L.KeyAfterStep(c.key, delta, !stepFails)
  {
  }

  lemma ReadRun(s: State, readErrs: bool)
    requires Inv(s)
    ensures var s' := Run(s, ReadSteps(s, readErrs));
      && s' == s.(counter := s'.counter) && s'.counter.now == s.counter.now
      && s'.counter.key == SetNx(s.counter.key, |s.users|, s.counter.now)
  {
    if s.counter.key.None? || readErrs {
      var count, fill := Counter(C.Count), Counter(C.Backfill(|s.counter.readers|));
      CountThenFill(s.counter);
      RunLast(s, [], count);
      RunLast(s, [count], fill);
      assert [] + [count] == [count];
      assert [count] + [fill] == ReadSteps(s, readErrs);
    }
  }

  lemma CountThenFill(c: C.State)
    ensures var c' := C.Next(C.Next(c, C.Count), C.Backfill(|c.readers|));
      c'.key == SetNx(c.key, c.truth, c.now) && c'.now == c.now
  {
  }

  lemma {:induction false} RunConcat(s: State, a: seq<Step>, b: seq<Step>)
    ensures Run(s, a + b) == Run(Run(s, a), b)
    decreases |b|
  {
    if b == [] {
      assert a + b == a;
    } else {
      var n := |b| - 1;
      RunConcat(s, a, b[..n]);
      assert a + b == (a + b[..n]) + [b[n]];
      RunLast(s, a + b[..n], b[n]);
    }
  }

  /**
   A like or unlike with nothing beside it: the run leaves rows, events and key as `LikeUseCases.LikePost` and
   `UnlikePost` promise them for the post, whether or not the counter step fails and the read errs, and is idle again.
   */
  lemma RequestIsARun(s: State, user: nat, like: bool, stepFails: bool, readErrs: bool) returns (steps: seq<Step>)
    requires Inv(s) && Idle(s)
    ensures var s' := Run(s, steps);
      && Inv(s') && Idle(s')
      && s'.users == (if like then s.users + {user} else s.users - {user})
      && s'.events == s.events + (if like && user !in s.users then [user] else [])
      && s'.counter.now == s.counter.now
      && s'.counter.key == SetNx(L.KeyAfterStep(s.counter.key, Delta(like), Changes(s, user, like) && !stepFails),
                                 |s'.users|, s.counter.now)
  {
    TxRun(s, user, like);
    var changed, first := Changes(s, user, like), TxSteps(s, user, like);
    var s1 := Run(s, first);
    StepRun(s1, changed, Delta(like), stepFails);
    var second := StepSteps(s1, changed, stepFails);
    var s2 := Run(s1, second);
    RunInv(s1, second);
    ReadRun(s2, readErrs);
    RunInv(s2, ReadSteps(s2, readErrs));
    RunConcat(s, first, second);
    RunConcat(s, first + second, ReadSteps(s2, readErrs));
    steps := first + second + ReadSteps(s2, readErrs);
  }
}
