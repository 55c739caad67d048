/**
 One user's notifications, saved and read in any order beside readers of the unread counter. Each statement commits by
 itself and its counter step is a later call, lost by a crash in between: INCR for a new row, DECR for one row read, DEL
 after reading all. Every transition is one of the `ShadowCounter`.
 */
module UnreadSystem {
  import opened Prelude
  import opened RedisKeys
  import C = ShadowCounter
  import D = ShadowDrift

  /** `read[i]` says whether the user's notification number `i` has been read. */
  datatype State = State(counter: C.State, read: seq<bool>)

  datatype Step =
    | Save
    | MarkOne(i: nat)
    | MarkAll
    | Counter(step: C.Step)

  const Empty := State(C.Empty, [])

  ghost function Unread(): bool -> bool { (read: bool) => !read }

  ghost function UnreadCount(s: State): int { CountIf(s.read, Unread()) }

  function AllRead(read: seq<bool>): (r: seq<bool>)
    ensures |r| == |read| && forall i :: 0 <= i < |read| ==> r[i]
  {
    seq(|read|, i => true)
  }

  /** What a step of this system is to the counter; a row that is already read, or not there, steps nothing. */
  ghost function Shadowed(s: State, step: Step): C.Step {
    match step
    case Save => C.CommitOp(1, false)
    case MarkOne(i) => if i < |s.read| && !s.read[i] then C.CommitOp(-1, false) else C.Skip
    case MarkAll => C.CommitOp(-UnreadCount(s), true)
    case Counter(c) => if c.CommitOp? then C.Skip else c
  }

  ghost function Rows(s: State, step: Step): seq<bool> {
    match step
    case Save => s.read + [false]
    case MarkOne(i) => if i < |s.read| then s.read[i := true] else s.read
    case MarkAll => AllRead(s.read)
    case Counter(_) => s.read
  }

  ghost function Next(s: State, step: Step): State {
    State(C.Next(s.counter, Shadowed(s, step)), Rows(s, step))
  }

  ghost function Run(s: State, steps: seq<Step>): State
    decreases |steps|
  {
    if steps == [] then s else Next(Run(s, steps[..|steps| - 1]), steps[|steps| - 1])
  }

  /** The counter shadows exactly the unread rows. */
  ghost predicate Inv(s: State) {
    C.Inv(s.counter) && s.counter.truth == UnreadCount(s)
  }

  lemma NextInv(s: State, step: Step)
    requires Inv(s)
    ensures Inv(Next(s, step))
  {
    C.NextInv(s.counter, Shadowed(s, step));
    match step
    case Save => CountAppend(s.read, false, Unread());
    case MarkOne(i) =>
      if i < |s.read| {
        CountUpdate(s.read, i, true, Unread());
        CountZero(s.read, Unread());
      }
    case MarkAll => CountZero(AllRead(s.read), Unread());
    case Counter(_) =>
  }

  lemma {:induction false} RunInv(s: State, steps: seq<Step>)
    requires Inv(s)
    ensures Inv(Run(s, steps))
    decreases |steps|
  {
    if steps != [] {
      RunInv(s, steps[..|steps| - 1]);
      NextInv(Run(s, steps[..|steps| - 1]), steps[|steps| - 1]);
    }
  }

  ghost function ShadowedAll(steps: seq<Step>): (r: seq<C.Step>)
    ensures |r| == |steps|
    decreases |steps|
  {
    if steps == [] then []
    else
      ShadowedAll(steps[..|steps| - 1]) + [Shadowed(Run(Empty, steps[..|steps| - 1]), steps[|steps| - 1])]
  }

  lemma {:induction false} CounterRuns(steps: seq<Step>)
    ensures Run(Empty, steps).counter == C.Run(C.Empty, ShadowedAll(steps))
    decreases |steps|
  {
    if steps != [] {
      var n, shadowed := |steps| - 1, ShadowedAll(steps);
      CounterRuns(steps[..n]);
      assert shadowed[..n] == ShadowedAll(steps[..n]);
    }
  }

  /** The drift law of the unread counter, for every interleaving, in the terms of `LikeSystem.LikeDriftLaw`. */
  lemma UnreadDriftLaw(steps: seq<Step>) returns (i: nat)
    requires Run(Empty, steps).counter.key.Some?
    ensures D.Lawful(ShadowedAll(steps), i)
    ensures var s, birth := Run(Empty, steps), C.At(ShadowedAll(steps), i);
      s.counter.key.value.value == UnreadCount(s) - SumOf(s.counter.ops, C.WaitingDelta())
        + D.Straddle(birth, ShadowedAll(steps)[i].r) + D.Shifts(ShadowedAll(steps), i + 1)
  {
    CounterRuns(steps);
    RunInv(Empty, steps);
    i := D.DriftLaw(ShadowedAll(steps));
  }

  /**
   Deleting the key does not undo a count that was taken before: COUNT finds one unread row, all are read and the key
   deleted, and then SET NX stores the old number. The user has no unread row and a counter of 1.
   */
  lemma ReadAllCanBeUndone()
    ensures var s2 := Next(Next(Next(Empty, Save), Counter(C.StepCounter(0))), Counter(C.Count));
      var s := Next(Next(Next(s2, MarkAll), Counter(C.StepCounter(1))), Counter(C.Backfill(0)));
      UnreadCount(s) == 0 && s.counter.key == Some(Entry(1, COUNT_TTL_SEC))
  {
    var s2 := Next(Next(Next(Empty, Save), Counter(C.StepCounter(0))), Counter(C.Count));
    assert s2 == State(C.State(0, 1, None, [C.Op(1, false, C.Stepped)], [C.Reader(1, 1, true)]), [false]);
    var s3 := Next(s2, MarkAll);
    CountAppend([], false, Unread());
    assert [] + [false] == [false];
    assert UnreadCount(s2) == 1;
    assert s3.counter.ops == [C.Op(1, false, C.Stepped), C.Op(-1, true, C.Waiting)];
    CountZero(s3.read, Unread());
  }

  // ---------------------------------------------------------------- when deleting the key is enough

  ghost predicate CounterOnly(steps: seq<Step>) {
    forall i :: 0 <= i < |steps| ==> steps[i].Counter?
  }

  /** The user's rows standing still, no continuation has a key with a number other than theirs. */
  ghost predicate StaysRight(s: State) {
    forall steps: seq<Step> :: CounterOnly(steps) && Run(s, steps).counter.key.Some? ==>
      Run(s, steps).counter.key.value.value == UnreadCount(s)
  }

  ghost function Stepped(c: C.Step): C.Step { if c.CommitOp? then C.Skip else c }

  ghost function CounterSteps(steps: seq<Step>): (r: seq<C.Step>)
    requires CounterOnly(steps)
    ensures |r| == |steps| && forall i :: 0 <= i < |steps| ==> r[i] == Stepped(steps[i].step)
  {
    seq(|steps|, i requires 0 <= i < |steps| => Stepped(steps[i].step))
  }

  lemma {:induction false} CounterOnlyRun(s: State, steps: seq<Step>)
    requires CounterOnly(steps)
    ensures Run(s, steps) == State(C.Run(s.counter, CounterSteps(steps)), s.read)
    decreases |steps|
  {
    if steps != [] {
      var n := |steps| - 1;
      CounterOnlyRun(s, steps[..n]);
      assert CounterSteps(steps)[..n] == CounterSteps(steps[..n]);
    }
  }

  function AsSteps(steps: seq<C.Step>): (r: seq<Step>)
    ensures |r| == |steps| && forall i :: 0 <= i < |steps| ==> r[i] == Counter(steps[i])
  {
    seq(|steps|, i requires 0 <= i < |steps| => Counter(steps[i]))
  }

  /**
   Exactly when deleting the key corrects the counter, as after reading all: from a reachable state with no key and no
   counter step to come, every later rebuild is right if and only if no reader under way holds an old number.
   */
  lemma StaysRightIffReadersCurrent(past: seq<Step>)
    requires var c := Run(Empty, past).counter; c.key.None? && D.NothingWaits(c)
    ensures var s := Run(Empty, past);
      StaysRight(s) <==>
        forall r :: 0 <= r < |s.counter.readers| && s.counter.readers[r].open ==>
          s.counter.readers[r].count == UnreadCount(s)
  {
    RunInv(Empty, past);
    var s := Run(Empty, past);
    D.RebuildsExactlyIff(s.counter);
    if D.ReadersCurrent(s.counter) {
      forall steps: seq<Step> | CounterOnly(steps) && Run(s, steps).counter.key.Some?
        ensures Run(s, steps).counter.key.value.value == UnreadCount(s)
      {
        CounterOnlyRun(s, steps);
        D.ExactRun(s.counter, CounterSteps(steps));
      }
    } else {
      var csteps: seq<C.Step> :| D.NoCommit(csteps) && !D.KeyExact(C.Run(s.counter, csteps));
      CounterOnlyRun(s, AsSteps(csteps));
      assert CounterSteps(AsSteps(csteps)) == csteps;
      RunInv(s, AsSteps(csteps));
    }
  }
}
