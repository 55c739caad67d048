/**
 A Redis value that shadows a row count, under every interleaving. Transitions of the rows commit, and each causes a
 counter step that comes later or never: a guarded INCRBY, or, for a transition that reads everything at once, a DEL.
 Readers that find no key COUNT the rows, and SET NX what they counted some time later. The like counter and the
 unread counter are two instances.
 */
module ShadowCounter {
  import opened Prelude
  import opened RedisKeys

  datatype Progress = Waiting | Stepped | Lost

  /** A committed transition of the row count, what its counter step does, and what became of that step. */
  datatype Op = Op(delta: int, wipe: bool, progress: Progress)

  /** A reader that has run COUNT and not yet SET NX; `opsAt` records how many transitions had committed. */
  datatype Reader = Reader(count: int, opsAt: nat, open: bool)

  datatype State = State(now: nat, truth: int, key: Option<Entry>, ops: seq<Op>, readers: seq<Reader>)

  datatype Step =
    | Elapse(seconds: nat)
    | CommitOp(delta: int, wipe: bool)
    | StepCounter(o: nat)
    | LoseStep(o: nat)
    | Count
    | Backfill(r: nat)
    | DropKey
    | Skip

  const Empty := State(0, 0, None, [], [])

  predicate Enabled(s: State, step: Step) {
    match step
    case CommitOp(delta, wipe) => s.truth + delta >= 0 && (if wipe then delta <= 0 else delta == 1 || delta == -1)
    case StepCounter(o) => o < |s.ops| && s.ops[o].progress.Waiting?
    case LoseStep(o) => o < |s.ops| && s.ops[o].progress.Waiting?
    case Backfill(r) => r < |s.readers| && s.readers[r].open
    case _ => true
  }

  function Apply(s: State, step: Step): State
    requires Enabled(s, step)
  {
    match step
    case Elapse(seconds) => s.(now := s.now + seconds, key := Live(s.key, s.now + seconds))
    case CommitOp(delta, wipe) => s.(truth := s.truth + delta, ops := s.ops + [Op(delta, wipe, Waiting)])
    case StepCounter(o) =>
      s.(key := if s.ops[o].wipe then None else IncrByIfExists(s.key, s.ops[o].delta),
         ops := s.ops[o := s.ops[o].(progress := Stepped)])
    case LoseStep(o) => s.(ops := s.ops[o := s.ops[o].(progress := Lost)])
    case Count => s.(readers := s.readers + [Reader(s.truth, |s.ops|, true)])
    case Backfill(r) =>
      s.(key := SetNx(s.key, s.readers[r].count, s.now), readers := s.readers[r := s.readers[r].(open := false)])
    case DropKey => s.(key := None)
    case Skip => s
  }

  function Next(s: State, step: Step): State {
    if Enabled(s, step) then Apply(s, step) else s
  }

  function Run(s: State, steps: seq<Step>): State
    decreases |steps|
  {
    if steps == [] then s else Next(Run(s, steps[..|steps| - 1]), steps[|steps| - 1])
  }

  /** The state after the first `i` steps from the empty one. */
  function At(steps: seq<Step>, i: nat): State
    requires i <= |steps|
  {
    Run(Empty, steps[..i])
  }

  // ---------------------------------------------------------------- conservation

  ghost function Delta(): Op -> int { (op: Op) => op.delta }
  ghost function WaitingDelta(): Op -> int { (op: Op) => if op.progress.Waiting? then op.delta else 0 }
  ghost function DoneDelta(): Op -> int { (op: Op) => if op.progress.Waiting? then 0 else op.delta }

  ghost predicate OpOk(op: Op) {
    if op.wipe then op.delta <= 0 else op.delta == 1 || op.delta == -1
  }

  /** The rows are the committed transitions, added up. */
  ghost predicate ConservedInv(s: State) {
    && s.truth == SumOf(s.ops, Delta()) && s.truth >= 0
    && (forall o :: 0 <= o < |s.ops| ==> OpOk(s.ops[o]))
  }

  /** A reader's number is the row count after the transitions it had seen. */
  ghost predicate ReadersInv(s: State) {
    forall r :: 0 <= r < |s.readers| ==>
      && s.readers[r].opsAt <= |s.ops| && s.readers[r].count >= 0
      && s.readers[r].count == SumOf(s.ops[..s.readers[r].opsAt], Delta())
  }

  ghost predicate KeyInv(s: State) {
    s.key.Some? ==> s.now < s.key.value.expiresAt && s.key.value.value >= 0
  }

  ghost predicate Inv(s: State) {
    ConservedInv(s) && ReadersInv(s) && KeyInv(s)
  }

  lemma ConservedKept(s: State, step: Step)
    requires ConservedInv(s) && Enabled(s, step)
    ensures ConservedInv(Apply(s, step))
  {
    match step
    case CommitOp(delta, wipe) => SumAppend(s.ops, Op(delta, wipe, Waiting), Delta());
    case StepCounter(o) => SumUpdate(s.ops, o, s.ops[o].(progress := Stepped), Delta());
    case LoseStep(o) => SumUpdate(s.ops, o, s.ops[o].(progress := Lost), Delta());
    case _ =>
  }

  lemma ReaderSumKept(ops: seq<Op>, o: nat, p: Progress, k: nat)
    requires o < |ops| && k <= |ops|
    ensures SumOf(ops[o := ops[o].(progress := p)][..k], Delta()) == SumOf(ops[..k], Delta())
  {
    var op := ops[o].(progress := p);
    if o < k {
      assert ops[o := op][..k] == ops[..k][o := op];
      SumUpdate(ops[..k], o, op, Delta());
    } else {
      assert ops[o := op][..k] == ops[..k];
    }
  }

  lemma ReadersKept(s: State, step: Step)
    requires ConservedInv(s) && ReadersInv(s) && Enabled(s, step)
    ensures ReadersInv(Apply(s, step))
  {
    var s' := Apply(s, step);
    forall r | 0 <= r < |s'.readers|
      ensures s'.readers[r].opsAt <= |s'.ops| && s'.readers[r].count >= 0
      ensures s'.readers[r].count == SumOf(s'.ops[..s'.readers[r].opsAt], Delta())
    {
      var k := s'.readers[r].opsAt;
      match step {
        case StepCounter(o) => ReaderSumKept(s.ops, o, Stepped, k);
        case LoseStep(o) => ReaderSumKept(s.ops, o, Lost, k);
        case Count => assert s.ops[..|s.ops|] == s.ops;
        case CommitOp(_, _) => assert s'.ops[..k] == s.ops[..k];
        case _ =>
      }
    }
  }

  lemma NextInv(s: State, step: Step)
    requires Inv(s)
    ensures Inv(Next(s, step))
  {
    if Enabled(s, step) {
      ConservedKept(s, step);
      ReadersKept(s, step);
    }
  }

  lemma {:induction false} RunInv(s: State, steps: seq<Step>)
    requires Inv(s)
    ensures Inv(Run(s, steps))
    decreases |steps|
  {
    if steps != [] {
      RunInv(s, steps[..|steps| - 1]);
      NextInv(Run(s, steps[..|steps| - 1]), steps[|steps| - 1]);
    }
  }

  // ---------------------------------------------------------------- drift

  /** Cached value plus the steps still to come, minus the rows. */
  ghost function Drift(s: State): int
    requires s.key.Some?
  {
    s.key.value.value + SumOf(s.ops, WaitingDelta()) - s.truth
  }

  ghost predicate Clamps(s: State, step: Step) {
    && step.StepCounter? && Enabled(s, step) && !s.ops[step.o].wipe
    && s.key.Some? && s.key.value.value + s.ops[step.o].delta < 0
  }

  /** How far one step moves the drift of a key that lives on: up by one for a clamp, by the lost step otherwise. */
  ghost function Shift(s: State, step: Step): int {
    if Clamps(s, step) then 1
    else if step.LoseStep? && Enabled(s, step) then -s.ops[step.o].delta
    else 0
  }

  lemma DriftCounter(s: State, o: nat)
    requires s.key.Some? && Enabled(s, StepCounter(o)) && !s.ops[o].wipe
    ensures var s', raw := Apply(s, StepCounter(o)), s.key.value.value + s.ops[o].delta;
      s'.key.Some? && Drift(s') == Drift(s) + (if raw < 0 then -raw else 0)
  {
    SumUpdate(s.ops, o, s.ops[o].(progress := Stepped), WaitingDelta());
  }

  lemma DriftLost(s: State, o: nat)
    requires s.key.Some? && Enabled(s, LoseStep(o))
    ensures Drift(Apply(s, LoseStep(o))) == Drift(s) - s.ops[o].delta
  {
    SumUpdate(s.ops, o, s.ops[o].(progress := Lost), WaitingDelta());
  }

  lemma DriftStep(s: State, step: Step)
    requires Inv(s) && s.key.Some? && Next(s, step).key.Some?
    ensures Drift(Next(s, step)) == Drift(s) + Shift(s, step)
    ensures Next(s, step).key.value.expiresAt == s.key.value.expiresAt
  {
    if Enabled(s, step) {
      match step {
        case CommitOp(delta, wipe) => SumAppend(s.ops, Op(delta, wipe, Waiting), WaitingDelta());
        case StepCounter(o) => DriftCounter(s, o);
        case LoseStep(o) => DriftLost(s, o);
        case _ =>
      }
    }
  }

  /** A clamp leaves the cached value where it was, and closer to the row count than a plain INCRBY would. */
  lemma ClampNeverMovesAway(s: State, step: Step)
    requires Inv(s) && Clamps(s, step)
    ensures var before, rows, after := s.key.value.value, s.truth, Next(s, step).key.value.value;
      && after == before == 0 && rows - after < rows - (before + s.ops[step.o].delta)
  {
  }
}
