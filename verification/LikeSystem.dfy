/**
 Likes and unlikes of one post, interleaved one awaited call at a time with readers and cache failures. Transactions
 write under the unique index on (post, user); each committed transition is one of the `ShadowCounter`, whose drift law
 therefore holds of the like counter. A step that is not enabled changes nothing.
 */
module LikeSystem {
  import opened Prelude
  import C = ShadowCounter
  import D = ShadowDrift

  /** `Blocked` is a delete that waits for a row it saw, `since` how many rows had been deleted by then. */
  datatype Stage = Begun | Blocked(since: nat) | Written(changed: bool) | EventStaged

  /** An open like or unlike transaction of one user. */
  datatype Tx = Tx(user: nat, like: bool, stage: Stage, open: bool)

  /** `users` are those with a committed row, `events` the committed LikeCreated rows, `gone` the committed deletions. */
  datatype State = State(counter: C.State, users: set<nat>, txs: seq<Tx>, events: seq<nat>, gone: seq<nat>)

  datatype Step =
    | Begin(user: nat, like: bool)
    | Write(x: nat)
    | Block(x: nat)
    | Resume(x: nat)
    | StageEvent(x: nat)
    | CommitTx(x: nat)
    | AbortTx(x: nat)
    | Counter(step: C.Step)

  const Empty := State(C.Empty, {}, [], [], [])

  predicate Holds(tx: Tx) {
    tx.open && (tx.stage.EventStaged? || (tx.stage.Written? && tx.stage.changed))
  }

  /** Some open transaction has inserted or deleted this user's row. */
  ghost predicate SlotLocked(s: State, user: nat) {
    exists x :: 0 <= x < |s.txs| && Holds(s.txs[x]) && s.txs[x].user == user
  }

  ghost predicate Enabled(s: State, step: Step) {
    match step
    case Begin(_, _) => true
    case Write(x) =>
      && x < |s.txs| && s.txs[x].open && s.txs[x].stage.Begun?
      // An insert waits for whoever holds the slot; a delete waits only for a row it can see, and looks at it again.
      && (s.txs[x].like || s.txs[x].user in s.users ==> !SlotLocked(s, s.txs[x].user))
    case Block(x) =>
      && x < |s.txs| && s.txs[x].open && s.txs[x].stage.Begun?
      && !s.txs[x].like && s.txs[x].user in s.users && SlotLocked(s, s.txs[x].user)
    case Resume(x) => x < |s.txs| && s.txs[x].open && s.txs[x].stage.Blocked? && !SlotLocked(s, s.txs[x].user)
    case StageEvent(x) => x < |s.txs| && s.txs[x].open && s.txs[x].like && s.txs[x].stage == Written(true)
    case CommitTx(x) => x < |s.txs| && s.txs[x].open && CanCommit(s.txs[x])
    case AbortTx(x) => x < |s.txs| && s.txs[x].open
    case Counter(c) => !c.CommitOp?
  }

  predicate CanCommit(tx: Tx) {
    tx.stage == Written(false) || (if tx.like then tx.stage.EventStaged? else tx.stage.Written?)
  }

  ghost function Committed(s: State, x: nat): State
    requires x < |s.txs|
  {
    var tx := s.txs[x];
    var txs := s.txs[x := tx.(open := false)];
    if tx.stage == Written(false) then s.(txs := txs)
    else if tx.like then
      State(C.Next(s.counter, C.CommitOp(1, false)), s.users + {tx.user}, txs,
            s.events + (if tx.stage.EventStaged? then [tx.user] else []), s.gone)
    else
      State(C.Next(s.counter, C.CommitOp(-1, false)), s.users - {tx.user}, txs, s.events, s.gone + [tx.user])
  }

  /** The very row that a blocked delete saw is still there: it has not been deleted, nor deleted and put back. */
  predicate SameRow(s: State, tx: Tx)
    requires tx.stage.Blocked?
  {
    tx.user in s.users && forall i :: tx.stage.since <= i < |s.gone| ==> s.gone[i] != tx.user
  }

  ghost function Apply(s: State, step: Step): State
    requires Enabled(s, step)
  {
    match step
    case Begin(user, like) => s.(txs := s.txs + [Tx(user, like, Begun, true)])
    case Write(x) => s.(txs := s.txs[x := s.txs[x].(stage := Written(s.txs[x].like <==> s.txs[x].user !in s.users))])
    case Block(x) => s.(txs := s.txs[x := s.txs[x].(stage := Blocked(|s.gone|))])
    case Resume(x) => s.(txs := s.txs[x := s.txs[x].(stage := Written(SameRow(s, s.txs[x])))])
    case StageEvent(x) => s.(txs := s.txs[x := s.txs[x].(stage := EventStaged)])
    case CommitTx(x) => Committed(s, x)
    case AbortTx(x) => s.(txs := s.txs[x := s.txs[x].(open := false)])
    case Counter(c) => s.(counter := C.Next(s.counter, c))
  }

  ghost function Next(s: State, step: Step): State {
    if Enabled(s, step) then Apply(s, step) else s
  }

  ghost function Run(s: State, steps: seq<Step>): State
    decreases |steps|
  {
    if steps == [] then s else Next(Run(s, steps[..|steps| - 1]), steps[|steps| - 1])
  }

  // ---------------------------------------------------------------- invariant

  ghost function IsLike(): C.Op -> bool { (op: C.Op) => op.delta == 1 }
  ghost function IsUnlike(): C.Op -> bool { (op: C.Op) => op.delta == -1 }

  ghost predicate TxOk(s: State, tx: Tx) {
    && (tx.stage.EventStaged? ==> tx.like)
    && (tx.stage.Blocked? ==> !tx.like)
    && (Holds(tx) ==> (tx.like <==> tx.user !in s.users))
  }

  ghost predicate TxsInv(s: State) {
    && (forall x :: 0 <= x < |s.txs| ==> TxOk(s, s.txs[x]))
    && (forall x, y :: 0 <= x < y < |s.txs| && Holds(s.txs[x]) && Holds(s.txs[y]) ==> s.txs[x].user != s.txs[y].user)
  }

  /** The rows are what the counter shadows: true likes minus true unlikes; each true like put one event in the outbox. */
  ghost predicate RowsInv(s: State) {
    var ops := s.counter.ops;
    && |s.users| == s.counter.truth == CountIf(ops, IsLike()) - CountIf(ops, IsUnlike())
    && |s.events| == CountIf(ops, IsLike()) && |s.gone| == CountIf(ops, IsUnlike())
    && C.Inv(s.counter)
  }

  ghost predicate Inv(s: State) { TxsInv(s) && RowsInv(s) }

  lemma TxsKept(s: State, step: Step)
    requires TxsInv(s) && Enabled(s, step)
    ensures TxsInv(Apply(s, step))
  {
    if step.CommitTx? {
      TxsCommitted(s, step.x);
    }
  }

  /** A commit moves its own user's row, which no other open transaction holds. */
  lemma TxsCommitted(s: State, x: nat)
    requires TxsInv(s) && Enabled(s, CommitTx(x))
    ensures TxsInv(Committed(s, x))
  {
    assert TxOk(s, s.txs[x]);
    forall y | 0 <= y < |s.txs| && y != x && Holds(s.txs[y]) && Holds(s.txs[x])
      ensures s.txs[y].user != s.txs[x].user
    {
      assert y < x || x < y;
    }
  }

  /** A counter step changes how far transitions have come, not what they are. */
  lemma CounterKept(c: C.State, step: C.Step)
    requires !step.CommitOp?
    ensures C.Next(c, step).truth == c.truth
    ensures CountIf(C.Next(c, step).ops, IsLike()) == CountIf(c.ops, IsLike())
    ensures CountIf(C.Next(c, step).ops, IsUnlike()) == CountIf(c.ops, IsUnlike())
  {
    if C.Enabled(c, step) && (step.StepCounter? || step.LoseStep?) {
      var op := c.ops[step.o].(progress := if step.StepCounter? then C.Stepped else C.Lost);
      CountUpdate(c.ops, step.o, op, IsLike());
      CountUpdate(c.ops, step.o, op, IsUnlike());
    }
  }

  lemma CommitKept(s: State, x: nat)
    requires Inv(s) && Enabled(s, CommitTx(x))
    ensures RowsInv(Committed(s, x))
  {
    assert TxOk(s, s.txs[x]);
    if s.txs[x].stage != Written(false) {
      var delta := if s.txs[x].like then 1 else -1;
      CountAppend(s.counter.ops, C.Op(delta, false, C.Waiting), IsLike());
      CountAppend(s.counter.ops, C.Op(delta, false, C.Waiting), IsUnlike());
      C.NextInv(s.counter, C.CommitOp(delta, false));
    }
  }

  lemma NextInv(s: State, step: Step)
    requires Inv(s)
    ensures Inv(Next(s, step))
  {
    if Enabled(s, step) {
      TxsKept(s, step);
      if step.CommitTx? {
        CommitKept(s, step.x);
      } else if step.Counter? {
        CounterKept(s.counter, step.step);
        C.NextInv(s.counter, step.step);
      }
    }
  }

  lemma {:induction false} RunInv(s: State, steps: seq<Step>)
    requires Inv(s)
    ensures Inv(Run(s, steps))
    decreases |steps|
  {
    if steps != [] {
      RunInv(s, steps[..|steps| - 1]);
      NextInv(Run(s, steps[..|steps| - 1]), steps[|steps| - 1]);
    }
  }

  // ---------------------------------------------------------------- theorems

  /**
   After any run: the rows number the committed likes minus the committed unlikes that changed something, the
   LikeCreated events number those likes, and the counter shadows exactly those rows.
   */
  lemma LikesConserved(steps: seq<Step>)
    ensures var s := Run(Empty, steps);
      && |s.users| == CountIf(s.counter.ops, IsLike()) - CountIf(s.counter.ops, IsUnlike()) == s.counter.truth
      && |s.events| == CountIf(s.counter.ops, IsLike())
  {
    RunInv(Empty, steps);
  }

  /** A deletion of this user's row has committed since there were `since` of them. */
  ghost predicate DeletedSince(s: State, since: nat, user: nat) {
    exists i :: since <= i < |s.gone| && s.gone[i] == user
  }

  /** The delete that waits in `s0` waits in `s` too, and its row is there unless it was deleted. */
  ghost predicate StillWaits(s0: State, s: State, x: nat)
    requires x < |s0.txs|
  {
    && x < |s.txs| && s.txs[x] == s0.txs[x].(stage := Blocked(|s0.gone|))
    && s0.gone <= s.gone
    && (s.txs[x].user in s.users || DeletedSince(s, |s0.gone|, s.txs[x].user))
  }

  lemma WaitsOn(s0: State, s: State, x: nat, step: Step)
    requires x < |s0.txs| && s0.txs[x].open && StillWaits(s0, s, x)
    requires step != Resume(x) && step != AbortTx(x)
    ensures StillWaits(s0, Next(s, step), x)
  {
    var s', user := Next(s, step), s.txs[x].user;
    assert s.gone <= s'.gone;
    if DeletedSince(s, |s0.gone|, user) {
      var i :| |s0.gone| <= i < |s.gone| && s.gone[i] == user;
      assert s'.gone[i] == user;
    } else if user !in s'.users {
      assert s'.gone[|s.gone|] == user;
    }
  }

  lemma {:induction false} WaitsAll(s0: State, x: nat, steps: seq<Step>)
    requires Enabled(s0, Block(x))
    requires forall i :: 0 <= i < |steps| ==> steps[i] != Resume(x) && steps[i] != AbortTx(x)
    ensures StillWaits(s0, Run(Next(s0, Block(x)), steps), x)
    decreases |steps|
  {
    if steps != [] {
      var n := |steps| - 1;
      WaitsAll(s0, x, steps[..n]);
      WaitsOn(s0, Run(Next(s0, Block(x)), steps[..n]), x, steps[n]);
    }
  }

  /**
   A delete that waited for a row removes it if and only if nobody else's delete of it committed in the meantime; if one
   did, it removes nothing, not even a row that was put back since, and its commit leaves rows and counter alone.
   */
  lemma {:induction false} WaitedDeleteRemovesTheRowItSaw(s0: State, x: nat, steps: seq<Step>)
    requires Enabled(s0, Block(x))
    requires forall i :: 0 <= i < |steps| ==> steps[i] != Resume(x) && steps[i] != AbortTx(x)
    requires Enabled(Run(Next(s0, Block(x)), steps), Resume(x))
    ensures var s, user := Run(Next(s0, Block(x)), steps), s0.txs[x].user;
      var s' := Next(Next(s, Resume(x)), CommitTx(x));
      if DeletedSince(s, |s0.gone|, user) then
        s'.users == s.users && s'.counter == s.counter && s'.gone == s.gone
      else
        user in s.users && s'.users == s.users - {user} && s'.gone == s.gone + [user]
  {
    WaitsAll(s0, x, steps);
  }

  /** What a step of this system is to the counter. */
  ghost function Shadowed(s: State, step: Step): C.Step {
    if !Enabled(s, step) then C.Skip
    else if step.Counter? then step.step
    else if step.CommitTx? && s.txs[step.x].stage != Written(false) then
      C.CommitOp(if s.txs[step.x].like then 1 else -1, false)
    else C.Skip
  }

  ghost function ShadowedAll(steps: seq<Step>): (r: seq<C.Step>)
    ensures |r| == |steps|
    decreases |steps|
  {
    if steps == [] then []
    else
      ShadowedAll(steps[..|steps| - 1]) + [Shadowed(Run(Empty, steps[..|steps| - 1]), steps[|steps| - 1])]
  }

  lemma {:induction false} CounterRuns(steps: seq<Step>)
    ensures Run(Empty, steps).counter == C.Run(C.Empty, ShadowedAll(steps))
    decreases |steps|
  {
    if steps != [] {
      var n, shadowed := |steps| - 1, ShadowedAll(steps);
      CounterRuns(steps[..n]);
      assert shadowed[..n] == ShadowedAll(steps[..n]);
    }
  }

  /**
   The drift law of the like counter, for every interleaving. A key that is there after a run was created by one
   backfill of that run less than 3600 seconds before, and its value is the number of rows, less the steps that are
   still to come, plus what straddled that backfill, plus the clamps and less the lost steps since.
   */
  lemma LikeDriftLaw(steps: seq<Step>) returns (i: nat)
    requires Run(Empty, steps).counter.key.Some?
    ensures D.Lawful(ShadowedAll(steps), i)
    ensures var s, birth := Run(Empty, steps), C.At(ShadowedAll(steps), i);
      s.counter.key.value.value == |s.users| - SumOf(s.counter.ops, C.WaitingDelta())
        + D.Straddle(birth, ShadowedAll(steps)[i].r) + D.Shifts(ShadowedAll(steps), i + 1)
  {
    CounterRuns(steps);
    RunInv(Empty, steps);
    i := D.DriftLaw(ShadowedAll(steps));
  }
}
