/**
 Logins, refreshes, logouts and revocations, interleaved one awaited call at a time. A refresh looks its token
 up outside its transaction; inside, it consumes the row by compare-and-set under the row's lock, inserts the
 successor, and commits or rolls back. Tokens are known by the ids of their rows; a new family's id is fresh,
 namely the id of its first row.
 */
module TokenFamilies {
  import opened Prelude
  import T = TokenTable

  datatype Stage =
    | Checked      // looked up unused, unrevoked and unexpired; transaction not begun
    | Consumed     // compare-and-set done, not committed
    | Inserted     // successor inserted, not committed
    | Won          // committed: the client has its pair
    | Lost         // refused, lost the race, or rolled back

  /** One submission of the token of row `id`. */
  datatype Attempt = Attempt(id: nat, at: nat, stage: Stage)

  datatype State = State(now: nat, rows: T.Table, attempts: seq<Attempt>)

  datatype Step =
    | Elapse(ms: nat)
    | Login(user: nat, ttl: Option<int>)
    | Submit(id: nat)
    | CompareAndSet(a: nat)
    | InsertSuccessor(a: nat)
    | CommitRefresh(a: nat, ttl: Option<int>)
    | Rollback(a: nat)
    | RevokeRow(id: nat)

  const Empty := State(0, [], [])

  predicate HoldsRow(a: Attempt, id: nat) {
    a.id == id && (a.stage.Consumed? || a.stage.Inserted?)
  }

  ghost predicate RowLocked(s: State, id: nat) {
    exists a :: 0 <= a < |s.attempts| && HoldsRow(s.attempts[a], id)
  }

  ghost predicate InStage(s: State, a: nat, stage: Stage) {
    a < |s.attempts| && s.attempts[a].stage == stage && s.attempts[a].id < |s.rows|
  }

  /** Revoking a family is one `RevokeRow` for each of its rows, which waits for the row's lock. */
  ghost predicate Enabled(s: State, step: Step) {
    match step
    case Elapse(_) => true
    case Login(_, _) => true
    case Submit(id) => id < |s.rows|
    case CompareAndSet(a) => InStage(s, a, Checked) && !RowLocked(s, s.attempts[a].id)
    case InsertSuccessor(a) => InStage(s, a, Consumed)
    case CommitRefresh(a, _) => InStage(s, a, Inserted)
    case Rollback(a) => InStage(s, a, Checked) || InStage(s, a, Consumed) || InStage(s, a, Inserted)
    case RevokeRow(id) => id < |s.rows| && !RowLocked(s, id)
  }

  ghost function DrawNow(s: State, ttl: Option<int>): T.Draw {
    T.Draw(|s.rows|, s.now, ttl, false)
  }

  ghost function SetStage(s: State, a: nat, stage: Stage): State
    requires a < |s.attempts|
  {
    s.(attempts := s.attempts[a := s.attempts[a].(stage := stage)])
  }

  ghost function Apply(s: State, step: Step): State
    requires Enabled(s, step)
  {
    match step
    case Elapse(ms) => s.(now := s.now + ms)
    case Login(user, ttl) => s.(rows := s.rows + [T.NewRow(user, |s.rows|, DrawNow(s, ttl))])
    case Submit(id) =>
      s.(attempts := s.attempts + [Attempt(id, s.now, if s.rows[id].IsUsable(s.now) then Checked else Lost)])
    case CompareAndSet(a) => SetStage(s, a, if s.rows[s.attempts[a].id].IsUsed() then Lost else Consumed)
    case InsertSuccessor(a) => SetStage(s, a, Inserted)
    case CommitRefresh(a, ttl) =>
      SetStage(s, a, Won).(rows := T.Rotated(s.rows, s.attempts[a].id, s.attempts[a].at, DrawNow(s, ttl)))
    case Rollback(a) => SetStage(s, a, Lost)
    case RevokeRow(id) => s.(rows := s.rows[id := s.rows[id].Revoke(s.now)])
  }

  ghost function Next(s: State, step: Step): State {
    if Enabled(s, step) then Apply(s, step) else s
  }

  ghost function Run(s: State, steps: seq<Step>): State
    decreases |steps|
  {
    if steps == [] then s else Run(Next(s, steps[0]), steps[1..])
  }

  // ---------------------------------------------------------------- invariant

  ghost function InFamily(family: nat): T.Row -> bool { (r: T.Row) => r.family == family }
  ghost function WonOn(id: nat): Attempt -> bool { (a: Attempt) => a.stage.Won? && a.id == id }
  ghost function Holding(id: nat): Attempt -> bool { (a: Attempt) => HoldsRow(a, id) }

  /** Committed refreshes of a family's tokens. */
  ghost function WonIn(rows: T.Table, family: nat): Attempt -> bool {
    (a: Attempt) => a.stage.Won? && a.id < |rows| && rows[a.id].family == family
  }

  /** A family is named by its first row, which carries its owner. */
  ghost predicate RootOk(s: State, i: nat)
    requires i < |s.rows|
  {
    var row := s.rows[i];
    && row.family <= i
    && s.rows[row.family].family == row.family
    && s.rows[row.family].user == row.user
  }

  ghost predicate RootsInv(s: State) {
    forall i :: 0 <= i < |s.rows| ==> RootOk(s, i)
  }

  ghost predicate IsFamily(s: State, family: nat) {
    family < |s.rows| && s.rows[family].family == family
  }

  /** Each family has one unused row, and one row more than it has had committed rotations. */
  ghost predicate FamilyOk(s: State, family: nat) {
    && CountIf(s.rows, T.UnusedIn(family)) == Indicator(IsFamily(s, family))
    && CountIf(s.rows, InFamily(family)) == Indicator(IsFamily(s, family)) + CountIf(s.attempts, WonIn(s.rows, family))
  }

  /** A row has been won once if it is used, and never otherwise; only an unused row is held, by one attempt at most. */
  ghost predicate RowOk(s: State, id: nat)
    requires id < |s.rows|
  {
    && CountIf(s.attempts, WonOn(id)) == Indicator(s.rows[id].IsUsed())
    && CountIf(s.attempts, Holding(id)) <= 1
    && (s.rows[id].IsUsed() ==> CountIf(s.attempts, Holding(id)) == 0)
  }

  ghost predicate AttemptsInv(s: State) {
    forall a :: 0 <= a < |s.attempts| ==> s.attempts[a].id < |s.rows|
  }

  ghost predicate Inv(s: State) {
    && RootsInv(s)
    && AttemptsInv(s)
    && (forall family :: FamilyOk(s, family))
    && (forall id :: 0 <= id < |s.rows| ==> RowOk(s, id))
  }

  // ---------------------------------------------------------------- steps that move one attempt

  lemma StageCounts(s: State, a: nat, stage: Stage, id: nat)
    requires a < |s.attempts|
    ensures var s', old', new' := SetStage(s, a, stage), s.attempts[a], s.attempts[a].(stage := stage);
      && CountIf(s'.attempts, WonOn(id)) == CountIf(s.attempts, WonOn(id))
           - Indicator(WonOn(id)(old')) + Indicator(WonOn(id)(new'))
      && CountIf(s'.attempts, Holding(id)) == CountIf(s.attempts, Holding(id))
           - Indicator(HoldsRow(old', id)) + Indicator(HoldsRow(new', id))
  {
    CountUpdate(s.attempts, a, s.attempts[a].(stage := stage), WonOn(id));
    CountUpdate(s.attempts, a, s.attempts[a].(stage := stage), Holding(id));
  }

  lemma NotLockedMeansNoHolder(s: State, id: nat)
    ensures !RowLocked(s, id) <==> CountIf(s.attempts, Holding(id)) == 0
  {
    CountZero(s.attempts, Holding(id));
    if !RowLocked(s, id) {
      forall a | 0 <= a < |s.attempts| ensures !Holding(id)(s.attempts[a]) {
        assert !HoldsRow(s.attempts[a], id);
      }
    }
  }

  /** A stage change that is not a commit. */
  lemma StageKept(s: State, a: nat, stage: Stage)
    requires Inv(s) && a < |s.attempts| && !s.attempts[a].stage.Won? && !stage.Won?
    requires stage.Consumed? || stage.Inserted? ==>
      HoldsRow(s.attempts[a], s.attempts[a].id) || (!RowLocked(s, s.attempts[a].id) && !s.rows[s.attempts[a].id].IsUsed())
    ensures Inv(SetStage(s, a, stage))
  {
    var s' := SetStage(s, a, stage);
    forall id | 0 <= id < |s.rows| ensures RowOk(s', id) {
      assert RowOk(s, id);
      StageCounts(s, a, stage, id);
      NotLockedMeansNoHolder(s, id);
    }
    forall family ensures FamilyOk(s', family) {
      assert FamilyOk(s, family);
      CountUpdate(s.attempts, a, s.attempts[a].(stage := stage), WonIn(s.rows, family));
    }
    forall i | 0 <= i < |s'.rows| ensures RootOk(s', i) {
      assert RootOk(s, i);
    }
  }

  lemma SubmitKept(s: State, id: nat)
    requires Inv(s) && Enabled(s, Submit(id))
    ensures Inv(Apply(s, Submit(id)))
  {
    var s' := Apply(s, Submit(id));
    var a := s'.attempts[|s.attempts|];
    forall i | 0 <= i < |s.rows| ensures RowOk(s', i) {
      assert RowOk(s, i);
      CountAppend(s.attempts, a, WonOn(i));
      CountAppend(s.attempts, a, Holding(i));
    }
    forall family ensures FamilyOk(s', family) {
      assert FamilyOk(s, family);
      CountAppend(s.attempts, a, WonIn(s.rows, family));
    }
    forall i | 0 <= i < |s'.rows| ensures RootOk(s', i) {
      assert RootOk(s, i);
    }
  }

  // ---------------------------------------------------------------- steps that change rows

  /** The refreshes counted for a family do not depend on rows that came later or on times of use and revocation. */
  lemma {:induction false} CountWonSame(attempts: seq<Attempt>, rows: T.Table, rows': T.Table, family: nat)
    requires |rows| <= |rows'| && forall i :: 0 <= i < |rows| ==> rows'[i].family == rows[i].family
    requires forall a :: 0 <= a < |attempts| ==> attempts[a].id < |rows|
    ensures CountIf(attempts, WonIn(rows', family)) == CountIf(attempts, WonIn(rows, family))
  {
    if attempts != [] {
      CountWonSame(attempts[..|attempts| - 1], rows, rows', family);
    }
  }

  lemma RevokeKept(s: State, id: nat)
    requires Inv(s) && id < |s.rows|
    ensures Inv(s.(rows := s.rows[id := s.rows[id].Revoke(s.now)]))
  {
    var s' := s.(rows := s.rows[id := s.rows[id].Revoke(s.now)]);
    forall i | 0 <= i < |s.rows| ensures RowOk(s', i) && RootOk(s', i) {
      assert RowOk(s, i) && RootOk(s, i);
    }
    forall family ensures FamilyOk(s', family) {
      assert FamilyOk(s, family);
      CountSame(s.rows, s'.rows, T.UnusedIn(family));
      CountSame(s.rows, s'.rows, InFamily(family));
      CountWonSame(s.attempts, s.rows, s'.rows, family);
    }
  }

  /** No attempt is about a row that does not exist yet. */
  lemma NoAttemptOnNewRow(s: State)
    requires AttemptsInv(s)
    ensures CountIf(s.attempts, WonOn(|s.rows|)) == 0 && CountIf(s.attempts, Holding(|s.rows|)) == 0
  {
    CountZero(s.attempts, WonOn(|s.rows|));
    CountZero(s.attempts, Holding(|s.rows|));
  }

  /** No row belongs to a family whose id is still free. */
  lemma NewFamilyIsEmpty(s: State)
    requires Inv(s)
    ensures CountIf(s.attempts, WonIn(s.rows, |s.rows|)) == 0
  {
    assert FamilyOk(s, |s.rows|);
    CountZero(s.rows, InFamily(|s.rows|));
    forall i | 0 <= i < |s.rows| ensures s.rows[i].family != |s.rows| {
      assert RootOk(s, i);
    }
  }

  lemma LoginKept(s: State, user: nat, ttl: Option<int>)
    requires Inv(s)
    ensures Inv(Apply(s, Login(user, ttl)))
  {
    var s' := Apply(s, Login(user, ttl));
    var row := s'.rows[|s.rows|];
    NoAttemptOnNewRow(s);
    NewFamilyIsEmpty(s);
    forall i | 0 <= i < |s'.rows| ensures RowOk(s', i) && RootOk(s', i) {
      if i < |s.rows| { assert RowOk(s, i) && RootOk(s, i); }
    }
    forall family ensures FamilyOk(s', family) {
      assert FamilyOk(s, family);
      CountAppend(s.rows, row, T.UnusedIn(family));
      CountAppend(s.rows, row, InFamily(family));
      CountWonSame(s.attempts, s.rows, s'.rows, family);
    }
  }

  lemma CommitFamily(s: State, a: nat, ttl: Option<int>, family: nat)
    requires Inv(s) && Enabled(s, CommitRefresh(a, ttl))
    ensures FamilyOk(Apply(s, CommitRefresh(a, ttl)), family)
  {
    var s' := Apply(s, CommitRefresh(a, ttl));
    var at := s.attempts[a];
    var used := s.rows[at.id := s.rows[at.id].MarkUsed(at.at)];
    assert FamilyOk(s, family) && RootOk(s, at.id) && RowOk(s, at.id);
    CountPositive(s.attempts, Holding(at.id), a);
    CountUpdate(s.rows, at.id, s.rows[at.id].MarkUsed(at.at), T.UnusedIn(family));
    CountUpdate(s.rows, at.id, s.rows[at.id].MarkUsed(at.at), InFamily(family));
    CountAppend(used, s'.rows[|s.rows|], T.UnusedIn(family));
    CountAppend(used, s'.rows[|s.rows|], InFamily(family));
    CountUpdate(s.attempts, a, at.(stage := Won), WonIn(s.rows, family));
    CountWonSame(s'.attempts, s.rows, s'.rows, family);
  }

  lemma CommitRow(s: State, a: nat, ttl: Option<int>, i: nat)
    requires Inv(s) && Enabled(s, CommitRefresh(a, ttl)) && i <= |s.rows|
    ensures RowOk(Apply(s, CommitRefresh(a, ttl)), i) && RootOk(Apply(s, CommitRefresh(a, ttl)), i)
  {
    var at := s.attempts[a];
    assert RootOk(s, at.id) && RowOk(s, at.id);
    CountPositive(s.attempts, Holding(at.id), a);
    StageCounts(s, a, Won, i);
    if i < |s.rows| {
      assert RowOk(s, i) && RootOk(s, i);
    } else {
      NoAttemptOnNewRow(s);
    }
  }

  lemma CommitKept(s: State, a: nat, ttl: Option<int>)
    requires Inv(s) && Enabled(s, CommitRefresh(a, ttl))
    ensures Inv(Apply(s, CommitRefresh(a, ttl)))
  {
    var s' := Apply(s, CommitRefresh(a, ttl));
    forall i | 0 <= i < |s'.rows| ensures RowOk(s', i) && RootOk(s', i) {
      CommitRow(s, a, ttl, i);
    }
    forall family ensures FamilyOk(s', family) {
      CommitFamily(s, a, ttl, family);
    }
  }

  lemma NextInv(s: State, step: Step)
    requires Inv(s)
    ensures Inv(Next(s, step))
  {
    if Enabled(s, step) {
      match step
      case Elapse(_) =>
        forall i | 0 <= i < |s.rows| ensures RowOk(Apply(s, step), i) && RootOk(Apply(s, step), i) {
          assert RowOk(s, i) && RootOk(s, i);
        }
        forall family ensures FamilyOk(Apply(s, step), family) {
          assert FamilyOk(s, family);
        }
      case Login(user, ttl) => LoginKept(s, user, ttl);
      case Submit(id) => SubmitKept(s, id);
      case CompareAndSet(a) => StageKept(s, a, if s.rows[s.attempts[a].id].IsUsed() then Lost else Consumed);
      case InsertSuccessor(a) => StageKept(s, a, Inserted);
      case CommitRefresh(a, ttl) => CommitKept(s, a, ttl);
      case Rollback(a) => StageKept(s, a, Lost);
      case RevokeRow(id) => RevokeKept(s, id);
    }
  }

  lemma {:induction false} RunInv(s: State, steps: seq<Step>)
    requires Inv(s)
    ensures Inv(Run(s, steps))
    decreases |steps|
  {
    if steps != [] {
      NextInv(s, steps[0]);
      RunInv(Next(s, steps[0]), steps[1..]);
    }
  }

  // ---------------------------------------------------------------- theorems over every interleaving

  /** Every family that exists has exactly one unused row and 1 + its committed rotations rows, all of one owner. */
  lemma FamilyShape(steps: seq<Step>, family: nat)
    requires IsFamily(Run(Empty, steps), family)
    ensures var s := Run(Empty, steps);
      && CountIf(s.rows, T.UnusedIn(family)) == 1
      && CountIf(s.rows, InFamily(family)) == 1 + CountIf(s.attempts, WonIn(s.rows, family))
      && forall i :: 0 <= i < |s.rows| && s.rows[i].family == family ==> s.rows[i].user == s.rows[family].user
  {
    RunInv(Empty, steps);
    var s := Run(Empty, steps);
    assert FamilyOk(s, family);
    forall i | 0 <= i < |s.rows| && s.rows[i].family == family ensures s.rows[i].user == s.rows[family].user {
      assert RootOk(s, i);
    }
  }

  /** Of any submissions of one token side by side at most one returns a pair; one has if and only if the token is used. */
  lemma AtMostOneWinner(steps: seq<Step>, id: nat)
    requires id < |Run(Empty, steps).rows|
    ensures var s := Run(Empty, steps);
      && CountIf(s.attempts, WonOn(id)) <= 1
      && (CountIf(s.attempts, WonOn(id)) == 1 <==> s.rows[id].usedAt.Some?)
  {
    RunInv(Empty, steps);
    assert RowOk(Run(Empty, steps), id);
  }

  // ---------------------------------------------------------------- how final a revocation is

  /** Some refresh of the family passed its checks and can still win. */
  ghost predicate InFlight(s: State, family: nat) {
    exists a :: 0 <= a < |s.attempts| && CanStillWin(s, a, family)
  }

  ghost predicate CanStillWin(s: State, a: nat, family: nat)
    requires a < |s.attempts|
  {
    var at := s.attempts[a];
    && at.id < |s.rows| && s.rows[at.id].family == family
    && ((at.stage.Checked? && s.rows[at.id].usedAt.None?) || at.stage.Consumed? || at.stage.Inserted?)
  }

  ghost predicate HasUsable(s: State, family: nat) {
    exists i :: 0 <= i < |s.rows| && s.rows[i].family == family
                && s.rows[i].usedAt.None? && s.rows[i].revokedAt.None? && s.now < s.rows[i].expiresAt
  }

  lemma DeadStep(s: State, step: Step, family: nat)
    requires Inv(s) && IsFamily(s, family) && T.Dead(s.rows, family) && !InFlight(s, family)
    ensures var s' := Next(s, step);
      IsFamily(s', family) && T.Dead(s'.rows, family) && !InFlight(s', family)
  {
    var s' := Next(s, step);
    if Enabled(s, step) && step.CommitRefresh? {
      assert !CanStillWin(s, step.a, family);
    }
    forall a | 0 <= a < |s'.attempts| ensures !CanStillWin(s', a, family) {
      assert a < |s.attempts| ==> !CanStillWin(s, a, family);
    }
  }

  lemma {:induction false} DeadRun(s: State, steps: seq<Step>, family: nat)
    requires Inv(s) && IsFamily(s, family) && T.Dead(s.rows, family) && !InFlight(s, family)
    ensures !HasUsable(Run(s, steps), family)
    decreases |steps|
  {
    if steps != [] {
      DeadStep(s, steps[0], family);
      NextInv(s, steps[0]);
      DeadRun(Next(s, steps[0]), steps[1..], family);
    }
  }

  lemma InsertedWins(s: State, a: nat, family: nat)
    requires Inv(s) && InStage(s, a, Inserted) && s.rows[s.attempts[a].id].family == family
    ensures HasUsable(Run(s, [CommitRefresh(a, None)]), family)
  {
    var s' := Next(s, CommitRefresh(a, None));
    assert [CommitRefresh(a, None)][1..] == [];
    assert Run(s, [CommitRefresh(a, None)]) == Run(s', []);
    assert s'.rows[|s.rows|].family == family && s'.rows[|s.rows|].usedAt.None?;
  }

  lemma ConsumedWins(s: State, a: nat, family: nat)
    requires Inv(s) && InStage(s, a, Consumed) && s.rows[s.attempts[a].id].family == family
    ensures HasUsable(Run(s, [InsertSuccessor(a), CommitRefresh(a, None)]), family)
  {
    var s' := Next(s, InsertSuccessor(a));
    NextInv(s, InsertSuccessor(a));
    InsertedWins(s', a, family);
    assert [InsertSuccessor(a), CommitRefresh(a, None)][1..] == [CommitRefresh(a, None)];
  }

  lemma CheckedWins(s: State, a: nat, family: nat)
    requires Inv(s) && InStage(s, a, Checked) && s.rows[s.attempts[a].id].family == family
    requires !s.rows[s.attempts[a].id].IsUsed() && !RowLocked(s, s.attempts[a].id)
    ensures HasUsable(Run(s, [CompareAndSet(a), InsertSuccessor(a), CommitRefresh(a, None)]), family)
  {
    var s' := Next(s, CompareAndSet(a));
    NextInv(s, CompareAndSet(a));
    ConsumedWins(s', a, family);
    assert [CompareAndSet(a), InsertSuccessor(a), CommitRefresh(a, None)][1..]
        == [InsertSuccessor(a), CommitRefresh(a, None)];
  }

  lemma InFlightCanRevive(s: State, family: nat) returns (steps: seq<Step>)
    requires Inv(s) && InFlight(s, family)
    ensures HasUsable(Run(s, steps), family)
  {
    var a :| 0 <= a < |s.attempts| && CanStillWin(s, a, family);
    if s.attempts[a].stage.Checked? && RowLocked(s, s.attempts[a].id) {
      var b :| 0 <= b < |s.attempts| && HoldsRow(s.attempts[b], s.attempts[a].id);
      a := b;
    }
    if s.attempts[a].stage.Inserted? {
      steps := [CommitRefresh(a, None)];
      InsertedWins(s, a, family);
    } else if s.attempts[a].stage.Consumed? {
      steps := [InsertSuccessor(a), CommitRefresh(a, None)];
      ConsumedWins(s, a, family);
    } else {
      steps := [CompareAndSet(a), InsertSuccessor(a), CommitRefresh(a, None)];
      CheckedWins(s, a, family);
    }
  }

  /** No later run leaves a usable row in the family. */
  ghost predicate DeadForGood(s: State, family: nat) {
    forall steps: seq<Step> :: !HasUsable(Run(s, steps), family)
  }

  /**
   Exactly when revoking every row of a family is final: no later run leaves a usable row in it if and only if,
   at that moment, no refresh of the family is past its checks and able to win. The compare-and-set tests
   `usedAt` alone, so a refresh that was checked before the revocation still issues a working token after it.
   */
  lemma RevocationFinalIffNothingInFlight(past: seq<Step>, family: nat)
    requires var s := Run(Empty, past); IsFamily(s, family) && T.Dead(s.rows, family)
    ensures DeadForGood(Run(Empty, past), family) <==> !InFlight(Run(Empty, past), family)
  {
    RunInv(Empty, past);
    var s := Run(Empty, past);
    if InFlight(s, family) {
      var steps := InFlightCanRevive(s, family);
      assert HasUsable(Run(s, steps), family);
    } else {
      forall steps: seq<Step> ensures !HasUsable(Run(s, steps), family) {
        DeadRun(s, steps, family);
      }
    }
  }

  // ---------------------------------------------------------------- from the beginning of a revocation

  lemma {:induction false} RunConcat(s: State, a: seq<Step>, b: seq<Step>)
    ensures Run(s, a + b) == Run(Run(s, a), b)
    decreases |a|
  {
    if a == [] {
      assert a + b == b;
    } else {
      assert (a + b)[1..] == a[1..] + b;
      RunConcat(Next(s, a[0]), a[1..], b);
    }
  }

  lemma RunOne(s: State, step: Step)
    ensures Run(s, [step]) == Next(s, step)
  {
    assert [step][1..] == [];
    assert Run(s, [step]) == Run(Next(s, step), []);
  }

  /** One `RevokeRow` for each of the first `k` rows that `p` selects; a row that is locked is not reached. */
  ghost function RevokeSteps(rows: T.Table, p: T.Row -> bool, k: nat): seq<Step>
    requires k <= |rows|
  {
    if k == 0 then []
    else RevokeSteps(rows, p, k - 1) + (if p(rows[k - 1]) then [RevokeRow(k - 1)] else [])
  }

  lemma {:induction false} RevokeRun(s: State, p: T.Row -> bool, k: nat)
    requires k <= |s.rows|
    ensures var s' := Run(s, RevokeSteps(s.rows, p, k));
      && s'.now == s.now && s'.attempts == s.attempts && |s'.rows| == |s.rows|
      && forall i :: 0 <= i < |s.rows| ==>
           s'.rows[i] == if i < k && p(s.rows[i]) && !RowLocked(s, i) then s.rows[i].Revoke(s.now) else s.rows[i]
  {
    if k > 0 {
      RevokeRun(s, p, k - 1);
      var before := RevokeSteps(s.rows, p, k - 1);
      if p(s.rows[k - 1]) {
        RunConcat(s, before, [RevokeRow(k - 1)]);
        RunOne(Run(s, before), RevokeRow(k - 1));
      } else {
        assert before + [] == before;
      }
    }
  }

  /** While no refresh of the family can still win, none of its rows is locked, and the statement reaches them all. */
  lemma RevocationReachesAll(s: State, family: nat)
    requires Inv(s) && !InFlight(s, family)
    ensures var s' := Run(s, RevokeSteps(s.rows, InFamily(family), |s.rows|));
      T.Dead(s'.rows, family) && !InFlight(s', family)
  {
    RevokeRun(s, InFamily(family), |s.rows|);
    var s' := Run(s, RevokeSteps(s.rows, InFamily(family), |s.rows|));
    forall i | 0 <= i < |s.rows| && s.rows[i].family == family ensures !RowLocked(s, i) {
      forall a | 0 <= a < |s.attempts| ensures !HoldsRow(s.attempts[a], i) {
        assert !CanStillWin(s, a, family);
      }
    }
    forall a | 0 <= a < |s'.attempts| ensures !CanStillWin(s', a, family) {
      assert !CanStillWin(s, a, family);
    }
  }

  /** Revoking changes nothing about what is in flight. */
  lemma StillInFlight(s: State, family: nat)
    requires InFlight(s, family)
    ensures InFlight(Run(s, RevokeSteps(s.rows, InFamily(family), |s.rows|)), family)
  {
    RevokeRun(s, InFamily(family), |s.rows|);
    var a :| 0 <= a < |s.attempts| && CanStillWin(s, a, family);
    assert CanStillWin(Run(s, RevokeSteps(s.rows, InFamily(family), |s.rows|)), a, family);
  }

  /**
   Exactly when a revocation is final, from its beginning: revoking the family's rows from a reachable state leaves the
   family dead for good if and only if no refresh of it is past its checks and able to win when the revocation begins.
   */
  lemma RevokingIsFinalIffNothingInFlight(past: seq<Step>, family: nat)
    requires IsFamily(Run(Empty, past), family)
    ensures var s := Run(Empty, past);
      DeadForGood(Run(s, RevokeSteps(s.rows, InFamily(family), |s.rows|)), family) <==> !InFlight(s, family)
  {
    RunInv(Empty, past);
    var s := Run(Empty, past);
    var s' := Run(s, RevokeSteps(s.rows, InFamily(family), |s.rows|));
    RunInv(s, RevokeSteps(s.rows, InFamily(family), |s.rows|));
    RevokeRun(s, InFamily(family), |s.rows|);
    if InFlight(s, family) {
      StillInFlight(s, family);
      var steps := InFlightCanRevive(s', family);
      assert HasUsable(Run(s', steps), family);
    } else {
      RevocationReachesAll(s, family);
      forall steps: seq<Step> ensures !HasUsable(Run(s', steps), family) {
        DeadRun(s', steps, family);
      }
    }
  }

  /** A concrete such run: check, revoke, then consume, insert and commit. */
  lemma RevokedFamilyRevived()
    ensures var s1 := Next(Next(Empty, Login(1, None)), Submit(0));
      var revoked := Next(s1, RevokeRow(0));
      && T.Dead(revoked.rows, 0)
      && HasUsable(Run(revoked, [CompareAndSet(0), InsertSuccessor(0), CommitRefresh(0, None)]), 0)
  {
    var s0 := Next(Empty, Login(1, None));
    NextInv(Empty, Login(1, None));
    var s1 := Next(s0, Submit(0));
    NextInv(s0, Submit(0));
    assert s1.attempts == [Attempt(0, 0, Checked)];
    var revoked := Next(s1, RevokeRow(0));
    NextInv(s1, RevokeRow(0));
    CheckedWins(revoked, 0, 0);
  }
}
