/** Requests served one at a time, as `RefreshTokens` serves them, are interleavings of `TokenFamilies`. */
module TokenRefinement {
  import opened Prelude
  import opened TokenFamilies
  import T = TokenTable

  /** Every submission has come to its end, so no row is locked. */
  ghost predicate Idle(s: State) {
    forall a :: 0 <= a < |s.attempts| ==> s.attempts[a].stage.Won? || s.attempts[a].stage.Lost?
  }

  /** In `TokenFamilies` a token is known by the id of its row. */
  ghost predicate HashesAreIds(s: State) {
    forall i :: 0 <= i < |s.rows| ==> s.rows[i].hash == i
  }

  lemma {:induction false} HashesRun(s: State, steps: seq<Step>)
    requires HashesAreIds(s)
    ensures HashesAreIds(Run(s, steps))
    decreases |steps|
  {
    if steps != [] {
      HashesRun(Next(s, steps[0]), steps[1..]);
    }
  }

  lemma LookupIsId(s: State, hash: nat)
    requires HashesAreIds(s)
    ensures T.Lookup(s.rows, hash) == if hash < |s.rows| then Some(hash) else None
  {
    assert hash < |s.rows| ==> s.rows[hash].hash == hash;
  }

  // ---------------------------------------------------------------- revocations

  lemma NothingLocked(s: State)
    requires Idle(s)
    ensures forall id :: !RowLocked(s, id)
  {
  }

  ghost function OfUser(user: nat): T.Row -> bool { (r: T.Row) => r.user == user }

  lemma RevokeFamilyRun(s: State, family: nat)
    requires Idle(s)
    ensures var s' := Run(s, RevokeSteps(s.rows, InFamily(family), |s.rows|));
      s' == s.(rows := T.RevokeFamily(s.rows, family, s.now))
  {
    RevokeRun(s, InFamily(family), |s.rows|);
    NothingLocked(s);
    assert Run(s, RevokeSteps(s.rows, InFamily(family), |s.rows|)).rows == T.RevokeFamily(s.rows, family, s.now);
  }

  lemma RevokeUserRun(s: State, user: nat)
    requires Idle(s)
    ensures var s' := Run(s, RevokeSteps(s.rows, OfUser(user), |s.rows|));
      s' == s.(rows := T.RevokeUser(s.rows, user, s.now))
  {
    RevokeRun(s, OfUser(user), |s.rows|);
    NothingLocked(s);
    assert Run(s, RevokeSteps(s.rows, OfUser(user), |s.rows|)).rows == T.RevokeUser(s.rows, user, s.now);
  }

  // ---------------------------------------------------------------- refreshes

  /** The transaction of submission `a`, which commits, or rolls back when the access token cannot be signed. */
  function TransactionSteps(a: nat, draw: T.Draw): seq<Step> {
    [CompareAndSet(a), InsertSuccessor(a), if draw.signFails then Rollback(a) else CommitRefresh(a, draw.ttl)]
  }

  lemma TransactionRun(s: State, a: nat, draw: T.Draw)
    requires InStage(s, a, Checked) && !RowLocked(s, s.attempts[a].id) && !s.rows[s.attempts[a].id].IsUsed()
    ensures Run(s, TransactionSteps(a, draw)) == s.(
      attempts := s.attempts[a := s.attempts[a].(stage := if draw.signFails then Lost else Won)],
      rows := if draw.signFails then s.rows
              else T.Rotated(s.rows, s.attempts[a].id, s.attempts[a].at, DrawNow(s, draw.ttl)))
  {
    var steps := TransactionSteps(a, draw);
    var s1 := Next(s, steps[0]);
    var s2 := Next(s1, steps[1]);
    var s3 := Next(s2, steps[2]);
    assert steps[1..] == [steps[1], steps[2]] && [steps[1], steps[2]][1..] == [steps[2]];
    RunOne(s2, steps[2]);
    assert Run(s1, [steps[1], steps[2]]) == Run(s2, [steps[2]]);
    assert s1.attempts == s.attempts[a := s.attempts[a].(stage := Consumed)];
    assert s2.attempts == s.attempts[a := s.attempts[a].(stage := Inserted)];
    assert s3.attempts == s.attempts[a := s.attempts[a].(stage := if draw.signFails then Lost else Won)];
  }

  /** What `RefreshTokens` and `TokenFamilies` draw alike: the next row's id as hash, and the time. */
  ghost predicate DrawnIn(s: State, draw: T.Draw) {
    draw.hash == |s.rows| && draw.at == s.now
  }

  ghost function RefreshSteps(s: State, hash: nat, users: set<nat>, draw: T.Draw): seq<Step> {
    if hash >= |s.rows| then []
    else
      var row := s.rows[hash];
      [Submit(hash)]
      + (if row.IsUsed() then RevokeSteps(s.rows, InFamily(row.family), |s.rows|)
         else if !row.IsUsable(s.now) then []
         else if row.user !in users then [Rollback(|s.attempts|)]
         else TransactionSteps(|s.attempts|, draw))
  }

  /** A refresh with nothing beside it: the run leaves the table `RefreshTokens.Refresh` leaves, and wins when it issues. */
  lemma RefreshIsARun(s: State, hash: nat, users: set<nat>, draw: T.Draw)
    requires Idle(s) && HashesAreIds(s) && DrawnIn(s, draw)
    ensures var s' := Run(s, RefreshSteps(s, hash, users, draw));
      && s'.rows == T.Serve(s.rows, T.RefreshRequest(hash, s.now, users, draw))
      && s'.now == s.now && Idle(s')
      && (hash < |s.rows| ==>
            && |s'.attempts| == |s.attempts| + 1
            && (s'.attempts[|s.attempts|].stage.Won? <==> T.RefreshOutcome(s.rows, hash, s.now, users, draw).Issued?))
  {
    LookupIsId(s, hash);
    if hash < |s.rows| {
      var rest := RefreshSteps(s, hash, users, draw)[1..];
      RunConcat(s, [Submit(hash)], rest);
      RunOne(s, Submit(hash));
      assert [Submit(hash)] + rest == RefreshSteps(s, hash, users, draw);
      RestIsARun(s, hash, users, draw, rest);
    }
  }

  /** What comes after the submission: nothing, the family's revocation, a rollback, or the transaction. */
  lemma RestIsARun(s: State, hash: nat, users: set<nat>, draw: T.Draw, rest: seq<Step>)
    requires Idle(s) && hash < |s.rows| && DrawnIn(s, draw)
    requires T.Lookup(s.rows, hash) == Some(hash) && rest == RefreshSteps(s, hash, users, draw)[1..]
    ensures var s' := Run(Next(s, Submit(hash)), rest);
      && s'.rows == T.Serve(s.rows, T.RefreshRequest(hash, s.now, users, draw))
      && s'.now == s.now && Idle(s') && |s'.attempts| == |s.attempts| + 1
      && (s'.attempts[|s.attempts|].stage.Won? <==> T.RefreshOutcome(s.rows, hash, s.now, users, draw).Issued?)
  {
    var a, row, s1 := |s.attempts|, s.rows[hash], Next(s, Submit(hash));
    if row.IsUsed() {
      assert rest == RevokeSteps(s.rows, InFamily(row.family), |s.rows|);
      RevokeFamilyRun(s1, row.family);
    } else if row.IsUsable(s.now) && row.user !in users {
      assert rest == [Rollback(a)];
      RunOne(s1, Rollback(a));
    } else if row.IsUsable(s.now) {
      assert rest == TransactionSteps(a, draw);
      TransactionRun(s1, a, draw);
    }
  }

  // ---------------------------------------------------------------- every request

  /** The request comes at the model's time and draws what the model draws. */
  ghost predicate Timely(s: State, request: T.Request) {
    match request
    case LoginRequest(_, family, draw) => family == |s.rows| && DrawnIn(s, draw)
    case RefreshRequest(_, now, _, draw) => now == s.now && DrawnIn(s, draw)
    case LogoutRequest(_, now) => now == s.now
    case RevokeSessionRequest(_, _, now) => now == s.now
    case ChangePasswordRequest(_, now) => now == s.now
  }

  ghost function RequestSteps(s: State, request: T.Request): seq<Step> {
    match request
    case LoginRequest(user, _, draw) => [Login(user, draw.ttl)]
    case RefreshRequest(hash, _, users, draw) => RefreshSteps(s, hash, users, draw)
    case LogoutRequest(hash, _) =>
      if hash < |s.rows| then RevokeSteps(s.rows, InFamily(s.rows[hash].family), |s.rows|) else []
    case RevokeSessionRequest(user, family, _) =>
      if T.OwnsFamily(s.rows, user, family) then RevokeSteps(s.rows, InFamily(family), |s.rows|) else []
    case ChangePasswordRequest(user, _) => RevokeSteps(s.rows, OfUser(user), |s.rows|)
  }

  /** From an idle state every serial request is a run, which leaves the serial table and an idle state. */
  lemma RequestIsARun(s: State, request: T.Request)
    requires Idle(s) && HashesAreIds(s) && Timely(s, request)
    ensures var s' := Run(s, RequestSteps(s, request));
      s'.rows == T.Serve(s.rows, request) && s'.now == s.now && Idle(s') && HashesAreIds(s')
  {
    HashesRun(s, RequestSteps(s, request));
    match request
    case LoginRequest(user, _, draw) => RunOne(s, Login(user, draw.ttl));
    case RefreshRequest(hash, _, users, draw) => RefreshIsARun(s, hash, users, draw);
    case LogoutRequest(hash, _) =>
      LookupIsId(s, hash);
      if hash < |s.rows| { RevokeFamilyRun(s, s.rows[hash].family); }
    case RevokeSessionRequest(user, family, _) => RevokeFamilyRun(s, family);
    case ChangePasswordRequest(user, _) => RevokeUserRun(s, user);
  }
}
