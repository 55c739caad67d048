/**
 Sessions served one request at a time: `PrismaRefreshTokenRepository`, `IssueSessionService` and the use cases
 that write token rows. What each method does to the table is the statement or the request of `TokenTable`.
 */
module RefreshTokens {
  import opened Prelude
  import T = TokenTable

  ghost function LiveIn(family: nat): T.Row -> bool { (r: T.Row) => r.family == family && r.revokedAt.None? }
  ghost function LiveOf(user: nat): T.Row -> bool { (r: T.Row) => r.user == user && r.revokedAt.None? }

  class RefreshTokenRepository {
    var rows: T.Table

    constructor ()
      ensures rows == [] && T.Inv(rows)
    {
      rows := [];
    }

    /** INSERT; the unique hash rejects a second row for one token. */
    method Save(row: T.Row) returns (ok: bool)
      modifies this`rows
      ensures ok <==> T.Lookup(old(rows), row.hash).None?
      ensures rows == old(rows) + (if ok then [row] else [])
    {
      ok := T.Lookup(rows, row.hash).None?;
      if ok {
        rows := rows + [row];
      }
    }

    method FindByHash(hash: nat) returns (id: Option<nat>)
      requires T.UniqueHashes(rows)
      ensures id == T.Lookup(rows, hash)
    {
      for i := 0 to |rows|
        invariant forall j :: 0 <= j < i ==> rows[j].hash != hash
      {
        if rows[i].hash == hash {
          T.LookupFound(rows, i);
          return Some(i);
        }
      }
      id := None;
    }

    /** UPDATE ... WHERE id AND usedAt IS NULL: the compare-and-set. */
    method MarkUsed(id: nat, usedAt: nat) returns (count: nat)
      requires id < |rows|
      modifies this`rows
      ensures count == if old(rows)[id].usedAt.Some? then 0 else 1
      ensures rows == if count == 1 then old(rows)[id := old(rows)[id].(usedAt := Some(usedAt))] else old(rows)
    {
      count := 0;
      if !rows[id].IsUsed() {
        rows := rows[id := rows[id].(usedAt := Some(usedAt))];
        count := 1;
      }
    }

    method RevokeFamily(family: nat, revokedAt: nat) returns (count: nat)
      modifies this`rows
      ensures rows == T.RevokeFamily(old(rows), family, revokedAt)
      ensures count == CountIf(old(rows), LiveIn(family))
    {
      count := 0;
      ghost var before := rows;
      for i := 0 to |rows|
        invariant |rows| == |before|
        invariant forall j :: 0 <= j < i ==> rows[j] == T.RevokeFamily(before, family, revokedAt)[j]
        invariant forall j :: i <= j < |rows| ==> rows[j] == before[j]
        invariant count == CountIf(before[..i], LiveIn(family))
      {
        assert before[..i + 1][..i] == before[..i];
        if rows[i].family == family && rows[i].revokedAt.None? {
          rows := rows[i := rows[i].(revokedAt := Some(revokedAt))];
          count := count + 1;
        }
      }
      assert before[..|before|] == before;
    }

    method RevokeAllByUser(user: nat, revokedAt: nat) returns (count: nat)
      modifies this`rows
      ensures rows == T.RevokeUser(old(rows), user, revokedAt)
      ensures count == CountIf(old(rows), LiveOf(user))
    {
      count := 0;
      ghost var before := rows;
      for i := 0 to |rows|
        invariant |rows| == |before|
        invariant forall j :: 0 <= j < i ==> rows[j] == T.RevokeUser(before, user, revokedAt)[j]
        invariant forall j :: i <= j < |rows| ==> rows[j] == before[j]
        invariant count == CountIf(before[..i], LiveOf(user))
      {
        assert before[..i + 1][..i] == before[..i];
        if rows[i].user == user && rows[i].revokedAt.None? {
          rows := rows[i := rows[i].(revokedAt := Some(revokedAt))];
          count := count + 1;
        }
      }
      assert before[..|before|] == before;
    }

    /** The owner on some row of the family; since owners agree, it does not matter which row was read. */
    method FindFamilyOwner(family: nat) returns (owner: Option<nat>)
      requires T.OwnersAgree(rows)
      ensures owner.None? <==> !T.FamilyExists(rows, family)
      ensures forall user: nat :: owner == Some(user) <==> T.OwnsFamily(rows, user, family)
    {
      for i := 0 to |rows|
        invariant forall j :: 0 <= j < i ==> rows[j].family != family
      {
        if rows[i].family == family {
          return Some(rows[i].user);
        }
      }
      owner := None;
    }
  }

  /** What the checks before the refresh transaction decide. */
  datatype Verdict = Unknown | Spent | NotUsable | NoUser | Consume(id: nat)

  /** Users and their password hashes; who signed up through OAuth has none. */
  class UserTable {
    var passwords: map<nat, Option<nat>>

    constructor ()
      ensures passwords == map[]
    {
      passwords := map[];
    }
  }

  datatype ChangeOutcome = Changed | UserNotFound | InvalidCredentials | RolledBack

  class SessionUseCases {
    const repo: RefreshTokenRepository
    const users: UserTable

    constructor (repo: RefreshTokenRepository, users: UserTable)
      ensures this.repo == repo && this.users == users
    {
      this.repo, this.users := repo, users;
    }

    /** `IssueSessionService.issue`: the row is saved before the access token is signed. */
    method Issue(user: nat, family: nat, draw: T.Draw) returns (saved: bool, signed: bool)
      modifies repo`rows
      ensures saved <==> T.Lookup(old(repo.rows), draw.hash).None?
      ensures signed <==> saved && !draw.signFails
      ensures repo.rows == old(repo.rows) + (if saved then [T.NewRow(user, family, draw)] else [])
      ensures saved ==>
        var expiresAt := draw.at + T.TtlDays(draw.ttl) * 86_400_000;
        repo.rows[|old(repo.rows)|] == T.Row(user, draw.hash, family, expiresAt, draw.at, None, None)
    {
      var expiresAt := draw.at + T.TtlDays(draw.ttl) * T.MS_PER_DAY;
      saved := repo.Save(T.Row(user, draw.hash, family, expiresAt, draw.at, None, None));
      signed := saved && !draw.signFails;
    }

    /** The part of `RefreshTokensUseCase.execute` before its transaction; a spent token revokes its family. */
    method Judge(hash: nat, now: nat, users: set<nat>) returns (verdict: Verdict)
      requires T.UniqueHashes(repo.rows)
      modifies repo`rows
      ensures var rows, id := old(repo.rows), T.Lookup(old(repo.rows), hash);
        && (verdict.Unknown? <==> id.None?)
        && (verdict.Spent? <==> id.Some? && rows[id.value].usedAt.Some?)
        && (verdict.NotUsable? <==> id.Some? && rows[id.value].usedAt.None?
                                    && (rows[id.value].revokedAt.Some? || rows[id.value].expiresAt <= now))
        && (verdict.NoUser? <==> id.Some? && rows[id.value].usedAt.None? && rows[id.value].revokedAt.None?
                                 && now < rows[id.value].expiresAt && rows[id.value].user !in users)
        && (verdict.Consume? ==> id == Some(verdict.id))
        && repo.rows == if verdict.Spent? then T.RevokeFamily(rows, rows[id.value].family, now) else rows
    {
      var found := repo.FindByHash(hash);
      if found.None? { return Unknown; }
      var row := repo.rows[found.value];
      if row.IsUsed() {
        var _ := repo.RevokeFamily(row.family, now);
        return Spent;
      }
      if !row.IsUsable(now) { return NotUsable; }
      if row.user !in users { return NoUser; }
      verdict := Consume(found.value);
    }

    /**
     The transaction of `RefreshTokensUseCase.execute`, whatever happened to row `id` since it was looked up:
     the row is consumed and its successor inserted, or nothing happens. It tests `usedAt` alone.
     */
    method ConsumeAndIssue(id: nat, now: nat, draw: T.Draw) returns (outcome: T.Outcome)
      requires id < |repo.rows|
      modifies repo`rows
      ensures outcome.Reused? <==> old(repo.rows)[id].usedAt.Some?
      ensures outcome.Issued? <==>
        old(repo.rows)[id].usedAt.None? && T.Lookup(old(repo.rows), draw.hash).None? && !draw.signFails
      ensures !outcome.Invalid? && (outcome.Issued? ==> outcome.hash == draw.hash)
      ensures repo.rows == if outcome.Issued? then T.Rotated(old(repo.rows), id, now, draw) else old(repo.rows)
    {
      var before := repo.rows;
      var updated := repo.MarkUsed(id, now);
      if updated == 0 { return T.Reused; }
      SameHashes(before, repo.rows, draw.hash);
      var saved, signed := Issue(before[id].user, before[id].family, draw);
      if signed {
        outcome := T.Issued(draw.hash);
      } else {
        repo.rows := before;
        outcome := T.ServerError;
      }
    }

    /** `RefreshTokensUseCase.execute` with nothing running beside it. */
    method Refresh(hash: nat, now: nat, users: set<nat>, draw: T.Draw) returns (outcome: T.Outcome)
      requires T.Inv(repo.rows) && T.Fresh(repo.rows, T.RefreshRequest(hash, now, users, draw))
      modifies repo`rows
      ensures T.Inv(repo.rows)
      ensures outcome == T.RefreshOutcome(old(repo.rows), hash, now, users, draw)
      ensures repo.rows == T.Serve(old(repo.rows), T.RefreshRequest(hash, now, users, draw))
      ensures outcome.Issued? <==>
        && !draw.signFails
        && exists i :: 0 <= i < |old(repo.rows)| && old(repo.rows)[i].hash == hash && old(repo.rows)[i].user in users
             && old(repo.rows)[i].usedAt.None? && old(repo.rows)[i].revokedAt.None? && now < old(repo.rows)[i].expiresAt
      ensures outcome.Reused? <==>
        exists i :: 0 <= i < |old(repo.rows)| && old(repo.rows)[i].hash == hash && old(repo.rows)[i].usedAt.Some?
      ensures !outcome.Issued? && !outcome.Reused? ==> repo.rows == old(repo.rows)
      ensures forall r :: r in old(repo.rows) && r.hash == hash && r.usedAt.None? && r.expiresAt <= now ==> outcome.Invalid?
    {
      RefreshAnswers(repo.rows, hash, now, users, draw);
      T.ServeInv(repo.rows, T.RefreshRequest(hash, now, users, draw));
      var verdict := Judge(hash, now, users);
      match verdict {
        case Unknown => outcome := T.Invalid;
        case Spent => outcome := T.Reused;
        case NotUsable => outcome := T.Invalid;
        case NoUser => outcome := T.Invalid;
        case Consume(id) => outcome := ConsumeAndIssue(id, now, draw);
      }
    }

    /** `LoginUseCase.execute` after the password check: a session in a new family. */
    method Login(user: nat, family: nat, draw: T.Draw) returns (ok: bool)
      requires T.Inv(repo.rows) && T.Fresh(repo.rows, T.LoginRequest(user, family, draw))
      modifies repo`rows
      ensures T.Inv(repo.rows)
      ensures repo.rows == T.Serve(old(repo.rows), T.LoginRequest(user, family, draw))
      ensures ok <==> !draw.signFails
    {
      T.ServeInv(repo.rows, T.LoginRequest(user, family, draw));
      var saved;
      saved, ok := Issue(user, family, draw);
    }

    /** `LogoutUseCase.execute`: an unknown token is no error. */
    method Logout(hash: nat, now: nat)
      requires T.Inv(repo.rows)
      modifies repo`rows
      ensures T.Inv(repo.rows)
      ensures repo.rows == T.Serve(old(repo.rows), T.LogoutRequest(hash, now))
    {
      T.ServeInv(repo.rows, T.LogoutRequest(hash, now));
      var found := repo.FindByHash(hash);
      if found.Some? {
        var _ := repo.RevokeFamily(repo.rows[found.value].family, now);
      }
    }

    /** `RevokeSessionUseCase.execute`: only the owner may, and an unknown family is refused alike. */
    method RevokeSession(user: nat, family: nat, now: nat) returns (ok: bool)
      requires T.Inv(repo.rows)
      modifies repo`rows
      ensures T.Inv(repo.rows)
      ensures ok <==> T.OwnsFamily(old(repo.rows), user, family)
      ensures repo.rows == T.Serve(old(repo.rows), T.RevokeSessionRequest(user, family, now))
    {
      T.ServeInv(repo.rows, T.RevokeSessionRequest(user, family, now));
      var owner := repo.FindFamilyOwner(family);
      if owner != Some(user) { return false; }
      var _ := repo.RevokeFamily(family, now);
      ok := true;
    }

    /**
     `ChangePasswordUseCase.execute`: the new hash and the revocation of all the user's rows happen together or not at
     all. `matches` is what the hasher says of the current password, `fails` that the transaction does not commit.
     */
    method ChangePassword(user: nat, matches: bool, newHash: nat, now: nat, fails: bool) returns (outcome: ChangeOutcome)
      requires T.Inv(repo.rows)
      modifies repo`rows, users`passwords
      ensures T.Inv(repo.rows)
      ensures outcome == if user !in old(users.passwords) then UserNotFound
                         else if old(users.passwords)[user].None? || !matches then InvalidCredentials
                         else if fails then RolledBack else Changed
      ensures outcome.Changed? ==>
        && users.passwords == old(users.passwords)[user := Some(newHash)]
        && repo.rows == T.Serve(old(repo.rows), T.ChangePasswordRequest(user, now))
      ensures !outcome.Changed? ==> users.passwords == old(users.passwords) && repo.rows == old(repo.rows)
    {
      if user !in users.passwords { return UserNotFound; }
      if users.passwords[user].None? || !matches { return InvalidCredentials; }
      T.ServeInv(repo.rows, T.ChangePasswordRequest(user, now));
      var rows, passwords := repo.rows, users.passwords;
      users.passwords := users.passwords[user := Some(newHash)];
      var _ := repo.RevokeAllByUser(user, now);
      if fails {
        repo.rows, users.passwords := rows, passwords;
        return RolledBack;
      }
      return Changed;
    }
  }

  /** The serial answers on the columns of whichever row has the hash. */
  lemma RefreshAnswers(rows: T.Table, hash: nat, now: nat, users: set<nat>, draw: T.Draw)
    requires T.Inv(rows)
    ensures forall i :: 0 <= i < |rows| && rows[i].hash == hash ==>
      T.RefreshOutcome(rows, hash, now, users, draw)
        == if rows[i].usedAt.Some? then T.Reused
           else if rows[i].revokedAt.Some? || rows[i].expiresAt <= now || rows[i].user !in users then T.Invalid
           else if draw.signFails then T.ServerError
           else T.Issued(draw.hash)
    ensures (forall i :: 0 <= i < |rows| ==> rows[i].hash != hash) ==>
      T.RefreshOutcome(rows, hash, now, users, draw) == T.Invalid
  {
    forall i | 0 <= i < |rows| && rows[i].hash == hash
      ensures T.RefreshOutcome(rows, hash, now, users, draw)
        == if rows[i].usedAt.Some? then T.Reused
           else if rows[i].revokedAt.Some? || rows[i].expiresAt <= now || rows[i].user !in users then T.Invalid
           else if draw.signFails then T.ServerError
           else T.Issued(draw.hash)
    {
      T.RefreshOnColumns(rows, i, now, users, draw);
    }
  }

  lemma SameHashes(rows: T.Table, rows': T.Table, hash: nat)
    requires |rows| == |rows'| && forall i :: 0 <= i < |rows| ==> rows'[i].hash == rows[i].hash
    ensures T.Lookup(rows', hash) == T.Lookup(rows, hash)
  {
    if rows != [] {
      SameHashes(rows[..|rows| - 1], rows'[..|rows| - 1], hash);
    }
  }
}
