/**
 The refresh-token table and the statements that change it: `RefreshToken` and `PrismaRefreshTokenRepository`.
 A row's id is its position, since rows are never deleted. Tokens appear as their hashes.
 */
module TokenTable {
  import opened Prelude

  const DEFAULT_TTL_DAYS: nat := 14
  const MS_PER_DAY: nat := 86_400_000

  datatype Row = Row(
    user: nat,
    hash: nat,
    family: nat,
    expiresAt: nat,
    createdAt: nat,
    usedAt: Option<nat>,
    revokedAt: Option<nat>)
  {
    predicate IsUsable(now: nat) {
      usedAt.None? && revokedAt.None? && expiresAt > now
    }

    predicate IsUsed() {
      usedAt.Some?
    }

    function MarkUsed(now: nat): Row { this.(usedAt := Some(now)) }

    /** A revocation keeps the time of the first one. */
    function Revoke(now: nat): Row {
      if revokedAt.None? then this.(revokedAt := Some(now)) else this
    }
  }

  type Table = seq<Row>

  /** The configured life of a token in days, when the setting parses to a positive number. */
  function TtlDays(parsed: Option<int>): (days: nat)
    ensures parsed.Some? && parsed.value > 0 ==> days == parsed.value
    ensures parsed.None? || parsed.value <= 0 ==> days == 14
  {
    if parsed.Some? && parsed.value > 0 then parsed.value else DEFAULT_TTL_DAYS
  }

  /** What one issue of a session draws: the token's hash, the time, the configured life, and whether signing fails. */
  datatype Draw = Draw(hash: nat, at: nat, ttl: Option<int>, signFails: bool)

  function NewRow(user: nat, family: nat, draw: Draw): Row {
    Row(user, draw.hash, family, draw.at + TtlDays(draw.ttl) * MS_PER_DAY, draw.at, None, None)
  }

  /** The row with this hash, if any; the column is unique. */
  function Lookup(rows: Table, hash: nat): (id: Option<nat>)
    ensures id.Some? ==> id.value < |rows| && rows[id.value].hash == hash
    ensures id.None? ==> forall i :: 0 <= i < |rows| ==> rows[i].hash != hash
  {
    if rows == [] then None
    else if rows[|rows| - 1].hash == hash then Some(|rows| - 1)
    else Lookup(rows[..|rows| - 1], hash)
  }

  function RevokeFamily(rows: Table, family: nat, now: nat): (r: Table)
    ensures |r| == |rows|
    ensures forall i :: 0 <= i < |rows| ==>
      r[i] == if rows[i].family == family && rows[i].revokedAt.None? then rows[i].(revokedAt := Some(now)) else rows[i]
  {
    seq(|rows|, i requires 0 <= i < |rows| => if rows[i].family == family then rows[i].Revoke(now) else rows[i])
  }

  function RevokeUser(rows: Table, user: nat, now: nat): (r: Table)
    ensures |r| == |rows|
    ensures forall i :: 0 <= i < |rows| ==>
      r[i] == if rows[i].user == user && rows[i].revokedAt.None? then rows[i].(revokedAt := Some(now)) else rows[i]
  {
    seq(|rows|, i requires 0 <= i < |rows| => if rows[i].user == user then rows[i].Revoke(now) else rows[i])
  }

  /** The table after the transaction that consumes row `id` and issues its successor. */
  function Rotated(rows: Table, id: nat, now: nat, draw: Draw): Table
    requires id < |rows|
  {
    rows[id := rows[id].MarkUsed(now)] + [NewRow(rows[id].user, rows[id].family, draw)]
  }

  // ---------------------------------------------------------------- what every table satisfies

  ghost predicate FamilyExists(rows: Table, family: nat) {
    exists i :: 0 <= i < |rows| && rows[i].family == family
  }

  ghost predicate UniqueHashes(rows: Table) {
    forall i, j :: 0 <= i < j < |rows| ==> rows[i].hash != rows[j].hash
  }

  ghost predicate OwnersAgree(rows: Table) {
    forall i, j :: 0 <= i < |rows| && 0 <= j < |rows| && rows[i].family == rows[j].family ==> rows[i].user == rows[j].user
  }

  ghost function UnusedIn(family: nat): Row -> bool { (r: Row) => r.family == family && !r.IsUsed() }

  /** A family that exists has exactly one row that has not been used. */
  ghost predicate OneUnused(rows: Table) {
    forall family :: CountIf(rows, UnusedIn(family)) == Indicator(FamilyExists(rows, family))
  }

  ghost predicate Inv(rows: Table) {
    UniqueHashes(rows) && OwnersAgree(rows) && OneUnused(rows)
  }

  ghost predicate OwnsFamily(rows: Table, user: nat, family: nat) {
    exists i :: 0 <= i < |rows| && rows[i].family == family && rows[i].user == user
  }

  // ---------------------------------------------------------------- requests, one at a time

  datatype Request =
    | LoginRequest(user: nat, family: nat, draw: Draw)
    | RefreshRequest(hash: nat, now: nat, users: set<nat>, draw: Draw)
    | LogoutRequest(hash: nat, now: nat)
    | RevokeSessionRequest(user: nat, family: nat, now: nat)
    | ChangePasswordRequest(user: nat, now: nat)

  /** How a refresh ends. */
  datatype Outcome = Issued(hash: nat) | Invalid | Reused | ServerError

  /** The draws that the program takes from a random source are new. */
  ghost predicate Fresh(rows: Table, request: Request) {
    match request
    case LoginRequest(_, family, draw) => !FamilyExists(rows, family) && Lookup(rows, draw.hash).None?
    case RefreshRequest(_, _, _, draw) => Lookup(rows, draw.hash).None?
    case _ => true
  }

  ghost function RefreshOutcome(rows: Table, hash: nat, now: nat, users: set<nat>, draw: Draw): Outcome {
    match Lookup(rows, hash)
    case None => Invalid
    case Some(id) =>
      if rows[id].IsUsed() then Reused
      else if !rows[id].IsUsable(now) || rows[id].user !in users then Invalid
      else if draw.signFails then ServerError
      else Issued(draw.hash)
  }

  ghost function Serve(rows: Table, request: Request): Table {
    match request
    case LoginRequest(user, family, draw) => rows + [NewRow(user, family, draw)]
    case RefreshRequest(hash, now, users, draw) =>
      (match RefreshOutcome(rows, hash, now, users, draw)
       case Reused => RevokeFamily(rows, rows[Lookup(rows, hash).value].family, now)
       case Issued(_) => Rotated(rows, Lookup(rows, hash).value, now, draw)
       case _ => rows)
    case LogoutRequest(hash, now) =>
      if Lookup(rows, hash).Some? then RevokeFamily(rows, rows[Lookup(rows, hash).value].family, now) else rows
    case RevokeSessionRequest(user, family, now) =>
      if OwnsFamily(rows, user, family) then RevokeFamily(rows, family, now) else rows
    case ChangePasswordRequest(user, now) => RevokeUser(rows, user, now)
  }

  // ---------------------------------------------------------------- invariants of serial histories

  /** Tables that differ in revocation times only. */
  ghost predicate SameButRevoked(rows: Table, rows': Table) {
    |rows'| == |rows| && forall i :: 0 <= i < |rows| ==> rows'[i].(revokedAt := rows[i].revokedAt) == rows[i]
  }

  lemma ExistsSame(rows: Table, rows': Table, family: nat)
    requires |rows| == |rows'| && forall i :: 0 <= i < |rows| ==> rows'[i].family == rows[i].family
    ensures FamilyExists(rows', family) <==> FamilyExists(rows, family)
  {
    if FamilyExists(rows, family) {
      var i :| 0 <= i < |rows| && rows[i].family == family;
      assert rows'[i].family == family;
    }
    if FamilyExists(rows', family) {
      var i :| 0 <= i < |rows'| && rows'[i].family == family;
      assert rows[i].family == family;
    }
  }

  lemma RevokedInv(rows: Table, rows': Table)
    requires Inv(rows) && SameButRevoked(rows, rows')
    ensures Inv(rows')
  {
    forall i | 0 <= i < |rows|
      ensures rows'[i].hash == rows[i].hash && rows'[i].family == rows[i].family
           && rows'[i].user == rows[i].user && rows'[i].usedAt == rows[i].usedAt
    {
      assert rows'[i].(revokedAt := rows[i].revokedAt) == rows[i];
    }
    forall family ensures CountIf(rows', UnusedIn(family)) == Indicator(FamilyExists(rows', family)) {
      CountSame(rows, rows', UnusedIn(family));
      ExistsSame(rows, rows', family);
    }
  }

  lemma ExistsAppend(rows: Table, row: Row, family: nat)
    ensures FamilyExists(rows + [row], family) <==> FamilyExists(rows, family) || row.family == family
  {
    if FamilyExists(rows, family) {
      var i :| 0 <= i < |rows| && rows[i].family == family;
      assert (rows + [row])[i].family == family;
    }
    if row.family == family {
      assert (rows + [row])[|rows|].family == family;
    }
  }

  lemma LoginInv(rows: Table, user: nat, family: nat, draw: Draw)
    requires Inv(rows) && !FamilyExists(rows, family) && Lookup(rows, draw.hash).None?
    ensures Inv(rows + [NewRow(user, family, draw)])
  {
    forall f ensures CountIf(rows + [NewRow(user, family, draw)], UnusedIn(f))
                  == Indicator(FamilyExists(rows + [NewRow(user, family, draw)], f)) {
      LoginOneUnused(rows, NewRow(user, family, draw), f);
    }
  }

  lemma LoginOneUnused(rows: Table, row: Row, f: nat)
    requires OneUnused(rows) && !FamilyExists(rows, row.family) && !row.IsUsed()
    ensures CountIf(rows + [row], UnusedIn(f)) == Indicator(FamilyExists(rows + [row], f))
  {
    CountAppend(rows, row, UnusedIn(f));
    ExistsAppend(rows, row, f);
  }

  lemma RotatedInv(rows: Table, id: nat, now: nat, draw: Draw)
    requires Inv(rows) && id < |rows| && !rows[id].IsUsed() && Lookup(rows, draw.hash).None?
    ensures Inv(Rotated(rows, id, now, draw))
  {
    var used := rows[id := rows[id].MarkUsed(now)];
    var row := NewRow(rows[id].user, rows[id].family, draw);
    forall f ensures CountIf(used + [row], UnusedIn(f)) == Indicator(FamilyExists(used + [row], f)) {
      CountUpdate(rows, id, rows[id].MarkUsed(now), UnusedIn(f));
      CountAppend(used, row, UnusedIn(f));
      ExistsSame(rows, used, f);
      ExistsAppend(used, row, f);
    }
  }

  /** Every request keeps hashes unique, owners agreed and one unused row per family. */
  lemma ServeInv(rows: Table, request: Request)
    requires Inv(rows) && Fresh(rows, request)
    ensures Inv(Serve(rows, request))
  {
    match request
    case LoginRequest(user, family, draw) => LoginInv(rows, user, family, draw);
    case RefreshRequest(hash, now, users, draw) =>
      var outcome := RefreshOutcome(rows, hash, now, users, draw);
      if outcome.Issued? {
        RotatedInv(rows, Lookup(rows, hash).value, now, draw);
      } else {
        RevokedInv(rows, Serve(rows, request));
      }
    case _ => RevokedInv(rows, Serve(rows, request));
  }

  /** A history: each request served in turn, with fresh draws. */
  ghost predicate History(rows: Table, requests: seq<Request>)
    decreases |requests|
  {
    requests == [] || (Fresh(rows, requests[0]) && History(Serve(rows, requests[0]), requests[1..]))
  }

  ghost function ServeAll(rows: Table, requests: seq<Request>): Table
    decreases |requests|
  {
    if requests == [] then rows else ServeAll(Serve(rows, requests[0]), requests[1..])
  }

  lemma {:induction false} HistoryInv(rows: Table, requests: seq<Request>)
    requires Inv(rows) && History(rows, requests)
    ensures Inv(ServeAll(rows, requests))
    decreases |requests|
  {
    if requests != [] {
      ServeInv(rows, requests[0]);
      HistoryInv(Serve(rows, requests[0]), requests[1..]);
    }
  }

  // ---------------------------------------------------------------- what a presented token can do

  /** The answer to a presented token, on the columns of its row, and what it changes. */
  lemma RefreshOnColumns(rows: Table, i: nat, now: nat, users: set<nat>, draw: Draw)
    requires Inv(rows) && i < |rows|
    ensures var row, request := rows[i], RefreshRequest(rows[i].hash, now, users, draw);
      var outcome := RefreshOutcome(rows, row.hash, now, users, draw);
      && outcome == (if row.usedAt.Some? then Reused
                     else if row.revokedAt.Some? || row.expiresAt <= now || row.user !in users then Invalid
                     else if draw.signFails then ServerError
                     else Issued(draw.hash))
      && (outcome.Issued? ==>
            var expiresAt := draw.at + TtlDays(draw.ttl) * 86_400_000;
            Serve(rows, request) == rows[i := row.(usedAt := Some(now))]
                                    + [Row(row.user, draw.hash, row.family, expiresAt, draw.at, None, None)])
      && (outcome.Invalid? || outcome.ServerError? ==> Serve(rows, request) == rows)
  {
    LookupFound(rows, i);
  }

  lemma LookupFound(rows: Table, i: nat)
    requires UniqueHashes(rows) && i < |rows|
    ensures Lookup(rows, rows[i].hash) == Some(i)
  {
  }

  /** A refresh issues a pair only for the family's one row that is unused, and that row is unrevoked and unexpired. */
  lemma OnlyTheUnusedRowRefreshes(rows: Table, hash: nat, now: nat, users: set<nat>, draw: Draw)
    requires Inv(rows)
    ensures RefreshOutcome(rows, hash, now, users, draw).Issued? <==>
      && !draw.signFails
      && exists i :: 0 <= i < |rows| && rows[i].hash == hash && rows[i].user in users
                     && rows[i].usedAt.None? && rows[i].revokedAt.None? && now < rows[i].expiresAt
    ensures forall i, j | 0 <= i < |rows| && 0 <= j < |rows| && rows[i].family == rows[j].family ::
      rows[i].usedAt.None? && rows[j].usedAt.None? ==> i == j
  {
    var id := Lookup(rows, hash);
    if exists i :: 0 <= i < |rows| && rows[i].hash == hash {
      var i :| 0 <= i < |rows| && rows[i].hash == hash;
      assert id.value == i;
    }
    forall i, j | 0 <= i < |rows| && 0 <= j < |rows| && rows[i].family == rows[j].family
      && !rows[i].IsUsed() && !rows[j].IsUsed()
      ensures i == j
    {
      var p := UnusedIn(rows[i].family);
      assert CountIf(rows, p) <= 1;
      CountAtMostOne(rows, p);
      assert p(rows[i]) && p(rows[j]);
    }
  }

  ghost predicate Dead(rows: Table, family: nat) {
    forall i :: 0 <= i < |rows| && rows[i].family == family ==> rows[i].revokedAt.Some?
  }

  /** A spent token, expired and revoked ones included, is answered as reuse and takes its whole family down. */
  lemma ReuseKillsFamily(rows: Table, i: nat, now: nat, users: set<nat>, draw: Draw)
    requires Inv(rows) && i < |rows| && rows[i].usedAt.Some?
    ensures RefreshOutcome(rows, rows[i].hash, now, users, draw) == Reused
    ensures Dead(Serve(rows, RefreshRequest(rows[i].hash, now, users, draw)), rows[i].family)
  {
    assert Lookup(rows, rows[i].hash) == Some(i);
  }

  /** An unknown token, and an unused one that expired or was revoked, changes nothing. */
  lemma DeadTokenChangesNothing(rows: Table, hash: nat, now: nat, users: set<nat>, draw: Draw)
    requires Inv(rows)
    requires forall i :: 0 <= i < |rows| && rows[i].hash == hash ==>
      rows[i].usedAt.None? && (rows[i].revokedAt.Some? || rows[i].expiresAt <= now)
    ensures Serve(rows, RefreshRequest(hash, now, users, draw)) == rows
    ensures RefreshOutcome(rows, hash, now, users, draw) == Invalid
  {
  }

  lemma DeadStep(rows: Table, request: Request, family: nat)
    requires Inv(rows) && Fresh(rows, request) && Dead(rows, family) && FamilyExists(rows, family)
    ensures Dead(Serve(rows, request), family) && FamilyExists(Serve(rows, request), family)
  {
    var rows' := Serve(rows, request);
    var i :| 0 <= i < |rows| && rows[i].family == family;
    assert rows'[i].family == family;
  }

  /** No token of a dead family is refreshed, by anyone at any time. */
  ghost predicate NeverRefreshed(rows: Table, family: nat) {
    forall i, now, users, draw :: 0 <= i < |rows| && rows[i].family == family ==>
      !RefreshOutcome(rows, rows[i].hash, now, users, draw).Issued?
  }

  lemma {:induction false} DeadStays(rows: Table, requests: seq<Request>, family: nat)
    requires Inv(rows) && History(rows, requests) && Dead(rows, family) && FamilyExists(rows, family)
    ensures Dead(ServeAll(rows, requests), family)
    decreases |requests|
  {
    if requests != [] {
      ServeInv(rows, requests[0]);
      DeadStep(rows, requests[0], family);
      DeadStays(Serve(rows, requests[0]), requests[1..], family);
    }
  }

  /** A dead family stays dead: after any history every row of it is revoked, and none is ever refreshed. */
  lemma DeadForever(rows: Table, requests: seq<Request>, family: nat)
    requires Inv(rows) && History(rows, requests) && Dead(rows, family) && FamilyExists(rows, family)
    ensures Dead(ServeAll(rows, requests), family) && NeverRefreshed(ServeAll(rows, requests), family)
  {
    var after := ServeAll(rows, requests);
    DeadStays(rows, requests, family);
    HistoryInv(rows, requests);
    forall i, now, users, draw | 0 <= i < |after| && after[i].family == family
      ensures !RefreshOutcome(after, after[i].hash, now, users, draw).Issued?
    {
      RefreshOnColumns(after, i, now, users, draw);
    }
  }

  /** Reuse is final: after the spent token of a family was presented, no token of that family is ever refreshed again. */
  lemma ReuseIsFinal(rows: Table, i: nat, now: nat, users: set<nat>, draw: Draw, requests: seq<Request>)
    requires Inv(rows) && i < |rows| && rows[i].usedAt.Some?
    requires History(rows, [RefreshRequest(rows[i].hash, now, users, draw)] + requests)
    ensures var after := ServeAll(rows, [RefreshRequest(rows[i].hash, now, users, draw)] + requests);
      Dead(after, rows[i].family) && NeverRefreshed(after, rows[i].family)
  {
    var request := RefreshRequest(rows[i].hash, now, users, draw);
    assert ([request] + requests)[1..] == requests;
    ReuseKillsFamily(rows, i, now, users, draw);
    ServeInv(rows, request);
    var rows' := Serve(rows, request);
    assert rows'[i].family == rows[i].family;
    DeadForever(rows', requests, rows[i].family);
  }

  /** So are logout, revoking a session and changing the password, for the families they are about. */
  lemma RevocationsKill(rows: Table, request: Request, family: nat)
    requires Inv(rows) && Concerns(rows, request, family) && FamilyExists(rows, family)
    requires request.LogoutRequest? || request.ChangePasswordRequest?
             || (request.RevokeSessionRequest? && OwnsFamily(rows, request.user, family))
    ensures Dead(Serve(rows, request), family)
  {
    if request.ChangePasswordRequest? {
      var k :| 0 <= k < |rows| && rows[k].family == family && rows[k].user == request.user;
      assert forall i :: 0 <= i < |rows| && rows[i].family == family ==> rows[i].user == rows[k].user;
    }
  }

  /** The families that a request may touch. */
  ghost predicate Concerns(rows: Table, request: Request, family: nat) {
    match request
    case LoginRequest(_, f, _) => f == family
    case RefreshRequest(hash, _, _, _) => Lookup(rows, hash).Some? && rows[Lookup(rows, hash).value].family == family
    case LogoutRequest(hash, _) => Lookup(rows, hash).Some? && rows[Lookup(rows, hash).value].family == family
    case RevokeSessionRequest(_, f, _) => f == family
    case ChangePasswordRequest(user, _) => OwnsFamily(rows, user, family)
  }

  /**
   A request changes rows of the families it concerns only; rows keep owner, hash, family and times; a use or
   revocation time, once set, is never changed; and what is new is one row of a concerned family.
   */
  lemma OtherFamiliesUntouched(rows: Table, request: Request)
    requires Inv(rows) && Fresh(rows, request)
    ensures var rows' := Serve(rows, request);
      && |rows| <= |rows'| <= |rows| + 1
      && (forall i :: 0 <= i < |rows| && !Concerns(rows, request, rows[i].family) ==> rows'[i] == rows[i])
      && (forall i :: 0 <= i < |rows| ==>
            && rows'[i].(usedAt := rows[i].usedAt, revokedAt := rows[i].revokedAt) == rows[i]
            && (rows[i].usedAt.Some? ==> rows'[i].usedAt == rows[i].usedAt)
            && (rows[i].revokedAt.Some? ==> rows'[i].revokedAt == rows[i].revokedAt))
      && (|rows'| > |rows| ==> Concerns(rows, request, rows'[|rows|].family))
  {
    if request.ChangePasswordRequest? {
      forall i | 0 <= i < |rows| && rows[i].user == request.user ensures Concerns(rows, request, rows[i].family) {
        assert OwnsFamily(rows, request.user, rows[i].family);
      }
    }
  }

  // ---------------------------------------------------------------- how long a token lives

  lemma {:induction false} RowKept(rows: Table, requests: seq<Request>, i: nat)
    requires Inv(rows) && History(rows, requests) && i < |rows|
    ensures var after := ServeAll(rows, requests);
      i < |after| && after[i].(usedAt := rows[i].usedAt, revokedAt := rows[i].revokedAt) == rows[i]
    decreases |requests|
  {
    if requests != [] {
      ServeInv(rows, requests[0]);
      OtherFamiliesUntouched(rows, requests[0]);
      RowKept(Serve(rows, requests[0]), requests[1..], i);
    }
  }

  /** A request that issues a token: a login, or a refresh answered with one. */
  ghost predicate Issues(rows: Table, request: Request) {
    match request
    case LoginRequest(_, _, _) => true
    case RefreshRequest(hash, now, users, draw) => RefreshOutcome(rows, hash, now, users, draw).Issued?
    case _ => false
  }

  /**
   A token issued by a login or a refresh, after any history: presented while it is unused and unrevoked by someone who
   is still there, it is refreshed if and only if the time is before its issue plus its days; else it is refused.
   */
  lemma TokenLivesItsDays(rows: Table, issue: Request, requests: seq<Request>, now: nat, users: set<nat>, draw: Draw)
    requires Inv(rows) && Issues(rows, issue) && History(rows, [issue] + requests) && !draw.signFails
    ensures var after, i := ServeAll(rows, [issue] + requests), |rows|;
      && i < |after| && after[i].hash == issue.draw.hash && after[i].createdAt == issue.draw.at
      && (after[i].usedAt.None? && after[i].revokedAt.None? && after[i].user in users ==>
            RefreshOutcome(after, issue.draw.hash, now, users, draw)
              == if now < issue.draw.at + TtlDays(issue.draw.ttl) * 86_400_000 then Issued(draw.hash) else Invalid)
  {
    assert ([issue] + requests)[1..] == requests;
    var rows' := Serve(rows, issue);
    ServeInv(rows, issue);
    RowKept(rows', requests, |rows|);
    HistoryInv(rows', requests);
    RefreshOnColumns(ServeAll(rows, [issue] + requests), |rows|, now, users, draw);
  }
}
