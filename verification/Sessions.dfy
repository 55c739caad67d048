/** The session list: `findActiveFamilies` and `ListSessionsUseCase`. */
module Sessions {
  import opened Prelude
  import T = TokenTable

  datatype Summary = Summary(family: nat, createdAt: nat)

  datatype View = View(family: nat, createdAt: nat, current: bool)

  ghost predicate HasUsable(rows: T.Table, user: nat, now: nat, family: nat) {
    exists i :: 0 <= i < |rows| && rows[i].user == user && rows[i].family == family && Works(rows[i], now)
  }

  /** The token can still be refreshed. */
  predicate Works(row: T.Row, now: nat) {
    row.usedAt.None? && row.revokedAt.None? && now < row.expiresAt
  }

  /** `at` is when the family's first row was made, which is when its user logged in. */
  ghost predicate IsLoginTime(rows: T.Table, user: nat, family: nat, at: nat) {
    && (exists i :: 0 <= i < |rows| && rows[i].user == user && rows[i].family == family && rows[i].createdAt == at)
    && (forall i :: 0 <= i < |rows| && rows[i].user == user && rows[i].family == family ==> at <= rows[i].createdAt)
  }

  ghost predicate Listed(list: seq<Summary>, family: nat) {
    exists k :: 0 <= k < |list| && list[k].family == family
  }

  ghost predicate NewestFirst(list: seq<Summary>) {
    forall j, k :: 0 <= j < k < |list| ==> list[j].createdAt >= list[k].createdAt
  }

  ghost predicate EachOnce(list: seq<Summary>) {
    forall j, k :: 0 <= j < k < |list| ==> list[j].family != list[k].family
  }

  /** The first query: the family of every usable row. */
  method ActiveFamilies(rows: T.Table, user: nat, now: nat) returns (families: seq<nat>)
    ensures forall f :: f in families <==> HasUsable(rows, user, now, f)
  {
    families := [];
    for i := 0 to |rows|
      invariant forall f :: f in families <==> HasUsable(rows[..i], user, now, f)
    {
      ghost var before := families;
      if rows[i].user == user && rows[i].usedAt.None? && rows[i].revokedAt.None? && rows[i].expiresAt > now {
        families := families + [rows[i].family];
      }
      forall f ensures f in families <==> HasUsable(rows[..i + 1], user, now, f) {
        OneMoreRow(rows, i, user, now, f);
      }
    }
    assert rows[..|rows|] == rows;
  }

  lemma OneMoreRow(rows: T.Table, i: nat, user: nat, now: nat, family: nat)
    requires i < |rows|
    ensures HasUsable(rows[..i + 1], user, now, family)
       <==> HasUsable(rows[..i], user, now, family)
            || (rows[i].user == user && Works(rows[i], now) && rows[i].family == family)
  {
    var s, t := rows[..i], rows[..i + 1];
    if HasUsable(s, user, now, family) {
      var k :| 0 <= k < |s| && s[k].user == user && s[k].family == family && Works(s[k], now);
      assert t[k] == s[k];
    }
    if rows[i].user == user && Works(rows[i], now) && rows[i].family == family {
      assert t[i] == rows[i];
    }
    if HasUsable(t, user, now, family) {
      var k :| 0 <= k < |t| && t[k].user == user && t[k].family == family && Works(t[k], now);
      assert k < i ==> s[k] == t[k];
    }
  }

  /** The second query's MIN(createdAt) for one group. */
  method LoginTime(rows: T.Table, user: nat, family: nat) returns (at: nat)
    requires exists i :: 0 <= i < |rows| && rows[i].user == user && rows[i].family == family
    ensures IsLoginTime(rows, user, family, at)
  {
    var best: Option<nat> := None;
    for i := 0 to |rows|
      invariant best.None? ==> forall j :: 0 <= j < i ==> !(rows[j].user == user && rows[j].family == family)
      invariant best.Some? ==>
        && (exists j :: 0 <= j < i && rows[j].user == user && rows[j].family == family && rows[j].createdAt == best.value)
        && (forall j :: 0 <= j < i && rows[j].user == user && rows[j].family == family ==> best.value <= rows[j].createdAt)
    {
      if rows[i].user == user && rows[i].family == family && (best.None? || rows[i].createdAt < best.value) {
        best := Some(rows[i].createdAt);
      }
    }
    at := best.value;
  }

  /** ORDER BY createdAt DESC, one row at a time. */
  method Insert(list: seq<Summary>, s: Summary) returns (r: seq<Summary>)
    requires NewestFirst(list) && EachOnce(list) && !Listed(list, s.family)
    ensures NewestFirst(r) && EachOnce(r)
    ensures forall k :: 0 <= k < |r| ==> r[k] == s || r[k] in list
    ensures forall f :: Listed(r, f) <==> Listed(list, f) || f == s.family
  {
    var p := 0;
    while p < |list| && list[p].createdAt >= s.createdAt
      invariant p <= |list|
      invariant forall k :: 0 <= k < p ==> list[k].createdAt >= s.createdAt
    {
      p := p + 1;
    }
    r := list[..p] + [s] + list[p..];
    InsertedAt(list, s, p, r);
  }

  ghost predicate IsInsertion(list: seq<Summary>, s: Summary, p: nat, r: seq<Summary>)
    requires p <= |list|
  {
    && |r| == |list| + 1 && r[p] == s
    && (forall k :: 0 <= k < p ==> r[k] == list[k])
    && (forall k :: p < k < |r| ==> r[k] == list[k - 1])
  }

  lemma InsertedInOrder(list: seq<Summary>, s: Summary, p: nat, r: seq<Summary>)
    requires NewestFirst(list) && p <= |list|
    requires IsInsertion(list, s, p, r)
    requires forall k :: 0 <= k < p ==> list[k].createdAt >= s.createdAt
    requires p < |list| ==> list[p].createdAt < s.createdAt
    ensures NewestFirst(r)
  {
    assert forall k :: p <= k < |list| ==> list[k].createdAt < s.createdAt;
  }

  lemma InsertedAt(list: seq<Summary>, s: Summary, p: nat, r: seq<Summary>)
    requires NewestFirst(list) && EachOnce(list) && !Listed(list, s.family)
    requires p <= |list| && r == list[..p] + [s] + list[p..]
    requires forall k :: 0 <= k < p ==> list[k].createdAt >= s.createdAt
    requires p < |list| ==> list[p].createdAt < s.createdAt
    ensures NewestFirst(r) && EachOnce(r)
    ensures forall k :: 0 <= k < |r| ==> r[k] == s || r[k] in list
    ensures forall f :: Listed(r, f) <==> Listed(list, f) || f == s.family
  {
    assert IsInsertion(list, s, p, r);
    InsertedInOrder(list, s, p, r);
    InsertedOnce(list, s, p, r);
    forall f ensures Listed(r, f) <==> Listed(list, f) || f == s.family {
      InsertedListed(list, s, p, r, f);
    }
  }

  lemma InsertedOnce(list: seq<Summary>, s: Summary, p: nat, r: seq<Summary>)
    requires EachOnce(list) && !Listed(list, s.family) && p <= |list|
    requires IsInsertion(list, s, p, r)
    ensures EachOnce(r)
  {
    assert forall k :: 0 <= k < |list| ==> list[k].family != s.family;
  }

  lemma InsertedListed(list: seq<Summary>, s: Summary, p: nat, r: seq<Summary>, f: nat)
    requires p <= |list|
    requires IsInsertion(list, s, p, r)
    ensures Listed(r, f) <==> Listed(list, f) || f == s.family
  {
    if Listed(list, f) {
      var k :| 0 <= k < |list| && list[k].family == f;
      assert r[if k < p then k else k + 1] == list[k];
    }
  }

  /**
   `findActiveFamilies`: exactly the user's families with a usable row, each once, timed by the login,
   newest first.
   */
  method FindActiveFamilies(rows: T.Table, user: nat, now: nat) returns (list: seq<Summary>)
    ensures forall f :: Listed(list, f) <==> HasUsable(rows, user, now, f)
    ensures EachOnce(list) && NewestFirst(list)
    ensures forall k :: 0 <= k < |list| ==> IsLoginTime(rows, user, list[k].family, list[k].createdAt)
  {
    var families := ActiveFamilies(rows, user, now);
    list := [];
    ghost var seen: set<nat> := {};
    for i := 0 to |families|
      invariant EachOnce(list) && NewestFirst(list)
      invariant seen == set f | f in families[..i]
      invariant forall f :: Listed(list, f) <==> f in seen
      invariant forall k :: 0 <= k < |list| ==> IsLoginTime(rows, user, list[k].family, list[k].createdAt)
    {
      var f := families[i];
      assert families[..i + 1] == families[..i] + [f];
      assert HasUsable(rows, user, now, f);
      if forall k :: 0 <= k < |list| ==> list[k].family != f {
        var at := LoginTime(rows, user, f);
        list := Insert(list, Summary(f, at));
      }
      seen := seen + {f};
    }
    assert families[..|families|] == families;
  }

  ghost function IsCurrent(): View -> bool { (v: View) => v.current }

  /** `ListSessionsUseCase.execute`: the list, with the caller's own family marked; at most one is. */
  method ListSessions(rows: T.Table, user: nat, now: nat, currentFamily: Option<nat>) returns (views: seq<View>)
    ensures exists list: seq<Summary> ::
      && |list| == |views| && EachOnce(list) && NewestFirst(list)
      && (forall f :: Listed(list, f) <==> HasUsable(rows, user, now, f))
      && (forall k :: 0 <= k < |list| ==> IsLoginTime(rows, user, list[k].family, list[k].createdAt))
      && (forall k :: 0 <= k < |list| ==>
            views[k] == View(list[k].family, list[k].createdAt, currentFamily == Some(list[k].family)))
    ensures CountIf(views, IsCurrent()) <= 1
    ensures CountIf(views, IsCurrent()) == 1 <==>
      currentFamily.Some? && HasUsable(rows, user, now, currentFamily.value)
  {
    var list := FindActiveFamilies(rows, user, now);
    views := [];
    for k := 0 to |list|
      invariant |views| == k
      invariant forall j :: 0 <= j < k ==>
        views[j] == View(list[j].family, list[j].createdAt, currentFamily == Some(list[j].family))
    {
      views := views + [View(list[k].family, list[k].createdAt, currentFamily == Some(list[k].family))];
    }
    MarkedOnce(list, views, currentFamily);
  }

  lemma {:induction false} MarkedOnce(list: seq<Summary>, views: seq<View>, currentFamily: Option<nat>)
    requires |list| == |views| && EachOnce(list)
    requires forall k :: 0 <= k < |list| ==>
      views[k] == View(list[k].family, list[k].createdAt, currentFamily == Some(list[k].family))
    ensures CountIf(views, IsCurrent())
         == if currentFamily.Some? && Listed(list, currentFamily.value) then 1 else 0
  {
    if list != [] {
      var n := |list| - 1;
      MarkedOnce(list[..n], views[..n], currentFamily);
      if currentFamily.Some? {
        ListedLast(list, currentFamily.value);
      }
    }
  }

  lemma ListedLast(list: seq<Summary>, family: nat)
    requires list != [] && EachOnce(list)
    ensures var n := |list| - 1;
      && (Listed(list, family) <==> Listed(list[..n], family) || list[n].family == family)
      && !(Listed(list[..n], family) && list[n].family == family)
  {
    var n := |list| - 1;
    if Listed(list, family) {
      var k :| 0 <= k < |list| && list[k].family == family;
      assert k < n ==> list[..n][k] == list[k];
    }
    if Listed(list[..n], family) {
      var k :| 0 <= k < n && list[..n][k].family == family;
      assert list[k].family == family;
    }
  }

  /** A family is listed by one usable row only, so every session stands for exactly one token that still works. */
  lemma OneUsableRowPerSession(rows: T.Table, now: nat, i: nat, j: nat)
    requires T.Inv(rows) && i < |rows| && j < |rows| && rows[i].family == rows[j].family
    requires Works(rows[i], now) && Works(rows[j], now)
    ensures i == j
  {
    T.OnlyTheUnusedRowRefreshes(rows, 0, now, {}, T.Draw(0, 0, None, true));
  }

  /** The list is of the families that a refresh can still renew: those with a token that would be answered by a pair. */
  lemma ListedIffRefreshable(rows: T.Table, user: nat, now: nat, family: nat, draw: T.Draw)
    requires T.Inv(rows) && !draw.signFails
    ensures HasUsable(rows, user, now, family) <==>
      exists i :: 0 <= i < |rows| && rows[i].user == user && rows[i].family == family
                  && T.RefreshOutcome(rows, rows[i].hash, now, {user}, draw).Issued?
  {
    forall i | 0 <= i < |rows| && rows[i].user == user
      ensures Works(rows[i], now) <==> T.RefreshOutcome(rows, rows[i].hash, now, {user}, draw).Issued?
    {
      T.RefreshOnColumns(rows, i, now, {user}, draw);
    }
  }
}
