/**
 Notifications and the unread counter run serially: `PrismaNotificationRepository`,
 `RedisNotificationCounter` and the use cases that write or read them.
 */
module Notifications {
  import opened Prelude
  import opened RedisKeys
  import F = FanOut

  datatype Notification = Notification(event: nat, recipient: nat, read: bool)

  function UnreadBy(user: nat): Notification -> bool {
    (n: Notification) => n.recipient == user && !n.read
  }

  /** The unique key (eventId, recipientId). */
  ghost predicate Unique(rows: seq<Notification>) {
    forall i, j :: 0 <= i < j < |rows| ==> rows[i].event != rows[j].event || rows[i].recipient != rows[j].recipient
  }

  predicate Has(rows: seq<Notification>, event: nat, recipient: nat) {
    exists i :: 0 <= i < |rows| && rows[i].event == event && rows[i].recipient == recipient
  }

  function ReadAll(rows: seq<Notification>, user: nat): (r: seq<Notification>)
    ensures |r| == |rows|
    ensures forall i :: 0 <= i < |rows| ==>
      r[i] == if rows[i].recipient == user then rows[i].(read := true) else rows[i]
  {
    seq(|rows|, i requires 0 <= i < |rows| => if rows[i].recipient == user then rows[i].(read := true) else rows[i])
  }

  class NotificationTable {
    var rows: seq<Notification>

    constructor ()
      ensures rows == []
    {
      rows := [];
    }

    /** INSERT; a unique violation means the recipient has been served already. */
    method SaveIfNew(event: nat, recipient: nat) returns (created: bool)
      requires Unique(rows)
      modifies this`rows
      ensures created <==> !Has(old(rows), event, recipient)
      ensures rows == old(rows) + (if created then [Notification(event, recipient, false)] else [])
      ensures Unique(rows)
    {
      created := !Has(rows, event, recipient);
      if created {
        rows := rows + [Notification(event, recipient, false)];
      }
    }

    method MarkAllRead(user: nat)
      modifies this`rows
      ensures rows == ReadAll(old(rows), user)
    {
      var i := 0;
      ghost var before := rows;
      while i < |rows|
        invariant i <= |rows| == |before|
        invariant forall j :: 0 <= j < i ==> rows[j] == ReadAll(before, user)[j]
        invariant forall j :: i <= j < |rows| ==> rows[j] == before[j]
      {
        if rows[i].recipient == user && !rows[i].read {
          rows := rows[i := rows[i].(read := true)];
        }
        i := i + 1;
      }
    }

    /** UPDATE ... WHERE id AND recipientId AND readAt IS NULL: true exactly on an unread-to-read transition. */
    method MarkOneRead(user: nat, id: nat) returns (transitioned: bool)
      modifies this`rows
      ensures transitioned <==> id < |old(rows)| && UnreadBy(user)(old(rows)[id])
      ensures rows == if transitioned then old(rows)[id := old(rows)[id].(read := true)] else old(rows)
    {
      transitioned := id < |rows| && rows[id].recipient == user && !rows[id].read;
      if transitioned {
        rows := rows[id := rows[id].(read := true)];
      }
    }

    method CountUnread(user: nat) returns (count: nat)
      ensures count == CountIf(rows, UnreadBy(user))
    {
      count := 0;
      for i := 0 to |rows|
        invariant count == CountIf(rows[..i], UnreadBy(user))
      {
        assert rows[..i + 1][..i] == rows[..i];
        if rows[i].recipient == user && !rows[i].read {
          count := count + 1;
        }
      }
      assert rows[..|rows|] == rows;
    }
  }

  /** A live key after `n` increments; a missing one stays missing. */
  function Bumped(e: Option<Entry>, n: nat): Option<Entry> {
    if e.None? then None else Some(Entry(e.value.value + n, e.value.expiresAt))
  }

  class RedisNotificationCounter {
    var now: nat
    var keys: map<nat, Entry>

    constructor ()
      ensures keys == map[] && now == 0
    {
      now, keys := 0, map[];
    }

    function At(user: nat): (e: Option<Entry>)
      reads this
      ensures e.Some? <==> user in keys && keys[user].expiresAt > now
      ensures e.Some? ==> e.value == keys[user]
    {
      Live(if user in keys then Some(keys[user]) else None, now)
    }

    method Increment(user: nat)
      modifies this`keys
      ensures At(user) == match old(At(user))
        case None => None
        case Some(e) => Some(Entry(e.value + 1, e.expiresAt))
      ensures forall u :: u != user ==> At(u) == old(At(u))
    {
      if At(user).Some? {
        keys := keys[user := keys[user].(value := keys[user].value + 1)];
      }
    }

    method Decrement(user: nat)
      modifies this`keys
      ensures At(user) == match old(At(user))
        case None => None
        case Some(e) => Some(Entry(if e.value > 0 then e.value - 1 else 0, e.expiresAt))
      ensures forall u :: u != user ==> At(u) == old(At(u))
    {
      if At(user).Some? {
        var v := keys[user].value - 1;
        keys := keys[user := keys[user].(value := v)];
        if v < 0 {
          keys := keys[user := keys[user].(value := 0)];
        }
      }
    }

    method Get(user: nat) returns (count: Option<int>)
      ensures count == if At(user).Some? then Some(At(user).value.value) else None
    {
      count := if At(user).Some? then Some(keys[user].value) else None;
    }

    method Backfill(user: nat, count: nat)
      modifies this`keys
      ensures At(user) == match old(At(user))
        case None => Some(Entry(count, now + 3600))
        case Some(e) => Some(e)
      ensures forall u :: u != user ==> At(u) == old(At(u))
    {
      if At(user).None? {
        keys := keys[user := Entry(count, now + COUNT_TTL_SEC)];
      }
    }

    method Reset(user: nat)
      modifies this`keys
      ensures At(user).None?
      ensures forall u :: u != user ==> At(u) == old(At(u))
    {
      keys := keys - {user};
    }
  }

  /** Every unread key that is present equals the user's unread rows. */
  ghost predicate Agrees(counter: RedisNotificationCounter, table: NotificationTable)
    reads counter, table
  {
    forall u :: counter.At(u).Some? ==> counter.At(u).value.value == CountIf(table.rows, UnreadBy(u))
  }

  lemma ReadAllCounts(rows: seq<Notification>, user: nat, u: nat)
    ensures CountIf(ReadAll(rows, user), UnreadBy(u)) == if u == user then 0 else CountIf(rows, UnreadBy(u))
  {
    if u == user {
      CountZero(ReadAll(rows, user), UnreadBy(u));
    } else {
      CountSame(ReadAll(rows, user), rows, UnreadBy(u));
    }
  }

  /** How the outside world treats one recipient's turn. A counter that throws leaves `execute` like a crash does. */
  datatype Fate = Served | PushLost | StopBeforeSave | StopAfterSave | StopAfterStep

  /** The table, and the counter steps and pushes made so far. */
  datatype Work = Work(rows: seq<Notification>, stepped: seq<F.Pair>, pushed: seq<F.Pair>)

  /** What one recipient's turn does: save, step, push, the last two only for a new row. */
  function Turn(w: Work, event: nat, recipient: nat, fate: Fate): Work {
    if fate.StopBeforeSave? || Has(w.rows, event, recipient) then w
    else
      Work(w.rows + [Notification(event, recipient, false)],
           w.stepped + (if fate.StopAfterSave? then [] else [F.Pair(event, recipient)]),
           w.pushed + (if fate.Served? then [F.Pair(event, recipient)] else []))
  }

  predicate GoesOn(w: Work, event: nat, recipient: nat, fate: Fate) {
    fate.Served? || fate.PushLost? || (Has(w.rows, event, recipient) && !fate.StopBeforeSave?)
  }

  /** The work after the first `k` turns. */
  function Turns(w: Work, event: nat, recipients: seq<nat>, fates: nat -> Fate, k: nat): Work
    requires k <= |recipients|
  {
    if k == 0 then w else Turn(Turns(w, event, recipients, fates, k - 1), event, recipients[k - 1], fates(k - 1))
  }

  /** The first `k` turns all went on. */
  ghost predicate WentOn(w: Work, event: nat, recipients: seq<nat>, fates: nat -> Fate, k: nat)
    requires k <= |recipients|
  {
    k == 0 || (WentOn(w, event, recipients, fates, k - 1)
               && GoesOn(Turns(w, event, recipients, fates, k - 1), event, recipients[k - 1], fates(k - 1)))
  }

  /** The first `done` turns were taken: all but the last went on, and the last did if `full`. */
  ghost predicate Underway(w: Work, event: nat, recipients: seq<nat>, fates: nat -> Fate, done: nat, full: bool) {
    && done <= |recipients|
    && if full then WentOn(w, event, recipients, fates, done)
       else
         && done > 0 && WentOn(w, event, recipients, fates, done - 1)
         && !GoesOn(Turns(w, event, recipients, fates, done - 1), event, recipients[done - 1], fates(done - 1))
  }

  /** They were all: the work ended with the last recipient, or at a turn that did not go on. */
  ghost predicate Ended(w: Work, event: nat, recipients: seq<nat>, fates: nat -> Fate, done: nat, full: bool) {
    Underway(w, event, recipients, fates, done, full) && (full ==> done == |recipients|)
  }

  ghost function For(user: nat): F.Pair -> bool { (p: F.Pair) => p.recipient == user }

  lemma TurnHas(w: Work, event: nat, recipient: nat, fate: Fate, e: nat, r: nat)
    ensures Has(w.rows, e, r) ==> Has(Turn(w, event, recipient, fate).rows, e, r)
    ensures Has(Turn(w, event, recipient, fate).rows, e, r) ==> Has(w.rows, e, r) || (e == event && r == recipient)
    ensures GoesOn(w, event, recipient, fate) ==> Has(Turn(w, event, recipient, fate).rows, event, recipient)
  {
    HasAfter(w.rows, Turn(w, event, recipient, fate).rows, event, recipient);
  }

  /** Turns keep the rows there are and add none but the event's own. */
  lemma {:induction false} TurnsHas(w: Work, event: nat, recipients: seq<nat>, fates: nat -> Fate, k: nat, e: nat, r: nat)
    requires k <= |recipients|
    ensures Has(w.rows, e, r) ==> Has(Turns(w, event, recipients, fates, k).rows, e, r)
    ensures Has(Turns(w, event, recipients, fates, k).rows, e, r) ==> Has(w.rows, e, r) || (e == event && r in recipients)
  {
    if k > 0 {
      TurnsHas(w, event, recipients, fates, k - 1, e, r);
      TurnHas(Turns(w, event, recipients, fates, k - 1), event, recipients[k - 1], fates(k - 1), e, r);
    }
  }

  /** A turn that went on left a row, which later turns keep. */
  lemma {:induction false} TurnsServed(w: Work, event: nat, recipients: seq<nat>, fates: nat -> Fate, k: nat, j: nat)
    requires j < k <= |recipients| && WentOn(w, event, recipients, fates, k)
    ensures Has(Turns(w, event, recipients, fates, k).rows, event, recipients[j])
  {
    TurnHas(Turns(w, event, recipients, fates, k - 1), event, recipients[k - 1], fates(k - 1), event, recipients[j]);
    if j < k - 1 {
      TurnsServed(w, event, recipients, fates, k - 1, j);
    }
  }

  /** Unless a turn stops between row and step, unread rows and counter steps grow alike. */
  lemma {:induction false} TurnsCounts(w: Work, event: nat, recipients: seq<nat>, fates: nat -> Fate, k: nat, u: nat)
    requires k <= |recipients| && forall j :: 0 <= j < k ==> !fates(j).StopAfterSave?
    ensures var w' := Turns(w, event, recipients, fates, k);
      CountIf(w'.rows, UnreadBy(u)) - CountIf(w.rows, UnreadBy(u))
        == CountIf(w'.stepped, For(u)) - CountIf(w.stepped, For(u))
  {
    if k > 0 {
      var w1 := Turns(w, event, recipients, fates, k - 1);
      TurnsCounts(w, event, recipients, fates, k - 1, u);
      TurnCounts(w1, event, recipients[k - 1], fates(k - 1), u);
    }
  }

  lemma TurnCounts(w: Work, event: nat, recipient: nat, fate: Fate, u: nat)
    requires !fate.StopAfterSave?
    ensures var w' := Turn(w, event, recipient, fate);
      CountIf(w'.rows, UnreadBy(u)) - CountIf(w.rows, UnreadBy(u))
        == CountIf(w'.stepped, For(u)) - CountIf(w.stepped, For(u))
  {
    CountAppend(w.rows, Notification(event, recipient, false), UnreadBy(u));
    CountAppend(w.stepped, F.Pair(event, recipient), For(u));
  }

  /** The counter was stepped for this recipient. */
  predicate Steps(fate: Fate) { fate.Served? || fate.PushLost? || fate.StopAfterStep? }

  ghost function New(w: Work, w': Work, p: F.Pair): (n: (int, int)) {
    (CountIf(w'.stepped, F.Is(p)) - CountIf(w.stepped, F.Is(p)), CountIf(w'.pushed, F.Is(p)) - CountIf(w.pushed, F.Is(p)))
  }

  /** The row that one turn leaves recipient `u`. */
  lemma TurnRow(w: Work, event: nat, recipient: nat, fate: Fate, u: nat)
    ensures Has(Turn(w, event, recipient, fate).rows, event, u)
       <==> Has(w.rows, event, u) || (recipient == u && !fate.StopBeforeSave?)
  {
    HasAfter(w.rows, Turn(w, event, recipient, fate).rows, event, recipient);
  }

  /** How often `p` occurs after one more pair, or none. */
  lemma PairCount(pairs: seq<F.Pair>, q: F.Pair, added: bool, p: F.Pair)
    ensures CountIf(pairs + (if added then [q] else []), F.Is(p))
         == CountIf(pairs, F.Is(p)) + (if added && q == p then 1 else 0)
  {
    CountAppend(pairs, q, F.Is(p));
    assert pairs + [] == pairs;
  }

  /** The step and the push that one turn makes for recipient `u`. */
  lemma TurnFor(w: Work, event: nat, recipient: nat, fate: Fate, u: nat)
    ensures New(w, Turn(w, event, recipient, fate), F.Pair(event, u))
         == if recipient != u || Has(w.rows, event, u) then (0, 0)
            else (if Steps(fate) then 1 else 0, if fate.Served? then 1 else 0)
  {
    if !fate.StopBeforeSave? && !Has(w.rows, event, recipient) {
      var w', q, p := Turn(w, event, recipient, fate), F.Pair(event, recipient), F.Pair(event, u);
      PairCount(w.stepped, q, Steps(fate), p);
      PairCount(w.pushed, q, fate.Served?, p);
      assert w'.stepped == w.stepped + (if Steps(fate) then [q] else []);
      assert w'.pushed == w.pushed + (if fate.Served? then [q] else []);
    }
  }

  /** Turns for others, or for one already served, leave recipient `u` as before. */
  lemma {:induction false} TurnsForOthers(w: Work, event: nat, recipients: seq<nat>, fates: nat -> Fate, k: nat, u: nat)
    requires k <= |recipients| && (u !in recipients[..k] || Has(w.rows, event, u))
    ensures var w', p := Turns(w, event, recipients, fates, k), F.Pair(event, u);
      New(w, w', p) == (0, 0) && (Has(w'.rows, event, u) <==> Has(w.rows, event, u))
  {
    if k > 0 {
      assert recipients[..k] == recipients[..k - 1] + [recipients[k - 1]];
      TurnsForOthers(w, event, recipients, fates, k - 1, u);
      TurnFor(Turns(w, event, recipients, fates, k - 1), event, recipients[k - 1], fates(k - 1), u);
      TurnRow(Turns(w, event, recipients, fates, k - 1), event, recipients[k - 1], fates(k - 1), u);
    }
  }

  /** The first turn of a recipient not served before leaves what its fate says: a row, a step, a push if it came so far. */
  lemma FirstTurn(w: Work, event: nat, recipients: seq<nat>, fates: nat -> Fate, j: nat)
    requires j < |recipients| && recipients[j] !in recipients[..j] && !Has(w.rows, event, recipients[j])
    ensures var w', u := Turns(w, event, recipients, fates, j + 1), recipients[j];
      && New(w, w', F.Pair(event, u)) == (if Steps(fates(j)) then 1 else 0, if fates(j).Served? then 1 else 0)
      && (Has(w'.rows, event, u) <==> !fates(j).StopBeforeSave?)
  {
    var u, w1, w' := recipients[j], Turns(w, event, recipients, fates, j), Turns(w, event, recipients, fates, j + 1);
    TurnsForOthers(w, event, recipients, fates, j, u);
    TurnFor(w1, event, u, fates(j), u);
    TurnRow(w1, event, u, fates(j), u);
    NewAdds(w, w1, w', F.Pair(event, u));
  }

  /** Later turns add nothing for a recipient with a row. */
  lemma {:induction false} LaterTurns(w: Work, event: nat, recipients: seq<nat>, fates: nat -> Fate, j: nat, k: nat, u: nat)
    requires j <= k <= |recipients| && Has(Turns(w, event, recipients, fates, j).rows, event, u)
    ensures var w1, w' := Turns(w, event, recipients, fates, j), Turns(w, event, recipients, fates, k);
      New(w1, w', F.Pair(event, u)) == (0, 0) && Has(w'.rows, event, u)
  {
    if j < k {
      var w1, w2 := Turns(w, event, recipients, fates, j), Turns(w, event, recipients, fates, k - 1);
      LaterTurns(w, event, recipients, fates, j, k - 1, u);
      TurnFor(w2, event, recipients[k - 1], fates(k - 1), u);
      TurnRow(w2, event, recipients[k - 1], fates(k - 1), u);
      NewAdds(w1, w2, Turns(w, event, recipients, fates, k), F.Pair(event, u));
    }
  }

  /** So that is what a recipient not served before gets, if the first turn is among the first `k`. */
  lemma TurnsForNew(w: Work, event: nat, recipients: seq<nat>, fates: nat -> Fate, k: nat, j: nat)
    requires j < k <= |recipients| && WentOn(w, event, recipients, fates, k - 1)
    requires recipients[j] !in recipients[..j] && !Has(w.rows, event, recipients[j])
    ensures var w', u := Turns(w, event, recipients, fates, k), recipients[j];
      && New(w, w', F.Pair(event, u)) == (if Steps(fates(j)) then 1 else 0, if fates(j).Served? then 1 else 0)
      && (Has(w'.rows, event, u) <==> !fates(j).StopBeforeSave?)
  {
    FirstTurn(w, event, recipients, fates, j);
    if j < k - 1 {
      WentOnAt(w, event, recipients, fates, k - 1, j);
      LaterTurns(w, event, recipients, fates, j + 1, k, recipients[j]);
      var w1, w' := Turns(w, event, recipients, fates, j + 1), Turns(w, event, recipients, fates, k);
      NewAdds(w, w1, w', F.Pair(event, recipients[j]));
    }
  }

  lemma NewAdds(w: Work, w1: Work, w': Work, p: F.Pair)
    ensures New(w, w', p) == (New(w, w1, p).0 + New(w1, w', p).0, New(w, w1, p).1 + New(w1, w', p).1)
  {
  }

  lemma {:induction false} WentOnAt(w: Work, event: nat, recipients: seq<nat>, fates: nat -> Fate, k: nat, j: nat)
    requires j < k <= |recipients| && WentOn(w, event, recipients, fates, k)
    ensures !fates(j).StopBeforeSave?
  {
    if j < k - 1 { WentOnAt(w, event, recipients, fates, k - 1, j); }
  }

  /** Rows there were stay as they are, and new ones are the event's and unread; steps are the event's. */
  lemma {:induction false} TurnsAppend(w: Work, event: nat, recipients: seq<nat>, fates: nat -> Fate, k: nat)
    requires k <= |recipients|
    ensures var w' := Turns(w, event, recipients, fates, k);
      && w.rows <= w'.rows
      && (forall i :: |w.rows| <= i < |w'.rows| ==> w'.rows[i].event == event && !w'.rows[i].read)
      && w.stepped <= w'.stepped
      && (forall i :: |w.stepped| <= i < |w'.stepped| ==> w'.stepped[i].event == event)
  {
    if k > 0 { TurnsAppend(w, event, recipients, fates, k - 1); }
  }

  /** What an event's turns came to for one recipient, from the first turn on: row, counter steps, pushes. */
  ghost predicate ForRecipient(w: Work, event: nat, recipients: seq<nat>, fates: nat -> Fate, done: nat, u: nat)
    requires done <= |recipients|
  {
    var w', p := Turns(w, event, recipients, fates, done), F.Pair(event, u);
    var steps, pushes := CountIf(w'.stepped, For(u)), CountIf(w'.pushed, F.Is(p)) - CountIf(w.pushed, F.Is(p));
    && (u !in recipients[..done] || Has(w.rows, event, u) ==>
          steps == pushes == 0 && (Has(w'.rows, event, u) <==> Has(w.rows, event, u)))
    && forall j :: 0 <= j < done && recipients[j] == u && u !in recipients[..j] && !Has(w.rows, event, u) ==>
         && steps == (if Steps(fates(j)) then 1 else 0) && pushes == (if fates(j).Served? then 1 else 0)
         && (Has(w'.rows, event, u) <==> !fates(j).StopBeforeSave?)
  }

  lemma EventFor(w: Work, event: nat, recipients: seq<nat>, fates: nat -> Fate, done: nat, full: bool, u: nat)
    requires w.stepped == [] && Ended(w, event, recipients, fates, done, full)
    ensures ForRecipient(w, event, recipients, fates, done, u)
  {
    var w', p := Turns(w, event, recipients, fates, done), F.Pair(event, u);
    TurnsAppend(w, event, recipients, fates, done);
    CountLe(w'.stepped, For(u), F.Is(p));
    CountLe(w'.stepped, F.Is(p), For(u));
    if u !in recipients[..done] || Has(w.rows, event, u) {
      TurnsForOthers(w, event, recipients, fates, done, u);
    }
    forall j | 0 <= j < done && recipients[j] == u && u !in recipients[..j] && !Has(w.rows, event, u)
      ensures New(w, w', p) == (if Steps(fates(j)) then 1 else 0, if fates(j).Served? then 1 else 0)
           && (Has(w'.rows, event, u) <==> !fates(j).StopBeforeSave?)
    {
      TurnsForNew(w, event, recipients, fates, done, j);
    }
  }

  /** What the turns of one event come to. */
  lemma EventRows(w: Work, event: nat, recipients: seq<nat>, fates: nat -> Fate, done: nat, full: bool)
    requires Ended(w, event, recipients, fates, done, full)
    ensures var rows' := Turns(w, event, recipients, fates, done).rows;
      && (forall e, r :: Has(rows', e, r) ==> Has(w.rows, e, r) || (e == event && r in recipients))
      && (full ==> forall r :: r in recipients ==> Has(rows', event, r))
  {
    forall e, r ensures Has(Turns(w, event, recipients, fates, done).rows, e, r) ==>
      Has(w.rows, e, r) || (e == event && r in recipients)
    {
      TurnsHas(w, event, recipients, fates, done, e, r);
    }
    forall r | full && r in recipients ensures Has(Turns(w, event, recipients, fates, done).rows, event, r) {
      var j :| 0 <= j < |recipients| && recipients[j] == r;
      TurnsServed(w, event, recipients, fates, done, j);
    }
  }

  class NotificationUseCases {
    const table: NotificationTable
    const counter: RedisNotificationCounter
    /** What was pushed, in order. */
    var pushed: seq<F.Pair>

    constructor (table: NotificationTable, counter: RedisNotificationCounter)
      ensures this.table == table && this.counter == counter && pushed == []
    {
      this.table, this.counter, pushed := table, counter, [];
    }

    /** Table, pushes and counters are what `w` says, the counters having been `first`. */
    ghost predicate DoneSoFar(w: Work, first: nat -> Option<Entry>)
      reads this, table, counter
    {
      && table.rows == w.rows && pushed == w.pushed
      && forall u :: counter.At(u) == Bumped(first(u), CountIf(w.stepped, For(u)))
    }

    /** One recipient's turn of `HandleEventUseCase.execute`, after the turns of `w`. False when it ended the execution. */
    method Serve(event: nat, recipient: nat, fate: Fate, ghost w: Work, ghost first: nat -> Option<Entry>)
      returns (goOn: bool)
      requires Unique(table.rows) && DoneSoFar(w, first)
      modifies table`rows, counter`keys, this`pushed
      ensures Unique(table.rows) && DoneSoFar(Turn(w, event, recipient, fate), first)
      ensures goOn <==> GoesOn(w, event, recipient, fate)
    {
      if fate.StopBeforeSave? { return false; }
      var created := table.SaveIfNew(event, recipient);
      if !created { return true; }
      if fate.StopAfterSave? {
        assert w.stepped + [] == w.stepped && w.pushed + [] == w.pushed;
        return false;
      }
      counter.Increment(recipient);
      forall u ensures CountIf(w.stepped + [F.Pair(event, recipient)], For(u))
                    == CountIf(w.stepped, For(u)) + (if u == recipient then 1 else 0) {
        CountAppend(w.stepped, F.Pair(event, recipient), For(u));
      }
      if fate.StopAfterStep? { return false; }
      if fate.Served? {
        pushed := pushed + [F.Pair(event, recipient)];
      }
      goOn := true;
    }

    /**
     `HandleEventUseCase.execute`, cut short after `done` turns or full: exactly the rows, counter steps and pushes of
     those turns. A full one leaves a row for every recipient.
     */
    method HandleEvent(event: nat, recipients: seq<nat>, fates: nat -> Fate) returns (full: bool, done: nat)
      requires Unique(table.rows)
      modifies table`rows, counter`keys, this`pushed
      ensures Unique(table.rows) && Ended(Work(old(table.rows), [], old(pushed)), event, recipients, fates, done, full)
      ensures var w' := Turns(Work(old(table.rows), [], old(pushed)), event, recipients, fates, done);
        && table.rows == w'.rows && pushed == w'.pushed
        && forall u :: counter.At(u) == Bumped(old(counter.At(u)), CountIf(w'.stepped, For(u)))
      ensures old(table.rows) <= table.rows
      ensures forall i :: |old(table.rows)| <= i < |table.rows| ==> !table.rows[i].read
      ensures forall u :: ForRecipient(Work(old(table.rows), [], old(pushed)), event, recipients, fates, done, u)
      ensures forall e, r :: Has(table.rows, e, r) ==> Has(old(table.rows), e, r) || (e == event && r in recipients)
      ensures full ==> forall r :: r in recipients ==> Has(table.rows, event, r)
      ensures old(Agrees(counter, table)) && (forall k :: 0 <= k < |recipients| ==> !fates(k).StopAfterSave?) ==>
        Agrees(counter, table)
    {
      ghost var w := Work(table.rows, [], pushed);
      ghost var keys, now := counter.keys, counter.now;
      full, done := TakeTurns(event, recipients, fates,
        (u: nat) => Live(if u in keys then Some(keys[u]) else None, now));
      EventRows(w, event, recipients, fates, done, full);
      TurnsAppend(w, event, recipients, fates, done);
      forall u ensures ForRecipient(w, event, recipients, fates, done, u) {
        EventFor(w, event, recipients, fates, done, full, u);
      }
      if forall k :: 0 <= k < |recipients| ==> !fates(k).StopAfterSave? {
        forall u ensures CountIf(table.rows, UnreadBy(u)) - CountIf(w.rows, UnreadBy(u))
                      == CountIf(Turns(w, event, recipients, fates, done).stepped, For(u)) {
          TurnsCounts(w, event, recipients, fates, done, u);
        }
      }
    }

    /** The loop over the recipients. */
    method TakeTurns(event: nat, recipients: seq<nat>, fates: nat -> Fate, ghost first: nat -> Option<Entry>)
      returns (full: bool, done: nat)
      requires Unique(table.rows) && forall u :: counter.At(u) == first(u)
      modifies table`rows, counter`keys, this`pushed
      ensures Unique(table.rows) && Ended(Work(old(table.rows), [], old(pushed)), event, recipients, fates, done, full)
      ensures DoneSoFar(Turns(Work(old(table.rows), [], old(pushed)), event, recipients, fates, done), first)
    {
      full, done := true, 0;
      ghost var w := Work(table.rows, [], pushed);
      while done < |recipients| && full
        invariant Unique(table.rows) && Underway(w, event, recipients, fates, done, full)
        invariant DoneSoFar(Turns(w, event, recipients, fates, done), first)
      {
        full := Serve(event, recipients[done], fates(done), Turns(w, event, recipients, fates, done), first);
        done := done + 1;
      }
    }

    /** `GetUnreadCountUseCase.execute`. */
    method GetUnreadCount(user: nat) returns (count: int)
      modifies counter`keys
      ensures var before, rows := old(counter.At(user)), CountIf(table.rows, UnreadBy(user));
        && count == (if before.Some? then before.value.value else rows)
        && counter.At(user) == SetNx(before, rows, counter.now)
      ensures forall u :: u != user ==> counter.At(u) == old(counter.At(u))
      ensures old(Agrees(counter, table)) ==>
        Agrees(counter, table) && count == CountIf(table.rows, UnreadBy(user))
    {
      var cached := counter.Get(user);
      if cached.Some? { return cached.value; }
      var counted := table.CountUnread(user);
      counter.Backfill(user, counted);
      count := counted;
    }

    /** `MarkAllReadUseCase.execute`: rows first, then the key goes. */
    method MarkAllRead(user: nat)
      modifies table`rows, counter`keys
      ensures table.rows == ReadAll(old(table.rows), user) && CountIf(table.rows, UnreadBy(user)) == 0
      ensures forall u :: counter.At(u) == if u == user then None else old(counter.At(u))
      ensures old(Agrees(counter, table)) ==> Agrees(counter, table)
    {
      ghost var before := table.rows;
      table.MarkAllRead(user);
      counter.Reset(user);
      forall u ensures CountIf(table.rows, UnreadBy(u)) == if u == user then 0 else CountIf(before, UnreadBy(u)) {
        ReadAllCounts(before, user, u);
      }
    }

    /** `MarkOneReadUseCase.execute`: the counter steps only on a real transition, and then never clamps. */
    method MarkOneRead(user: nat, id: nat)
      modifies table`rows, counter`keys
      ensures old(Agrees(counter, table)) ==> Agrees(counter, table)
      ensures var rows, e := old(table.rows), old(counter.At(user));
        var transitioned := id < |rows| && UnreadBy(user)(rows[id]);
        && table.rows == (if transitioned then rows[id := rows[id].(read := true)] else rows)
        && counter.At(user) == (if transitioned then IncrByIfExists(e, -1) else e)
        && (old(Agrees(counter, table)) && transitioned && e.Some? ==> e.value.value + -1 >= 0)
      ensures forall u :: u != user ==> counter.At(u) == old(counter.At(u))
      ensures CountIf(table.rows, UnreadBy(user))
           == CountIf(old(table.rows), UnreadBy(user))
              - (if id < |old(table.rows)| && UnreadBy(user)(old(table.rows)[id]) then 1 else 0)
    {
      ghost var before := table.rows;
      var transitioned := table.MarkOneRead(user, id);
      if transitioned {
        CountPositive(before, UnreadBy(user), id);
        forall u ensures CountIf(table.rows, UnreadBy(u)) == CountIf(before, UnreadBy(u)) - (if u == user then 1 else 0) {
          CountUpdate(before, id, before[id].(read := true), UnreadBy(u));
        }
        counter.Decrement(user);
      }
    }
  }

  /** One more row, for one event and recipient, or none. */
  lemma HasAfter(before: seq<Notification>, after: seq<Notification>, event: nat, recipient: nat)
    requires before <= after && |after| <= |before| + 1
    requires |after| > |before| ==> after[|before|] == Notification(event, recipient, false)
    ensures forall e, r :: Has(before, e, r) ==> Has(after, e, r)
    ensures forall e, r :: Has(after, e, r) ==> Has(before, e, r) || (e == event && r == recipient)
    ensures |after| > |before| ==> Has(after, event, recipient)
  {
    forall e, r | Has(before, e, r) ensures Has(after, e, r) {
      var i :| 0 <= i < |before| && before[i].event == e && before[i].recipient == r;
      assert after[i] == before[i];
    }
    forall e, r | Has(after, e, r) ensures Has(before, e, r) || (e == event && r == recipient) {
      var i :| 0 <= i < |after| && after[i].event == e && after[i].recipient == r;
      if i < |before| {
        assert before[i] == after[i];
      }
    }
  }
}
