/**
 Consumers behind at-least-once delivery: the audit log and the chat archive insert a row under a unique id and
 ignore the duplicate-key error, so the first writer of an id wins.
 */
module IdempotentStores {
  /** What arrives and what is stored: an id and everything else. */
  datatype Record<+T> = Record(id: nat, body: T)

  datatype Reply = Done | Failed

  ghost predicate Holds<T>(rows: seq<Record<T>>, id: nat) {
    exists i :: 0 <= i < |rows| && rows[i].id == id
  }

  ghost predicate UniqueIds<T>(rows: seq<Record<T>>) {
    forall i, j :: 0 <= i < j < |rows| ==> rows[i].id != rows[j].id
  }

  /** The table after one insert, done or ignored. */
  ghost function Inserted<T>(rows: seq<Record<T>>, x: Record<T>): seq<Record<T>> {
    if Holds(rows, x.id) then rows else rows + [x]
  }

  ghost function Ids<T>(rows: seq<Record<T>>): (ids: seq<nat>)
    ensures |ids| == |rows| && forall i :: 0 <= i < |rows| ==> ids[i] == rows[i].id
  {
    seq(|rows|, i requires 0 <= i < |rows| => rows[i].id)
  }

  /** The ids in such a table after one insert. */
  ghost function AddId(ids: seq<nat>, id: nat): seq<nat> {
    if id in ids then ids else ids + [id]
  }

  lemma InsertAddsId<T>(rows: seq<Record<T>>, x: Record<T>)
    ensures Ids(Inserted(rows, x)) == AddId(Ids(rows), x.id)
  {
    if Holds(rows, x.id) {
      var i :| 0 <= i < |rows| && rows[i].id == x.id;
      assert Ids(rows)[i] == x.id;
    }
  }

  ghost function InsertedAll<T>(rows: seq<Record<T>>, xs: seq<Record<T>>): seq<Record<T>>
    decreases |xs|
  {
    if xs == [] then rows else Inserted(InsertedAll(rows, xs[..|xs| - 1]), xs[|xs| - 1])
  }

  /** `PrismaAuditLogRepository`, whose `T` is an event, and `PrismaMessageRepository`, whose `T` is a message. */
  class UniqueIdRepository<T> {
    var rows: seq<Record<T>>

    constructor ()
      ensures rows == []
    {
      rows := [];
    }

    /**
     `record` and `persist`. `down`: the insert fails for another reason than a duplicate key, and is thrown for a retry.
     */
    method Persist(x: Record<T>, down: bool) returns (r: Reply)
      modifies this
      ensures r == if down then Failed else Done
      ensures rows == if down then old(rows) else Inserted(old(rows), x)
      ensures !down ==> Holds(rows, x.id) && (old(Holds(rows, x.id)) ==> rows == old(rows))
    {
      if down { return Failed; }
      if exists i :: 0 <= i < |rows| && rows[i].id == x.id { return Done; }
      rows := rows + [x];
      assert rows[|rows| - 1].id == x.id;
      return Done;
    }
  }

  /** Nothing with the id of `xs[k]` was delivered before it. */
  ghost predicate IsFirst<T>(xs: seq<Record<T>>, k: nat) {
    k < |xs| && forall j :: 0 <= j < k ==> xs[j].id != xs[k].id
  }

  ghost predicate CameFirst<T>(xs: seq<Record<T>>, x: Record<T>) {
    exists k: nat :: IsFirst(xs, k) && xs[k] == x
  }

  lemma CameFirstAppend<T>(xs: seq<Record<T>>, y: Record<T>, x: Record<T>)
    ensures CameFirst(xs + [y], x) <==> CameFirst(xs, x) || (x == y && !Holds(xs, y.id))
  {
    if CameFirst(xs, x) {
      var k: nat :| IsFirst(xs, k) && xs[k] == x;
      assert IsFirst(xs + [y], k) && (xs + [y])[k] == x;
    }
    if x == y && !Holds(xs, y.id) {
      assert IsFirst(xs + [y], |xs|) && (xs + [y])[|xs|] == x;
    }
    if CameFirst(xs + [y], x) {
      var k: nat :| IsFirst(xs + [y], k) && (xs + [y])[k] == x;
      if k < |xs| {
        assert forall j :: 0 <= j <= k ==> (xs + [y])[j] == xs[j];
        assert IsFirst(xs, k) && xs[k] == x;
      } else {
        assert forall j :: 0 <= j < |xs| ==> (xs + [y])[j] == xs[j];
      }
    }
  }

  /** Whatever was delivered, the table holds each delivered id once, with the contents that came first, and nothing else. */
  lemma {:induction false} FirstWriterWins<T>(xs: seq<Record<T>>)
    ensures UniqueIds(InsertedAll([], xs))
    ensures forall x :: x in InsertedAll([], xs) <==> CameFirst(xs, x)
    decreases |xs|
  {
    if xs != [] {
      var t, y := xs[..|xs| - 1], xs[|xs| - 1];
      var rows := InsertedAll([], t);
      FirstWriterWins(t);
      HeldIffDelivered(t, rows, y.id);
      assert xs == t + [y];
      forall x ensures x in InsertedAll([], xs) <==> CameFirst(xs, x) {
        CameFirstAppend(t, y, x);
      }
    }
  }

  lemma {:induction false} FirstOf<T>(xs: seq<Record<T>>, id: nat) returns (k: nat)
    requires Holds(xs, id)
    ensures IsFirst(xs, k) && xs[k].id == id
    decreases |xs|
  {
    if xs[0].id == id {
      k := 0;
    } else {
      var j :| 0 <= j < |xs| && xs[j].id == id;
      assert xs[1..][j - 1] == xs[j];
      k := FirstOf(xs[1..], id);
      k := k + 1;
      forall j | 0 <= j < k ensures xs[j].id != xs[k].id {
        if j > 0 { assert xs[j] == xs[1..][j - 1]; }
      }
    }
  }

  lemma HeldIffDelivered<T>(xs: seq<Record<T>>, rows: seq<Record<T>>, id: nat)
    requires forall x :: x in rows <==> CameFirst(xs, x)
    ensures Holds(rows, id) <==> Holds(xs, id)
  {
    if Holds(rows, id) {
      var i :| 0 <= i < |rows| && rows[i].id == id;
      assert rows[i] in rows;
    }
    if Holds(xs, id) {
      var k := FirstOf(xs, id);
      assert CameFirst(xs, xs[k]);
    }
  }

  /** Delivering again anything that was delivered before changes nothing. */
  lemma {:induction false} RedeliveryChangesNothing<T>(xs: seq<Record<T>>, again: seq<Record<T>>)
    requires forall x :: x in again ==> x in xs
    ensures InsertedAll(InsertedAll([], xs), again) == InsertedAll([], xs)
    decreases |again|
  {
    if again != [] {
      RedeliveryChangesNothing(xs, again[..|again| - 1]);
      FirstWriterWins(xs);
      var x := again[|again| - 1];
      assert x in xs;
      HeldIffDelivered(xs, InsertedAll([], xs), x.id);
    }
  }

  /**
   When an id determines its contents, as events and messages do, two deliveries of the same records in any orders
   with any repetitions store the same rows.
   */
  lemma DeliveriesConfluent<T>(xs: seq<Record<T>>, ys: seq<Record<T>>, x: Record<T>)
    requires forall y :: y in xs <==> y in ys
    requires forall a, b :: a in xs && b in xs && a.id == b.id ==> a == b
    ensures x in InsertedAll([], xs) <==> x in InsertedAll([], ys)
    ensures x in InsertedAll([], xs) <==> x in xs
  {
    StoredIffDelivered(xs, x);
    StoredIffDelivered(ys, x);
  }

  lemma StoredIffDelivered<T>(xs: seq<Record<T>>, x: Record<T>)
    requires forall a, b :: a in xs && b in xs && a.id == b.id ==> a == b
    ensures x in InsertedAll([], xs) <==> x in xs
  {
    FirstWriterWins(xs);
    if x in xs {
      var k := FirstOf(xs, x.id);
      assert xs[k] in xs && xs[k] == x;
    }
  }
}
