/**
 Notifications handled one call at a time, as `Notifications` handles them, are interleavings of `FanOut` (rows, steps and
 pushes of every user) and of `UnreadSystem` (one user's rows and counter).
 */
module NotificationRefinement {
  import opened Prelude
  import opened RedisKeys
  import opened Notifications
  import C = ShadowCounter
  import F = FanOut
  import U = UnreadSystem

  // ---------------------------------------------------------------- fan-out

  function Pairs(rows: seq<Notification>): (pairs: seq<F.Pair>)
    ensures |pairs| == |rows|
    ensures forall i :: 0 <= i < |rows| ==> pairs[i] == F.Pair(rows[i].event, rows[i].recipient)
  {
    seq(|rows|, i requires 0 <= i < |rows| => F.Pair(rows[i].event, rows[i].recipient))
  }

  /** The interleaved state holds the rows, steps and pushes of `w`. */
  ghost predicate Matches(s: F.State, w: Work) {
    s.rows == Pairs(w.rows) && s.stepped == w.stepped && s.pushed == w.pushed
  }

  lemma HasIsIn(rows: seq<Notification>, event: nat, recipient: nat)
    ensures Has(rows, event, recipient) <==> F.Pair(event, recipient) in Pairs(rows)
  {
    if Has(rows, event, recipient) {
      var i :| 0 <= i < |rows| && rows[i].event == event && rows[i].recipient == recipient;
      assert Pairs(rows)[i] == F.Pair(event, recipient);
    }
  }

  lemma {:induction false} RunConcat(to: F.Recipients, s: F.State, a: seq<F.Step>, b: seq<F.Step>)
    ensures F.Run(to, s, a + b) == F.Run(to, F.Run(to, s, a), b)
    decreases |a|
  {
    if a == [] {
      assert a + b == b;
    } else {
      assert (a + b)[1..] == a[1..] + b;
      RunConcat(to, F.Next(to, s, a[0]), a[1..], b);
    }
  }

  lemma RunOne(to: F.Recipients, s: F.State, a: F.Step)
    ensures F.Run(to, s, [a]) == F.Next(to, s, a)
  {
    assert [a][1..] == [];
    assert F.Run(to, s, [a]) == F.Run(to, F.Next(to, s, a), []);
  }

  lemma RunTwo(to: F.Recipients, s: F.State, a: F.Step, b: F.Step)
    ensures F.Run(to, s, [a, b]) == F.Next(to, F.Next(to, s, a), b)
  {
    assert [a, b][1..] == [b];
    RunOne(to, F.Next(to, s, a), b);
  }

  lemma RunThree(to: F.Recipients, s: F.State, a: F.Step, b: F.Step, c: F.Step)
    ensures F.Run(to, s, [a, b, c]) == F.Next(to, F.Next(to, F.Next(to, s, a), b), c)
  {
    assert [a, b, c][1..] == [b, c];
    RunTwo(to, F.Next(to, s, a), b, c);
  }

  /** One recipient's turn of delivery `d`. */
  function TurnSteps(d: nat, isNew: bool, fate: Fate): seq<F.Step> {
    if fate.StopBeforeSave? then [F.Crash(d)]
    else if !isNew then [F.Save(d)]
    else if fate.StopAfterSave? then [F.Save(d), F.Crash(d)]
    else if fate.StopAfterStep? then [F.Save(d), F.StepCounter(d), F.Crash(d)]
    else [F.Save(d), F.StepCounter(d), F.Push(d, fate.Served?)]
  }

  /** Delivery `d` of `event` is about to serve its recipient number `k`. */
  ghost predicate Serving(to: F.Recipients, s: F.State, d: nat, event: nat, k: nat) {
    d < |s.deliveries| && s.deliveries[d] == F.Delivery(event, k, F.Saving, true)
  }

  lemma TurnRun(to: F.Recipients, s: F.State, d: nat, event: nat, k: nat, w: Work, fate: Fate)
    requires Serving(to, s, d, event, k) && k < |to(event)| && Matches(s, w)
    ensures var s' := F.Run(to, s, TurnSteps(d, !Has(w.rows, event, to(event)[k]), fate));
      && Matches(s', Turn(w, event, to(event)[k], fate)) && |s'.deliveries| == |s.deliveries|
      && (if GoesOn(w, event, to(event)[k], fate) then Serving(to, s', d, event, k + 1) else !s'.deliveries[d].alive)
  {
    var r := to(event)[k];
    var isNew, pair := !Has(w.rows, event, r), F.Pair(event, r);
    HasIsIn(w.rows, event, r);
    assert F.Current(to, s.deliveries[d]) == pair;
    assert Pairs(w.rows + [Notification(event, r, false)]) == Pairs(w.rows) + [pair];
    var steps := TurnSteps(d, isNew, fate);
    if |steps| == 1 {
      RunOne(to, s, steps[0]);
    } else if |steps| == 2 {
      RunTwo(to, s, steps[0], steps[1]);
      assert w.stepped + [] == w.stepped && w.pushed + [] == w.pushed;
    } else {
      RunThree(to, s, steps[0], steps[1], steps[2]);
      SavedThenStepped(to, s, d, event, k);
      assert w.pushed + [] == w.pushed;
    }
  }

  lemma SavedThenStepped(to: F.Recipients, s: F.State, d: nat, event: nat, k: nat)
    requires Serving(to, s, d, event, k) && k < |to(event)| && F.Pair(event, to(event)[k]) !in s.rows
    ensures var s', pair := F.Next(to, F.Next(to, s, F.Save(d)), F.StepCounter(d)), F.Pair(event, to(event)[k]);
      s' == F.State(s.rows + [pair], s.stepped + [pair], s.pushed, s.lost,
                    s.deliveries[d := F.Delivery(event, k, F.Pushing, true)])
  {
    var s1 := F.Next(to, s, F.Save(d));
    assert s1.deliveries == s.deliveries[d := F.Delivery(event, k, F.Stepping, true)];
    var s2 := F.Next(to, s1, F.StepCounter(d));
    assert s2.deliveries == s.deliveries[d := F.Delivery(event, k, F.Pushing, true)];
  }

  lemma {:induction false} TurnsRun(to: F.Recipients, s: F.State, d: nat, event: nat, w: Work, fates: nat -> Fate, k: nat)
    returns (steps: seq<F.Step>)
    requires k <= |to(event)| && Serving(to, s, d, event, 0) && Matches(s, w) && WentOn(w, event, to(event), fates, k)
    ensures var s' := F.Run(to, s, steps);
      Serving(to, s', d, event, k) && |s'.deliveries| == |s.deliveries|
      && Matches(s', Turns(w, event, to(event), fates, k))
  {
    if k == 0 {
      steps := [];
    } else {
      var before := TurnsRun(to, s, d, event, w, fates, k - 1);
      var w1 := Turns(w, event, to(event), fates, k - 1);
      var turn := TurnSteps(d, !Has(w1.rows, event, to(event)[k - 1]), fates(k - 1));
      TurnRun(to, F.Run(to, s, before), d, event, k - 1, w1, fates(k - 1));
      RunConcat(to, s, before, turn);
      steps := before + turn;
    }
  }

  /** An execution, with its counter steps added to those made before. */
  lemma ExecutionIsARun(to: F.Recipients, s: F.State, event: nat, w: Work, fates: nat -> Fate, done: nat, full: bool)
    returns (steps: seq<F.Step>)
    requires Matches(s, w) && Ended(w, event, to(event), fates, done, full)
    ensures var s', d := F.Run(to, s, steps), |s.deliveries|;
      && Matches(s', Turns(w, event, to(event), fates, done))
      && |s'.deliveries| == d + 1
      && (if full then Serving(to, s', d, event, |to(event)|) else !s'.deliveries[d].alive)
  {
    var d := |s.deliveries|;
    var s1 := F.Next(to, s, F.Receive(event));
    RunOne(to, s, F.Receive(event));
    var went := if full then done else done - 1;
    var turns := TurnsRun(to, s1, d, event, w, fates, went);
    RunConcat(to, s, [F.Receive(event)], turns);
    steps := [F.Receive(event)] + turns;
    if !full {
      var w1 := Turns(w, event, to(event), fates, went);
      var last := TurnSteps(d, !Has(w1.rows, event, to(event)[went]), fates(went));
      TurnRun(to, F.Run(to, s1, turns), d, event, went, w1, fates(went));
      RunConcat(to, s, steps, last);
      steps := steps + last;
    }
  }

  /** What turns do to rows and pushes does not depend on the steps made before, to which theirs are added. */
  lemma {:induction false} TurnsAnyBase(w: Work, base: seq<F.Pair>, event: nat, recipients: seq<nat>, fates: nat -> Fate,
                                        k: nat)
    requires k <= |recipients| && w.stepped == []
    ensures var a, b := Turns(w, event, recipients, fates, k), Turns(w.(stepped := base), event, recipients, fates, k);
      b == a.(stepped := base + a.stepped)
    ensures WentOn(w.(stepped := base), event, recipients, fates, k) <==> WentOn(w, event, recipients, fates, k)
  {
    if k == 0 {
      assert base + [] == base;
    } else {
      TurnsAnyBase(w, base, event, recipients, fates, k - 1);
    }
  }

  /**
   One execution of `NotificationUseCases.HandleEvent`, full or cut short, in the words of its contract: the run receives
   the event, has the same rows, counter steps and pushes, and its delivery is complete exactly when it was full.
   */
  lemma HandleEventIsARun(to: F.Recipients, s: F.State, event: nat, rows: seq<Notification>, fates: nat -> Fate,
                          done: nat, full: bool) returns (steps: seq<F.Step>)
    requires s.rows == Pairs(rows) && Ended(Work(rows, [], s.pushed), event, to(event), fates, done, full)
    ensures var s', d, w' := F.Run(to, s, steps), |s.deliveries|,
                             Turns(Work(rows, [], s.pushed), event, to(event), fates, done);
      && s'.rows == Pairs(w'.rows) && s'.stepped == s.stepped + w'.stepped && s'.pushed == w'.pushed
      && |s'.deliveries| == d + 1
      && (if full then Serving(to, s', d, event, |to(event)|) else !s'.deliveries[d].alive)
  {
    var w := Work(rows, [], s.pushed);
    TurnsAnyBase(w, s.stepped, event, to(event), fates, done);
    if !full {
      TurnsAnyBase(w, s.stepped, event, to(event), fates, done - 1);
    }
    steps := ExecutionIsARun(to, s, event, w.(stepped := s.stepped), fates, done, full);
  }

  // ---------------------------------------------------------------- one user's rows

  /** The read marks of the user's notifications, in the order of the table. */
  function Flags(rows: seq<Notification>, user: nat): seq<bool> {
    if rows == [] then []
    else
      var n := |rows| - 1;
      Flags(rows[..n], user) + (if rows[n].recipient == user then [rows[n].read] else [])
  }

  lemma {:induction false} FlagsCount(rows: seq<Notification>, user: nat)
    ensures CountIf(Flags(rows, user), U.Unread()) == CountIf(rows, UnreadBy(user))
  {
    if rows != [] {
      var n := |rows| - 1;
      FlagsCount(rows[..n], user);
      CountAppend(Flags(rows[..n], user), rows[n].read, U.Unread());
      assert Flags(rows[..n], user) + [] == Flags(rows[..n], user);
    }
  }

  lemma FlagsSaved(rows: seq<Notification>, event: nat, recipient: nat, user: nat)
    ensures Flags(rows + [Notification(event, recipient, false)], user)
         == Flags(rows, user) + (if recipient == user then [false] else [])
  {
    assert (rows + [Notification(event, recipient, false)])[..|rows|] == rows;
  }

  lemma {:induction false} FlagsReadAll(rows: seq<Notification>, user: nat, u: nat)
    ensures Flags(ReadAll(rows, user), u) == if u == user then U.AllRead(Flags(rows, u)) else Flags(rows, u)
  {
    if rows != [] {
      var n := |rows| - 1;
      FlagsReadAll(rows[..n], user, u);
      assert ReadAll(rows, user)[..n] == ReadAll(rows[..n], user);
    }
  }

  /** Marking row `id` read marks the user's notification that it is, and no other user's. */
  lemma {:induction false} FlagsReadOne(rows: seq<Notification>, id: nat, u: nat)
    requires id < |rows|
    ensures |Flags(rows[..id], u)| <= |Flags(rows, u)|
    ensures rows[id].recipient == u ==>
      |Flags(rows[..id], u)| < |Flags(rows, u)| && Flags(rows, u)[|Flags(rows[..id], u)|] == rows[id].read
    ensures Flags(rows[id := rows[id].(read := true)], u)
         == if rows[id].recipient == u then Flags(rows, u)[|Flags(rows[..id], u)| := true] else Flags(rows, u)
  {
    var n := |rows| - 1;
    var rows' := rows[id := rows[id].(read := true)];
    if id == n {
      assert rows'[..n] == rows[..n];
    } else {
      FlagsReadOne(rows[..n], id, u);
      assert rows'[..n] == rows[..n][id := rows[id].(read := true)] && rows[..n][..id] == rows[..id];
    }
  }

  // ---------------------------------------------------------------- one user's counter

  lemma URunLast(s: U.State, steps: seq<U.Step>, step: U.Step)
    ensures U.Run(s, steps + [step]) == U.Next(U.Run(s, steps), step)
  {
    assert (steps + [step])[..|steps|] == steps;
  }

  lemma URunTwo(s: U.State, a: U.Step, b: U.Step)
    ensures U.Run(s, [a]) == U.Next(s, a) && U.Run(s, [a, b]) == U.Next(U.Next(s, a), b)
  {
    URunLast(s, [], a);
    URunLast(s, [a], b);
    assert [] + [a] == [a] && [a] + [b] == [a, b];
  }

  /** A transition and its counter step, right after it. */
  lemma StepAtOnce(c: C.State, delta: int, wipe: bool)
    requires C.Enabled(c, C.CommitOp(delta, wipe))
    ensures var c' := C.Next(C.Next(c, C.CommitOp(delta, wipe)), C.StepCounter(|c.ops|));
      c'.now == c.now && c'.key == if wipe then None else IncrByIfExists(c.key, delta)
  {
  }

  /** The unread model holds the user's rows of the table. */
  ghost predicate Shows(s: U.State, rows: seq<Notification>, user: nat) {
    U.Inv(s) && s.read == Flags(rows, user)
  }

  /** A new row for the user and its INCR, as `Serve` does them. */
  lemma SaveIsARun(s: U.State, rows: seq<Notification>, event: nat, user: nat)
    requires Shows(s, rows, user)
    ensures var s' := U.Run(s, [U.Save, U.Counter(C.StepCounter(|s.counter.ops|))]);
      && Shows(s', rows + [Notification(event, user, false)], user)
      && s'.counter.now == s.counter.now && s'.counter.key == Bumped(s.counter.key, 1)
  {
    U.RunInv(s, [U.Save, U.Counter(C.StepCounter(|s.counter.ops|))]);
    FlagsSaved(rows, event, user, user);
    URunTwo(s, U.Save, U.Counter(C.StepCounter(|s.counter.ops|)));
    StepAtOnce(s.counter, 1, false);
  }

  /** `GetUnreadCount`, when the key is missing. */
  lemma RebuildIsARun(s: U.State, rows: seq<Notification>, user: nat)
    requires Shows(s, rows, user)
    ensures var s' := U.Run(s, [U.Counter(C.Count), U.Counter(C.Backfill(|s.counter.readers|))]);
      && Shows(s', rows, user) && s'.counter.now == s.counter.now
      && s'.counter.key == SetNx(s.counter.key, CountIf(rows, UnreadBy(user)), s.counter.now)
  {
    U.RunInv(s, [U.Counter(C.Count), U.Counter(C.Backfill(|s.counter.readers|))]);
    FlagsCount(rows, user);
    URunTwo(s, U.Counter(C.Count), U.Counter(C.Backfill(|s.counter.readers|)));
    assert C.Next(s.counter, C.Count).readers[|s.counter.readers|] == C.Reader(s.counter.truth, |s.counter.ops|, true);
  }

  /** `MarkAllRead`. */
  lemma ReadAllIsARun(s: U.State, rows: seq<Notification>, user: nat)
    requires Shows(s, rows, user)
    ensures var s' := U.Run(s, [U.MarkAll, U.Counter(C.StepCounter(|s.counter.ops|))]);
      Shows(s', ReadAll(rows, user), user) && s'.counter.now == s.counter.now && s'.counter.key.None?
  {
    U.RunInv(s, [U.MarkAll, U.Counter(C.StepCounter(|s.counter.ops|))]);
    FlagsReadAll(rows, user, user);
    MarkAllIsARun(s);
  }

  lemma MarkAllIsARun(s: U.State)
    requires U.Inv(s)
    ensures var s' := U.Run(s, [U.MarkAll, U.Counter(C.StepCounter(|s.counter.ops|))]);
      s'.read == U.AllRead(s.read) && s'.counter.now == s.counter.now && s'.counter.key.None?
  {
    URunTwo(s, U.MarkAll, U.Counter(C.StepCounter(|s.counter.ops|)));
    StepAtOnce(s.counter, -U.UnreadCount(s), true);
  }

  /** The steps of `MarkOneRead` for row `id` of the table: the counter steps on a real transition only. */
  ghost function ReadOneSteps(s: U.State, rows: seq<Notification>, user: nat, id: nat): seq<U.Step> {
    if id >= |rows| || rows[id].recipient != user then []
    else
      [U.MarkOne(|Flags(rows[..id], user)|)]
      + if rows[id].read then [] else [U.Counter(C.StepCounter(|s.counter.ops|))]
  }

  /** `MarkOneRead`: somebody else's row, a row that is not there and a repeat change nothing. */
  lemma ReadOneIsARun(s: U.State, rows: seq<Notification>, user: nat, id: nat)
    requires Shows(s, rows, user)
    ensures var transitioned := id < |rows| && UnreadBy(user)(rows[id]);
      var s' := U.Run(s, ReadOneSteps(s, rows, user, id));
      && Shows(s', if transitioned then rows[id := rows[id].(read := true)] else rows, user)
      && s'.counter.now == s.counter.now
      && s'.counter.key == (if transitioned then IncrByIfExists(s.counter.key, -1) else s.counter.key)
  {
    U.RunInv(s, ReadOneSteps(s, rows, user, id));
    if id < |rows| && rows[id].recipient == user {
      FlagsReadOne(rows, id, user);
      assert rows[id].read ==> rows[id := rows[id].(read := true)] == rows;
      MarkIsARun(s, |Flags(rows[..id], user)|);
    }
  }

  lemma MarkIsARun(s: U.State, i: nat)
    requires U.Inv(s) && i < |s.read|
    ensures var s' := U.Run(s, [U.MarkOne(i)] + if s.read[i] then [] else [U.Counter(C.StepCounter(|s.counter.ops|))]);
      && s'.read == s.read[i := true] && s'.counter.now == s.counter.now
      && s'.counter.key == (if s.read[i] then s.counter.key else IncrByIfExists(s.counter.key, -1))
  {
    var mark, step := U.MarkOne(i), U.Counter(C.StepCounter(|s.counter.ops|));
    URunTwo(s, mark, step);
    assert [mark] + [step] == [mark, step] && [mark] + [] == [mark];
    if !s.read[i] {
      CountPositive(s.read, U.Unread(), i);
      StepAtOnce(s.counter, -1, false);
    }
  }

  /** What is done for one user leaves every other user's rows as the unread model shows them. */
  lemma OthersAreShown(s: U.State, rows: seq<Notification>, event: nat, user: nat, id: nat, u: nat)
    requires Shows(s, rows, u) && u != user
    ensures Shows(s, rows + [Notification(event, user, false)], u) && Shows(s, ReadAll(rows, user), u)
    ensures id < |rows| && rows[id].recipient == user ==> Shows(s, rows[id := rows[id].(read := true)], u)
  {
    FlagsSaved(rows, event, user, u);
    assert Flags(rows, u) + [] == Flags(rows, u);
    FlagsReadAll(rows, user, u);
    if id < |rows| {
      FlagsReadOne(rows, id, u);
    }
  }
}
