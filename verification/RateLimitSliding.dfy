/**
 Exactly when the limiter keeps to twice the limit in an interval of the window's length that begins inside a window, late
 requests included.
 */
module RateLimitSliding {
  import opened Prelude
  import opened RateWindows
  import opened RateLimit
  import opened RateLimitLate
  import opened RateLimitBursts
  import opened RateLimitExact

  /** The count that requests which read the clock now will meet. */
  ghost function CountNow(s: State, scope: Scope, id: string): nat {
    LiveCount(s.keys, Key(scope, id, Window(s.w, s.now)), s.now)
  }

  // ---------------------------------------------------------------- staying within

  /** A hit on `key` from `s` on is in a lifetime that outlasts the interval, or raises the count that was running. */
  ghost predicate LaterHit(s: State, key: Key, r: Request) {
    OnKey(key, r) && r.HitOn(key.scope).value.at >= s.now ==>
      || EndOf(key, r) >= s.now + 1000 * s.w
      || (key in s.keys && s.now < s.keys[key].expiresAt == EndOf(key, r)
          && r.HitOn(key.scope).value.count > s.keys[key].count)
  }

  ghost predicate LaterSlot(s: State, key: Key, slot: Slot) {
    || slot.expiresAt >= s.now + 1000 * s.w
    || (key in s.keys && slot.expiresAt == s.keys[key].expiresAt && slot.count >= s.keys[key].count)
  }

  ghost predicate Later(s: State, s': State, key: Key) {
    && s'.w == s.w && s.now <= s'.now
    && (key in s'.keys ==> LaterSlot(s, key, s'.keys[key]))
    && (forall i :: 0 <= i < |s'.requests| ==> LaterHit(s, key, s'.requests[i]))
  }

  lemma LaterStep(s: State, s': State, step: Step, key: Key)
    requires Later(s, s', key)
    ensures Later(s, Next(s', step), key)
  {
    var s2 := Next(s', step);
    forall i | 0 <= i < |s2.requests| ensures LaterHit(s, key, s2.requests[i]) {
      assert i < |s'.requests| ==> LaterHit(s, key, s'.requests[i]);
    }
  }

  lemma {:induction false} LaterRun(s: State, s1: State, steps: seq<Step>, key: Key)
    requires Later(s, s1, key)
    ensures Later(s, Run(s1, steps), key)
    decreases |steps|
  {
    if steps != [] {
      LaterStep(s, s1, steps[0], key);
      LaterRun(s, Next(s1, steps[0]), steps[1..], key);
    }
  }

  lemma LaterSelf(s: State, key: Key)
    requires Opening(s)
    ensures Later(s, s, key)
  {
    forall i | 0 <= i < |s.requests| ensures LaterHit(s, key, s.requests[i]) {
      assert HitsBefore(s.requests[i], s.now);
    }
  }

  /** With no count running, or one that leaves no room, a counter lets at most `m` pass in the interval. */
  lemma OneLifeBound(s: State, s': State, key: Key, m: nat)
    requires LateInv(s) && LateInv(s') && Later(s, s', key)
    requires LiveCount(s.keys, key, s.now) == 0 || LiveCount(s.keys, key, s.now) >= m
    ensures CountIf(s'.requests, PassDuring(key, m, s.now, s.now + 1000 * s.w)) <= m
  {
    var p := PassDuring(key, m, s.now, s.now + 1000 * s.w);
    CountZero(s'.requests, p);
    assert key in s.keys ==> SlotOk(s, key);
    forall j | 0 <= j < |s'.requests| && p(s'.requests[j])
      ensures s.now + 1000 * s.w <= EndOf(key, s'.requests[j]) < s.now + 2000 * s.w
    {
      assert LaterHit(s, key, s'.requests[j]) && RequestOk(s', s'.requests[j]);
      LongLife(s, key, m, s'.requests[j]);
    }
    if CountIf(s'.requests, p) != 0 {
      var i :| 0 <= i < |s'.requests| && p(s'.requests[i]);
      SameLife(s', key, m, p, i, s.now + 1000 * s.w);
      CountLe(s'.requests, p, PassIn(key, m, EndOf(key, s'.requests[i])));
      assert Bounded(s', key, m);
    }
  }

  /** Lifetimes that end within one window's length are one. */
  lemma SameLife(s: State, key: Key, m: nat, p: Request -> bool, i: nat, t: int)
    requires Spaced(s, key) && i < |s.requests| && p(s.requests[i])
    requires forall j :: 0 <= j < |s.requests| && p(s.requests[j]) ==>
      OnKey(key, s.requests[j]) && t <= EndOf(key, s.requests[j]) < t + 1000 * s.w
      && s.requests[j].Passed(key.scope) && s.requests[j].Max(key.scope) <= m
    ensures forall j :: 0 <= j < |s.requests| && p(s.requests[j]) ==>
      PassIn(key, m, EndOf(key, s.requests[i]))(s.requests[j])
  {
    forall j | 0 <= j < |s.requests| && p(s.requests[j])
      ensures PassIn(key, m, EndOf(key, s.requests[i]))(s.requests[j])
    {
      assert HitsApart(s.w, key, s.requests[i], s.requests[j]);
    }
  }

  lemma LongLife(s: State, key: Key, m: nat, r: Request)
    requires LaterHit(s, key, r) && (key in s.keys ==> s.keys[key].count > 0)
    requires LiveCount(s.keys, key, s.now) == 0 || LiveCount(s.keys, key, s.now) >= m
    requires PassDuring(key, m, s.now, s.now + 1000 * s.w)(r) && EndOf(key, r) <= r.HitOn(key.scope).value.at + 1000 * s.w
    ensures s.now + 1000 * s.w <= EndOf(key, r) < s.now + 2000 * s.w
  {
  }

  lemma SlidingWithin(s: State, steps: seq<Step>, scope: Scope, id: string, m: nat)
    requires LateInv(s) && Opening(s) && !HasStraggler(s, scope, id, m, Window(s.w, s.now))
    requires CountNow(s, scope, id) == 0 || CountNow(s, scope, id) >= m
    ensures CountIf(Run(s, steps).requests, AdmittedWithin(scope, id, m, s.now, s.now + 1000 * s.w)) <= 2 * m
  {
    var s', n := Run(s, steps), Window(s.w, s.now);
    var here, after := Key(scope, id, n), Key(scope, id, n + 1);
    RunLateInv(s, steps);
    FollowsSelf(s);
    FollowsRun(s, s, steps);
    LaterSelf(s, here);
    LaterRun(s, s, steps, here);
    OneLifeBound(s, s', here, m);
    assert Bounded(s', after, m);
    var p, q := AdmittedWithin(scope, id, m, s.now, s.now + 1000 * s.w), PassDuring(here, m, s.now, s.now + 1000 * s.w);
    forall i | 0 <= i < |s'.requests| && p(s'.requests[i])
      ensures q(s'.requests[i]) || PassHere(s.w, after, m)(s'.requests[i])
    {
      NoStragglerNoLate(s, s', scope, id, m, i);
      HereOrAfter(s, s', scope, id, m, i);
    }
    CountSplit(s'.requests, p, q, PassHere(s.w, after, m));
  }

  lemma HereOrAfter(s: State, s': State, scope: Scope, id: string, m: nat, i: nat)
    requires LateInv(s') && s'.w == s.w && i < |s'.requests| && s'.requests[i].window >= Window(s.w, s.now)
    requires AdmittedWithin(scope, id, m, s.now, s.now + 1000 * s.w)(s'.requests[i])
    ensures PassDuring(Key(scope, id, Window(s.w, s.now)), m, s.now, s.now + 1000 * s.w)(s'.requests[i])
         || PassHere(s.w, Key(scope, id, Window(s.w, s.now) + 1), m)(s'.requests[i])
  {
    var r, n := s'.requests[i], Window(s.w, s.now);
    assert RequestOk(s', r);
    NestedFloors(s.w, s.now);
    StartIs(s.w, n);
    WindowAtLeast(s.w, r.window, n + 1, r.readAt);
  }

  // ---------------------------------------------------------------- going over

  /** Runs up to the interval's last millisecond that keep the counters of other windows and the requests there were. */
  ghost predicate Waited(s: State, s': State, scope: Scope, id: string, m: nat, gain: nat) {
    && s'.w == s.w && s'.now == s.now + 1000 * s.w - 1
    && CountIf(s'.requests, AdmittedWithin(scope, id, m, s.now, s.now + 1000 * s.w))
         == CountIf(s.requests, AdmittedWithin(scope, id, m, s.now, s.now + 1000 * s.w)) + gain
    && |s.requests| <= |s'.requests| && s'.requests[..|s.requests|] == s.requests
    && forall key: Key :: key.window != Window(s.w, s.now) ==> SameAt(s.keys, s'.keys, key)
  }

  /** Requests read the clock now, and wait until a counter that is running is over. */
  lemma ArriveThenWait(s: State, scope: Scope, id: string, m: nat, room: nat) returns (steps: seq<Step>)
    ensures var s' := Run(s, steps);
      && Waited(s, s', scope, id, m, 0) && s'.keys == s.keys && |s'.requests| == |s.requests| + m
      && forall i :: |s.requests| <= i < |s'.requests| ==>
           WaitingFor(s'.requests[i], scope, id, m, Window(s.w, s.now), room)
  {
    var p, wait := AdmittedWithin(scope, id, m, s.now, s.now + 1000 * s.w), Elapse(1000 * s.w - 1);
    var arrivals := ArriveAll(s, scope, id, m, room, m);
    assert CountIf(Run(s, arrivals).requests, p) == CountIf(s.requests, p);
    RunStep(s, arrivals, wait);
    steps := arrivals + [wait];
  }

  lemma CountsFade(keys: map<Key, Slot>, key: Key, t: nat, t': nat)
    requires t <= t'
    ensures LiveCount(keys, key, t') <= LiveCount(keys, key, t)
  {
  }

  /** What comes to pass among the requests that waited leaves the requests there were alone. */
  lemma WaitedThenBatch(s: State, s1: State, s2: State, scope: Scope, id: string, m: nat)
    requires Waited(s, s1, scope, id, m, 0) && |s1.requests| == |s.requests| + m
    requires Gained(s1, s2, scope, id, m, s.now, s.now + 1000 * s.w, m)
    requires Batch(s1, s2, scope, id, Window(s.w, s.now), |s.requests|, m)
    ensures Waited(s, s2, scope, id, m, m)
  {
    forall i | 0 <= i < |s.requests| ensures s2.requests[i] == s.requests[i] {
      assert s1.requests[..|s.requests|][i] == s.requests[i];
    }
  }

  /** The waiting requests hit when the counter is over, and find it free. */
  lemma WaveHits(s: State, s1: State, scope: Scope, id: string, m: nat, room: nat) returns (hits: seq<Step>)
    requires Waited(s, s1, scope, id, m, 0) && s1.keys == s.keys && |s1.requests| == |s.requests| + m
    requires forall i :: |s.requests| <= i < |s1.requests| ==>
      WaitingFor(s1.requests[i], scope, id, m, Window(s.w, s.now), room)
    requires LiveCount(s.keys, Key(scope, id, Window(s.w, s.now)), s1.now) == 0
    requires LiveCount(s.keys, Key(Ip, "", Window(s.w, s.now)), s.now) + m <= room
    ensures Waited(s, Run(s1, hits), scope, id, m, m)
  {
    var v := Window(s.w, s.now);
    CountsFade(s.keys, Key(Ip, "", v), s.now, s1.now);
    hits := AdmitAll(s1, scope, id, m, v, room, |s.requests|, m, s.now, s.now + 1000 * s.w);
    WaitedThenBatch(s, s1, Run(s1, hits), scope, id, m);
  }

  /** `m` requests read the clock now and hit when a counter that is running is over. */
  lemma LateWave(s: State, scope: Scope, id: string, m: nat) returns (steps: seq<Step>)
    requires var key := Key(scope, id, Window(s.w, s.now));
      key in s.keys && s.keys[key].expiresAt <= s.now + 1000 * s.w - 1
    ensures Waited(s, Run(s, steps), scope, id, m, m)
  {
    var room := LiveCount(s.keys, Key(Ip, "", Window(s.w, s.now)), s.now) + m;
    var arrived := ArriveThenWait(s, scope, id, m, room);
    var hits := WaveHits(s, Run(s, arrived), scope, id, m, room);
    RunConcat(s, arrived, hits);
    steps := arrived + hits;
  }

  lemma BurstThenWaited(s: State, s1: State, s2: State, scope: Scope, id: string, m: nat, k: nat, gain: nat)
    requires Gained(s, s1, scope, id, m, s.now, s.now + 1000 * s.w, k) && Waited(s1, s2, scope, id, m, gain)
    requires |s.requests| <= |s1.requests| && s1.requests[..|s.requests|] == s.requests
    requires forall key: Key :: key.window != Window(s.w, s.now) ==> SameAt(s.keys, s1.keys, key)
    ensures Waited(s, s2, scope, id, m, k + gain)
  {
    forall i | 0 <= i < |s.requests| ensures s2.requests[i] == s.requests[i] {
      assert s1.requests[..|s.requests|][i] == s.requests[i] && s2.requests[..|s1.requests|][i] == s1.requests[i];
    }
    forall key: Key | key.window != Window(s.w, s.now) ensures SameAt(s.keys, s2.keys, key) {
      assert SameAt(s.keys, s1.keys, key) && SameAt(s1.keys, s2.keys, key);
    }
  }

  /** What of the limit is left on a running counter. */
  ghost function Left(s: State, scope: Scope, id: string, m: nat): nat {
    if CountNow(s, scope, id) < m then m - CountNow(s, scope, id) else 0
  }

  /** A burst that fills the running counter, and then such a wave. */
  lemma FillThenWave(s: State, scope: Scope, id: string, m: nat) returns (steps: seq<Step>)
    requires LateInv(s) && Opening(s) && 0 < CountNow(s, scope, id)
    ensures Waited(s, Run(s, steps), scope, id, m, Left(s, scope, id, m) + m)
  {
    KeysDieSoon(s, Key(scope, id, Window(s.w, s.now)));
    if CountNow(s, scope, id) < m {
      var burst := Burst(s, scope, id, m, Left(s, scope, id, m), s.now, s.now + 1000 * s.w);
      var s1 := Run(s, burst);
      var wave := LateWave(s1, scope, id, m);
      RunConcat(s, burst, wave);
      steps := burst + wave;
      BurstThenWaited(s, s1, Run(s, steps), scope, id, m, Left(s, scope, id, m), m);
    } else {
      steps := LateWave(s, scope, id, m);
    }
  }

  /** At the interval's last millisecond the next window has begun, which had not begun at its start. */
  lemma NextWindow(w: Seconds, t: nat)
    requires Start(w, Window(w, t)) < t
    ensures Window(w, t + 1000 * w - 1) == Window(w, t) + 1 && t <= Start(w, Window(w, t) + 1)
  {
    NestedFloors(w, t);
    StartIs(w, Window(w, t));
    WindowIs(w, t + 1000 * w - 1, Window(w, t) + 1);
  }

  /** A counter that nobody has hit yet gives `m`. */
  lemma FreeBurst(s: State, scope: Scope, id: string, m: nat, v: int, a: int, b: int) returns (steps: seq<Step>)
    requires a <= s.now < b && Window(s.w, s.now) == v && Key(scope, id, v) !in s.keys
    ensures Gained(s, Run(s, steps), scope, id, m, a, b, m)
  {
    steps := Burst(s, scope, id, m, m, a, b);
  }

  /** A counter in use with room left: it is filled, then filled again by late requests, and then the next one is. */
  lemma PartUsedExceeds(s: State, scope: Scope, id: string, m: nat) returns (steps: seq<Step>)
    requires LateInv(s) && Opening(s) && Start(s.w, Window(s.w, s.now)) < s.now && 0 < CountNow(s, scope, id) < m
    ensures CountIf(Run(s, steps).requests, AdmittedWithin(scope, id, m, s.now, s.now + 1000 * s.w)) > 2 * m
  {
    var first := FillThenWave(s, scope, id, m);
    var s1 := Run(s, first);
    NextIsSame(s, s1, scope, id, m, Left(s, scope, id, m) + m);
    NextWindow(s.w, s.now);
    NotHitYet(s, Key(scope, id, Window(s.w, s.now) + 1));
    var last := FreeBurst(s1, scope, id, m, Window(s.w, s.now) + 1, s.now, s.now + 1000 * s.w);
    RunConcat(s, first, last);
    steps := first + last;
    GainsAdd(s, s1, Run(s, steps), scope, id, m, Left(s, scope, id, m) + m, m);
  }

  lemma NextIsSame(s: State, s1: State, scope: Scope, id: string, m: nat, gain: nat)
    requires Waited(s, s1, scope, id, m, gain)
    ensures SameAt(s.keys, s1.keys, Key(scope, id, Window(s.w, s.now) + 1))
    ensures s1.w == s.w && s1.now == s.now + 1000 * s.w - 1
  {
  }

  lemma GainsAdd(s: State, s1: State, s2: State, scope: Scope, id: string, m: nat, gain: nat, more: nat)
    requires Waited(s, s1, scope, id, m, gain) && Gained(s1, s2, scope, id, m, s.now, s.now + 1000 * s.w, more)
    ensures CountIf(s2.requests, AdmittedWithin(scope, id, m, s.now, s.now + 1000 * s.w)) >= gain + more
  {
  }

  /** The counter of the present window gives `m` or more, used or not. */
  lemma FirstCounter(s: State, scope: Scope, id: string, m: nat) returns (steps: seq<Step>, gain: nat)
    requires LateInv(s) && Opening(s)
    ensures gain >= m && Waited(s, Run(s, steps), scope, id, m, gain)
  {
    if CountNow(s, scope, id) == 0 {
      gain := m;
      steps := BurstThenWait(s, scope, id, m, m);
    } else {
      gain := Left(s, scope, id, m) + m;
      steps := FillThenWave(s, scope, id, m);
    }
  }

  /** From there a straggler adds one, and the counter of the next window `m`. */
  lemma StragglerThenBurst(s: State, s1: State, scope: Scope, id: string, m: nat, i: nat) returns (steps: seq<Step>)
    requires LateInv(s) && Opening(s) && Start(s.w, Window(s.w, s.now)) < s.now
    requires s1.w == s.w && s1.now == s.now + 1000 * s.w - 1
    requires forall key: Key :: key.window != Window(s.w, s.now) ==> SameAt(s.keys, s1.keys, key)
    requires i < |s.requests| <= |s1.requests| && s1.requests[i] == s.requests[i]
    requires Straggler(s.requests[i], scope, id, m, Window(s.w, s.now))
    ensures Gained(s1, Run(s1, steps), scope, id, m, s.now, s.now + 1000 * s.w, 1 + m)
  {
    var rest := RestSteps(s.requests[i], i);
    StragglerGains(s, s1, scope, id, m, Window(s.w, s.now), i);
    var s2, next := Run(s1, rest), Key(scope, id, Window(s.w, s.now) + 1);
    assert SameAt(s.keys, s1.keys, next) && SameAt(s1.keys, s2.keys, next);
    NextWindow(s.w, s.now);
    NotHitYet(s, next);
    var last := FreeBurst(s2, scope, id, m, Window(s.w, s.now) + 1, s.now, s.now + 1000 * s.w);
    RunConcat(s1, rest, last);
    steps := rest + last;
  }

  /** A counter that is free or used up gives `m`, the next one `m`, and a straggler comes on top. */
  lemma StragglerExceeds(s: State, scope: Scope, id: string, m: nat, i: nat) returns (steps: seq<Step>)
    requires LateInv(s) && Opening(s) && Start(s.w, Window(s.w, s.now)) < s.now
    requires i < |s.requests| && Straggler(s.requests[i], scope, id, m, Window(s.w, s.now))
    ensures CountIf(Run(s, steps).requests, AdmittedWithin(scope, id, m, s.now, s.now + 1000 * s.w)) > 2 * m
  {
    var first, gain := FirstCounter(s, scope, id, m);
    var s1 := Run(s, first);
    assert s1.requests[..|s.requests|][i] == s1.requests[i];
    var more := StragglerThenBurst(s, s1, scope, id, m, i);
    RunConcat(s, first, more);
    steps := first + more;
    GainsAdd(s, s1, Run(s, steps), scope, id, m, gain, 1 + m);
  }

  lemma SlidingGoesOver(s: State, scope: Scope, id: string, m: nat)
    requires LateInv(s) && Opening(s) && Start(s.w, Window(s.w, s.now)) < s.now
    requires HasStraggler(s, scope, id, m, Window(s.w, s.now)) || 0 < CountNow(s, scope, id) < m
    ensures !StaysWithin(s, scope, id, m, s.now, s.now + 1000 * s.w, 2 * m)
  {
    var steps: seq<Step>;
    if HasStraggler(s, scope, id, m, Window(s.w, s.now)) {
      var i :| 0 <= i < |s.requests| && Straggler(s.requests[i], scope, id, m, Window(s.w, s.now));
      steps := StragglerExceeds(s, scope, id, m, i);
    } else {
      steps := PartUsedExceeds(s, scope, id, m);
    }
    assert CountIf(Run(s, steps).requests, AdmittedWithin(scope, id, m, s.now, s.now + 1000 * s.w)) > 2 * m;
  }

  lemma SlidingStays(s: State, scope: Scope, id: string, m: nat)
    requires LateInv(s) && Opening(s) && !HasStraggler(s, scope, id, m, Window(s.w, s.now))
    requires CountNow(s, scope, id) == 0 || CountNow(s, scope, id) >= m
    ensures StaysWithin(s, scope, id, m, s.now, s.now + 1000 * s.w, 2 * m)
  {
    forall steps: seq<Step>
      ensures CountIf(Run(s, steps).requests, AdmittedWithin(scope, id, m, s.now, s.now + 1000 * s.w)) <= 2 * m
    {
      SlidingWithin(s, steps, scope, id, m);
    }
  }

  /**
   Exactly when an interval that begins inside a window keeps to twice the limit. At a reachable opening, every
   continuation admits at most `2 * m` requests of an IP or user with limit at most `m` in the next window's length, late
   ones included, if and only if no such request that read an earlier window is still to hit and can be admitted, and
   the counter of the present window is free or has no room left.
   */
  lemma SlidingBoundIff(w: Seconds, past: seq<Step>, scope: Scope, id: string, m: nat)
    requires var s := Run(Empty(w), past); Opening(s) && Start(w, Window(w, s.now)) < s.now
    ensures var s := Run(Empty(w), past);
      StaysWithin(s, scope, id, m, s.now, s.now + 1000 * w, 2 * m) <==>
        !HasStraggler(s, scope, id, m, Window(w, s.now))
        && (CountNow(s, scope, id) == 0 || CountNow(s, scope, id) >= m)
  {
    ReachableLateInv(w, past);
    var s := Run(Empty(w), past);
    if HasStraggler(s, scope, id, m, Window(w, s.now)) || 0 < CountNow(s, scope, id) < m {
      SlidingGoesOver(s, scope, id, m);
    } else {
      SlidingStays(s, scope, id, m);
    }
  }
}
