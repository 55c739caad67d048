/**
 Exactly when the limiter's bounds hold of all requests, late ones included: what must be true at the start of a window,
 or of an interval, for every continuation to stay within the bound.
 */
module RateLimitExact {
  import opened Prelude
  import opened RateWindows
  import opened RateLimit
  import opened RateLimitLate
  import opened RateLimitBursts

  /** The request has not hit its counter for `scope` and, as far as its limits go, can still be admitted. */
  ghost predicate CanBeAdmitted(r: Request, scope: Scope) {
    && r.HitOn(scope).None? && r.Max(scope) > 0
    && if scope.Ip? then (r.user.Some? ==> r.userMax > 0)
       else if r.ipHit.Some? then r.Passed(Ip) else r.ipMax > 0
  }

  /** It is of `id`, with limit at most `m`, and read a window before `n`. */
  ghost predicate Straggler(r: Request, scope: Scope, id: string, m: nat, n: int) {
    r.Id(scope) == Some(id) && r.Max(scope) <= m && r.window < n && CanBeAdmitted(r, scope)
  }

  ghost predicate HasStraggler(s: State, scope: Scope, id: string, m: nat, n: int) {
    exists i :: 0 <= i < |s.requests| && Straggler(s.requests[i], scope, id, m, n)
  }

  /** The instant `s.now` has come, and nothing has hit a counter in it. */
  ghost predicate Opening(s: State) {
    forall i :: 0 <= i < |s.requests| ==> HitsBefore(s.requests[i], s.now)
  }

  ghost predicate HitsBefore(r: Request, t: nat) {
    (r.ipHit.Some? ==> r.ipHit.value.at < t) && (r.userHit.Some? ==> r.userHit.value.at < t)
  }

  /** Every continuation admits at most `bound` of them from `a` until `b`. */
  ghost predicate StaysWithin(s: State, scope: Scope, id: string, m: nat, a: int, b: int, bound: nat) {
    forall steps: seq<Step> :: CountIf(Run(s, steps).requests, AdmittedWithin(scope, id, m, a, b)) <= bound
  }

  // ---------------------------------------------------------------- what follows a state

  ghost predicate Grew(r: Request, r': Request, t: nat) {
    && r'.(ipHit := r.ipHit, userHit := r.userHit) == r
    && (if r.ipHit.Some? then r'.ipHit == r.ipHit else r'.ipHit.Some? ==> r'.ipHit.value.at >= t)
    && (if r.userHit.Some? then r'.userHit == r.userHit else r'.userHit.Some? ==> r'.userHit.value.at >= t)
  }

  ghost predicate Follows(s: State, s': State) {
    && s'.w == s.w && s.now <= s'.now && |s.requests| <= |s'.requests|
    && (forall i :: 0 <= i < |s.requests| ==> Grew(s.requests[i], s'.requests[i], s.now))
    && (forall i :: |s.requests| <= i < |s'.requests| ==> s'.requests[i].readAt >= s.now)
  }

  lemma FollowsStep(s: State, s': State, step: Step)
    requires Follows(s, s')
    ensures Follows(s, Next(s', step))
  {
    var s2 := Next(s', step);
    forall i | 0 <= i < |s.requests| ensures Grew(s.requests[i], s2.requests[i], s.now) {
      assert Grew(s.requests[i], s'.requests[i], s.now);
    }
  }

  lemma {:induction false} FollowsRun(s: State, s1: State, steps: seq<Step>)
    requires Follows(s, s1)
    ensures Follows(s, Run(s1, steps))
    decreases |steps|
  {
    if steps != [] {
      FollowsStep(s, s1, steps[0]);
      FollowsRun(s, Next(s1, steps[0]), steps[1..]);
    }
  }

  /** Whoever is admitted after the opening, and was no straggler, read window `n` or a later one. */
  lemma NoStragglerNoLate(s: State, s': State, scope: Scope, id: string, m: nat, i: nat)
    requires LateInv(s) && LateInv(s') && Follows(s, s') && Opening(s) && i < |s'.requests|
    requires i < |s.requests| ==> !Straggler(s.requests[i], scope, id, m, Window(s.w, s.now))
    requires AdmittedWithin(scope, id, m, s.now, s.now + 1000 * s.w)(s'.requests[i])
    ensures s'.requests[i].window >= Window(s.w, s.now)
  {
    var r' := s'.requests[i];
    assert RequestOk(s', r') && InOrder(r');
    NestedFloors(s.w, s.now);
    if i < |s.requests| {
      assert Grew(s.requests[i], r', s.now) && HitsBefore(s.requests[i], s.now);
    } else {
      WindowAtLeast(s.w, r'.window, Window(s.w, s.now), r'.readAt);
    }
  }

  // ---------------------------------------------------------------- what an opening has behind it

  /** A counter that is there was hit in its lifetime. */
  lemma WasHit(s: State, key: Key) returns (i: nat)
    requires Inv(s) && key in s.keys
    ensures i < |s.requests| && OnKey(key, s.requests[i]) && EndOf(key, s.requests[i]) == s.keys[key].expiresAt
  {
    assert SlotOk(s, key);
    CountZero(s.requests, HitIn(key, s.keys[key].expiresAt));
    i :| 0 <= i < |s.requests| && HitIn(key, s.keys[key].expiresAt)(s.requests[i]);
  }

  /** All counters there at an opening are gone one window's length later, less a millisecond. */
  lemma KeysDieSoon(s: State, key: Key)
    requires LateInv(s) && Opening(s) && key in s.keys
    ensures s.keys[key].expiresAt <= s.now + 1000 * s.w - 1
  {
    var i := WasHit(s, key);
    assert RequestOk(s, s.requests[i]) && HitsBefore(s.requests[i], s.now);
  }

  /** No counter of a window that has not begun before the opening has been hit. */
  lemma NotHitYet(s: State, key: Key)
    requires LateInv(s) && Opening(s) && s.now <= Start(s.w, key.window)
    ensures key !in s.keys
  {
    forall i | 0 <= i < |s.requests| ensures !OnKey(key, s.requests[i]) {
      assert RequestOk(s, s.requests[i]) && HitsBefore(s.requests[i], s.now);
    }
    if key in s.keys {
      assert SlotOk(s, key);
      CountZero(s.requests, HitIn(key, s.keys[key].expiresAt));
    }
  }

  // ---------------------------------------------------------------- aligned windows

  lemma AlignedWithin(s: State, steps: seq<Step>, scope: Scope, id: string, m: nat, n: int)
    requires LateInv(s) && Opening(s) && s.now == Start(s.w, n) && !HasStraggler(s, scope, id, m, n)
    ensures CountIf(Run(s, steps).requests, AdmittedWithin(scope, id, m, s.now, s.now + 1000 * s.w)) <= m
  {
    var s', key := Run(s, steps), Key(scope, id, n);
    RunLateInv(s, steps);
    FollowsSelf(s);
    FollowsRun(s, s, steps);
    WindowIs(s.w, s.now, n);
    var p := AdmittedWithin(scope, id, m, s.now, s.now + 1000 * s.w);
    forall i | 0 <= i < |s'.requests| && p(s'.requests[i]) ensures PassHere(s.w, key, m)(s'.requests[i]) {
      NoStragglerNoLate(s, s', scope, id, m, i);
      assert RequestOk(s', s'.requests[i]);
      WindowAtLeast(s.w, s'.requests[i].window, n, s'.requests[i].readAt);
    }
    CountLe(s'.requests, p, PassHere(s.w, key, m));
    assert Bounded(s', key, m);
  }

  lemma FollowsSelf(s: State)
    requires LateInv(s)
    ensures Follows(s, s)
  {
  }

  /** `k` requests on time at the opening, and then nothing for all but a millisecond of a window's length. */
  lemma BurstThenWait(s: State, scope: Scope, id: string, m: nat, k: nat) returns (steps: seq<Step>)
    requires LiveCount(s.keys, Key(scope, id, Window(s.w, s.now)), s.now) + k <= m
    ensures var s', p := Run(s, steps), AdmittedWithin(scope, id, m, s.now, s.now + 1000 * s.w);
      && s'.w == s.w && s'.now == s.now + 1000 * s.w - 1
      && CountIf(s'.requests, p) == CountIf(s.requests, p) + k
      && |s.requests| <= |s'.requests| && s'.requests[..|s.requests|] == s.requests
      && forall key: Key :: key.window != Window(s.w, s.now) ==> SameAt(s.keys, s'.keys, key)
  {
    var burst := Burst(s, scope, id, m, k, s.now, s.now + 1000 * s.w);
    RunStep(s, burst, Elapse(1000 * s.w - 1));
    steps := burst + [Elapse(1000 * s.w - 1)];
  }

  /** The straggler's own hits, once it is ready. */
  lemma StragglerGains(s: State, s': State, scope: Scope, id: string, m: nat, n: int, i: nat)
    requires LateInv(s) && Opening(s) && s'.w == s.w && s'.now == s.now + 1000 * s.w - 1
    requires forall key: Key :: key.window < n ==> SameAt(s.keys, s'.keys, key)
    requires i < |s.requests| <= |s'.requests| && s'.requests[i] == s.requests[i]
    requires Straggler(s.requests[i], scope, id, m, n)
    ensures var s2 := Run(s', RestSteps(s.requests[i], i));
      Admits(s', i, s2) && Gained(s', s2, scope, id, m, s.now, s.now + 1000 * s.w, 1)
  {
    StragglerIsReady(s, s', scope, id, m, n, i);
    AdmitGains(s', i, scope, id, m, s.now, s.now + 1000 * s.w);
  }

  /** A straggler can be admitted, at the window's last millisecond, on top of `m` requests on time. */
  lemma AlignedExceeded(s: State, scope: Scope, id: string, m: nat, n: int, i: nat) returns (steps: seq<Step>)
    requires LateInv(s) && Opening(s) && s.now == Start(s.w, n)
    requires i < |s.requests| && Straggler(s.requests[i], scope, id, m, n)
    ensures CountIf(Run(s, steps).requests, AdmittedWithin(scope, id, m, s.now, s.now + 1000 * s.w)) > m
  {
    WindowIs(s.w, s.now, n);
    NotHitYet(s, Key(scope, id, n));
    var waited := BurstThenWait(s, scope, id, m, m);
    var s1 := Run(s, waited);
    assert s1.requests[..|s.requests|][i] == s1.requests[i];
    StragglerGains(s, s1, scope, id, m, n, i);
    RunConcat(s, waited, RestSteps(s.requests[i], i));
    steps := waited + RestSteps(s.requests[i], i);
  }

  /** When the counters of an opening are gone, and its old windows' counters were not hit since, a straggler is ready. */
  lemma StragglerIsReady(s: State, s': State, scope: Scope, id: string, m: nat, n: int, i: nat)
    requires LateInv(s) && Opening(s) && s'.now >= s.now + 1000 * s.w - 1
    requires forall key: Key :: key.window < n ==> SameAt(s.keys, s'.keys, key)
    requires i < |s.requests| && i < |s'.requests| && s'.requests[i] == s.requests[i]
    requires Straggler(s.requests[i], scope, id, m, n)
    ensures Ready(s', s'.requests[i])
  {
    var r := s.requests[i];
    assert InOrder(r);
    forall key: Key | key.window < n && key in s.keys ensures s.keys[key].expiresAt <= s'.now {
      KeysDieSoon(s, key);
    }
    assert forall key: Key :: key.window < n ==> SameAt(s.keys, s'.keys, key);
    assert SameAt(s.keys, s'.keys, Key(Ip, r.ip, r.window));
    assert r.user.Some? ==> SameAt(s.keys, s'.keys, Key(User, r.user.value, r.window));
  }

  /**
   Exactly when an aligned window keeps to the limit. At a reachable opening of window `n`, every continuation admits at
   most `m` requests of an IP or user with limit at most `m` in that window, late ones included, if and only if no such
   request that read an earlier window is still to hit and can be admitted.
   */
  lemma AlignedBoundIffNoStraggler(w: Seconds, past: seq<Step>, scope: Scope, id: string, m: nat, n: int)
    requires var s := Run(Empty(w), past); Opening(s) && s.now == Start(w, n)
    ensures var s := Run(Empty(w), past);
      StaysWithin(s, scope, id, m, Start(w, n), Start(w, n) + 1000 * w, m) <==> !HasStraggler(s, scope, id, m, n)
  {
    ReachableLateInv(w, past);
    var s := Run(Empty(w), past);
    if HasStraggler(s, scope, id, m, n) {
      var i :| 0 <= i < |s.requests| && Straggler(s.requests[i], scope, id, m, n);
      var steps := AlignedExceeded(s, scope, id, m, n, i);
    } else {
      forall steps: seq<Step>
        ensures CountIf(Run(s, steps).requests, AdmittedWithin(scope, id, m, Start(w, n), Start(w, n) + 1000 * w)) <= m
      {
        AlignedWithin(s, steps, scope, id, m, n);
      }
    }
  }
}
