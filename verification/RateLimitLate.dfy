/**
 What the limiter promises of requests that may hit their counters after the window they read: the lifetimes of one
 counter lie a window's length apart, so at most two of them touch an interval of that length.
 */
module RateLimitLate {
  import opened Prelude
  import opened RateWindows
  import opened RateLimit

  // ---------------------------------------------------------------- lifetimes

  /** The end of the lifetime in which a request hit the key. */
  function EndOf(key: Key, r: Request): nat
    requires OnKey(key, r)
  {
    r.HitOn(key.scope).value.expires
  }

  /** Lifetimes of one counter end at least a window's length apart. */
  ghost predicate Spaced(s: State, key: Key) {
    && (forall i, j :: 0 <= i < |s.requests| && 0 <= j < |s.requests| ==>
          HitsApart(s.w, key, s.requests[i], s.requests[j]))
    && (key in s.keys ==> forall i :: 0 <= i < |s.requests| ==> HitBefore(s.w, key, s.requests[i], s.keys[key].expiresAt))
  }

  predicate HitsApart(w: Seconds, key: Key, r: Request, r': Request) {
    OnKey(key, r) && OnKey(key, r') ==> Apart(w, EndOf(key, r), EndOf(key, r'))
  }

  predicate HitBefore(w: Seconds, key: Key, r: Request, e: nat) {
    OnKey(key, r) ==> EndOf(key, r) <= e && Apart(w, EndOf(key, r), e)
  }

  predicate Apart(w: Seconds, e: nat, e': nat) {
    e == e' || e + 1000 * w <= e' || e' + 1000 * w <= e
  }

  /** A user's counter is hit after the IP's was passed, and a hit counts at least itself. */
  ghost predicate InOrder(r: Request) {
    && (r.userHit.Some? ==> r.Passed(Ip))
    && (r.ipHit.Some? ==> r.ipHit.value.count > 0)
    && (r.userHit.Some? ==> r.userHit.value.count > 0)
  }

  ghost predicate LateInv(s: State) {
    && Inv(s)
    && (forall key :: Spaced(s, key))
    && (forall i :: 0 <= i < |s.requests| ==> InOrder(s.requests[i]))
  }

  /** The end of the new hit's lifetime is apart from those of all hits before it. */
  lemma NewEnd(s: State, i: nat, scope: Scope, replied: bool, j: nat)
    requires LateInv(s) && Enabled(s, HitKey(i, scope, replied)) && j < |s.requests|
    ensures HitBefore(s.w, KeyOf(s.requests[i], scope), s.requests[j], HitBy(s, i, scope, replied).expires)
  {
    var key := KeyOf(s.requests[i], scope);
    if OnKey(key, s.requests[j]) {
      assert RequestOk(s, s.requests[j]) && HitOk(s, s.requests[j], scope);
      assert key in s.keys && SlotOk(s, key) && Spaced(s, key);
      assert HitBefore(s.w, key, s.requests[j], s.keys[key].expiresAt);
    }
  }

  /** What the other requests' hits on the key are stays as it is. */
  lemma OtherHit(s: State, i: nat, scope: Scope, replied: bool, key: Key, j: nat)
    requires Enabled(s, HitKey(i, scope, replied)) && j < |s.requests|
    requires j != i || key != KeyOf(s.requests[i], scope)
    ensures var r' := Apply(s, HitKey(i, scope, replied)).requests[j];
      (OnKey(key, r') <==> OnKey(key, s.requests[j])) && (OnKey(key, r') ==> EndOf(key, r') == EndOf(key, s.requests[j]))
  {
  }

  lemma SpacedPair(s: State, i: nat, scope: Scope, replied: bool, key: Key, j: nat, k: nat)
    requires LateInv(s) && Enabled(s, HitKey(i, scope, replied)) && j < |s.requests| && k < |s.requests|
    ensures var s' := Apply(s, HitKey(i, scope, replied)); HitsApart(s.w, key, s'.requests[j], s'.requests[k])
  {
    assert Spaced(s, key) && HitsApart(s.w, key, s.requests[j], s.requests[k]);
    var mine := key == KeyOf(s.requests[i], scope);
    if !(mine && j == i) { OtherHit(s, i, scope, replied, key, j); }
    if !(mine && k == i) { OtherHit(s, i, scope, replied, key, k); }
    if mine {
      NewEnd(s, i, scope, replied, j);
      NewEnd(s, i, scope, replied, k);
    }
  }

  lemma SpacedKept(s: State, i: nat, scope: Scope, replied: bool, key: Key)
    requires LateInv(s) && Enabled(s, HitKey(i, scope, replied))
    ensures Spaced(Apply(s, HitKey(i, scope, replied)), key)
  {
    var s' := Apply(s, HitKey(i, scope, replied));
    forall j, k | 0 <= j < |s'.requests| && 0 <= k < |s'.requests|
      ensures HitsApart(s.w, key, s'.requests[j], s'.requests[k])
    {
      SpacedPair(s, i, scope, replied, key, j, k);
    }
    forall j | 0 <= j < |s'.requests| && key in s'.keys
      ensures HitBefore(s.w, key, s'.requests[j], s'.keys[key].expiresAt)
    {
      assert Spaced(s, key);
      if key == KeyOf(s.requests[i], scope) {
        if j != i { OtherHit(s, i, scope, replied, key, j); }
        NewEnd(s, i, scope, replied, j);
      } else {
        OtherHit(s, i, scope, replied, key, j);
      }
    }
  }

  lemma OrderKept(s: State, step: Step, i: nat)
    requires LateInv(s) && Enabled(s, step) && i < |Apply(s, step).requests|
    ensures InOrder(Apply(s, step).requests[i])
  {
    assert i < |s.requests| ==> InOrder(s.requests[i]);
  }

  lemma NextLateInv(s: State, step: Step)
    requires LateInv(s)
    ensures LateInv(Next(s, step))
  {
    NextInv(s, step);
    if Enabled(s, step) {
      forall key ensures Spaced(Apply(s, step), key) {
        assert Spaced(s, key);
        if step.HitKey? { SpacedKept(s, step.i, step.scope, step.replied, key); }
      }
      forall i | 0 <= i < |Apply(s, step).requests| ensures InOrder(Apply(s, step).requests[i]) {
        OrderKept(s, step, i);
      }
    }
  }

  lemma {:induction false} RunLateInv(s: State, steps: seq<Step>)
    requires LateInv(s)
    ensures LateInv(Run(s, steps)) && Run(s, steps).w == s.w
    decreases |steps|
  {
    if steps != [] {
      NextLateInv(s, steps[0]);
      RunLateInv(Next(s, steps[0]), steps[1..]);
    }
  }

  lemma ReachableLateInv(w: Seconds, steps: seq<Step>)
    ensures LateInv(Run(Empty(w), steps)) && Run(Empty(w), steps).w == w
  {
    EmptyInv(w);
    RunLateInv(Empty(w), steps);
  }

  // ---------------------------------------------------------------- passes in an interval

  /** Hits on a key from `a` until `b`, in whatever lifetime, that passed a limit of at most `m`. */
  ghost function PassDuring(key: Key, m: nat, a: int, b: int): Request -> bool {
    (r: Request) => OnKey(key, r) && r.Passed(key.scope) && r.Max(key.scope) <= m
                    && a <= r.HitOn(key.scope).value.at < b
  }

  /** No three hits in an interval of the window's length belong to three lifetimes. */
  lemma NoThreeLives(s: State, key: Key, a: int, i: nat, j: nat, k: nat)
    requires LateInv(s) && i < |s.requests| && j < |s.requests| && k < |s.requests|
    requires OnKey(key, s.requests[i]) && OnKey(key, s.requests[j]) && OnKey(key, s.requests[k])
    requires forall x :: x == i || x == j || x == k ==>
      a <= s.requests[x].HitOn(key.scope).value.at < a + 1000 * s.w
    ensures EndOf(key, s.requests[i]) == EndOf(key, s.requests[j]) || EndOf(key, s.requests[k]) == EndOf(key, s.requests[i])
         || EndOf(key, s.requests[k]) == EndOf(key, s.requests[j])
  {
    assert RequestOk(s, s.requests[i]) && RequestOk(s, s.requests[j]) && RequestOk(s, s.requests[k]);
    assert Spaced(s, key);
    assert HitsApart(s.w, key, s.requests[i], s.requests[j]) && HitsApart(s.w, key, s.requests[i], s.requests[k])
        && HitsApart(s.w, key, s.requests[j], s.requests[k]);
  }

  /** At most `2 * m` passes on one key in any interval of the window's length. */
  lemma TwoLivesBound(s: State, key: Key, m: nat, a: int)
    requires LateInv(s)
    ensures CountIf(s.requests, PassDuring(key, m, a, a + 1000 * s.w)) <= 2 * m
  {
    var p := PassDuring(key, m, a, a + 1000 * s.w);
    CountZero(s.requests, p);
    if CountIf(s.requests, p) != 0 {
      var i :| 0 <= i < |s.requests| && p(s.requests[i]);
      var e := EndOf(key, s.requests[i]);
      var e' := OtherLife(s, key, m, a, i);
      assert Bounded(s, key, m);
      forall k | 0 <= k < |s.requests| && p(s.requests[k])
        ensures PassIn(key, m, e)(s.requests[k]) || PassIn(key, m, e')(s.requests[k])
      {
      }
      CountSplit(s.requests, p, PassIn(key, m, e), PassIn(key, m, e'));
    }
  }

  /** The one other lifetime, if there is one, that the passes in the interval can belong to. */
  lemma OtherLife(s: State, key: Key, m: nat, a: int, i: nat) returns (e': nat)
    requires LateInv(s) && i < |s.requests| && PassDuring(key, m, a, a + 1000 * s.w)(s.requests[i])
    ensures forall k :: 0 <= k < |s.requests| && PassDuring(key, m, a, a + 1000 * s.w)(s.requests[k]) ==>
      EndOf(key, s.requests[k]) == EndOf(key, s.requests[i]) || EndOf(key, s.requests[k]) == e'
  {
    var p, e := PassDuring(key, m, a, a + 1000 * s.w), EndOf(key, s.requests[i]);
    if j :| 0 <= j < |s.requests| && p(s.requests[j]) && EndOf(key, s.requests[j]) != e {
      e' := EndOf(key, s.requests[j]);
      forall k | 0 <= k < |s.requests| && p(s.requests[k])
        ensures EndOf(key, s.requests[k]) == e || EndOf(key, s.requests[k]) == e'
      {
        NoThreeLives(s, key, a, i, j, k);
      }
    } else {
      e' := e;
    }
  }

  // ---------------------------------------------------------------- bounds under a delay limit

  /** All admitted requests of an IP or user with limit at most `m` that hit from `from` until `until`, late or not. */
  ghost function AdmittedWithin(scope: Scope, id: string, m: nat, from: int, until: int): Request -> bool {
    (r: Request) => r.Admitted() && r.Id(scope) == Some(id) && r.Max(scope) <= m
                    && from <= r.HitOn(scope).value.at < until
  }

  /** Every request of `id` hits at most one window's length after it read the clock. */
  ghost predicate DelayLimited(s: State, scope: Scope, id: string) {
    forall i :: 0 <= i < |s.requests| && s.requests[i].Id(scope) == Some(id) && s.requests[i].HitOn(scope).Some? ==>
      s.requests[i].HitOn(scope).value.at <= s.requests[i].readAt + 1000 * s.w
  }

  lemma StartMonotone(w: Seconds, v: int, n: int)
    requires v <= n
    ensures Start(w, v) <= Start(w, n)
  {
    StartIs(w, v);
    StartIs(w, n);
    assert v * w <= n * w;
  }

  /** A time at or after a window's start has that window's number or a later one, and likewise before its end. */
  lemma WindowAtLeast(w: Seconds, v: int, n: int, t: int)
    requires InWindow(w, v, t)
    ensures Start(w, n) <= t ==> n <= v
    ensures t < Start(w, n) + 1000 * w ==> v <= n
  {
    StartIs(w, v);
    StartIs(w, n);
    if v < n { StartMonotone(w, v + 1, n); }
    if n < v { StartMonotone(w, n + 1, v); }
  }

  /** With late hits limited to one window's length: at most `3 * m` in an aligned window. */
  lemma AlignedBoundUnderDelay(w: Seconds, steps: seq<Step>, scope: Scope, id: string, m: nat, n: int)
    requires DelayLimited(Run(Empty(w), steps), scope, id)
    ensures CountIf(Run(Empty(w), steps).requests,
                    AdmittedWithin(scope, id, m, Start(w, n), Start(w, n) + 1000 * w)) <= 3 * m
  {
    ReachableLateInv(w, steps);
    var s, late, here := Run(Empty(w), steps), Key(scope, id, n - 1), Key(scope, id, n);
    var a := Start(w, n);
    var p, q, r := AdmittedWithin(scope, id, m, a, a + 1000 * w), PassDuring(late, m, a, a + 1000 * w), PassHere(w, here, m);
    TwoLivesBound(s, late, m, a);
    assert Bounded(s, here, m);
    StartIs(w, n - 1);
    forall i | 0 <= i < |s.requests| && p(s.requests[i]) ensures q(s.requests[i]) || r(s.requests[i]) {
      var x := s.requests[i];
      assert RequestOk(s, x);
      WindowAtLeast(w, x.window, n - 1, x.readAt);
      WindowAtLeast(w, x.window, n, x.readAt);
    }
    CountSplit(s.requests, p, q, r);
  }

  /** And at most `5 * m` in any interval of the window's length. */
  lemma SlidingBoundUnderDelay(w: Seconds, steps: seq<Step>, scope: Scope, id: string, m: nat, t: nat)
    requires DelayLimited(Run(Empty(w), steps), scope, id)
    ensures CountIf(Run(Empty(w), steps).requests, AdmittedWithin(scope, id, m, t, t + 1000 * w)) <= 5 * m
  {
    ReachableLateInv(w, steps);
    var s, n := Run(Empty(w), steps), Window(w, t);
    var p := AdmittedWithin(scope, id, m, t, t + 1000 * w);
    var before := PassDuring(Key(scope, id, n - 1), m, t, t + 1000 * w);
    var now := PassDuring(Key(scope, id, n), m, t, t + 1000 * w);
    var after := PassHere(w, Key(scope, id, n + 1), m);
    TwoLivesBound(s, Key(scope, id, n - 1), m, t);
    TwoLivesBound(s, Key(scope, id, n), m, t);
    assert Bounded(s, Key(scope, id, n + 1), m);
    NestedFloors(w, t);
    StartIs(w, n - 1);
    StartIs(w, n);
    StartIs(w, n + 1);
    var rest := (r: Request) => now(r) || after(r);
    forall i | 0 <= i < |s.requests| && p(s.requests[i]) ensures before(s.requests[i]) || rest(s.requests[i]) {
      var x := s.requests[i];
      assert RequestOk(s, x);
      WindowAtLeast(w, x.window, n - 1, x.readAt);
      WindowAtLeast(w, x.window, n + 1, x.readAt);
    }
    CountSplit(s.requests, p, before, rest);
    CountSplit(s.requests, rest, now, after);
  }
}
