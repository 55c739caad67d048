/** Runs in which many requests of one IP or user are admitted at one instant, on time or late. */
module RateLimitBursts {
  import opened Prelude
  import opened RateWindows
  import opened RateLimit
  import opened RateLimitLate

  lemma RunStep(s: State, steps: seq<Step>, step: Step)
    ensures Run(s, steps + [step]) == Next(Run(s, steps), step)
  {
    RunConcat(s, steps, [step]);
    OneStep(Run(s, steps), step);
  }

  // ---------------------------------------------------------------- one request

  /** The hits that a request has still to make. */
  function RestSteps(r: Request, i: nat): seq<Step> {
    (if r.ipHit.None? then [HitKey(i, Ip, true)] else []) + (if r.user.Some? then [HitKey(i, User, true)] else [])
  }

  /** The keys it hits by them. */
  predicate WillHit(r: Request, key: Key) {
    (r.ipHit.None? && key == Key(Ip, r.ip, r.window)) || (r.user.Some? && key == Key(User, r.user.value, r.window))
  }

  /** There is room for it on all of them. */
  predicate Ready(s: State, r: Request) {
    && r.userHit.None?
    && (if r.ipHit.None? then LiveCount(s.keys, Key(Ip, r.ip, r.window), s.now) < r.ipMax else r.Passed(Ip))
    && (r.user.Some? ==> LiveCount(s.keys, Key(User, r.user.value, r.window), s.now) < r.userMax)
  }

  /** `keys'` has one hit more on `key`, in the same lifetime if one was running, and no change elsewhere. */
  ghost predicate OneMoreHit(keys: map<Key, Slot>, keys': map<Key, Slot>, key: Key, now: nat) {
    && key in keys' && now < keys'[key].expiresAt
    && LiveCount(keys', key, now) == LiveCount(keys, key, now) + 1
    && (LiveCount(keys, key, now) > 0 ==> keys'[key].expiresAt == keys[key].expiresAt)
    && forall k :: k != key ==> SameAt(keys, keys', k)
  }

  ghost predicate SameAt(keys: map<Key, Slot>, keys': map<Key, Slot>, key: Key) {
    (key in keys' <==> key in keys) && (key in keys ==> keys'[key] == keys[key])
  }

  lemma HitAdds(s: State, i: nat, scope: Scope)
    requires Enabled(s, HitKey(i, scope, true))
    ensures var s', r, key := Next(s, HitKey(i, scope, true)), s.requests[i], KeyOf(s.requests[i], scope);
      && s'.w == s.w && s'.now == s.now && |s'.requests| == |s.requests|
      && OneMoreHit(s.keys, s'.keys, key, s.now)
      && s'.requests == s.requests[i := r.WithHit(scope, HitBy(s, i, scope, true))]
      && (s'.requests[i].Passed(scope) <==> LiveCount(s.keys, key, s.now) < r.Max(scope))
      && s'.requests[i].HitOn(scope).value.at == s.now
  {
  }

  /** `r'` is `r` with the rest of its hits made at `t`, and admitted. */
  ghost predicate AdmittedAs(r: Request, r': Request, t: nat) {
    && r'.Admitted() && r'.(ipHit := r.ipHit, userHit := r.userHit) == r
    && (if r.ipHit.Some? then r'.ipHit == r.ipHit else r'.ipHit.value.at == t)
    && (r.user.Some? ==> r'.userHit.value.at == t)
  }

  /** What making the rest of a ready request's hits does. */
  ghost predicate Admits(s: State, i: nat, s': State)
    requires i < |s.requests|
  {
    && s'.w == s.w && s'.now == s.now && |s'.requests| == |s.requests|
    && s'.requests == s.requests[i := s'.requests[i]] && AdmittedAs(s.requests[i], s'.requests[i], s.now)
    && (forall key :: LiveCount(s'.keys, key, s.now)
                   == LiveCount(s.keys, key, s.now) + if WillHit(s.requests[i], key) then 1 else 0)
    && (forall key :: !WillHit(s.requests[i], key) ==> SameAt(s.keys, s'.keys, key))
    && (forall key :: LiveCount(s.keys, key, s.now) > 0 ==>
          key in s'.keys && s'.keys[key].expiresAt == s.keys[key].expiresAt)
  }

  /** A ready request that makes the rest of its hits is admitted. */
  lemma Admit(s: State, i: nat)
    requires i < |s.requests| && Ready(s, s.requests[i]) && (s.requests[i].ipHit.None? || s.requests[i].user.Some?)
    ensures Admits(s, i, Run(s, RestSteps(s.requests[i], i)))
  {
    var r := s.requests[i];
    if r.ipHit.None? && r.user.None? {
      assert RestSteps(r, i) == [HitKey(i, Ip, true)];
      OneStep(s, HitKey(i, Ip, true));
      HitAdds(s, i, Ip);
    } else if r.ipHit.Some? {
      assert RestSteps(r, i) == [HitKey(i, User, true)];
      OneStep(s, HitKey(i, User, true));
      HitAdds(s, i, User);
    } else {
      TwoSteps(s, HitKey(i, Ip, true), HitKey(i, User, true));
      BothHits(s, i);
    }
  }

  lemma BothHits(s: State, i: nat)
    requires i < |s.requests| && Ready(s, s.requests[i]) && s.requests[i].ipHit.None? && s.requests[i].user.Some?
    ensures Admits(s, i, Next(Next(s, HitKey(i, Ip, true)), HitKey(i, User, true)))
  {
    HitAdds(s, i, Ip);
    var s1 := Next(s, HitKey(i, Ip, true));
    HitAdds(s1, i, User);
  }

  // ---------------------------------------------------------------- many requests

  /** A request of `id` with limit `m` that has hit nothing; for a user, its IP is not what will stop it. */
  ghost predicate WaitingFor(r: Request, scope: Scope, id: string, m: nat, window: int, room: nat) {
    && r.Id(scope) == Some(id) && r.Max(scope) == m && r.window == window && r.ipHit.None? && r.userHit.None?
    && if scope.Ip? then r.user.None? else r.ip == "" && room <= r.ipMax
  }

  /** The keys that such requests hit. */
  function BatchKeys(scope: Scope, id: string, window: int): set<Key> {
    {Key(scope, id, window), Key(Ip, if scope.Ip? then id else "", window)}
  }

  /** From `s` to `s'`, `k` more requests of `id` with limit `m` were admitted, at the same time. */
  ghost predicate Gained(s: State, s': State, scope: Scope, id: string, m: nat, a: int, b: int, k: nat) {
    && s'.w == s.w && s'.now == s.now
    && CountIf(s'.requests, AdmittedWithin(scope, id, m, a, b))
         == CountIf(s.requests, AdmittedWithin(scope, id, m, a, b)) + k
  }

  lemma AdmitGains(s: State, i: nat, scope: Scope, id: string, m: nat, a: int, b: int)
    requires i < |s.requests| && Ready(s, s.requests[i]) && a <= s.now < b
    requires s.requests[i].Id(scope) == Some(id) && s.requests[i].Max(scope) <= m && s.requests[i].HitOn(scope).None?
    ensures var s' := Run(s, RestSteps(s.requests[i], i)); Admits(s, i, s') && Gained(s, s', scope, id, m, a, b, 1)
  {
    Admit(s, i);
    var s' := Run(s, RestSteps(s.requests[i], i));
    CountUpdate(s.requests, i, s'.requests[i], AdmittedWithin(scope, id, m, a, b));
  }

  /** From `s` to `s'`, the `k` requests from number `base` on were admitted, and nothing else changed. */
  ghost predicate Batch(s: State, s': State, scope: Scope, id: string, v: int, base: nat, k: nat) {
    && |s'.requests| == |s.requests|
    && (forall i :: 0 <= i < |s.requests| && !(base <= i < base + k) ==> s'.requests[i] == s.requests[i])
    && (forall key :: key !in BatchKeys(scope, id, v) ==> SameAt(s.keys, s'.keys, key))
    && (forall key :: LiveCount(s'.keys, key, s.now)
                   == LiveCount(s.keys, key, s.now) + if key in BatchKeys(scope, id, v) then k else 0)
    && (forall key :: LiveCount(s.keys, key, s.now) > 0 ==>
          key in s'.keys && s'.keys[key].expiresAt == s.keys[key].expiresAt)
  }

  lemma BatchStep(s: State, s1: State, s2: State, scope: Scope, id: string, v: int, base: nat, k: nat)
    requires s1.now == s.now && Batch(s, s1, scope, id, v, base, k) && base + k < |s1.requests|
    requires Admits(s1, base + k, s2)
    requires forall key :: WillHit(s1.requests[base + k], key) <==> key in BatchKeys(scope, id, v)
    ensures Batch(s, s2, scope, id, v, base, k + 1)
  {
  }

  lemma NextIsReady(s: State, s1: State, scope: Scope, id: string, m: nat, v: int, room: nat, base: nat, k: nat)
    requires s1.now == s.now && Batch(s, s1, scope, id, v, base, k) && base + k < |s.requests|
    requires WaitingFor(s.requests[base + k], scope, id, m, v, room)
    requires LiveCount(s.keys, Key(scope, id, v), s.now) + k < m
    requires scope.User? ==> LiveCount(s.keys, Key(Ip, "", v), s.now) + k < room
    ensures Ready(s1, s1.requests[base + k]) && WaitingFor(s1.requests[base + k], scope, id, m, v, room)
    ensures forall key :: WillHit(s1.requests[base + k], key) <==> key in BatchKeys(scope, id, v)
  {
    assert s1.requests[base + k] == s.requests[base + k];
  }

  /** `k` waiting requests, one after the other at one instant. */
  lemma {:induction false} AdmitAll(s: State, scope: Scope, id: string, m: nat, v: int, room: nat, base: nat, k: nat,
                                    a: int, b: int) returns (steps: seq<Step>)
    requires base + k <= |s.requests| && a <= s.now < b
    requires forall i :: base <= i < base + k ==> WaitingFor(s.requests[i], scope, id, m, v, room)
    requires LiveCount(s.keys, Key(scope, id, v), s.now) + k <= m
    requires scope.User? ==> LiveCount(s.keys, Key(Ip, "", v), s.now) + k <= room
    ensures Gained(s, Run(s, steps), scope, id, m, a, b, k) && Batch(s, Run(s, steps), scope, id, v, base, k)
  {
    if k == 0 {
      steps := [];
    } else {
      var before := AdmitAll(s, scope, id, m, v, room, base, k - 1, a, b);
      var s1, i := Run(s, before), base + k - 1;
      NextIsReady(s, s1, scope, id, m, v, room, base, k - 1);
      AdmitGains(s1, i, scope, id, m, a, b);
      RunConcat(s, before, RestSteps(s1.requests[i], i));
      steps := before + RestSteps(s1.requests[i], i);
      BatchStep(s, s1, Run(s, steps), scope, id, v, base, k - 1);
    }
  }

  /** `k` requests arrive and wait. */
  lemma {:induction false} ArriveAll(s: State, scope: Scope, id: string, m: nat, room: nat, k: nat)
    returns (steps: seq<Step>)
    ensures var s' := Run(s, steps);
      && s'.w == s.w && s'.now == s.now && s'.keys == s.keys
      && |s'.requests| == |s.requests| + k && s'.requests[..|s.requests|] == s.requests
      && (forall i :: |s.requests| <= i < |s'.requests| ==>
            WaitingFor(s'.requests[i], scope, id, m, Window(s.w, s.now), room))
      && forall p: Request -> bool :: (forall r: Request :: r.ipHit.None? && r.userHit.None? ==> !p(r)) ==>
           CountIf(s'.requests, p) == CountIf(s.requests, p)
  {
    if k == 0 {
      steps := [];
    } else {
      var before := ArriveAll(s, scope, id, m, room, k - 1);
      var s1 := Run(s, before);
      var arrive := if scope.Ip? then Arrive(id, None, m, 1) else Arrive("", Some(id), room, m);
      RunStep(s, before, arrive);
      var r := Next(s1, arrive).requests[|s1.requests|];
      forall p: Request -> bool | forall r: Request :: r.ipHit.None? && r.userHit.None? ==> !p(r)
        ensures CountIf(s1.requests + [r], p) == CountIf(s1.requests, p)
      {
        CountAppend(s1.requests, r, p);
      }
      steps := before + [arrive];
    }
  }

  /** `k` requests arrive and are admitted at once, on the counter of the window that is now. */
  lemma Burst(s: State, scope: Scope, id: string, m: nat, k: nat, a: int, b: int) returns (steps: seq<Step>)
    requires a <= s.now < b && LiveCount(s.keys, Key(scope, id, Window(s.w, s.now)), s.now) + k <= m
    ensures var s' := Run(s, steps);
      && Gained(s, s', scope, id, m, a, b, k)
      && |s'.requests| == |s.requests| + k && s'.requests[..|s.requests|] == s.requests
      && (forall key: Key :: key.window != Window(s.w, s.now) ==> SameAt(s.keys, s'.keys, key))
      && (forall key :: LiveCount(s.keys, key, s.now) > 0 ==>
          key in s'.keys && s'.keys[key].expiresAt == s.keys[key].expiresAt)
  {
    var v := Window(s.w, s.now);
    var room := LiveCount(s.keys, Key(Ip, "", v), s.now) + k;
    var arrivals := ArriveAll(s, scope, id, m, room, k);
    var s1 := Run(s, arrivals);
    assert CountIf(s1.requests, AdmittedWithin(scope, id, m, a, b))
        == CountIf(s.requests, AdmittedWithin(scope, id, m, a, b));
    var hits := AdmitAll(s1, scope, id, m, v, room, |s.requests|, k, a, b);
    RunConcat(s, arrivals, hits);
    steps := arrivals + hits;
    forall i | 0 <= i < |s.requests| ensures Run(s, steps).requests[i] == s.requests[i] {
      assert s1.requests[..|s.requests|][i] == s.requests[i];
    }
  }
}
