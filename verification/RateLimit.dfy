/**
 The fixed-window rate limiter under every interleaving of any number of guards. Time is in milliseconds. A request
 reads the clock once to name its window, and hits its counters later, the one of its IP first and, if that passes,
 the one of its user.
 */
module RateLimit {
  import opened Prelude
  import opened RateWindows

  datatype Scope = Ip | User
  datatype Key = Key(scope: Scope, id: string, window: int)
  datatype Slot = Slot(count: nat, expiresAt: nat)

  function LiveCount(keys: map<Key, Slot>, key: Key, now: nat): nat {
    if key in keys && now < keys[key].expiresAt then keys[key].count else 0
  }

  /** The counter after one hit: a new lifetime begins only when none is running. */
  function HitSlot(keys: map<Key, Slot>, key: Key, now: nat, w: Seconds): Slot {
    if LiveCount(keys, key, now) > 0 then keys[key].(count := keys[key].count + 1) else Slot(1, now + 1000 * w)
  }

  // ---------------------------------------------------------------- many guards at once

  /** A counter hit: when, what it returned, when the counter's lifetime ends, and whether the reply came back. */
  datatype Hit = Hit(at: nat, count: nat, expires: nat, replied: bool)

  datatype Request = Request(ip: string, user: Option<string>, ipMax: nat, userMax: nat, readAt: nat, window: int,
                             ipHit: Option<Hit>, userHit: Option<Hit>)
  {
    function Id(scope: Scope): Option<string> {
      if scope.Ip? then Some(ip) else user
    }

    function Max(scope: Scope): nat {
      if scope.Ip? then ipMax else userMax
    }

    function HitOn(scope: Scope): Option<Hit> {
      if scope.Ip? then ipHit else userHit
    }

    predicate Passed(scope: Scope) {
      HitOn(scope).Some? && HitOn(scope).value.replied && HitOn(scope).value.count <= Max(scope)
    }

    predicate Admitted() {
      Passed(Ip) && (user.Some? ==> Passed(User))
    }

    function WithHit(scope: Scope, hit: Hit): Request {
      if scope.Ip? then this.(ipHit := Some(hit)) else this.(userHit := Some(hit))
    }
  }

  /** All routes use one window length `w`; their limits differ. */
  datatype State = State(w: Seconds, now: nat, keys: map<Key, Slot>, requests: seq<Request>)

  datatype Step =
    | Elapse(ms: nat)
    | Arrive(ip: string, user: Option<string>, ipMax: nat, userMax: nat)
    | HitKey(i: nat, scope: Scope, replied: bool)

  function Empty(w: Seconds): State { State(w, 0, map[], []) }

  predicate Enabled(s: State, step: Step) {
    match step
    case Elapse(_) => true
    case Arrive(_, _, _, _) => true
    case HitKey(i, scope, _) =>
      && i < |s.requests|
      && s.requests[i].Id(scope).Some?
      && s.requests[i].HitOn(scope).None?
      && (scope.User? ==> s.requests[i].Passed(Ip))
  }

  /** The key a request names for a scope when it reads the clock. */
  function KeyOf(r: Request, scope: Scope): Key
    requires r.Id(scope).Some?
  {
    Key(scope, r.Id(scope).value, r.window)
  }

  function HitBy(s: State, i: nat, scope: Scope, replied: bool): Hit
    requires Enabled(s, HitKey(i, scope, replied))
  {
    var slot := HitSlot(s.keys, KeyOf(s.requests[i], scope), s.now, s.w);
    Hit(s.now, slot.count, slot.expiresAt, replied)
  }

  function Apply(s: State, step: Step): State
    requires Enabled(s, step)
  {
    match step
    case Elapse(ms) => s.(now := s.now + ms)
    case Arrive(ip, user, ipMax, userMax) =>
      s.(requests := s.requests + [Request(ip, user, ipMax, userMax, s.now, Window(s.w, s.now), None, None)])
    case HitKey(i, scope, replied) =>
      var key := KeyOf(s.requests[i], scope);
      s.(keys := s.keys[key := HitSlot(s.keys, key, s.now, s.w)],
         requests := s.requests[i := s.requests[i].WithHit(scope, HitBy(s, i, scope, replied))])
  }

  function Next(s: State, step: Step): State {
    if Enabled(s, step) then Apply(s, step) else s
  }

  function Run(s: State, steps: seq<Step>): State
    decreases |steps|
  {
    if steps == [] then s else Run(Next(s, steps[0]), steps[1..])
  }

  // ---------------------------------------------------------------- invariant

  predicate OnKey(key: Key, r: Request) {
    r.HitOn(key.scope).Some? && r.Id(key.scope) == Some(key.id) && r.window == key.window
  }

  /** Hits on a key during the lifetime that ends at `expires`. */
  ghost function HitIn(key: Key, expires: nat): Request -> bool {
    (r: Request) => OnKey(key, r) && r.HitOn(key.scope).value.expires == expires
  }

  /** Those that passed a limit of at most `m`. */
  ghost function PassIn(key: Key, m: nat, expires: nat): Request -> bool {
    (r: Request) => OnKey(key, r) && r.HitOn(key.scope).value.expires == expires
                    && r.Passed(key.scope) && r.Max(key.scope) <= m
  }

  /** Hits on a key, made in the window the key names, that passed a limit of at most `m`. */
  ghost function PassHere(w: Seconds, key: Key, m: nat): Request -> bool {
    (r: Request) => OnKey(key, r) && r.Passed(key.scope) && r.Max(key.scope) <= m
                    && InWindow(w, key.window, r.HitOn(key.scope).value.at)
  }

  /** A counter outlives its window, and holds the number of hits of its current lifetime. */
  ghost predicate SlotOk(s: State, key: Key)
    requires key in s.keys
  {
    var slot := s.keys[key];
    && Start(s.w, key.window) + 1000 * s.w <= slot.expiresAt <= s.now + 1000 * s.w
    && slot.count == CountIf(s.requests, HitIn(key, slot.expiresAt))
    && slot.count > 0
  }

  ghost predicate HitOk(s: State, r: Request, scope: Scope) {
    r.HitOn(scope).Some? ==>
      var hit := r.HitOn(scope).value;
      && r.Id(scope).Some?
      && r.readAt <= hit.at <= s.now
      && hit.at < hit.expires <= hit.at + 1000 * s.w
      && Start(s.w, r.window) + 1000 * s.w <= hit.expires
      && KeyOf(r, scope) in s.keys
      && var last := s.keys[KeyOf(r, scope)].expiresAt;
      && hit.expires <= last && (hit.expires < last ==> hit.expires <= s.now)
  }

  ghost predicate RequestOk(s: State, r: Request) {
    InWindow(s.w, r.window, r.readAt) && r.readAt <= s.now && HitOk(s, r, Ip) && HitOk(s, r, User)
  }

  ghost predicate Bounded(s: State, key: Key, m: nat) {
    && CountIf(s.requests, PassHere(s.w, key, m)) <= m
    && forall e :: CountIf(s.requests, PassIn(key, m, e)) <= m
  }

  ghost predicate Inv(s: State) {
    && (forall key :: key in s.keys ==> SlotOk(s, key))
    && (forall i :: 0 <= i < |s.requests| ==> RequestOk(s, s.requests[i]))
    && (forall key, m :: Bounded(s, key, m))
  }

  // ---------------------------------------------------------------- preservation

  lemma ElapseKept(s: State, ms: nat)
    requires Inv(s)
    ensures Inv(s.(now := s.now + ms))
  {
    var s' := s.(now := s.now + ms);
    forall key | key in s'.keys ensures SlotOk(s', key) { assert SlotOk(s, key); }
    forall i | 0 <= i < |s'.requests| ensures RequestOk(s', s'.requests[i]) { assert RequestOk(s, s.requests[i]); }
    forall key, m ensures Bounded(s', key, m) { assert Bounded(s, key, m); }
  }

  lemma ArriveKept(s: State, r: Request)
    requires Inv(s) && r.readAt == s.now && r.window == Window(s.w, s.now) && r.ipHit.None? && r.userHit.None?
    ensures Inv(s.(requests := s.requests + [r]))
  {
    var s' := s.(requests := s.requests + [r]);
    NestedFloors(s.w, s.now);
    forall key | key in s'.keys ensures SlotOk(s', key) {
      assert SlotOk(s, key);
      CountAppend(s.requests, r, HitIn(key, s.keys[key].expiresAt));
    }
    forall i | 0 <= i < |s'.requests| ensures RequestOk(s', s'.requests[i]) {
      if i < |s.requests| { assert RequestOk(s, s.requests[i]); }
    }
    forall key, m ensures Bounded(s', key, m) {
      ArriveBounded(s, r, key, m);
    }
  }

  lemma ArriveBounded(s: State, r: Request, key: Key, m: nat)
    requires Bounded(s, key, m) && r.ipHit.None? && r.userHit.None?
    ensures Bounded(s.(requests := s.requests + [r]), key, m)
  {
    CountAppend(s.requests, r, PassHere(s.w, key, m));
    forall e: nat ensures CountIf(s.requests + [r], PassIn(key, m, e)) <= m {
      CountAppend(s.requests, r, PassIn(key, m, e));
      assert !PassIn(key, m, e)(r);
    }
  }

  /** Only the key that was hit has new hits, and only in its current lifetime. */
  lemma HitCounts(s: State, i: nat, scope: Scope, replied: bool, key: Key, e: nat)
    requires Enabled(s, HitKey(i, scope, replied))
    ensures var s', mine := Apply(s, HitKey(i, scope, replied)), key == KeyOf(s.requests[i], scope);
      var hit := HitBy(s, i, scope, replied);
      && CountIf(s'.requests, HitIn(key, e))
           == CountIf(s.requests, HitIn(key, e)) + (if mine && hit.expires == e then 1 else 0)
  {
    CountUpdate(s.requests, i, s.requests[i].WithHit(scope, HitBy(s, i, scope, replied)), HitIn(key, e));
  }

  lemma PassCounts(s: State, i: nat, scope: Scope, replied: bool, key: Key, m: nat, e: nat)
    requires Enabled(s, HitKey(i, scope, replied))
    ensures var s', mine := Apply(s, HitKey(i, scope, replied)), key == KeyOf(s.requests[i], scope);
      var hit := HitBy(s, i, scope, replied);
      var good := replied && hit.count <= s.requests[i].Max(scope) <= m;
      && CountIf(s'.requests, PassIn(key, m, e))
           == CountIf(s.requests, PassIn(key, m, e)) + (if mine && good && hit.expires == e then 1 else 0)
      && CountIf(s'.requests, PassHere(s.w, key, m))
           == CountIf(s.requests, PassHere(s.w, key, m))
              + (if mine && good && InWindow(s.w, key.window, s.now) then 1 else 0)
  {
    var r' := s.requests[i].WithHit(scope, HitBy(s, i, scope, replied));
    CountUpdate(s.requests, i, r', PassIn(key, m, e));
    CountUpdate(s.requests, i, r', PassHere(s.w, key, m));
  }

  /** A lifetime that is about to begin has had no hits. */
  lemma NewLifetimeIsEmpty(s: State, key: Key)
    requires Inv(s) && LiveCount(s.keys, key, s.now) == 0
    ensures CountIf(s.requests, HitIn(key, s.now + 1000 * s.w)) == 0
  {
    CountZero(s.requests, HitIn(key, s.now + 1000 * s.w));
    forall j | 0 <= j < |s.requests| ensures !HitIn(key, s.now + 1000 * s.w)(s.requests[j]) {
      assert RequestOk(s, s.requests[j]);
      if key in s.keys { assert SlotOk(s, key); }
    }
  }

  /** The key that was hit is sound again. */
  lemma HitSlotOk(s: State, i: nat, scope: Scope, replied: bool)
    requires Inv(s) && Enabled(s, HitKey(i, scope, replied))
    ensures SlotOk(Apply(s, HitKey(i, scope, replied)), KeyOf(s.requests[i], scope))
  {
    var key := KeyOf(s.requests[i], scope);
    assert RequestOk(s, s.requests[i]);
    HitCounts(s, i, scope, replied, key, HitBy(s, i, scope, replied).expires);
    if LiveCount(s.keys, key, s.now) > 0 {
      assert SlotOk(s, key);
    } else {
      NewLifetimeIsEmpty(s, key);
      if key in s.keys { assert SlotOk(s, key); }
    }
  }

  lemma SlotsKept(s: State, i: nat, scope: Scope, replied: bool, key: Key)
    requires Inv(s) && Enabled(s, HitKey(i, scope, replied)) && key in Apply(s, HitKey(i, scope, replied)).keys
    ensures SlotOk(Apply(s, HitKey(i, scope, replied)), key)
  {
    if key == KeyOf(s.requests[i], scope) {
      HitSlotOk(s, i, scope, replied);
    } else {
      assert SlotOk(s, key);
      HitCounts(s, i, scope, replied, key, s.keys[key].expiresAt);
    }
  }

  /** A hit never shortens a counter's life, and prolongs it only once it is over. */
  lemma LifetimesGrow(s: State, key: Key)
    requires Inv(s) && key in s.keys
    ensures var e, e' := s.keys[key].expiresAt, HitSlot(s.keys, key, s.now, s.w).expiresAt;
      e <= e' && (e < e' ==> e <= s.now)
  {
    assert SlotOk(s, key);
  }

  lemma RequestsKept(s: State, i: nat, scope: Scope, replied: bool, j: nat)
    requires Inv(s) && Enabled(s, HitKey(i, scope, replied)) && j < |s.requests|
    ensures RequestOk(Apply(s, HitKey(i, scope, replied)), Apply(s, HitKey(i, scope, replied)).requests[j])
  {
    var s' := Apply(s, HitKey(i, scope, replied));
    var r, r', key := s.requests[j], s'.requests[j], KeyOf(s.requests[i], scope);
    assert RequestOk(s, r) && RequestOk(s, s.requests[i]);
    HitSlotOk(s, i, scope, replied);
    OldHitKept(s, i, scope, replied, r, Ip);
    OldHitKept(s, i, scope, replied, r, User);
    if j == i { NewHitOk(s, i, scope, replied); }
  }

  lemma NewHitOk(s: State, i: nat, scope: Scope, replied: bool)
    requires Inv(s) && Enabled(s, HitKey(i, scope, replied))
    ensures HitOk(Apply(s, HitKey(i, scope, replied)), Apply(s, HitKey(i, scope, replied)).requests[i], scope)
  {
    assert RequestOk(s, s.requests[i]);
    HitSlotOk(s, i, scope, replied);
    if KeyOf(s.requests[i], scope) in s.keys {
      assert SlotOk(s, KeyOf(s.requests[i], scope));
    }
  }

  lemma OldHitKept(s: State, i: nat, scope: Scope, replied: bool, r: Request, sc: Scope)
    requires Inv(s) && Enabled(s, HitKey(i, scope, replied)) && HitOk(s, r, sc)
    ensures HitOk(Apply(s, HitKey(i, scope, replied)), r, sc)
  {
    var key := KeyOf(s.requests[i], scope);
    if key in s.keys {
      LifetimesGrow(s, key);
    }
  }

  lemma BoundKept(s: State, i: nat, scope: Scope, replied: bool, key: Key, m: nat)
    requires Inv(s) && Enabled(s, HitKey(i, scope, replied))
    requires var s' := Apply(s, HitKey(i, scope, replied));
      && (forall k :: k in s'.keys ==> SlotOk(s', k))
      && (forall j :: 0 <= j < |s'.requests| ==> RequestOk(s', s'.requests[j]))
    ensures Bounded(Apply(s, HitKey(i, scope, replied)), key, m)
  {
    var s' := Apply(s, HitKey(i, scope, replied));
    var hit := HitBy(s, i, scope, replied);
    assert Bounded(s, key, m);
    forall e ensures CountIf(s'.requests, PassIn(key, m, e)) <= m {
      PassCounts(s, i, scope, replied, key, m, e);
      if key in s'.keys && e == hit.expires {
        CountLe(s'.requests, PassIn(key, m, e), HitIn(key, e));
        assert SlotOk(s', key);
      }
    }
    PassCounts(s, i, scope, replied, key, m, 0);
    if key == KeyOf(s.requests[i], scope) && InWindow(s.w, key.window, s.now) {
      PassHereIsOneLifetime(s', key, m);
      assert SlotOk(s', key);
    }
  }

  /** While a window lasts, all the hits on its key belong to one lifetime of its counter. */
  lemma PassHereIsOneLifetime(s: State, key: Key, m: nat)
    requires (forall j :: 0 <= j < |s.requests| ==> RequestOk(s, s.requests[j]))
    requires key in s.keys && InWindow(s.w, key.window, s.now)
    ensures CountIf(s.requests, PassHere(s.w, key, m)) <= CountIf(s.requests, HitIn(key, s.keys[key].expiresAt))
  {
    forall j | 0 <= j < |s.requests| && PassHere(s.w, key, m)(s.requests[j])
      ensures HitIn(key, s.keys[key].expiresAt)(s.requests[j])
    {
      assert RequestOk(s, s.requests[j]);
    }
    CountLe(s.requests, PassHere(s.w, key, m), HitIn(key, s.keys[key].expiresAt));
  }

  lemma HitKept(s: State, i: nat, scope: Scope, replied: bool)
    requires Inv(s) && Enabled(s, HitKey(i, scope, replied))
    ensures Inv(Apply(s, HitKey(i, scope, replied)))
  {
    var s' := Apply(s, HitKey(i, scope, replied));
    forall key | key in s'.keys ensures SlotOk(s', key) {
      SlotsKept(s, i, scope, replied, key);
    }
    forall j | 0 <= j < |s'.requests| ensures RequestOk(s', s'.requests[j]) {
      RequestsKept(s, i, scope, replied, j);
    }
    forall key, m ensures Bounded(s', key, m) {
      BoundKept(s, i, scope, replied, key, m);
    }
  }

  lemma NextInv(s: State, step: Step)
    requires Inv(s)
    ensures Inv(Next(s, step))
  {
    if Enabled(s, step) {
      match step
      case Elapse(ms) => ElapseKept(s, ms);
      case Arrive(ip, user, ipMax, userMax) =>
        ArriveKept(s, Request(ip, user, ipMax, userMax, s.now, Window(s.w, s.now), None, None));
      case HitKey(i, scope, replied) => HitKept(s, i, scope, replied);
    }
  }

  lemma EmptyInv(w: Seconds)
    ensures Inv(Empty(w))
  {
  }

  lemma {:induction false} RunInv(s: State, steps: seq<Step>)
    requires Inv(s)
    ensures Inv(Run(s, steps)) && Run(s, steps).w == s.w
    decreases |steps|
  {
    if steps != [] {
      NextInv(s, steps[0]);
      RunInv(Next(s, steps[0]), steps[1..]);
    }
  }

  // ---------------------------------------------------------------- theorems over every run

  /** Admitted requests of an IP or user whose limit is at most `m`, that hit their counter in the window they read. */
  ghost function AdmittedBy(w: Seconds, scope: Scope, id: string, m: nat, from: int, until: int): Request -> bool {
    (r: Request) => r.Admitted() && r.Id(scope) == Some(id) && r.Max(scope) <= m
                    && var at := r.HitOn(scope).value.at;
                       InWindow(w, r.window, at) && from <= at < until
  }

  /** At most `m` of them in any one aligned window, whatever other limits share the counter. */
  lemma AlignedWindowBound(w: Seconds, steps: seq<Step>, scope: Scope, id: string, m: nat, n: int)
    ensures CountIf(Run(Empty(w), steps).requests,
                    AdmittedBy(w, scope, id, m, Start(w, n), Start(w, n) + 1000 * w)) <= m
  {
    EmptyInv(w);
    RunInv(Empty(w), steps);
    var s, key := Run(Empty(w), steps), Key(scope, id, n);
    assert Bounded(s, key, m);
    forall i | 0 <= i < |s.requests| && AdmittedBy(w, scope, id, m, Start(w, n), Start(w, n) + 1000 * w)(s.requests[i])
      ensures PassHere(w, key, m)(s.requests[i])
    {
      OneWindow(w, s.requests[i].HitOn(scope).value.at, n, s.requests[i].window);
    }
    CountLe(s.requests, AdmittedBy(w, scope, id, m, Start(w, n), Start(w, n) + 1000 * w), PassHere(w, key, m));
  }

  /** At most `2 * m` of them in any interval of the window's length. */
  lemma SlidingIntervalBound(w: Seconds, steps: seq<Step>, scope: Scope, id: string, m: nat, t: nat)
    ensures CountIf(Run(Empty(w), steps).requests, AdmittedBy(w, scope, id, m, t, t + 1000 * w)) <= 2 * m
  {
    var s, n := Run(Empty(w), steps), Window(w, t);
    var a, b := Start(w, n), Start(w, n + 1);
    NestedFloors(w, t);
    StartIs(w, n);
    AlignedWindowBound(w, steps, scope, id, m, n);
    AlignedWindowBound(w, steps, scope, id, m, n + 1);
    CountSplit(s.requests, AdmittedBy(w, scope, id, m, t, t + 1000 * w),
               AdmittedBy(w, scope, id, m, a, b), AdmittedBy(w, scope, id, m, b, b + 1000 * w));
  }

  /** With no assumption on how late requests hit: at most `m` passes during one lifetime of a counter. */
  lemma LifetimeBound(w: Seconds, steps: seq<Step>, key: Key, m: nat, expires: nat)
    ensures CountIf(Run(Empty(w), steps).requests, PassIn(key, m, expires)) <= m
  {
    EmptyInv(w);
    RunInv(Empty(w), steps);
    assert Bounded(Run(Empty(w), steps), key, m);
  }

  ghost function HitEver(key: Key): Request -> bool { (r: Request) => OnKey(key, r) }

  /** A counter never expires before the window it is named for is over; until then it holds the number of hits on it. */
  lemma KeyOutlivesItsWindow(w: Seconds, steps: seq<Step>, key: Key)
    requires key in Run(Empty(w), steps).keys
    ensures var s := Run(Empty(w), steps);
      && Start(w, key.window) + 1000 * w <= s.keys[key].expiresAt
      && (s.now < Start(w, key.window) + 1000 * w ==>
            LiveCount(s.keys, key, s.now) == CountIf(s.requests, HitEver(key)) > 0)
  {
    EmptyInv(w);
    RunInv(Empty(w), steps);
    var s := Run(Empty(w), steps);
    assert SlotOk(s, key);
    if s.now < Start(w, key.window) + 1000 * w {
      AllInOneLifetime(s, key);
    }
  }

  lemma AllInOneLifetime(s: State, key: Key)
    requires Inv(s) && key in s.keys && s.now < Start(s.w, key.window) + 1000 * s.w
    ensures CountIf(s.requests, HitEver(key)) == CountIf(s.requests, HitIn(key, s.keys[key].expiresAt))
  {
    var p, q := HitEver(key), HitIn(key, s.keys[key].expiresAt);
    forall i | 0 <= i < |s.requests| ensures p(s.requests[i]) <==> q(s.requests[i]) {
      assert RequestOk(s, s.requests[i]);
    }
    CountLe(s.requests, p, q);
    CountLe(s.requests, q, p);
  }

  /** A check passes exactly when fewer than its limit have hit the key in the lifetime it meets. */
  lemma PassesIffRoom(w: Seconds, steps: seq<Step>, i: nat, scope: Scope)
    requires Enabled(Run(Empty(w), steps), HitKey(i, scope, true))
    ensures var s := Run(Empty(w), steps);
      var r, key := s.requests[i], KeyOf(s.requests[i], scope);
      var earlier := CountIf(s.requests, HitIn(key, HitSlot(s.keys, key, s.now, w).expiresAt));
      Next(s, HitKey(i, scope, true)).requests[i].Passed(scope) <==> earlier < r.Max(scope)
  {
    EmptyInv(w);
    RunInv(Empty(w), steps);
    var s := Run(Empty(w), steps);
    var key := KeyOf(s.requests[i], scope);
    if LiveCount(s.keys, key, s.now) > 0 {
      assert SlotOk(s, key);
    } else {
      NewLifetimeIsEmpty(s, key);
      if key in s.keys { assert SlotOk(s, key); }
    }
  }

  // ---------------------------------------------------------------- requests that hit late

  const LateIp := "203.0.113.7"

  /** `n` requests of one IP with limit 1, each in a window of its own, none of which has hit its counter yet. */
  function Slow(w: Seconds, n: nat): (steps: seq<Step>)
  {
    if n == 0 then [] else Slow(w, n - 1) + [Arrive(LateIp, None, 1, 1), Elapse(1000 * w)]
  }

  /** The first `n` of them hit. */
  function AllAtOnce(n: nat): (steps: seq<Step>)
  {
    if n == 0 then [] else AllAtOnce(n - 1) + [HitKey(n - 1, Ip, true)]
  }

  lemma {:induction false} RunConcat(s: State, a: seq<Step>, b: seq<Step>)
    ensures Run(s, a + b) == Run(Run(s, a), b)
    decreases |a|
  {
    if a == [] {
      assert a + b == b;
    } else {
      assert (a + b)[1..] == a[1..] + b;
      RunConcat(Next(s, a[0]), a[1..], b);
    }
  }

  lemma OneStep(s: State, a: Step)
    ensures Run(s, [a]) == Next(s, a)
  {
    assert [a][1..] == [];
    assert Run(s, [a]) == Run(Next(s, a), []);
  }

  lemma TwoSteps(s: State, a: Step, b: Step)
    ensures Run(s, [a, b]) == Next(Next(s, a), b)
  {
    assert [a, b][1..] == [b];
    OneStep(Next(s, a), b);
  }

  ghost predicate Waiting(r: Request, window: int) {
    r.ip == LateIp && r.user.None? && r.ipMax == 1 && r.window == window && r.ipHit.None?
  }

  lemma {:induction false} SlowRun(w: Seconds, n: nat)
    ensures var s := Run(Empty(w), Slow(w, n));
      && s.w == w && s.now == Start(w, n) && s.keys == map[] && |s.requests| == n
      && forall i :: 0 <= i < n ==> Waiting(s.requests[i], i)
  {
    if n > 0 {
      SlowRun(w, n - 1);
      var s := Run(Empty(w), Slow(w, n - 1));
      RunConcat(Empty(w), Slow(w, n - 1), [Arrive(LateIp, None, 1, 1), Elapse(1000 * w)]);
      TwoSteps(s, Arrive(LateIp, None, 1, 1), Elapse(1000 * w));
      StartIs(w, n - 1);
      WindowIs(w, s.now, n - 1);
    }
  }

  ghost function AdmittedAt(t: nat): Request -> bool {
    (r: Request) => r.Admitted() && r.ip == LateIp && r.ipMax == 1 && r.ipHit.value.at == t
  }

  lemma {:induction false} AllAtOnceRun(s: State, n: nat)
    requires s.keys == map[] && n <= |s.requests|
    requires forall i :: 0 <= i < |s.requests| ==> Waiting(s.requests[i], i)
    ensures var s' := Run(s, AllAtOnce(n));
      && s'.w == s.w && s'.now == s.now && |s'.requests| == |s.requests|
      && (forall key :: key in s'.keys ==> key.window < n)
      && (forall i :: n <= i < |s.requests| ==> Waiting(s'.requests[i], i))
      && (forall i :: 0 <= i < n ==> AdmittedAt(s.now)(s'.requests[i]))
  {
    if n > 0 {
      AllAtOnceRun(s, n - 1);
      var s1 := Run(s, AllAtOnce(n - 1));
      RunConcat(s, AllAtOnce(n - 1), [HitKey(n - 1, Ip, true)]);
      OneStep(s1, HitKey(n - 1, Ip, true));
      assert Waiting(s1.requests[n - 1], n - 1);
    }
  }

  lemma {:induction false} CountAll<T>(s: seq<T>, p: T -> bool)
    requires forall i :: 0 <= i < |s| ==> p(s[i])
    ensures CountIf(s, p) == |s|
  {
    if s != [] { CountAll(s[..|s| - 1], p); }
  }

  /**
   The two bounds above speak of requests that hit in the window they read, and this is why: with a limit of 1,
   any number of requests that each read an earlier window of its own can be admitted in the same millisecond.
   */
  lemma LateRequestsEscapeTheLimit(w: Seconds, n: nat)
    ensures var s := Run(Empty(w), Slow(w, n) + AllAtOnce(n));
      CountIf(s.requests, AdmittedAt(s.now)) == n
  {
    SlowRun(w, n);
    RunConcat(Empty(w), Slow(w, n), AllAtOnce(n));
    AllAtOnceRun(Run(Empty(w), Slow(w, n)), n);
    var s := Run(Empty(w), Slow(w, n) + AllAtOnce(n));
    CountAll(s.requests, AdmittedAt(s.now));
  }
}
