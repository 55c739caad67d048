/**
 The counter script and the guard that calls it. One call of the guard, whatever else happens between its awaits,
 is tied to the interleaved model by being a run of it.
 */
module RateLimitGuards {
  import opened Prelude
  import opened RateWindows
  import opened RateLimit

  const DEFAULT_WINDOW_SEC: Seconds := 60
  const DEFAULT_USER_MAX: nat := 60
  const DEFAULT_IP_MAX: nat := 120

  class RedisRateLimitStore {
    var now: nat
    var keys: map<Key, Slot>

    ghost predicate Valid()
      reads this
    {
      forall k :: k in keys ==> keys[k].count > 0
    }

    constructor ()
      ensures Valid() && keys == map[] && now == 0
    {
      now, keys := 0, map[];
    }

    method Elapse(ms: nat)
      modifies this`now
      ensures now == old(now) + ms
    {
      now := now + ms;
    }

    /** FIXED_WINDOW_LUA: INCR, and EXPIRE when that returned 1. */
    method Hit(key: Key, windowSec: Seconds) returns (c: nat)
      requires Valid()
      modifies this`keys
      ensures Valid()
      ensures keys == old(keys)[key := HitSlot(old(keys), key, now, windowSec)]
      ensures c == LiveCount(old(keys), key, now) + 1
      ensures var live := key in old(keys) && now < old(keys)[key].expiresAt;
        && c == (if live then old(keys)[key].count + 1 else 1)
        && keys[key] == Slot(c, if live then old(keys)[key].expiresAt else now + 1000 * windowSec)
    {
      c := LiveCount(keys, key, now) + 1;
      keys := keys[key := Slot(c, if key in keys then keys[key].expiresAt else 0)];
      if c == 1 {
        keys := keys[key := keys[key].(expiresAt := now + 1000 * windowSec)];
      }
    }
  }

  datatype Options = Options(userMax: Option<nat>, ipMax: Option<nat>, windowSec: Option<Seconds>)

  /** What the guard reads of a request and its route: `subject` is the verified token's `sub`, if there is one. */
  datatype HttpRequest = HttpRequest(skip: bool, options: Option<Options>, verb: string, ip: Option<string>,
                                     subject: Option<string>)
  {
    predicate Limited() {
      !skip && (options.Some? || verb in {"POST", "PATCH", "PUT", "DELETE"})
    }

    function Ip(): string {
      if ip.Some? then ip.value else "unknown"
    }

    /** An empty `sub` counts as no user. */
    function User(): Option<string> {
      if subject == Some("") then None else subject
    }
  }

  /** The environment's integers as read: unset or malformed is None. */
  datatype Config = Config(windowSec: Option<int>, userMax: Option<int>, ipMax: Option<int>)

  function IntConfig(v: Option<int>, fallback: Seconds): Seconds {
    if v.Some? && v.value > 0 then v.value else fallback
  }

  datatype Verdict = Pass | TooMany(retryAfter: int) | ServerError

  datatype Check = Check(key: Key, max: nat)

  /** The steps one guard takes among the others, here with nothing between them. */
  function GuardSteps(r: Request, pauses: (nat, nat), replies: (bool, bool)): seq<Step> {
    [Arrive(r.ip, r.user, r.ipMax, r.userMax), Elapse(pauses.0), HitKey(0, Ip, replies.0),
     Elapse(pauses.1), HitKey(0, User, replies.1)]
  }

  lemma FiveSteps(s: State, r: Request, pauses: (nat, nat), replies: (bool, bool))
    ensures var steps := GuardSteps(r, pauses, replies);
      Run(s, steps) == Next(Next(Next(Next(Next(s, steps[0]), steps[1]), steps[2]), steps[3]), steps[4])
  {
    var steps := GuardSteps(r, pauses, replies);
    assert steps == [steps[0], steps[1]] + ([steps[2], steps[3]] + [steps[4]]);
    RunConcat(s, [steps[0], steps[1]], [steps[2], steps[3]] + [steps[4]]);
    TwoSteps(s, steps[0], steps[1]);
    var s2 := Run(s, [steps[0], steps[1]]);
    RunConcat(s2, [steps[2], steps[3]], [steps[4]]);
    TwoSteps(s2, steps[2], steps[3]);
    OneStep(Run(s2, [steps[2], steps[3]]), steps[4]);
  }

  /** Where a lone guard stands after its first `k` hits. */
  ghost function Progress(start: State, r: Request, pauses: (nat, nat), replies: (bool, bool), k: nat): State
  {
    if k == 0 then Next(start, Arrive(r.ip, r.user, r.ipMax, r.userMax))
    else if k == 1 then
      Next(Next(Progress(start, r, pauses, replies, 0), Elapse(pauses.0)), HitKey(0, Ip, replies.0))
    else
      Next(Next(Progress(start, r, pauses, replies, 1), Elapse(pauses.1)), HitKey(0, User, replies.1))
  }

  ghost predicate PassedIp(s: State) {
    |s.requests| == 1 && s.requests[0].Passed(Ip)
  }

  /** One hit, as the model sees it. */
  lemma OneHit(start: State, r: Request, pauses: (nat, nat), replies: (bool, bool), k: nat)
    requires k <= 1 && start.requests == [] && r.ipHit.None? && r.userHit.None?
    requires r.readAt == start.now && r.window == Window(start.w, start.now)
    requires k == 1 ==>
      r.user.Some? && PassedIp(Progress(start, r, pauses, replies, 1))
    ensures var s, s' := Progress(start, r, pauses, replies, k), Progress(start, r, pauses, replies, k + 1);
      var scope := if k == 0 then Ip else User;
      var now, key := s.now + (if k == 0 then pauses.0 else pauses.1), KeyOf(r, scope);
      var slot := HitSlot(s.keys, key, now, s.w);
      && s'.w == s.w == start.w && s'.now == now && s'.keys == s.keys[key := slot] && |s'.requests| == 1
      && s'.requests[0] == s.requests[0].WithHit(scope, Hit(now, slot.count, slot.expiresAt,
                                                             if k == 0 then replies.0 else replies.1))
      && s'.requests[0].(ipHit := None, userHit := None) == r
      && (k == 0 ==> s'.requests[0].userHit.None?)
  {
  }

  /** What a guard's verdict `v` says of its run `s`, and the counters it leaves. */
  ghost predicate Answers(v: Verdict, s: State, replies: (bool, bool), keys: map<Key, Slot>, retryAfter: int) {
    && s.keys == keys && |s.requests| == 1
    && (v.Pass? <==> s.requests[0].Admitted())
    && (v.ServerError? <==> (!replies.0 || (s.requests[0].Passed(Ip) && s.requests[0].user.Some? && !replies.1)))
    && (v.TooMany? ==> v.retryAfter == retryAfter)
  }

  /** A guard that stops before its second hit leaves the rest of its steps disabled. */
  lemma Ended(start: State, r: Request, pauses: (nat, nat), replies: (bool, bool), k: nat, v: Verdict,
              retryAfter: int)
    requires 1 <= k <= 2
    requires var s := Progress(start, r, pauses, replies, k);
      && |s.requests| == 1
      && (k == 1 ==> !s.requests[0].Passed(Ip) || s.requests[0].user.None?)
      && Answers(v, s, replies, s.keys, retryAfter)
    ensures Answers(v, Run(start, GuardSteps(r, pauses, replies)), replies,
                    Progress(start, r, pauses, replies, k).keys, retryAfter)
  {
    FiveSteps(start, r, pauses, replies);
    var s0, s1 := Progress(start, r, pauses, replies, 0), Progress(start, r, pauses, replies, 1);
    assert s1 == Next(Next(s0, Elapse(pauses.0)), HitKey(0, Ip, replies.0));
    assert Progress(start, r, pauses, replies, 2) == Next(Next(s1, Elapse(pauses.1)), HitKey(0, User, replies.1));
  }

  /** The guard is about to make its hit number `k`: those before passed. */
  ghost predicate Midway(start: State, r: Request, pauses: (nat, nat), replies: (bool, bool), k: nat,
                         keys: map<Key, Slot>, now: nat) {
    var s := Progress(start, r, pauses, replies, k);
    && k <= 2 && |s.requests| == 1 && s.keys == keys && s.now == now && s.w == start.w
    && s.requests[0].(ipHit := None, userHit := None) == r
    && (k > 0 ==> replies.0 && s.requests[0].Passed(Ip))
    && (k > 1 ==> replies.1 && s.requests[0].Passed(User))
  }

  /** One turn of the guard's loop that goes on. */
  lemma TurnGoesOn(start: State, r: Request, pauses: (nat, nat), replies: (bool, bool), k: nat,
                   keys: map<Key, Slot>, now: nat)
    requires k <= 1 && start.requests == [] && r.ipHit.None? && r.userHit.None?
    requires r.readAt == start.now && r.window == Window(start.w, start.now)
    requires Midway(start, r, pauses, replies, k, keys, now) && (k == 1 ==> r.user.Some?)
    ensures var scope, t := if k == 0 then Ip else User, now + if k == 0 then pauses.0 else pauses.1;
      var slot := HitSlot(keys, KeyOf(r, scope), t, start.w);
      (if k == 0 then replies.0 else replies.1) && slot.count <= r.Max(scope) ==>
        Midway(start, r, pauses, replies, k + 1, keys[KeyOf(r, scope) := slot], t)
  {
    OneHit(start, r, pauses, replies, k);
  }

  /** One that ends it: the reply was lost, or the limit is exceeded. */
  lemma TurnEnds(start: State, r: Request, pauses: (nat, nat), replies: (bool, bool), k: nat,
                 keys: map<Key, Slot>, now: nat, v: Verdict, retryAfter: int)
    requires k <= 1 && start.requests == [] && r.ipHit.None? && r.userHit.None?
    requires r.readAt == start.now && r.window == Window(start.w, start.now)
    requires Midway(start, r, pauses, replies, k, keys, now) && (k == 1 ==> r.user.Some?)
    requires v == if !(if k == 0 then replies.0 else replies.1) then ServerError else TooMany(retryAfter)
    ensures var scope, t := if k == 0 then Ip else User, now + if k == 0 then pauses.0 else pauses.1;
      var slot := HitSlot(keys, KeyOf(r, scope), t, start.w);
      v.ServerError? || slot.count > r.Max(scope) ==>
        Answers(v, Run(start, GuardSteps(r, pauses, replies)), replies, keys[KeyOf(r, scope) := slot], retryAfter)
  {
    LastHit(start, r, pauses, replies, k, keys, now, v, retryAfter);
    var scope, t := if k == 0 then Ip else User, now + if k == 0 then pauses.0 else pauses.1;
    if v.ServerError? || HitSlot(keys, KeyOf(r, scope), t, start.w).count > r.Max(scope) {
      Ended(start, r, pauses, replies, k + 1, v, retryAfter);
    }
  }

  lemma LastHit(start: State, r: Request, pauses: (nat, nat), replies: (bool, bool), k: nat,
                keys: map<Key, Slot>, now: nat, v: Verdict, retryAfter: int)
    requires k <= 1 && start.requests == [] && r.ipHit.None? && r.userHit.None?
    requires r.readAt == start.now && r.window == Window(start.w, start.now)
    requires Midway(start, r, pauses, replies, k, keys, now) && (k == 1 ==> r.user.Some?)
    requires v == if !(if k == 0 then replies.0 else replies.1) then ServerError else TooMany(retryAfter)
    ensures var scope, t := if k == 0 then Ip else User, now + if k == 0 then pauses.0 else pauses.1;
      var slot := HitSlot(keys, KeyOf(r, scope), t, start.w);
      var s' := Progress(start, r, pauses, replies, k + 1);
      && |s'.requests| == 1 && s'.keys == keys[KeyOf(r, scope) := slot]
      && (v.ServerError? || slot.count > r.Max(scope) ==>
            Answers(v, s', replies, s'.keys, retryAfter) && (k == 0 ==> !s'.requests[0].Passed(Ip)))
  {
    OneHit(start, r, pauses, replies, k);
  }

  /** Whom a guard with nothing beside it admits: the counters it finds decide, unless a reply is lost. */
  lemma LoneGuardAdmits(start: State, r: Request, pauses: (nat, nat), replies: (bool, bool))
    requires start.requests == [] && r.ipHit.None? && r.userHit.None?
    requires r.readAt == start.now && r.window == Window(start.w, start.now)
    ensures var s, t := Run(start, GuardSteps(r, pauses, replies)), start.now + pauses.0;
      |s.requests| == 1 &&
      var ipPasses := replies.0 && LiveCount(start.keys, Key(Ip, r.ip, r.window), t) < r.ipMax;
      && (s.requests[0].Passed(Ip) <==> ipPasses)
      && (s.requests[0].user.Some? <==> r.user.Some?)
      && (s.requests[0].Admitted() <==>
            ipPasses && (r.user.Some? ==>
              replies.1 && LiveCount(start.keys, Key(User, r.user.value, r.window), t + pauses.1) < r.userMax))
  {
    FiveSteps(start, r, pauses, replies);
    OneHit(start, r, pauses, replies, 0);
    var s1 := Progress(start, r, pauses, replies, 1);
    assert Run(start, GuardSteps(r, pauses, replies)) == Next(Next(s1, Elapse(pauses.1)), HitKey(0, User, replies.1));
    if r.user.Some? && PassedIp(s1) {
      OneHit(start, r, pauses, replies, 1);
    }
  }

  class RateLimitGuard {
    const store: RedisRateLimitStore
    const config: Config

    constructor (store: RedisRateLimitStore, config: Config)
      ensures this.store == store && this.config == config
    {
      this.store, this.config := store, config;
    }

    function WindowSec(req: HttpRequest): Seconds {
      if req.options.Some? && req.options.value.windowSec.Some? then req.options.value.windowSec.value
      else IntConfig(config.windowSec, DEFAULT_WINDOW_SEC)
    }

    /** The request as it looks once the guard has read the limits and the clock. */
    function Incoming(req: HttpRequest, now: nat): Request {
      var o := req.options;
      Request(req.Ip(), req.User(),
        if o.Some? && o.value.ipMax.Some? then o.value.ipMax.value else IntConfig(config.ipMax, DEFAULT_IP_MAX),
        if o.Some? && o.value.userMax.Some? then o.value.userMax.value else IntConfig(config.userMax, DEFAULT_USER_MAX),
        now, Window(WindowSec(req), now), None, None)
    }

    /**
     A request passes exactly when it is not limited, or the interleaved model admits it; the counters end as
     they do there. `pauses` is the time before each hit, `replies` says whether its reply comes back, and `lag`
     is the time until the clock is read again for Retry-After. In the request's own terms: it is limited unless its
     route says not, or says nothing and it only reads; and a limited one passes if and only if the IP's counter is
     under the route's limit, else the configured one, else 120, and a known user's under theirs, else 60.
     */
    method CanActivate(req: HttpRequest, pauses: (nat, nat), replies: (bool, bool), lag: nat) returns (v: Verdict)
      requires store.Valid()
      modifies store
      ensures store.Valid() && old(store.now) <= store.now
      ensures !req.Limited() ==> v == Pass && store.keys == old(store.keys)
      ensures req.Limited() ==>
        var w, r := WindowSec(req), Incoming(req, old(store.now));
        var s := Run(State(w, old(store.now), old(store.keys), []), GuardSteps(r, pauses, replies));
        Answers(v, s, replies, store.keys, RetryAfter(w, store.now + lag))
      ensures var o, keys := req.options, old(store.keys);
        var w := if o.Some? && o.value.windowSec.Some? then o.value.windowSec.value
                 else if config.windowSec.Some? && config.windowSec.value > 0 then config.windowSec.value else 60;
        var ipMax := if o.Some? && o.value.ipMax.Some? then o.value.ipMax.value
                     else if config.ipMax.Some? && config.ipMax.value > 0 then config.ipMax.value else 120;
        var userMax := if o.Some? && o.value.userMax.Some? then o.value.userMax.value
                       else if config.userMax.Some? && config.userMax.value > 0 then config.userMax.value else 60;
        var ip, known := if req.ip.Some? then req.ip.value else "unknown", req.subject.Some? && req.subject.value != "";
        var n, t := old(store.now) / 1000 / w, old(store.now) + pauses.0;
        if req.skip || (o.None? && req.verb !in {"POST", "PATCH", "PUT", "DELETE"}) then
          v == Pass && store.keys == keys
        else
          var ipPasses := replies.0 && LiveCount(keys, Key(Ip, ip, n), t) < ipMax;
          && (v.Pass? <==>
                ipPasses && (known ==>
                  replies.1 && LiveCount(keys, Key(User, req.subject.value, n), t + pauses.1) < userMax))
          && (v.ServerError? <==> !replies.0 || (ipPasses && known && !replies.1))
          && (v.TooMany? ==> v.retryAfter == w - (store.now + lag) / 1000 % w)
    {
      if !req.Limited() {
        return Pass;
      }
      ghost var w, r := WindowSec(req), Incoming(req, store.now);
      NestedFloors(w, store.now);
      LoneGuardAdmits(State(w, store.now, store.keys, []), r, pauses, replies);
      v := CountHits(WindowSec(req), Incoming(req, store.now), pauses, replies, lag);
    }

    /** The guard's loop over its checks, the IP's and, for a known user, the user's. */
    method CountHits(w: Seconds, r: Request, pauses: (nat, nat), replies: (bool, bool), lag: nat) returns (v: Verdict)
      requires store.Valid() && r.ipHit.None? && r.userHit.None?
      requires r.readAt == store.now && r.window == Window(w, store.now)
      modifies store
      ensures store.Valid() && old(store.now) <= store.now
      ensures var s := Run(State(w, old(store.now), old(store.keys), []), GuardSteps(r, pauses, replies));
        Answers(v, s, replies, store.keys, RetryAfter(w, store.now + lag))
    {
      var checks := [Check(KeyOf(r, Ip), r.ipMax)];
      if r.user.Some? {
        checks := checks + [Check(KeyOf(r, User), r.userMax)];
      }
      ghost var start := State(w, store.now, store.keys, []);
      for k := 0 to |checks|
        invariant store.Valid() && old(store.now) <= store.now
        invariant Midway(start, r, pauses, replies, k, store.keys, store.now)
      {
        ghost var keys, now := store.keys, store.now;
        store.Elapse(if k == 0 then pauses.0 else pauses.1);
        var replied := if k == 0 then replies.0 else replies.1;
        var refusal := if !replied then ServerError else TooMany(RetryAfter(w, store.now + lag));
        TurnGoesOn(start, r, pauses, replies, k, keys, now);
        TurnEnds(start, r, pauses, replies, k, keys, now, refusal, RetryAfter(w, store.now + lag));
        var count := store.Hit(checks[k].key, w);
        if !replied || count > checks[k].max {
          return refusal;
        }
      }
      Ended(start, r, pauses, replies, |checks|, Pass, RetryAfter(w, store.now + lag));
      return Pass;
    }
  }
}
