/** The limiter's window arithmetic. Clock readings are in milliseconds, window lengths in whole seconds. */
module RateWindows {
  type Seconds = x: int | 0 < x witness 1

  /** The guard's window number: a floor of two real divisions. */
  function Window(w: Seconds, now: nat): int {
    (now as real / 1000.0 / w as real).Floor
  }

  function RetryAfter(w: Seconds, now: nat): int {
    w - (now / 1000) % w
  }

  /** `n` is the quotient of `a` by `b`. */
  lemma QuotientIs(a: int, b: int, n: int)
    requires 0 < b && n * b <= a < (n + 1) * b
    ensures a / b == n
  {
    var q := a / b;
    assert q * b <= a < (q + 1) * b;
    assert q + 1 <= n ==> (q + 1) * b <= n * b;
    assert n + 1 <= q ==> (n + 1) * b <= q * b;
  }

  /** The times of window `n`. */
  predicate InWindow(w: Seconds, n: int, t: int) {
    Start(w, n) <= t < Start(w, n) + 1000 * w
  }

  function Start(w: Seconds, n: int): int {
    n * (1000 * w)
  }

  /** Flooring to whole seconds first names the same window, and a window is the half-open interval one expects. */
  lemma NestedFloors(w: Seconds, now: nat)
    ensures Window(w, now) == (now / 1000) / w
    ensures Window(w, now) >= 0
    ensures InWindow(w, Window(w, now), now)
  {
    var n := Window(w, now);
    FloorBounds(w, now, n);
    assert n * w <= now / 1000 < (n + 1) * w;
    QuotientIs(now / 1000, w, n);
    StartIs(w, n);
  }

  lemma StartIs(w: Seconds, n: int)
    ensures Start(w, n) == 1000 * (n * w) && Start(w, n) + 1000 * w == 1000 * ((n + 1) * w) == Start(w, n + 1)
  {
    assert (n + 1) * w == n * w + w;
    assert n * (1000 * w) == 1000 * (n * w);
    assert (n + 1) * (1000 * w) == 1000 * ((n + 1) * w);
  }

  lemma FloorBounds(w: Seconds, now: nat, n: int)
    requires n == Window(w, now)
    ensures 1000 * (n * w) <= now < 1000 * ((n + 1) * w)
  {
    var x := now as real / 1000.0 / w as real;
    assert n as real <= x < (n + 1) as real;
    RealProduct(n, w, x);
    RealProduct(n + 1, w, x);
    assert x * w as real == now as real / 1000.0;
  }

  lemma RealProduct(n: int, w: Seconds, x: real)
    ensures n as real <= x ==> (n * w) as real <= x * w as real
    ensures n as real > x ==> (n * w) as real > x * w as real
  {
    assert (n * w) as real == n as real * w as real;
  }

  lemma OneWindow(w: Seconds, t: int, n: int, n': int)
    requires InWindow(w, n, t) && InWindow(w, n', t)
    ensures n == n'
  {
    QuotientIs(t, 1000 * w, n);
    QuotientIs(t, 1000 * w, n');
  }

  lemma WindowIs(w: Seconds, now: nat, n: int)
    requires InWindow(w, n, now)
    ensures Window(w, now) == n
  {
    NestedFloors(w, now);
    OneWindow(w, now, n, Window(w, now));
  }

  /**
   Retry-After is between 1 and the window's length, and is the least whole number of seconds after which the
   window number has grown; it has then grown by exactly one.
   */
  lemma RetryAfterIsLeast(w: Seconds, now: nat, r: nat)
    ensures 1 <= RetryAfter(w, now) <= w
    ensures r < RetryAfter(w, now) ==> Window(w, now + 1000 * r) == Window(w, now)
    ensures r == RetryAfter(w, now) ==> Window(w, now + 1000 * r) == Window(w, now) + 1
  {
    NestedFloors(w, now);
    NestedFloors(w, now + 1000 * r);
    assert (now + 1000 * r) / 1000 == now / 1000 + r;
    SecondsLeft(w, now / 1000, r);
  }

  lemma SecondsLeft(w: Seconds, sec: nat, r: nat)
    ensures r < w - sec % w ==> (sec + r) / w == sec / w
    ensures r == w - sec % w ==> (sec + r) / w == sec / w + 1
  {
    var n := sec / w;
    assert sec == n * w + sec % w;
    assert (n + 1) * w == n * w + w && (n + 2) * w == n * w + 2 * w;
    if r < w - sec % w {
      QuotientIs(sec + r, w, n);
    } else if r == w - sec % w {
      QuotientIs(sec + r, w, n + 1);
    }
  }
}
