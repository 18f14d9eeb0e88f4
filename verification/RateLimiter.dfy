/** The mock server's rate limiter (`handleRateLimiting` in cmd/test-server/gh-test-server.go).
    The body runs under a mutex, so every interleaving of handlers is some sequence of its runs;
    the clock is read twice in a run, and never goes back. Times are in nanoseconds. */
module RateLimiter {
  const LIMIT: int := 40
  const WINDOW: int := 60_000_000_000

  /** The two clock readings of one run: when the window is checked, and when the run is decided. */
  datatype Tick = Tick(check: int, stamp: int)

  datatype State = State(remaining: int, windowStart: int)

  predicate Expired(s: State, t: Tick) { t.check - s.windowStart >= WINDOW }

  function Refill(s: State, t: Tick): State {
    if Expired(s, t) then State(LIMIT, t.stamp) else s
  }

  predicate Admits(s: State, t: Tick) { Refill(s, t).remaining > 0 }

  function Step(s: State, t: Tick): State {
    var r := Refill(s, t);
    if Admits(s, t) then r.(remaining := r.remaining - 1) else r
  }

  class Limiter {
    var rateLimitRemaining: int
    var rateLimitWindowStart: int

    constructor (now: int)
      ensures Value() == State(LIMIT, now)
    {
      rateLimitRemaining, rateLimitWindowStart := LIMIT, now;
    }

    ghost function Value(): State
      reads this
    {
      State(rateLimitRemaining, rateLimitWindowStart)
    }

    /** True when the request is refused. `remaining` is the value of X-RateLimit-Remaining. */
    method HandleRateLimiting(t: Tick) returns (refused: bool, remaining: int)
      modifies this
      ensures refused == !Admits(old(Value()), t)
      ensures Value() == Step(old(Value()), t)
      ensures !refused ==> remaining == rateLimitRemaining
      ensures refused ==> remaining == 0
    {
      if t.check - rateLimitWindowStart >= WINDOW {
        rateLimitRemaining := LIMIT;
        rateLimitWindowStart := t.stamp;
      }
      if rateLimitRemaining <= 0 {
        return true, 0;
      }
      rateLimitRemaining := rateLimitRemaining - 1;
      return false, rateLimitRemaining;
    }
  }

  // ---- whole runs ----

  /** The clock never goes back, within a run and from run to run, and starts at `from`. */
  predicate Ordered(ticks: seq<Tick>, from: int) {
    |ticks| == 0 ||
    (from <= ticks[0].check <= ticks[0].stamp && Ordered(ticks[1..], ticks[0].stamp))
  }

  function Run(s: State, ticks: seq<Tick>): State
    decreases |ticks|
  {
    if |ticks| == 0 then s else Run(Step(s, ticks[0]), ticks[1..])
  }

  /** The requests admitted with a stamp in the closed interval from `a` to `b`. */
  function Admitted(s: State, ticks: seq<Tick>, a: int, b: int): nat
    decreases |ticks|
  {
    if |ticks| == 0 then 0
    else
      (if Admits(s, ticks[0]) && a <= ticks[0].stamp <= b then 1 else 0) +
      Admitted(Step(s, ticks[0]), ticks[1..], a, b)
  }

  lemma {:induction false} NoneAfter(s: State, ticks: seq<Tick>, from: int, a: int, b: int)
    requires Ordered(ticks, from) && b < from
    ensures Admitted(s, ticks, a, b) == 0
    decreases |ticks|
  {
    if |ticks| > 0 {
      NoneAfter(Step(s, ticks[0]), ticks[1..], ticks[0].stamp, a, b);
    }
  }

  /** From a window that began at w, what is left of it and the full windows that can begin by b. */
  lemma {:induction false} BoundFromWindow(s: State, ticks: seq<Tick>, from: int, a: int, b: int)
    requires 0 <= s.remaining <= LIMIT && s.windowStart <= from && s.windowStart <= b
    requires Ordered(ticks, from)
    ensures Admitted(s, ticks, a, b) <= s.remaining + LIMIT * ((b - s.windowStart) / WINDOW)
    decreases |ticks|
  {
    if |ticks| > 0 {
      var t := ticks[0];
      var s' := Step(s, t);
      if Expired(s, t) {
        if t.stamp <= b {
          BoundFromWindow(s', ticks[1..], t.stamp, a, b);
          assert (b - t.stamp) / WINDOW + 1 <= (b - s.windowStart) / WINDOW;
        } else {
          NoneAfter(s', ticks[1..], t.stamp, a, b);
        }
      } else {
        BoundFromWindow(s', ticks[1..], t.stamp, a, b);
      }
    }
  }

  /** Once the clock has passed `a`: what is left of the running window, then windows begun since. */
  lemma {:induction false} BoundFromInstant(s: State, ticks: seq<Tick>, from: int, a: int, b: int)
    requires 0 <= s.remaining <= LIMIT && s.windowStart <= from && a <= b
    requires Ordered(ticks, from) && (|ticks| > 0 ==> a <= ticks[0].stamp)
    ensures Admitted(s, ticks, a, b) <= s.remaining + LIMIT * ((b - a) / WINDOW + 1)
    decreases |ticks|
  {
    if |ticks| > 0 {
      var t := ticks[0];
      var s' := Step(s, t);
      if Expired(s, t) {
        if t.stamp <= b {
          BoundFromWindow(s', ticks[1..], t.stamp, a, b);
          assert (b - t.stamp) / WINDOW <= (b - a) / WINDOW;
        } else {
          NoneAfter(s', ticks[1..], t.stamp, a, b);
        }
      } else {
        BoundFromInstant(s', ticks[1..], t.stamp, a, b);
      }
    }
  }

  /** Main result: at most 40 * (floor(L / 60s) + 2) requests are admitted in any interval of length L. */
  lemma {:induction false} SlidingBound(s: State, ticks: seq<Tick>, from: int, a: int, b: int)
    requires 0 <= s.remaining <= LIMIT && s.windowStart <= from && a <= b
    requires Ordered(ticks, from)
    ensures Admitted(s, ticks, a, b) <= LIMIT * ((b - a) / WINDOW + 2)
    decreases |ticks|
  {
    if |ticks| > 0 {
      var t := ticks[0];
      if t.stamp < a {
        SlidingBound(Step(s, t), ticks[1..], t.stamp, a, b);
      } else {
        BoundFromInstant(s, ticks, from, a, b);
      }
    }
  }

  // ---- the bound is attained ----

  function Burst(n: nat, at: int): seq<Tick> {
    seq(n, _ => Tick(at, at))
  }

  lemma {:induction false} BurstAdmitted(s: State, n: nat, at: int, rest: seq<Tick>, a: int, b: int)
    requires n <= s.remaining && at - s.windowStart < WINDOW && a <= at <= b
    ensures Admitted(s, Burst(n, at) + rest, a, b) ==
            n + Admitted(State(s.remaining - n, s.windowStart), rest, a, b)
    decreases n
  {
    var ticks := Burst(n, at) + rest;
    if n == 0 {
      assert ticks == rest;
    } else {
      assert ticks[1..] == Burst(n - 1, at) + rest;
      BurstAdmitted(Step(s, ticks[0]), n - 1, at, rest, a, b);
    }
  }

  lemma {:induction false} BurstOrdered(n: nat, at: int, rest: seq<Tick>, from: int)
    requires from <= at && Ordered(rest, at)
    ensures Ordered(Burst(n, at) + rest, from)
    decreases n
  {
    var ticks := Burst(n, at) + rest;
    if n == 0 {
      assert ticks == rest;
    } else {
      assert ticks[1..] == Burst(n - 1, at) + rest;
      BurstOrdered(n - 1, at, rest, at);
    }
  }

  /** A full burst at the first instant of each of the `k` windows that follow a spent one. */
  function Bursts(w: int, k: nat): seq<Tick>
    decreases k
  {
    if k == 0 then [] else Burst(LIMIT, w + WINDOW) + Bursts(w + WINDOW, k - 1)
  }

  lemma {:induction false} BurstsAdmitted(w: int, k: nat, a: int, b: int)
    requires a <= w + WINDOW && w + k * WINDOW <= b
    ensures Admitted(State(0, w), Bursts(w, k), a, b) == k * LIMIT
    ensures Ordered(Bursts(w, k), w)
    decreases k
  {
    if k > 0 {
      var at := w + WINDOW;
      var rest := Bursts(at, k - 1);
      BurstsAdmitted(at, k - 1, a, b);
      BurstOrdered(LIMIT, at, rest, w);
      var ticks := Burst(LIMIT, at) + rest;
      assert ticks[1..] == Burst(LIMIT - 1, at) + rest;
      BurstAdmitted(State(LIMIT - 1, at), LIMIT - 1, at, rest, a, b);
    }
  }

  /** Some run reaches the bound of `SlidingBound`, for every length that is not a whole number of windows. */
  lemma SlidingBoundAttained(boot: int, length: nat) returns (ticks: seq<Tick>, a: int)
    requires length % WINDOW != 0
    ensures Ordered(ticks, boot)
    ensures Admitted(State(LIMIT, boot), ticks, a, a + length) == LIMIT * (length / WINDOW + 2)
  {
    var k := length / WINDOW + 1;
    a := boot + WINDOW - 1;
    var rest := Bursts(boot, k);
    ticks := Burst(LIMIT, a) + rest;
    BurstsAdmitted(boot, k, a, a + length);
    assert Ordered(rest, a);
    BurstOrdered(LIMIT, a, rest, boot);
    BurstAdmitted(State(LIMIT, boot), LIMIT, a, rest, a, a + length);
  }

  // ---- windows ----

  lemma {:induction false} RunLast(s: State, ticks: seq<Tick>)
    requires |ticks| > 0
    ensures Run(s, ticks) == Step(Run(s, ticks[..|ticks| - 1]), ticks[|ticks| - 1])
    decreases |ticks|
  {
    if |ticks| > 1 {
      RunLast(Step(s, ticks[0]), ticks[1..]);
      assert ticks[1..][..|ticks| - 2] == ticks[..|ticks| - 1][1..];
    }
  }

  /** Request `t` after these requests is admitted. */
  predicate AdmittedAfter(boot: int, ticks: seq<Tick>, t: Tick) { Admits(Run(State(LIMIT, boot), ticks), t) }

  /** The start of the window after these requests, from the clock readings alone: a request that is checked
      60 s or more after the start of the window opens the next window at its stamp. */
  function Opened(boot: int, ticks: seq<Tick>): int
    decreases |ticks|
  {
    if |ticks| == 0 then boot
    else
      var start, t := Opened(boot, ticks[..|ticks| - 1]), ticks[|ticks| - 1];
      if t.check - start >= 60_000_000_000 then t.stamp else start
  }

  /** The number of the request that opened that window; 0 for the window since boot. */
  function Opening(boot: int, ticks: seq<Tick>): (i: nat)
    ensures i <= |ticks|
    decreases |ticks|
  {
    if |ticks| == 0 then 0
    else
      var n := |ticks| - 1;
      if ticks[n].check - Opened(boot, ticks[..n]) >= 60_000_000_000 then n else Opening(boot, ticks[..n])
  }

  /** How many of the requests from number `i` on were admitted. */
  function AdmittedSince(boot: int, ticks: seq<Tick>, i: nat): nat
    decreases |ticks|
  {
    if |ticks| <= i then 0
    else
      var n := |ticks| - 1;
      AdmittedSince(boot, ticks[..n], i) + if AdmittedAfter(boot, ticks[..n], ticks[n]) then 1 else 0
  }

  /** Main result: in every reachable state the window is the one that the clock readings tell, whatever was
      refused in it, and what was admitted in it and what remains make 40. */
  lemma {:induction false} Conservation(boot: int, ticks: seq<Tick>)
    ensures var s := Run(State(LIMIT, boot), ticks);
            && s.windowStart == Opened(boot, ticks)
            && 0 <= s.remaining <= 40
            && AdmittedSince(boot, ticks, Opening(boot, ticks)) + s.remaining == 40
    decreases |ticks|
  {
    if |ticks| > 0 {
      RunLast(State(LIMIT, boot), ticks);
      Conservation(boot, ticks[..|ticks| - 1]);
    }
  }

  /** Main result, refusals: a request is refused exactly when 40 were admitted from the opening of the window
      on and it is checked less than 60 s after that opening. */
  lemma RefusedExactly(boot: int, ticks: seq<Tick>, t: Tick)
    ensures !AdmittedAfter(boot, ticks, t) <==>
            AdmittedSince(boot, ticks, Opening(boot, ticks)) == 40 && t.check - Opened(boot, ticks) < 60_000_000_000
  {
    Conservation(boot, ticks);
  }

  // ---- quiet clients ----

  function LastStamp(from: int, ticks: seq<Tick>): int {
    if |ticks| == 0 then from else ticks[|ticks| - 1].stamp
  }

  lemma {:induction false} OrderedLast(ticks: seq<Tick>, from: int)
    requires |ticks| > 0
    ensures var n := |ticks| - 1;
            Ordered(ticks, from) <==>
            Ordered(ticks[..n], from) && LastStamp(from, ticks[..n]) <= ticks[n].check <= ticks[n].stamp
    decreases |ticks|
  {
    var n := |ticks| - 1;
    if n > 0 {
      var rest, front := ticks[1..], ticks[..n];
      OrderedLast(rest, ticks[0].stamp);
      assert rest[..n - 1] == front[1..];
      assert LastStamp(ticks[0].stamp, front[1..]) == LastStamp(from, front);
    }
  }

  lemma {:induction false} AdmittedLast(s: State, ticks: seq<Tick>, a: int, b: int)
    requires |ticks| > 0
    ensures var n := |ticks| - 1;
            Admitted(s, ticks, a, b) ==
            Admitted(s, ticks[..n], a, b) +
            if Admits(Run(s, ticks[..n]), ticks[n]) && a <= ticks[n].stamp <= b then 1 else 0
    decreases |ticks|
  {
    var n := |ticks| - 1;
    if n > 0 {
      AdmittedLast(Step(s, ticks[0]), ticks[1..], a, b);
      assert ticks[1..][..n - 1] == ticks[..n][1..];
    }
  }

  lemma {:induction false} OpenedBehind(boot: int, ticks: seq<Tick>)
    requires Ordered(ticks, boot)
    ensures boot <= Opened(boot, ticks) <= LastStamp(boot, ticks)
    decreases |ticks|
  {
    if |ticks| > 0 {
      OrderedLast(ticks, boot);
      OpenedBehind(boot, ticks[..|ticks| - 1]);
    }
  }

  /** All that the window admitted has a stamp since its start. */
  lemma {:induction false} WindowWithin(boot: int, ticks: seq<Tick>, a: int, b: int)
    requires Ordered(ticks, boot) && a <= Opened(boot, ticks) && LastStamp(boot, ticks) <= b
    ensures AdmittedSince(boot, ticks, Opening(boot, ticks)) <= Admitted(State(LIMIT, boot), ticks, a, b)
    decreases |ticks|
  {
    if |ticks| > 0 {
      var n := |ticks| - 1;
      OrderedLast(ticks, boot);
      AdmittedLast(State(LIMIT, boot), ticks, a, b);
      OpenedBehind(boot, ticks);
      if ticks[n].check - Opened(boot, ticks[..n]) < 60_000_000_000 {
        WindowWithin(boot, ticks[..n], a, b);
      }
    }
  }

  /** Main result, no starvation: a request is admitted whenever fewer than 40 were admitted in the 60 s
      before its check, whatever was refused in between. */
  lemma QuietAdmitted(boot: int, ticks: seq<Tick>, t: Tick)
    requires Ordered(ticks + [t], boot)
    requires Admitted(State(LIMIT, boot), ticks, t.check - 59_999_999_999, t.check) < 40
    ensures AdmittedAfter(boot, ticks, t)
  {
    OrderedLast(ticks + [t], boot);
    assert (ticks + [t])[..|ticks|] == ticks;
    RefusedExactly(boot, ticks, t);
    if t.check - Opened(boot, ticks) < 60_000_000_000 {
      WindowWithin(boot, ticks, t.check - 59_999_999_999, t.check);
    }
  }

  /** In particular a request that is checked at least 60 s after the stamp of every admitted one. */
  lemma SpacedAdmitted(boot: int, ticks: seq<Tick>, t: Tick)
    requires Ordered(ticks + [t], boot)
    requires forall i | 0 <= i < |ticks| && AdmittedAfter(boot, ticks[..i], ticks[i]) ::
               t.check - ticks[i].stamp >= 60_000_000_000
    ensures AdmittedAfter(boot, ticks, t)
  {
    NoneIn(boot, ticks, t.check - 59_999_999_999, t.check);
    QuietAdmitted(boot, ticks, t);
  }

  lemma {:induction false} NoneIn(boot: int, ticks: seq<Tick>, a: int, b: int)
    requires forall i | 0 <= i < |ticks| && AdmittedAfter(boot, ticks[..i], ticks[i]) :: ticks[i].stamp < a
    ensures Admitted(State(LIMIT, boot), ticks, a, b) == 0
    decreases |ticks|
  {
    if |ticks| > 0 {
      var n := |ticks| - 1;
      AdmittedLast(State(LIMIT, boot), ticks, a, b);
      forall i | 0 <= i < n && AdmittedAfter(boot, ticks[..n][..i], ticks[..n][i]) ensures ticks[..n][i].stamp < a {
        assert ticks[..n][..i] == ticks[..i];
      }
      NoneIn(boot, ticks[..n], a, b);
    }
  }
}
