/** Per-capability rate limiting: a token bucket refilled lazily, with a daily cap.
    Times and durations are whole nanoseconds. */
module RateLimit {
  import opened Common
  import opened Capabilities

  const U32: nat := 0x1_0000_0000
  const DAY: nat := 24 * 3600 * 1_000_000_000

  datatype Policy = Policy(burst: nat, refillEvery: nat, dailyMax: nat)

  datatype Bucket = Bucket(policy: Policy, tokens: nat, lastRefill: nat, usedToday: nat, dayStart: nat)

  datatype Answer = Granted | BucketEmpty(retryAfter: nat) | DailyCapReached(capMax: nat, resetsAt: nat)

  // ---- Policies ----

  const MILLI: nat := 1_000_000
  const SECOND: nat := 1_000_000_000

  function PerSecond(burst: nat, dailyMax: nat): Policy {
    var b := Max(burst, 1);
    Policy(burst, ((1000 + b - 1) / b) * MILLI, dailyMax)
  }

  function PerMinute(burst: nat, dailyMax: nat): Policy {
    var b := Max(burst, 1);
    Policy(burst, ((60 + b - 1) / b) * SECOND, dailyMax)
  }

  /** The rounded interval never refills a whole burst faster than the configured
      second or minute, and is positive. */
  lemma PolicyRates(burst: nat, dailyMax: nat)
    ensures var s, m := PerSecond(burst, dailyMax), PerMinute(burst, dailyMax);
            && s.refillEvery >= MILLI && s.refillEvery * Max(burst, 1) >= SECOND
            && m.refillEvery >= SECOND && m.refillEvery * Max(burst, 1) >= 60 * SECOND
  {
    var b: nat := Max(burst, 1);
    CeilCovers(1000, b);
    CeilCovers(60, b);
    var x, y := (1000 + b - 1) / b, (60 + b - 1) / b;
    assert x * MILLI * b == (x * b) * MILLI;
    assert y * SECOND * b == (y * b) * SECOND;
  }

  lemma CeilCovers(n: nat, b: nat)
    requires n > 0 && b > 0
    ensures ((n + b - 1) / b) * b >= n && (n + b - 1) / b >= 1
  {
    var x := (n + b - 1) / b;
    assert n + b - 1 == x * b + (n + b - 1) % b;
    assert x <= 0 ==> x * b <= 0;
  }

  // ---- One call ----

  function Rollover(b: Bucket, now: nat): Bucket {
    if Since(b.dayStart, now) >= DAY then b.(dayStart := now, usedToday := 0) else b
  }

  /** Refill intervals elapsed since the last refill, before the `u32` clamp. */
  function Accrued(b: Bucket, now: nat): nat {
    Since(b.lastRefill, now) / Max(b.policy.refillEvery, 1)
  }

  /** The clamp to `u32`, the wrapping `u32` sum of a release build, and the advance of
      `last_refill` by whole intervals. */
  function Refill(b: Bucket, now: nat): Bucket
  {
    var refilled: nat := Min(Accrued(b, now), U32 - 1);
    if refilled > 0 then
      var tokens := Min((b.tokens + refilled) % U32, b.policy.burst);
      b.(tokens := tokens, lastRefill := b.lastRefill + b.policy.refillEvery * refilled)
    else b
  }

  /** One request at time `now`. */
  function Consume(b: Bucket, now: nat): (Bucket, Answer)
  {
    var b1 := Rollover(b, now);
    if b1.usedToday >= b1.policy.dailyMax
    then (b1, DailyCapReached(b1.policy.dailyMax, b1.dayStart + DAY))
    else
      var b2 := Refill(b1, now);
      if b2.tokens == 0
      then (b2, BucketEmpty(Max(0, b2.policy.refillEvery - Since(b2.lastRefill, now))))
      else (b2.(tokens := b2.tokens - 1, usedToday := b2.usedToday + 1), Granted)
  }

  function Fresh(p: Policy, now: nat): Bucket {
    Bucket(p, p.burst, now, 0, now)
  }

  /** A bucket whose clock values are not in the future, as every reachable one is. */
  ghost predicate At(b: Bucket, now: nat) {
    b.lastRefill <= now && b.dayStart <= now && b.usedToday <= b.policy.dailyMax && b.tokens < U32
    && b.policy.burst < U32 && b.tokens <= b.policy.burst
  }

  lemma AccruedBounds(b: Bucket, now: nat)
    requires b.lastRefill <= now && b.policy.refillEvery > 0
    ensures var r := b.policy.refillEvery;
            r * Accrued(b, now) <= now - b.lastRefill < r * Accrued(b, now) + r
  {
    var r := b.policy.refillEvery;
    var gap := now - b.lastRefill;
    assert gap == r * (gap / r) + gap % r;
  }

  /** A refill never advances `last_refill` past the present, and uses up every whole
      interval exactly when the accrued count fits in `u32`. */
  lemma RefillCatchesUpIff(b: Bucket, now: nat)
    requires b.lastRefill <= now && b.policy.refillEvery > 0
    ensures var b' := Refill(b, now);
            && b.lastRefill <= b'.lastRefill <= now
            && (now - b'.lastRefill < b.policy.refillEvery <==> Accrued(b, now) < U32)
  {
    var r := b.policy.refillEvery;
    var refilled: nat := Min(Accrued(b, now), U32 - 1);
    AccruedBounds(b, now);
    if Accrued(b, now) >= U32 {
      MulMono(r, refilled + 1, Accrued(b, now));
      assert r * (refilled + 1) == r * refilled + r;
    }
  }

  lemma MulMono(r: nat, x: nat, y: nat)
    requires x <= y
    ensures r * x <= r * y
  {
  }

  lemma StepKeepsAt(b: Bucket, now: nat)
    requires At(b, now)
    ensures At(Consume(b, now).0, now) && Consume(b, now).0.policy == b.policy
  {
    var b1 := Rollover(b, now);
    if b.policy.refillEvery > 0 { RefillCatchesUpIff(b1, now); }
    assert Refill(b1, now).lastRefill <= now by {
      if b.policy.refillEvery == 0 { assert 0 * Min(Accrued(b1, now), U32 - 1) == 0; }
    }
  }

  // ---- Runs ----

  /** The bucket after calls at the given times. */
  function After(b: Bucket, times: seq<nat>): Bucket
    decreases |times|
  {
    if times == [] then b else After(Consume(b, times[0]).0, times[1..])
  }

  /** The answers to those calls, in order. */
  function Answers(b: Bucket, times: seq<nat>): (a: seq<Answer>)
    ensures |a| == |times|
    decreases |times|
  {
    if times == [] then [] else [Consume(b, times[0]).1] + Answers(Consume(b, times[0]).0, times[1..])
  }

  function Grants(answers: seq<Answer>): nat {
    if answers == [] then 0 else (if answers[0].Granted? then 1 else 0) + Grants(answers[1..])
  }

  /** Successes among calls at the given times. */
  function Successes(b: Bucket, times: seq<nat>): nat {
    Grants(Answers(b, times))
  }

  ghost predicate Nondecreasing(times: seq<nat>) {
    forall i, j | 0 <= i < j < |times| :: times[i] <= times[j]
  }

  /** A run a monotone clock can produce from `b`. */
  ghost predicate Clocked(b: Bucket, times: seq<nat>) {
    Nondecreasing(times) && (times != [] ==> At(b, times[0]))
  }

  lemma FirstCall(b: Bucket, times: seq<nat>)
    requires Clocked(b, times) && times != []
    ensures var b' := Consume(b, times[0]).0;
            && Clocked(b', times[1..]) && At(b', times[0]) && b'.policy == b.policy
            && times[0] <= times[|times| - 1]
            && (|times| > 1 ==> times[1..][|times| - 2] == times[|times| - 1])
            && Successes(b, times) == (if Consume(b, times[0]).1.Granted? then 1 else 0) + Successes(b', times[1..])
  {
    StepKeepsAt(b, times[0]);
    assert Answers(b, times)[1..] == Answers(Consume(b, times[0]).0, times[1..]);
  }

  lemma {:induction false} AfterKeepsAt(b: Bucket, times: seq<nat>, now: nat)
    requires Clocked(b, times) && At(b, now) && (times != [] ==> times[|times| - 1] <= now)
    ensures At(After(b, times), now) && After(b, times).policy == b.policy
    decreases |times|
  {
    if times != [] {
      FirstCall(b, times);
      AfterKeepsAt(Consume(b, times[0]).0, times[1..], now);
    }
  }

  lemma {:induction false} RunConcat(b: Bucket, first: seq<nat>, rest: seq<nat>)
    ensures After(b, first + rest) == After(After(b, first), rest)
    ensures Answers(b, first + rest) == Answers(b, first) + Answers(After(b, first), rest)
    decreases |first|
  {
    if first == [] {
      assert first + rest == rest;
    } else {
      assert (first + rest)[1..] == first[1..] + rest;
      RunConcat(Consume(b, first[0]).0, first[1..], rest);
    }
  }

  lemma ReachedAt(b: Bucket, times: seq<nat>, i: nat, j: nat)
    requires Clocked(b, times) && i < j <= |times|
    ensures Clocked(After(b, times[..i]), times[i..j]) && After(b, times[..i]).policy == b.policy
  {
    assert i > 0 ==> times[..i][i - 1] == times[i - 1] <= times[i];
    assert At(b, times[i]);
    AfterKeepsAt(b, times[..i], times[i]);
  }

  /** The answers to the calls from `i` to `j` are those of the bucket reached at `i`. */
  lemma SliceOfRun(b: Bucket, times: seq<nat>, i: nat, j: nat)
    requires i < j <= |times|
    ensures Answers(b, times)[i..j] == Answers(After(b, times[..i]), times[i..j])
  {
    var pre, window, post := times[..i], times[i..j], times[j..];
    assert times == pre + (window + post);
    RunConcat(b, pre, window + post);
    RunConcat(After(b, pre), window, post);
  }

  // ---- Window bound ----

  function CeilDiv(d: nat, r: nat): nat
    requires r > 0
  {
    (d + r - 1) / r
  }

  /** Grants up to time `end` are paid for by the tokens held and the intervals still to
      accrue; neither the clamp nor the wrapping sum can break this. */
  lemma {:induction false} GrantsArePaid(b: Bucket, times: seq<nat>, end: nat)
    requires Clocked(b, times) && b.policy.refillEvery > 0 && b.lastRefill <= end
    requires times != [] ==> times[|times| - 1] <= end
    ensures Successes(b, times) <= b.tokens + (end - b.lastRefill) / b.policy.refillEvery
    decreases |times|
  {
    if times != [] {
      FirstCall(b, times);
      var b' := Consume(b, times[0]).0;
      CallIsPaid(b, times[0], end);
      GrantsArePaid(b', times[1..], end);
    }
  }

  lemma CallIsPaid(b: Bucket, now: nat, end: nat)
    requires At(b, now) && now <= end && b.policy.refillEvery > 0
    ensures var (b', a) := Consume(b, now);
            var r := b.policy.refillEvery;
            b'.lastRefill <= end &&
            (if a.Granted? then 1 else 0) + b'.tokens + (end - b'.lastRefill) / r
            <= b.tokens + (end - b.lastRefill) / r
  {
    var b1 := Rollover(b, now);
    var refilled: nat := Min(Accrued(b1, now), U32 - 1);
    RefillCatchesUpIff(b1, now);
    var b2 := Refill(b1, now);
    DivShift(end - b.lastRefill, b.policy.refillEvery, refilled, end - b2.lastRefill);
    WrapShrinks(b.tokens + refilled);
  }

  lemma WrapShrinks(x: nat)
    ensures x % U32 <= x
  {
  }

  lemma DivShift(x: int, r: nat, k: nat, y: int)
    requires r > 0 && 0 <= y && x == y + r * k
    ensures x / r == y / r + k
  {
    var q, m := y / r, y % r;
    assert y == r * q + m;
    var d := x / r - (q + k);
    assert x == r * (x / r) + x % r;
    assert r * (q + k) == r * q + r * k;
    assert r * d == r * (x / r) - r * (q + k);
    assert d >= 1 ==> r * d >= r;
    assert d <= -1 ==> r * d + r <= 0;
  }

  /** No call of the run finds 2^32 or more intervals accrued. */
  ghost predicate NoClamp(b: Bucket, times: seq<nat>)
    decreases |times|
  {
    times != [] ==> Accrued(b, times[0]) < U32 && NoClamp(Consume(b, times[0]).0, times[1..])
  }

  lemma {:induction false} WindowFrom(b: Bucket, times: seq<nat>, d: nat)
    requires Clocked(b, times) && b.policy.refillEvery > 0 && NoClamp(b, times)
    requires times != [] ==> times[|times| - 1] - times[0] <= d
    ensures Successes(b, times) <= b.policy.burst + CeilDiv(d, b.policy.refillEvery)
    decreases |times|
  {
    if times != [] {
      var now, end := times[0], times[|times| - 1];
      var r := b.policy.refillEvery;
      FirstCall(b, times);
      var (b', a) := Consume(b, now);
      if a.DailyCapReached? {
        WindowFrom(b', times[1..], d);
      } else {
        RefillCatchesUpIff(Rollover(b, now), now);
        GrantsArePaid(b', times[1..], end);
        DivMono(end - b'.lastRefill, d + r - 1, r);
      }
    }
  }

  lemma DivMono(x: nat, y: nat, r: nat)
    requires x <= y && r > 0
    ensures x / r <= y / r
  {
    var d := x / r - y / r;
    assert x == r * (x / r) + x % r && y == r * (y / r) + y % r;
    assert r * d == r * (x / r) - r * (y / r);
    assert d >= 1 ==> r * d >= r;
  }

  lemma {:induction false} NoClampSlice(b: Bucket, times: seq<nat>, i: nat, j: nat)
    requires NoClamp(b, times) && i <= j <= |times|
    ensures NoClamp(After(b, times[..i]), times[i..j])
    decreases |times|
  {
    if j > 0 {
      var b' := Consume(b, times[0]).0;
      var k := if i == 0 then 0 else i - 1;
      NoClampSlice(b', times[1..], k, j - 1);
      assert times[1..][k..j - 1] == times[k + 1..j];
      assert i > 0 ==> times[..i][1..] == times[1..][..k];
      assert i == 0 ==> times[i..j][1..] == times[1..j] && times[1..][..k] == [];
    }
  }

  /** The clamp stays away from any run that ends within 2^32 intervals of the bucket's
      last refill; for a default policy that is years of uptime. */
  lemma {:induction false} ShortRunsDoNotClamp(b: Bucket, times: seq<nat>)
    requires Clocked(b, times) && b.policy.refillEvery > 0
    requires times != [] ==> times[|times| - 1] - b.lastRefill < U32 * b.policy.refillEvery
    ensures NoClamp(b, times)
    decreases |times|
  {
    if times != [] {
      var now := times[0];
      FirstCall(b, times);
      AccruedBounds(b, now);
      if Accrued(b, now) >= U32 { MulMono(b.policy.refillEvery, U32, Accrued(b, now)); }
      RefillCatchesUpIff(Rollover(b, now), now);
      ShortRunsDoNotClamp(Consume(b, now).0, times[1..]);
    }
  }

  /** In every window of length `d` of a run, successes are at most
      burst + ceil(d / refill_every), as long as no call finds 2^32 or more intervals
      accrued. */
  lemma WindowBound(b: Bucket, times: seq<nat>, i: nat, j: nat, d: nat)
    requires Clocked(b, times) && b.policy.refillEvery > 0 && NoClamp(b, times)
    requires i < j <= |times| && times[j - 1] - times[i] <= d
    ensures Grants(Answers(b, times)[i..j]) <= b.policy.burst + CeilDiv(d, b.policy.refillEvery)
  {
    WindowFacts(b, times, i, j);
    WindowFrom(After(b, times[..i]), times[i..j], d);
  }

  lemma WindowFacts(b: Bucket, times: seq<nat>, i: nat, j: nat)
    requires Clocked(b, times) && NoClamp(b, times) && i < j <= |times|
    ensures var mid, window := After(b, times[..i]), times[i..j];
            && Answers(b, times)[i..j] == Answers(mid, window)
            && window[0] == times[i] && window[|window| - 1] == times[j - 1]
            && Clocked(mid, window) && mid.policy == b.policy && NoClamp(mid, window)
  {
    SliceOfRun(b, times, i, j);
    ReachedAt(b, times, i, j);
    NoClampSlice(b, times, i, j);
  }

  /** n calls at one instant. */
  function Repeat(t: nat, n: nat): (times: seq<nat>)
    ensures |times| == n && forall k | 0 <= k < n :: times[k] == t
  {
    if n == 0 then [] else [t] + Repeat(t, n - 1)
  }

  lemma TakeOne(b: Bucket, t: nat)
    requires At(b, t) && t < b.dayStart + DAY && Accrued(b, t) == 0
    requires b.tokens > 0 && b.usedToday < b.policy.dailyMax
    ensures Consume(b, t) == (b.(tokens := b.tokens - 1, usedToday := b.usedToday + 1), Granted)
  {
  }

  /** With nothing to accrue, calls at one instant take the tokens one by one. */
  lemma {:induction false} Drain(b: Bucket, t: nat, n: nat)
    requires At(b, t) && t < b.dayStart + DAY && Accrued(b, t) == 0
    requires n <= b.tokens && b.usedToday + n <= b.policy.dailyMax
    ensures Successes(b, Repeat(t, n)) == n
    ensures After(b, Repeat(t, n)) == b.(tokens := b.tokens - n, usedToday := b.usedToday + n)
    decreases n
  {
    if n > 0 {
      var b' := b.(tokens := b.tokens - 1, usedToday := b.usedToday + 1);
      TakeOne(b, t);
      assert Repeat(t, n)[1..] == Repeat(t, n - 1);
      GrantsCons(b, Repeat(t, n));
      Drain(b', t, n - 1);
    }
  }

  /** Drain a fresh bucket, come back after 2^32 intervals, and ask burst + 1 times. */
  function FloodRun(p: Policy, start: nat): seq<nat> {
    Repeat(start, p.burst) + Repeat(start + 4_294_967_296 * p.refillEvery, p.burst + 1)
  }

  /** The first call back fills the bucket, but the clamp leaves one interval uncounted; the
      second call collects it. */
  lemma TwoCallsPastClamp(b: Bucket, t: nat)
    requires 1 <= b.policy.burst < U32 && b.policy.refillEvery > 0 && b.policy.dailyMax > 2 * b.policy.burst
    requires b.tokens == 0 && b.usedToday <= b.policy.burst && b.dayStart <= t
    requires t == b.lastRefill + U32 * b.policy.refillEvery
    ensures var (b1, a1) := Consume(b, t);
            var (b2, a2) := Consume(b1, t);
            && a1.Granted? && a2.Granted? && At(b2, t) && b2.policy == b.policy
            && b2.tokens == b.policy.burst - 1 && b2.usedToday <= b.policy.burst + 2
            && t < b2.dayStart + DAY && Accrued(b2, t) == 0
  {
    var r := b.policy.refillEvery;
    var b0 := Rollover(b, t);
    DivExact(U32, r);
    assert Accrued(b0, t) == U32;
    var refilled := b.lastRefill + r * (U32 - 1);
    var b1 := b0.(tokens := b.policy.burst - 1, lastRefill := refilled, usedToday := b0.usedToday + 1);
    assert Consume(b, t) == (b1, Granted);
    assert r * (U32 - 1) == U32 * r - r;
    assert t - b1.lastRefill == r;
    DivExact(1, r);
    assert Accrued(b1, t) == 1 && Rollover(b1, t) == b1;
    assert r * 1 == r;
  }

  lemma DivExact(q: nat, r: nat)
    requires r > 0
    ensures q * r / r == q
  {
    DivShift(q * r, r, q, 0);
  }

  lemma GrantsCons(b: Bucket, times: seq<nat>)
    requires times != [] && Consume(b, times[0]).1.Granted?
    ensures Successes(b, times) == 1 + Successes(Consume(b, times[0]).0, times[1..])
  {
    assert Answers(b, times)[1..] == Answers(Consume(b, times[0]).0, times[1..]);
  }

  lemma FloodGrants(b: Bucket, t: nat)
    requires 1 <= b.policy.burst < U32 && b.policy.refillEvery > 0 && b.policy.dailyMax > 2 * b.policy.burst
    requires b.tokens == 0 && b.usedToday <= b.policy.burst && b.dayStart <= t
    requires t == b.lastRefill + U32 * b.policy.refillEvery
    ensures Successes(b, Repeat(t, b.policy.burst + 1)) == b.policy.burst + 1
  {
    var n := b.policy.burst;
    TwoCallsPastClamp(b, t);
    var b1 := Consume(b, t).0;
    var b2 := Consume(b1, t).0;
    assert Repeat(t, n + 1)[1..] == Repeat(t, n) && Repeat(t, n)[1..] == Repeat(t, n - 1);
    GrantsCons(b, Repeat(t, n + 1));
    GrantsCons(b1, Repeat(t, n));
    Drain(b2, t, n - 1);
  }

  /** Past the clamp the bound fails for every such policy: burst + 1 successes at one instant. */
  lemma ClampBreaksWindowBound(p: Policy, start: nat)
    requires 1 <= p.burst < U32 && p.refillEvery > 0 && p.dailyMax > 2 * p.burst
    ensures Clocked(Fresh(p, start), FloodRun(p, start))
    ensures Grants(Answers(Fresh(p, start), FloodRun(p, start))[p.burst..2 * p.burst + 1]) == p.burst + 1
  {
    var b, t := Fresh(p, start), start + U32 * p.refillEvery;
    FloodClocked(b, start, t, p.burst);
    Drain(b, start, p.burst);
    FloodGrants(b.(tokens := 0, usedToday := p.burst), t);
    AnswersAfter(b, Repeat(start, p.burst), Repeat(t, p.burst + 1));
  }

  lemma FloodClocked(b: Bucket, start: nat, t: nat, n: nat)
    requires At(b, start) && start <= t && n > 0
    ensures Clocked(b, Repeat(start, n) + Repeat(t, n + 1))
  {
  }

  lemma AnswersAfter(b: Bucket, x: seq<nat>, y: seq<nat>)
    ensures Answers(b, x + y)[|x|..|x| + |y|] == Answers(After(b, x), y)
  {
    RunConcat(b, x, y);
  }

  ghost predicate EndsBy(times: seq<nat>, end: nat) {
    times != [] ==> times[|times| - 1] <= end
  }

  /** The window bound, for one window of one run. */
  ghost predicate WindowHolds(b: Bucket, times: seq<nat>, i: nat, j: nat, d: nat)
    requires b.policy.refillEvery > 0
  {
    Clocked(b, times) && i < j <= |times| && times[j - 1] - times[i] <= d ==>
      Grants(Answers(b, times)[i..j]) <= b.policy.burst + CeilDiv(d, b.policy.refillEvery)
  }

  lemma ShortRunHolds(p: Policy, start: nat, end: nat, times: seq<nat>, i: nat, j: nat, d: nat)
    requires p.burst < U32 && p.refillEvery > 0
    requires start <= end && end - start < U32 * p.refillEvery && EndsBy(times, end)
    ensures WindowHolds(Fresh(p, start), times, i, j, d)
  {
    var b := Fresh(p, start);
    if Clocked(b, times) && i < j <= |times| && times[j - 1] - times[i] <= d {
      ShortRunsDoNotClamp(b, times);
      WindowBound(b, times, i, j, d);
    }
  }

  lemma FloodBreaks(p: Policy, start: nat)
    requires 1 <= p.burst < U32 && p.refillEvery > 0 && p.dailyMax > 2 * p.burst
    ensures !WindowHolds(Fresh(p, start), FloodRun(p, start), p.burst, 2 * p.burst + 1, 0)
  {
    ClampBreaksWindowBound(p, start);
    assert (p.refillEvery - 1) / p.refillEvery == 0;
  }

  /** The exact condition: the bound holds in every window of every run of a fresh bucket that
      ends by `end`, if and only if `end` comes less than 2^32 intervals after the start. */
  lemma WindowBoundIff(p: Policy, start: nat, end: nat)
    requires 1 <= p.burst < U32 && p.refillEvery > 0 && p.dailyMax > 2 * p.burst && start <= end
    ensures (forall times: seq<nat>, i: nat, j: nat, d: nat | EndsBy(times, end) ::
               WindowHolds(Fresh(p, start), times, i, j, d))
            <==> end - start < 4_294_967_296 * p.refillEvery
  {
    if end - start < U32 * p.refillEvery {
      forall times: seq<nat>, i: nat, j: nat, d: nat | EndsBy(times, end)
        ensures WindowHolds(Fresh(p, start), times, i, j, d)
      {
        ShortRunHolds(p, start, end, times, i, j, d);
      }
    } else {
      FloodBreaks(p, start);
      assert EndsBy(FloodRun(p, start), end);
    }
  }

  // ---- Daily cap ----

  lemma {:induction false} WithinOneDay(b: Bucket, times: seq<nat>)
    requires Clocked(b, times)
    requires times != [] ==> times[|times| - 1] < b.dayStart + DAY
    ensures Successes(b, times) <= b.policy.dailyMax - b.usedToday || times == []
    decreases |times|
  {
    if times != [] {
      FirstCall(b, times);
      WithinOneDay(Consume(b, times[0]).0, times[1..]);
    }
  }

  lemma {:induction false} AcrossOneReset(b: Bucket, times: seq<nat>, from: nat)
    requires Clocked(b, times)
    requires times != [] ==> from <= times[0] && times[|times| - 1] < from + DAY
    ensures times != [] ==> Successes(b, times) <= b.policy.dailyMax - b.usedToday + b.policy.dailyMax
    decreases |times|
  {
    if times != [] {
      FirstCall(b, times);
      var b' := Consume(b, times[0]).0;
      if times[0] - b.dayStart >= DAY {
        WithinOneDay(b', times[1..]);
      } else {
        AcrossOneReset(b', times[1..], from);
      }
    }
  }

  /** In any half-open 24-hour window of a run, successes are at most twice the daily
      cap, and at most the cap when the window holds no reset. */
  lemma DailyBound(b: Bucket, times: seq<nat>, i: nat, j: nat)
    requires Clocked(b, times) && i < j <= |times| && times[j - 1] - times[i] < 86_400_000_000_000
    ensures Grants(Answers(b, times)[i..j]) <= 2 * b.policy.dailyMax
    ensures times[j - 1] < After(b, times[..i]).dayStart + 86_400_000_000_000 ==>
              Grants(Answers(b, times)[i..j]) <= b.policy.dailyMax
  {
    SliceOfRun(b, times, i, j);
    ReachedAt(b, times, i, j);
    var mid, window := After(b, times[..i]), times[i..j];
    assert window[0] == times[i] && window[|window| - 1] == times[j - 1];
    AcrossOneReset(mid, window, times[i]);
    if times[j - 1] < mid.dayStart + DAY { WithinOneDay(mid, window); }
  }

  /** The cap over one window of one run, as its documentation's sliding day would have it. */
  ghost predicate SlidingDayHolds(b: Bucket, times: seq<nat>, i: nat, j: nat) {
    Clocked(b, times) && i < j <= |times| && times[j - 1] - times[i] < 86_400_000_000_000 ==>
      Grants(Answers(b, times)[i..j]) <= b.policy.dailyMax
  }

  lemma {:induction false} DayStartGrows(b: Bucket, times: seq<nat>)
    requires Clocked(b, times)
    ensures After(b, times).dayStart >= b.dayStart
    decreases |times|
  {
    if times != [] {
      FirstCall(b, times);
      DayStartGrows(Consume(b, times[0]).0, times[1..]);
    }
  }

  /** n calls, one every r. */
  function Paced(t: nat, r: nat, n: nat): (times: seq<nat>)
    ensures |times| == n
    decreases n
  {
    if n == 0 then [] else [t] + Paced(t + r, r, n - 1)
  }

  /** n steps of r after t. */
  function Later(t: nat, r: nat, n: nat): (u: nat)
    ensures u >= t
    decreases n
  {
    if n == 0 then t else Later(t + r, r, n - 1)
  }

  lemma {:induction false} LaterIs(t: nat, r: nat, n: nat)
    ensures Later(t, r, n) == t + n * r
    decreases n
  {
    if n > 0 {
      LaterIs(t + r, r, n - 1);
      assert r + (n - 1) * r == n * r;
    }
  }

  lemma {:induction false} PacedAt(t: nat, r: nat, n: nat, k: nat)
    requires k < n
    ensures Paced(t, r, n)[k] == Later(t, r, k)
    decreases k
  {
    if k > 0 { PacedAt(t + r, r, n - 1, k - 1); }
  }

  lemma {:induction false} PacedJoin(t: nat, r: nat, m: nat, n: nat)
    ensures Paced(t, r, m) + Paced(Later(t, r, m), r, n) == Paced(t, r, m + n)
    decreases m
  {
    if m == 0 {
      assert [] + Paced(t, r, n) == Paced(t, r, n);
    } else {
      PacedJoin(t + r, r, m - 1, n);
      var near, far := Paced(t + r, r, m - 1), Paced(Later(t, r, m), r, n);
      assert [t] + (near + far) == ([t] + near) + far;
    }
  }

  /** A call now finds a token, and the sum of tokens and refill does not wrap. */
  ghost predicate Ready(b: Bucket, now: nat) {
    At(b, now) && 1 <= b.tokens + Accrued(b, now) < U32 && b.policy.burst >= 1 && b.policy.refillEvery > 0
  }

  lemma OneInterval(gap: nat, r: nat)
    requires 0 < r <= gap < 2 * r
    ensures gap / r == 1
  {
    DivShift(gap, r, 1, gap - r);
    assert (gap - r) / r == 0;
  }

  lemma ReadyGranted(b: Bucket, now: nat)
    requires Ready(b, now) && Rollover(b, now).usedToday < b.policy.dailyMax
    ensures var (b', a) := Consume(b, now);
            && a.Granted? && b'.policy == b.policy && b'.tokens < b.policy.burst
            && b'.lastRefill <= now < b'.lastRefill + b.policy.refillEvery
            && b'.usedToday == Rollover(b, now).usedToday + 1 && b'.dayStart == Rollover(b, now).dayStart
  {
    RefillCatchesUpIff(Rollover(b, now), now);
  }

  /** A granted call leaves the bucket ready for the next one interval later. */
  lemma ReadyCall(b: Bucket, now: nat)
    requires Ready(b, now) && Rollover(b, now).usedToday < b.policy.dailyMax
    ensures var (b', a) := Consume(b, now);
            && a.Granted? && Ready(b', now + b.policy.refillEvery) && b'.policy == b.policy
            && b'.usedToday == Rollover(b, now).usedToday + 1 && b'.dayStart == Rollover(b, now).dayStart
  {
    ReadyGranted(b, now);
    StepKeepsAt(b, now);
    OneInterval(now + b.policy.refillEvery - Consume(b, now).0.lastRefill, b.policy.refillEvery);
  }

  lemma PacedCons(b: Bucket, t: nat, r: nat, n: nat)
    requires n > 0 && Consume(b, t).1.Granted?
    ensures var b', later := Consume(b, t).0, Paced(t + r, r, n - 1);
            && Successes(b, Paced(t, r, n)) == 1 + Successes(b', later)
            && After(b, Paced(t, r, n)) == After(b', later)
  {
    assert Paced(t, r, n)[1..] == Paced(t + r, r, n - 1);
    GrantsCons(b, Paced(t, r, n));
  }

  lemma NextSameDay(b: Bucket, t: nat, r: nat, n: nat)
    requires n > 1 && Later(t, r, n - 1) < b.dayStart + DAY
    ensures Rollover(b, t + r) == b && Later(t + r, r, n - 2) == Later(t, r, n - 1)
  {
  }

  /** n paced calls are all granted and leave the bucket ready for the next. */
  ghost predicate AllPacedGranted(b: Bucket, t: nat, n: nat) {
    var r := b.policy.refillEvery;
    var b' := After(b, Paced(t, r, n));
    && Successes(b, Paced(t, r, n)) == n
    && Ready(b', Later(t, r, n)) && b'.policy == b.policy
    && (n > 0 ==> b'.dayStart == Rollover(b, t).dayStart)
  }

  lemma OneMorePaced(b: Bucket, t: nat, n: nat, b': Bucket)
    requires n > 0 && Consume(b, t) == (b', Granted) && b'.policy == b.policy
    requires AllPacedGranted(b', t + b.policy.refillEvery, n - 1)
    requires b'.dayStart == Rollover(b, t).dayStart
    requires n > 1 ==> Rollover(b', t + b.policy.refillEvery) == b'
    ensures AllPacedGranted(b, t, n)
  {
    PacedCons(b, t, b.policy.refillEvery, n);
    if n == 1 { NothingPaced(b', t + b.policy.refillEvery); }
  }

  /** Paced calls within one day and within the cap are all granted. */
  lemma {:induction false} PacedGranted(b: Bucket, t: nat, n: nat)
    requires Ready(b, t) && Rollover(b, t).usedToday + n <= b.policy.dailyMax
    requires n > 0 ==> Later(t, b.policy.refillEvery, n - 1) < Rollover(b, t).dayStart + DAY
    ensures AllPacedGranted(b, t, n)
    decreases n
  {
    if n == 0 {
      NothingPaced(b, t);
    } else {
      var r, b' := b.policy.refillEvery, Consume(b, t).0;
      ReadyCall(b, t);
      if n == 1 {
        NothingPaced(b', t + r);
      } else {
        NextSameDay(b', t, r, n);
        PacedGranted(b', t + r, n - 1);
      }
      OneMorePaced(b, t, n, b');
    }
  }

  lemma NothingPaced(b: Bucket, t: nat)
    requires Ready(b, t)
    ensures Successes(b, Paced(t, b.policy.refillEvery, 0)) == 0 && After(b, Paced(t, b.policy.refillEvery, 0)) == b
    ensures Later(t, b.policy.refillEvery, 0) == t
    ensures AllPacedGranted(b, t, 0)
  {
  }

  /** What every default policy meets: the whole day's cap can be spent within a day, and a
      day's refill does not wrap. */
  predicate Spendable(p: Policy) {
    && p.burst >= 1 && p.refillEvery > 0 && p.dailyMax >= 1
    && p.dailyMax * p.refillEvery < DAY && p.burst + DAY / p.refillEvery < U32
  }

  /** Calls paced across the reset, `early` of them before it. */
  function AcrossReset(p: Policy, start: nat, early: nat, late: nat): seq<nat>
    requires early * p.refillEvery <= DAY
  {
    Paced(start + DAY - early * p.refillEvery, p.refillEvery, early + late)
  }

  /** All of them are granted, up to a full cap on either side. */
  lemma AllGrantedAcrossReset(p: Policy, start: nat, late: nat)
    requires Spendable(p) && late <= p.dailyMax
    ensures Successes(Fresh(p, start), AcrossReset(p, start, p.dailyMax, late)) == p.dailyMax + late
  {
    var t := start + DAY - p.dailyMax * p.refillEvery;
    EarlyGranted(p, start, t);
    if late > 0 { CapWithinDay(p, Later(t, p.refillEvery, p.dailyMax), late); }
    LateGranted(Fresh(p, start), t, p.dailyMax, late);
  }

  lemma AcrossResetClocked(p: Policy, start: nat, late: nat)
    requires Spendable(p)
    ensures Clocked(Fresh(p, start), AcrossReset(p, start, p.dailyMax, late))
  {
    var t := start + DAY - p.dailyMax * p.refillEvery;
    EarlyGranted(p, start, t);
    PacedClocked(Fresh(p, start), t, p.dailyMax + late);
  }

  lemma CapWithinDay(p: Policy, t: nat, n: nat)
    requires Spendable(p) && 0 < n <= p.dailyMax
    ensures Later(t, p.refillEvery, n - 1) < t + DAY
  {
    LaterIs(t, p.refillEvery, n - 1);
    MulMono(p.refillEvery, n - 1, p.dailyMax);
  }

  /** The first half, ending one interval before the reset. */
  lemma EarlyGranted(p: Policy, start: nat, t: nat)
    requires Spendable(p) && t == start + DAY - p.dailyMax * p.refillEvery
    ensures var mid := After(Fresh(p, start), Paced(t, p.refillEvery, p.dailyMax));
            var reset := Later(t, p.refillEvery, p.dailyMax);
            && reset == start + DAY == mid.dayStart + DAY && At(Fresh(p, start), t)
            && Successes(Fresh(p, start), Paced(t, p.refillEvery, p.dailyMax)) == p.dailyMax
            && Ready(mid, reset) && mid.policy == p
  {
    var r, n := p.refillEvery, p.dailyMax;
    assert n * r >= 0;
    FreshIsReady(p, start, t);
    LaterIs(t, r, n);
    LaterIs(t, r, n - 1);
    assert (n - 1) * r == n * r - r;
    PacedGranted(Fresh(p, start), t, n);
  }

  /** The second half, after the reset. */
  lemma LateGranted(b: Bucket, t: nat, n: nat, late: nat)
    requires b.policy.refillEvery > 0 && At(b, t)
    requires var r := b.policy.refillEvery;
             var mid := After(b, Paced(t, r, n));
             && Successes(b, Paced(t, r, n)) == n && mid.policy == b.policy
             && Ready(mid, Later(t, r, n)) && Later(t, r, n) >= mid.dayStart + DAY
             && late <= b.policy.dailyMax && (late > 0 ==> Later(Later(t, r, n), r, late - 1) < Later(t, r, n) + DAY)
    ensures Successes(b, Paced(t, b.policy.refillEvery, n + late)) == n + late
  {
    var r := b.policy.refillEvery;
    var mid, u := After(b, Paced(t, r, n)), Later(t, r, n);
    PacedGranted(mid, u, late);
    PacedJoin(t, r, n, late);
    RunConcat(b, Paced(t, r, n), Paced(u, r, late));
    GrantsConcat(Answers(b, Paced(t, r, n)), Answers(mid, Paced(u, r, late)));
  }

  lemma FreshIsReady(p: Policy, start: nat, t: nat)
    requires Spendable(p) && start <= t <= start + DAY
    ensures Ready(Fresh(p, start), t)
  {
    DivMono(t - start, DAY, p.refillEvery);
    assert DAY / p.refillEvery >= 0;
  }

  lemma PacedClocked(b: Bucket, t: nat, n: nat)
    requires At(b, t)
    ensures Clocked(b, Paced(t, b.policy.refillEvery, n))
  {
    var r, times := b.policy.refillEvery, Paced(t, b.policy.refillEvery, n);
    forall i, j | 0 <= i < j < n ensures times[i] <= times[j] {
      PacedAt(t, r, n, i);
      PacedAt(t, r, n, j);
      LaterIs(t, r, i);
      LaterIs(t, r, j);
      MulMono(r, i, j);
    }
  }

  lemma {:induction false} GrantsConcat(x: seq<Answer>, y: seq<Answer>)
    ensures Grants(x + y) == Grants(x) + Grants(y)
  {
    if x == [] {
      assert x + y == y;
    } else {
      assert (x + y)[1..] == x[1..] + y;
      GrantsConcat(x[1..], y);
    }
  }

  lemma FirstDayHolds(p: Policy, start: nat, end: nat, times: seq<nat>, i: nat, j: nat)
    requires end < start + DAY && EndsBy(times, end)
    ensures SlidingDayHolds(Fresh(p, start), times, i, j)
  {
    var b := Fresh(p, start);
    if Clocked(b, times) && i < j <= |times| && times[j - 1] - times[i] < DAY {
      assert times[j - 1] <= times[|times| - 1];
      DailyBound(b, times, i, j);
      DayStartGrows(b, times[..i]);
    }
  }

  /** A full cap before the reset and one call at it. */
  lemma ResetBreaks(p: Policy, start: nat)
    requires Spendable(p)
    ensures var times := AcrossReset(p, start, p.dailyMax, 1);
            && times[p.dailyMax] == start + DAY && !SlidingDayHolds(Fresh(p, start), times, 0, |times|)
  {
    var n, r := p.dailyMax, p.refillEvery;
    var times := AcrossReset(p, start, n, 1);
    var t := start + DAY - n * r;
    AllGrantedAcrossReset(p, start, 1);
    AcrossResetClocked(p, start, 1);
    PacedAt(t, r, n + 1, n);
    PacedAt(t, r, n + 1, 0);
    LaterIs(t, r, n);
    assert Answers(Fresh(p, start), times)[0..n + 1] == Answers(Fresh(p, start), times);
  }

  /** The exact condition: every run of a fresh bucket that ends by `end` keeps every window
      shorter than 24 h within the cap, if and only if `end` comes before the first reset. */
  lemma SlidingDayIff(p: Policy, start: nat, end: nat)
    requires Spendable(p) && start <= end
    ensures (forall times: seq<nat>, i: nat, j: nat | EndsBy(times, end) ::
               SlidingDayHolds(Fresh(p, start), times, i, j))
            <==> end < start + 86_400_000_000_000
  {
    if end < start + DAY {
      forall times: seq<nat>, i: nat, j: nat | EndsBy(times, end)
        ensures SlidingDayHolds(Fresh(p, start), times, i, j)
      {
        FirstDayHolds(p, start, end, times, i, j);
      }
    } else {
      ResetBreaks(p, start);
      assert EndsBy(AcrossReset(p, start, p.dailyMax, 1), end);
    }
  }

  /** The factor two is reached by every such policy: twice the cap, in a window as long as it
      takes to spend it. */
  lemma DailyCapDoublesAcrossReset(p: Policy, start: nat)
    requires Spendable(p)
    ensures var times := AcrossReset(p, start, p.dailyMax, p.dailyMax);
            && Clocked(Fresh(p, start), times) && |times| == 2 * p.dailyMax
            && Successes(Fresh(p, start), times) == 2 * p.dailyMax
            && times[|times| - 1] - times[0] == (2 * p.dailyMax - 1) * p.refillEvery
  {
    var n, r := p.dailyMax, p.refillEvery;
    AllGrantedAcrossReset(p, start, n);
    AcrossResetClocked(p, start, n);
    PacedAt(start + DAY - n * r, r, 2 * n, 0);
    PacedAt(start + DAY - n * r, r, 2 * n, 2 * n - 1);
    LaterIs(start + DAY - n * r, r, 2 * n - 1);
  }

  // ---- Retry time ----

  /** A bucket that has run dry within its daily cap. */
  predicate Dry(b: Bucket) {
    b.tokens == 0 && b.usedToday < b.policy.dailyMax
  }

  /** A dry bucket grants from one interval after its last refill on, and until then
      stays dry with the same last refill. */
  lemma DryCall(b: Bucket, now: nat)
    requires At(b, now) && Dry(b) && b.policy.burst >= 1 && b.policy.refillEvery > 0
    ensures var (b', a) := Consume(b, now);
            && (a.Granted? <==> now >= b.lastRefill + b.policy.refillEvery)
            && (!a.Granted? ==> b' == Rollover(b, now) && Dry(b') && b'.lastRefill == b.lastRefill
                                && a == BucketEmpty(b.lastRefill + b.policy.refillEvery - now))
  {
    var r := b.policy.refillEvery;
    AccruedBounds(b, now);
    assert Accrued(Rollover(b, now), now) == Accrued(b, now);
    if Accrued(b, now) >= 1 { MulMono(r, 1, Accrued(b, now)); }
  }

  lemma {:induction false} RefusedStaysDry(b: Bucket, times: seq<nat>)
    requires Clocked(b, times) && (times != [] ==> Dry(b)) && b.policy.burst >= 1 && b.policy.refillEvery > 0
    requires Successes(b, times) == 0
    ensures times != [] ==> Dry(After(b, times))
    ensures After(b, times).lastRefill == b.lastRefill
    decreases |times|
  {
    if times != [] {
      FirstCall(b, times);
      DryCall(b, times[0]);
      RefusedStaysDry(Consume(b, times[0]).0, times[1..]);
    }
  }

  /** `retry_after` is exact: after a refusal at `t` naming it, and any number of refused
      calls since, the call at `t'` succeeds if and only if t' >= t + retry_after. */
  lemma RetryAfterIsExact(b: Bucket, t: nat, between: seq<nat>, t': nat)
    requires At(b, t) && b.policy.burst >= 1 && b.policy.refillEvery > 0
    requires Consume(b, t).1.BucketEmpty?
    requires Nondecreasing([t] + between + [t'])
    requires Successes(Consume(b, t).0, between) == 0
    ensures Consume(After(Consume(b, t).0, between), t').1.Granted? <==> t' >= t + Consume(b, t).1.retryAfter
  {
    StepKeepsAt(b, t);
    var b1 := Consume(b, t).0;
    var all := [t] + between + [t'];
    assert forall k | 0 <= k < |between| :: between[k] == all[k + 1];
    assert all[0] == t && all[|all| - 1] == t';
    assert between != [] ==> between[|between| - 1] <= t';
    RefusedStaysDry(b1, between);
    AfterKeepsAt(b1, between, t');
    DryCall(After(b1, between), t');
  }

  /** One call is granted exactly when the cap is not used up, or the day it counts for is over,
      and a token is left or an interval has passed; as long as refilling does not wrap. */
  lemma GrantedIff(b: Bucket, now: nat)
    requires At(b, now) && b.policy.burst >= 1 && b.policy.dailyMax >= 1 && b.policy.refillEvery > 0
    requires b.tokens + (now - b.lastRefill) / b.policy.refillEvery < 4_294_967_296
    ensures Consume(b, now).1.Granted? <==>
              && (b.usedToday < b.policy.dailyMax || now - b.dayStart >= 86_400_000_000_000)
              && (b.tokens > 0 || now - b.lastRefill >= b.policy.refillEvery)
  {
    AccruedBounds(b, now);
    var accrued := Accrued(b, now);
    if accrued > 0 { MulMono(b.policy.refillEvery, 1, accrued); }
    assert accrued == 0 ==> b.policy.refillEvery * accrued == 0;
  }

  /** After a refusal for the day's cap every call is refused for it until exactly the time named,
      24 hours after the day began; the answer names the cap. */
  lemma CapAnswerIsExact(b: Bucket, t: nat, between: seq<nat>, t': nat)
    requires At(b, t) && b.policy.dailyMax >= 1 && Consume(b, t).1.DailyCapReached?
    requires t <= t' && forall k | 0 <= k < |between| :: t <= between[k] < Consume(b, t).1.resetsAt
    ensures Consume(b, t).1.capMax == b.policy.dailyMax
    ensures Consume(b, t).1.resetsAt == Rollover(b, t).dayStart + 86_400_000_000_000
    ensures Consume(After(Consume(b, t).0, between), t').1.DailyCapReached? <==> t' < Consume(b, t).1.resetsAt
  {
    CapHolds(Consume(b, t).0, between);
  }

  lemma {:induction false} CapHolds(b: Bucket, times: seq<nat>)
    requires b.usedToday >= b.policy.dailyMax
    requires forall k | 0 <= k < |times| :: b.dayStart <= times[k] < b.dayStart + DAY
    ensures After(b, times) == b
    decreases |times|
  {
    if times != [] { CapHolds(b, times[1..]); }
  }

  /** A refused call changes nothing beyond a day rollover, exactly when the `u32` sum of
      tokens and refill does not wrap. */
  lemma RefusalIsStutterIff(b: Bucket, now: nat)
    requires At(b, now) && b.policy.burst >= 1 && b.policy.refillEvery > 0
    requires !Consume(b, now).1.Granted?
    ensures Consume(b, now).1.DailyCapReached? ==> Consume(b, now).0 == Rollover(b, now)
    ensures Consume(b, now).1.BucketEmpty? ==>
              (Consume(b, now).0 == Rollover(b, now) <==> b.tokens + Min(Accrued(b, now), U32 - 1) < U32)
  {
    var refilled: nat := Min(Accrued(b, now), U32 - 1);
    assert Accrued(Rollover(b, now), now) == Accrued(b, now);
    if refilled > 0 { MulMono(b.policy.refillEvery, 1, refilled); }
  }

  // ---- The imperative bucket and the limiter ----

  lemma RefillIs(b: Bucket, now: nat, refilled: nat)
    requires refilled == Min(Accrued(b, now), U32 - 1)
    ensures Refill(b, now) ==
            if refilled > 0 then
              var tokens := Min((b.tokens + refilled) % U32, b.policy.burst);
              b.(tokens := tokens, lastRefill := b.lastRefill + b.policy.refillEvery * refilled)
            else b
  {
  }

  class TokenBucket {
    const policy: Policy
    var tokens: nat
    var lastRefill: nat
    var usedToday: nat
    var dayStart: nat

    ghost function State(): Bucket
      reads this
    {
      Bucket(policy, tokens, lastRefill, usedToday, dayStart)
    }

    constructor (policy: Policy, now: nat)
      ensures State() == Fresh(policy, now)
    {
      this.policy := policy;
      tokens, lastRefill, usedToday, dayStart := policy.burst, now, 0, now;
    }

    method TryConsume(now: nat) returns (a: Answer)
      requires At(State(), now)
      modifies this
      ensures (State(), a) == Consume(old(State()), now)
      ensures At(State(), now)
    {
      ghost var b := State();
      StepKeepsAt(b, now);
      if now - dayStart >= 24 * 3600 * 1_000_000_000 {
        dayStart := now;
        usedToday := 0;
      }
      ghost var b1 := State();
      assert b1 == Rollover(b, now);
      if usedToday >= policy.dailyMax {
        return DailyCapReached(policy.dailyMax, dayStart + DAY);
      }
      var elapsed := now - lastRefill;
      var accrued := elapsed / Max(policy.refillEvery, 1);
      assert accrued == Accrued(b1, now);
      var refilled: nat := Min(accrued, U32 - 1);
      if refilled > 0 {
        tokens := Min((tokens + refilled) % U32, policy.burst);
        lastRefill := lastRefill + policy.refillEvery * refilled;
      }
      ghost var b2 := State();
      assert b2 == Refill(b1, now) by { RefillIs(b1, now, refilled); }
      if tokens == 0 {
        return BucketEmpty(Max(0, policy.refillEvery - (now - lastRefill)));
      }
      tokens := tokens - 1;
      usedToday := usedToday + 1;
      return Granted;
    }
  }

  function DefaultFor(cap: Capability): Policy {
    match cap
    case ScreenRead => PerSecond(10, 1000)
    case ClipboardRead => PerSecond(5, 500)
    case FileRead => PerSecond(5, 500)
    case PointerMove => PerSecond(60, 10000)
    case PointerClick => PerSecond(10, 1000)
    case KeyType => PerSecond(20, 5000)
    case KeyCombo => PerSecond(10, 1000)
    case ClipboardWrite => PerSecond(2, 200)
    case FileWrite => PerMinute(10, 100)
    case OpenUrl => PerMinute(20, 200)
    case ShellExec => PerMinute(1, 30)
  }

  /** Every capability starts with a bucket the bounds above apply to. */
  lemma DefaultsStartAt(cap: Capability, now: nat)
    ensures At(Fresh(DefaultFor(cap), now), now)
    ensures DefaultFor(cap).burst >= 1 && DefaultFor(cap).refillEvery >= MILLI
  {
    var p := DefaultFor(cap);
    PolicyRates(p.burst, p.dailyMax);
  }

  /** The default policies: burst, nanoseconds per token, and daily cap. */
  lemma DefaultTable()
    ensures DefaultFor(ScreenRead) == DefaultFor(PointerClick) == DefaultFor(KeyCombo) == Policy(10, 100_000_000, 1000)
    ensures DefaultFor(ClipboardRead) == DefaultFor(FileRead) == Policy(5, 200_000_000, 500)
    ensures DefaultFor(PointerMove) == Policy(60, 17_000_000, 10_000)
    ensures DefaultFor(KeyType) == Policy(20, 50_000_000, 5000)
    ensures DefaultFor(ClipboardWrite) == Policy(2, 500_000_000, 200)
    ensures DefaultFor(FileWrite) == Policy(10, 6_000_000_000, 100)
    ensures DefaultFor(OpenUrl) == Policy(20, 3_000_000_000, 200)
    ensures DefaultFor(ShellExec) == Policy(1, 60_000_000_000, 30)
  {
  }

  /** Every default policy meets the conditions of the two exact results. */
  lemma DefaultsMeetConditions(cap: Capability)
    ensures var p := DefaultFor(cap); Spendable(p) && p.burst < U32 && p.dailyMax > 2 * p.burst
  {
    DefaultTable();
    var p := DefaultFor(cap);
    assert 17_000_000 <= p.refillEvery && p.dailyMax * p.refillEvery < DAY;
    FewIntervals(p.refillEvery);
  }

  lemma FewIntervals(r: nat)
    requires r >= 17_000_000
    ensures DAY / r <= 6_000_000
  {
    var q := DAY / r;
    assert DAY == r * q + DAY % r;
    MulMono(q, 17_000_000, r);
    assert q * r == r * q;
  }

  /** The shell, at its default of one call a minute and 30 a day: 60 calls granted within one
      hour, */
  lemma ShellExecHour()
    ensures var p := DefaultFor(ShellExec);
            var times := AcrossReset(p, 0, 30, 30);
            && Clocked(Fresh(p, 0), times) && |times| == Successes(Fresh(p, 0), times) == 60
            && times[59] - times[0] == 59 * 60 * SECOND
  {
    DefaultsMeetConditions(ShellExec);
    DailyCapDoublesAcrossReset(DefaultFor(ShellExec), 0);
  }

  /** and one pointer move more than the bound allows at one instant, less than 846 days after
      the bucket was made. */
  lemma PointerMoveFlood(p: Policy, times: seq<nat>)
    requires p == DefaultFor(PointerMove) && times == FloodRun(p, 0)
    ensures Clocked(Fresh(p, 0), times) && |times| == 2 * p.burst + 1
    ensures forall k | p.burst <= k < |times| :: times[k] == 4_294_967_296 * p.refillEvery < 846 * 86_400_000_000_000
    ensures Grants(Answers(Fresh(p, 0), times)[p.burst..]) == p.burst + 1 > p.burst + CeilDiv(0, p.refillEvery)
  {
    assert p.refillEvery == 17 * MILLI;
    DefaultsMeetConditions(PointerMove);
    ClampBreaksWindowBound(p, 0);
    var all := Answers(Fresh(p, 0), times);
    assert all[p.burst..] == all[p.burst..2 * p.burst + 1];
  }

  /** The buckets in use; a capability without one has not been asked for. */
  type Buckets = map<Capability, Bucket>

  datatype Request = Request(cap: Capability, now: nat)

  function BucketFor(m: Buckets, r: Request): Bucket {
    if r.cap in m then m[r.cap] else Fresh(DefaultFor(r.cap), r.now)
  }

  function Serve(m: Buckets, r: Request): (Buckets, Answer) {
    var (b, a) := Consume(BucketFor(m, r), r.now);
    (m[r.cap := b], a)
  }

  function ServeAll(m: Buckets, rs: seq<Request>): Buckets {
    if rs == [] then m else Serve(ServeAll(m, rs[..|rs| - 1]), rs[|rs| - 1]).0
  }

  /** The times at which `cap` was asked for. */
  function TimesOf(rs: seq<Request>, cap: Capability): seq<nat> {
    if rs == [] then []
    else TimesOf(rs[..|rs| - 1], cap) + if rs[|rs| - 1].cap == cap then [rs[|rs| - 1].now] else []
  }

  /** Capabilities do not disturb each other: after any mix of requests, each bucket is
      the one that capability's own requests alone would have left, and the next answer
      is the one it alone would have got. */
  lemma {:induction false} CapabilitiesIndependent(rs: seq<Request>, cap: Capability)
    ensures var m, times := ServeAll(map[], rs), TimesOf(rs, cap);
            && (cap in m <==> times != [])
            && (times != [] ==> m[cap] == After(Fresh(DefaultFor(cap), times[0]), times))
            && forall now: nat :: Serve(m, Request(cap, now)).1 ==
                 Consume(if times == [] then Fresh(DefaultFor(cap), now)
                         else After(Fresh(DefaultFor(cap), times[0]), times), now).1
    decreases |rs|
  {
    if rs != [] {
      var before, last := rs[..|rs| - 1], rs[|rs| - 1];
      CapabilitiesIndependent(before, cap);
      if last.cap == cap {
        var earlier := TimesOf(before, cap);
        var b := Fresh(DefaultFor(cap), if earlier == [] then last.now else earlier[0]);
        RunConcat(b, earlier, [last.now]);
        assert After(After(b, earlier), [last.now]) == Consume(After(b, earlier), last.now).0;
      } else {
        assert TimesOf(rs, cap) == TimesOf(before, cap);
      }
    }
  }

  class RateLimiter {
    var buckets: map<Capability, TokenBucket>

    ghost function Objects(): set<TokenBucket>
      reads this
    {
      set c | c in buckets :: buckets[c]
    }

    /** Each capability owns its bucket object. */
    ghost predicate Distinct()
      reads this
    {
      forall c, d | c in buckets && d in buckets && c != d :: buckets[c] != buckets[d]
    }

    ghost function State(): Buckets
      reads this, Objects()
    {
      map c | c in buckets :: buckets[c].State()
    }

    ghost predicate Valid(now: nat)
      reads this, Objects()
    {
      Distinct() && forall c | c in buckets :: At(buckets[c].State(), now)
    }

    constructor ()
      ensures State() == map[] && Distinct() && forall now: nat :: Valid(now)
    {
      buckets := map[];
    }

    method TryConsume(cap: Capability, now: nat) returns (a: Answer)
      requires Valid(now)
      modifies this, Objects()
      ensures Valid(now)
      ensures (State(), a) == Serve(old(State()), Request(cap, now))
      ensures fresh(Objects() - old(Objects()))
    {
      DefaultsStartAt(cap, now);
      ghost var before := State();
      if cap !in buckets {
        var b := new TokenBucket(DefaultFor(cap), now);
        buckets := buckets[cap := b];
      }
      var bucket := buckets[cap];
      assert bucket.State() == BucketFor(before, Request(cap, now));
      a := bucket.TryConsume(now);
      assert forall c | c in buckets && c != cap :: buckets[c].State() == before[c];
      assert State() == before[cap := bucket.State()];
    }
  }
}
