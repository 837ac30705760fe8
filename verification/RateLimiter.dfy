/** The shared token bucket (sentinel/agent/ratelimit.py), over exact reals. Every pass through
    the lock is one step; callers interleave their steps in any order. */
module RateLimiter {
  import opened Common

  /** What flows in between two times. */
  function Inflow(rate: real, from: real, to: real): real {
    (to - from) * rate
  }

  lemma {:induction false} ProductNonNegative(x: real, y: real)
    requires x >= 0.0 && y >= 0.0
    ensures x * y >= 0.0
  {}

  lemma {:induction false} InflowNonNegative(rate: real, from: real, to: real)
    requires rate > 0.0 && from <= to
    ensures Inflow(rate, from, to) >= 0.0
  {
    var d := to - from;
    ProductNonNegative(d, rate);
    assert d * rate >= 0.0;
  }

  lemma {:induction false} InflowAdds(rate: real, a: real, b: real, c: real)
    ensures Inflow(rate, a, b) + Inflow(rate, b, c) == Inflow(rate, a, c)
    ensures Inflow(rate, a, a) == 0.0
  {
    var d, e := b - a, c - b;
    assert d * rate + e * rate == (d + e) * rate;
  }

  /** The bucket between two steps. */
  datatype Bucket = Bucket(tokens: real, last: real)

  predicate Sound(capacity: real, b: Bucket) {
    0.0 <= b.tokens <= capacity
  }

  function Refill(rate: real, capacity: real, b: Bucket, now: real): real {
    MinReal(capacity, b.tokens + Inflow(rate, b.last, now))
  }

  predicate Grants(rate: real, capacity: real, b: Bucket, now: real) {
    Refill(rate, capacity, b, now) >= 1.0
  }

  /** One locked section: refill, then take a token if there is a whole one. */
  function Step(rate: real, capacity: real, b: Bucket, now: real): Bucket {
    var t := Refill(rate, capacity, b, now);
    Bucket(if t >= 1.0 then t - 1.0 else t, now)
  }

  /** How long a refused caller is told to sleep. */
  function Wait(rate: real, tokens: real): real
    requires rate > 0.0
  {
    (1.0 - tokens) / rate
  }

  // ----- any interleaving of steps, at nondecreasing times ----------------------------------

  ghost predicate Monotone(times: seq<real>) {
    forall i, j :: 0 <= i < j < |times| ==> times[i] <= times[j]
  }

  function Serve(rate: real, capacity: real, b: Bucket, times: seq<real>): Bucket {
    if times == [] then b
    else Step(rate, capacity, Serve(rate, capacity, b, times[..|times| - 1]), times[|times| - 1])
  }

  function Granted(rate: real, capacity: real, b: Bucket, times: seq<real>): nat {
    if times == [] then 0
    else
      var init := times[..|times| - 1];
      Granted(rate, capacity, b, init)
        + if Grants(rate, capacity, Serve(rate, capacity, b, init), times[|times| - 1]) then 1 else 0
  }

  lemma {:induction false} StepIsSound(rate: real, capacity: real, b: Bucket, now: real)
    requires rate > 0.0 && capacity >= 1.0 && Sound(capacity, b) && b.last <= now
    ensures Sound(capacity, Step(rate, capacity, b, now)) && Step(rate, capacity, b, now).last == now
    ensures (Step(rate, capacity, b, now).tokens + if Grants(rate, capacity, b, now) then 1.0 else 0.0)
         == Refill(rate, capacity, b, now) <= b.tokens + Inflow(rate, b.last, now)
  {
    InflowNonNegative(rate, b.last, now);
  }

  /** In every interleaving the tokens stay between nothing and capacity, and tokens plus grants
      never exceed capacity plus what has flowed in since the first step. */
  lemma {:induction false} ServeIsBounded(rate: real, capacity: real, b: Bucket, times: seq<real>)
    requires rate > 0.0 && capacity >= 1.0 && Sound(capacity, b)
    requires Monotone(times) && (times != [] ==> b.last <= times[0])
    ensures Sound(capacity, Serve(rate, capacity, b, times))
    ensures times != [] ==>
      var after := Serve(rate, capacity, b, times);
      && after.last == times[|times| - 1]
      && after.tokens + Granted(rate, capacity, b, times) as real
           <= capacity + Inflow(rate, times[0], times[|times| - 1])
  {
    if times == [] {
    } else {
      var n := |times| - 1;
      var before := Serve(rate, capacity, b, times[..n]);
      ServeIsBounded(rate, capacity, b, times[..n]);
      StepIsSound(rate, capacity, before, times[n]);
      if n > 0 {
        assert times[..n][n - 1] == times[n - 1] && times[..n][0] == times[0];
        InflowAdds(rate, times[0], times[n - 1], times[n]);
      } else {
        InflowAdds(rate, times[0], times[0], times[0]);
        assert before == b && Granted(rate, capacity, b, times[..0]) == 0;
      }
    }
  }

  /** Nothing is lost: while the bucket does not fill up, tokens plus grants are exactly what was there
      and what has flowed in. */
  lemma {:induction false} NothingIsLost(rate: real, capacity: real, b: Bucket, times: seq<real>)
    requires rate > 0.0 && capacity >= 1.0 && Sound(capacity, b)
    requires Monotone(times) && times != [] && b.last <= times[0]
    requires b.tokens + Inflow(rate, b.last, times[|times| - 1]) <= capacity
    ensures Serve(rate, capacity, b, times).tokens + Granted(rate, capacity, b, times) as real
         == b.tokens + Inflow(rate, b.last, times[|times| - 1])
  {
    var n := |times| - 1;
    var init := times[..n];
    if n == 0 {
      assert Serve(rate, capacity, b, init) == b && Granted(rate, capacity, b, init) == 0;
    } else {
      assert init[n - 1] == times[n - 1] && init[0] == times[0];
      InflowAdds(rate, b.last, times[n - 1], times[n]);
      InflowNonNegative(rate, times[n - 1], times[n]);
      NothingIsLost(rate, capacity, b, init);
      ServeIsBounded(rate, capacity, b, init);
    }
  }

  lemma {:induction false} GrantsAreBounded(rate: real, capacity: real, b: Bucket, times: seq<real>)
    requires rate > 0.0 && capacity >= 1.0 && Sound(capacity, b)
    requires Monotone(times) && times != [] && b.last <= times[0]
    ensures Granted(rate, capacity, b, times) as real <= capacity + Inflow(rate, times[0], times[|times| - 1])
  {
    ServeIsBounded(rate, capacity, b, times);
  }

  /** The bucket the i-th step finds is sound and no later than that step. */
  lemma {:induction false} FoundByStep(rate: real, capacity: real, b: Bucket, times: seq<real>, i: nat)
    requires rate > 0.0 && capacity >= 1.0 && Sound(capacity, b)
    requires Monotone(times) && i < |times| && b.last <= times[0]
    ensures var mid := Serve(rate, capacity, b, times[..i]); Sound(capacity, mid) && mid.last <= times[i]
  {
    var init := times[..i];
    assert Monotone(init);
    ServeIsBounded(rate, capacity, b, init);
    if i > 0 { assert init[i - 1] == times[i - 1] && init[0] == times[0]; }
  }

  /** Any stretch of steps, from the i-th to the j-th of any run, grants at most capacity plus
      rate times its length. */
  lemma {:induction false} EveryIntervalIsBounded(rate: real, capacity: real, b: Bucket, times: seq<real>, i: nat, j: nat)
    requires rate > 0.0 && capacity >= 1.0 && Sound(capacity, b)
    requires Monotone(times) && (times != [] ==> b.last <= times[0]) && i < j <= |times|
    ensures (Granted(rate, capacity, b, times[..j]) - Granted(rate, capacity, b, times[..i])) as real
         <= capacity + Inflow(rate, times[i], times[j - 1])
  {
    var stretch := times[i..j];
    FoundByStep(rate, capacity, b, times, i);
    ServeSplits(rate, capacity, b, times[..i], stretch);
    assert times[..i] + stretch == times[..j];
    assert stretch[0] == times[i] && stretch[|stretch| - 1] == times[j - 1];
    assert Monotone(stretch);
    GrantsAreBounded(rate, capacity, Serve(rate, capacity, b, times[..i]), stretch);
  }

  lemma {:induction false} ServeSplits(rate: real, capacity: real, b: Bucket, xs: seq<real>, ys: seq<real>)
    ensures Serve(rate, capacity, b, xs + ys) == Serve(rate, capacity, Serve(rate, capacity, b, xs), ys)
    ensures Granted(rate, capacity, b, xs + ys)
         == Granted(rate, capacity, b, xs) + Granted(rate, capacity, Serve(rate, capacity, b, xs), ys)
  {
    if ys == [] {
      assert xs + ys == xs;
    } else {
      var n := |ys| - 1;
      ServeSplits(rate, capacity, b, xs, ys[..n]);
      assert (xs + ys)[..|xs + ys| - 1] == xs + ys[..n];
    }
  }

  /** A refused caller that is left alone is served from the end of its computed wait on, and at
      no time before. */
  lemma {:induction false} WaitIsExact(rate: real, capacity: real, b: Bucket, now: real, later: real)
    requires rate > 0.0 && capacity >= 1.0 && Sound(capacity, b) && b.last <= now <= later
    requires !Grants(rate, capacity, b, now)
    ensures var refused := Step(rate, capacity, b, now);
            Grants(rate, capacity, refused, later) <==> later >= now + Wait(rate, refused.tokens)
  {
    StepIsSound(rate, capacity, b, now);
    var t := Step(rate, capacity, b, now).tokens;
    var w := Wait(rate, t);
    assert w * rate == 1.0 - t;
    InflowAdds(rate, now, now + w, later);
    assert Inflow(rate, now, now + w) == 1.0 - t by { assert (now + w) - now == w; }
    if later >= now + w {
      InflowNonNegative(rate, now + w, later);
    } else {
      InflowPositive(rate, later, now + w);
      InflowAdds(rate, now, later, now + w);
    }
  }

  lemma {:induction false} InflowPositive(rate: real, from: real, to: real)
    requires rate > 0.0 && from < to
    ensures Inflow(rate, from, to) > 0.0
  {
    var d := to - from;
    assert d * rate > 0.0;
  }

  // ----- the limiter --------------------------------------------------------------------------

  /** One step that takes a token, or one that is refused. */
  ghost predicate Served(rate: real, capacity: real, before: Bucket, after: Bucket) {
    Grants(rate, capacity, before, after.last) && after == Step(rate, capacity, before, after.last)
  }

  ghost predicate Refused(rate: real, capacity: real, before: Bucket, after: Bucket) {
    !Grants(rate, capacity, before, after.last) && after == Step(rate, capacity, before, after.last)
  }

  ghost predicate RefusedThenServed(rate: real, capacity: real, before: Bucket, after: Bucket) {
    exists mid :: Refused(rate, capacity, before, mid) && Served(rate, capacity, mid, after)
  }

  /** A monotonic clock; sleeping advances it by at least the time asked for. */
  class Clock {
    var now: real
    const drift: nat -> real   // how much extra time passes at each reading
    var readings: nat

    constructor (now: real, drift: nat -> real)
      ensures this.now == now && this.drift == drift
    {
      this.now, this.drift, readings := now, drift, 0;
    }

    method Read() returns (t: real)
      modifies this
      ensures t == now >= old(now)
    {
      var d := drift(readings);
      readings := readings + 1;
      now := now + if d >= 0.0 then d else 0.0;
      t := now;
    }

    method Sleep(d: real)
      modifies this
      ensures now >= old(now) && now >= old(now) + d
    {
      now := now + if d >= 0.0 then d else 0.0;
      var _ := Read();
    }
  }

  class Limiter {
    const rate: real
    const capacity: real
    var tokens: real
    var last: real

    ghost predicate Valid()
      reads this
    {
      capacity >= 1.0 && Sound(capacity, State())
    }

    ghost function State(): Bucket
      reads this
    {
      Bucket(tokens, last)
    }

    constructor (rate: real, burst: int, clock: Clock)
      modifies clock
      ensures Valid() && this.rate == rate && capacity == (if burst >= 1 then burst else 1) as real
      ensures State() == Bucket(capacity, clock.now)
    {
      this.rate := rate;
      capacity := (if burst >= 1 then burst else 1) as real;
      tokens := (if burst >= 1 then burst else 1) as real;
      var now := clock.Read();
      last := now;
    }

    /** The locked section. */
    method TryTake(now: real) returns (granted: bool, wait: real)
      requires Valid() && rate > 0.0 && last <= now
      modifies this
      ensures Valid() && State() == Step(rate, capacity, old(State()), now)
      ensures granted == Grants(rate, capacity, old(State()), now)
      ensures !granted ==> wait == Wait(rate, tokens)
    {
      StepIsSound(rate, capacity, State(), now);
      tokens := MinReal(capacity, tokens + Inflow(rate, last, now));
      last := now;
      if tokens >= 1.0 {
        tokens := tokens - 1.0;
        return true, 0.0;
      }
      return false, (1.0 - tokens) / rate;
    }

    /** A lone caller: served at its first try, or refused once and served after one sleep. With
        a rate of zero or less the limiter is off. */
    method Acquire(clock: Clock) returns (sleeps: nat)
      requires Valid() && last <= clock.now
      modifies this, clock
      ensures Valid()
      ensures rate <= 0.0 ==> sleeps == 0 && State() == old(State())
      ensures rate > 0.0 ==> last == clock.now && sleeps <= 1
      ensures rate > 0.0 && sleeps == 0 ==> Served(rate, capacity, old(State()), State())
      ensures rate > 0.0 && sleeps == 1 ==> RefusedThenServed(rate, capacity, old(State()), State())
    {
      sleeps := 0;
      if rate <= 0.0 { return; }
      while true
        invariant Valid() && last <= clock.now && sleeps <= 1
        invariant sleeps == 0 ==> State() == old(State())
        invariant sleeps == 1 ==> Refused(rate, capacity, old(State()), State())
        invariant sleeps == 1 ==> Grants(rate, capacity, State(), clock.now)
        decreases 1 - sleeps
      {
        ghost var before, awake := State(), clock.now;
        var now := clock.Read();
        if sleeps == 1 { LaterIsNoWorse(rate, capacity, before, awake, now); }
        var granted, wait := TryTake(now);
        if granted { return; }
        clock.Sleep(wait);
        WaitIsExact(rate, capacity, before, now, clock.now);
        sleeps := sleeps + 1;
      }
    }
  }

  lemma {:induction false} LaterIsNoWorse(rate: real, capacity: real, b: Bucket, t: real, u: real)
    requires rate > 0.0 && t <= u && Grants(rate, capacity, b, t)
    ensures Grants(rate, capacity, b, u)
  {
    InflowNonNegative(rate, t, u);
    InflowAdds(rate, b.last, t, u);
  }
}
