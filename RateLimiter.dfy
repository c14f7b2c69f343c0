/** The shared token bucket that spaces requests. Time is an explicit clock
    reading (seconds) and sleeping is recorded as the requested amount; the lock is
    left out (one thread). Arithmetic is exact (`real`). */
module RateLimiter {

  function Min(a: real, b: real): real { if a <= b then a else b }
  function Max(a: real, b: real): real { if a >= b then a else b }

  /** The shortest re-check wait, in seconds. */
  const MinWait: real := 0.01

  /** The mutable part of a bucket. */
  datatype Bucket = Bucket(tokens: real, last: real)

  /** The outcome of one locked check: the new bucket, whether a token was taken
      and, if not, how long to sleep before checking again. */
  datatype Check = Check(next: Bucket, granted: bool, wait: real)

  /** The tokens earned over `dt` seconds at `rate` per second. */
  function Earned(rate: real, dt: real): real {
    dt * rate
  }

  lemma EarnedNonNegative(rate: real, dt: real)
    requires rate >= 0.0 && dt >= 0.0
    ensures Earned(rate, dt) >= 0.0
  {
  }

  lemma EarnedAdd(rate: real, dt1: real, dt2: real)
    ensures Earned(rate, dt1) + Earned(rate, dt2) == Earned(rate, dt1 + dt2)
  {
  }

  /** The tokens after refilling at `now`: what was there plus the time since `last`
      at `rate`, never above the capacity. */
  function Refill(b: Bucket, rate: real, capacity: real, now: real): real {
    Min(capacity, b.tokens + Earned(rate, now - b.last))
  }

  /** One pass of the `acquire` loop body as written: a refill of at least one
      token grants and moves `last`; otherwise the refilled amount is stored but
      `last` stays where it was. */
  function Step(b: Bucket, rate: real, capacity: real, now: real): (c: Check)
    requires rate > 0.0
    ensures c.granted <==> Refill(b, rate, capacity, now) >= 1.0
    ensures c.granted ==> c.next == Bucket(Refill(b, rate, capacity, now) - 1.0, now)
    ensures !c.granted ==> c.next == Bucket(Refill(b, rate, capacity, now), b.last)
    ensures !c.granted ==> c.wait >= MinWait
  {
    var t := Refill(b, rate, capacity, now);
    if t >= 1.0 then Check(Bucket(t - 1.0, now), true, 0.0)
    else Check(Bucket(t, b.last), false, Max((1.0 - t) / rate, MinWait))
  }

  /** A bucket whose tokens lie between zero and the capacity. */
  predicate InRange(b: Bucket, capacity: real) {
    0.0 <= b.tokens <= capacity
  }

  /** Checking at a time not before `last` keeps the tokens between zero and the
      capacity, and never moves `last` backwards. */
  lemma StepInRange(b: Bucket, rate: real, capacity: real, now: real)
    requires rate > 0.0 && InRange(b, capacity) && now >= b.last
    ensures var c := Step(b, rate, capacity, now);
      InRange(c.next, capacity) && b.last <= c.next.last <= now
  {
    EarnedNonNegative(rate, now - b.last);
  }

  /** A full bucket with a capacity of at least one grants the first check. */
  lemma FullBucketGrants(capacity: real, rate: real, start: real, now: real)
    requires rate > 0.0 && capacity >= 1.0 && now >= start
    ensures Step(Bucket(capacity, start), rate, capacity, now).granted
  {
    EarnedNonNegative(rate, now - start);
  }

  /** A failed check's wait is long enough to earn the missing part of a token
      (it is that time, or the minimum wait if that is longer), and positive. */
  lemma WaitEarnsToken(b: Bucket, rate: real, capacity: real, now: real)
    requires rate > 0.0 && !Step(b, rate, capacity, now).granted
    ensures var c := Step(b, rate, capacity, now);
      c.wait > 0.0 && Earned(rate, c.wait) >= 1.0 - c.next.tokens
  {
    var c := Step(b, rate, capacity, now);
    var needed := 1.0 - c.next.tokens;
    assert needed > 0.0;
    assert c.wait >= needed / rate;
    assert (needed / rate) * rate == needed;
  }

  /** What one `acquire` call comes to: the final bucket, whether a token was
      granted and the waits requested before each re-check. */
  datatype Attempt = Attempt(bucket: Bucket, granted: bool, waits: seq<real>)

  /** The checks of one `acquire` call at successive clock readings, stopping at
      the first grant. */
  function Acquiring(b: Bucket, rate: real, capacity: real, clock: seq<real>): (r: Attempt)
    requires rate > 0.0
    ensures |r.waits| <= |clock|
    ensures forall k :: 0 <= k < |r.waits| ==> r.waits[k] >= MinWait
    decreases |clock|
  {
    if clock == [] then Attempt(b, false, [])
    else
      var c := Step(b, rate, capacity, clock[0]);
      if c.granted then Attempt(c.next, true, [])
      else
        var rest := Acquiring(c.next, rate, capacity, clock[1..]);
        Attempt(rest.bucket, rest.granted, [c.wait] + rest.waits)
  }

  /** Clock readings that never go backwards and start no earlier than `from`. */
  predicate Monotone(clock: seq<real>, from: real) {
    (forall k :: 0 <= k < |clock| ==> from <= clock[k])
    && forall j, k :: 0 <= j < k < |clock| ==> clock[j] <= clock[k]
  }

  /** A grant comes after exactly as many failed checks as waits were requested,
      and without a grant every reading was used. */
  lemma {:induction false} AcquiringCounts(b: Bucket, rate: real, capacity: real, clock: seq<real>)
    requires rate > 0.0
    ensures var r := Acquiring(b, rate, capacity, clock);
      (r.granted ==> |r.waits| < |clock|) && (!r.granted ==> |r.waits| == |clock|)
    decreases |clock|
  {
    if clock != [] && !Step(b, rate, capacity, clock[0]).granted {
      AcquiringCounts(Step(b, rate, capacity, clock[0]).next, rate, capacity, clock[1..]);
    }
  }

  /** The as-written refill counts time already credited: after a failed check
      the next one adds the whole time since the last grant again. With rate 1 and
      burst 2, checks at 0, 0, 0.5, 1 and 1.5 seconds are all granted except the
      one at 0.5, so four tokens go out in 1.5 seconds, more than the 3.5 that
      burst + rate * time allows. */
  function Grants(b: Bucket, rate: real, capacity: real, times: seq<real>): nat
    requires rate > 0.0
    decreases |times|
  {
    if times == [] then 0
    else
      var c := Step(b, rate, capacity, times[0]);
      (if c.granted then 1 else 0) + Grants(c.next, rate, capacity, times[1..])
  }

  /** The count after a first check is that check's grant plus the count of the
      rest from the bucket it leaves. */
  lemma GrantsCons(b: Bucket, rate: real, capacity: real, t: real, rest: seq<real>)
    requires rate > 0.0
    ensures var c := Step(b, rate, capacity, t);
      Grants(b, rate, capacity, [t] + rest) == (if c.granted then 1 else 0) + Grants(c.next, rate, capacity, rest)
  {
    assert ([t] + rest)[1..] == rest;
  }

  /** The five checks of the example, one at a time: the bucket each leaves and
      whether it granted. */
  lemma ExampleStep(b: Bucket, now: real, next: Bucket, granted: bool)
    requires granted <==> Refill(b, 1.0, 2.0, now) >= 1.0
    requires Refill(b, 1.0, 2.0, now) == next.tokens + (if granted then 1.0 else 0.0)
    requires next.last == if granted then now else b.last
    ensures Step(b, 1.0, 2.0, now).next == next && Step(b, 1.0, 2.0, now).granted == granted
  {
  }

  lemma ExampleRefills()
    ensures Refill(Bucket(2.0, 0.0), 1.0, 2.0, 0.0) == 2.0
    ensures Refill(Bucket(1.0, 0.0), 1.0, 2.0, 0.0) == 1.0
  {
  }

  lemma ExampleFailedCheck()
    ensures Refill(Bucket(0.0, 0.0), 1.0, 2.0, 0.5) == 0.5
  {
  }

  lemma ExampleRecredit()
    ensures Refill(Bucket(0.5, 0.0), 1.0, 2.0, 1.0) == 1.5
    ensures Refill(Bucket(0.5, 1.0), 1.0, 2.0, 1.5) == 1.0
  {
  }

  /** The example counted from its end: the grants of the last one, two, three
      and four checks, each from the bucket the check before it leaves. */
  lemma ExampleLastOne()
    ensures Grants(Bucket(0.5, 1.0), 1.0, 2.0, [1.5]) == 1
  {
    var c := Step(Bucket(0.5, 1.0), 1.0, 2.0, 1.5);
    assert c.granted by {
      ExampleRecredit();
      ExampleStep(Bucket(0.5, 1.0), 1.5, Bucket(0.0, 1.5), true);
    }
    assert Grants(c.next, 1.0, 2.0, []) == 0;
    GrantsCons(Bucket(0.5, 1.0), 1.0, 2.0, 1.5, []);
    assert [1.5] + [] == [1.5];
  }

  lemma ExampleLastTwo()
    ensures Grants(Bucket(0.5, 0.0), 1.0, 2.0, [1.0] + [1.5]) == 2
  {
    var c := Step(Bucket(0.5, 0.0), 1.0, 2.0, 1.0);
    assert c.granted && c.next == Bucket(0.5, 1.0) by {
      ExampleRecredit();
      ExampleStep(Bucket(0.5, 0.0), 1.0, Bucket(0.5, 1.0), true);
    }
    GrantsCons(Bucket(0.5, 0.0), 1.0, 2.0, 1.0, [1.5]);
    ExampleLastOne();
  }

  lemma ExampleLastThree()
    ensures Grants(Bucket(0.0, 0.0), 1.0, 2.0, [0.5] + ([1.0] + [1.5])) == 2
  {
    ExampleFailedCheck();
    ExampleStep(Bucket(0.0, 0.0), 0.5, Bucket(0.5, 0.0), false);
    GrantsCons(Bucket(0.0, 0.0), 1.0, 2.0, 0.5, [1.0] + [1.5]);
    ExampleLastTwo();
  }

  lemma ExampleLastFour()
    ensures Grants(Bucket(1.0, 0.0), 1.0, 2.0, [0.0] + ([0.5] + ([1.0] + [1.5]))) == 3
  {
    ExampleRefills();
    ExampleStep(Bucket(1.0, 0.0), 0.0, Bucket(0.0, 0.0), true);
    GrantsCons(Bucket(1.0, 0.0), 1.0, 2.0, 0.0, [0.5] + ([1.0] + [1.5]));
    ExampleLastThree();
  }

  lemma AsWrittenOverGrants()
    ensures Grants(Bucket(2.0, 0.0), 1.0, 2.0, [0.0] + ([0.0] + ([0.5] + ([1.0] + [1.5])))) == 4
    ensures 4.0 > 2.0 + 1.0 * 1.5
  {
    ExampleRefills();
    ExampleStep(Bucket(2.0, 0.0), 0.0, Bucket(1.0, 0.0), true);
    GrantsCons(Bucket(2.0, 0.0), 1.0, 2.0, 0.0, [0.0] + ([0.5] + ([1.0] + [1.5])));
    ExampleLastFour();
  }

  /** The intended check: every refill moves `last` to the time it counted up to,
      so no interval is credited twice. */
  function StepCorrected(b: Bucket, rate: real, capacity: real, now: real): (c: Check)
    requires rate > 0.0
    ensures c.granted <==> Refill(b, rate, capacity, now) >= 1.0
    ensures c.next.last == now
    ensures c.next.tokens == Refill(b, rate, capacity, now) - (if c.granted then 1.0 else 0.0)
  {
    var t := Refill(b, rate, capacity, now);
    if t >= 1.0 then Check(Bucket(t - 1.0, now), true, 0.0)
    else Check(Bucket(t, now), false, Max((1.0 - t) / rate, MinWait))
  }

  function GrantsCorrected(b: Bucket, rate: real, capacity: real, times: seq<real>): nat
    requires rate > 0.0
    decreases |times|
  {
    if times == [] then 0
    else
      var c := StepCorrected(b, rate, capacity, times[0]);
      (if c.granted then 1 else 0) + GrantsCorrected(c.next, rate, capacity, times[1..])
  }

  /** One corrected check keeps the tokens in range and hands out no more than it
      earned: the grant plus the tokens left are at most the tokens before plus the
      rate times the time since `last`. */
  lemma CorrectedStepBound(b: Bucket, rate: real, capacity: real, now: real)
    requires rate > 0.0 && InRange(b, capacity) && now >= b.last
    ensures var c := StepCorrected(b, rate, capacity, now);
      InRange(c.next, capacity)
      && c.next.tokens + (if c.granted then 1.0 else 0.0) <= b.tokens + Earned(rate, now - b.last)
  {
    EarnedNonNegative(rate, now - b.last);
  }

  /** Dropping the first reading keeps the readings monotone, from the old lower
      bound and from the dropped reading. */
  lemma MonotoneDrop(clock: seq<real>, from: real)
    requires Monotone(clock, from) && clock != []
    ensures Monotone(clock[1..], from) && Monotone(clock[1..], clock[0])
  {
    var rest := clock[1..];
    forall k | 0 <= k < |rest|
      ensures from <= rest[k] && clock[0] <= rest[k]
    {
      assert rest[k] == clock[k + 1];
    }
    forall j, k | 0 <= j < k < |rest|
      ensures rest[j] <= rest[k]
    {
      assert rest[j] == clock[j + 1] && rest[k] == clock[k + 1];
    }
  }

  /** With the corrected refill, the grants over checks at non-decreasing times,
      plus the tokens left, never exceed the tokens at the start plus the rate
      times the time since `last`. */
  lemma {:induction false} CorrectedGrantBound(b: Bucket, rate: real, capacity: real, times: seq<real>)
    requires rate > 0.0 && InRange(b, capacity) && times != [] && Monotone(times, b.last)
    ensures (GrantsCorrected(b, rate, capacity, times) as real) <= b.tokens + Earned(rate, times[|times| - 1] - b.last)
    decreases |times|
  {
    var c := StepCorrected(b, rate, capacity, times[0]);
    CorrectedStepBound(b, rate, capacity, times[0]);
    var g := if c.granted then 1.0 else 0.0;
    var total := GrantsCorrected(b, rate, capacity, times);
    var later := GrantsCorrected(c.next, rate, capacity, times[1..]);
    assert total as real == g + later as real;
    var e0 := Earned(rate, times[0] - b.last);
    assert c.next.tokens + g <= b.tokens + e0;
    if |times| > 1 {
      var rest := times[1..];
      MonotoneDrop(times, b.last);
      assert c.next.last == times[0];
      CorrectedGrantBound(c.next, rate, capacity, rest);
      var tn := times[|times| - 1];
      assert rest[|rest| - 1] == tn;
      var e1 := Earned(rate, tn - times[0]);
      assert later as real <= c.next.tokens + e1;
      EarnedAdd(rate, times[0] - b.last, tn - times[0]);
    } else {
      assert times[1..] == [];
      assert later == 0;
    }
  }

  /** Starting full, the corrected bucket grants at most burst + rate * elapsed
      tokens over any run of checks. */
  lemma CorrectedRateBound(burst: real, rate: real, start: real, times: seq<real>)
    requires rate > 0.0 && burst >= 0.0 && times != [] && Monotone(times, start)
    ensures (GrantsCorrected(Bucket(burst, start), rate, burst, times) as real) <= burst + Earned(rate, times[|times| - 1] - start)
  {
    CorrectedGrantBound(Bucket(burst, start), rate, burst, times);
  }

  /** An attempt `whole` that, after the waits `sofar`, goes on as `rest`. */
  predicate Continues(whole: Attempt, rest: Attempt, sofar: seq<real>) {
    whole.bucket == rest.bucket && whole.granted == rest.granted && whole.waits == sofar + rest.waits
  }

  /** The attempt from reading `i` on, in terms of the check at reading `i`. */
  lemma AcquiringFirst(b: Bucket, rate: real, capacity: real, clock: seq<real>, i: nat)
    requires rate > 0.0 && i < |clock|
    ensures var c := Step(b, rate, capacity, clock[i]);
      var a := Acquiring(b, rate, capacity, clock[i..]);
      var more := Acquiring(c.next, rate, capacity, clock[i + 1..]);
      (c.granted ==> a == Attempt(c.next, true, []))
      && (!c.granted ==> a == Attempt(more.bucket, more.granted, [c.wait] + more.waits))
  {
    assert clock[i..][0] == clock[i];
    assert clock[i..][1..] == clock[i + 1..];
  }

  lemma ContinuesWait(whole: Attempt, a: Attempt, more: Attempt, sofar: seq<real>, wait: real)
    requires Continues(whole, a, sofar)
    requires a == Attempt(more.bucket, more.granted, [wait] + more.waits)
    ensures Continues(whole, more, sofar + [wait])
  {
    assert sofar + ([wait] + more.waits) == (sofar + [wait]) + more.waits;
  }

  /** `TokenBucket`. */
  class TokenBucket {
    const rate: real
    const capacity: real
    const jitterMs: int
    var tokens: real
    var last: real

    predicate Valid()
      reads this
    {
      rate > 0.0 && InRange(Bucket(tokens, last), capacity)
    }

    function State(): Bucket
      reads this
    {
      Bucket(tokens, last)
    }

    /** A bucket that starts full, at clock reading `now`. */
    constructor(ratePerSec: real, burst: nat, jitterMs: int, now: real)
      requires ratePerSec > 0.0
      ensures Valid()
      ensures rate == ratePerSec && capacity == burst as real && this.jitterMs == jitterMs
      ensures tokens == burst as real && last == now
    {
      rate := ratePerSec;
      capacity := burst as real;
      this.jitterMs := jitterMs;
      tokens := burst as real;
      last := now;
    }

    /** One locked check at clock reading `now`. */
    method Check(now: real) returns (granted: bool, wait: real)
      requires Valid() && now >= last
      modifies this
      ensures Valid()
      ensures var c := Step(old(State()), rate, capacity, now);
        State() == c.next && granted == c.granted && (!granted ==> wait == c.wait)
    {
      var elapsed := now - last;
      StepInRange(State(), rate, capacity, now);
      tokens := Min(capacity, tokens + elapsed * rate);
      if tokens >= 1.0 {
        tokens := tokens - 1.0;
        last := now;
        granted, wait := true, 0.0;
        return;
      }
      var needed := 1.0 - tokens;
      wait := Max(needed / rate, MinWait);
      granted := false;
    }

    /** `acquire`: checks at the successive clock readings until one grants,
        sleeping the requested wait between them; after a grant, a jitter of
        `jitter` milliseconds (drawn in [0, jitterMs]) is slept when jitterMs is
        positive. Returns whether a grant happened within the readings and the
        sleeps in seconds. */
    method Acquire(clock: seq<real>, jitter: real) returns (granted: bool, sleeps: seq<real>)
      requires Valid() && Monotone(clock, last)
      requires jitterMs > 0 ==> 0.0 <= jitter <= jitterMs as real
      modifies this
      ensures Valid()
      ensures var r := Acquiring(old(State()), rate, capacity, clock);
        State() == r.bucket && granted == r.granted
        && sleeps == r.waits + (if granted && jitterMs > 0 then [jitter / 1000.0] else [])
    {
      ghost var whole := Acquiring(State(), rate, capacity, clock);
      sleeps := [];
      granted := false;
      var i := 0;
      assert clock[0..] == clock;
      assert whole.waits == [] + whole.waits;
      while i < |clock| && !granted
        invariant 0 <= i <= |clock| && Valid()
        invariant !granted ==> last == old(last)
        invariant granted ==> whole == Attempt(State(), true, sleeps)
        invariant !granted ==> Continues(whole, Acquiring(State(), rate, capacity, clock[i..]), sleeps)
        decreases |clock| - i
      {
        var wait;
        ghost var before := State();
        ghost var sofar := sleeps;
        AcquiringFirst(before, rate, capacity, clock, i);
        granted, wait := Check(clock[i]);
        if !granted {
          sleeps := sleeps + [wait];
          ContinuesWait(whole, Acquiring(before, rate, capacity, clock[i..]), Acquiring(State(), rate, capacity, clock[i + 1..]), sofar, wait);
        }
        i := i + 1;
      }
      if granted && jitterMs > 0 {
        sleeps := sleeps + [jitter / 1000.0];
      }
    }
  }
}
