/** The token bucket of internal/ratelimit/ratelimit.go, with tokens as reals and time in
    whole seconds. What accrues in d seconds is a function `gain`, so that the reasoning about
    traces needs only that it is additive; the service's is d * rate. */
module RateLimit {
  import opened Bytes

  const KEY_TTL := 120

  datatype Bucket = Bucket(tokens: real, ts: int)
  datatype Reply = Reply(allowed: bool, bucket: Bucket)

  function Ceil(x: real): (r: int)
    ensures r as real - 1.0 < x <= r as real
  {
    -((-x).Floor)
  }

  function Min(x: real, y: real): (r: real) { if x <= y then x else y }

  function Refill(rate: real): (gain: int -> real) { d => d as real * rate }

  /** The stored bucket as Redis answers it: a key untouched for 120 seconds is gone. */
  function Stored(b: Option<Bucket>, now: int): (r: Option<Bucket>) {
    if b.Some? && now - b.value.ts >= KEY_TTL then None else b
  }

  /** Tokens on hand at `now`, after refilling. */
  function Level(b: Option<Bucket>, capacity: real, gain: int -> real, now: int): (r: real) {
    if b.None? then capacity else Min(capacity, b.value.tokens + gain(now - b.value.ts))
  }

  /** The script, asked for one token. */
  function Script(b: Option<Bucket>, capacity: real, gain: int -> real, now: int): (r: Reply) {
    var tokens := Level(b, capacity, gain, now);
    if tokens < 1.0 then Reply(false, Bucket(tokens, now)) else Reply(true, Bucket(tokens - 1.0, now))
  }

  /** What the script returns with a refusal. */
  function Wait(tokens: real, rate: real): (r: int) {
    if rate > 0.0 then Ceil((1.0 - tokens) / rate) else 0
  }

  class Limiter {
    var buckets: map<Bytes, Bucket>

    constructor ()
      ensures buckets == map[]
    {
      buckets := map[];
    }

    function Lookup(key: Bytes): (r: Option<Bucket>)
      reads this
    {
      if key in buckets then Some(buckets[key]) else None
    }

    /** Allow: `window` is in seconds. Other keys are untouched. */
    method Allow(key: Bytes, capacity: nat, window: real, now: int) returns (allowed: bool, retryAfter: int)
      requires window > 0.0
      modifies this
      ensures var rate := capacity as real / window;
              var r := Script(Stored(old(Lookup(key)), now), capacity as real, Refill(rate), now);
              && allowed == r.allowed && buckets == old(buckets)[key := r.bucket]
              && retryAfter == if r.allowed then 0 else Wait(r.bucket.tokens, rate)
    {
      var refill := capacity as real / window;
      var tokens, ts := capacity as real, now;
      if key in buckets && now - buckets[key].ts < KEY_TTL {
        tokens, ts := buckets[key].tokens, buckets[key].ts;
      }
      assert Refill(refill)(0) == 0.0;
      tokens := Min(capacity as real, tokens + Refill(refill)(now - ts));
      if tokens < 1.0 {
        buckets := buckets[key := Bucket(tokens, now)];
        return false, Wait(tokens, refill);
      }
      buckets := buckets[key := Bucket(tokens - 1.0, now)];
      return true, 0;
    }
  }

  // ---------------------------------------------------------------- traces of one key

  ghost predicate Adds(gain: int -> real, d: int, e: int) { gain(d + e) == gain(d) + gain(e) }

  ghost predicate Steady(gain: int -> real) {
    (forall d, e :: Adds(gain, d, e)) && forall d :: d >= 0 ==> gain(d) >= 0.0
  }

  /** A key's lifetime refills the bucket. */
  ghost predicate Fills(gain: int -> real, capacity: real) {
    forall d :: d >= KEY_TTL ==> gain(d) >= capacity
  }

  ghost predicate Ordered(times: seq<int>) {
    forall i, j :: 0 <= i <= j < |times| ==> times[i] <= times[j]
  }

  /** The bucket after the first n requests. */
  function BucketAt(capacity: real, gain: int -> real, times: seq<int>, n: nat): (r: Option<Bucket>)
    requires n <= |times|
  {
    if n == 0 then None
    else Some(Script(Stored(BucketAt(capacity, gain, times, n - 1), times[n - 1]), capacity, gain, times[n - 1]).bucket)
  }

  function LevelAt(capacity: real, gain: int -> real, times: seq<int>, j: nat): (r: real)
    requires j < |times|
  {
    Level(Stored(BucketAt(capacity, gain, times, j), times[j]), capacity, gain, times[j])
  }

  predicate Admitted(capacity: real, gain: int -> real, times: seq<int>, j: nat)
    requires j < |times|
  {
    Script(Stored(BucketAt(capacity, gain, times, j), times[j]), capacity, gain, times[j]).allowed
  }

  function Levels(capacity: real, gain: int -> real, times: seq<int>): (r: seq<real>)
    ensures |r| == |times|
  {
    seq(|times|, j requires 0 <= j < |times| => LevelAt(capacity, gain, times, j))
  }

  function Spent(level: real): (r: real) { if level >= 1.0 then 1.0 else 0.0 }

  /** How many of the requests i, …, j - 1 find a token. */
  function Count(levels: seq<real>, i: nat, j: nat): (r: real)
    requires i <= j <= |levels|
    decreases j
  {
    if i == j then 0.0 else Count(levels, i, j - 1) + Spent(levels[j - 1])
  }

  lemma {:induction false} BucketStep(capacity: real, gain: int -> real, times: seq<int>, j: nat)
    requires j < |times|
    ensures BucketAt(capacity, gain, times, j + 1)
            == Some(Bucket(LevelAt(capacity, gain, times, j) - Spent(LevelAt(capacity, gain, times, j)), times[j]))
    ensures Admitted(capacity, gain, times, j) <==> LevelAt(capacity, gain, times, j) >= 1.0
  {
  }

  /** The requests among i, …, j - 1 that find a token. */
  function TokensIn(levels: seq<real>, i: nat, j: nat): (r: set<nat>)
    requires i <= j <= |levels|
  {
    set k: nat | i <= k < j && levels[k] >= 1.0
  }

  lemma {:induction false} CountIsTokens(levels: seq<real>, i: nat, j: nat)
    requires i <= j <= |levels|
    ensures Count(levels, i, j) == |TokensIn(levels, i, j)| as real
    decreases j
  {
    if i == j {
      assert TokensIn(levels, i, j) == {};
    } else {
      CountIsTokens(levels, i, j - 1);
      var before := TokensIn(levels, i, j - 1);
      assert TokensIn(levels, i, j) == if levels[j - 1] >= 1.0 then before + {j - 1} else before;
    }
  }

  function AdmittedIn(capacity: real, gain: int -> real, times: seq<int>, i: nat, j: nat): (r: set<nat>)
    requires i <= j <= |times|
  {
    set k: nat | i <= k < j && Admitted(capacity, gain, times, k)
  }

  /** Count is the number of requests admitted. */
  lemma {:induction false} CountsAdmitted(capacity: real, gain: int -> real, times: seq<int>, i: nat, j: nat)
    requires i <= j <= |times|
    ensures Count(Levels(capacity, gain, times), i, j) == |AdmittedIn(capacity, gain, times, i, j)| as real
  {
    CountIsTokens(Levels(capacity, gain, times), i, j);
    forall k: nat | i <= k < j ensures Admitted(capacity, gain, times, k) <==> Levels(capacity, gain, times)[k] >= 1.0 {
      BucketStep(capacity, gain, times, k);
    }
    assert AdmittedIn(capacity, gain, times, i, j) == TokensIn(Levels(capacity, gain, times), i, j);
  }

  lemma {:induction false} LevelRange(capacity: real, gain: int -> real, times: seq<int>, j: nat)
    requires capacity >= 0.0 && Steady(gain) && Ordered(times) && j < |times|
    ensures 0.0 <= LevelAt(capacity, gain, times, j) <= capacity
    decreases j
  {
    if j == 0 {
    } else {
      LevelRange(capacity, gain, times, j - 1);
      BucketStep(capacity, gain, times, j - 1);
    }
  }

  /** From one request to the next the level drops by what was admitted, then refills up to the
      capacity; the key's expiry makes no difference. */
  ghost predicate Refilled(capacity: real, gain: int -> real, times: seq<int>, levels: seq<real>, j: nat)
    requires 0 < j < |levels| == |times|
  {
    levels[j] == Min(capacity, levels[j - 1] - Spent(levels[j - 1]) + gain(times[j] - times[j - 1]))
  }

  ghost predicate Follows(capacity: real, gain: int -> real, times: seq<int>, levels: seq<real>) {
    && |levels| == |times|
    && (|levels| > 0 ==> levels[0] == capacity)
    && forall j: nat :: 0 < j < |levels| ==> Refilled(capacity, gain, times, levels, j)
  }

  lemma {:induction false} LevelStep(capacity: real, gain: int -> real, times: seq<int>, j: nat)
    requires capacity >= 0.0 && Steady(gain) && Fills(gain, capacity) && Ordered(times) && 0 < j < |times|
    ensures var before := LevelAt(capacity, gain, times, j - 1);
            LevelAt(capacity, gain, times, j) == Min(capacity, before - Spent(before) + gain(times[j] - times[j - 1]))
  {
    LevelRange(capacity, gain, times, j - 1);
    BucketStep(capacity, gain, times, j - 1);
    assert times[j - 1] <= times[j];
  }

  lemma {:induction false} LevelsFollow(capacity: real, gain: int -> real, times: seq<int>)
    requires capacity >= 0.0 && Steady(gain) && Fills(gain, capacity) && Ordered(times)
    ensures Follows(capacity, gain, times, Levels(capacity, gain, times))
  {
    var levels := Levels(capacity, gain, times);
    forall j: nat | 0 < j < |levels| ensures Refilled(capacity, gain, times, levels, j) {
      LevelStep(capacity, gain, times, j);
      assert levels[j] == LevelAt(capacity, gain, times, j) && levels[j - 1] == LevelAt(capacity, gain, times, j - 1);
    }
  }

  lemma {:induction false} LevelCapped(capacity: real, gain: int -> real, times: seq<int>, levels: seq<real>, j: nat)
    requires Follows(capacity, gain, times, levels) && j < |times|
    ensures levels[j] <= capacity
  {
    if j == 0 {
    } else {
      assert Refilled(capacity, gain, times, levels, j);
    }
  }

  /** What the requests since i leave for request j. */
  function Allowance(capacity: real, gain: int -> real, times: seq<int>, levels: seq<real>, i: nat, j: nat): (r: real)
    requires |levels| == |times| && i <= j < |times|
  {
    capacity + gain(times[j] - times[i]) - Count(levels, i, j)
  }

  lemma {:induction false} AllowanceStep(capacity: real, gain: int -> real, times: seq<int>, levels: seq<real>, i: nat,
                                         j: nat)
    requires Steady(gain) && |levels| == |times| && i < j < |times|
    ensures Allowance(capacity, gain, times, levels, i, j)
            == Allowance(capacity, gain, times, levels, i, j - 1) - Spent(levels[j - 1]) + gain(times[j] - times[j - 1])
  {
    assert Adds(gain, times[j - 1] - times[i], times[j] - times[j - 1]);
  }

  lemma {:induction false} LevelAtMost(capacity: real, gain: int -> real, times: seq<int>, levels: seq<real>, i: nat,
                                       j: nat)
    requires Steady(gain) && Follows(capacity, gain, times, levels) && i <= j < |times|
    ensures levels[j] <= Allowance(capacity, gain, times, levels, i, j)
    decreases j
  {
    if i == j {
      LevelCapped(capacity, gain, times, levels, j);
      assert gain(0) >= 0.0;
    } else {
      LevelAtMost(capacity, gain, times, levels, i, j - 1);
      AllowanceStep(capacity, gain, times, levels, i, j);
      assert Refilled(capacity, gain, times, levels, j);
    }
  }

  lemma {:induction false} LevelReached(capacity: real, gain: int -> real, times: seq<int>, levels: seq<real>, j: nat)
    returns (i: nat)
    requires Steady(gain) && Follows(capacity, gain, times, levels) && j < |times|
    ensures i <= j && levels[j] == Allowance(capacity, gain, times, levels, i, j)
    decreases j
  {
    if levels[j] == capacity {
      i := j;
      assert Adds(gain, 0, 0);
    } else {
      assert Refilled(capacity, gain, times, levels, j);
      i := LevelReached(capacity, gain, times, levels, j - 1);
      AllowanceStep(capacity, gain, times, levels, i, j);
    }
  }

  /** Admitting request j keeps the requests since i within capacity and gain. */
  ghost predicate Within(capacity: real, gain: int -> real, times: seq<int>, levels: seq<real>, i: nat, j: nat)
    requires |levels| == |times| && i <= j < |times|
  {
    Count(levels, i, j) + 1.0 <= capacity + gain(times[j] - times[i])
  }

  lemma {:induction false} TokenIffWithin(capacity: real, gain: int -> real, times: seq<int>, levels: seq<real>, j: nat)
    requires Steady(gain) && Follows(capacity, gain, times, levels) && j < |times|
    ensures levels[j] >= 1.0 <==> forall i :: 0 <= i <= j ==> Within(capacity, gain, times, levels, i, j)
  {
    if levels[j] >= 1.0 {
      forall i | 0 <= i <= j ensures Within(capacity, gain, times, levels, i, j) {
        LevelAtMost(capacity, gain, times, levels, i, j);
      }
    } else {
      var i := LevelReached(capacity, gain, times, levels, j);
      assert !Within(capacity, gain, times, levels, i, j);
    }
  }

  /** The bucket is exactly the sliding limit: a request is admitted if and only if, counting
      from any earlier request, admitting it keeps the number admitted within the capacity
      plus what accrued meanwhile. */
  lemma {:induction false} AdmittedIffWithinLimit(capacity: real, gain: int -> real, times: seq<int>, j: nat)
    requires capacity >= 0.0 && Steady(gain) && Fills(gain, capacity) && Ordered(times) && j < |times|
    ensures Admitted(capacity, gain, times, j)
            <==> forall i :: 0 <= i <= j ==> Within(capacity, gain, times, Levels(capacity, gain, times), i, j)
  {
    LevelsFollow(capacity, gain, times);
    BucketStep(capacity, gain, times, j);
    TokenIffWithin(capacity, gain, times, Levels(capacity, gain, times), j);
  }

  lemma {:induction false} SinceBound(capacity: real, gain: int -> real, times: seq<int>, levels: seq<real>, i: nat,
                                      j: nat, span: int, most: real)
    requires capacity >= 0.0 && Steady(gain) && Follows(capacity, gain, times, levels) && i <= j <= |times|
    requires span >= 0 && gain(span) <= most && forall k :: i <= k < j ==> times[k] - times[i] <= span
    ensures Count(levels, i, j) <= capacity + most
    decreases j
  {
    assert gain(span) >= 0.0;
    if i < j {
      SinceBound(capacity, gain, times, levels, i, j - 1, span, most);
      if levels[j - 1] >= 1.0 {
        LevelAtMost(capacity, gain, times, levels, i, j - 1);
        var d := times[j - 1] - times[i];
        assert Adds(gain, d, span - d) && gain(span - d) >= 0.0;
      }
    }
  }

  // ---------------------------------------------------------------- the service's limits

  /** `capacity` requests per `window` seconds. */
  datatype Limit = Limit(capacity: nat, window: real)

  ghost predicate Valid(l: Limit) { l.window > 0.0 }

  function Rate(l: Limit): (r: real)
    requires Valid(l)
  {
    l.capacity as real / l.window
  }

  lemma {:induction false} RefillSteady(rate: real)
    requires rate >= 0.0
    ensures Steady(Refill(rate))
  {
    forall d, e ensures Adds(Refill(rate), d, e) {
      assert (d + e) as real * rate == d as real * rate + e as real * rate;
    }
  }

  lemma {:induction false} RateWindow(l: Limit, d: real)
    requires 0.0 < l.window <= d
    ensures d * Rate(l) >= l.capacity as real
  {
    assert l.window * Rate(l) == l.capacity as real;
    assert (d - l.window) * Rate(l) >= 0.0;
  }

  lemma {:induction false} RefillFills(l: Limit)
    requires 0.0 < l.window <= KEY_TTL as real
    ensures Fills(Refill(Rate(l)), l.capacity as real)
  {
    forall d | d >= KEY_TTL ensures Refill(Rate(l))(d) >= l.capacity as real {
      RateWindow(l, d as real);
    }
  }

  /** Over any trace with a non-decreasing clock, at most capacity + rate * (b - a) of the
      requests falling in [a, b] are admitted. */
  lemma {:induction false} IntervalBound(l: Limit, times: seq<int>, i: nat, j: nat, a: int, b: int)
    requires 0.0 < l.window <= KEY_TTL as real && Ordered(times) && i <= j <= |times|
    requires a <= b && forall k :: i <= k < j ==> a <= times[k] <= b
    ensures Count(Levels(l.capacity as real, Refill(Rate(l)), times), i, j)
            <= l.capacity as real + (b - a) as real * Rate(l)
  {
    RefillSteady(Rate(l));
    RefillFills(l);
    LevelsFollow(l.capacity as real, Refill(Rate(l)), times);
    SinceBound(l.capacity as real, Refill(Rate(l)), times, Levels(l.capacity as real, Refill(Rate(l)), times), i, j,
               b - a, (b - a) as real * Rate(l));
  }

  /** Forgetting a key after 120 idle seconds changes no level, and so no decision, for every
      bucket in range, exactly when the window is at most 120 seconds, or nothing is ever allowed. */
  lemma {:induction false} ExpiryHarmlessIff(l: Limit)
    requires Valid(l)
    ensures (forall b: Bucket, now: int :: 0.0 <= b.tokens <= l.capacity as real && now >= b.ts ==>
               ExpiryKeepsLevel(l, b, now))
            <==> l.window <= KEY_TTL as real || l.capacity == 0
  {
    if l.window <= KEY_TTL as real {
      RefillFills(l);
    } else if l.capacity == 0 {
      RefillNothing(l);
    } else {
      ExpiryShows(l);
    }
  }

  ghost predicate ExpiryKeepsLevel(l: Limit, b: Bucket, now: int)
    requires Valid(l)
  {
    Level(Stored(Some(b), now), l.capacity as real, Refill(Rate(l)), now)
    == Level(Some(b), l.capacity as real, Refill(Rate(l)), now)
  }

  lemma {:induction false} RefillNothing(l: Limit)
    requires Valid(l) && l.capacity == 0
    ensures forall d :: Refill(Rate(l))(d) == 0.0
  {
    assert Rate(l) == 0.0;
    forall d ensures Refill(Rate(l))(d) == 0.0 { assert d as real * 0.0 == 0.0; }
  }

  lemma {:induction false} ExpiryShows(l: Limit)
    requires l.window > KEY_TTL as real && l.capacity > 0
    ensures !ExpiryKeepsLevel(l, Bucket(0.0, 0), KEY_TTL)
  {
    assert l.window * Rate(l) == l.capacity as real && Rate(l) > 0.0;
    assert (l.window - KEY_TTL as real) * Rate(l) > 0.0;
    assert Refill(Rate(l))(KEY_TTL) < l.capacity as real;
  }

  lemma {:induction false} WaitIsEnough(tokens: real, rate: real, d: int)
    requires rate > 0.0
    ensures tokens + Refill(rate)(d) >= 1.0 <==> d >= Wait(tokens, rate)
  {
    var need := (1.0 - tokens) / rate;
    assert need * rate == 1.0 - tokens;
    if d as real >= need {
      assert (d as real - need) * rate >= 0.0;
    } else {
      assert (need - d as real) * rate > 0.0;
    }
  }

  /** After a refusal, a lone retry d seconds later is admitted exactly from the returned wait
      on: it is the least whole number of seconds that helps, at least one and at most 120. */
  lemma {:induction false} WaitIsLeast(l: Limit, b: Option<Bucket>, now: int, d: int)
    requires l.capacity > 0 && 0.0 < l.window <= KEY_TTL as real && d >= 0
    requires Level(Stored(b, now), l.capacity as real, Refill(Rate(l)), now) >= 0.0
    requires !Script(Stored(b, now), l.capacity as real, Refill(Rate(l)), now).allowed
    ensures var r := Script(Stored(b, now), l.capacity as real, Refill(Rate(l)), now);
            var wait := Wait(r.bucket.tokens, Rate(l));
            && (Script(Stored(Some(r.bucket), now + d), l.capacity as real, Refill(Rate(l)), now + d).allowed
                <==> d >= wait)
            && 1 <= wait <= KEY_TTL
  {
    var tokens := Level(Stored(b, now), l.capacity as real, Refill(Rate(l)), now);
    assert Rate(l) > 0.0;
    RefillFills(l);
    RefillSteady(Rate(l));
    WaitIsEnough(tokens, Rate(l), d);
    assert Adds(Refill(Rate(l)), 0, 0);
    WaitIsEnough(tokens, Rate(l), 0);
    WaitIsEnough(tokens, Rate(l), KEY_TTL);
  }
}
