/** The service-wide token bucket (services/managed_dns/rate_limit.py). Tokens are reals, instants
    integers; the clock is the argument `now`. */
module RateLimit {
  import opened Prelude

  datatype Limits = Limits(capacity: real, rate: real) {
    predicate Valid() {
      capacity >= 0.0 && rate >= 0.0
    }
  }

  datatype Bucket = Bucket(tokens: real, lastRefill: int) {
    /** A bucket in use at `now`: filled to between nothing and its capacity, last touched before. */
    predicate Valid(limits: Limits, now: int) {
      0.0 <= tokens <= limits.capacity && lastRefill <= now
    }
  }

  function MinReal(a: real, b: real): real {
    if a <= b then a else b
  }

  function MaxReal(a: real, b: real): real {
    if a <= b then b else a
  }

  function Refill(limits: Limits, b: Bucket, now: int): Bucket {
    Bucket(MinReal(limits.capacity, b.tokens + MaxReal(0.0, (now - b.lastRefill) as real) * limits.rate), now)
  }

  predicate Allows(limits: Limits, b: Bucket, now: int) {
    Refill(limits, b, now).tokens >= 1.0
  }

  /** The bucket after a request at `now`, admitted or not. */
  function AfterRequest(limits: Limits, b: Bucket, now: int): Bucket {
    var r := Refill(limits, b, now);
    if r.tokens < 1.0 then r else r.(tokens := r.tokens - 1.0)
  }

  /** The bucket a new process starts with, from what was persisted. */
  function Started(limits: Limits, saved: Option<Bucket>, now: int): Bucket {
    if saved.None? then Bucket(limits.capacity, now)
    else Bucket(MinReal(limits.capacity, MaxReal(0.0, saved.value.tokens)), saved.value.lastRefill)
  }

  // ---- the fill level ----

  /** What the bucket would hold if it were refilled at `now`. */
  function Level(limits: Limits, b: Bucket, now: int): real {
    Refill(limits, b, now).tokens
  }

  lemma LevelInRange(limits: Limits, b: Bucket, now: int)
    requires limits.Valid() && b.Valid(limits, now)
    ensures 0.0 <= b.tokens <= Level(limits, b, now) <= limits.capacity
  {
    Nonnegative((now - b.lastRefill) as real, limits.rate);
  }

  lemma Nonnegative(a: real, b: real)
    requires a >= 0.0 && b >= 0.0
    ensures a * b >= 0.0
  {
  }

  lemma Distributes(a: real, b: real, c: real)
    ensures (a + b) * c == a * c + b * c
  {
  }

  /** Refilling in two steps gives what refilling once gives. */
  lemma RefillTwice(limits: Limits, b: Bucket, middle: int, now: int)
    requires limits.Valid() && b.lastRefill <= middle <= now
    ensures Refill(limits, Refill(limits, b, middle), now) == Refill(limits, b, now)
  {
    var first, second := (middle - b.lastRefill) as real, (now - middle) as real;
    Nonnegative(second, limits.rate);
    Distributes(first, second, limits.rate);
    assert (now - b.lastRefill) as real == first + second;
  }

  /** Waiting raises the level by at most the rate. */
  lemma LevelGrowth(limits: Limits, b: Bucket, middle: int, now: int)
    requires limits.Valid() && b.Valid(limits, middle) && middle <= now
    ensures Level(limits, b, now) <= Level(limits, b, middle) + (now - middle) as real * limits.rate
  {
    RefillTwice(limits, b, middle, now);
  }

  /** A bucket gives a token exactly when it can hold one and what it held, with what it has earned since, makes one. */
  lemma AllowsExactly(limits: Limits, b: Bucket, now: int)
    requires limits.Valid() && b.Valid(limits, now)
    ensures Allows(limits, b, now)
            <==> limits.capacity >= 1.0 && b.tokens + (now - b.lastRefill) as real * limits.rate >= 1.0
    ensures Level(limits, b, now)
         == if b.tokens + (now - b.lastRefill) as real * limits.rate <= limits.capacity
            then b.tokens + (now - b.lastRefill) as real * limits.rate else limits.capacity
  {
    Nonnegative((now - b.lastRefill) as real, limits.rate);
  }

  /** Whatever a bucket holds, it earns a token in the time that one takes. */
  lemma WaitingEarns(limits: Limits, b: Bucket, now: int, elapsed: nat)
    requires limits.Valid() && b.Valid(limits, now) && elapsed as real * limits.rate >= 1.0
    ensures b.tokens + (now + elapsed - b.lastRefill) as real * limits.rate >= 1.0
  {
    var since := (now - b.lastRefill) as real;
    assert (now + elapsed - b.lastRefill) as real == since + elapsed as real;
    Distributes(since, elapsed as real, limits.rate);
    Nonnegative(since, limits.rate);
  }

  class GlobalRateLimiter {
    const limits: Limits
    var tokens: real
    var lastRefill: int

    function State(): Bucket
      reads this
    {
      Bucket(tokens, lastRefill)
    }

    constructor (limits: Limits, saved: Option<Bucket>, now: int)
      ensures this.limits == limits && State() == Started(limits, saved, now)
    {
      this.limits := limits;
      if saved.None? {
        tokens, lastRefill := limits.capacity, now;
      } else {
        tokens, lastRefill := MinReal(limits.capacity, MaxReal(0.0, saved.value.tokens)), saved.value.lastRefill;
      }
    }

    method RefillNow(now: int)
      modifies this`tokens, this`lastRefill
      ensures State() == Refill(limits, old(State()), now)
    {
      var elapsed := MaxReal(0.0, (now - lastRefill) as real);
      tokens := MinReal(limits.capacity, tokens + elapsed * limits.rate);
      lastRefill := now;
    }

    method Allow(now: int) returns (allowed: bool)
      modifies this`tokens, this`lastRefill
      ensures allowed == Allows(limits, old(State()), now)
      ensures State() == AfterRequest(limits, old(State()), now)
    {
      RefillNow(now);
      if tokens < 1.0 {
        return false;
      }
      tokens := tokens - 1.0;
      return true;
    }
  }
}
