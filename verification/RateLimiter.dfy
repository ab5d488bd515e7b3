/**
 The token bucket of crawler/rate_limiter.py. One attempt is what a thread does
 while it holds the lock; a run is any interleaving of attempts by any number of
 threads, given by the clock readings they take.
 */
module RateLimiting {
  import opened Wrappers

  datatype Bucket = Bucket(maxRequests: real, refillRate: real, tokens: real, lastRefill: real) {
    ghost predicate Valid() {
      maxRequests >= 1.0 && refillRate > 0.0 && 0.0 <= tokens <= maxRequests
    }
  }

  function Smaller(a: real, b: real): real { if a <= b then a else b }

  /** What flows in between two clock readings. */
  function Inflow(b: Bucket, s: real, t: real): real { (t - s) * b.refillRate }

  function TopUp(b: Bucket, inflow: real, now: real): Bucket {
    b.(tokens := Smaller(b.maxRequests, b.tokens + inflow), lastRefill := now)
  }

  function Refill(b: Bucket, now: real): Bucket {
    if now > b.lastRefill then TopUp(b, Inflow(b, b.lastRefill, now), now) else b
  }

  predicate Grants(b: Bucket, now: real) {
    Refill(b, now).tokens >= 1.0
  }

  /** The bucket after one attempt. */
  function Attempt(b: Bucket, now: real): Bucket {
    var full := Refill(b, now);
    if full.tokens >= 1.0 then full.(tokens := full.tokens - 1.0) else full
  }

  /** How long a refused attempt sleeps, before jitter. */
  function SleepSeconds(b: Bucket): real
    requires b.refillRate > 0.0
  {
    (1.0 - b.tokens) / b.refillRate
  }

  class RateLimiter {
    const maxRequests: real
    const refillRate: real
    var tokens: real
    var lastRefill: real

    function State(): Bucket
      reads this
    {
      Bucket(maxRequests, refillRate, tokens, lastRefill)
    }

    constructor (maxRequests: int, perSeconds: real, now: real)
      requires maxRequests > 0 && perSeconds > 0.0
      ensures State() == Bucket(maxRequests as real, maxRequests as real / perSeconds, maxRequests as real, now)
      ensures State().Valid()
    {
      this.maxRequests := maxRequests as real;
      this.refillRate := maxRequests as real / perSeconds;
      this.tokens := maxRequests as real;
      this.lastRefill := now;
      new;
      PositiveRatio(maxRequests as real, perSeconds);
    }

    /** The critical section of `acquire`. */
    method TryAcquire(now: real) returns (granted: bool, sleepSeconds: real)
      requires State().Valid()
      modifies this`tokens, this`lastRefill
      ensures State() == Attempt(old(State()), now) && State().Valid()
      ensures granted <==> Grants(old(State()), now)
      ensures !granted ==> sleepSeconds == SleepSeconds(State()) && sleepSeconds > 0.0
    {
      AttemptValid(State(), now);
      var elapsed := now - lastRefill;
      if elapsed > 0.0 {
        assert elapsed * refillRate == Inflow(State(), lastRefill, now);
        tokens := Smaller(maxRequests, tokens + elapsed * refillRate);
        lastRefill := now;
      }
      if tokens >= 1.0 {
        tokens := tokens - 1.0;
        return true, 0.0;
      }
      PositiveRatio(1.0 - tokens, refillRate);
      return false, (1.0 - tokens) / refillRate;
    }

    /** `acquire`, for a thread that reads the given clock values, one per turn of its loop. */
    method Acquire(clock: seq<real>) returns (granted: bool, turns: nat)
      requires State().Valid()
      modifies this`tokens, this`lastRefill
      ensures turns <= |clock| && State().Valid()
      ensures State() == After(old(State()), clock[..turns])
      ensures granted ==> turns > 0 && GrantedAt(old(State()), clock, turns - 1)
      ensures forall i :: 0 <= i < (if granted then turns - 1 else turns) ==> !GrantedAt(old(State()), clock, i)
      ensures !granted ==> turns == |clock|
    {
      turns := 0;
      while turns < |clock|
        invariant turns <= |clock| && State().Valid()
        invariant State() == After(old(State()), clock[..turns])
        invariant forall i :: 0 <= i < turns ==> !GrantedAt(old(State()), clock, i)
      {
        AfterNext(old(State()), clock, turns);
        var ok, _ := TryAcquire(clock[turns]);
        turns := turns + 1;
        if ok {
          return true, turns;
        }
      }
      return false, turns;
    }
  }

  /** `RateLimiter(...)`: the constructor's argument checks. */
  method NewRateLimiter(maxRequests: int, perSeconds: real, now: real) returns (r: Result<RateLimiter, string>)
    ensures r.Ok? <==> maxRequests > 0 && perSeconds > 0.0
    ensures r.Ok? ==> fresh(r.value) && r.value.State().Valid() && r.value.State().tokens == maxRequests as real
  {
    if maxRequests <= 0 {
      return Err("max_requests must be greater than zero");
    }
    if perSeconds <= 0.0 {
      return Err("per_seconds must be greater than zero");
    }
    var limiter := new RateLimiter(maxRequests, perSeconds, now);
    return Ok(limiter);
  }

  lemma PositiveRatio(a: real, b: real)
    requires a > 0.0 && b > 0.0
    ensures a / b > 0.0
  {
  }

  lemma InflowNonNegative(b: Bucket, s: real, t: real)
    requires b.refillRate > 0.0 && s <= t
    ensures Inflow(b, s, t) >= 0.0
  {
  }

  lemma InflowAdds(b: Bucket, r: real, s: real, t: real)
    ensures Inflow(b, r, s) + Inflow(b, s, t) == Inflow(b, r, t)
  {
  }

  lemma SameRate(c: Bucket, b: Bucket, s: real, t: real)
    requires c.refillRate == b.refillRate
    ensures Inflow(c, s, t) == Inflow(b, s, t)
  {
  }

  lemma NoTimeNoInflow(b: Bucket, t: real)
    ensures Inflow(b, t, t) == 0.0
  {
  }

  /** A refill adds the inflow, up to the capacity. */
  lemma RefillTokens(b: Bucket, now: real)
    requires b.lastRefill <= now && b.Valid()
    ensures Inflow(b, b.lastRefill, now) >= 0.0
    ensures Refill(b, now) == TopUp(b, Inflow(b, b.lastRefill, now), now)
  {
    InflowNonNegative(b, b.lastRefill, now);
    NoTimeNoInflow(b, now);
  }

  /** Tokens stay within 0 and the capacity. */
  lemma AttemptValid(b: Bucket, now: real)
    requires b.Valid()
    ensures Refill(b, now).Valid() && Attempt(b, now).Valid()
  {
    if now > b.lastRefill { RefillTokens(b, now); }
  }

  // ----- Runs -----

  function After(b: Bucket, times: seq<real>): Bucket {
    if times == [] then b else Attempt(After(b, times[..|times| - 1]), times[|times| - 1])
  }

  predicate GrantedAt(b: Bucket, times: seq<real>, i: nat)
    requires i < |times|
  {
    Grants(After(b, times[..i]), times[i])
  }

  /** Grants among steps `lo` up to `hi`. */
  function GrantCount(b: Bucket, times: seq<real>, lo: nat, hi: nat): nat
    requires lo <= hi <= |times|
    decreases hi
  {
    if lo == hi then 0
    else GrantCount(b, times, lo, hi - 1) + (if GrantedAt(b, times, hi - 1) then 1 else 0)
  }

  /** The clock never goes back. */
  predicate Clock(b: Bucket, times: seq<real>) {
    && (forall i :: 0 <= i < |times| ==> b.lastRefill <= times[i])
    && (forall i, j :: 0 <= i < j < |times| ==> times[i] <= times[j])
  }

  lemma AfterNext(b: Bucket, times: seq<real>, i: nat)
    requires i < |times|
    ensures After(b, times[..i + 1]) == Attempt(After(b, times[..i]), times[i])
  {
    assert times[..i + 1][..i] == times[..i];
  }

  /** Reachable buckets are valid, keep their parameters, and were last refilled at the last reading. */
  lemma {:induction false} AfterValid(b: Bucket, times: seq<real>, i: nat)
    requires b.Valid() && Clock(b, times) && i <= |times|
    ensures var c := After(b, times[..i]);
      && c.Valid() && c.maxRequests == b.maxRequests && c.refillRate == b.refillRate
      && c.lastRefill == (if i == 0 then b.lastRefill else times[i - 1])
  {
    if i == 0 {
    } else {
      AfterValid(b, times, i - 1);
      AfterNext(b, times, i - 1);
      AttemptValid(After(b, times[..i - 1]), times[i - 1]);
    }
  }

  /** Tokens just after the refill of step `i`. */
  function TokensAt(b: Bucket, times: seq<real>, i: nat): real
    requires i < |times|
  {
    Refill(After(b, times[..i]), times[i]).tokens
  }

  predicate FullAt(b: Bucket, times: seq<real>, i: nat)
    requires i < |times|
  {
    TokensAt(b, times, i) == b.maxRequests
  }

  lemma AfterTokens(b: Bucket, times: seq<real>, j: nat)
    requires j < |times|
    ensures After(b, times[..j + 1]).tokens == TokensAt(b, times, j) - (if GrantedAt(b, times, j) then 1.0 else 0.0)
  {
    AfterNext(b, times, j);
  }

  /** One step's balance, in terms of what flowed in. */
  lemma StepBalance(b: Bucket, times: seq<real>, j: nat)
    requires b.Valid() && Clock(b, times) && 0 < j < |times|
    ensures var c := After(b, times[..j]);
      && TokensAt(b, times, j) == Smaller(b.maxRequests, c.tokens + Inflow(b, times[j - 1], times[j]))
      && After(b, times[..j + 1]).tokens == TokensAt(b, times, j) - (if GrantedAt(b, times, j) then 1.0 else 0.0)
  {
    var c := After(b, times[..j]);
    AfterValid(b, times, j);
    AfterTokens(b, times, j);
    RefillTokens(c, times[j]);
    SameRate(c, b, c.lastRefill, times[j]);
  }

  /** Between two steps the budget is never overdrawn. */
  lemma {:induction false} Budget(b: Bucket, times: seq<real>, i: nat, j: nat)
    requires b.Valid() && Clock(b, times) && i <= j < |times|
    ensures After(b, times[..j + 1]).tokens + GrantCount(b, times, i, j + 1) as real
         <= b.maxRequests + Inflow(b, times[i], times[j])
  {
    if j == i {
      AfterValid(b, times, j);
      AfterNext(b, times, j);
      AttemptValid(After(b, times[..j]), times[j]);
    } else {
      Budget(b, times, i, j - 1);
      StepBalance(b, times, j);
      InflowAdds(b, times[i], times[j - 1], times[j]);
    }
  }

  /** The rate bound: grants between any two steps are at most the capacity plus what flowed in. */
  lemma RateBound(b: Bucket, times: seq<real>, i: nat, j: nat)
    requires b.Valid() && Clock(b, times) && i <= j < |times|
    ensures GrantCount(b, times, i, j + 1) as real <= b.maxRequests + Inflow(b, times[i], times[j])
    ensures 0.0 <= After(b, times[..j + 1]).tokens <= b.maxRequests
  {
    Budget(b, times, i, j);
    AfterValid(b, times, j + 1);
  }

  // ----- Nothing is wasted -----

  /** Refilling twice is refilling once. */
  lemma RefillsCompose(b: Bucket, s: real, t: real)
    requires b.Valid() && b.lastRefill <= s <= t
    ensures Refill(Refill(b, s), t) == Refill(b, t)
  {
  }

  /** Any number of refused attempts leaves the tokens of one attempt at the end. */
  lemma {:induction false} RefusalsCostNothing(b: Bucket, times: seq<real>, i: nat, t: real)
    requires b.Valid() && Clock(b, times) && i <= |times|
    requires forall n :: 0 <= n < i ==> !GrantedAt(b, times, n)
    requires b.lastRefill <= t && (i > 0 ==> times[i - 1] <= t)
    ensures Refill(After(b, times[..i]), t) == Refill(b, t)
  {
    if i == 0 {
    } else {
      AfterNext(b, times, i - 1);
      AfterValid(b, times, i - 1);
      RefusalsCostNothing(b, times, i - 1, t);
      RefillsCompose(After(b, times[..i - 1]), times[i - 1], t);
      assert !GrantedAt(b, times, i - 1);
    }
  }

  /** Between refills that do not reach the capacity, every drop is accounted for. */
  lemma {:induction false} ExactBalance(b: Bucket, times: seq<real>, i: nat, j: nat)
    requires b.Valid() && Clock(b, times) && i <= j < |times|
    requires forall m :: i < m <= j ==> !FullAt(b, times, m)
    ensures TokensAt(b, times, j)
         == TokensAt(b, times, i) + Inflow(b, times[i], times[j]) - GrantCount(b, times, i, j) as real
  {
    if j == i {
    } else {
      ExactBalance(b, times, i, j - 1);
      assert !FullAt(b, times, j);
      NextTokens(b, times, j);
      InflowAdds(b, times[i], times[j - 1], times[j]);
    }
  }

  /** What one step finds: what the last one left, and the inflow. */
  lemma NextTokens(b: Bucket, times: seq<real>, j: nat)
    requires b.Valid() && Clock(b, times) && 0 < j < |times| && !FullAt(b, times, j)
    ensures TokensAt(b, times, j)
         == TokensAt(b, times, j - 1) - (if GrantedAt(b, times, j - 1) then 1.0 else 0.0)
            + Inflow(b, times[j - 1], times[j])
  {
    StepBalance(b, times, j);
    AfterTokens(b, times, j - 1);
  }

  /** The last step, up to `j`, that found the bucket full. */
  predicate LastFull(b: Bucket, times: seq<real>, i: nat, j: nat)
    requires i <= j < |times|
  {
    FullAt(b, times, i) && forall m :: i < m <= j ==> !FullAt(b, times, m)
  }

  /** A refusal means the capacity and everything that flowed in since it was last full is spent. */
  lemma RefusalMeansSpent(b: Bucket, times: seq<real>, i: nat, j: nat)
    requires b.Valid() && Clock(b, times) && i <= j < |times|
    requires LastFull(b, times, i, j)
    requires !GrantedAt(b, times, j)
    ensures GrantCount(b, times, i, j) as real > b.maxRequests + Inflow(b, times[i], times[j]) - 1.0
  {
    ExactBalance(b, times, i, j);
  }

  lemma FirstIsFull(b: Bucket, times: seq<real>)
    requires b.Valid() && Clock(b, times) && b.tokens == b.maxRequests && times != []
    ensures FullAt(b, times, 0)
  {
    assert times[..0] == [];
    InflowNonNegative(b, b.lastRefill, times[0]);
  }

  /** A bucket that starts full is found full by the first step, and so has a last full step ever after. */
  lemma {:induction false} LastFullExists(b: Bucket, times: seq<real>, j: nat) returns (i: nat)
    requires b.Valid() && Clock(b, times) && b.tokens == b.maxRequests && j < |times|
    ensures i <= j && LastFull(b, times, i, j)
  {
    i := j;
    if j == 0 {
      FirstIsFull(b, times);
    } else if !FullAt(b, times, j) {
      i := LastFullExists(b, times, j - 1);
    }
  }

  /** Every refusal by a bucket that starts full is paid for by grants since a step that found it full. */
  lemma EveryRefusalIsSpent(b: Bucket, times: seq<real>, j: nat) returns (i: nat)
    requires b.Valid() && Clock(b, times) && b.tokens == b.maxRequests && j < |times|
    requires !GrantedAt(b, times, j)
    ensures i <= j && LastFull(b, times, i, j)
    ensures GrantCount(b, times, i, j) as real > b.maxRequests + Inflow(b, times[i], times[j]) - 1.0
  {
    i := LastFullExists(b, times, j);
    RefusalMeansSpent(b, times, i, j);
  }

  /** Has the sleep computed at the last refill of `c` passed by time `t`? */
  predicate Woken(c: Bucket, t: real) {
    c.refillRate > 0.0 && t >= c.lastRefill + SleepSeconds(c)
  }

  /** A waiter that wakes after its computed sleep succeeds if no other thread was granted in between. */
  lemma WokenIsGranted(b: Bucket, times: seq<real>, i: nat, j: nat)
    requires b.Valid() && Clock(b, times) && i < j < |times|
    requires Woken(After(b, times[..i + 1]), times[j])
    requires forall n :: i < n < j ==> !GrantedAt(b, times, n)
    ensures GrantedAt(b, times, j)
  {
    AfterValid(b, times, i + 1);
    QuietStretch(b, times, i + 1, j);
    EnoughTokens(After(b, times[..i + 1]), times[j]);
  }

  /** No starvation: by the time any waiter wakes and tries again, someone has been granted. */
  lemma NoStarvation(b: Bucket, times: seq<real>, i: nat, j: nat)
    requires b.Valid() && Clock(b, times) && i < j < |times|
    requires Woken(After(b, times[..i + 1]), times[j])
    ensures GrantCount(b, times, i + 1, j + 1) >= 1
  {
    if GrantCount(b, times, i + 1, j) == 0 {
      NoGrants(b, times, i + 1, j);
      WokenIsGranted(b, times, i, j);
    }
  }

  lemma EnoughTokens(c: Bucket, t: real)
    requires c.Valid() && Woken(c, t)
    ensures Refill(c, t).tokens >= 1.0
  {
    var ready := c.lastRefill + SleepSeconds(c);
    SleepFillsUp(c);
    InflowAdds(c, c.lastRefill, ready, t);
    InflowNonNegative(c, ready, t);
    if t >= c.lastRefill { RefillTokens(c, t); }
  }

  /** The computed sleep lets in exactly the missing part of a token. */
  lemma SleepFillsUp(c: Bucket)
    requires c.refillRate > 0.0
    ensures Inflow(c, c.lastRefill, c.lastRefill + SleepSeconds(c)) == 1.0 - c.tokens
  {
  }

  lemma {:induction false} NoGrants(b: Bucket, times: seq<real>, lo: nat, hi: nat)
    requires lo <= hi <= |times| && GrantCount(b, times, lo, hi) == 0
    ensures forall n :: lo <= n < hi ==> !GrantedAt(b, times, n)
  {
    if lo == hi {
    } else {
      NoGrants(b, times, lo, hi - 1);
    }
  }

  lemma {:induction false} QuietStretch(b: Bucket, times: seq<real>, from: nat, j: nat)
    requires b.Valid() && Clock(b, times) && from <= j < |times|
    requires forall n :: from <= n < j ==> !GrantedAt(b, times, n)
    ensures Refill(After(b, times[..j]), times[j]) == Refill(After(b, times[..from]), times[j])
    decreases j
  {
    if from == j {
    } else {
      AfterNext(b, times, j - 1);
      AfterValid(b, times, from);
      QuietStretch(b, times, from, j - 1);
      assert !GrantedAt(b, times, j - 1);
      assert After(b, times[..j]) == Refill(After(b, times[..from]), times[j - 1]);
      RefillsCompose(After(b, times[..from]), times[j - 1], times[j]);
    }
  }
}
