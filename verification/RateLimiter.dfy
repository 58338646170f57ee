/** addons/rate_limiter.py: the token bucket, over exact real time. */
module RateLimiter {

  datatype Bucket = Bucket(tokens: real, lastRefill: real)

  function Refill(rate: real, elapsed: real): real {
    elapsed * rate
  }

  function Refilled(capacity: real, rate: real, b: Bucket, now: real): real {
    var full := b.tokens + Refill(rate, now - b.lastRefill);
    if full < capacity then full else capacity
  }

  predicate Admits(capacity: real, rate: real, b: Bucket, now: real) {
    Refilled(capacity, rate, b, now) >= 1.0
  }

  function AfterConsume(capacity: real, rate: real, b: Bucket, now: real): Bucket {
    var tokens := Refilled(capacity, rate, b, now);
    Bucket(if tokens >= 1.0 then tokens - 1.0 else tokens, now)
  }

  class TokenBucket {
    const capacity: real
    const refillRate: real
    var tokens: real
    var lastRefill: real

    function Value(): Bucket
      reads this
    {
      Bucket(tokens, lastRefill)
    }

    constructor (capacity: real, refillRate: real, now: real)
      ensures this.capacity == capacity && this.refillRate == refillRate && Value() == Bucket(capacity, now)
    {
      this.capacity, this.refillRate, this.tokens, this.lastRefill := capacity, refillRate, capacity, now;
    }

    method Consume(now: real) returns (admitted: bool)
      modifies this
      ensures admitted == Admits(capacity, refillRate, old(Value()), now)
      ensures Value() == AfterConsume(capacity, refillRate, old(Value()), now)
    {
      var elapsed := now - lastRefill;
      tokens := tokens + Refill(refillRate, elapsed);
      if tokens > capacity {
        tokens := capacity;
      }
      lastRefill := now;
      if tokens >= 1.0 {
        tokens := tokens - 1.0;
        return true;
      }
      return false;
    }
  }

  // ---- runs of calls ----------------------------------------------------------------------

  predicate OrderedFrom(start: real, times: seq<real>) {
    && (times != [] ==> start <= times[0])
    && forall i :: 0 < i < |times| ==> times[i - 1] <= times[i]
  }

  function After(capacity: real, rate: real, b: Bucket, times: seq<real>): Bucket {
    if times == [] then b
    else AfterConsume(capacity, rate, After(capacity, rate, b, times[..|times| - 1]), times[|times| - 1])
  }

  /** The call at position i is admitted. */
  predicate AdmittedAt(capacity: real, rate: real, b: Bucket, times: seq<real>, i: nat)
    requires i < |times|
  {
    Admits(capacity, rate, After(capacity, rate, b, times[..i]), times[i])
  }

  /** How many of the calls from position i on are admitted. */
  function AdmittedFrom(capacity: real, rate: real, b: Bucket, times: seq<real>, i: nat): nat {
    if |times| <= i then 0
    else
      var n := |times| - 1;
      AdmittedFrom(capacity, rate, b, times[..n], i) + if AdmittedAt(capacity, rate, b, times, n) then 1 else 0
  }

  /** Tokens stay between empty and full. */
  lemma {:induction false} TokensInRange(capacity: real, rate: real, b: Bucket, times: seq<real>)
    requires rate >= 0.0 && 0.0 <= b.tokens <= capacity && OrderedFrom(b.lastRefill, times)
    ensures 0.0 <= After(capacity, rate, b, times).tokens <= capacity
    ensures After(capacity, rate, b, times).lastRefill == if times == [] then b.lastRefill else times[|times| - 1]
  {
    if times != [] {
      var front, now := times[..|times| - 1], times[|times| - 1];
      TokensInRange(capacity, rate, b, front);
      assert After(capacity, rate, b, front).lastRefill <= now;
      RefillGrows(rate, now - After(capacity, rate, b, front).lastRefill);
    }
  }

  lemma RefillGrows(rate: real, elapsed: real)
    requires rate >= 0.0 && elapsed >= 0.0
    ensures Refill(rate, elapsed) >= 0.0
  {
  }

  lemma RefillAdds(rate: real, x: real, y: real)
    ensures Refill(rate, x) + Refill(rate, y) == Refill(rate, x + y)
  {
  }

  /** The tokens left and the calls admitted since position i are covered by capacity and refill. */
  lemma {:induction false} TokenBudget(capacity: real, rate: real, b: Bucket, times: seq<real>, i: nat)
    requires rate >= 0.0 && 0.0 <= b.tokens <= capacity && OrderedFrom(b.lastRefill, times)
    requires i < |times|
    ensures After(capacity, rate, b, times).tokens + AdmittedFrom(capacity, rate, b, times, i) as real
            <= capacity + Refill(rate, times[|times| - 1] - times[i])
    decreases |times|
  {
    var n := |times| - 1;
    var front := times[..n];
    TokensInRange(capacity, rate, b, front);
    if i < n {
      TokenBudget(capacity, rate, b, front, i);
      RefillAdds(rate, front[n - 1] - times[i], times[n] - front[n - 1]);
    } else {
      assert AdmittedFrom(capacity, rate, b, front, i) == 0;
      RefillGrows(rate, 0.0);
    }
  }

  /**
   * Whatever the calls, those admitted from the i-th call to the last number at most the
   * capacity plus what refills in the time between them.
   */
  lemma AdmissionBound(capacity: real, rate: real, b: Bucket, times: seq<real>, i: nat)
    requires rate >= 0.0 && 0.0 <= b.tokens <= capacity && OrderedFrom(b.lastRefill, times)
    requires i < |times|
    ensures AdmittedFrom(capacity, rate, b, times, i) as real <= capacity + rate * (times[|times| - 1] - times[i])
  {
    TokenBudget(capacity, rate, b, times, i);
    TokensInRange(capacity, rate, b, times);
  }

  /** From a full bucket of at least one token, calls that each wait for one refill are all admitted. */
  lemma {:induction false} PacedCallsAreAdmitted(capacity: real, rate: real, start: real, times: seq<real>)
    requires capacity >= 1.0 && rate > 0.0
    requires times != [] ==> start <= times[0]
    requires forall k :: 0 < k < |times| ==> times[k] - times[k - 1] >= 1.0 / rate
    ensures AdmittedFrom(capacity, rate, Bucket(capacity, start), times, 0) == |times|
    ensures times != [] ==>
              After(capacity, rate, Bucket(capacity, start), times) == Bucket(capacity - 1.0, times[|times| - 1])
    decreases |times|
  {
    if times != [] {
      var n := |times| - 1;
      var front := times[..n];
      PacedCallsAreAdmitted(capacity, rate, start, front);
      if n > 0 {
        OneToken(rate, times[n] - times[n - 1]);
      } else {
        RefillGrows(rate, times[0] - start);
      }
    }
  }

  lemma OneToken(rate: real, gap: real)
    requires rate > 0.0 && gap >= 1.0 / rate
    ensures Refill(rate, gap) >= 1.0
  {
    assert (1.0 / rate) * rate == 1.0;
  }

  // ---- exactly when a call is rejected --------------------------------------------------------------

  /** The tokens left are what capacity, refill and admissions since the k-th call leave. */
  predicate TightFrom(capacity: real, rate: real, start: real, times: seq<real>, k: nat) {
    && k < |times|
    && After(capacity, rate, Bucket(capacity, start), times).tokens
       == capacity + Refill(rate, times[|times| - 1] - times[k])
          - AdmittedFrom(capacity, rate, Bucket(capacity, start), times, k) as real
  }

  /** For some call the bound on admissions since then is exhausted to the token. */
  lemma {:induction false} SomewhereTight(capacity: real, rate: real, start: real, times: seq<real>) returns (k: nat)
    requires rate >= 0.0 && capacity >= 0.0 && times != [] && OrderedFrom(start, times)
    ensures TightFrom(capacity, rate, start, times, k)
    decreases |times|
  {
    var n := |times| - 1;
    var front, now, b := times[..n], times[n], Bucket(capacity, start);
    TokensInRange(capacity, rate, b, front);
    var before := After(capacity, rate, b, front);
    RefillGrows(rate, now - before.lastRefill);
    if n == 0 || before.tokens + Refill(rate, now - before.lastRefill) >= capacity {
      k := n;
      assert AdmittedFrom(capacity, rate, b, front, n) == 0;
      RefillGrows(rate, 0.0);
      NoRefill(rate);
    } else {
      k := SomewhereTight(capacity, rate, start, front);
      RefillAdds(rate, front[n - 1] - times[k], now - front[n - 1]);
    }
  }

  lemma NoRefill(rate: real)
    ensures Refill(rate, 0.0) == 0.0
  {
  }

  /** Admitting one more call now would break the burst bound counted from the k-th call. */
  predicate Exceeds(capacity: real, rate: real, start: real, times: seq<real>, k: nat) {
    && k < |times|
    && AdmittedFrom(capacity, rate, Bucket(capacity, start), times[..|times| - 1], k) as real + 1.0
       > capacity + Refill(rate, times[|times| - 1] - times[k])
  }

  /**
   * From a full bucket, the last call is rejected if and only if admitting it would break the burst
   * bound counted from some call on, its own included: nothing that the bound allows is turned away.
   */
  lemma RejectsExactly(capacity: real, rate: real, start: real, times: seq<real>)
    requires rate >= 0.0 && capacity >= 0.0 && times != [] && OrderedFrom(start, times)
    ensures !AdmittedAt(capacity, rate, Bucket(capacity, start), times, |times| - 1)
            <==> exists k: nat :: Exceeds(capacity, rate, start, times, k)
  {
    var b := Bucket(capacity, start);
    if AdmittedAt(capacity, rate, b, times, |times| - 1) {
      forall k: nat ensures !Exceeds(capacity, rate, start, times, k) {
        if k < |times| { TokensInRange(capacity, rate, b, times); TokenBudget(capacity, rate, b, times, k); }
      }
    } else {
      var k := SomewhereTight(capacity, rate, start, times);
      assert Exceeds(capacity, rate, start, times, k);
    }
  }
}
