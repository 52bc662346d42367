/** The per-process token-bucket rate limiter: one bucket per key, refilled continuously at
    `rate` tokens per second up to `capacity`.

    The bucket's float fields are reals (no rounding), and the monotonic clock reading is
    the parameter `now`. */
module RateLimiter {

  /** A `TokenBucket`: its settings, its current tokens and when they were last refilled. */
  datatype Bucket = Bucket(rate: int, capacity: int, tokens: real, updatedAt: real)

  /** `RateLimiter`: the settings every new bucket gets, and the buckets made so far. */
  datatype Limiter = Limiter(rate: int, capacity: int, buckets: map<string, Bucket>)

  /** `TokenBucket(rate, capacity)` made at time `now`. */
  function NewBucket(rate: int, capacity: int, now: real): Bucket {
    Bucket(rate, capacity, capacity as real, now)
  }

  /** Python's `min(a, b)`: `b` only when it is strictly smaller. */
  function Min(a: real, b: real): (r: real)
    ensures r <= a && r <= b && (r == a || r == b)
  {
    if b < a then b else a
  }

  /** The tokens after the refill step of `consume`: what accrued since the last refill,
      capped at the capacity. */
  function Available(b: Bucket, now: real): (a: real)
    ensures a <= b.capacity as real
    ensures a == b.capacity as real || a == b.tokens + (now - b.updatedAt) * b.rate as real
  {
    Min(b.capacity as real, b.tokens + (now - b.updatedAt) * b.rate as real)
  }

  /** `consume(amount)` at time `now`: refills, then hands out `amount` tokens if that many
      are available. The reply says whether it did; a refusal keeps the refilled tokens. */
  function Consume(b: Bucket, now: real, amount: int): (r: (Bucket, bool))
    ensures r.1 <==> Available(b, now) >= amount as real
    ensures r.0.tokens == if r.1 then Available(b, now) - amount as real else Available(b, now)
    ensures r.0.updatedAt == now && r.0.rate == b.rate && r.0.capacity == b.capacity
  {
    var tokens := Available(b, now);
    var refilled := b.(tokens := tokens, updatedAt := now);
    if tokens >= amount as real then (refilled.(tokens := tokens - amount as real), true)
    else (refilled, false)
  }

  /** The bucket's invariant: between empty and full. */
  predicate Bounded(b: Bucket) {
    0.0 <= b.tokens <= b.capacity as real
  }

  lemma ProductNonNegative(x: real, y: real)
    requires x >= 0.0 && y >= 0.0
    ensures x * y >= 0.0
  {
  }

  /** Waiting never costs tokens: with a non-negative rate and a clock that does not run
      backwards, the refill keeps at least what a bounded bucket had. */
  lemma RefillKeepsTokens(b: Bucket, now: real)
    requires Bounded(b) && b.rate >= 0 && now >= b.updatedAt
    ensures b.tokens <= Available(b, now) <= b.capacity as real
  {
    ProductNonNegative(now - b.updatedAt, b.rate as real);
  }

  /** With a non-negative amount and rate and a clock that does not run backwards, every
      `consume` keeps the bucket between empty and full. */
  lemma ConsumeKeepsBounds(b: Bucket, now: real, amount: int)
    requires Bounded(b) && b.rate >= 0 && now >= b.updatedAt && amount >= 0
    ensures Bounded(Consume(b, now, amount).0)
  {
    RefillKeepsTokens(b, now);
  }

  /** A request for more than the capacity is always refused, however long the bucket has
      been idle. */
  lemma OversizedRequestRefused(b: Bucket, now: real, amount: int)
    requires amount > b.capacity
    ensures !Consume(b, now, amount).1
  {
  }

  /** Two requests at the same instant are both granted only if the tokens available then
      cover both: a burst cannot take more than the bucket holds. */
  lemma BurstIsBounded(b: Bucket, now: real, a1: int, a2: int)
    requires Bounded(b) && b.rate >= 0 && now >= b.updatedAt && a1 >= 0
    ensures var (first, ok1) := Consume(b, now, a1);
            var (_, ok2) := Consume(first, now, a2);
            ok1 && ok2 ==> (a1 + a2) as real <= Available(b, now)
  {
    var (first, ok1) := Consume(b, now, a1);
    RefillKeepsTokens(b, now);
    if ok1 {
      assert Bounded(first);
      assert first.updatedAt == now;
      assert (now - first.updatedAt) * first.rate as real == 0.0;
      assert Available(first, now) == first.tokens;
    }
  }

  /** `_get_bucket(key)`: the key's bucket, made (full) and remembered on first use. */
  function GetBucket(l: Limiter, key: string, now: real): (r: (Limiter, Bucket))
    ensures key in r.0.buckets && r.0.buckets[key] == r.1
    ensures key in l.buckets ==> r == (l, l.buckets[key])
    ensures key !in l.buckets ==>
              r.1 == Bucket(l.rate, l.capacity, l.capacity as real, now) &&
              r.0 == l.(buckets := l.buckets[key := r.1])
  {
    if key in l.buckets then (l, l.buckets[key])
    else
      var b := NewBucket(l.rate, l.capacity, now);
      (l.(buckets := l.buckets[key := b]), b)
  }

  /** `allow(key, amount)`: `consume` on the key's bucket, which is kept for next time. */
  function Allow(l: Limiter, key: string, amount: int, now: real): (r: (Limiter, bool))
    ensures key in r.0.buckets && r.0.rate == l.rate && r.0.capacity == l.capacity
    ensures forall k :: k != key ==> (k in r.0.buckets <==> k in l.buckets)
    ensures forall k :: k != key && k in l.buckets ==> r.0.buckets[k] == l.buckets[k]
    ensures r.1 <==> Available(GetBucket(l, key, now).1, now) >= amount as real
    ensures r.0.buckets[key] == Consume(GetBucket(l, key, now).1, now, amount).0
  {
    var (made, b) := GetBucket(l, key, now);
    var (after, ok) := Consume(b, now, amount);
    (made.(buckets := made.buckets[key := after]), ok)
  }

  /** The first request for a key finds a full bucket: it is granted exactly when it asks
      for no more than the capacity, and takes what it asked for. */
  lemma FirstRequestFindsFullBucket(l: Limiter, key: string, amount: int, now: real)
    requires key !in l.buckets && l.capacity >= 0
    ensures var (after, ok) := Allow(l, key, amount, now);
            && (ok <==> amount <= l.capacity)
            && after.buckets[key].tokens == if ok then (l.capacity - amount) as real else l.capacity as real
  {
    var b := NewBucket(l.rate, l.capacity, now);
    assert Available(b, now) == l.capacity as real;
  }

  /** Buckets of distinct keys are independent: a request on one key does not change what a
      later request on another key is told. */
  lemma KeysAreIndependent(l: Limiter, k1: string, k2: string, a1: int, a2: int, t1: real, t2: real)
    requires k1 != k2
    ensures Allow(Allow(l, k1, a1, t1).0, k2, a2, t2).1 == Allow(l, k2, a2, t2).1
  {
    var l1 := Allow(l, k1, a1, t1).0;
    assert GetBucket(l1, k2, t2).1 == GetBucket(l, k2, t2).1;
  }

  /** The limiter's invariant at time `now`: settings are sane and every bucket was made
      from them, is bounded, and was last refilled no later than `now`. */
  ghost predicate Healthy(l: Limiter, now: real) {
    && l.rate >= 0 && l.capacity >= 0
    && forall k :: k in l.buckets ==>
         && Bounded(l.buckets[k])
         && l.buckets[k].rate == l.rate && l.buckets[k].capacity == l.capacity
         && l.buckets[k].updatedAt <= now
  }

  /** Requests for non-negative amounts, made as the clock moves forward, keep every bucket
      between empty and full. */
  lemma AllowKeepsHealthy(l: Limiter, key: string, amount: int, before: real, now: real)
    requires Healthy(l, before) && before <= now && amount >= 0
    ensures Healthy(Allow(l, key, amount, now).0, now)
  {
    var (made, b) := GetBucket(l, key, now);
    assert Bounded(b) && b.rate >= 0 && now >= b.updatedAt;
    ConsumeKeepsBounds(b, now, amount);
  }
}
