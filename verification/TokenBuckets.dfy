/**
 A single token bucket with lazy refill.

 Tokens, rates and times are reals: rounding is not modelled. The clock reading is a parameter; a reading that
 is earlier than the previous one counts as no time elapsed, as `Instant::duration_since` does.
 */
module TokenBuckets {

  datatype Config = Config(maxTokens: real, refillRate: real)

  /** `tokens` per `windowSecs` seconds: a burst of `tokens`, refilled at `tokens / windowSecs` per second. */
  function FromWindow(tokens: nat, windowSecs: nat): Config
    requires windowSecs > 0
  {
    Config(tokens as real, tokens as real / windowSecs as real)
  }

  datatype Bucket = Bucket(tokens: real, maxTokens: real, refillRate: real, lastRefill: real)

  function Min(a: real, b: real): real {
    if a <= b then a else b
  }

  function Fresh(config: Config, now: real): Bucket {
    Bucket(config.maxTokens, config.maxTokens, config.refillRate, now)
  }

  function Elapsed(since: real, now: real): real {
    if now >= since then now - since else 0.0
  }

  function Refilled(b: Bucket, now: real): Bucket {
    b.(tokens := Min(b.tokens + Elapsed(b.lastRefill, now) * b.refillRate, b.maxTokens), lastRefill := now)
  }

  function Consumed(b: Bucket): Bucket {
    b.(tokens := b.tokens - 1.0)
  }

  /** Giving the token of a denied request back, never above the burst size. */
  function Refunded(b: Bucket): Bucket {
    b.(tokens := Min(b.tokens + 1.0, b.maxTokens))
  }

  /** Refilling at an intermediate instant makes no difference, despite the cap. */
  lemma RefillComposes(b: Bucket, mid: real, now: real)
    requires b.tokens <= b.maxTokens
    requires b.lastRefill <= mid <= now
    ensures Refilled(Refilled(b, mid), now) == Refilled(b, now)
  {
    var r, first, second := b.refillRate, mid - b.lastRefill, now - mid;
    assert (first + second) * r == first * r + second * r;
    if b.tokens + first * r > b.maxTokens {
      assert r > 0.0 by {
        if r <= 0.0 {
          NonPositiveProduct(first, r);
        }
      }
    }
  }

  lemma NonPositiveProduct(x: real, y: real)
    requires x >= 0.0 && y <= 0.0
    ensures x * y <= 0.0
  {
  }

  lemma NonNegativeProduct(x: real, y: real)
    requires x >= 0.0 && y >= 0.0
    ensures x * y >= 0.0
  {
  }

  /** The refund of a consumed token restores exactly the refilled level. */
  lemma RefundRestores(b: Bucket, now: real)
    ensures Refunded(Consumed(Refilled(b, now))) == Refilled(b, now)
  {
  }

  /** Between two readings the level grows by at most `rate` per unit of time, for any bound on its own rate. */
  lemma LevelGrowth(b: Bucket, t: real, now: real, rate: real)
    requires t <= now && b.refillRate <= rate && rate >= 0.0
    ensures Refilled(b, now).tokens <= Refilled(b, t).tokens + rate * (now - t)
  {
    var e0, e1 := Elapsed(b.lastRefill, t), Elapsed(b.lastRefill, now);
    var d := e1 - e0;
    assert e1 * b.refillRate - e0 * b.refillRate <= rate * (now - t) by {
      Distributes(b.refillRate, e1, e0);
      ScaleMonotone(d, b.refillRate, rate);
      ScaleMonotone(rate, d, now - t);
    }
  }

  lemma Distributes(c: real, x: real, y: real)
    ensures c * (x - y) == c * x - c * y
  {
  }

  lemma ScaleMonotone(c: real, x: real, y: real)
    requires c >= 0.0 && x <= y
    ensures c * x <= c * y
  {
    NonNegativeProduct(c, y - x);
    Distributes(c, y, x);
  }

  /** Which budget a bucket meters: one peer on one protocol, or one peer over all protocols. */
  datatype BucketId = Protocol(peer: string, protocol: string) | Global(peer: string)

  class TokenBucket {
    ghost const id: BucketId
    var tokens: real
    const maxTokens: real
    const refillRate: real
    var lastRefill: real

    ghost function Value(): Bucket
      reads this
    {
      Bucket(tokens, maxTokens, refillRate, lastRefill)
    }

    constructor (config: Config, now: real, ghost id: BucketId)
      ensures Value() == Fresh(config, now) && this.id == id
    {
      this.id := id;
      tokens, maxTokens, refillRate, lastRefill := config.maxTokens, config.maxTokens, config.refillRate, now;
    }

    method Refill(now: real)
      modifies this
      ensures Value() == Refilled(old(Value()), now)
    {
      var elapsed := Elapsed(lastRefill, now);
      tokens := Min(tokens + elapsed * refillRate, maxTokens);
      lastRefill := now;
    }

    /** Takes one token if, after the refill, there is one. */
    method TryConsume(now: real) returns (ok: bool)
      modifies this
      ensures ok <==> Refilled(old(Value()), now).tokens >= 1.0
      ensures Value() == if ok then Consumed(Refilled(old(Value()), now)) else Refilled(old(Value()), now)
    {
      Refill(now);
      ok := tokens >= 1.0;
      if ok {
        tokens := tokens - 1.0;
      }
    }

    method Refund()
      modifies this
      ensures Value() == Refunded(old(Value()))
    {
      tokens := Min(tokens + 1.0, maxTokens);
    }
  }
}
