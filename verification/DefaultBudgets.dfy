/** What the default budgets mean, in requests per minute. */
module DefaultBudgets {
  import opened TokenBuckets
  import opened RateLimiter
  import opened RateLimits
  import BucketHistory

  const MINUTE := 60.0

  /** The protocols that are limited by default, each with its requests per minute. */
  predicate PerMinute(protocol: Label, n: nat) {
    match protocol
    case "direct_messages" => n == 60
    case "typing_indicators" => n == 20
    case "signaling" => n == 30
    case "identity" => n == 10
    case "offline_messages" => n == 3
    case "rename" => n == 2
    case "group_sync" => n == 10
    case _ => false
  }

  const ALL_PER_MINUTE: nat := 500

  /** A burst of `n`, and the same number again in a minute. */
  predicate IsPerMinute(config: Config, n: nat) {
    config.maxTokens == n as real && config.refillRate * MINUTE == n as real
  }

  /** A limiter as it is made. */
  predicate New(s: Limiter) {
    Unused(s) && s.configs == DEFAULT_CONFIGS && s.globalConfig == DEFAULT_GLOBAL_CONFIG
  }

  lemma DefaultsArePerMinute(protocol: Label)
    ensures protocol in DEFAULT_CONFIGS <==> exists n :: PerMinute(protocol, n)
    ensures forall n :: PerMinute(protocol, n) ==> IsPerMinute(DEFAULT_CONFIGS[protocol], n) && n <= 60
    ensures IsPerMinute(DEFAULT_GLOBAL_CONFIG, ALL_PER_MINUTE)
  {
    if protocol in DEFAULT_CONFIGS {
      var n :| n in {60, 20, 30, 10, 3, 2} && PerMinute(protocol, n);
    }
  }

  // ---- In any minute ----

  /** Twice the requests per minute, and a burst for each removal. */
  predicate InBudget(admitted: nat, removals: nat, n: nat) {
    admitted <= (2 + removals) * n
  }

  lemma InMinute(admitted: nat, removals: nat, config: Config, n: nat)
    requires IsPerMinute(config, n)
    requires BucketHistory.WithinBudget(admitted, removals, config.maxTokens, config.refillRate, MINUTE)
    ensures InBudget(admitted, removals, n)
  {
    assert (removals + 1) as real * n as real == ((removals + 1) * n) as real;
  }

  /** The budgets of the protocol are the default ones. */
  ghost predicate Default(t: Limiter, protocol: Label) {
    protocol in DEFAULT_CONFIGS && IndexAgrees(t) && ProtocolParameters(t, protocol, DEFAULT_CONFIGS[protocol])
  }

  ghost predicate DefaultGlobal(t: Limiter) {
    IndexAgrees(t) && GlobalParameters(t) && t.globalConfig == DEFAULT_GLOBAL_CONFIG
  }

  /** A state of a new limiter after these events. */
  ghost predicate Reached(before: seq<Event>, t: Limiter) {
    exists s :: New(s) && t == After(s, before, |before|)
  }

  lemma StaysDefault(before: seq<Event>, t: Limiter, protocol: Label, n: nat)
    requires Reached(before, t) && PerMinute(protocol, n) && NotReconfigured(before, protocol)
    ensures Default(t, protocol)
  {
    var s :| New(s) && t == After(s, before, |before|);
    DefaultsArePerMinute(protocol);
    IndexAlwaysAgrees(s, [], 0);
    IndexAlwaysAgrees(s, before, |before|);
    ProtocolParametersKept(s, before, |before|, protocol, DEFAULT_CONFIGS[protocol]);
  }

  lemma StaysDefaultGlobal(before: seq<Event>, t: Limiter)
    requires Reached(before, t)
    ensures DefaultGlobal(t)
  {
    var s :| New(s) && t == After(s, before, |before|);
    IndexAlwaysAgrees(s, [], 0);
    IndexAlwaysAgrees(s, before, |before|);
    GlobalParametersKept(s, before, |before|);
  }

  lemma ProtocolMinute(t: Limiter, es: seq<Event>, peer: Peer, protocol: Label, n: nat, start: real)
    requires PerMinute(protocol, n) && Default(t, protocol) && NotReconfigured(es, protocol)
    requires Timed(es) && CheckedWithin(es, start, start + MINUTE)
    ensures InBudget(Admitted(t, es, 0, |es|, Protocol(peer, protocol)), Removals(es, |es|, peer), n)
  {
    var config := DEFAULT_CONFIGS[protocol];
    DefaultsArePerMinute(protocol);
    NonNegativeRate(config.refillRate, n);
    ProtocolRateBound(t, es, peer, protocol, config, start, MINUTE);
    InMinute(Admitted(t, es, 0, |es|, Protocol(peer, protocol)), Removals(es, |es|, peer), config, n);
  }

  lemma GlobalMinute(t: Limiter, es: seq<Event>, peer: Peer, start: real)
    requires DefaultGlobal(t) && Timed(es) && CheckedWithin(es, start, start + MINUTE)
    ensures InBudget(Admitted(t, es, 0, |es|, Global(peer)), Removals(es, |es|, peer), ALL_PER_MINUTE)
  {
    DefaultsArePerMinute("");
    GlobalRateBound(t, es, peer, start, MINUTE);
    InMinute(Admitted(t, es, 0, |es|, Global(peer)), Removals(es, |es|, peer), DEFAULT_GLOBAL_CONFIG, ALL_PER_MINUTE);
  }

  /**
   In every run of a new limiter, whatever happened before: in any minute a peer gets on each of these protocols at most
   twice its requests per minute, plus a burst each time the peer is removed.
  */
  lemma MinuteBound(before: seq<Event>, t: Limiter, es: seq<Event>, peer: Peer, protocol: Label, n: nat, start: real)
    requires Reached(before, t) && PerMinute(protocol, n)
    requires NotReconfigured(before, protocol) && NotReconfigured(es, protocol)
    requires Timed(es) && CheckedWithin(es, start, start + MINUTE)
    ensures InBudget(Admitted(t, es, 0, |es|, Protocol(peer, protocol)), Removals(es, |es|, peer), n)
  {
    StaysDefault(before, t, protocol, n);
    ProtocolMinute(t, es, peer, protocol, n, start);
  }

  /** And at most 1000 over all of them, plus 500 each time it is removed. */
  lemma MinuteBoundOverAll(before: seq<Event>, t: Limiter, es: seq<Event>, peer: Peer, start: real)
    requires Reached(before, t) && Timed(es) && CheckedWithin(es, start, start + MINUTE)
    ensures Admitted(t, es, 0, |es|, Global(peer)) <= 1000 + 500 * Removals(es, |es|, peer)
  {
    StaysDefaultGlobal(before, t);
    GlobalMinute(t, es, peer, start);
  }

  // ---- A bucket left alone ----

  /** A default bucket left alone is full again after a minute; an empty one is not full before, and refills evenly. */
  lemma FullAfterMinute(b: Bucket, config: Config, n: nat, d: real)
    requires IsPerMinute(config, n) && b.maxTokens == config.maxTokens && b.refillRate == config.refillRate
    requires 0.0 <= b.tokens <= b.maxTokens && 0.0 <= d
    ensures d >= MINUTE ==> Refilled(b, b.lastRefill + d).tokens == n as real
    ensures b.tokens == 0.0 && d <= MINUTE ==> Refilled(b, b.lastRefill + d).tokens * MINUTE == n as real * d
  {
    var r := config.refillRate;
    NonNegativeRate(r, n);
    if d >= MINUTE {
      ScaleMonotone(r, MINUTE, d);
    } else {
      ScaleMonotone(r, d, MINUTE);
    }
    assert d * r * MINUTE == (r * MINUTE) * d;
  }

  lemma NonNegativeRate(r: real, n: nat)
    requires r * MINUTE == n as real
    ensures r >= 0.0
  {
  }

  // ---- A burst ----

  /** The peer has made `k` requests on the protocol, all at this instant. */
  predicate Spent(s: Limiter, peer: Peer, protocol: Label, n: nat, now: real, k: nat) {
    && s.configs == DEFAULT_CONFIGS && s.globalConfig == DEFAULT_GLOBAL_CONFIG && protocol in DEFAULT_CONFIGS
    && ProtocolBucket(s, peer, protocol, now).tokens == n as real - k as real
    && GlobalBucket(s, peer, now).tokens == 500.0 - k as real
    && (k > 0 ==> (peer, protocol) in s.protocolBuckets && peer in s.globalBuckets)
  }

  lemma SpendOne(s: Limiter, peer: Peer, protocol: Label, n: nat, now: real, k: nat)
    requires PerMinute(protocol, n) && Spent(s, peer, protocol, n, now, k) && k < n
    ensures Verdict(s, peer, protocol, now) == Allowed
    ensures Spent(Checked(s, peer, protocol, now), peer, protocol, n, now, k + 1)
  {
    DefaultsArePerMinute(protocol);
    var b, g := ProtocolBucket(s, peer, protocol, now), GlobalBucket(s, peer, now);
    assert b.tokens >= 1.0 && g.tokens >= 1.0;
    assert Refilled(Consumed(b), now) == Consumed(b) && Refilled(Consumed(g), now) == Consumed(g);
  }

  function SameRequest(peer: Peer, protocol: Label, now: real, k: nat): seq<Event> {
    seq(k, _ => Check(peer, protocol, now))
  }

  lemma {:induction false} SpendAll(s: Limiter, peer: Peer, protocol: Label, n: nat, now: real, k: nat, m: nat)
    requires New(s) && PerMinute(protocol, n) && k <= n && k <= m
    ensures Spent(After(s, SameRequest(peer, protocol, now, m), k), peer, protocol, n, now, k)
  {
    if k == 0 {
      DefaultsArePerMinute(protocol);
    } else {
      SpendAll(s, peer, protocol, n, now, k - 1, m);
      SpendOne(After(s, SameRequest(peer, protocol, now, m), k - 1), peer, protocol, n, now, k - 1);
    }
  }

  /** Of the requests that a peer makes at once of a new limiter the first `n` are allowed, and the next is not. */
  lemma BurstIsAllowed(s: Limiter, peer: Peer, protocol: Label, n: nat, now: real, k: nat)
    requires New(s) && PerMinute(protocol, n) && k <= n
    ensures Verdict(After(s, SameRequest(peer, protocol, now, k), k), peer, protocol, now)
      == if k < n then Allowed else ProtocolLimited
  {
    SpendAll(s, peer, protocol, n, now, k, k);
    if k < n {
      SpendOne(After(s, SameRequest(peer, protocol, now, k), k), peer, protocol, n, now, k);
    }
  }
}
