/** The life of one bucket: created on first use, used, removed, created again; and what it can let through. */
module BucketHistory {
  import opened Wrappers
  import opened TokenBuckets

  /** What one event means for the bucket. A use that is not admitted (denied, or refunded) only refills it. */
  datatype Turn =
    | Skip
    | Remove
    | Use(config: Config, now: real, admit: bool)

  function OnUse(v: Option<Bucket>, config: Config, now: real): Bucket {
    Refilled(if v.Some? then v.value else Fresh(config, now), now)
  }

  function Apply(v: Option<Bucket>, t: Turn): Option<Bucket> {
    match t
    case Skip => v
    case Remove => None
    case Use(config, now, admit) =>
      var b := OnUse(v, config, now);
      Some(if admit then Consumed(b) else b)
  }

  function Life(v: Option<Bucket>, ts: seq<Turn>, n: nat): Option<Bucket>
    requires n <= |ts|
  {
    if n == 0 then v else Apply(Life(v, ts, n - 1), ts[n - 1])
  }

  /** A token is taken only when there is one. */
  predicate Honest(v: Option<Bucket>, ts: seq<Turn>) {
    forall n :: 0 <= n < |ts| && ts[n].Use? && ts[n].admit ==>
      OnUse(Life(v, ts, n), ts[n].config, ts[n].now).tokens >= 1.0
  }

  predicate Timed(ts: seq<Turn>) {
    forall i, j :: 0 <= i < j < |ts| && ts[i].Use? && ts[j].Use? ==> ts[i].now <= ts[j].now
  }

  function Admits(t: Turn): nat {
    if t.Use? && t.admit then 1 else 0
  }

  function Admitted(ts: seq<Turn>, i: nat, n: nat): nat
    requires i <= n <= |ts|
  {
    if i == n then 0 else Admitted(ts, i, n - 1) + Admits(ts[n - 1])
  }

  function Removals(ts: seq<Turn>, n: nat): nat
    requires n <= |ts|
  {
    if n == 0 then 0 else Removals(ts, n - 1) + (if ts[n - 1].Remove? then 1 else 0)
  }

  // ---- The bound ----

  predicate Within(v: Option<Bucket>, burst: real, rate: real) {
    v.Some? ==> v.value.maxTokens <= burst && v.value.refillRate <= rate
  }

  predicate AlwaysWithin(v: Option<Bucket>, ts: seq<Turn>, burst: real, rate: real) {
    forall n :: 0 <= n <= |ts| ==> Within(Life(v, ts, n), burst, rate)
  }

  predicate UsedFrom(ts: seq<Turn>, start: real) {
    forall n :: 0 <= n < |ts| && ts[n].Use? ==> start <= ts[n].now
  }

  predicate UsedUntil(ts: seq<Turn>, end: real) {
    forall n :: 0 <= n < |ts| && ts[n].Use? ==> ts[n].now <= end
  }

  /** What the bucket could still let through at `t`: at most a full burst when there is no bucket. */
  function Credit(v: Option<Bucket>, t: real, burst: real): real {
    if v.None? then burst else NonNegative(Refilled(v.value, t).tokens)
  }

  function NonNegative(level: real): real {
    if level < 0.0 then 0.0 else level
  }

  lemma NonNegativeGrowth(before: real, after: real, growth: real)
    requires after <= before + growth && growth >= 0.0
    ensures NonNegative(after) <= NonNegative(before) + growth
  {
  }

  lemma CreditGrowth(v: Option<Bucket>, t: real, now: real, burst: real, rate: real, growth: real)
    requires t <= now && rate >= 0.0 && Within(v, burst, rate) && growth == rate * (now - t)
    ensures Credit(v, now, burst) <= Credit(v, t, burst) + growth
  {
    NonNegativeProduct(rate, now - t);
    if v.Some? {
      var before, after := Refilled(v.value, t).tokens, Refilled(v.value, now).tokens;
      LevelGrowth(v.value, t, now, rate);
      NonNegativeGrowth(before, after, growth);
    }
  }

  lemma CreditUsed(v: Option<Bucket>, t: Turn, burst: real)
    requires t.Use? && burst >= 0.0 && Within(Apply(v, t), burst, Apply(v, t).value.refillRate)
    requires t.admit ==> OnUse(v, t.config, t.now).tokens >= 1.0
    ensures Admits(t) as real + Credit(Apply(v, t), t.now, burst) <= Credit(v, t.now, burst)
  {
    var b := OnUse(v, t.config, t.now);
    RefilledOnce(b, t.now);
    RefilledOnce(Consumed(b), t.now);
  }

  lemma RefilledOnce(b: Bucket, now: real)
    requires b.lastRefill == now && b.tokens <= b.maxTokens
    ensures Refilled(b, now) == b
  {
  }

  /** The time of the last use so far, or the start of the window. */
  function Clock(ts: seq<Turn>, n: nat, start: real): real
    requires n <= |ts|
  {
    if n == 0 then start else if ts[n - 1].Use? then ts[n - 1].now else Clock(ts, n - 1, start)
  }

  lemma ClockBounds(ts: seq<Turn>, n: nat, start: real, length: real)
    requires n <= |ts| && length >= 0.0 && UsedFrom(ts, start) && UsedUntil(ts, start + length)
    ensures start <= Clock(ts, n, start) <= start + length
  {
  }

  lemma ClockReached(ts: seq<Turn>, n: nat, start: real)
    requires n <= |ts|
    ensures Clock(ts, n, start) == start || exists k :: 0 <= k < n && ts[k].Use? && ts[k].now == Clock(ts, n, start)
  {
  }

  /** What an event at `t` or later adds to the budget: the refill since `t`, or a whole burst. `refill(x)` is the
      refill over a span `x` from the origin of time; it stays a function value here so that sums telescope. */
  function Accrual(turn: Turn, t: real, burst: real, refill: real -> real): real {
    match turn
    case Skip => 0.0
    case Remove => burst
    case Use(_, now, _) => refill(now) - refill(t)
  }

  ghost predicate Linear(refill: real -> real, rate: real) {
    forall x :: refill(x) == rate * x
  }

  lemma LinearRefill(rate: real) returns (refill: real -> real)
    ensures Linear(refill, rate)
  {
    refill := x => rate * x;
  }

  lemma CreditStep(v: Option<Bucket>, turn: Turn, t: real, burst: real, rate: real, refill: real -> real)
    requires burst >= 0.0 && rate >= 0.0 && Within(v, burst, rate) && Within(Apply(v, turn), burst, rate)
    requires turn.Use? ==> t <= turn.now && (turn.admit ==> OnUse(v, turn.config, turn.now).tokens >= 1.0)
    requires turn.Use? ==> refill(turn.now) - refill(t) == rate * (turn.now - t)
    ensures Admits(turn) as real + Credit(Apply(v, turn), if turn.Use? then turn.now else t, burst)
      <= Credit(v, t, burst) + Accrual(turn, t, burst, refill)
  {
    if turn.Use? {
      var a, b, c := Credit(v, t, burst), Credit(v, turn.now, burst), Credit(Apply(v, turn), turn.now, burst);
      CreditGrowth(v, t, turn.now, burst, rate, refill(turn.now) - refill(t));
      assert b <= a + (refill(turn.now) - refill(t));
      CreditUsed(v, turn, burst);
      assert Admits(turn) as real + c <= b;
    }
  }

  function Multiple(n: nat, x: real): real {
    if n == 0 then 0.0 else Multiple(n - 1, x) + x
  }

  lemma MultipleIsProduct(n: nat, x: real)
    ensures Multiple(n, x) == n as real * x
  {
    if n != 0 {
      assert n as real * x == (n - 1) as real * x + x;
    }
  }

  /** If each event spends and leaves no more than it found and accrued, so does the whole history. */
  lemma {:induction false} Ledger(ts: seq<Turn>, n: nat, left: seq<real>, burst: real, refill: real -> real, start: real)
    requires n <= |ts| < |left|
    requires forall k :: 0 <= k < n ==>
      Admits(ts[k]) as real + left[k + 1] <= left[k] + Accrual(ts[k], Clock(ts, k, start), burst, refill)
    ensures Admitted(ts, 0, n) as real + left[n]
      <= left[0] + Multiple(Removals(ts, n), burst) + refill(Clock(ts, n, start)) - refill(start)
  {
    if n != 0 {
      Ledger(ts, n - 1, left, burst, refill, start);
    }
  }

  lemma WithinAt(v: Option<Bucket>, ts: seq<Turn>, k: nat, burst: real, rate: real)
    requires k < |ts| && AlwaysWithin(v, ts, burst, rate)
    ensures Within(Life(v, ts, k), burst, rate) && Within(Life(v, ts, k + 1), burst, rate)
  {
  }

  lemma RefillSpan(refill: real -> real, rate: real, t: real, now: real)
    requires Linear(refill, rate)
    ensures refill(now) - refill(t) == rate * (now - t)
  {
    Distributes(rate, now, t);
  }

  lemma CreditStepAt(v: Option<Bucket>, ts: seq<Turn>, k: nat, burst: real, rate: real, refill: real -> real, start: real)
    requires k < |ts| && Timed(ts) && Honest(v, ts) && burst >= 0.0 && rate >= 0.0
    requires Within(Life(v, ts, k), burst, rate) && Within(Life(v, ts, k + 1), burst, rate) && UsedFrom(ts, start)
    requires Linear(refill, rate)
    ensures Admits(ts[k]) as real + Credit(Life(v, ts, k + 1), Clock(ts, k + 1, start), burst)
      <= Credit(Life(v, ts, k), Clock(ts, k, start), burst) + Accrual(ts[k], Clock(ts, k, start), burst, refill)
  {
    var now, t, turn := Life(v, ts, k), Clock(ts, k, start), ts[k];
    assert Life(v, ts, k + 1) == Apply(now, turn);
    assert Clock(ts, k + 1, start) == if turn.Use? then turn.now else t;
    if turn.Use? {
      ClockReached(ts, k, start);
      RefillSpan(refill, rate, t, turn.now);
    }
    CreditStep(now, turn, t, burst, rate, refill);
  }

  /** The credit before each event, and after the last. */
  function Credits(v: Option<Bucket>, ts: seq<Turn>, burst: real, start: real): (credits: seq<real>)
    requires burst >= 0.0
    ensures |credits| == |ts| + 1 && credits[|ts|] >= 0.0
    ensures v.None? || v.value.maxTokens <= burst ==> credits[0] <= burst
    ensures forall k :: 0 <= k <= |ts| ==> credits[k] == Credit(Life(v, ts, k), Clock(ts, k, start), burst)
  {
    seq(|ts| + 1, k requires 0 <= k <= |ts| => Credit(Life(v, ts, k), Clock(ts, k, start), burst))
  }

  lemma CreditsDecline(v: Option<Bucket>, ts: seq<Turn>, burst: real, rate: real, refill: real -> real, start: real)
    requires Timed(ts) && Honest(v, ts) && burst >= 0.0 && rate >= 0.0
    requires AlwaysWithin(v, ts, burst, rate)
    requires UsedFrom(ts, start)
    requires Linear(refill, rate)
    ensures var left := Credits(v, ts, burst, start);
      forall k :: 0 <= k < |ts| ==>
        Admits(ts[k]) as real + left[k + 1] <= left[k] + Accrual(ts[k], Clock(ts, k, start), burst, refill)
  {
    forall k | 0 <= k < |ts|
      ensures var left := Credits(v, ts, burst, start);
        Admits(ts[k]) as real + left[k + 1] <= left[k] + Accrual(ts[k], Clock(ts, k, start), burst, refill)
    {
      WithinAt(v, ts, k, burst, rate);
      CreditStepAt(v, ts, k, burst, rate, refill, start);
    }
  }

  lemma LedgerBound(v: Option<Bucket>, ts: seq<Turn>, burst: real, rate: real, refill: real -> real, start: real)
    requires Timed(ts) && Honest(v, ts) && burst >= 0.0 && rate >= 0.0
    requires AlwaysWithin(v, ts, burst, rate)
    requires UsedFrom(ts, start)
    requires Linear(refill, rate)
    ensures Admitted(ts, 0, |ts|) as real
      <= burst + Multiple(Removals(ts, |ts|), burst) + (refill(Clock(ts, |ts|, start)) - refill(start))
  {
    assert Within(Life(v, ts, 0), burst, rate);
    CreditsDecline(v, ts, burst, rate, refill, start);
    Ledger(ts, |ts|, Credits(v, ts, burst, start), burst, refill, start);
  }

  lemma LedgerTotal(v: Option<Bucket>, ts: seq<Turn>, burst: real, rate: real, start: real, last: real) returns (spent: real)
    requires Timed(ts) && Honest(v, ts) && burst >= 0.0 && rate >= 0.0 && last == Clock(ts, |ts|, start)
    requires AlwaysWithin(v, ts, burst, rate)
    requires UsedFrom(ts, start)
    ensures spent == rate * last - rate * start
    ensures Admitted(ts, 0, |ts|) as real <= burst + Multiple(Removals(ts, |ts|), burst) + spent
  {
    var refill := LinearRefill(rate);
    spent := refill(last) - refill(start);
    LedgerBound(v, ts, burst, rate, refill, start);
  }

  /** One burst, one more per removal, and the refill over `length`. */
  predicate WithinBudget(admitted: nat, removals: nat, burst: real, rate: real, length: real) {
    admitted as real <= (removals + 1) as real * burst + rate * length
  }

  /** In a window of length `length`: one burst, one more per removal, and the refill. */
  lemma Bound(v: Option<Bucket>, ts: seq<Turn>, burst: real, rate: real, start: real, length: real)
    requires Timed(ts) && Honest(v, ts) && burst >= 0.0 && rate >= 0.0
    requires AlwaysWithin(v, ts, burst, rate)
    requires length >= 0.0 && UsedFrom(ts, start) && UsedUntil(ts, start + length)
    ensures WithinBudget(Admitted(ts, 0, |ts|), Removals(ts, |ts|), burst, rate, length)
  {
    var last := Clock(ts, |ts|, start);
    var spent := LedgerTotal(v, ts, burst, rate, start, last);
    ClockBounds(ts, |ts|, start, length);
    BoundTotal(Admitted(ts, 0, |ts|), Removals(ts, |ts|), burst, rate, start, last, spent, length);
  }

  lemma BoundTotal(admitted: nat, removals: nat, burst: real, rate: real, start: real, now: real, spent: real, length: real)
    requires admitted as real <= burst + Multiple(removals, burst) + spent
    requires spent == rate * now - rate * start
    requires now <= start + length && rate >= 0.0
    ensures WithinBudget(admitted, removals, burst, rate, length)
  {
    MultipleIsProduct(removals + 1, burst);
    var all := rate * length;
    assert spent <= all by {
      ScaleMonotone(rate, now - start, length);
      Distributes(rate, now, start);
    }
    assert admitted as real <= Multiple(removals + 1, burst) + all;
  }

  // ---- Exactness ----

  /** The refilled bucket that turn `i` uses. */
  function UsedBucket(ts: seq<Turn>, i: nat): Bucket
    requires i < |ts| && ts[i].Use?
  {
    OnUse(Life(None, ts, i), ts[i].config, ts[i].now)
  }

  predicate FullAt(ts: seq<Turn>, i: nat)
    requires i < |ts|
  {
    ts[i].Use? && UsedBucket(ts, i).tokens == UsedBucket(ts, i).maxTokens
  }

  predicate NoRemoval(ts: seq<Turn>, i: nat, n: nat)
    requires i <= n <= |ts|
  {
    forall k :: i <= k < n ==> !ts[k].Remove?
  }

  /** One more admission at `now` would exceed what a bucket that was full at `since` can give by then. */
  predicate ExceedsBudget(admitted: nat, b: Bucket, since: real, now: real) {
    (admitted + 1) as real > b.maxTokens + b.refillRate * (now - since)
  }

  predicate Overdraws(ts: seq<Turn>, i: nat, n: nat)
    requires i <= n < |ts| && ts[i].Use? && ts[n].Use?
  {
    ExceedsBudget(Admitted(ts, i, n), UsedBucket(ts, n), ts[i].now, ts[n].now)
  }

  lemma RefilledLevel(b: Bucket, now: real, refill: real -> real)
    requires Linear(refill, b.refillRate) && b.lastRefill <= now
    ensures Refilled(b, now).tokens == Min(b.tokens + (refill(now) - refill(b.lastRefill)), b.maxTokens)
  {
    Distributes(b.refillRate, now, b.lastRefill);
  }

  lemma LastRefillBefore(ts: seq<Turn>, n: nat, k: nat)
    requires n <= k < |ts| && Timed(ts) && ts[k].Use?
    ensures Life(None, ts, n).Some? ==> Life(None, ts, n).value.lastRefill <= ts[k].now
  {
    if n != 0 {
      LastRefillBefore(ts, n - 1, k);
    }
  }

  /** Since any use: at most a full burst then, plus the refill, less the admissions. */
  lemma {:induction false} LifeAtMost(ts: seq<Turn>, i: nat, n: nat, refill: real -> real)
    requires i < n <= |ts| && Timed(ts) && ts[i].Use? && NoRemoval(ts, i, n)
    requires Life(None, ts, n).Some? ==> Linear(refill, Life(None, ts, n).value.refillRate)
    ensures Life(None, ts, n).Some?
    ensures var b := Life(None, ts, n).value;
      b.tokens <= b.maxTokens + (refill(b.lastRefill) - refill(ts[i].now)) - Admitted(ts, i, n) as real
  {
    if n > i + 1 {
      LifeAtMost(ts, i, n - 1, refill);
      if ts[n - 1].Use? {
        LastRefillBefore(ts, n - 1, n - 1);
        RefilledLevel(Life(None, ts, n - 1).value, ts[n - 1].now, refill);
      }
    } else {
      assert Admitted(ts, i, n) == Admitted(ts, i, i) + Admits(ts[i]);
    }
  }

  /** A live bucket was full at some use, and since then never capped: its level is exactly what is left. */
  lemma {:induction false} FullSince(ts: seq<Turn>, n: nat, refill: real -> real) returns (i: nat)
    requires n <= |ts| && Timed(ts) && Life(None, ts, n).Some?
    requires Linear(refill, Life(None, ts, n).value.refillRate)
    ensures i < n && FullAt(ts, i) && NoRemoval(ts, i, n)
    ensures var b := Life(None, ts, n).value;
      b.tokens == b.maxTokens + (refill(b.lastRefill) - refill(ts[i].now)) - Admitted(ts, i, n) as real
  {
    i := n - 1;
    var before := Life(None, ts, n - 1);
    if ts[n - 1].Use? {
      if FullAt(ts, n - 1) {
        assert Admitted(ts, i, n) == Admitted(ts, i, i) + Admits(ts[i]);
      } else {
        FreshIsFull(ts, n - 1);
        i := FullSince(ts, n - 1, refill);
        LastRefillBefore(ts, n - 1, n - 1);
        RefilledLevel(before.value, ts[n - 1].now, refill);
      }
    } else {
      i := FullSince(ts, n - 1, refill);
    }
  }

  lemma FreshIsFull(ts: seq<Turn>, n: nat)
    requires n < |ts| && ts[n].Use?
    ensures Life(None, ts, n).None? ==> FullAt(ts, n)
  {
  }

  /**
   The use at turn `n` finds less than a token exactly if, since some use that found the bucket full, one more
   admission would exceed the burst plus the refill.
  */
  lemma ShortIffOverdraws(ts: seq<Turn>, n: nat)
    requires n < |ts| && Timed(ts) && ts[n].Use?
    ensures UsedBucket(ts, n).tokens < 1.0
      <==> exists i :: 0 <= i <= n && FullAt(ts, i) && NoRemoval(ts, i, n) && Overdraws(ts, i, n)
  {
    var refill := LinearRefill(UsedBucket(ts, n).refillRate);
    forall i | 0 <= i <= n && FullAt(ts, i) && NoRemoval(ts, i, n) && Overdraws(ts, i, n)
      ensures UsedBucket(ts, n).tokens < 1.0
    {
      OverdrawnIsShort(ts, i, n, refill);
    }
    if UsedBucket(ts, n).tokens < 1.0 {
      var i := ShortIsOverdrawn(ts, n, refill);
    }
  }

  lemma OverdrawsLinear(ts: seq<Turn>, i: nat, n: nat, refill: real -> real)
    requires i <= n < |ts| && ts[i].Use? && ts[n].Use? && Linear(refill, UsedBucket(ts, n).refillRate)
    ensures Overdraws(ts, i, n)
      <==> (Admitted(ts, i, n) + 1) as real > UsedBucket(ts, n).maxTokens + (refill(ts[n].now) - refill(ts[i].now))
  {
    LinearBudget(Admitted(ts, i, n), UsedBucket(ts, n), ts[i].now, ts[n].now, refill);
  }

  lemma LinearBudget(admitted: nat, b: Bucket, since: real, now: real, refill: real -> real)
    requires Linear(refill, b.refillRate)
    ensures ExceedsBudget(admitted, b, since, now)
      <==> (admitted + 1) as real > b.maxTokens + (refill(now) - refill(since))
  {
    Distributes(b.refillRate, now, since);
  }

  lemma OverdrawnIsShort(ts: seq<Turn>, i: nat, n: nat, refill: real -> real)
    requires i <= n < |ts| && Timed(ts) && ts[n].Use? && Linear(refill, UsedBucket(ts, n).refillRate)
    requires FullAt(ts, i) && NoRemoval(ts, i, n) && Overdraws(ts, i, n)
    ensures UsedBucket(ts, n).tokens < 1.0
  {
    OverdrawsLinear(ts, i, n, refill);
    if i < n {
      LifeAtMost(ts, i, n, refill);
      LastRefillBefore(ts, n, n);
      RefilledLevel(Life(None, ts, n).value, ts[n].now, refill);
    }
  }

  lemma ShortIsOverdrawn(ts: seq<Turn>, n: nat, refill: real -> real) returns (i: nat)
    requires n < |ts| && Timed(ts) && ts[n].Use? && Linear(refill, UsedBucket(ts, n).refillRate)
    requires UsedBucket(ts, n).tokens < 1.0
    ensures i <= n && FullAt(ts, i) && NoRemoval(ts, i, n) && Overdraws(ts, i, n)
  {
    if FullAt(ts, n) {
      i := n;
    } else {
      FreshIsFull(ts, n);
      i := FullSince(ts, n, refill);
      LastRefillBefore(ts, n, n);
      RefilledLevel(Life(None, ts, n).value, ts[n].now, refill);
    }
    OverdrawsLinear(ts, i, n, refill);
  }
}
