/** The token bucket of `core/rate_limit.c`, with real tokens, and what whole runs of it keep. */
module RateLimit {
  /** The limiter between two initialisations. */
  datatype Bucket = Bucket(maxTokens: real, tokens: real, fillRate: real, lastUpdate: nat, suppressed: nat, total: nat)

  predicate Valid(b: Bucket)
  {
    b.maxTokens >= 1.0 && 0.0 <= b.tokens <= b.maxTokens && b.fillRate > 0.0
  }

  /** The tokens that come in during `ms` milliseconds. */
  function Income(ms: nat, rate: real): real
  {
    if ms == 0 then 0.0 else Income(ms - 1, rate) + rate
  }

  lemma {:induction false} IncomeIsProduct(ms: nat, rate: real)
    ensures Income(ms, rate) == ms as real * rate
  {
    if ms == 0 {
    } else {
      IncomeIsProduct(ms - 1, rate);
      var x := (ms - 1) as real;
      assert ms as real == x + 1.0;
      Distribute(x, 1.0, rate);
    }
  }

  lemma Distribute(x: real, y: real, r: real)
    ensures (x + y) * r == x * r + y * r
  {
  }

  lemma {:induction false} IncomeAdds(m: nat, n: nat, rate: real)
    ensures Income(m + n, rate) == Income(m, rate) + Income(n, rate)
    decreases n
  {
    if n == 0 {
    } else {
      IncomeAdds(m, n - 1, rate);
    }
  }

  lemma {:induction false} IncomeIsPositive(ms: nat, rate: real)
    requires rate > 0.0
    ensures Income(ms, rate) >= 0.0
  {
    if ms == 0 {
    } else {
      IncomeIsPositive(ms - 1, rate);
    }
  }

  /** Tokens for the time since the last update; a clock that did not advance adds none. */
  function Refilled(b: Bucket, now: nat): Bucket
  {
    if now <= b.lastUpdate then b
    else
      var tokens := b.tokens + Income(now - b.lastUpdate, b.fillRate);
      b.(tokens := if tokens > b.maxTokens then b.maxTokens else tokens, lastUpdate := now)
  }

  datatype Verdict = Verdict(bucket: Bucket, allowed: bool, reported: nat)

  function Spent(r: Bucket, wants: bool): Verdict
  {
    if r.tokens >= 1.0 then
      Verdict(r.(tokens := r.tokens - 1.0, suppressed := 0), true, if wants then r.suppressed else 0)
    else Verdict(r.(suppressed := r.suppressed + 1, total := r.total + 1), false, 0)
  }

  /** One call at time `now`; `wants` tells whether the caller asks for the suppressed count. */
  function Decide(b: Bucket, now: nat, wants: bool): Verdict
  {
    Spent(Refilled(b, now), wants)
  }

  class Limiter {
    var enabled: bool
    var maxTokens: real
    var tokens: real
    var fillRate: real
    var lastUpdate: nat
    var suppressed: nat
    var total: nat

    ghost function View(): Bucket
      reads this
    {
      Bucket(maxTokens, tokens, fillRate, lastUpdate, suppressed, total)
    }

    ghost predicate Consistent()
      reads this
    {
      enabled ==> Valid(View())
    }

    constructor ()
      ensures Consistent() && !enabled && total == 0
    {
      enabled, maxTokens, tokens, fillRate, lastUpdate, suppressed, total := false, 0.0, 0.0, 0.0, 0, 0, 0;
    }

    /** `log_rate_limit_init_for`; the total is kept. */
    method Init(enable: bool, maxPerSec: int, burst: int, now: nat)
      modifies this
      ensures Consistent() && enabled == (enable && maxPerSec > 0 && burst > 0)
      ensures enabled ==> View() == Bucket(burst as real, burst as real, maxPerSec as real / 1000.0, now, 0, old(total))
      ensures total == old(total)
    {
      enabled := enable;
      if enable && maxPerSec > 0 && burst > 0 {
        maxTokens, tokens := burst as real, burst as real;
        fillRate := maxPerSec as real / 1000.0;
        lastUpdate := now;
        suppressed := 0;
      } else {
        enabled := false;
      }
    }

    /** `log_rate_limit_allow_for`. */
    method Allow(now: nat, wants: bool) returns (ok: bool, reported: nat)
      requires Consistent()
      modifies this
      ensures Consistent() && enabled == old(enabled)
      ensures enabled ==> Verdict(View(), ok, reported) == Decide(old(View()), now, wants)
      ensures !enabled ==> ok && reported == 0 && View() == old(View())
    {
      reported := 0;
      if !enabled {
        return true, 0;
      }
      RefillBound(View(), now);
      Refill(now);
      ok, reported := Spend(wants);
    }

    method Refill(now: nat)
      requires Valid(View())
      modifies this
      ensures View() == Refilled(old(View()), now) && enabled == old(enabled)
    {
      if now > lastUpdate {
        IncomeIsProduct(now - lastUpdate, fillRate);
        tokens := tokens + (now - lastUpdate) as real * fillRate;
        if tokens > maxTokens {
          tokens := maxTokens;
        }
        lastUpdate := now;
      }
    }

    method Spend(wants: bool) returns (ok: bool, reported: nat)
      modifies this
      ensures Verdict(View(), ok, reported) == Spent(old(View()), wants) && enabled == old(enabled)
    {
      reported := 0;
      if tokens >= 1.0 {
        tokens := tokens - 1.0;
        if suppressed > 0 {
          if wants {
            reported := suppressed;
          }
          suppressed := 0;
        }
        return true, reported;
      }
      suppressed, total := suppressed + 1, total + 1;
      return false, reported;
    }

    /** `log_rate_limit_reset_for`. */
    method Reset()
      modifies this
      ensures Consistent() && !enabled && total == 0 && suppressed == 0
    {
      enabled, maxTokens, tokens, fillRate, lastUpdate, suppressed, total := false, 0.0, 0.0, 0.0, 0, 0, 0;
    }
  }

  // ---- one call ----

  /** A refill adds no more than the rate allows. */
  lemma RefillBound(b: Bucket, now: nat)
    requires Valid(b)
    ensures Valid(Refilled(b, now)) && Refilled(b, now).lastUpdate >= b.lastUpdate
    ensures Refilled(b, now).tokens <= b.tokens + Income(Refilled(b, now).lastUpdate - b.lastUpdate, b.fillRate)
    ensures Refilled(b, now).maxTokens == b.maxTokens && Refilled(b, now).fillRate == b.fillRate
    ensures Refilled(b, now).suppressed == b.suppressed && Refilled(b, now).total == b.total
  {
    if now > b.lastUpdate {
      IncomeIsPositive(now - b.lastUpdate, b.fillRate);
    }
  }

  // ---- runs ----

  datatype Call = Call(now: nat, wants: bool)

  /** The bucket after the first n calls. */
  function After(b: Bucket, calls: seq<Call>, n: nat): Bucket
    requires n <= |calls|
  {
    if n == 0 then b else Decide(After(b, calls, n - 1), calls[n - 1].now, calls[n - 1].wants).bucket
  }

  function Nth(b: Bucket, calls: seq<Call>, n: nat): Verdict
    requires n < |calls|
  {
    Decide(After(b, calls, n), calls[n].now, calls[n].wants)
  }

  /** The calls from m up to n that are allowed, and the counts they report. */
  function Allowed(b: Bucket, calls: seq<Call>, m: nat, n: nat): nat
    requires m <= n <= |calls|
    decreases n
  {
    if m == n then 0 else Allowed(b, calls, m, n - 1) + (if Nth(b, calls, n - 1).allowed then 1 else 0)
  }

  function Reported(b: Bucket, calls: seq<Call>, m: nat, n: nat): nat
    requires m <= n <= |calls|
    decreases n
  {
    if m == n then 0 else Reported(b, calls, m, n - 1) + Nth(b, calls, n - 1).reported
  }

  lemma {:induction false} RunKeepsValid(b: Bucket, calls: seq<Call>, n: nat)
    requires Valid(b) && n <= |calls|
    ensures Valid(After(b, calls, n))
    ensures After(b, calls, n).maxTokens == b.maxTokens && After(b, calls, n).fillRate == b.fillRate
  {
    if n == 0 {
    } else {
      RunKeepsValid(b, calls, n - 1);
      RefillBound(After(b, calls, n - 1), calls[n - 1].now);
    }
  }

  /** Every token that is spent was in the bucket or came in by the clock. */
  lemma {:induction false} TokensAreConserved(b: Bucket, calls: seq<Call>, m: nat, n: nat)
    requires Valid(b) && m <= n <= |calls|
    ensures After(b, calls, m).lastUpdate <= After(b, calls, n).lastUpdate
    ensures Allowed(b, calls, m, n) as real + After(b, calls, n).tokens <=
            After(b, calls, m).tokens +
              Income(After(b, calls, n).lastUpdate - After(b, calls, m).lastUpdate, b.fillRate)
    decreases n
  {
    if m == n {
    } else {
      TokensAreConserved(b, calls, m, n - 1);
      RunKeepsValid(b, calls, n - 1);
      var p, q := After(b, calls, n - 1), After(b, calls, n);
      RefillBound(p, calls[n - 1].now);
      IncomeAdds(p.lastUpdate - After(b, calls, m).lastUpdate, q.lastUpdate - p.lastUpdate, b.fillRate);
    }
  }

  /** The advance of the bucket's clock over a window. */
  function Elapsed(b: Bucket, calls: seq<Call>, m: nat, n: nat): int
    requires m <= n <= |calls|
  {
    After(b, calls, n).lastUpdate - After(b, calls, m).lastUpdate
  }

  lemma WindowBudget(b: Bucket, calls: seq<Call>, m: nat, n: nat, ms: nat)
    requires Valid(b) && m <= n <= |calls| && ms == Elapsed(b, calls, m, n)
    ensures Allowed(b, calls, m, n) as real <= b.maxTokens + Income(ms, b.fillRate)
  {
    TokensAreConserved(b, calls, m, n);
    RunKeepsValid(b, calls, m);
    RunKeepsValid(b, calls, n);
  }

  lemma ElapsedIsPositive(b: Bucket, calls: seq<Call>, m: nat, n: nat)
    requires Valid(b) && m <= n <= |calls|
    ensures Elapsed(b, calls, m, n) >= 0
  {
    TokensAreConserved(b, calls, m, n);
  }

  lemma BudgetIsProduct(allowed: real, burst: real, ms: nat, rate: real)
    requires allowed <= burst + Income(ms, rate)
    ensures allowed <= burst + ms as real * rate
  {
    IncomeIsProduct(ms, rate);
  }

  /** In any window of a run at most the burst plus the rate times the advance of the clock is
      allowed. */
  lemma WindowBound(b: Bucket, calls: seq<Call>, m: nat, n: nat, allowed: real, ms: int)
    requires Valid(b) && m <= n <= |calls|
    requires allowed == Allowed(b, calls, m, n) as real && ms == Elapsed(b, calls, m, n)
    ensures ms >= 0 && allowed <= b.maxTokens + ms as real * b.fillRate
  {
    ElapsedIsPositive(b, calls, m, n);
    assert allowed <= b.maxTokens + Income(ms, b.fillRate) by { WindowBudget(b, calls, m, n, ms); }
    assert allowed <= b.maxTokens + ms as real * b.fillRate by {
      BudgetIsProduct(allowed, b.maxTokens, ms, b.fillRate);
    }
  }

  /** Every call is allowed or counted as suppressed. */
  lemma {:induction false} CallsAreCounted(b: Bucket, calls: seq<Call>, m: nat, n: nat)
    requires m <= n <= |calls|
    ensures After(b, calls, m).total <= After(b, calls, n).total
    ensures n - m == Allowed(b, calls, m, n) + (After(b, calls, n).total - After(b, calls, m).total)
    decreases n
  {
    if m == n {
    } else {
      CallsAreCounted(b, calls, m, n - 1);
    }
  }

  /** Counts that are reported and the count that is pending add up to what was suppressed, when
      every caller takes the count. */
  lemma {:induction false} SuppressedAreReported(b: Bucket, calls: seq<Call>, m: nat, n: nat)
    requires m <= n <= |calls| && forall k :: m <= k < n ==> calls[k].wants
    ensures Reported(b, calls, m, n) + After(b, calls, n).suppressed ==
            After(b, calls, m).suppressed + (After(b, calls, n).total - After(b, calls, m).total)
    decreases n
  {
    if m == n {
    } else {
      SuppressedAreReported(b, calls, m, n - 1);
    }
  }

  lemma SlowCallIsAllowed(b: Bucket, now: nat, wants: bool)
    requires Valid(b) && now > b.lastUpdate && Income(now - b.lastUpdate, b.fillRate) >= 1.0
    ensures Decide(b, now, wants).allowed
  {
  }

  predicate LeavesTime(b: Bucket, calls: seq<Call>, k: nat)
    requires k < |calls|
  {
    var p := After(b, calls, k);
    calls[k].now > p.lastUpdate && Income(calls[k].now - p.lastUpdate, p.fillRate) >= 1.0
  }

  /** A caller who leaves time for a token before each call is never suppressed. */
  lemma {:induction false} SlowCallsAreAllowed(b: Bucket, calls: seq<Call>, n: nat)
    requires Valid(b) && n <= |calls| && forall k :: 0 <= k < n ==> LeavesTime(b, calls, k)
    ensures Allowed(b, calls, 0, n) == n
  {
    if n == 0 {
    } else {
      SlowCallsAreAllowed(b, calls, n - 1);
      RunKeepsValid(b, calls, n - 1);
      assert LeavesTime(b, calls, n - 1);
      SlowCallIsAllowed(After(b, calls, n - 1), calls[n - 1].now, calls[n - 1].wants);
    }
  }

  // ---- what is not suppressed ----

  lemma RefillTakesNone(b: Bucket, now: nat)
    requires Valid(b)
    ensures Refilled(b, now).tokens >= b.tokens
  {
    if now > b.lastUpdate {
      IncomeIsPositive(now - b.lastUpdate, b.fillRate);
    }
  }

  /** Calls are all allowed, at whatever times, while they are no more than the tokens at their start. */
  lemma {:induction false} BurstIsAllowed(b: Bucket, calls: seq<Call>, m: nat, n: nat)
    requires Valid(b) && m <= n <= |calls| && (n - m) as real <= After(b, calls, m).tokens
    ensures Allowed(b, calls, m, n) == n - m
    ensures After(b, calls, n).tokens >= After(b, calls, m).tokens - (n - m) as real
    decreases n
  {
    if m == n {
    } else {
      BurstIsAllowed(b, calls, m, n - 1);
      RunKeepsValid(b, calls, n - 1);
      RefillTakesNone(After(b, calls, n - 1), calls[n - 1].now);
    }
  }

  /** The refill before call k does not overflow the bucket. */
  predicate Uncapped(b: Bucket, calls: seq<Call>, k: nat)
    requires k < |calls|
  {
    var p := After(b, calls, k);
    calls[k].now <= p.lastUpdate || p.tokens + Income(calls[k].now - p.lastUpdate, p.fillRate) <= p.maxTokens
  }

  /** While the bucket does not overflow, no token is lost: what was there and what the clock
      brought in is what was spent and what is left. */
  lemma {:induction false} NoTokenIsLost(b: Bucket, calls: seq<Call>, m: nat, n: nat)
    requires Valid(b) && m <= n <= |calls| && forall k :: m <= k < n ==> Uncapped(b, calls, k)
    ensures After(b, calls, m).lastUpdate <= After(b, calls, n).lastUpdate
    ensures Allowed(b, calls, m, n) as real + After(b, calls, n).tokens ==
            After(b, calls, m).tokens +
              Income(After(b, calls, n).lastUpdate - After(b, calls, m).lastUpdate, b.fillRate)
    decreases n
  {
    if m == n {
    } else {
      NoTokenIsLost(b, calls, m, n - 1);
      RunKeepsValid(b, calls, n - 1);
      var p, q := After(b, calls, n - 1), After(b, calls, n);
      assert Uncapped(b, calls, n - 1);
      RefillBound(p, calls[n - 1].now);
      IncomeAdds(p.lastUpdate - After(b, calls, m).lastUpdate, q.lastUpdate - p.lastUpdate, b.fillRate);
    }
  }

  /** Only a call that finds less than a token is suppressed. */
  lemma SuppressedIsPoor(b: Bucket, calls: seq<Call>, m: nat, n: nat)
    requires Valid(b) && m <= n < |calls| && !Nth(b, calls, n).allowed
    requires forall k :: m <= k <= n ==> Uncapped(b, calls, k)
    ensures After(b, calls, m).lastUpdate <= After(b, calls, n + 1).lastUpdate
    ensures After(b, calls, m).tokens +
              Income(After(b, calls, n + 1).lastUpdate - After(b, calls, m).lastUpdate, b.fillRate) <
            Allowed(b, calls, m, n) as real + 1.0
  {
    NoTokenIsLost(b, calls, m, n + 1);
  }

  /** An allowed call ends a series of suppressed ones: it reports their number to a caller who asks,
      and the next series is counted from zero. */
  lemma AllowedEndsSeries(b: Bucket, calls: seq<Call>, n: nat)
    requires n < |calls| && Nth(b, calls, n).allowed
    ensures After(b, calls, n + 1).suppressed == 0
    ensures Nth(b, calls, n).reported == if calls[n].wants then After(b, calls, n).suppressed else 0
  {
  }
}
