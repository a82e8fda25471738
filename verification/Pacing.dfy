/** The request budget and pacing gate (`RateLimits`, `RateLimiter`). Time and rates are reals. */
module Pacing {
  import opened Text
  import opened Counting

  datatype RateLimits = RateLimits(requestsPerSecond: real, maxRequests: int, maxConcurrentRequests: int)
  {
    /** What `RateLimits.from_dict` lets through. */
    predicate Valid() {
      requestsPerSecond > 0.0 && maxRequests > 0 && maxConcurrentRequests > 0
    }

    function Interval(): (interval: real)
      requires Valid()
      ensures interval > 0.0 && interval * requestsPerSecond == 1.0
    {
      1.0 / requestsPerSecond
    }
  }

  datatype RateReason =
    | BudgetExhausted | PacingRequired | Permitted
    | NotEvaluatedAfterScopeDenial | NotEvaluatedWhileKilled | NotEvaluatedWhileDisabled
    | NotEvaluatedAfterApprovalDenial

  datatype RateDecision = RateDecision(allowed: bool, waitSeconds: real, reason: RateReason, requestCount: nat)
  {
    /** The limiter consumed budget for this decision. */
    predicate Granted() { allowed && waitSeconds == 0.0 }
  }

  /** The two fields the limiter guards with its lock. */
  datatype Ledger = Ledger(lastRequestAt: Option<real>, requestCount: nat)

  const FRESH := Ledger(None, 0)

  /** One locked `acquire` that reads `current` from the clock. */
  function Take(limits: RateLimits, s: Ledger, current: real): (Ledger, RateDecision)
    requires limits.Valid()
  {
    if s.requestCount >= limits.maxRequests then
      (s, RateDecision(false, 0.0, BudgetExhausted, s.requestCount))
    else if s.lastRequestAt.Some? && current - s.lastRequestAt.value < limits.Interval() then
      (s, RateDecision(true, limits.Interval() - (current - s.lastRequestAt.value), PacingRequired, s.requestCount))
    else
      (Ledger(Some(current), s.requestCount + 1), RateDecision(true, 0.0, Permitted, s.requestCount + 1))
  }

  class RateLimiter {
    const limits: RateLimits
    var lastRequestAt: Option<real>
    var requestCount: nat

    constructor (limits: RateLimits)
      requires limits.Valid()
      ensures this.limits == limits && State() == FRESH
    {
      this.limits := limits;
      lastRequestAt := None;
      requestCount := 0;
    }

    function State(): Ledger
      reads this
    {
      Ledger(lastRequestAt, requestCount)
    }

    method Acquire(current: real) returns (decision: RateDecision)
      requires limits.Valid()
      modifies this
      ensures (State(), decision) == Take(limits, old(State()), current)
    {
      if requestCount >= limits.maxRequests {
        return RateDecision(false, 0.0, BudgetExhausted, requestCount);
      }
      var interval := 1.0 / limits.requestsPerSecond;
      if lastRequestAt.Some? {
        var elapsed := current - lastRequestAt.value;
        if elapsed < interval {
          return RateDecision(true, interval - elapsed, PacingRequired, requestCount);
        }
      }
      lastRequestAt := Some(current);
      requestCount := requestCount + 1;
      return RateDecision(true, 0.0, Permitted, requestCount);
    }
  }

  /** Exactly when budget is consumed, and that any other answer leaves the limiter as it was. */
  lemma GrantExactly(limits: RateLimits, s: Ledger, current: real)
    requires limits.Valid()
    ensures var (s', d) := Take(limits, s, current);
      && (d.Granted() <==>
            && s.requestCount < limits.maxRequests
            && (s.lastRequestAt.Some? ==> current >= s.lastRequestAt.value + limits.Interval()))
      && (d.Granted() ==> s' == Ledger(Some(current), s.requestCount + 1) && d.requestCount == s'.requestCount)
      && (!d.Granted() ==> s' == s && d.requestCount == s.requestCount)
      && (d.allowed && !d.Granted() ==>
            && d.waitSeconds > 0.0
            && s.lastRequestAt.Some?
            && current + d.waitSeconds == s.lastRequestAt.value + limits.Interval())
      && (!d.allowed ==> d.waitSeconds == 0.0)
      && d.reason == (if s.requestCount >= limits.maxRequests then BudgetExhausted
                      else if d.Granted() then Permitted else PacingRequired)
      && (d.allowed <==> s.requestCount < limits.maxRequests)
  {
  }

  // ---------------------------------------------------------------- any sequence of clock readings

  /** The state after answering every reading in turn, whatever the readings are. */
  function LedgerAfter(limits: RateLimits, readings: seq<real>): Ledger
    requires limits.Valid()
  {
    if readings == [] then FRESH
    else Take(limits, LedgerAfter(limits, readings[..|readings| - 1]), readings[|readings| - 1]).0
  }

  /** The times at which requests were granted, in order. */
  function Grants(limits: RateLimits, readings: seq<real>): seq<real>
    requires limits.Valid()
  {
    if readings == [] then []
    else
      var n := |readings| - 1;
      var earlier := Grants(limits, readings[..n]);
      var decision := Take(limits, LedgerAfter(limits, readings[..n]), readings[n]).1;
      if decision.Granted() then earlier + [readings[n]] else earlier
  }

  /** Neighbouring grants are a full interval apart. */
  ghost predicate Paced(interval: real, grants: seq<real>) {
    forall i :: 0 < i < |grants| ==> grants[i] >= grants[i - 1] + interval
  }

  /** What the limiter remembers about the grants it made. */
  ghost predicate Remembers(limits: RateLimits, s: Ledger, grants: seq<real>)
    requires limits.Valid()
  {
    && s.requestCount == |grants| <= limits.maxRequests
    && s.lastRequestAt == (if grants == [] then None else Some(grants[|grants| - 1]))
    && Paced(limits.Interval(), grants)
  }

  lemma TakeRemembers(limits: RateLimits, s: Ledger, grants: seq<real>, current: real)
    requires limits.Valid() && Remembers(limits, s, grants)
    ensures var (s', d) := Take(limits, s, current);
      Remembers(limits, s', if d.Granted() then grants + [current] else grants)
  {
    GrantExactly(limits, s, current);
  }

  lemma {:induction false} GrantsRemembered(limits: RateLimits, readings: seq<real>)
    requires limits.Valid()
    ensures Remembers(limits, LedgerAfter(limits, readings), Grants(limits, readings))
  {
    if readings != [] {
      var n := |readings| - 1;
      GrantsRemembered(limits, readings[..n]);
      TakeRemembers(limits, LedgerAfter(limits, readings[..n]), Grants(limits, readings[..n]), readings[n]);
    }
  }

  /** `n` intervals laid end to end. */
  ghost function Span(n: nat, interval: real): real {
    if n == 0 then 0.0 else Span(n - 1, interval) + interval
  }

  lemma {:induction false} SpanIsProduct(n: nat, interval: real)
    ensures Span(n, interval) == n as real * interval
  {
    if n > 0 {
      SpanIsProduct(n - 1, interval);
      assert n as real * interval == (n - 1) as real * interval + interval;
    }
  }

  lemma Scale(x: real, y: real, factor: real)
    requires x <= y && factor > 0.0
    ensures x * factor <= y * factor
  {
    var gap := y - x;
    assert gap * factor >= 0.0;
  }

  /** Multiplying a span by the rate counts its intervals. */
  lemma SpanTimesRate(limits: RateLimits, n: nat, width: real)
    requires limits.Valid() && Span(n, limits.Interval()) <= width
    ensures n as real <= width * limits.requestsPerSecond
  {
    var rate, interval := limits.requestsPerSecond, limits.Interval();
    SpanIsProduct(n, interval);
    var spread := n as real * interval;
    assert spread * rate == n as real * (interval * rate);
    Scale(spread, width, rate);
  }

  lemma {:induction false} PacedSpread(interval: real, grants: seq<real>, i: nat, j: nat)
    requires Paced(interval, grants) && i <= j < |grants|
    ensures grants[j] - grants[i] >= Span(j - i, interval)
  {
    if i < j { PacedSpread(interval, grants, i, j - 1); }
  }

  /** Grants that fall inside `[start, start + width]`. */
  function Within(start: real, width: real): real -> bool {
    t => start <= t <= start + width
  }

  /** With `n` grants in the window, some grant in it is at least `n - 1` intervals after the window opens. */
  lemma {:induction false} WindowSpread(interval: real, grants: seq<real>, start: real, width: real)
    returns (j: nat)
    requires interval > 0.0 && Paced(interval, grants) && Count(grants, Within(start, width)) > 0
    ensures j < |grants|
      && start + Span(Count(grants, Within(start, width)) - 1, interval) <= grants[j] <= start + width
  {
    var last := |grants| - 1;
    var front := grants[..last];
    j := last;
    if Count(front, Within(start, width)) > 0 {
      var k := WindowSpread(interval, front, start, width);
      if Within(start, width)(grants[last]) {
        PacedSpread(interval, grants, k, last - 1);
        SpanNonNegative(last - 1 - k, interval);
      } else {
        j := k;
      }
    }
  }

  lemma {:induction false} SpanNonNegative(n: nat, interval: real)
    requires interval > 0.0
    ensures Span(n, interval) >= 0.0
  {
    if n > 0 { SpanNonNegative(n - 1, interval); }
  }

  lemma WindowBound(limits: RateLimits, grants: seq<real>, start: real, width: real)
    requires limits.Valid() && Paced(limits.Interval(), grants) && width >= 0.0
    ensures Count(grants, Within(start, width)) <= (width * limits.requestsPerSecond).Floor + 1
  {
    var n := Count(grants, Within(start, width));
    if n > 0 {
      var j := WindowSpread(limits.Interval(), grants, start, width);
      SpanTimesRate(limits, n - 1, width);
    } else {
      assert width * limits.requestsPerSecond >= 0.0;
    }
  }

  lemma SpacingBound(limits: RateLimits, grants: seq<real>, i: nat, j: nat)
    requires limits.Valid() && Paced(limits.Interval(), grants) && i < j < |grants|
    ensures (grants[j] - grants[i]) * limits.requestsPerSecond >= (j - i) as real
  {
    PacedSpread(limits.Interval(), grants, i, j);
    SpanTimesRate(limits, j - i, grants[j] - grants[i]);
  }

  /** Spacing and the windowed rate, for every pair of grants and every window. */
  ghost predicate WithinRate(limits: RateLimits, grants: seq<real>) {
    && (forall i: nat, j: nat :: i < j < |grants| ==>
          (grants[j] - grants[i]) * limits.requestsPerSecond >= (j - i) as real)
    && (forall start, width :: width >= 0.0 ==>
          Count(grants, Within(start, width)) <= (width * limits.requestsPerSecond).Floor + 1)
  }

  lemma PacedIsWithinRate(limits: RateLimits, grants: seq<real>)
    requires limits.Valid() && Paced(limits.Interval(), grants)
    ensures WithinRate(limits, grants)
  {
    forall i: nat, j: nat | i < j < |grants|
      ensures (grants[j] - grants[i]) * limits.requestsPerSecond >= (j - i) as real
    {
      SpacingBound(limits, grants, i, j);
    }
    forall start, width | width >= 0.0
      ensures Count(grants, Within(start, width)) <= (width * limits.requestsPerSecond).Floor + 1
    {
      WindowBound(limits, grants, start, width);
    }
  }

  /** Whatever the clock returns, even running backwards: spacing, the windowed rate and the total budget. */
  lemma RateIsBounded(limits: RateLimits, readings: seq<real>)
    requires limits.Valid()
    ensures |Grants(limits, readings)| == LedgerAfter(limits, readings).requestCount <= limits.maxRequests
    ensures WithinRate(limits, Grants(limits, readings))
  {
    GrantsRemembered(limits, readings);
    PacedIsWithinRate(limits, Grants(limits, readings));
  }
}
